/**
 Dual-control erasure over whole runs (internal/gate/admin.go:276-300, 643-703;
 internal/gate/gate.go:80-90): a subject's key is destroyed only by a request, a
 timely approval by another principal who is a DPO, and a hold window nobody cancelled.
 */
module ErasureControl {
  import opened Hashing
  import opened Text
  import opened Pseudonym
  import opened Approval

  datatype Config = Config(ttl: int, hold: int)

  /** The node: approvals, the hold queue and the vault in memory, the last sealed snapshot on disk. */
  datatype Gate = Gate(pending: Pendings, items: Shreds, vault: VaultState, disk: Option<Snap>)

  /** Calls in the order they take effect; now and end are a call's first and last clock readings, ids are random. */
  datatype Event =
    | Request(id: string, target: string, legalBasis: string, op: Operator, now: int, end: int)
    | Propose(id: string, name: string, op: Operator, needsRole: Role, now: int, end: int)
    | Approve(id: string, op: Operator, shredId: string, now: int, end: int)
    | ListPending(now: int, end: int)
    | Cancel(shredId: string, now: int, end: int)
    | RunDue(now: int, end: int)
    | Pseudonymize(subject: string, random: Bytes, now: int, end: int)
    | Link(handle: string, subject: string, now: int, end: int)
    | Save(now: int, end: int)
    | Restart(now: int, end: int)

  /** A handle shown by the console, or already a subject id. */
  function SubjectOf(v: VaultState, target: string): string {
    var found := Resolve(v, target);
    if found.Some? then found.value else target
  }

  /** Erasure needs the DPO role twice over: in the pending action and at its approval. */
  predicate Schedules(outcome: Outcome, op: Operator) {
    outcome.Granted? && outcome.action.kind == Erasure && op.role == DPO
  }

  function Subjects(due: Shreds): set<string> {
    set id | id in due :: due[id].subject
  }

  function ShredAll(v: VaultState, subjects: set<string>): VaultState {
    VaultState(v.keys - subjects, v.shredded + subjects,
               map handle | handle in v.index && v.index[handle] !in subjects :: v.index[handle])
  }

  function Step(cfg: Config, g: Gate, e: Event): Gate {
    match e
    case Request(id, target, legalBasis, op, now, end) =>
      if target == "" || legalBasis == "" then g
      else
        var p := PendingAction(id, Erasure, SubjectOf(g.vault, target), legalBasis, op.id, DPO, now);
        g.(pending := Unexpired(g.pending, end, cfg.ttl)[id := p])
    case Propose(id, name, op, needsRole, now, end) =>
      var p := PendingAction(id, Other(name), "", "", op.id, needsRole, now);
      g.(pending := Unexpired(g.pending, end, cfg.ttl)[id := p])
    case Approve(id, op, shredId, now, end) =>
      var (pending, outcome) := Approved(g.pending, id, op, now, cfg.ttl);
      if Schedules(outcome, op) then
        var p := outcome.action;
        var s := ScheduledShred(shredId, p.subject, p.requester, op.id, p.legalBasis, end + cfg.hold);
        g.(pending := pending, items := g.items[shredId := s])
      else g.(pending := pending)
    case ListPending(now, _) => g.(pending := Unexpired(g.pending, now, cfg.ttl))
    case Cancel(shredId, _, _) => g.(items := g.items - {shredId})
    case RunDue(now, _) => g.(items := HeldAt(g.items, now), vault := ShredAll(g.vault, Subjects(DueBy(g.items, now))))
    case Pseudonymize(subject, random, _, _) => g.(vault := SubjectKey(g.vault, subject, true, random).0)
    case Link(handle, subject, _, _) => g.(vault := Linked(g.vault, handle, subject))
    case Save(_, _) => g.(disk := Some(Snapshot(g.vault)))
    case Restart(_, _) => Gate(map[], map[], Load(g.disk), g.disk)
  }

  function StateAt(cfg: Config, g: Gate, events: seq<Event>, n: nat): Gate
    requires n <= |events|
  {
    if n == 0 then g else Step(cfg, StateAt(cfg, g, events, n - 1), events[n - 1])
  }

  /** The handlers over the three stores. */
  class Server {
    const approvals: ApprovalStore
    const shreds: ShredQueue
    const vault: Vault

    function View(disk: Option<Snap>): Gate
      reads approvals, shreds, vault
    {
      Gate(approvals.pending, shreds.items, vault.View(), disk)
    }

    function Settings(): Config {
      Config(approvals.ttl, shreds.hold)
    }

    constructor (approvals: ApprovalStore, shreds: ShredQueue, vault: Vault)
      ensures this.approvals == approvals && this.shreds == shreds && this.vault == vault
    {
      this.approvals, this.shreds, this.vault := approvals, shreds, vault;
    }

    method AdminErasure(id: string, target: string, legalBasis: string, op: Operator, now: int, end: int,
                        ghost disk: Option<Snap>)
      modifies approvals
      ensures View(disk) == Step(Settings(), old(View(disk)), Request(id, target, legalBasis, op, now, end))
    {
      if target == "" || legalBasis == "" {
        return;
      }
      var subject := target;
      if target in vault.index {
        subject := vault.index[target];
      }
      var p := approvals.Create(id, Erasure, subject, legalBasis, op.id, DPO, now, end);
    }

    method AdminApprove(id: string, op: Operator, shredId: string, now: int, end: int, ghost disk: Option<Snap>)
      returns (outcome: Outcome)
      modifies approvals, shreds
      ensures View(disk) == Step(Settings(), old(View(disk)), Event.Approve(id, op, shredId, now, end))
      ensures outcome == Approved(old(approvals.pending), id, op, now, approvals.ttl).1
    {
      outcome := approvals.Approve(id, op, now);
      if outcome.Denied? {
        return;
      }
      var p := outcome.action;
      if p.kind == Erasure && op.role != DPO {
        return;
      }
      if p.kind == Erasure {
        var s := shreds.Schedule(shredId, p.subject, p.requester, op.id, p.legalBasis, end);
      }
    }

    method RunDueShreds(now: int, ghost disk: Option<Snap>) returns (n: nat)
      modifies shreds, vault
      ensures View(disk) == Step(Settings(), old(View(disk)), RunDue(now, now))
      ensures n == |DueBy(old(shreds.items), now)|
    {
      var due := shreds.Due(now);
      assert View(disk) == old(View(disk)).(items := HeldAt(old(shreds.items), now));
      Execute(vault, due);
      n := |due|;
    }
  }

  /** The due shreds are executed in any order. */
  method Execute(vault: Vault, due: Shreds)
    modifies vault
    ensures vault.View() == ShredAll(old(vault.View()), Subjects(due))
  {
    ghost var before, done: set<string> := vault.View(), {};
    var todo := due.Keys;
    ShredNone(before);
    while todo != {}
      invariant todo <= due.Keys && done <= Subjects(due)
      invariant forall id :: id in due ==> id in todo || due[id].subject in done
      invariant vault.View() == ShredAll(before, done)
      decreases todo
    {
      var id :| id in todo;
      var subject := due[id].subject;
      ShredMore(before, done, subject);
      var existed := vault.Shred(subject);
      done := done + {subject};
      todo := todo - {id};
    }
    assert done == Subjects(due);
  }

  lemma ShredNone(v: VaultState)
    ensures ShredAll(v, {}) == v
  {
    var w := ShredAll(v, {});
    assert w.keys == v.keys && w.shredded == v.shredded && w.index == v.index;
  }

  lemma ShredMore(v: VaultState, done: set<string>, subject: string)
    ensures Shredded(ShredAll(v, done), subject) == ShredAll(v, done + {subject})
  {
    var a, b := Shredded(ShredAll(v, done), subject), ShredAll(v, done + {subject});
    assert a.keys == b.keys && a.shredded == b.shredded && a.index == b.index;
  }

  // ---------------------------------------------------------------- where a shred comes from

  predicate SameShredId(a: Event, b: Event) {
    a.Approve? && b.Approve? && a.shredId == b.shredId
  }

  predicate SameActionId(a: Event, b: Event) {
    (a.Request? || a.Propose?) && (b.Request? || b.Propose?) && a.id == b.id
  }

  /** Random ids never repeat. */
  ghost predicate FreshIds(events: seq<Event>) {
    forall i, j :: 0 <= i < j < |events| ==> !SameShredId(events[i], events[j]) && !SameActionId(events[i], events[j])
  }

  /** The a-th event requested this pending action, for the subject its target led to. */
  ghost predicate RequestedAt(cfg: Config, g: Gate, events: seq<Event>, a: nat, p: PendingAction)
    requires a < |events|
  {
    var e := events[a];
    && e.Request? && e.id == p.id && e.now == p.created && e.op.id == p.requester && e.legalBasis == p.legalBasis
    && p.subject == SubjectOf(StateAt(cfg, g, events, a).vault, e.target)
  }

  /** The b-th event is the approval, in time and by another principal, a DPO, that scheduled this shred. */
  ghost predicate ApprovedAt(cfg: Config, g: Gate, events: seq<Event>, b: nat, p: PendingAction, s: ScheduledShred)
    requires b < |events|
  {
    var e := events[b];
    && e.Approve? && e.id == p.id && e.shredId == s.id && e.op.role == DPO && e.op.id != p.requester
    && e.now - p.created <= cfg.ttl && e.op.id == s.approver && s.executeAt == e.end + cfg.hold
    && s.subject == p.subject && s.requester == p.requester && s.legalBasis == p.legalBasis
    && Approved(StateAt(cfg, g, events, b).pending, e.id, e.op, e.now, cfg.ttl).1 == Granted(p)
  }

  /** From the b-th event to the n-th the shred stays queued: not cancelled, not executed, no restart. */
  ghost predicate HeldSince(cfg: Config, g: Gate, events: seq<Event>, b: nat, n: nat, id: string) {
    n <= |events| && forall c: nat :: b < c <= n ==> id in StateAt(cfg, g, events, c).items
  }

  ghost predicate Authorised(cfg: Config, g: Gate, events: seq<Event>, a: nat, b: nat, n: nat, s: ScheduledShred) {
    && a < b < n <= |events|
    && HeldSince(cfg, g, events, b, n, s.id)
    && exists p :: RequestedAt(cfg, g, events, a, p) && ApprovedAt(cfg, g, events, b, p, s)
  }

  ghost predicate PendingFrom(cfg: Config, g: Gate, events: seq<Event>, n: nat, id: string, p: PendingAction)
    requires n <= |events|
  {
    && p.id == id
    && (p.kind == Erasure ==> p.needsRole == DPO && exists a: nat :: a < n && RequestedAt(cfg, g, events, a, p))
  }

  ghost predicate ItemFrom(cfg: Config, g: Gate, events: seq<Event>, n: nat, id: string, s: ScheduledShred) {
    s.id == id && exists a: nat, b: nat :: Authorised(cfg, g, events, a, b, n, s)
  }

  ghost predicate AllFrom(cfg: Config, g: Gate, events: seq<Event>, n: nat)
    requires n <= |events|
  {
    var now := StateAt(cfg, g, events, n);
    && (forall id :: id in now.pending ==> PendingFrom(cfg, g, events, n, id, now.pending[id]))
    && (forall id :: id in now.items ==> ItemFrom(cfg, g, events, n, id, now.items[id]))
  }

  lemma PendingLater(cfg: Config, g: Gate, events: seq<Event>, n: nat, id: string, p: PendingAction)
    requires n < |events| && PendingFrom(cfg, g, events, n, id, p)
    ensures PendingFrom(cfg, g, events, n + 1, id, p)
  {
  }

  lemma HeldLonger(cfg: Config, g: Gate, events: seq<Event>, b: nat, n: nat, id: string)
    requires n < |events| && HeldSince(cfg, g, events, b, n, id) && id in StateAt(cfg, g, events, n + 1).items
    ensures HeldSince(cfg, g, events, b, n + 1, id)
  {
    forall c: nat | b < c <= n + 1 ensures id in StateAt(cfg, g, events, c).items {
      if c <= n {
        assert id in StateAt(cfg, g, events, c).items;
      }
    }
  }

  lemma ItemLater(cfg: Config, g: Gate, events: seq<Event>, n: nat, id: string, s: ScheduledShred)
    requires n < |events| && ItemFrom(cfg, g, events, n, id, s) && id in StateAt(cfg, g, events, n + 1).items
    ensures ItemFrom(cfg, g, events, n + 1, id, s)
  {
    var a: nat, b: nat :| Authorised(cfg, g, events, a, b, n, s);
    HeldLonger(cfg, g, events, b, n, id);
    assert Authorised(cfg, g, events, a, b, n + 1, s);
  }

  /** A step keeps pending actions or creates one. */
  lemma PendingStep(cfg: Config, g: Gate, e: Event, id: string)
    requires id in Step(cfg, g, e).pending
    ensures var p := Step(cfg, g, e).pending[id];
      || (id in g.pending && p == g.pending[id])
      || (e.Propose? && p.id == id && p.kind != Erasure)
      || (e.Request? && e.id == id
          && p == PendingAction(id, Erasure, SubjectOf(g.vault, e.target), e.legalBasis, e.op.id, DPO, e.now))
  {
  }

  /** A step keeps scheduled shreds or schedules one for an approval. */
  lemma ItemStep(cfg: Config, g: Gate, e: Event, id: string)
    requires id in Step(cfg, g, e).items
    ensures var s := Step(cfg, g, e).items[id];
      || (id in g.items && s == g.items[id])
      || ScheduledBy(cfg, g, e, id, s)
  {
  }

  ghost predicate ScheduledBy(cfg: Config, g: Gate, e: Event, id: string, s: ScheduledShred) {
    && e.Approve? && e.shredId == id && e.id in g.pending && e.op.role == DPO
    && var p := g.pending[e.id];
    && p.kind == Erasure && Open(p, e.now, cfg.ttl) && e.op.id != p.requester
    && s == ScheduledShred(id, p.subject, p.requester, e.op.id, p.legalBasis, e.end + cfg.hold)
  }

  lemma NewItemFrom(cfg: Config, g: Gate, events: seq<Event>, n: nat, id: string, s: ScheduledShred)
    requires n < |events| && AllFrom(cfg, g, events, n) && id in StateAt(cfg, g, events, n + 1).items
    requires ScheduledBy(cfg, StateAt(cfg, g, events, n), events[n], id, s)
    ensures ItemFrom(cfg, g, events, n + 1, id, s)
  {
    var p := StateAt(cfg, g, events, n).pending[events[n].id];
    assert PendingFrom(cfg, g, events, n, events[n].id, p);
    var a: nat :| a < n && RequestedAt(cfg, g, events, a, p);
    assert ApprovedAt(cfg, g, events, n, p, s);
    forall c: nat | n < c <= n + 1 ensures id in StateAt(cfg, g, events, c).items {
    }
    assert HeldSince(cfg, g, events, n, n + 1, id);
    assert Authorised(cfg, g, events, a, n, n + 1, s);
  }

  lemma AllFromNext(cfg: Config, g: Gate, events: seq<Event>, n: nat, m: nat)
    requires n < |events| && m == n + 1 && AllFrom(cfg, g, events, n)
    ensures AllFrom(cfg, g, events, m)
  {
    var was, now, e := StateAt(cfg, g, events, n), StateAt(cfg, g, events, n + 1), events[n];
    forall id | id in now.pending ensures PendingFrom(cfg, g, events, n + 1, id, now.pending[id]) {
      PendingStep(cfg, was, e, id);
      if id in was.pending && now.pending[id] == was.pending[id] {
        PendingLater(cfg, g, events, n, id, was.pending[id]);
      } else if e.Request? {
        assert RequestedAt(cfg, g, events, n, now.pending[id]);
      }
    }
    forall id | id in now.items ensures ItemFrom(cfg, g, events, n + 1, id, now.items[id]) {
      ItemStep(cfg, was, e, id);
      if ScheduledBy(cfg, was, e, id, now.items[id]) {
        NewItemFrom(cfg, g, events, n, id, now.items[id]);
      } else {
        ItemLater(cfg, g, events, n, id, was.items[id]);
      }
    }
  }

  lemma {:induction false} AllFromRun(cfg: Config, g: Gate, events: seq<Event>, n: nat)
    requires n <= |events| && g.pending == map[] && g.items == map[]
    ensures AllFrom(cfg, g, events, n)
  {
    if n == 0 {
      AllFromStart(cfg, g, events);
    } else {
      AllFromRun(cfg, g, events, n - 1);
      AllFromNext(cfg, g, events, n - 1, n);
    }
  }

  lemma AllFromStart(cfg: Config, g: Gate, events: seq<Event>)
    requires g.pending == map[] && g.items == map[]
    ensures AllFrom(cfg, g, events, 0)
  {
    assert StateAt(cfg, g, events, 0) == g;
  }

  /** The k-th event, a sweep of the queue, executes the shred with this id. */
  predicate Executes(cfg: Config, g: Gate, events: seq<Event>, k: nat, id: string)
    requires k < |events|
  {
    var items := StateAt(cfg, g, events, k).items;
    events[k].RunDue? && id in items && items[id].executeAt <= events[k].now
  }

  /**
   Dual control: a shred is executed only if some earlier event requested it, a later one
   approved it within the time limit by a different principal with the DPO role, it stayed
   queued without cancellation or restart ever since, and its whole hold window is over.
   */
  lemma DualControl(cfg: Config, g: Gate, events: seq<Event>, k: nat, id: string)
    requires g.pending == map[] && g.items == map[] && k < |events| && Executes(cfg, g, events, k, id)
    ensures var s := StateAt(cfg, g, events, k).items[id];
      && s.id == id
      && exists a: nat, b: nat :: Authorised(cfg, g, events, a, b, k, s) && events[b].end + cfg.hold <= events[k].now
  {
    AllFromRun(cfg, g, events, k);
    var s := StateAt(cfg, g, events, k).items[id];
    assert ItemFrom(cfg, g, events, k, id, s);
    var a: nat, b: nat :| Authorised(cfg, g, events, a, b, k, s);
    assert events[b].end + cfg.hold <= events[k].now;
  }

  /** Nobody cancelled a shred that is executed, between its approval and its execution. */
  lemma NotCancelled(cfg: Config, g: Gate, events: seq<Event>, a: nat, b: nat, k: nat, s: ScheduledShred, c: nat)
    requires Authorised(cfg, g, events, a, b, k, s) && b < c < k
    ensures !(events[c].Cancel? && events[c].shredId == s.id) && !events[c].Restart?
    ensures !Executes(cfg, g, events, c, s.id)
  {
    assert s.id in StateAt(cfg, g, events, c + 1).items;
  }

  /** Each approval is executed at most once. */
  lemma AtMostOnce(cfg: Config, g: Gate, events: seq<Event>, k: nat, l: nat, id: string)
    requires g.pending == map[] && g.items == map[] && FreshIds(events) && k < l < |events|
    requires Executes(cfg, g, events, k, id)
    ensures !Executes(cfg, g, events, l, id)
  {
    if Executes(cfg, g, events, l, id) {
      DualControl(cfg, g, events, k, id);
      DualControl(cfg, g, events, l, id);
      var s, t := StateAt(cfg, g, events, k).items[id], StateAt(cfg, g, events, l).items[id];
      var a: nat, b: nat :| Authorised(cfg, g, events, a, b, k, s);
      var c: nat, d: nat :| Authorised(cfg, g, events, c, d, l, t);
      SameApproval(cfg, g, events, a, b, k, s, c, d, l, t);
      NotCancelled(cfg, g, events, c, d, l, t, k);
      assert false;
    }
  }

  lemma SameApproval(cfg: Config, g: Gate, events: seq<Event>, a: nat, b: nat, k: nat, s: ScheduledShred, c: nat,
                     d: nat, l: nat, t: ScheduledShred)
    requires FreshIds(events) && s.id == t.id
    requires Authorised(cfg, g, events, a, b, k, s) && Authorised(cfg, g, events, c, d, l, t)
    ensures b == d
  {
    assert SameShredId(events[b], events[d]);
  }

  /** Once granted, an action is never pending again. */
  lemma {:induction false} GrantedIsGone(cfg: Config, g: Gate, events: seq<Event>, a: nat, b: nat, n: nat)
    requires FreshIds(events) && a < b < n <= |events| && events[a].Request?
    requires events[b].Approve? && events[b].id == events[a].id
    requires Approved(StateAt(cfg, g, events, b).pending, events[b].id, events[b].op, events[b].now, cfg.ttl).1.Granted?
    ensures events[a].id !in StateAt(cfg, g, events, n).pending
    decreases n
  {
    if n > b + 1 {
      GrantedIsGone(cfg, g, events, a, b, n - 1);
      assert !SameActionId(events[a], events[n - 1]);
      if events[a].id in StateAt(cfg, g, events, n).pending {
        PendingStep(cfg, StateAt(cfg, g, events, n - 1), events[n - 1], events[a].id);
        assert false;
      }
    }
  }

  /** One request leads to at most one approval. */
  lemma OneApproval(cfg: Config, g: Gate, events: seq<Event>, a: nat, b: nat, k: nat, s: ScheduledShred, d: nat,
                    l: nat, t: ScheduledShred)
    requires FreshIds(events) && Authorised(cfg, g, events, a, b, k, s) && Authorised(cfg, g, events, a, d, l, t)
    ensures b == d
  {
    if b < d {
      GrantedIsGone(cfg, g, events, a, b, d);
    } else if d < b {
      GrantedIsGone(cfg, g, events, a, d, b);
    }
  }

  /** One request is executed at most once, whatever happens in between. */
  lemma OneExecution(cfg: Config, g: Gate, events: seq<Event>, a: nat, b: nat, k: nat, s: ScheduledShred, d: nat,
                     l: nat, t: ScheduledShred)
    requires FreshIds(events) && Authorised(cfg, g, events, a, b, k, s) && Authorised(cfg, g, events, a, d, l, t)
    requires k < |events| && l < |events| && Executes(cfg, g, events, k, s.id) && Executes(cfg, g, events, l, t.id)
    ensures k == l && s.id == t.id
  {
    OneApproval(cfg, g, events, a, b, k, s, d, l, t);
    if k < l {
      NotCancelled(cfg, g, events, a, d, l, t, k);
    } else if l < k {
      NotCancelled(cfg, g, events, a, b, k, s, l);
    }
  }

  /** A key leaves the vault only by an executed shred, or by a restart from an older snapshot. */
  lemma KeysOnlyShredded(cfg: Config, g: Gate, events: seq<Event>, k: nat, subject: string)
    requires k < |events| && subject in StateAt(cfg, g, events, k).vault.keys && !events[k].Restart?
    requires subject !in StateAt(cfg, g, events, k + 1).vault.keys
    ensures exists id :: Executes(cfg, g, events, k, id) && StateAt(cfg, g, events, k).items[id].subject == subject
  {
    var was := StateAt(cfg, g, events, k);
    var due := DueBy(was.items, events[k].now);
    assert events[k].RunDue? && subject in Subjects(due);
    var id :| id in due && due[id].subject == subject;
    assert Executes(cfg, g, events, k, id);
  }

  /** Short of a restart, a key that leaves the vault goes back to a request, an approval and a full hold. */
  lemma KeysUnderDualControl(cfg: Config, g: Gate, events: seq<Event>, k: nat, m: nat, subject: string)
    requires g.pending == map[] && g.items == map[] && m == k + 1 <= |events| && !events[k].Restart?
    requires subject in StateAt(cfg, g, events, k).vault.keys && subject !in StateAt(cfg, g, events, m).vault.keys
    ensures exists a: nat, b: nat, s: ScheduledShred ::
      && s.subject == subject && Authorised(cfg, g, events, a, b, k, s) && events[b].end + cfg.hold <= events[k].now
  {
    KeysOnlyShredded(cfg, g, events, k, subject);
    var id :| Executes(cfg, g, events, k, id) && StateAt(cfg, g, events, k).items[id].subject == subject;
    DualControl(cfg, g, events, k, id);
  }

  // ---------------------------------------------------------------- erased for good

  /** Both the vault in memory and the one on disk are well-formed. */
  ghost predicate WellKept(g: Gate) {
    Sound(g.vault) && Sound(Load(g.disk))
  }

  lemma ShredAllErases(v: VaultState, subjects: set<string>)
    requires Sound(v)
    ensures Sound(ShredAll(v, subjects)) && forall s :: s in subjects ==> Erased(ShredAll(v, subjects), s)
  {
    var w := ShredAll(v, subjects);
    forall s | s in w.shredded ensures Erased(w, s) {
      if s !in subjects {
        assert Erased(v, s);
      }
    }
  }

  lemma StepWellKept(cfg: Config, g: Gate, e: Event)
    requires WellKept(g)
    ensures WellKept(Step(cfg, g, e))
    ensures !e.Restart? ==> g.vault.shredded <= Step(cfg, g, e).vault.shredded
  {
    match e
    case RunDue(now, _) => ShredAllErases(g.vault, Subjects(DueBy(g.items, now)));
    case Pseudonymize(subject, random, _, _) => MintKeeps(g.vault, subject, random);
    case Link(handle, subject, _, _) => LinkKeeps(g.vault, handle, subject);
    case Save(_, _) => SnapshotRoundTrip(g.vault);
    case _ =>
  }

  /** From the n-th event on, every restart loads a snapshot sealed since then. */
  ghost predicate SavedBeforeRestart(events: seq<Event>, n: nat) {
    forall i :: n <= i < |events| && events[i].Restart? ==> SealedBy(events, n, i)
  }

  ghost predicate SealedBy(events: seq<Event>, n: nat, m: nat) {
    exists j :: n <= j < m <= |events| && Seals(events[j])
  }

  predicate Seals(e: Event) {
    e.Save?
  }

  /** The snapshot on disk knows the tombstone. */
  predicate OnDisk(g: Gate, subject: string) {
    g.disk.Some? && subject in g.disk.value.shredded
  }

  ghost predicate Stays(g: Gate, subject: string, sealed: bool) {
    WellKept(g) && subject in g.vault.shredded && (sealed ==> OnDisk(g, subject))
  }

  lemma StepStays(cfg: Config, g: Gate, e: Event, subject: string, sealed: bool)
    requires Stays(g, subject, sealed) && (e.Restart? ==> sealed)
    ensures Stays(Step(cfg, g, e), subject, sealed || e.Save?)
  {
    StepWellKept(cfg, g, e);
  }

  lemma {:induction false} ErasedLasts(cfg: Config, g: Gate, events: seq<Event>, n: nat, m: nat, subject: string,
                                       known: bool)
    requires n <= m <= |events| && (known || SavedBeforeRestart(events, n))
    requires Stays(StateAt(cfg, g, events, n), subject, known)
    ensures Stays(StateAt(cfg, g, events, m), subject, known || SealedBy(events, n, m))
    decreases m
  {
    if m > n {
      var i := m - 1;
      ErasedLasts(cfg, g, events, n, i, subject, known);
      var sealed := known || SealedBy(events, n, i);
      StepStays(cfg, StateAt(cfg, g, events, i), events[i], subject, sealed);
      assert SealedBy(events, n, m) ==> sealed || events[i].Save?;
    }
  }

  lemma {:induction false} RunWellKept(cfg: Config, g: Gate, events: seq<Event>, n: nat)
    requires n <= |events| && WellKept(g)
    ensures WellKept(StateAt(cfg, g, events, n))
  {
    if n > 0 {
      RunWellKept(cfg, g, events, n - 1);
      StepWellKept(cfg, StateAt(cfg, g, events, n - 1), events[n - 1]);
    }
  }

  /** Only sealing writes the snapshot. */
  lemma {:induction false} DiskKept(cfg: Config, g: Gate, events: seq<Event>, n: nat, m: nat)
    requires n <= m <= |events| && !SealedBy(events, n, m)
    ensures StateAt(cfg, g, events, m).disk == StateAt(cfg, g, events, n).disk
    decreases m
  {
    if m > n {
      var i := m - 1;
      assert !Seals(events[i]);
      assert SealedBy(events, n, i) ==> SealedBy(events, n, m);
      DiskKept(cfg, g, events, n, i);
    }
  }

  ghost predicate ErasedFrom(cfg: Config, g: Gate, events: seq<Event>, n: nat, subject: string) {
    forall m: nat :: n <= m <= |events| ==> Erased(StateAt(cfg, g, events, m).vault, subject)
  }

  /** A subject just erased stays so exactly if its tombstone is on disk or each restart finds one sealed since. */
  lemma ErasedExactly(cfg: Config, g: Gate, events: seq<Event>, n: nat, subject: string)
    requires n <= |events| && WellKept(StateAt(cfg, g, events, n))
    requires Erased(StateAt(cfg, g, events, n).vault, subject)
    ensures ErasedFrom(cfg, g, events, n, subject)
      <==> OnDisk(StateAt(cfg, g, events, n), subject) || SavedBeforeRestart(events, n)
  {
    var known := OnDisk(StateAt(cfg, g, events, n), subject);
    if known || SavedBeforeRestart(events, n) {
      forall m: nat | n <= m <= |events| ensures Erased(StateAt(cfg, g, events, m).vault, subject) {
        ErasedLasts(cfg, g, events, n, m, subject, known);
      }
    } else {
      var i :| n <= i < |events| && events[i].Restart? && !SealedBy(events, n, i);
      DiskKept(cfg, g, events, n, i);
      RestartForgets(cfg, g, events, i, i + 1, subject);
    }
  }

  lemma RestartForgets(cfg: Config, g: Gate, events: seq<Event>, i: nat, m: nat, subject: string)
    requires m == i + 1 <= |events| && events[i].Restart? && !OnDisk(StateAt(cfg, g, events, i), subject)
    ensures !Erased(StateAt(cfg, g, events, m).vault, subject)
  {
  }

  lemma ExecutedErases(cfg: Config, g: Gate, events: seq<Event>, k: nat, n: nat, id: string)
    requires WellKept(g) && n == k + 1 <= |events| && Executes(cfg, g, events, k, id)
    ensures WellKept(StateAt(cfg, g, events, n))
    ensures Erased(StateAt(cfg, g, events, n).vault, StateAt(cfg, g, events, k).items[id].subject)
    ensures StateAt(cfg, g, events, n).disk == StateAt(cfg, g, events, k).disk
  {
    var was := StateAt(cfg, g, events, k);
    RunWellKept(cfg, g, events, k);
    RunWellKept(cfg, g, events, n);
    assert DueBy(was.items, events[k].now)[id].subject == was.items[id].subject;
    ShredAllErases(was.vault, Subjects(DueBy(was.items, events[k].now)));
  }

  /**
   After an executed shred its subject is erased in every later state, if and only if its tombstone was on disk
   before or every later restart loads a snapshot sealed after the shred.
   */
  lemma ErasureExactly(cfg: Config, g: Gate, events: seq<Event>, k: nat, n: nat, id: string)
    requires WellKept(g) && n == k + 1 <= |events| && Executes(cfg, g, events, k, id)
    ensures var was := StateAt(cfg, g, events, k);
      ErasedFrom(cfg, g, events, n, was.items[id].subject)
      <==> OnDisk(was, was.items[id].subject) || SavedBeforeRestart(events, n)
  {
    ExecutedErases(cfg, g, events, k, n, id);
    ErasedExactly(cfg, g, events, n, StateAt(cfg, g, events, k).items[id].subject);
  }

  /**
   Erasure is final: once a shred is executed, in every later state the subject has no key,
   no handle leads to it, and pseudonymizing it mints nothing, also across restarts,
   provided each loads a snapshot sealed after the shred.
   */
  lemma ErasureFinal(cfg: Config, g: Gate, events: seq<Event>, k: nat, id: string, m: nat, random: Bytes)
    requires WellKept(g) && k < m <= |events| && Executes(cfg, g, events, k, id)
    requires SavedBeforeRestart(events, k + 1)
    ensures var subject, v := StateAt(cfg, g, events, k).items[id].subject, StateAt(cfg, g, events, m).vault;
      && Erased(v, subject)
      && SubjectKey(v, subject, true, random) == (v, None)
      && forall handle :: Resolve(v, handle) != Some(subject)
  {
    ErasureExactly(cfg, g, events, k, k + 1, id);
    assert ErasedFrom(cfg, g, events, k + 1, StateAt(cfg, g, events, k).items[id].subject);
  }

  /** A key is minted and the vault sealed; the subject is erased by the book; the process crashes and restarts. */
  function RevivingRun(cfg: Config, subject: string, key: Bytes): seq<Event> {
    [Pseudonymize(subject, key, 0, 0), Save(0, 0),
     Request("q", subject, "basis", Operator("requester", Operating), 0, 0),
     Approve("q", Operator("officer", DPO), "x", 0, 0), RunDue(cfg.hold, cfg.hold), Restart(cfg.hold, cfg.hold)]
  }

  /** Without a sealing after the shred, the restart brings the destroyed key back. */
  lemma RestartRevives(cfg: Config, subject: string, key: Bytes)
    requires subject != "" && cfg.ttl >= 0
    ensures var g, run := Gate(map[], map[], NewVault(), None), RevivingRun(cfg, subject, key);
      && Executes(cfg, g, run, 4, "x") && StateAt(cfg, g, run, 4).items["x"].subject == subject
      && Erased(StateAt(cfg, g, run, 5).vault, subject)
      && subject in StateAt(cfg, g, run, 6).vault.keys && StateAt(cfg, g, run, 6).vault.keys[subject] == key
  {
    var g, run := Gate(map[], map[], NewVault(), None), RevivingRun(cfg, subject, key);
    var v := VaultState(map[subject := key], {}, map[]);
    var s := ScheduledShred("x", subject, "requester", "officer", "basis", cfg.hold);
    RevivingScheduled(cfg, subject, key, g, run, v, s);
    OneDue("x", s);
    ShredAllErases(v, {subject});
    StateNext(cfg, g, run, 4, 5);
    StateNext(cfg, g, run, 5, 6);
    SnapshotRoundTrip(v);
  }

  lemma StateNext(cfg: Config, g: Gate, events: seq<Event>, n: nat, m: nat)
    requires m == n + 1 <= |events|
    ensures StateAt(cfg, g, events, m) == Step(cfg, StateAt(cfg, g, events, n), events[n])
  {
  }

  lemma OneDue(id: string, s: ScheduledShred)
    ensures Subjects(DueBy(map[id := s], s.executeAt)) == {s.subject}
  {
    var due := DueBy(map[id := s], s.executeAt);
    assert due == map[id := s] && due[id].subject == s.subject;
  }

  lemma RevivingScheduled(cfg: Config, subject: string, key: Bytes, g: Gate, run: seq<Event>, v: VaultState,
                          s: ScheduledShred)
    requires subject != "" && cfg.ttl >= 0
    requires g == Gate(map[], map[], NewVault(), None) && run == RevivingRun(cfg, subject, key)
    requires v == VaultState(map[subject := key], {}, map[])
    requires s == ScheduledShred("x", subject, "requester", "officer", "basis", cfg.hold)
    ensures StateAt(cfg, g, run, 4) == Gate(map[], map["x" := s], v, Some(Snapshot(v)))
  {
    var disk := Some(Snapshot(v));
    StateNext(cfg, g, run, 0, 1);
    assert StateAt(cfg, g, run, 1) == Gate(map[], map[], v, None);
    StateNext(cfg, g, run, 1, 2);
    assert StateAt(cfg, g, run, 2) == Gate(map[], map[], v, disk);
    var p := PendingAction("q", Erasure, subject, "basis", "requester", DPO, 0);
    StateNext(cfg, g, run, 2, 3);
    assert StateAt(cfg, g, run, 3) == Gate(map["q" := p], map[], v, disk);
    StateNext(cfg, g, run, 3, 4);
  }
}
