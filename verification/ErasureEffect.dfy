/**
 The other half of dual control: an erasure that is requested, approved and left alone
 does happen, and it is the subject behind the handle that is erased.
 */
module ErasureEffect {
  import opened Pseudonym
  import opened Approval
  import opened ErasureControl

  /** The clock never goes back, also inside one call. */
  ghost predicate Timed(events: seq<Event>) {
    && (forall i :: 0 <= i < |events| ==> events[i].now <= events[i].end)
    && (forall i, j :: 0 <= i < j < |events| ==> events[i].end <= events[j].now)
  }

  // ---------------------------------------------------------------- a handle leads to its subject

  /** The event neither links the handle again, nor shreds its subject, nor restarts. */
  predicate LinkLeft(g: Gate, e: Event, handle: string, subject: string) {
    && !e.Restart? && !(e.Link? && e.handle == handle)
    && !(e.RunDue? && subject in Subjects(DueBy(g.items, e.now)))
  }

  lemma StepKeepsLink(cfg: Config, g: Gate, e: Event, handle: string, subject: string)
    requires LinkLeft(g, e, handle, subject) && handle in g.vault.index && g.vault.index[handle] == subject
    ensures var v := Step(cfg, g, e).vault; handle in v.index && v.index[handle] == subject
  {
  }

  lemma {:induction false} LinkLasts(cfg: Config, g: Gate, events: seq<Event>, k: nat, n: nat)
    requires k < n <= |events| && events[k].Link? && events[k].handle != "" && events[k].subject != ""
    requires events[k].subject !in StateAt(cfg, g, events, k).vault.shredded
    requires forall j :: k < j < n ==>
      LinkLeft(StateAt(cfg, g, events, j), events[j], events[k].handle, events[k].subject)
    ensures var v := StateAt(cfg, g, events, n).vault;
      events[k].handle in v.index && v.index[events[k].handle] == events[k].subject
    decreases n
  {
    var l := n - 1;
    StateNext(cfg, g, events, l, n);
    if k < l {
      LinkLasts(cfg, g, events, k, l);
      StepKeepsLink(cfg, StateAt(cfg, g, events, l), events[l], events[k].handle, events[k].subject);
    }
  }

  /** An erasure requested for a linked handle is pending for the subject it was linked to. */
  lemma RequestFindsSubject(cfg: Config, g: Gate, events: seq<Event>, k: nat, a: nat)
    requires k < a < |events| && events[k].Link? && events[k].handle != "" && events[k].subject != ""
    requires events[k].subject !in StateAt(cfg, g, events, k).vault.shredded
    requires forall j :: k < j < a ==>
      LinkLeft(StateAt(cfg, g, events, j), events[j], events[k].handle, events[k].subject)
    requires events[a].Request? && events[a].target == events[k].handle && events[a].legalBasis != ""
    ensures var pending := StateAt(cfg, g, events, a + 1).pending;
      events[a].id in pending && pending[events[a].id].subject == events[k].subject
  {
    LinkLasts(cfg, g, events, k, a);
    StateNext(cfg, g, events, a, a + 1);
  }

  // ---------------------------------------------------------------- from the request to the shred

  /** The action a request makes. */
  function Action(g: Gate, e: Event): PendingAction
    requires e.Request?
  {
    PendingAction(e.id, Erasure, SubjectOf(g.vault, e.target), e.legalBasis, e.op.id, DPO, e.now)
  }

  /** The event neither decides the action, nor reuses its id, nor restarts. */
  predicate ActionLeft(e: Event, id: string) {
    !e.Restart? && !(e.Approve? && e.id == id) && !((e.Request? || e.Propose?) && e.id == id)
  }

  predicate Pends(g: Gate, p: PendingAction) {
    p.id in g.pending && g.pending[p.id] == p
  }

  lemma StepKeepsAction(cfg: Config, g: Gate, e: Event, p: PendingAction)
    requires Pends(g, p) && ActionLeft(e, p.id) && e.now <= e.end && e.end - p.created <= cfg.ttl
    ensures Pends(Step(cfg, g, e), p)
  {
  }

  lemma {:induction false} ActionLasts(cfg: Config, g: Gate, events: seq<Event>, a: nat, n: nat, b: nat)
    requires Timed(events) && a < n <= b < |events|
    requires events[a].Request? && events[a].target != "" && events[a].legalBasis != ""
    requires forall j :: a < j < b ==> ActionLeft(events[j], events[a].id)
    requires events[b].now - events[a].now <= cfg.ttl
    ensures Pends(StateAt(cfg, g, events, n), Action(StateAt(cfg, g, events, a), events[a]))
    decreases n
  {
    var l := n - 1;
    StateNext(cfg, g, events, l, n);
    if a < l {
      ActionLasts(cfg, g, events, a, l, b);
      StepKeepsAction(cfg, StateAt(cfg, g, events, l), events[l], Action(StateAt(cfg, g, events, a), events[a]));
    }
  }

  /** The event neither cancels the shred, nor reuses its id, nor restarts. */
  predicate ShredLeft(e: Event, shredId: string) {
    !e.Restart? && !(e.Cancel? && e.shredId == shredId) && !(e.Approve? && e.shredId == shredId)
  }

  /** Queued for its time, or already carried out. */
  predicate OnItsWay(g: Gate, shredId: string, subject: string, at: int) {
    || subject in g.vault.shredded
    || (shredId in g.items && g.items[shredId].subject == subject && g.items[shredId].executeAt == at)
  }

  lemma ShredsDue(g: Gate, shredId: string, now: int)
    requires shredId in g.items && g.items[shredId].executeAt <= now
    ensures g.items[shredId].subject in Subjects(DueBy(g.items, now))
  {
    var due := DueBy(g.items, now);
    assert shredId in due && due[shredId] == g.items[shredId];
  }

  lemma StepKeepsWay(cfg: Config, g: Gate, e: Event, shredId: string, subject: string, at: int)
    requires OnItsWay(g, shredId, subject, at) && ShredLeft(e, shredId)
    ensures OnItsWay(Step(cfg, g, e), shredId, subject, at)
    ensures e.RunDue? && e.now >= at ==> subject in Step(cfg, g, e).vault.shredded
  {
    if e.RunDue? && subject !in g.vault.shredded && at <= e.now {
      ShredsDue(g, shredId, e.now);
    }
  }

  /** The approval puts the shred on its way. */
  lemma ApprovalSchedules(cfg: Config, g: Gate, e: Event, p: PendingAction)
    requires Pends(g, p) && p.kind == Erasure && p.needsRole == DPO && e.Approve? && e.id == p.id
    requires e.now - p.created <= cfg.ttl && e.op.id != p.requester && e.op.role == DPO
    ensures OnItsWay(Step(cfg, g, e), e.shredId, p.subject, e.end + cfg.hold)
  {
    assert Approved(g.pending, e.id, e.op, e.now, cfg.ttl).1 == Granted(p);
  }

  lemma RequestedOnWay(cfg: Config, g: Gate, events: seq<Event>, a: nat, b: nat)
    requires Timed(events) && a < b < |events|
    requires events[a].Request? && events[a].target != "" && events[a].legalBasis != ""
    requires forall j :: a < j < b ==> ActionLeft(events[j], events[a].id)
    requires events[b].Approve? && events[b].id == events[a].id && events[b].now - events[a].now <= cfg.ttl
    requires events[b].op.id != events[a].op.id && events[b].op.role == DPO
    ensures OnItsWay(StateAt(cfg, g, events, b + 1), events[b].shredId,
                     SubjectOf(StateAt(cfg, g, events, a).vault, events[a].target), events[b].end + cfg.hold)
  {
    ActionLasts(cfg, g, events, a, b, b);
    StateNext(cfg, g, events, b, b + 1);
    ApprovalSchedules(cfg, StateAt(cfg, g, events, b), events[b], Action(StateAt(cfg, g, events, a), events[a]));
  }

  lemma {:induction false} WayLasts(cfg: Config, g: Gate, events: seq<Event>, b: nat, n: nat, subject: string, at: int)
    requires b < n <= |events| && events[b].Approve?
    requires OnItsWay(StateAt(cfg, g, events, b + 1), events[b].shredId, subject, at)
    requires forall j :: b < j < n ==> ShredLeft(events[j], events[b].shredId)
    ensures OnItsWay(StateAt(cfg, g, events, n), events[b].shredId, subject, at)
    decreases n
  {
    var l := n - 1;
    if b < l {
      WayLasts(cfg, g, events, b, l, subject, at);
      StateNext(cfg, g, events, l, n);
      StepKeepsWay(cfg, StateAt(cfg, g, events, l), events[l], events[b].shredId, subject, at);
    }
  }

  /**
   An erasure requested, approved in time by another principal with the DPO role, and neither cancelled nor
   interrupted by a restart, is carried out by the first run of due shreds after the hold window.
   */
  lemma ErasureHappens(cfg: Config, g: Gate, events: seq<Event>, a: nat, b: nat, c: nat)
    requires Timed(events) && WellKept(g) && a < b < c < |events|
    requires events[a].Request? && events[a].target != "" && events[a].legalBasis != ""
    requires forall j :: a < j < b ==> ActionLeft(events[j], events[a].id)
    requires events[b].Approve? && events[b].id == events[a].id && events[b].now - events[a].now <= cfg.ttl
    requires events[b].op.id != events[a].op.id && events[b].op.role == DPO
    requires forall j :: b < j < c ==> ShredLeft(events[j], events[b].shredId)
    requires events[c].RunDue? && events[c].now >= events[b].end + cfg.hold
    ensures Erased(StateAt(cfg, g, events, c + 1).vault, SubjectOf(StateAt(cfg, g, events, a).vault, events[a].target))
  {
    var subject, at := SubjectOf(StateAt(cfg, g, events, a).vault, events[a].target), events[b].end + cfg.hold;
    RequestedOnWay(cfg, g, events, a, b);
    WayLasts(cfg, g, events, b, c, subject, at);
    StateNext(cfg, g, events, c, c + 1);
    StepKeepsWay(cfg, StateAt(cfg, g, events, c), events[c], events[b].shredId, subject, at);
    RunWellKept(cfg, g, events, c + 1);
  }

  // ---------------------------------------------------------------- pseudonyms are stable

  /** Until its subject is shredded, and short of a restart, a key stays what it is. */
  lemma {:induction false} KeyStable(cfg: Config, g: Gate, events: seq<Event>, k: nat, n: nat, subject: string)
    requires k <= n <= |events| && subject in StateAt(cfg, g, events, k).vault.keys
    requires forall j :: k <= j < n ==> !events[j].Restart?
    ensures var v := StateAt(cfg, g, events, n).vault;
      subject in v.shredded
      || (subject in v.keys && v.keys[subject] == StateAt(cfg, g, events, k).vault.keys[subject])
    decreases n
  {
    if k < n {
      KeyStable(cfg, g, events, k, n - 1, subject);
      StateNext(cfg, g, events, n - 1, n);
    }
  }
}
