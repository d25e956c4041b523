/**
 Two-person approval (internal/gate/approval.go) and the cancellable hold window of
 an approved erasure (internal/gate/erasure.go).
 */
module Approval {
  import opened Text

  datatype Role = Auditor | Operating | Approving | DPO

  datatype Operator = Operator(id: string, role: Role)

  datatype Kind = Erasure | Other(name: string)

  /** params: the target and the legal basis of the action. */
  datatype PendingAction = PendingAction(id: string, kind: Kind, subject: string, legalBasis: string,
                                         requester: string, needsRole: Role, created: int)

  datatype Denial = NoPending | TooLate | SelfApproval | WrongRole

  datatype Outcome = Denied(reason: Denial) | Granted(action: PendingAction)

  predicate HasRole(have: Role, need: Role) {
    have == need || (need == Approving && have == DPO)
  }

  predicate Open(p: PendingAction, now: int, ttl: int) {
    now - p.created <= ttl
  }

  type Pendings = map<string, PendingAction>

  function Unexpired(pending: Pendings, now: int, ttl: int): Pendings {
    map id | id in pending && Open(pending[id], now, ttl) :: pending[id]
  }

  function Approved(pending: Pendings, id: string, op: Operator, now: int, ttl: int): (Pendings, Outcome) {
    if id !in pending then (pending, Denied(NoPending))
    else
      var p := pending[id];
      if !Open(p, now, ttl) then (pending - {id}, Denied(TooLate))
      else if op.id == p.requester then (pending, Denied(SelfApproval))
      else if !HasRole(op.role, p.needsRole) then (pending, Denied(WrongRole))
      else (pending - {id}, Granted(p))
  }

  class ApprovalStore {
    var pending: Pendings
    const ttl: int

    constructor (ttl: int)
      ensures pending == map[] && this.ttl == ttl
    {
      pending, this.ttl := map[], ttl;
    }

    method Sweep(now: int)
      modifies this
      ensures pending == Unexpired(old(pending), now, ttl)
    {
      ghost var was := pending;
      var todo := pending.Keys;
      while todo != {}
        invariant todo <= was.Keys
        invariant forall id :: id in pending <==> id in was && (id in todo || Open(was[id], now, ttl))
        invariant forall id :: id in pending ==> pending[id] == was[id]
        decreases todo
      {
        var id :| id in todo;
        if now - pending[id].created > ttl {
          pending := pending - {id};
        }
        todo := todo - {id};
      }
    }

    /** The id is fresh random; the clock is read for the action and again for the sweep. */
    method Create(id: string, kind: Kind, subject: string, legalBasis: string, requester: string, needsRole: Role,
                  now: int, later: int)
      returns (p: PendingAction)
      modifies this
      ensures p == PendingAction(id, kind, subject, legalBasis, requester, needsRole, now)
      ensures pending == Unexpired(old(pending), later, ttl)[id := p]
    {
      p := PendingAction(id, kind, subject, legalBasis, requester, needsRole, now);
      Sweep(later);
      pending := pending[id := p];
    }

    method Approve(id: string, op: Operator, now: int) returns (outcome: Outcome)
      modifies this
      ensures (pending, outcome) == Approved(old(pending), id, op, now, ttl)
    {
      if id !in pending {
        return Denied(NoPending);
      }
      var p := pending[id];
      if now - p.created > ttl {
        pending := pending - {id};
        return Denied(TooLate);
      }
      if op.id == p.requester {
        return Denied(SelfApproval);
      }
      if !HasRole(op.role, p.needsRole) {
        return Denied(WrongRole);
      }
      pending := pending - {id};
      return Granted(p);
    }

    method Pending(now: int) returns (actions: Pendings)
      modifies this
      ensures actions == pending == Unexpired(old(pending), now, ttl)
    {
      Sweep(now);
      actions := pending;
    }
  }

  // ---------------------------------------------------------------- the hold window

  datatype ScheduledShred = ScheduledShred(id: string, subject: string, requester: string, approver: string,
                                           legalBasis: string, executeAt: int)

  type Shreds = map<string, ScheduledShred>

  function DueBy(items: Shreds, now: int): Shreds {
    map id | id in items && items[id].executeAt <= now :: items[id]
  }

  function HeldAt(items: Shreds, now: int): Shreds {
    map id | id in items && items[id].executeAt > now :: items[id]
  }

  class ShredQueue {
    var items: Shreds
    const hold: int

    constructor (hold: int)
      ensures items == map[] && this.hold == hold
    {
      items, this.hold := map[], hold;
    }

    method Schedule(id: string, subject: string, requester: string, approver: string, legalBasis: string, now: int)
      returns (s: ScheduledShred)
      modifies this
      ensures s == ScheduledShred(id, subject, requester, approver, legalBasis, now + hold)
      ensures items == old(items)[id := s]
    {
      s := ScheduledShred(id, subject, requester, approver, legalBasis, now + hold);
      items := items[id := s];
    }

    method Cancel(id: string) returns (s: Option<ScheduledShred>)
      modifies this
      ensures items == old(items) - {id}
      ensures s == if id in old(items) then Some(old(items)[id]) else None
    {
      s := if id in items then Some(items[id]) else None;
      items := items - {id};
    }

    /** What is due leaves the queue. */
    method Due(now: int) returns (due: Shreds)
      modifies this
      ensures due == DueBy(old(items), now) && items == HeldAt(old(items), now)
    {
      ghost var was := items;
      var todo := items.Keys;
      due := map[];
      while todo != {}
        invariant todo <= was.Keys
        invariant forall id :: id in items <==> id in was && (id in todo || was[id].executeAt > now)
        invariant forall id :: id in items ==> items[id] == was[id]
        invariant forall id :: id in due <==> id in was && id !in todo && was[id].executeAt <= now
        invariant forall id :: id in due ==> due[id] == was[id]
        decreases todo
      {
        var id :| id in todo;
        if items[id].executeAt <= now {
          due := due[id := items[id]];
          items := items - {id};
        }
        todo := todo - {id};
      }
    }
  }
}
