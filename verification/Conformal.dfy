/**
 The adaptive-conformal threshold (internal/mlcorrect/calibrate.go), over reals:
 its long-run false-positive bound, and exactly which scores it holds for.
 */
module Conformal {

  const MIN_THETA := 0.5
  const DECAY := 0.02

  datatype Controller = Controller(theta: real, budget: real, gamma: real, fpEMA: real, nHuman: nat, nBot: nat)

  /** One oracle-confirmed session. */
  datatype Session = Session(isHuman: bool, pBot: real)

  predicate Tuned(c: Controller) {
    0.0 < c.budget < 1.0 && 0.0 < c.gamma <= 0.5
  }

  predicate Flagged(c: Controller, s: Session) {
    s.isHuman && s.pBot >= c.theta
  }

  function Clamp(x: real): (y: real)
    ensures MIN_THETA <= y <= 1.0
  {
    if x < MIN_THETA then MIN_THETA else if x > 1.0 then 1.0 else x
  }

  function Observed(c: Controller, s: Session): Controller {
    if !s.isHuman then c.(nBot := c.nBot + 1)
    else
      var flag := if Flagged(c, s) then 1.0 else 0.0;
      c.(nHuman := c.nHuman + 1, theta := Clamp(c.theta + c.gamma * (flag - c.budget)),
         fpEMA := c.fpEMA + DECAY * (flag - c.fpEMA))
  }

  class ConformalThreshold {
    var theta: real
    var budget: real
    var gamma: real
    var fpEMA: real
    var nHuman: nat
    var nBot: nat

    function View(): Controller
      reads this
    {
      Controller(theta, budget, gamma, fpEMA, nHuman, nBot)
    }

    /** Out-of-range arguments are replaced by defaults, so every controller is tuned. */
    constructor (budget: real, theta0: real, gamma: real)
      ensures Tuned(View()) && 0.0 < theta < 1.0 && fpEMA == this.budget && nHuman == nBot == 0
      ensures 0.0 < budget < 1.0 ==> this.budget == budget
      ensures 0.0 < theta0 < 1.0 ==> theta == theta0
      ensures 0.0 < gamma <= 0.5 ==> this.gamma == gamma
    {
      var b := if budget <= 0.0 || budget >= 1.0 then 0.005 else budget;
      this.budget, fpEMA := b, b;
      this.theta := if theta0 <= 0.0 || theta0 >= 1.0 then 0.5 else theta0;
      this.gamma := if gamma <= 0.0 || gamma > 0.5 then 0.01 else gamma;
      nHuman, nBot := 0, 0;
    }

    method Observe(isHuman: bool, pBot: real)
      modifies this
      ensures View() == Observed(old(View()), Session(isHuman, pBot))
    {
      if !isHuman {
        nBot := nBot + 1;
        return;
      }
      nHuman := nHuman + 1;
      var flag := 0.0;
      if pBot >= theta {
        flag := 1.0;
      }
      theta := theta + gamma * (flag - budget);
      if theta < MIN_THETA {
        theta := MIN_THETA;
      }
      if theta > 1.0 {
        theta := 1.0;
      }
      fpEMA := fpEMA + DECAY * (flag - fpEMA);
    }
  }

  // ---------------------------------------------------------------- whole runs

  function After(c: Controller, run: seq<Session>): Controller {
    if run == [] then c else Observed(After(c, run[..|run| - 1]), run[|run| - 1])
  }

  datatype Mark = Bot | Passed | Caught

  function MarkOf(c: Controller, s: Session): Mark {
    if !s.isHuman then Bot else if Flagged(c, s) then Caught else Passed
  }

  /** Each session's outcome at the threshold of its moment. */
  function Marks(c: Controller, run: seq<Session>): seq<Mark> {
    if run == [] then [] else Marks(c, run[..|run| - 1]) + [MarkOf(After(c, run[..|run| - 1]), run[|run| - 1])]
  }

  function CountHumans(marks: seq<Mark>): nat {
    if marks == [] then 0 else CountHumans(marks[..|marks| - 1]) + (if marks[|marks| - 1] == Bot then 0 else 1)
  }

  function CountCaught(marks: seq<Mark>): nat {
    if marks == [] then 0 else CountCaught(marks[..|marks| - 1]) + (if marks[|marks| - 1] == Caught then 1 else 0)
  }

  /** Confirmed humans, and those of them flagged at the threshold of their moment. */
  function Humans(c: Controller, run: seq<Session>): nat {
    CountHumans(Marks(c, run))
  }

  function Flags(c: Controller, run: seq<Session>): nat {
    CountCaught(Marks(c, run))
  }

  predicate HumansAtMost(run: seq<Session>, cap: real) {
    forall i :: 0 <= i < |run| && run[i].isHuman ==> run[i].pBot <= cap
  }

  /** The largest human score from which one update cannot overshoot 1. */
  function Ceiling(budget: real, gamma: real): real {
    1.0 - gamma * (1.0 - budget)
  }

  lemma MarksSnoc(c: Controller, run: seq<Session>, init: seq<Session>, s: Session)
    requires run == init + [s]
    ensures Marks(c, run) == Marks(c, init) + [MarkOf(After(c, init), s)]
    ensures After(c, run) == Observed(After(c, init), s)
    ensures Humans(c, run) == Humans(c, init) + (if s.isHuman then 1 else 0)
  {
    assert run[..|run| - 1] == init;
    var m := Marks(c, init) + [MarkOf(After(c, init), s)];
    assert m[..|m| - 1] == Marks(c, init);
  }

  /** Budget and rate never change; after the first human the threshold stays in [0.5, 1]. */
  lemma {:induction false} ThresholdInRange(c: Controller, run: seq<Session>)
    ensures After(c, run).budget == c.budget && After(c, run).gamma == c.gamma
    ensures Humans(c, run) > 0 ==> MIN_THETA <= After(c, run).theta <= 1.0
    ensures Humans(c, run) == 0 ==> After(c, run).theta == c.theta
  {
    if run != [] {
      var init, last := run[..|run| - 1], run[|run| - 1];
      ThresholdInRange(c, init);
      MarksSnoc(c, run, init, last);
    }
  }

  /** The least total movement of the threshold, outcome by outcome. */
  function Drift(marks: seq<Mark>, gamma: real, drop: real): real {
    if marks == [] then 0.0
    else
      var last := marks[|marks| - 1];
      Drift(marks[..|marks| - 1], gamma, drop)
        + (if last == Caught then gamma else 0.0) - (if last == Bot then 0.0 else drop)
  }

  lemma {:induction false} DriftClosed(marks: seq<Mark>, gamma: real, drop: real)
    ensures Drift(marks, gamma, drop) == Scaled(gamma, CountCaught(marks)) - Scaled(drop, CountHumans(marks))
  {
    if marks != [] {
      var init := marks[..|marks| - 1];
      DriftClosed(init, gamma, drop);
      OneMore(gamma, CountCaught(init));
      OneMore(drop, CountHumans(init));
    } else {
      assert Scaled(gamma, 0) == 0.0 && Scaled(drop, 0) == 0.0;
    }
  }

  function Scaled(x: real, n: nat): real {
    x * (n as real)
  }

  lemma OneMore(x: real, n: nat)
    ensures Scaled(x, n + 1) == Scaled(x, n) + x
  {
    assert (n + 1) as real == n as real + 1.0;
  }

  /** One human moves the threshold by at least gamma * (flag - budget): the upper clamp never bites. */
  lemma StepRises(c: Controller, s: Session, drop: real)
    requires Tuned(c) && c.theta <= 1.0 && drop == c.gamma * c.budget
    requires s.isHuman ==> s.pBot <= Ceiling(c.budget, c.gamma)
    ensures Observed(c, s).theta >= c.theta + Drift([MarkOf(c, s)], c.gamma, drop)
  {
    assert drop > 0.0;
    assert c.gamma * (1.0 - c.budget) == c.gamma - drop;
    assert c.gamma * (0.0 - c.budget) == -drop;
    var marks := [MarkOf(c, s)];
    assert marks[..0] == [];
    assert Drift(marks[..0], c.gamma, drop) == 0.0;
  }

  lemma DriftSnoc(marks: seq<Mark>, mark: Mark, gamma: real, drop: real)
    ensures Drift(marks + [mark], gamma, drop) == Drift(marks, gamma, drop) + Drift([mark], gamma, drop)
  {
    assert (marks + [mark])[..|marks|] == marks && [mark][..0] == [];
    assert Drift([mark][..0], gamma, drop) == 0.0;
  }

  lemma {:induction false} ThresholdRises(c: Controller, run: seq<Session>, drop: real)
    requires Tuned(c) && c.theta <= 1.0 && drop == c.gamma * c.budget
    requires HumansAtMost(run, Ceiling(c.budget, c.gamma))
    ensures After(c, run).theta >= c.theta + Drift(Marks(c, run), c.gamma, drop)
  {
    if run != [] {
      var init, last := run[..|run| - 1], run[|run| - 1];
      ThresholdRises(c, init, drop);
      ThresholdInRange(c, init);
      MarksSnoc(c, run, init, last);
      var mid := After(c, init);
      StepRises(mid, last, drop);
      DriftSnoc(Marks(c, init), MarkOf(mid, last), c.gamma, drop);
    }
  }

  ghost predicate Bounded(c: Controller, run: seq<Session>)
    requires c.gamma > 0.0
  {
    Flags(c, run) as real <= Allowance(c.budget, c.gamma, c.theta, Humans(c, run))
  }

  function Allowance(budget: real, gamma: real, theta: real, humans: nat): real
    requires gamma > 0.0
  {
    budget * (humans as real) + (1.0 - theta) / gamma
  }

  /** The long-run bound: among the next T confirmed humans at most budget*T + (1 - theta)/gamma are flagged. */
  lemma LongRunBound(c: Controller, run: seq<Session>)
    requires Tuned(c) && c.theta <= 1.0 && HumansAtMost(run, Ceiling(c.budget, c.gamma))
    ensures Bounded(c, run)
  {
    var drop := c.gamma * c.budget;
    ThresholdRises(c, run, drop);
    ThresholdInRange(c, run);
    BoundFromDrift(Marks(c, run), c.gamma, c.budget, drop, c.theta, After(c, run).theta);
  }

  lemma BoundFromDrift(marks: seq<Mark>, g: real, b: real, drop: real, theta: real, end: real)
    requires g > 0.0 && drop == g * b && end <= 1.0 && end >= theta + Drift(marks, g, drop)
    ensures CountCaught(marks) as real <= Allowance(b, g, theta, CountHumans(marks))
  {
    DriftClosed(marks, g, drop);
    BoundFromThreshold(g, b, CountCaught(marks), CountHumans(marks), theta, end);
  }

  lemma BoundFromThreshold(g: real, b: real, flags: nat, humans: nat, theta: real, end: real)
    requires g > 0.0 && end <= 1.0 && end >= theta + Scaled(g, flags) - Scaled(g * b, humans)
    ensures flags as real <= Allowance(b, g, theta, humans)
  {
    var slack, f, t := (1.0 - theta) / g, flags as real, humans as real;
    assert g * slack == 1.0 - theta;
    Regroup(g, b, t, slack);
    Cancel(g, f, b * t + slack);
  }

  lemma Regroup(g: real, b: real, t: real, slack: real)
    ensures (g * b) * t + g * slack == g * (b * t + slack)
  {
  }

  lemma Cancel(g: real, x: real, y: real)
    requires g > 0.0 && g * x <= g * y
    ensures x <= y
  {
  }

  lemma CancelStrict(g: real, x: real, y: real)
    requires g > 0.0 && g * x < g * y
    ensures x < y
  {
  }

  /** The bound for every threshold in range and every run whose human scores stay at or below cap. */
  ghost predicate AlwaysBounded(budget: real, gamma: real, cap: real)
    requires gamma > 0.0
  {
    forall theta: real, run: seq<Session> :: MIN_THETA <= theta <= 1.0 && HumansAtMost(run, cap) ==>
      Bounded(Controller(theta, budget, gamma, budget, 0, 0), run)
  }

  /** Above the ceiling one flagged human already breaks the bound. */
  lemma CeilingBroken(budget: real, gamma: real, cap: real)
    requires 0.0 < budget < 1.0 && 0.0 < gamma <= 0.5 && cap > Ceiling(budget, gamma)
    ensures !AlwaysBounded(budget, gamma, cap)
  {
    var t := if cap < 1.0 then cap else 1.0;
    CeilingInRange(budget, gamma);
    OneFlagTooMany(budget, gamma, t);
    var c, s := Controller(t, budget, gamma, budget, 0, 0), Session(true, t);
    assert HumansAtMost([s], cap);
    OneCaught(c, s);
    assert !Bounded(c, [s]);
  }

  lemma CeilingInRange(budget: real, gamma: real)
    requires 0.0 < budget < 1.0 && 0.0 < gamma <= 0.5
    ensures MIN_THETA <= Ceiling(budget, gamma) < 1.0
  {
    assert 0.0 < gamma * (1.0 - budget);
    assert gamma * budget > 0.0;
  }

  lemma OneCaught(c: Controller, s: Session)
    requires Flagged(c, s)
    ensures Flags(c, [s]) == Humans(c, [s]) == 1
  {
    MarksSnoc(c, [s], [], s);
    assert Marks(c, [s]) == [Caught] && [Caught][..0] == [];
  }

  lemma OneFlagTooMany(budget: real, gamma: real, t: real)
    requires gamma > 0.0 && t > Ceiling(budget, gamma)
    ensures Allowance(budget, gamma, t, 1) < 1.0
  {
    var slack := (1.0 - t) / gamma;
    assert gamma * slack == 1.0 - t;
    CancelStrict(gamma, slack, 1.0 - budget);
  }

  /** Exactly the caps up to 1 - gamma * (1 - budget) keep the bound in every run. */
  lemma BoundExactly(budget: real, gamma: real, cap: real)
    requires 0.0 < budget < 1.0 && 0.0 < gamma <= 0.5
    ensures AlwaysBounded(budget, gamma, cap) <==> cap <= Ceiling(budget, gamma)
  {
    if cap <= Ceiling(budget, gamma) {
      forall theta: real, run: seq<Session> | MIN_THETA <= theta <= 1.0 && HumansAtMost(run, cap)
        ensures Bounded(Controller(theta, budget, gamma, budget, 0, 0), run)
      {
        LongRunBound(Controller(theta, budget, gamma, budget, 0, 0), run);
      }
    } else {
      CeilingBroken(budget, gamma, cap);
    }
  }

  // ---------------------------------------------------------------- the budget is also reached

  function Smaller(x: real, y: real): real {
    if x < y then x else y
  }

  function Larger(x: real, y: real): real {
    if x > y then x else y
  }

  /**
   One step in full: bots leave the threshold alone, a human who passes lowers it by gamma * budget down to the
   floor, a human who is flagged raises it by gamma * (1 - budget) up to 1. The estimate of the false-positive
   rate moves by a fiftieth.
   */
  lemma OneStep(c: Controller, s: Session)
    requires Tuned(c) && MIN_THETA <= c.theta <= 1.0
    ensures !s.isHuman ==> Observed(c, s) == c.(nBot := c.nBot + 1)
    ensures s.isHuman && s.pBot < c.theta ==>
      Observed(c, s) == c.(nHuman := c.nHuman + 1, theta := Larger(MIN_THETA, c.theta - c.gamma * c.budget),
                           fpEMA := 49.0 * c.fpEMA / 50.0)
    ensures s.isHuman && s.pBot >= c.theta ==>
      Observed(c, s) == c.(nHuman := c.nHuman + 1, theta := Smaller(1.0, c.theta + c.gamma * (1.0 - c.budget)),
                           fpEMA := (49.0 * c.fpEMA + 1.0) / 50.0)
  {
    Positive(c.gamma, c.budget);
    Positive(c.gamma, 1.0 - c.budget);
    assert c.gamma * (0.0 - c.budget) == -(c.gamma * c.budget);
  }

  lemma Positive(x: real, y: real)
    requires x > 0.0 && y > 0.0
    ensures x * y > 0.0
  {
  }

  /** The least human score from which one update cannot undershoot the floor. */
  function Footing(budget: real, gamma: real): real {
    MIN_THETA + gamma * budget
  }

  predicate HumansAtLeast(run: seq<Session>, least: real) {
    forall i :: 0 <= i < |run| && run[i].isHuman ==> run[i].pBot >= least
  }

  /** One human moves the threshold by at most gamma * (flag - budget): the lower clamp never bites. */
  lemma StepFalls(c: Controller, s: Session, drop: real)
    requires Tuned(c) && MIN_THETA <= c.theta <= 1.0 && drop == c.gamma * c.budget
    requires s.isHuman ==> s.pBot >= Footing(c.budget, c.gamma)
    ensures Observed(c, s).theta <= c.theta + Drift([MarkOf(c, s)], c.gamma, drop)
  {
    OneStep(c, s);
    assert c.gamma * (1.0 - c.budget) == c.gamma - drop;
    var marks := [MarkOf(c, s)];
    assert marks[..0] == [];
    assert Drift(marks[..0], c.gamma, drop) == 0.0;
  }

  lemma {:induction false} ThresholdFalls(c: Controller, run: seq<Session>, drop: real)
    requires Tuned(c) && MIN_THETA <= c.theta <= 1.0 && drop == c.gamma * c.budget
    requires HumansAtLeast(run, Footing(c.budget, c.gamma))
    ensures After(c, run).theta <= c.theta + Drift(Marks(c, run), c.gamma, drop)
  {
    if run != [] {
      var init, last := run[..|run| - 1], run[|run| - 1];
      ThresholdFalls(c, init, drop);
      ThresholdInRange(c, init);
      MarksSnoc(c, run, init, last);
      var mid := After(c, init);
      StepFalls(mid, last, drop);
      DriftSnoc(Marks(c, init), MarkOf(mid, last), c.gamma, drop);
    }
  }

  function Quota(budget: real, gamma: real, theta: real, humans: nat): real
    requires gamma > 0.0
  {
    budget * (humans as real) - (theta - MIN_THETA) / gamma
  }

  ghost predicate Reached(c: Controller, run: seq<Session>)
    requires c.gamma > 0.0
  {
    Flags(c, run) as real >= Quota(c.budget, c.gamma, c.theta, Humans(c, run))
  }

  /** Among the next T confirmed humans at least budget*T - (theta - 0.5)/gamma are flagged. */
  lemma BudgetReached(c: Controller, run: seq<Session>)
    requires Tuned(c) && MIN_THETA <= c.theta <= 1.0 && HumansAtLeast(run, Footing(c.budget, c.gamma))
    ensures Reached(c, run)
  {
    var drop := c.gamma * c.budget;
    ThresholdFalls(c, run, drop);
    ThresholdInRange(c, run);
    QuotaFromDrift(Marks(c, run), c.gamma, c.budget, drop, c.theta, After(c, run).theta);
  }

  lemma QuotaFromDrift(marks: seq<Mark>, g: real, b: real, drop: real, theta: real, end: real)
    requires g > 0.0 && drop == g * b && end >= MIN_THETA && end <= theta + Drift(marks, g, drop)
    ensures CountCaught(marks) as real >= Quota(b, g, theta, CountHumans(marks))
  {
    DriftClosed(marks, g, drop);
    QuotaFromThreshold(g, b, CountCaught(marks), CountHumans(marks), theta, end);
  }

  lemma QuotaFromThreshold(g: real, b: real, flags: nat, humans: nat, theta: real, end: real)
    requires g > 0.0 && end >= MIN_THETA && end <= theta + Scaled(g, flags) - Scaled(g * b, humans)
    ensures flags as real >= Quota(b, g, theta, humans)
  {
    var slack, f, t := (theta - MIN_THETA) / g, flags as real, humans as real;
    assert g * slack == theta - MIN_THETA;
    Regroup(g, b, t, -slack);
    assert g * -slack == -(g * slack);
    Cancel(g, b * t + -slack, f);
  }

  /** The quota for every threshold in range and every run whose human scores stay at or above least. */
  ghost predicate AlwaysReached(budget: real, gamma: real, least: real)
    requires gamma > 0.0
  {
    forall theta: real, run: seq<Session> :: MIN_THETA <= theta <= 1.0 && HumansAtLeast(run, least) ==>
      Reached(Controller(theta, budget, gamma, budget, 0, 0), run)
  }

  lemma OnePassed(c: Controller, s: Session)
    requires s.isHuman && s.pBot < c.theta
    ensures Flags(c, [s]) == 0 && Humans(c, [s]) == 1
  {
    MarksSnoc(c, [s], [], s);
    assert Marks(c, [s]) == [Passed] && [Passed][..0] == [];
  }

  lemma QuotaAboveZero(budget: real, gamma: real, t: real)
    requires gamma > 0.0 && t < Footing(budget, gamma)
    ensures Quota(budget, gamma, t, 1) > 0.0
  {
    var slack := (t - MIN_THETA) / gamma;
    assert gamma * slack == t - MIN_THETA;
    CancelStrict(gamma, slack, budget);
  }

  /** Below the footing one human who passes already misses the quota. */
  lemma FootingBroken(budget: real, gamma: real, least: real)
    requires 0.0 < budget < 1.0 && 0.0 < gamma <= 0.5 && least < Footing(budget, gamma)
    ensures !AlwaysReached(budget, gamma, least)
  {
    Positive(gamma, budget);
    Positive(gamma, 1.0 - budget);
    var t := if least < MIN_THETA then MIN_THETA else (least + Footing(budget, gamma)) / 2.0;
    QuotaAboveZero(budget, gamma, t);
    var c, s := Controller(t, budget, gamma, budget, 0, 0), Session(true, least);
    assert HumansAtLeast([s], least);
    OnePassed(c, s);
    assert !Reached(c, [s]);
  }

  /** Exactly the scores from 0.5 + gamma * budget on reach the budget in every run. */
  lemma ReachExactly(budget: real, gamma: real, least: real)
    requires 0.0 < budget < 1.0 && 0.0 < gamma <= 0.5
    ensures AlwaysReached(budget, gamma, least) <==> least >= Footing(budget, gamma)
  {
    if least >= Footing(budget, gamma) {
      forall theta: real, run: seq<Session> | MIN_THETA <= theta <= 1.0 && HumansAtLeast(run, least)
        ensures Reached(Controller(theta, budget, gamma, budget, 0, 0), run)
      {
        BudgetReached(Controller(theta, budget, gamma, budget, 0, 0), run);
      }
    } else {
      FootingBroken(budget, gamma, least);
    }
  }
}
