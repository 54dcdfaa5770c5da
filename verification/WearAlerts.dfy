/**
 Wear alerts: at most one active alert a die, and the alert a check leaves is the one the
 die's wear calls for. Sizes and limits are real numbers.
 */
module WearAlerts {
  import opened Options

  datatype DieType = ROUND | FLAT
  datatype RoundSizes = RoundSizes(punched: real, current: real)
  datatype FlatSizes = FlatSizes(punchedWidth: real, currentWidth: real,
                                 punchedThickness: real, currentThickness: real, radius: real)
  datatype Die = Die(dieType: DieType, status: string, round: Option<RoundSizes>, flat: Option<FlatSizes>)
  datatype Tolerance = Tolerance(maxWear: real, warning: int, critical: int)
  datatype Level = WARNING | CRITICAL
  datatype Alert = Alert(die: nat, level: Level, resolved: bool)

  /** Alerts stand in the order of their creation. */
  datatype State = State(dies: map<nat, Die>, tolerances: map<DieType, Tolerance>, alerts: seq<Alert>)

  // ---------------------------------------------------------------- the level a die should have

  function Abs(x: real): real {
    if x < 0.0 then -x else x
  }

  function Max(x: real, y: real): real {
    if x < y then y else x
  }

  /** The wear in millimetres, if the size record of the die's type is there. */
  function Wear(die: Die): Option<real> {
    match die.dieType
    case ROUND =>
      (match die.round
       case None => None
       case Some(z) => Some(Abs(z.current - z.punched)))
    case FLAT =>
      (match die.flat
       case None => None
       case Some(z) =>
         Some(Max(Abs(z.currentWidth - z.punchedWidth), Abs(z.currentThickness - z.punchedThickness))))
  }

  function DefaultTolerance(t: DieType): Tolerance {
    Tolerance(if t == ROUND then 0.05 else 0.1, 70, 90)
  }

  function ToleranceFor(tolerances: map<DieType, Tolerance>, t: DieType): Tolerance {
    if t in tolerances then tolerances[t] else DefaultTolerance(t)
  }

  function LevelOf(wear: real, t: Tolerance): Option<Level>
    requires t.maxWear > 0.0
  {
    var percent := wear / t.maxWear * 100.0;
    if percent >= t.critical as real then Some(CRITICAL)
    else if percent >= t.warning as real then Some(WARNING)
    else None
  }

  /** What a check goes by: nothing when the size record is missing or the limit is not positive. */
  function Target(s: State, d: nat): Option<Option<Level>> {
    if d !in s.dies then None
    else
      var t := ToleranceFor(s.tolerances, s.dies[d].dieType);
      match Wear(s.dies[d])
      case None => None
      case Some(wear) => if t.maxWear > 0.0 then Some(LevelOf(wear, t)) else None
  }

  // ---------------------------------------------------------------- alerts on file

  /** The newest unresolved alert of a die, or -1. */
  function ActiveAt(alerts: seq<Alert>, d: nat): (i: int)
    ensures -1 <= i < |alerts|
    ensures i >= 0 ==> alerts[i].die == d && !alerts[i].resolved
    ensures forall j :: i < j < |alerts| && alerts[j].die == d ==> alerts[j].resolved
  {
    if alerts == [] then -1
    else if alerts[|alerts| - 1].die == d && !alerts[|alerts| - 1].resolved then |alerts| - 1
    else ActiveAt(alerts[..|alerts| - 1], d)
  }

  function Active(alerts: seq<Alert>, d: nat): Option<Level> {
    var i := ActiveAt(alerts, d);
    if i < 0 then None else Some(alerts[i].level)
  }

  ghost predicate AtMostOneActive(alerts: seq<Alert>) {
    forall i, j :: 0 <= i < j < |alerts| && alerts[i].die == alerts[j].die ==> alerts[i].resolved || alerts[j].resolved
  }

  function Resolve(alerts: seq<Alert>, i: int): seq<Alert>
    requires 0 <= i < |alerts|
  {
    alerts[i := alerts[i].(resolved := true)]
  }

  /** The alerts after a check that finds this level. */
  function Settled(alerts: seq<Alert>, d: nat, level: Option<Level>): seq<Alert> {
    var i := ActiveAt(alerts, d);
    if level.Some? then
      if i < 0 then alerts + [Alert(d, level.value, false)]
      else if alerts[i].level != level.value then Resolve(alerts, i) + [Alert(d, level.value, false)]
      else alerts
    else if i < 0 then alerts
    else Resolve(alerts, i)
  }

  lemma ActiveIsUnique(alerts: seq<Alert>, d: nat, i: int)
    requires AtMostOneActive(alerts)
    requires i == -1 ==> forall j :: 0 <= j < |alerts| && alerts[j].die == d ==> alerts[j].resolved
    requires i != -1 ==> 0 <= i < |alerts| && alerts[i].die == d && !alerts[i].resolved
    ensures ActiveAt(alerts, d) == i
  {
  }

  lemma ResolveClearsDie(alerts: seq<Alert>, d: nat)
    requires AtMostOneActive(alerts) && ActiveAt(alerts, d) >= 0
    ensures var after := Resolve(alerts, ActiveAt(alerts, d));
            && AtMostOneActive(after) && ActiveAt(after, d) == -1
            && forall e :: e != d ==> Active(after, e) == Active(alerts, e)
  {
    var after := Resolve(alerts, ActiveAt(alerts, d));
    assert AtMostOneActive(after);
    ActiveIsUnique(after, d, -1);
    forall e | e != d ensures Active(after, e) == Active(alerts, e) {
      ActiveIsUnique(after, e, ActiveAt(alerts, e));
    }
  }

  lemma OpenSetsDie(alerts: seq<Alert>, d: nat, level: Level)
    requires AtMostOneActive(alerts) && ActiveAt(alerts, d) == -1
    ensures var after := alerts + [Alert(d, level, false)];
            && AtMostOneActive(after) && Active(after, d) == Some(level)
            && forall e :: e != d ==> Active(after, e) == Active(alerts, e)
  {
    var after := alerts + [Alert(d, level, false)];
    assert after[..|after| - 1] == alerts;
  }

  /** After a check the die's active alert is the one called for, and nobody else's moved. */
  lemma SettledIsCalledFor(alerts: seq<Alert>, d: nat, level: Option<Level>)
    requires AtMostOneActive(alerts)
    ensures var after := Settled(alerts, d, level);
            && AtMostOneActive(after)
            && Active(after, d) == level
            && (after == alerts <==> Active(alerts, d) == level)
            && forall e :: e != d ==> Active(after, e) == Active(alerts, e)
  {
    var i := ActiveAt(alerts, d);
    if i >= 0 && Active(alerts, d) != level {
      ResolveClearsDie(alerts, d);
      if level.Some? {
        OpenSetsDie(Resolve(alerts, i), d, level.value);
      }
    } else if i < 0 && level.Some? {
      OpenSetsDie(alerts, d, level.value);
    }
  }

  // ---------------------------------------------------------------- runs

  datatype Step =
    | Save(die: nat, row: Die)
    | Delete(die: nat)
    | SetTolerance(dieType: DieType, tolerance: Tolerance)
    | Check(die: nat)

  function Without(alerts: seq<Alert>, d: nat): seq<Alert> {
    if alerts == [] then []
    else Without(alerts[..|alerts| - 1], d) + if alerts[|alerts| - 1].die == d then [] else [alerts[|alerts| - 1]]
  }

  function Checked(s: State, d: nat): State {
    if d !in s.dies then s
    else
      var t := s.dies[d].dieType;
      s.(tolerances := s.tolerances[t := ToleranceFor(s.tolerances, t)],
         alerts := match Target(s, d) case None => s.alerts case Some(level) => Settled(s.alerts, d, level))
  }

  /** Saving a die, or one of its size records, ends in a check of the die. */
  function Apply(s: State, step: Step): State {
    match step
    case Save(d, row) => Checked(s.(dies := s.dies[d := row]), d)
    case Delete(d) => s.(dies := s.dies - {d}, alerts := Without(s.alerts, d))
    case SetTolerance(t, tolerance) => s.(tolerances := s.tolerances[t := tolerance])
    case Check(d) => Checked(s, d)
  }

  function RunSteps(s: State, steps: seq<Step>): State {
    if steps == [] then s else Apply(RunSteps(s, steps[..|steps| - 1]), steps[|steps| - 1])
  }

  lemma ActiveAfterAppend(alerts: seq<Alert>, a: Alert, d: nat)
    ensures Active(alerts + [a], d) == if a.die == d && !a.resolved then Some(a.level) else Active(alerts, d)
  {
    assert (alerts + [a])[..|alerts|] == alerts;
  }

  lemma {:induction false} WithoutDie(alerts: seq<Alert>, d: nat)
    requires AtMostOneActive(alerts)
    ensures AtMostOneActive(Without(alerts, d)) && Active(Without(alerts, d), d) == None
    ensures forall e :: e != d ==> Active(Without(alerts, d), e) == Active(alerts, e)
    ensures forall a :: a in Without(alerts, d) ==> a in alerts
  {
    if alerts != [] {
      var front, last := alerts[..|alerts| - 1], alerts[|alerts| - 1];
      WithoutDie(front, d);
      var kept := Without(front, d);
      assert alerts == front + [last];
      assert Without(alerts, d) == if last.die == d then kept else kept + [last];
      forall e | e != d ensures Active(Without(alerts, d), e) == Active(alerts, e) {
        ActiveAfterAppend(front, last, e);
        ActiveAfterAppend(kept, last, e);
      }
      ActiveAfterAppend(kept, last, d);
      assert !last.resolved ==> forall a :: a in front && a.die == last.die ==> a.resolved;
    }
  }

  lemma CheckedKeepsOne(s: State, d: nat)
    requires AtMostOneActive(s.alerts)
    ensures AtMostOneActive(Checked(s, d).alerts)
  {
    if Target(s, d).Some? {
      SettledIsCalledFor(s.alerts, d, Target(s, d).value);
    }
  }

  lemma StepKeepsOne(s: State, step: Step)
    requires AtMostOneActive(s.alerts)
    ensures AtMostOneActive(Apply(s, step).alerts)
  {
    match step
    case Save(d, row) => CheckedKeepsOne(s.(dies := s.dies[d := row]), d);
    case Delete(d) => WithoutDie(s.alerts, d);
    case SetTolerance(_, _) =>
    case Check(d) => CheckedKeepsOne(s, d);
  }

  /** Over every run a die has at most one unresolved alert. */
  lemma {:induction false} RunKeepsOne(s: State, steps: seq<Step>)
    requires AtMostOneActive(s.alerts)
    ensures AtMostOneActive(RunSteps(s, steps).alerts)
  {
    if steps != [] {
      RunKeepsOne(s, steps[..|steps| - 1]);
      StepKeepsOne(RunSteps(s, steps[..|steps| - 1]), steps[|steps| - 1]);
    }
  }

  // ---------------------------------------------------------------- alerts follow the wear

  /** The die's active alert is the one its wear calls for now. */
  predicate Current(s: State, d: nat) {
    Target(s, d).Some? ==> Active(s.alerts, d) == Target(s, d).value
  }

  /** Checking a die brings its alert up to date, changes no other die's and says whether it changed any. */
  lemma CheckMakesCurrent(s: State, d: nat)
    requires AtMostOneActive(s.alerts)
    ensures var t := Checked(s, d);
            && Current(t, d)
            && (t.alerts == s.alerts <==> Current(s, d))
            && (forall e :: e != d ==> Active(t.alerts, e) == Active(s.alerts, e))
            && (forall e :: Target(t, e) == Target(s, e))
  {
    if Target(s, d).Some? {
      SettledIsCalledFor(s.alerts, d, Target(s, d).value);
    }
  }

  /** A repeated check changes nothing. */
  lemma CheckIsIdempotent(s: State, d: nat)
    requires AtMostOneActive(s.alerts)
    ensures Checked(Checked(s, d), d) == Checked(s, d)
  {
    CheckMakesCurrent(s, d);
    CheckedKeepsOne(s, d);
    CheckMakesCurrent(Checked(s, d), d);
    var once := Checked(s, d);
    if d in s.dies {
      var t := s.dies[d].dieType;
      assert once.tolerances[t := ToleranceFor(once.tolerances, t)] == once.tolerances;
    }
  }

  ghost predicate AllCurrent(s: State) {
    forall d :: d in s.dies ==> Current(s, d)
  }

  lemma CheckedKeepsCurrent(s: State, d: nat)
    requires AtMostOneActive(s.alerts)
    requires forall e :: e in s.dies && e != d ==> Current(s, e)
    ensures AllCurrent(Checked(s, d))
  {
    CheckMakesCurrent(s, d);
  }

  lemma StepKeepsCurrent(s: State, step: Step)
    requires AtMostOneActive(s.alerts) && AllCurrent(s) && !step.SetTolerance?
    ensures AllCurrent(Apply(s, step))
  {
    match step
    case Save(d, row) =>
      var saved := s.(dies := s.dies[d := row]);
      assert forall e :: e != d ==> Target(saved, e) == Target(s, e);
      CheckedKeepsCurrent(saved, d);
    case Delete(d) =>
      WithoutDie(s.alerts, d);
    case Check(d) => CheckedKeepsCurrent(s, d);
  }

  /** As long as no tolerance changes, every die's alert is the one its wear calls for, at every moment. */
  lemma {:induction false} AlertsFollowWear(s: State, steps: seq<Step>)
    requires AtMostOneActive(s.alerts) && AllCurrent(s)
    requires forall i :: 0 <= i < |steps| ==> !steps[i].SetTolerance?
    ensures AllCurrent(RunSteps(s, steps))
  {
    if steps != [] {
      AlertsFollowWear(s, steps[..|steps| - 1]);
      RunKeepsOne(s, steps[..|steps| - 1]);
      StepKeepsCurrent(RunSteps(s, steps[..|steps| - 1]), steps[|steps| - 1]);
    }
  }

  /** What a new tolerance would call for is what the old one did, or, if that had no limit, what is on file. */
  predicate UnmovedBy(s: State, d: nat, tolerance: Tolerance)
    requires d in s.dies && Wear(s.dies[d]).Some? && tolerance.maxWear > 0.0
  {
    var wear, previous := Wear(s.dies[d]).value, ToleranceFor(s.tolerances, s.dies[d].dieType);
    LevelOf(wear, tolerance) == if previous.maxWear > 0.0 then LevelOf(wear, previous) else Active(s.alerts, d)
  }

  /**
   A new tolerance leaves every alert current just when, for each die of the type that has
   its sizes, the old and the new limits put its wear on the same level.
   */
  lemma ToleranceChangeIsHarmlessIff(s: State, t: DieType, tolerance: Tolerance)
    requires AllCurrent(s)
    ensures AllCurrent(Apply(s, SetTolerance(t, tolerance))) <==>
      forall d :: d in s.dies && s.dies[d].dieType == t && Wear(s.dies[d]).Some? && tolerance.maxWear > 0.0 ==>
        UnmovedBy(s, d, tolerance)
  {
    var after := Apply(s, SetTolerance(t, tolerance));
    forall d | d in s.dies
      ensures Current(after, d) <==>
        (s.dies[d].dieType == t && Wear(s.dies[d]).Some? && tolerance.maxWear > 0.0 ==> UnmovedBy(s, d, tolerance))
    {
      assert Current(s, d);
      if s.dies[d].dieType != t {
        assert Target(after, d) == Target(s, d);
      }
    }
  }

  /** A changed tolerance leaves stale alerts behind until the next check. */
  lemma ToleranceChangeGoesUnnoticed()
    ensures exists s: State, step: Step :: AllCurrent(s) && AtMostOneActive(s.alerts) && !AllCurrent(Apply(s, step))
  {
    var die := Die(ROUND, "AVAILABLE", Some(RoundSizes(1.0, 1.04)), None);
    var s := State(map[0 := die], map[ROUND := Tolerance(1.0, 70, 90)], []);
    var step := SetTolerance(ROUND, Tolerance(0.01, 70, 90));
    var t := Apply(s, step);
    assert 0 in t.dies && Target(t, 0).Some? && Target(t, 0).value != None;
    assert !Current(t, 0);
    assert AllCurrent(s);
  }

  // ---------------------------------------------------------------- runs with tolerance changes

  predicate Touches(step: Step, d: nat) {
    !step.SetTolerance? && step.die == d
  }

  /** The last step that saves, checks or deletes a die. */
  function LastTouch(steps: seq<Step>, d: nat): (n: Option<nat>)
    ensures n.Some? ==> n.value < |steps| && Touches(steps[n.value], d)
    ensures forall i :: 0 <= i < |steps| && Touches(steps[i], d) ==> n.Some? && i <= n.value
  {
    if steps == [] then None
    else if Touches(steps[|steps| - 1], d) then Some(|steps| - 1)
    else LastTouch(steps[..|steps| - 1], d)
  }

  lemma UntouchedStays(s: State, step: Step, d: nat)
    requires AtMostOneActive(s.alerts) && !Touches(step, d)
    ensures var t := Apply(s, step);
            && (d in t.dies <==> d in s.dies) && (d in s.dies ==> t.dies[d] == s.dies[d])
            && Active(t.alerts, d) == Active(s.alerts, d)
  {
    match step
    case Save(e, row) => CheckMakesCurrent(s.(dies := s.dies[e := row]), e);
    case Delete(e) => WithoutDie(s.alerts, e);
    case SetTolerance(_, _) =>
    case Check(e) => CheckMakesCurrent(s, e);
  }

  /** Nothing happens to a die and its alert after the last step that touches it. */
  lemma {:induction false} StaysSinceLastTouch(s: State, steps: seq<Step>, d: nat, n: nat)
    requires AtMostOneActive(s.alerts) && n <= |steps|
    requires forall i :: n <= i < |steps| ==> !Touches(steps[i], d)
    ensures var mid, now := RunSteps(s, steps[..n]), RunSteps(s, steps);
            && (d in now.dies <==> d in mid.dies) && (d in now.dies ==> now.dies[d] == mid.dies[d])
            && Active(now.alerts, d) == Active(mid.alerts, d)
  {
    if n == |steps| {
      assert steps[..n] == steps;
    } else {
      var front := steps[..|steps| - 1];
      assert front[..n] == steps[..n];
      StaysSinceLastTouch(s, front, d, n);
      RunKeepsOne(s, front);
      UntouchedStays(RunSteps(s, front), steps[|steps| - 1], d);
    }
  }

  /** What a save or a check finds: the level the wear calls for, or no sizes or no limit to go by. */
  lemma TouchSettles(s: State, step: Step, d: nat)
    requires AtMostOneActive(s.alerts) && Touches(step, d)
    ensures var t := Apply(s, step);
            && (step.Delete? ==> d !in t.dies && Active(t.alerts, d) == None)
            && (!step.Delete? ==>
                  Active(t.alerts, d) == match Target(t, d) case Some(level) => level case None => Active(s.alerts, d))
  {
    match step
    case Save(_, row) => CheckMakesCurrent(s.(dies := s.dies[d := row]), d);
    case Delete(_) => WithoutDie(s.alerts, d);
    case Check(_) => CheckMakesCurrent(s, d);
  }

  /**
   Over every run, tolerance changes included: a die's alert is the level its present wear
   calls for under the tolerance that was in force at its last save or check. If that one
   had no sizes or no positive limit to go by, the alert is what it was before; a deleted
   die has none.
   */
  lemma AlertIsOfLastCheck(s: State, steps: seq<Step>, d: nat, n: nat)
    requires AtMostOneActive(s.alerts) && LastTouch(steps, d) == Some(n)
    ensures var before, mid, now := RunSteps(s, steps[..n]), RunSteps(s, steps[..n + 1]), RunSteps(s, steps);
            if steps[n].Delete? then d !in now.dies && Active(now.alerts, d) == None
            else
              && (d in now.dies <==> d in mid.dies)
              && (d in now.dies ==>
                    var t := ToleranceFor(mid.tolerances, now.dies[d].dieType);
                    Active(now.alerts, d)
                    == if Wear(now.dies[d]).Some? && t.maxWear > 0.0 then LevelOf(Wear(now.dies[d]).value, t)
                       else Active(before.alerts, d))
  {
    StaysSinceLastTouch(s, steps, d, n + 1);
    RunKeepsOne(s, steps[..n]);
    assert steps[..n + 1][..n] == steps[..n];
    TouchSettles(RunSteps(s, steps[..n]), steps[n], d);
  }

  /** Hence it is current just when the tolerance of then and that of now put its wear on the same level. */
  lemma CurrentIffSameLevel(s: State, steps: seq<Step>, d: nat, n: nat)
    requires AtMostOneActive(s.alerts) && LastTouch(steps, d) == Some(n) && d in RunSteps(s, steps).dies
    requires var mid, now := RunSteps(s, steps[..n + 1]), RunSteps(s, steps);
             var t := now.dies[d].dieType;
             && Wear(now.dies[d]).Some?
             && ToleranceFor(mid.tolerances, t).maxWear > 0.0 && ToleranceFor(now.tolerances, t).maxWear > 0.0
    ensures var mid, now := RunSteps(s, steps[..n + 1]), RunSteps(s, steps);
            var t, wear := now.dies[d].dieType, Wear(now.dies[d]).value;
            Current(now, d)
            <==> LevelOf(wear, ToleranceFor(mid.tolerances, t)) == LevelOf(wear, ToleranceFor(now.tolerances, t))
  {
    AlertIsOfLastCheck(s, steps, d, n);
  }

  // ---------------------------------------------------------------- the threshold function

  function Rank(level: Option<Level>): nat {
    match level
    case None => 0
    case Some(WARNING) => 1
    case Some(CRITICAL) => 2
  }

  lemma DivisionGrows(a: real, b: real, limit: real)
    requires a * limit <= b * limit && limit > 0.0
    ensures a <= b
  {
    assert (b - a) * limit >= 0.0;
  }

  lemma PercentGrows(small: real, large: real, limit: real)
    requires small <= large && limit > 0.0
    ensures small / limit * 100.0 <= large / limit * 100.0
  {
    DivisionGrows(small / limit, large / limit, limit);
  }

  /** More wear never calls for less, whichever way round the percentages are set. */
  lemma MoreWearNeverLowersLevel(small: real, large: real, t: Tolerance)
    requires small <= large && t.maxWear > 0.0
    ensures Rank(LevelOf(small, t)) <= Rank(LevelOf(large, t))
  {
    PercentGrows(small, large, t.maxWear);
  }

  lemma ScaledOrder(wear: real, limit: real, percentage: real)
    requires limit > 0.0
    ensures wear / limit * 100.0 >= percentage <==> wear * 100.0 >= percentage * limit
  {
    var percent := wear / limit * 100.0;
    assert percent * limit == wear * 100.0;
    if percent >= percentage {
      assert (percent - percentage) * limit >= 0.0;
    } else {
      assert (percentage - percent) * limit > 0.0;
    }
  }

  /** The level without a division: wear against the percentages of the limit. */
  lemma LevelByLimits(wear: real, t: Tolerance)
    requires t.maxWear > 0.0
    ensures LevelOf(wear, t) == Some(CRITICAL) <==> wear * 100.0 >= t.critical as real * t.maxWear
    ensures LevelOf(wear, t) == None
       <==> wear * 100.0 < t.critical as real * t.maxWear && wear * 100.0 < t.warning as real * t.maxWear
  {
    ScaledOrder(wear, t.maxWear, t.critical as real);
    ScaledOrder(wear, t.maxWear, t.warning as real);
  }

  lemma NoWearLevel(t: Tolerance)
    requires t.maxWear > 0.0
    ensures LevelOf(0.0, t) == None <==> t.warning > 0 && t.critical > 0
  {
  }
}
