/**
 When a die gets which alert, in terms of its sizes and limits alone, and what a check or
 a delete does to the alerts on file.
 */
module WearLaws {
  import opened Options
  import opened WearAlerts

  /** A size has moved, either way, by at least this percentage of the limit. */
  predicate Moved(before: real, now: real, percentage: int, limit: real) {
    || (now - before) * 100.0 >= percentage as real * limit
    || (before - now) * 100.0 >= percentage as real * limit
  }

  lemma LevelOfChange(before: real, now: real, t: Tolerance)
    requires t.maxWear > 0.0
    ensures LevelOf(Abs(now - before), t) == Some(CRITICAL) <==> Moved(before, now, t.critical, t.maxWear)
    ensures LevelOf(Abs(now - before), t) == None
       <==> !Moved(before, now, t.critical, t.maxWear) && !Moved(before, now, t.warning, t.maxWear)
  {
    LevelByLimits(Abs(now - before), t);
  }

  lemma LevelOfLarger(x: real, y: real, t: Tolerance)
    requires t.maxWear > 0.0
    ensures LevelOf(Max(x, y), t) == Some(CRITICAL)
       <==> LevelOf(x, t) == Some(CRITICAL) || LevelOf(y, t) == Some(CRITICAL)
    ensures LevelOf(Max(x, y), t) == None <==> LevelOf(x, t) == None && LevelOf(y, t) == None
  {
    MoreWearNeverLowersLevel(x, Max(x, y), t);
    MoreWearNeverLowersLevel(y, Max(x, y), t);
  }

  /** The alert a check leaves: critical, none, or else a warning. */
  predicate AlertIs(alert: Option<Level>, critical: bool, none: bool) {
    && (alert == Some(CRITICAL) <==> critical)
    && (alert == None <==> none)
  }

  /**
   After a check of a round die with a positive limit: the alert is critical exactly if the
   size moved, in either direction, by the critical percentage of the limit, and there is
   none exactly if it moved by neither percentage. Without a tolerance on file the limit is
   0.05 mm, at 70 and 90 percent.
   */
  lemma RoundDieAlertIff(s: State, d: nat)
    requires AtMostOneActive(s.alerts) && d in s.dies && s.dies[d].dieType == ROUND && s.dies[d].round.Some?
    ensures var t := if ROUND in s.tolerances then s.tolerances[ROUND] else Tolerance(0.05, 70, 90);
            var z := s.dies[d].round.value;
            t.maxWear > 0.0 ==>
              AlertIs(Active(Checked(s, d).alerts, d),
                      Moved(z.punched, z.current, t.critical, t.maxWear),
                      !Moved(z.punched, z.current, t.critical, t.maxWear)
                      && !Moved(z.punched, z.current, t.warning, t.maxWear))
  {
    var t := ToleranceFor(s.tolerances, ROUND);
    var z := s.dies[d].round.value;
    if t.maxWear > 0.0 {
      LevelOfChange(z.punched, z.current, t);
      CheckMakesCurrent(s, d);
    }
  }

  /** The same for a flat die: either side moving is enough. The default limit is 0.1 mm. */
  lemma FlatDieAlertIff(s: State, d: nat)
    requires AtMostOneActive(s.alerts) && d in s.dies && s.dies[d].dieType == FLAT && s.dies[d].flat.Some?
    ensures var t := if FLAT in s.tolerances then s.tolerances[FLAT] else Tolerance(0.1, 70, 90);
            var z := s.dies[d].flat.value;
            t.maxWear > 0.0 ==>
              AlertIs(Active(Checked(s, d).alerts, d),
                      || Moved(z.punchedWidth, z.currentWidth, t.critical, t.maxWear)
                      || Moved(z.punchedThickness, z.currentThickness, t.critical, t.maxWear),
                      && !Moved(z.punchedWidth, z.currentWidth, t.critical, t.maxWear)
                      && !Moved(z.punchedThickness, z.currentThickness, t.critical, t.maxWear)
                      && !Moved(z.punchedWidth, z.currentWidth, t.warning, t.maxWear)
                      && !Moved(z.punchedThickness, z.currentThickness, t.warning, t.maxWear))
  {
    var t := ToleranceFor(s.tolerances, FLAT);
    var z := s.dies[d].flat.value;
    if t.maxWear > 0.0 {
      var width, thickness := Abs(z.currentWidth - z.punchedWidth), Abs(z.currentThickness - z.punchedThickness);
      LevelOfChange(z.punchedWidth, z.currentWidth, t);
      LevelOfChange(z.punchedThickness, z.currentThickness, t);
      LevelOfLarger(width, thickness, t);
      CheckMakesCurrent(s, d);
    }
  }

  /** Without the size record of its type, or with a limit that is not positive, a check leaves the alerts alone. */
  lemma NothingToGoBy(s: State, d: nat)
    requires d in s.dies
    requires var die := s.dies[d];
             || (if die.dieType == ROUND then die.round.None? else die.flat.None?)
             || (die.dieType in s.tolerances && s.tolerances[die.dieType].maxWear <= 0.0)
    ensures Checked(s, d).alerts == s.alerts && Checked(s, d).dies == s.dies
  {
  }

  /** A step stores what it says: the row, the tolerance, or that the die is gone; nothing else in either table. */
  lemma StepStores(s: State, step: Step, d: nat, t: DieType)
    ensures var s' := Apply(s, step);
            && (d in s'.dies <==> if step.Save? && step.die == d then true
                                  else d in s.dies && !(step.Delete? && step.die == d))
            && (d in s'.dies ==> s'.dies[d] == if step.Save? && step.die == d then step.row else s.dies[d])
            && (step.SetTolerance? ==>
                  s'.tolerances == s.tolerances[step.dieType := step.tolerance] && s'.alerts == s.alerts)
            && (!step.SetTolerance? && t in s.tolerances ==>
                  t in s'.tolerances && s'.tolerances[t] == s.tolerances[t])
            && (!step.SetTolerance? && t !in s.tolerances && t in s'.tolerances ==>
                  s'.tolerances[t] == Tolerance(if t == ROUND then 0.05 else 0.1, 70, 90))
  {
  }

  // ---------------------------------------------------------------- the file of alerts

  /**
   A check deletes no alert and rewrites none. If the level found is not that of the active
   alert, the active one is marked resolved and, if there is a level, one alert of it is
   added at the end; else nothing changes.
   */
  lemma CheckKeepsFile(alerts: seq<Alert>, d: nat, level: Option<Level>)
    requires AtMostOneActive(alerts)
    ensures var after := Settled(alerts, d, level);
            if Active(alerts, d) == level then after == alerts
            else
              && |after| == |alerts| + (if level.Some? then 1 else 0)
              && (level.Some? ==> after[|alerts|] == Alert(d, level.value, false))
              && forall i :: 0 <= i < |alerts| ==>
                   after[i] == if alerts[i].die == d then alerts[i].(resolved := true) else alerts[i]
  {
    var i := ActiveAt(alerts, d);
    forall j | 0 <= j < |alerts| && alerts[j].die == d && j != i ensures alerts[j].resolved {
      if i >= 0 && j < i {
        assert alerts[j].die == alerts[i].die;
      }
    }
    if i >= 0 {
      assert forall j :: 0 <= j < |alerts| && j != i && alerts[j].die == d ==>
          alerts[j] == alerts[j].(resolved := true);
    }
  }

  /** The alerts of one die, resolved ones too, in order. */
  function Of(alerts: seq<Alert>, d: nat): seq<Alert> {
    if alerts == [] then []
    else Of(alerts[..|alerts| - 1], d) + if alerts[|alerts| - 1].die == d then [alerts[|alerts| - 1]] else []
  }

  lemma OfAppend(alerts: seq<Alert>, a: Alert, d: nat)
    ensures Of(alerts + [a], d) == if a.die == d then Of(alerts, d) + [a] else Of(alerts, d)
  {
    assert (alerts + [a])[..|alerts|] == alerts;
  }

  /** Deleting a die deletes its alerts, resolved ones too, and keeps every other die's. */
  lemma {:induction false} DeleteTakesOwnAlerts(alerts: seq<Alert>, d: nat, e: nat)
    ensures Of(Without(alerts, d), e) == if e == d then [] else Of(alerts, e)
  {
    if alerts != [] {
      var front, last := alerts[..|alerts| - 1], alerts[|alerts| - 1];
      DeleteTakesOwnAlerts(front, d, e);
      assert alerts == front + [last];
      OfAppend(front, last, e);
      OfAppend(Without(front, d), last, e);
      assert Without(alerts, d) == if last.die == d then Without(front, d) else Without(front, d) + [last];
    }
  }
}
