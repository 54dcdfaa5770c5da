/** The wear check, the daily check of all dies, and the recut that resets a die's wear. */
module WearService {
  import opened Options
  import Decimals
  import opened WearAlerts

  datatype Given = Missing | Unreadable | Number(value: real)
  datatype RecutError =
    | NotAllowed | NoteRequired | ValueRequired | BadValue | SizesMissing
    | NotLarger | WidthSmaller | ThicknessSmaller | DoesNotFit
  datatype Outcome = Recut | Refused(error: RecutError)
  datatype LogEntry =
    | RoundRecut(die: nat, oldCurrent: real, oldPunched: real, newSize: real, note: string)
    | FlatRecut(die: nat, oldWidth: real, newWidth: real, oldThickness: real, newThickness: real,
                oldRadius: real, newRadius: real, note: string)

  /** The dies of a set that a check would change. */
  function Stale(s: State, ds: set<nat>): set<nat> {
    set d | d in ds && !Current(s, d)
  }

  lemma OneMoreStale(s: State, done: set<nat>, d: nat)
    requires d !in done
    ensures |Stale(s, done + {d})| == |Stale(s, done)| + if Current(s, d) then 0 else 1
  {
    assert Stale(s, done + {d}) == Stale(s, done) + if Current(s, d) then {} else {d};
  }

  lemma OneMoreDone(due: set<nat>, done: set<nat>, todo: set<nat>, d: nat)
    requires done + todo == due && done !! todo && d in todo
    ensures done + {d} + (todo - {d}) == due && done + {d} !! todo - {d}
    ensures |done + {d}| == |done| + 1
  {
  }

  /** Where the daily check stands when it has been through `done`. */
  ghost predicate CheckedSoFar(start: State, now: State, done: set<nat>) {
    && AtMostOneActive(now.alerts) && now.dies == start.dies
    && (forall d :: Target(now, d) == Target(start, d))
    && (forall d :: d in done ==> Current(now, d))
    && (forall d :: d !in done ==> Active(now.alerts, d) == Active(start.alerts, d))
  }

  lemma OneMoreChecked(start: State, now: State, done: set<nat>, d: nat)
    requires CheckedSoFar(start, now, done) && d !in done
    ensures CheckedSoFar(start, Checked(now, d), done + {d})
    ensures Current(now, d) == Current(start, d)
  {
    CheckMakesCurrent(now, d);
    CheckedKeepsOne(now, d);
  }

  /** The alerts right after a recut, when there are sizes of the die's type. */
  ghost predicate ClearedByRecut(before: State, after: State, d: nat)
    requires d in before.dies
  {
    var t := ToleranceFor(before.tolerances, before.dies[d].dieType);
    Active(after.alerts, d) == None <==>
      if t.maxWear > 0.0 then t.warning > 0 && t.critical > 0 else Active(before.alerts, d) == None
  }

  /** A die whose sizes equal its punched sizes. */
  lemma UnwornDieIsCleared(before: State, after: State, d: nat, unworn: Die)
    requires AtMostOneActive(before.alerts) && d in before.dies
    requires unworn.dieType == before.dies[d].dieType && Wear(unworn) == Some(0.0)
    requires after == Apply(before, Save(d, unworn))
    ensures ClearedByRecut(before, after, d)
  {
    CheckMakesCurrent(before.(dies := before.dies[d := unworn]), d);
    var t := ToleranceFor(before.tolerances, before.dies[d].dieType);
    if t.maxWear > 0.0 {
      NoWearLevel(t);
    }
  }

  /** Only die `d` has a new row, available and of the type it had. */
  ghost predicate Reworked(before: map<nat, Die>, after: map<nat, Die>, d: nat)
    requires d in before
  {
    && d in after && after - {d} == before - {d}
    && after[d].dieType == before[d].dieType && after[d].status == "AVAILABLE"
  }

  class Workshop {
    var dies: map<nat, Die>
    var tolerances: map<DieType, Tolerance>
    var alerts: seq<Alert>
    var log: seq<LogEntry>

    constructor ()
      ensures Model() == State(map[], map[], []) && log == []
    {
      dies, tolerances, alerts, log := map[], map[], [], [];
    }

    function Model(): State
      reads this
    {
      State(dies, tolerances, alerts)
    }

    method GetOrCreateDefaultTolerance(t: DieType) returns (tolerance: Tolerance)
      modifies `tolerances
      ensures tolerance == ToleranceFor(old(tolerances), t) && tolerances == old(tolerances)[t := tolerance]
    {
      if t !in tolerances {
        tolerances := tolerances[t := DefaultTolerance(t)];
      }
      tolerance := tolerances[t];
    }

    /** The first unresolved alert of a die, newest first. */
    method FindActive(d: nat) returns (i: int)
      ensures i == ActiveAt(alerts, d)
    {
      i := |alerts| - 1;
      while i >= 0 && (alerts[i].die != d || alerts[i].resolved)
        invariant -1 <= i < |alerts| && ActiveAt(alerts[..i + 1], d) == ActiveAt(alerts, d)
      {
        assert alerts[..i + 1][..i] == alerts[..i];
        i := i - 1;
      }
    }

    method CheckWearAlerts(d: nat) returns (changed: bool)
      requires d in dies && AtMostOneActive(alerts)
      modifies `tolerances, `alerts
      ensures Model() == Checked(old(Model()), d)
      ensures changed == !Current(old(Model()), d)
    {
      var die := dies[d];
      var tolerance := GetOrCreateDefaultTolerance(die.dieType);
      var wear := 0.0;
      match die.dieType {
        case ROUND =>
          if die.round.None? {
            return false;
          }
          wear := Abs(die.round.value.current - die.round.value.punched);
        case FLAT =>
          if die.flat.None? {
            return false;
          }
          var z := die.flat.value;
          wear := Max(Abs(z.currentWidth - z.punchedWidth), Abs(z.currentThickness - z.punchedThickness));
      }
      if tolerance.maxWear <= 0.0 {
        return false;
      }
      var percent := wear / tolerance.maxWear * 100.0;
      var target: Option<Level> := None;
      if percent >= tolerance.critical as real {
        target := Some(CRITICAL);
      } else if percent >= tolerance.warning as real {
        target := Some(WARNING);
      }
      assert target == LevelOf(wear, tolerance);
      changed := SettleAlert(d, target);
    }

    /** Resolves and creates alerts so that the active one has the level found. */
    method SettleAlert(d: nat, target: Option<Level>) returns (changed: bool)
      requires AtMostOneActive(alerts)
      modifies `alerts
      ensures alerts == Settled(old(alerts), d, target)
      ensures changed <==> Active(old(alerts), d) != target
    {
      var active := FindActive(d);
      if target.Some? {
        if active >= 0 {
          if alerts[active].level != target.value {
            alerts := alerts[active := alerts[active].(resolved := true)];
            alerts := alerts + [Alert(d, target.value, false)];
            return true;
          }
          return false;
        } else {
          alerts := alerts + [Alert(d, target.value, false)];
          return true;
        }
      } else {
        if active >= 0 {
          alerts := alerts[active := alerts[active].(resolved := true)];
          return true;
        }
        return false;
      }
    }

    /** One round of the daily check. */
    method CheckNext(d: nat, ghost start: State, ghost done: set<nat>) returns (changed: bool)
      requires d in dies && d !in done && CheckedSoFar(start, Model(), done)
      modifies `tolerances, `alerts
      ensures CheckedSoFar(start, Model(), done + {d}) && changed == !Current(start, d)
    {
      OneMoreChecked(start, Model(), done, d);
      changed := CheckWearAlerts(d);
    }

    method CheckDies(due: set<nat>) returns (checkedCount: nat, updatedCount: nat)
      requires AtMostOneActive(alerts) && due <= dies.Keys
      modifies `tolerances, `alerts
      ensures CheckedSoFar(old(Model()), Model(), due)
      ensures checkedCount == |due| && updatedCount == |Stale(old(Model()), due)|
    {
      ghost var start := Model();
      ghost var done: set<nat> := {};
      var todo := due;
      checkedCount, updatedCount := 0, 0;
      while todo != {}
        invariant done + todo == due && done !! todo
        invariant CheckedSoFar(start, Model(), done)
        invariant checkedCount == |done| && updatedCount == |Stale(start, done)|
        decreases |todo|
      {
        var d :| d in todo;
        var changed := CheckNext(d, start, done);
        OneMoreStale(start, done, d);
        OneMoreDone(due, done, todo, d);
        if changed {
          updatedCount := updatedCount + 1;
        }
        checkedCount := checkedCount + 1;
        done, todo := done + {d}, todo - {d};
      }
      assert done == due;
    }

    /**
     The daily check. It leaves every die that is not scrapped with the alert its wear
     calls for, touches no other die's, and counts exactly the dies whose alert was stale.
     */
    method CheckAllWearAlerts() returns (checkedCount: nat, updatedCount: nat)
      requires AtMostOneActive(alerts)
      modifies `tolerances, `alerts
      ensures AtMostOneActive(alerts)
      ensures var due := set d | d in dies && dies[d].status != "SCRAPPED";
              && checkedCount == |due|
              && updatedCount == |Stale(old(Model()), due)|
              && (forall d :: d in due ==> Current(Model(), d))
              && (forall d :: d !in due ==> Active(alerts, d) == Active(old(alerts), d))
    {
      ghost var start := Model();
      var due := set d | d in dies && dies[d].status != "SCRAPPED";
      checkedCount, updatedCount := CheckDies(due);
      assert CheckedSoFar(start, Model(), due);
    }

    /** A die's row, or one of its size records, is saved; the save ends in a check. */
    method SaveDie(d: nat, row: Die)
      requires AtMostOneActive(alerts)
      modifies `dies, `tolerances, `alerts
      ensures Model() == Apply(old(Model()), Save(d, row))
    {
      dies := dies[d := row];
      var _ := CheckWearAlerts(d);
    }

    /** Two saves in a row: the size record first, then the status. */
    method SaveSizesThenStatus(d: nat, row: Die)
      requires AtMostOneActive(alerts) && d in dies
      modifies `dies, `tolerances, `alerts
      ensures Model() == Apply(old(Model()), Save(d, row))
    {
      ghost var before := Model();
      var sized := row.(status := dies[d].status);
      SaveDie(d, sized);
      ghost var between := Model();
      CheckedKeepsOne(before.(dies := before.dies[d := sized]), d);
      SaveDie(d, row);
      StatusDoesNotMatter(before, d, row, sized.status);
    }

    /**
     A recut of a round die. It is refused without a word changed, or the die is as
     punched again and available; then the recut leaves no active alert just when both
     percentages of the tolerance are positive.
     */
    method RecutRound(d: nat, newSize: Given, note: string) returns (outcome: Outcome)
      requires d in dies && dies[d].dieType == ROUND && AtMostOneActive(alerts)
      modifies this
      ensures outcome.Refused? ==> Model() == old(Model()) && log == old(log)
      ensures outcome != Refused(NotAllowed) && outcome != Refused(NoteRequired)
      ensures outcome == Recut <==> LargerRound(old(dies[d]), newSize)
      ensures outcome == Refused(ValueRequired) <==> newSize.Missing?
      ensures outcome == Refused(BadValue) <==> newSize.Unreadable?
      ensures outcome == Refused(SizesMissing) <==> newSize.Number? && old(dies[d]).round.None?
      ensures outcome == Refused(NotLarger)
         <==> newSize.Number? && old(dies[d]).round.Some? && newSize.value <= old(dies[d]).round.value.current
      ensures outcome == Recut ==>
        && Model() == Apply(old(Model()), Save(d, RecutRoundDie(old(dies[d]), newSize.value)))
        && Reworked(old(dies), dies, d) && dies[d].flat == old(dies[d].flat) && dies[d].round.Some?
        && dies[d].round.value.punched == dies[d].round.value.current == newSize.value
        && ClearedByRecut(old(Model()), Model(), d)
        && log == old(log) + [RoundRecut(d, old(dies[d]).round.value.current, old(dies[d]).round.value.punched,
                                         newSize.value, note)]
    {
      if newSize.Missing? {
        return Refused(ValueRequired);
      }
      if newSize.Unreadable? {
        return Refused(BadValue);
      }
      var die := dies[d];
      if die.round.None? {
        return Refused(SizesMissing);
      }
      var RoundSizes(oldPunched, oldCurrent) := die.round.value;
      if newSize.value <= oldCurrent {
        return Refused(NotLarger);
      }
      if !SizeFits(newSize.value) {
        return Refused(DoesNotFit);
      }
      ghost var before := Model();
      var row := die.(round := Some(RoundSizes(newSize.value, newSize.value)), status := "AVAILABLE");
      SaveSizesThenStatus(d, row);
      UnwornDieIsCleared(before, Model(), d, row);
      log := log + [RoundRecut(d, oldCurrent, oldPunched, newSize.value, note)];
      outcome := Recut;
    }

    method RecutFlat(d: nat, newWidth: Given, newThickness: Given, newRadius: Given, note: string)
      returns (outcome: Outcome)
      requires d in dies && dies[d].dieType == FLAT && AtMostOneActive(alerts)
      modifies this
      ensures outcome.Refused? ==> Model() == old(Model()) && log == old(log)
      ensures outcome != Refused(NotAllowed) && outcome != Refused(NoteRequired)
      ensures outcome == Recut <==> NoSmallerFlat(old(dies[d]), newWidth, newThickness, newRadius)
      ensures outcome == Refused(ValueRequired) <==> newWidth.Missing? || newThickness.Missing? || newRadius.Missing?
      ensures outcome == Refused(BadValue)
         <==> !(newWidth.Missing? || newThickness.Missing? || newRadius.Missing?)
              && (newWidth.Unreadable? || newThickness.Unreadable? || newRadius.Unreadable?)
      ensures newWidth.Number? && newThickness.Number? && newRadius.Number? ==>
        var z := old(dies[d]).flat;
        && (outcome == Refused(SizesMissing) <==> z.None?)
        && (outcome == Refused(WidthSmaller) <==> z.Some? && newWidth.value < z.value.currentWidth)
        && (outcome == Refused(ThicknessSmaller) <==>
              z.Some? && newWidth.value >= z.value.currentWidth && newThickness.value < z.value.currentThickness)
      ensures outcome == Recut ==>
        && Model() == Apply(old(Model()), Save(d, RecutFlatDie(old(dies[d]), newWidth.value, newThickness.value,
            newRadius.value)))
        && Reworked(old(dies), dies, d) && dies[d].round == old(dies[d].round) && dies[d].flat.Some?
        && dies[d].flat.value.punchedWidth == dies[d].flat.value.currentWidth == newWidth.value
        && dies[d].flat.value.punchedThickness == dies[d].flat.value.currentThickness == newThickness.value
        && dies[d].flat.value.radius == newRadius.value
        && ClearedByRecut(old(Model()), Model(), d)
        && log == old(log) + [FlatRecut(d, old(dies[d]).flat.value.currentWidth, newWidth.value,
                                        old(dies[d]).flat.value.currentThickness, newThickness.value,
                                        old(dies[d]).flat.value.radius, newRadius.value, note)]
    {
      if newWidth.Missing? || newThickness.Missing? || newRadius.Missing? {
        return Refused(ValueRequired);
      }
      if newWidth.Unreadable? || newThickness.Unreadable? || newRadius.Unreadable? {
        return Refused(BadValue);
      }
      var die := dies[d];
      if die.flat.None? {
        return Refused(SizesMissing);
      }
      var z := die.flat.value;
      if newWidth.value < z.currentWidth {
        return Refused(WidthSmaller);
      }
      if newThickness.value < z.currentThickness {
        return Refused(ThicknessSmaller);
      }
      if !SizeFits(newWidth.value) || !SizeFits(newThickness.value) || !SizeFits(newRadius.value) {
        return Refused(DoesNotFit);
      }
      ghost var before := Model();
      var row := RecutFlatDie(die, newWidth.value, newThickness.value, newRadius.value);
      SaveSizesThenStatus(d, row);
      UnwornDieIsCleared(before, Model(), d, row);
      log := log + [FlatRecut(d, z.currentWidth, newWidth.value, z.currentThickness, newThickness.value,
                              z.radius, newRadius.value, note)];
      outcome := Recut;
    }

    /** `recut_die`: who may recut, and that a note is needed. */
    method RecutDie(d: nat, mayRecut: bool, note: string, newSize: Given, newWidth: Given, newThickness: Given,
        newRadius: Given)
      returns (outcome: Outcome)
      requires d in dies && AtMostOneActive(alerts)
      modifies this
      ensures outcome.Refused? ==> Model() == old(Model()) && log == old(log)
      ensures outcome == Refused(NotAllowed) <==> !mayRecut
      ensures outcome == Refused(NoteRequired) <==> mayRecut && Decimals.Strip(note) == ""
      ensures outcome == Recut <==>
        && mayRecut && Decimals.Strip(note) != ""
        && match old(dies[d]).dieType
           case ROUND => LargerRound(old(dies[d]), newSize)
           case FLAT => NoSmallerFlat(old(dies[d]), newWidth, newThickness, newRadius)
      ensures outcome == Recut ==>
        && d in dies && dies[d].status == "AVAILABLE" && Wear(dies[d]) == Some(0.0)
        && ClearedByRecut(old(Model()), Model(), d)
        && AtMostOneActive(alerts)
        && |log| == |old(log)| + 1 && log[..|old(log)|] == old(log) && log[|old(log)|].note == Decimals.Strip(note)
    {
      if !mayRecut {
        return Refused(NotAllowed);
      }
      var text := Decimals.Strip(note);
      if text == "" {
        return Refused(NoteRequired);
      }
      ghost var before := Model();
      match dies[d].dieType {
        case ROUND =>
          outcome := RecutRound(d, newSize, text);
          if outcome == Recut {
            StepKeepsOne(before, Save(d, RecutRoundDie(before.dies[d], newSize.value)));
          }
        case FLAT =>
          outcome := RecutFlat(d, newWidth, newThickness, newRadius, text);
          if outcome == Recut {
            StepKeepsOne(before, Save(d, RecutFlatDie(before.dies[d], newWidth.value, newThickness.value,
                newRadius.value)));
          }
      }
    }
  }

  /** What a size column can hold: rounded to three decimals, at most seven digits. */
  predicate SizeFits(size: real) {
    -9999.9995 < size < 9999.9995
  }

  predicate LargerRound(die: Die, newSize: Given) {
    && newSize.Number? && die.round.Some?
    && newSize.value > die.round.value.current
    && SizeFits(newSize.value)
  }

  predicate NoSmallerFlat(die: Die, newWidth: Given, newThickness: Given, newRadius: Given) {
    && newWidth.Number? && newThickness.Number? && newRadius.Number? && die.flat.Some?
    && newWidth.value >= die.flat.value.currentWidth
    && newThickness.value >= die.flat.value.currentThickness
    && SizeFits(newWidth.value) && SizeFits(newThickness.value) && SizeFits(newRadius.value)
  }

  function RecutRoundDie(die: Die, size: real): Die {
    die.(round := Some(RoundSizes(size, size)), status := "AVAILABLE")
  }

  function RecutFlatDie(die: Die, width: real, thickness: real, radius: real): Die {
    die.(flat := Some(FlatSizes(width, width, thickness, thickness, radius)), status := "AVAILABLE")
  }

  lemma StatusDoesNotMatter(s: State, d: nat, row: Die, status: string)
    requires AtMostOneActive(s.alerts)
    ensures Apply(Apply(s, Save(d, row.(status := status))), Save(d, row)) == Apply(s, Save(d, row))
  {
    var first, second := s.(dies := s.dies[d := row.(status := status)]), s.(dies := s.dies[d := row]);
    var between := Checked(first, d);
    var direct := Checked(second, d);
    assert Target(first, d) == Target(second, d);
    assert between.alerts == direct.alerts && between.tolerances == direct.tolerances;
    assert between.(dies := between.dies[d := row]) == direct;
    CheckIsIdempotent(second, d);
  }
}
