/**
 What an import as a whole promises: the last accepted row for a die decides it, importing
 twice is importing once, a dry run predicts the real one, and the counts add up. Rows
 enter through their outcomes, which depend on nothing but the row.
 */
module ImportProperties {
  import opened Options
  import opened Decimals
  import opened Texts
  import opened ImportModel

  /** All outcomes but the last. */
  function Front(os: seq<Outcome>): seq<Outcome>
    requires os != []
  {
    os[..|os| - 1]
  }

  function Last(os: seq<Outcome>): Outcome
    requires os != []
  {
    os[|os| - 1]
  }

  predicate AcceptedFor(o: Outcome, dieId: string) {
    o.Accepted? && o.plan.dieId == dieId
  }

  /** The last accepted row for a die. */
  function LastPlan(os: seq<Outcome>, dieId: string): Option<Plan> {
    if os == [] then None
    else if AcceptedFor(Last(os), dieId) then Some(Last(os).plan)
    else LastPlan(Front(os), dieId)
  }

  function KindOf(z: Sizes): DieType {
    if z.OfRound? then ROUND else FLAT
  }

  /** The last sizes of one kind accepted for a die. */
  function LastSizes(os: seq<Outcome>, dieId: string, kind: DieType): Option<Sizes> {
    if os == [] then None
    else
      var o := Last(os);
      if AcceptedFor(o, dieId) && KindOf(o.plan.sizes) == kind then Some(o.plan.sizes)
      else LastSizes(Front(os), dieId, kind)
  }

  function SizesOf(s: Store, k: nat, kind: DieType): Option<Sizes> {
    match kind
    case ROUND => if k in s.rounds then Some(OfRound(s.rounds[k])) else None
    case FLAT => if k in s.flats then Some(OfFlat(s.flats[k])) else None
  }

  function SizesOfDie(s: Store, dieId: string, kind: DieType): Option<Sizes> {
    if dieId in s.dies then SizesOf(s, s.dies[dieId].pk, kind) else None
  }

  function OrElse<T>(a: Option<T>, b: Option<T>): Option<T> {
    if a.Some? then a else b
  }

  // ---------------------------------------------------------------- the last row wins

  lemma {:induction false} DiesNeverLeave(s: Store, os: seq<Outcome>, dieId: string)
    requires dieId in s.dies
    ensures dieId in Imported(s, os).dies && Imported(s, os).dies[dieId].pk == s.dies[dieId].pk
  {
    if os != [] {
      DiesNeverLeave(s, Front(os), dieId);
    }
  }

  lemma {:induction false} LastRowDecidesDie(s: Store, os: seq<Outcome>, dieId: string)
    ensures var t := Imported(s, os);
            match LastPlan(os, dieId)
            case Some(p) => dieId in t.dies && t.dies[dieId].info == p.info
            case None => (dieId in t.dies <==> dieId in s.dies) && (dieId in t.dies ==> t.dies[dieId] == s.dies[dieId])
  {
    if os != [] {
      LastRowDecidesDie(s, Front(os), dieId);
    }
  }

  /** No size row waits under a key that has not been drawn yet. */
  lemma NoSizesAhead(s: Store, k: nat)
    requires Inv(s) && s.nextPk <= k
    ensures k !in s.rounds && k !in s.flats
  {
  }

  lemma UpsertSetsOwnSizes(s: Store, p: Plan, kind: DieType)
    requires Inv(s)
    ensures SizesOfDie(Upsert(s, p), p.dieId, kind)
         == if KindOf(p.sizes) == kind then Some(p.sizes) else SizesOfDie(s, p.dieId, kind)
  {
    NoSizesAhead(s, s.nextPk);
    assert Upsert(s, p).dies[p.dieId].pk == PkFor(s, p.dieId);
  }

  lemma UpsertKeepsOtherSizes(s: Store, p: Plan, dieId: string, kind: DieType)
    requires Inv(s) && dieId != p.dieId
    ensures SizesOfDie(Upsert(s, p), dieId, kind) == SizesOfDie(s, dieId, kind)
  {
    if dieId in s.dies {
      assert s.dies[dieId].pk != PkFor(s, p.dieId);
    }
  }

  lemma AfterDecidesSizes(s: Store, o: Outcome, dieId: string, kind: DieType)
    requires Inv(s)
    ensures SizesOfDie(After(s, o), dieId, kind)
         == if AcceptedFor(o, dieId) && KindOf(o.plan.sizes) == kind then Some(o.plan.sizes)
             else SizesOfDie(s, dieId, kind)
  {
    if AcceptedFor(o, dieId) {
      UpsertSetsOwnSizes(s, o.plan, kind);
    } else if o.Accepted? {
      UpsertKeepsOtherSizes(s, o.plan, dieId, kind);
    }
  }

  lemma {:induction false} LastRowDecidesSizes(s: Store, os: seq<Outcome>, dieId: string, kind: DieType)
    requires Inv(s)
    ensures SizesOfDie(Imported(s, os), dieId, kind)
         == OrElse(LastSizes(os, dieId, kind), SizesOfDie(s, dieId, kind))
  {
    if os != [] {
      LastRowDecidesSizes(s, Front(os), dieId, kind);
      ImportKeepsInv(s, Front(os));
      AfterDecidesSizes(Imported(s, Front(os)), Last(os), dieId, kind);
    }
  }

  // ---------------------------------------------------------------- importing twice is importing once

  lemma {:induction false} AcceptedRowsStay(s: Store, os: seq<Outcome>, i: nat)
    requires i < |os| && os[i].Accepted?
    ensures os[i].plan.dieId in Imported(s, os).dies
  {
    if i < |os| - 1 {
      AcceptedRowsStay(s, Front(os), i);
    }
  }

  /** Every accepted row's die is already there. */
  ghost predicate AllKnown(s: Store, os: seq<Outcome>) {
    forall i :: 0 <= i < |os| && os[i].Accepted? ==> os[i].plan.dieId in s.dies
  }

  lemma {:induction false} NothingNewNothingCreated(s: Store, os: seq<Outcome>)
    requires AllKnown(s, os)
    ensures Created(s, os) == 0
  {
    if os != [] {
      assert forall i :: 0 <= i < |os| - 1 ==> Front(os)[i] == os[i];
      NothingNewNothingCreated(s, Front(os));
      var o := Last(os);
      if o.Accepted? {
        DiesNeverLeave(s, Front(os), o.plan.dieId);
      }
    }
  }

  lemma SameSizesSameTables(s: Store, t: Store)
    requires Inv(s) && Inv(t) && s.dies == t.dies
    requires forall d, kind :: SizesOfDie(s, d, kind) == SizesOfDie(t, d, kind)
    ensures s.rounds == t.rounds && s.flats == t.flats
  {
    forall k: nat ensures SizesOf(s, k, ROUND) == SizesOf(t, k, ROUND) && SizesOf(s, k, FLAT) == SizesOf(t, k, FLAT) {
      if d :| d in s.dies && s.dies[d].pk == k {
        assert SizesOfDie(s, d, ROUND) == SizesOfDie(t, d, ROUND);
        assert SizesOfDie(s, d, FLAT) == SizesOfDie(t, d, FLAT);
      }
    }
    TablesFromSizes(s, t);
  }

  lemma TablesFromSizes(s: Store, t: Store)
    requires forall k: nat :: SizesOf(s, k, ROUND) == SizesOf(t, k, ROUND) && SizesOf(s, k, FLAT) == SizesOf(t, k, FLAT)
    ensures s.rounds == t.rounds && s.flats == t.flats
  {
    assert forall k: nat :: k in s.rounds ==> SizesOf(s, k, ROUND) == SizesOf(t, k, ROUND);
    assert forall k: nat :: k in t.rounds ==> SizesOf(s, k, ROUND) == SizesOf(t, k, ROUND);
    assert forall k: nat :: k in s.flats ==> SizesOf(s, k, FLAT) == SizesOf(t, k, FLAT);
    assert forall k: nat :: k in t.flats ==> SizesOf(s, k, FLAT) == SizesOf(t, k, FLAT);
  }

  /** The second import creates nothing and leaves every table as the first left it. */
  lemma ImportIsIdempotent(s: Store, os: seq<Outcome>)
    requires Inv(s)
    ensures var once := Imported(s, os);
            var twice := Imported(once, os);
            && twice.dies == once.dies && twice.rounds == once.rounds && twice.flats == once.flats
            && Created(once, os) == 0
  {
    var once := Imported(s, os);
    var twice := Imported(once, os);
    ImportKeepsInv(s, os);
    ImportKeepsInv(once, os);
    forall d ensures (d in once.dies <==> d in twice.dies) && (d in once.dies ==> once.dies[d] == twice.dies[d]) {
      LastRowDecidesDie(s, os, d);
      LastRowDecidesDie(once, os, d);
      if d in once.dies {
        DiesNeverLeave(once, os, d);
      }
    }
    assert once.dies == twice.dies;
    forall d, kind ensures SizesOfDie(once, d, kind) == SizesOfDie(twice, d, kind) {
      LastRowDecidesSizes(s, os, d, kind);
      LastRowDecidesSizes(once, os, d, kind);
    }
    SameSizesSameTables(once, twice);
    forall i | 0 <= i < |os| && os[i].Accepted? ensures os[i].plan.dieId in once.dies {
      AcceptedRowsStay(s, os, i);
    }
    NothingNewNothingCreated(once, os);
  }

  // ---------------------------------------------------------------- the counts

  lemma {:induction false} CreatedCountsNewDies(s: Store, os: seq<Outcome>)
    ensures |Imported(s, os).dies| == |s.dies| + Created(s, os)
    ensures Created(s, os) <= AcceptedCount(os) <= |os|
  {
    if os != [] {
      CreatedCountsNewDies(s, Front(os));
      var mid, o := Imported(s, Front(os)), Last(os);
      if o.Accepted? {
        var more := Upsert(mid, o.plan).dies;
        assert more.Keys == mid.dies.Keys + {o.plan.dieId};
        assert |more| == |more.Keys| && |mid.dies| == |mid.dies.Keys|;
      }
    }
  }

  // ---------------------------------------------------------------- a dry run predicts the real run

  /** Row `j` is for a die that was not there at first and that an earlier row created. */
  ghost predicate RepeatsNewDie(s: Store, os: seq<Outcome>, j: int) {
    && 0 <= j < |os|
    && os[j].Accepted?
    && os[j].plan.dieId !in s.dies
    && LastPlan(os[..j], os[j].plan.dieId).Some?
  }

  ghost predicate RepeatsSomeNewDie(s: Store, os: seq<Outcome>) {
    exists j :: RepeatsNewDie(s, os, j)
  }

  lemma RepeatsInFrontOrAtEnd(s: Store, os: seq<Outcome>)
    requires os != []
    ensures RepeatsSomeNewDie(s, os)
       <==> RepeatsSomeNewDie(s, Front(os)) || RepeatsNewDie(s, os, |os| - 1)
  {
    forall j | 0 <= j < |os| - 1
      ensures RepeatsNewDie(s, Front(os), j) == RepeatsNewDie(s, os, j)
    {
      assert Front(os)[..j] == os[..j];
    }
    if j :| RepeatsNewDie(s, os, j) && j < |os| - 1 {
      assert RepeatsNewDie(s, Front(os), j);
    }
    if j :| RepeatsNewDie(s, Front(os), j) {
      assert RepeatsNewDie(s, os, j);
    }
  }

  /**
   A dry run never counts fewer dies as created, and it counts exactly as many just when
   no accepted row is for a new die that an earlier one created. (The other columns of its
   report do not look at the tables at all.)
   */
  lemma {:induction false} DryRunPredicts(s: Store, os: seq<Outcome>)
    ensures Created(s, os) <= DryCreated(s, os) <= AcceptedCount(os)
    ensures Created(s, os) == DryCreated(s, os) <==> !RepeatsSomeNewDie(s, os)
  {
    if os != [] {
      DryRunPredicts(s, Front(os));
      RepeatsInFrontOrAtEnd(s, os);
      var o := Last(os);
      if o.Accepted? {
        LastRowDecidesDie(s, Front(os), o.plan.dieId);
      }
    }
  }

  // ---------------------------------------------------------------- what the index is told

  /** Every die an import creates or changes is among the keys handed to the search index. */
  lemma {:induction false} ChangedDiesAreSynced(s: Store, os: seq<Outcome>, dieId: string)
    requires LastPlan(os, dieId).Some?
    ensures dieId in Imported(s, os).dies
    ensures Imported(s, os).dies[dieId].pk in SyncedKeys(s, os)
  {
    if !AcceptedFor(Last(os), dieId) {
      ChangedDiesAreSynced(s, Front(os), dieId);
      DiesNeverLeave(Imported(s, Front(os)), [Last(os)], dieId);
    }
  }

  lemma {:induction false} SyncedDiesExist(s: Store, os: seq<Outcome>, k: nat)
    requires k in SyncedKeys(s, os)
    ensures exists d :: d in Imported(s, os).dies && Imported(s, os).dies[d].pk == k
  {
    var mid, o := Imported(s, Front(os)), Last(os);
    var t := Imported(s, os);
    if o.Accepted? && k == PkFor(mid, o.plan.dieId) {
      assert t.dies[o.plan.dieId].pk == k;
    } else {
      SyncedDiesExist(s, Front(os), k);
      OwnerSurvives(mid, t, k);
    }
  }

  // ---------------------------------------------------------------- resolving a set by name

  predicate Matches(x: Set, name: string) {
    Lower(x.name) == name
  }

  predicate MatchesUnder(x: Set, name: string, machine: string) {
    Lower(x.name) == name && Lower(x.machine) == machine
  }

  lemma {:induction false} NamedAreTheMatches(sets: seq<Set>, name: string)
    ensures forall x :: x in Named(sets, name) <==> x in sets && Matches(x, name)
  {
    if sets != [] {
      NamedAreTheMatches(sets[..|sets| - 1], name);
      assert sets == sets[..|sets| - 1] + [sets[|sets| - 1]];
    }
  }

  lemma {:induction false} UnderMachineAreTheMatches(sets: seq<Set>, machine: string)
    ensures forall x :: x in UnderMachine(sets, machine) <==> x in sets && Lower(x.machine) == machine
  {
    if sets != [] {
      UnderMachineAreTheMatches(sets[..|sets| - 1], machine);
      assert sets == sets[..|sets| - 1] + [sets[|sets| - 1]];
    }
  }

  /** A name alone resolves just when exactly one set bears it. */
  ghost predicate OnlyMatch(sets: seq<Set>, x: Set, name: string) {
    x in sets && Matches(x, name) && forall y :: y in sets && Matches(y, name) ==> y == x
  }

  ghost predicate OnlyMatchUnder(sets: seq<Set>, x: Set, name: string, machine: string) {
    x in sets && MatchesUnder(x, name, machine) && forall y :: y in sets && MatchesUnder(y, name, machine) ==> y == x
  }

  ghost predicate Distinct(sets: seq<Set>) {
    forall i, j :: 0 <= i < j < |sets| ==> sets[i].id != sets[j].id
  }

  lemma {:induction false} NamedIsDistinct(sets: seq<Set>, name: string)
    requires Distinct(sets)
    ensures Distinct(Named(sets, name))
  {
    if sets != [] {
      var front := sets[..|sets| - 1];
      NamedIsDistinct(front, name);
      NamedAreTheMatches(front, name);
      assert forall x :: x in front ==> x.id != sets[|sets| - 1].id;
    }
  }

  lemma {:induction false} UnderMachineIsDistinct(sets: seq<Set>, machine: string)
    requires Distinct(sets)
    ensures Distinct(UnderMachine(sets, machine))
  {
    if sets != [] {
      var front := sets[..|sets| - 1];
      UnderMachineIsDistinct(front, machine);
      UnderMachineAreTheMatches(front, machine);
      assert forall x :: x in front ==> x.id != sets[|sets| - 1].id;
    }
  }

  /** `found` holds just one set, with this id. */
  ghost predicate Only(found: seq<Set>, id: nat) {
    |found| == 1 && found[0].id == id
  }

  lemma OnlyMatchIsOnly(sets: seq<Set>, name: string, id: nat)
    requires Distinct(sets)
    ensures Only(Named(sets, name), id) <==> exists x :: OnlyMatch(sets, x, name) && x.id == id
  {
    var found := Named(sets, name);
    NamedAreTheMatches(sets, name);
    NamedIsDistinct(sets, name);
    if Only(found, id) {
      assert OnlyMatch(sets, found[0], name);
    }
    if x :| OnlyMatch(sets, x, name) && x.id == id {
      OnlyElement(found, x);
    }
  }

  lemma OnlyMatchUnderIsOnly(sets: seq<Set>, name: string, machine: string, id: nat)
    requires Distinct(sets)
    ensures Only(UnderMachine(Named(sets, name), machine), id)
       <==> exists x :: OnlyMatchUnder(sets, x, name, machine) && x.id == id
  {
    var found := UnderMachine(Named(sets, name), machine);
    NamedAreTheMatches(sets, name);
    NamedIsDistinct(sets, name);
    UnderMachineAreTheMatches(Named(sets, name), machine);
    UnderMachineIsDistinct(Named(sets, name), machine);
    if Only(found, id) {
      assert OnlyMatchUnder(sets, found[0], name, machine);
    }
    if x :| OnlyMatchUnder(sets, x, name, machine) && x.id == id {
      OnlyElement(found, x);
    }
  }

  lemma OnlyElement(found: seq<Set>, x: Set)
    requires Distinct(found) && x in found && forall y :: y in found ==> y == x
    ensures |found| == 1 && found[0] == x
  {
    if |found| > 1 {
      TwoDiffer(found);
    }
  }

  lemma TwoDiffer(found: seq<Set>)
    requires Distinct(found) && |found| > 1
    ensures found[0] in found && found[1] in found && found[0] != found[1]
  {
    assert found[0].id != found[1].id;
  }

  lemma UnderMachineOfOne(found: seq<Set>, machine: string, id: nat)
    requires |found| == 1 && Only(UnderMachine(found, machine), id)
    ensures found[0].id == id
  {
    UnderMachineAreTheMatches(found, machine);
    assert UnderMachine(found, machine)[0] in found;
  }

  /**
   A set is found by name just when it is the only one of that name, or, a machine being
   given, the only one of that name under that machine.
   */
  lemma NameResolvesToOnlyMatch(sets: seq<Set>, name: string, machine: Option<string>, id: nat)
    requires Distinct(sets)
    ensures SetByName(sets, name, machine) == Ok(Some(id)) <==>
      || (exists x :: OnlyMatch(sets, x, Lower(Strip(name))) && x.id == id)
      || (Truthy(machine)
          && exists x :: OnlyMatchUnder(sets, x, Lower(Strip(name)), Lower(Strip(machine.value))) && x.id == id)
  {
    var key := Lower(Strip(name));
    OnlyMatchIsOnly(sets, key, id);
    if Truthy(machine) {
      var under := Lower(Strip(machine.value));
      OnlyMatchUnderIsOnly(sets, key, under, id);
      if |Named(sets, key)| == 1 && Only(UnderMachine(Named(sets, key), under), id) {
        UnderMachineOfOne(Named(sets, key), under, id);
      }
    }
  }
}
