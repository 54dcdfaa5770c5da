/** The import itself: tables updated row by row, each row in a transaction of its own. */
module ImportService {
  import opened Options
  import opened ImportModel
  import P = ImportProperties

  datatype Failed = Failed(line: nat, dieId: string, error: RowError)
  datatype Report = Report(created: nat, updated: nat, skipped: nat, errors: seq<Failed>, dryRun: bool)

  type Line = (nat, Row)

  function Rows(lines: seq<Line>): (rows: seq<Row>)
    ensures |rows| == |lines| && forall i :: 0 <= i < |lines| ==> rows[i] == lines[i].1
  {
    seq(|lines|, i requires 0 <= i < |lines| => lines[i].1)
  }

  /** What the lines of a file come to, one by one, whatever the tables hold. */
  function OutcomesOf(book: Book, lines: seq<Line>): (os: seq<Outcome>)
    ensures |os| == |lines|
  {
    Outcomes(book, Rows(lines))
  }

  lemma OutcomeOfLine(book: Book, lines: seq<Line>, i: nat)
    requires i < |lines|
    ensures OutcomesOf(book, lines)[i] == Check(book, lines[i].1)
  {
    OutcomeAt(book, Rows(lines), i);
  }

  function DieIdOrNone(row: Row): string {
    if Truthy(Cell(row, "die_id")) then row["die_id"] else "N/A"
  }

  function FailedOf(line: Line, o: Outcome): seq<Failed> {
    if o.Accepted? then [] else [Failed(line.0, DieIdOrNone(line.1), Failure(o))]
  }

  /** The lines that are not accepted, in order, each with its reason. */
  function Failures(lines: seq<Line>, os: seq<Outcome>): seq<Failed>
    requires |lines| == |os|
  {
    if lines == [] then []
    else Failures(lines[..|lines| - 1], os[..|os| - 1]) + FailedOf(lines[|lines| - 1], os[|os| - 1])
  }

  lemma {:induction false} FailuresAndAcceptedAreAll(lines: seq<Line>, os: seq<Outcome>)
    requires |lines| == |os|
    ensures |Failures(lines, os)| + AcceptedCount(os) == |lines|
  {
    if lines != [] {
      FailuresAndAcceptedAreAll(lines[..|lines| - 1], os[..|os| - 1]);
    }
  }

  /** Where an import stands between two lines. */
  datatype Progress = Progress(tables: Store, created: nat, updated: nat, errors: seq<Failed>, synced: seq<nat>)

  /** The tables a row leaves: those before it, in a dry run, but for the sequence. */
  function Kept(s: Store, o: Outcome, dryRun: bool): Store {
    if dryRun then s.(nextPk := After(s, o).nextPk) else After(s, o)
  }

  function Advance(p: Progress, line: Line, o: Outcome, dryRun: bool): Progress {
    Progress(Kept(p.tables, o, dryRun),
             p.created + Creates(p.tables, o),
             if o.Accepted? then p.updated + 1 - Creates(p.tables, o) else p.updated,
             p.errors + FailedOf(line, o),
             if o.Accepted? && !dryRun then p.synced + [PkFor(p.tables, o.plan.dieId)] else p.synced)
  }

  function Advanced(s: Store, lines: seq<Line>, os: seq<Outcome>, dryRun: bool): Progress
    requires |lines| == |os|
  {
    if lines == [] then Progress(s, 0, 0, [], [])
    else Advance(Advanced(s, lines[..|lines| - 1], os[..|os| - 1], dryRun), lines[|lines| - 1], os[|os| - 1], dryRun)
  }

  lemma {:induction false} AdvancedFailures(s: Store, lines: seq<Line>, os: seq<Outcome>, dryRun: bool)
    requires |lines| == |os|
    ensures var p := Advanced(s, lines, os, dryRun);
            p.errors == Failures(lines, os) && p.created + p.updated + |p.errors| == |lines|
  {
    if lines != [] {
      AdvancedFailures(s, lines[..|lines| - 1], os[..|os| - 1], dryRun);
    }
  }

  lemma {:induction false} AdvancedDry(s: Store, lines: seq<Line>, os: seq<Outcome>)
    requires |lines| == |os|
    ensures var p := Advanced(s, lines, os, true);
            p.tables.(nextPk := s.nextPk) == s && p.synced == [] && p.created == DryCreated(s, os)
  {
    if lines != [] {
      AdvancedDry(s, lines[..|lines| - 1], os[..|os| - 1]);
    }
  }

  lemma {:induction false} AdvancedReal(s: Store, lines: seq<Line>, os: seq<Outcome>)
    requires |lines| == |os|
    ensures var p := Advanced(s, lines, os, false);
            p.tables == Imported(s, os) && p.created == Created(s, os) && p.synced == SyncedKeys(s, os)
  {
    if lines != [] {
      AdvancedReal(s, lines[..|lines| - 1], os[..|os| - 1]);
    }
  }

  lemma OneMoreLine(s: Store, lines: seq<Line>, os: seq<Outcome>, dryRun: bool, n: nat)
    requires n < |lines| == |os|
    ensures Advanced(s, lines[..n + 1], os[..n + 1], dryRun)
         == Advance(Advanced(s, lines[..n], os[..n], dryRun), lines[n], os[n], dryRun)
  {
    assert lines[..n + 1][..n] == lines[..n] && os[..n + 1][..n] == os[..n];
  }

  class Importer {
    const book: Book
    var dies: map<string, Die>
    var rounds: map<nat, RoundSizes>
    var flats: map<nat, FlatSizes>
    var nextPk: nat

    constructor (book: Book)
      ensures this.book == book && Tables() == Store(map[], map[], map[], 0) && Inv(Tables())
    {
      this.book, dies, rounds, flats, nextPk := book, map[], map[], map[], 0;
    }

    function Tables(): Store
      reads this
    {
      Store(dies, rounds, flats, nextPk)
    }

    /** `update_or_create` of the die row. */
    method UpdateOrCreate(dieId: string, info: Info) returns (pk: nat, created: bool)
      modifies `dies, `nextPk
      ensures pk == PkFor(old(Tables()), dieId) && created == (dieId !in old(dies))
      ensures dies == old(dies)[dieId := Die(pk, info)] && nextPk == SequenceAfter(old(Tables()), dieId)
    {
      created := dieId !in dies;
      if created {
        pk := nextPk;
        nextPk := nextPk + 1;
      } else {
        pk := dies[dieId].pk;
      }
      dies := dies[dieId := Die(pk, info)];
    }

    /**
     One row. The die row is written before its sizes are looked at, so a bad size is
     found with the die already written, and the transaction takes that back.
     */
    method ProcessRow(row: Row) returns (result: Result<(nat, bool)>)
      modifies this
      ensures var o := Check(book, row);
              && Tables() == After(old(Tables()), o)
              && result == (if o.Accepted?
                            then Ok((PkFor(old(Tables()), o.plan.dieId), o.plan.dieId !in old(dies)))
                            else Err(Failure(o)))
    {
      var read := ReadDie(book, row);
      if read.Err? {
        return Err(read.error);
      }
      var (dieId, info) := read.value;
      if !Fits(dieId, info) {
        return Err(DoesNotFit);
      }
      var savepoint := dies;
      var pk, created := UpdateOrCreate(dieId, info);
      var sizes := ReadSizes(book, row, info.dieType);
      if sizes.Err? {
        dies := savepoint;
        return Err(sizes.error);
      }
      if !SizesFit(sizes.value) {
        dies := savepoint;
        return Err(DoesNotFit);
      }
      match sizes.value {
        case OfRound(z) => rounds := rounds[pk := z];
        case OfFlat(z) => flats := flats[pk := z];
      }
      result := Ok((pk, created));
    }

    /** The tables but not the sequence. */
    predicate SameTables(s: Store)
      reads this
    {
      dies == s.dies && rounds == s.rounds && flats == s.flats
    }

    /** One row in a transaction of its own, undone at once in a dry run. */
    method ImportRow(row: Row, dryRun: bool) returns (result: Result<(nat, bool)>)
      modifies this
      ensures var o := Check(book, row);
              && Tables() == Kept(old(Tables()), o, dryRun)
              && result == (if o.Accepted?
                            then Ok((PkFor(old(Tables()), o.plan.dieId), o.plan.dieId !in old(dies)))
                            else Err(Failure(o)))
    {
      var savedDies, savedRounds, savedFlats := dies, rounds, flats;
      result := ProcessRow(row);
      if dryRun {
        dies, rounds, flats := savedDies, savedRounds, savedFlats;
      }
    }

    /** One pass of the loop: the row, the counters and the lists. */
    method ImportLine(line: Line, dryRun: bool, ghost before: Progress, ghost o: Outcome,
                      created0: nat, updated0: nat, errors0: seq<Failed>, synced0: seq<nat>)
      returns (created: nat, updated: nat, errors: seq<Failed>, synced: seq<nat>)
      requires o == Check(book, line.1) && before == Progress(Tables(), created0, updated0, errors0, synced0)
      modifies this
      ensures Progress(Tables(), created, updated, errors, synced) == Advance(before, line, o, dryRun)
    {
      created, updated, errors, synced := created0, updated0, errors0, synced0;
      var result := ImportRow(line.1, dryRun);
      match result {
        case Ok((pk, isCreated)) =>
          if isCreated {
            created := created + 1;
          } else {
            updated := updated + 1;
          }
          if !dryRun {
            synced := synced + [pk];
          }
        case Err(e) =>
          errors := errors + [Failed(line.0, DieIdOrNone(line.1), e)];
      }
    }

    /** The loop over the lines. */
    method ImportLines(lines: seq<Line>, dryRun: bool, ghost os: seq<Outcome>)
      returns (created: nat, updated: nat, errors: seq<Failed>, synced: seq<nat>)
      requires os == OutcomesOf(book, lines)
      modifies this
      ensures Progress(Tables(), created, updated, errors, synced) == Advanced(old(Tables()), lines, os, dryRun)
    {
      ghost var start := Tables();
      created, updated, errors, synced := 0, 0, [], [];
      for i := 0 to |lines|
        invariant Progress(Tables(), created, updated, errors, synced) == Advanced(start, lines[..i], os[..i], dryRun)
      {
        OutcomeOfLine(book, lines, i);
        OneMoreLine(start, lines, os, dryRun, i);
        ghost var before := Advanced(start, lines[..i], os[..i], dryRun);
        created, updated, errors, synced :=
          ImportLine(lines[i], dryRun, before, os[i], created, updated, errors, synced);
      }
      assert lines[..|lines|] == lines && os[..|os|] == os;
    }

    /**
     The import. A dry run undoes each row as soon as it is counted, so it leaves the
     tables alone and reports the failures of the real run; only how the accepted rows
     split into created and updated can differ.
     */
    method ImportDies(lines: seq<Line>, dryRun: bool) returns (report: Report, synced: seq<nat>)
      modifies this
      ensures report.dryRun == dryRun
      ensures report.errors == Failures(lines, OutcomesOf(book, lines)) && report.skipped == |report.errors|
      ensures report.created + report.updated + report.skipped == |lines|
      ensures dryRun ==> SameTables(old(Tables())) && synced == []
      ensures dryRun ==> report.created == DryCreated(old(Tables()), OutcomesOf(book, lines))
      ensures !dryRun ==> Tables() == Imported(old(Tables()), OutcomesOf(book, lines))
      ensures !dryRun ==> report.created == Created(old(Tables()), OutcomesOf(book, lines))
      ensures !dryRun ==> synced == SyncedKeys(old(Tables()), OutcomesOf(book, lines))
    {
      ghost var start, os := Tables(), OutcomesOf(book, lines);
      var created, updated, errors;
      created, updated, errors, synced := ImportLines(lines, dryRun, os);
      AdvancedFailures(start, lines, os, dryRun);
      AdvancedDry(start, lines, os);
      AdvancedReal(start, lines, os);
      report := Report(created, updated, |errors|, errors, dryRun);
    }
  }

  /**
   What a dry run tells about the real run that follows it: the same failures, the same
   number of accepted rows, and the same split of them just when no accepted row is for a
   new die that an earlier one created.
   */
  method DryRunThenImport(importer: Importer, lines: seq<Line>) returns (dry: Report, actual: Report)
    modifies importer
    ensures dry.errors == actual.errors && dry.skipped == actual.skipped
    ensures dry.created + dry.updated == actual.created + actual.updated
    ensures actual.created <= dry.created
    ensures dry.created == actual.created && dry.updated == actual.updated
       <==> !P.RepeatsSomeNewDie(old(importer.Tables()), OutcomesOf(importer.book, lines))
  {
    ghost var before, os := importer.Tables(), OutcomesOf(importer.book, lines);
    var synced;
    dry, synced := importer.ImportDies(lines, true);
    ghost var between := importer.Tables();
    actual, synced := importer.ImportDies(lines, false);
    P.DryRunPredicts(between, os);
    SequenceDoesNotCount(before, between, os);
  }

  lemma {:induction false} SequenceDoesNotCount(s: Store, t: Store, os: seq<Outcome>)
    requires s.dies == t.dies
    ensures DryCreated(s, os) == DryCreated(t, os)
    ensures P.RepeatsSomeNewDie(s, os) == P.RepeatsSomeNewDie(t, os)
  {
    if os != [] {
      SequenceDoesNotCount(s, t, os[..|os| - 1]);
    }
    forall j ensures P.RepeatsNewDie(s, os, j) == P.RepeatsNewDie(t, os, j) {
    }
  }

  /** Importing a file a second time fails the same lines, creates nothing and changes no table. */
  method ImportTwice(importer: Importer, lines: seq<Line>) returns (first: Report, second: Report)
    requires Inv(importer.Tables())
    modifies importer
    ensures var once := Imported(old(importer.Tables()), OutcomesOf(importer.book, lines));
            importer.dies == once.dies && importer.rounds == once.rounds && importer.flats == once.flats
    ensures second.errors == first.errors && second.created == 0 && second.updated == first.created + first.updated
  {
    P.ImportIsIdempotent(importer.Tables(), OutcomesOf(importer.book, lines));
    var synced;
    first, synced := importer.ImportDies(lines, false);
    second, synced := importer.ImportDies(lines, false);
  }
}
