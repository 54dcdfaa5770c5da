/**
 The history table of dies: every record, of a watched field or of a size, is chained to
 the die's latest one; what the head of a chain pins down about its records.
 */
module AuditLog {
  import opened Options
  import opened Texts
  import opened Decimals
  import opened HashChain
  import opened FieldLog

  datatype HistoryRow = HistoryRow(
    die: nat, user: Option<nat>, field: string, was: string, now: string, prev: string, hash: string)

  function BodyOf(r: HistoryRow): string {
    DieBody(r.die, r.user, r.field, r.was, r.now)
  }

  function LinkOf(r: HistoryRow): Link {
    Link(BodyOf(r), r.prev, r.hash)
  }

  /** The records of one die, oldest first. */
  function RowsOf(history: seq<HistoryRow>, die: nat): seq<HistoryRow> {
    if history == [] then []
    else
      var rest, last := RowsOf(history[..|history| - 1], die), history[|history| - 1];
      if last.die == die then rest + [last] else rest
  }

  function ChainOf(rows: seq<HistoryRow>): (chain: seq<Link>)
    ensures |chain| == |rows| && forall i :: 0 <= i < |rows| ==> chain[i] == LinkOf(rows[i])
  {
    seq(|rows|, i requires 0 <= i < |rows| => LinkOf(rows[i]))
  }

  function ChangeOf(r: HistoryRow): Change {
    Change(r.field, r.was, r.now, r.user)
  }

  function ChangesOf(rows: seq<HistoryRow>): (log: seq<Change>)
    ensures |log| == |rows| && forall i :: 0 <= i < |rows| ==> log[i] == ChangeOf(rows[i])
  {
    seq(|rows|, i requires 0 <= i < |rows| => ChangeOf(rows[i]))
  }

  /** What `save` stores: a record without a hash is linked to the die's latest one. */
  function Stamped(H: Hash, history: seq<HistoryRow>, r: HistoryRow): HistoryRow {
    if r.hash != "" then r
    else
      var prev := LastHash(ChainOf(RowsOf(history, r.die)));
      r.(prev := prev, hash := H(prev + ":" + BodyOf(r)))
  }

  ghost predicate Chained(H: Hash, history: seq<HistoryRow>) {
    forall die :: Valid(H, ChainOf(RowsOf(history, die)))
  }

  lemma RowsOfAppend(history: seq<HistoryRow>, s: HistoryRow, die: nat)
    ensures RowsOf(history + [s], die) == if die == s.die then RowsOf(history, die) + [s] else RowsOf(history, die)
  {
    assert (history + [s])[..|history|] == history;
  }

  lemma ChainAppend(rows: seq<HistoryRow>, s: HistoryRow)
    ensures ChainOf(rows + [s]) == ChainOf(rows) + [LinkOf(s)]
  {
  }

  lemma StampedKeepsChain(H: Hash, history: seq<HistoryRow>, r: HistoryRow, die: nat)
    requires IsDigest(H) && Valid(H, ChainOf(RowsOf(history, die))) && r.hash == ""
    ensures Valid(H, ChainOf(RowsOf(history + [Stamped(H, history, r)], die)))
  {
    var s := Stamped(H, history, r);
    RowsOfAppend(history, s, die);
    if die == r.die {
      StampContinues(H, ChainOf(RowsOf(history, die)), LinkOf(s));
      ChainAppend(RowsOf(history, die), s);
    }
  }

  /** A saved record, whatever its field, continues its die's chain and no other. */
  lemma StampedExtendsChain(H: Hash, history: seq<HistoryRow>, r: HistoryRow)
    requires IsDigest(H) && Chained(H, history) && r.hash == ""
    ensures Chained(H, history + [Stamped(H, history, r)])
  {
    forall die ensures Valid(H, ChainOf(RowsOf(history + [Stamped(H, history, r)], die))) {
      assert Valid(H, ChainOf(RowsOf(history, die)));
      StampedKeepsChain(H, history, r, die);
    }
  }

  /** `j` is the place of the latest record of a die. */
  ghost predicate LatestAt(history: seq<HistoryRow>, die: nat, j: nat) {
    j < |history| && history[j].die == die && forall i :: j < i < |history| ==> history[i].die != die
  }

  lemma {:induction false} LatestEndsChain(history: seq<HistoryRow>, die: nat, j: nat)
    requires LatestAt(history, die, j)
    ensures var rows := RowsOf(history, die); rows != [] && rows[|rows| - 1] == history[j]
  {
    if j < |history| - 1 {
      LatestEndsChain(history[..|history| - 1], die, j);
    }
  }

  lemma {:induction false} NoneNoChain(history: seq<HistoryRow>, die: nat)
    requires forall i :: 0 <= i < |history| ==> history[i].die != die
    ensures RowsOf(history, die) == []
  {
    if history != [] {
      NoneNoChain(history[..|history| - 1], die);
    }
  }

  /** A record is linked to its chain's latest record, or to the start. */
  lemma StampFollowsLatest(H: Hash, history: seq<HistoryRow>, r: HistoryRow, j: nat)
    requires r.hash == ""
    requires LatestAt(history, r.die, j) || forall i :: 0 <= i < |history| ==> history[i].die != r.die
    ensures var s := Stamped(H, history, r);
            && s == r.(prev := s.prev, hash := s.hash) && s.hash == H(s.prev + ":" + BodyOf(r))
            && (if LatestAt(history, r.die, j) && history[j].hash != "" then s.prev == history[j].hash
                else IsStart(s.prev))
  {
    if LatestAt(history, r.die, j) {
      LatestEndsChain(history, r.die, j);
    } else {
      NoneNoChain(history, r.die);
    }
  }

  /**
   The hash a record is stored with covers, joined by colons, the hash of its die's latest
   record - or 64 zeros, if it has none - and its die, user, field and values.
   */
  lemma StampCoversRecord(H: Hash, history: seq<HistoryRow>, r: HistoryRow, j: nat)
    requires r.hash == ""
    requires LatestAt(history, r.die, j) || forall i :: 0 <= i < |history| ==> history[i].die != r.die
    ensures var s := Stamped(H, history, r);
            && s == r.(prev := s.prev, hash := s.hash)
            && (if LatestAt(history, r.die, j) && history[j].hash != "" then s.prev == history[j].hash
                else IsStart(s.prev))
            && s.hash == H(Colons([s.prev, Print(r.die), if r.user.Some? then Print(r.user.value) else "",
                                   r.field, r.was, r.now]))
  {
    DiePayload(Stamped(H, history, r).prev, r.die, r.user, r.field, r.was, r.now);
    StampFollowsLatest(H, history, r, j);
  }

  // ---------------------------------------------------------------- what the head hash binds

  /** Field names are identifiers, of a watched field or of a size column: none has a colon. */
  ghost predicate PlainNames(rows: seq<HistoryRow>) {
    forall i :: 0 <= i < |rows| ==> NoColon(rows[i].field)
  }

  predicate SameJoined(a: HistoryRow, b: HistoryRow) {
    a.die == b.die && a.user == b.user && a.field == b.field && Joined(a.was, a.now) == Joined(b.was, b.now)
  }

  ghost predicate SameRecords(a: seq<HistoryRow>, b: seq<HistoryRow>) {
    |a| == |b| && forall i :: 0 <= i < |a| ==> SameJoined(a[i], b[i])
  }

  /**
   Two valid chains with equal head hash agree, record by record, on die, user, field and
   the joined text of the two values - or the hash is broken on them.
   */
  lemma HeadBindsRecords(H: Hash, a: seq<HistoryRow>, b: seq<HistoryRow>)
    requires IsDigest(H) && Valid(H, ChainOf(a)) && Valid(H, ChainOf(b)) && Head(ChainOf(a)) == Head(ChainOf(b))
    requires PlainNames(a) && PlainNames(b)
    ensures SameRecords(a, b) || Broken(H, ChainOf(a), ChainOf(b))
  {
    HeadBindsBodies(H, ChainOf(a), ChainOf(b));
    if SameBodies(ChainOf(a), ChainOf(b)) {
      forall i | 0 <= i < |a| ensures SameJoined(a[i], b[i]) {
        assert ChainOf(a)[i].body == ChainOf(b)[i].body;
        DieBodyParses(a[i].die, a[i].user, a[i].field, a[i].was, a[i].now,
                      b[i].die, b[i].user, b[i].field, b[i].was, b[i].now);
      }
    }
  }

  /** Hence the values themselves, wherever the old ones contain no colon. */
  lemma HeadBindsColonFreeValues(H: Hash, a: seq<HistoryRow>, b: seq<HistoryRow>, i: nat)
    requires IsDigest(H) && Valid(H, ChainOf(a)) && Valid(H, ChainOf(b)) && Head(ChainOf(a)) == Head(ChainOf(b))
    requires PlainNames(a) && PlainNames(b)
    requires i < |a| && i < |b| && NoColon(a[i].was) && NoColon(b[i].was)
    ensures Broken(H, ChainOf(a), ChainOf(b)) || (a[i].was == b[i].was && a[i].now == b[i].now)
  {
    HeadBindsRecords(H, a, b);
    if SameRecords(a, b) {
      FirstColonSplits(a[i].was, a[i].now, b[i].was, b[i].now);
    }
  }

  predicate SameText(a: Change, b: Change) {
    a.user == b.user && a.field == b.field && Joined(a.was, a.now) == Joined(b.was, b.now)
  }

  lemma JoinedAndOldFixNew(a: Change, b: Change)
    requires SameText(a, b) && a.was == b.was
    ensures a == b
  {
    assert Joined(a.was, a.now)[|a.was| + 1..] == a.now;
    assert Joined(b.was, b.now)[|b.was| + 1..] == b.now;
  }

  /** The two logs have the same entries for one field. */
  ghost predicate SameEntries(a: seq<HistoryRow>, b: seq<HistoryRow>, name: string)
    requires |a| == |b|
  {
    forall i :: 0 <= i < |a| && a[i].field == name ==> ChangeOf(a[i]) == ChangeOf(b[i])
  }

  lemma ReplayStep(start: string, log: seq<Change>, name: string, n: nat)
    requires n < |log|
    ensures Replay(start, log[..n + 1], name) == if log[n].field == name then log[n].now
        else Replay(start, log[..n], name)
  {
    assert log[..n + 1][..n] == log[..n];
  }

  ghost predicate SameTexts(a: seq<Change>, b: seq<Change>) {
    |a| == |b| && forall i :: 0 <= i < |a| ==> SameText(a[i], b[i])
  }

  lemma LinkedEntryAgrees(start: string, a: seq<Change>, b: seq<Change>, name: string, n: nat)
    requires n < |a| == |b| && SameText(a[n], b[n]) && a[n].field == name
    requires LinkedAt(start, a, name, n) && LinkedAt(start, b, name, n)
    requires Replay(start, a[..n], name) == Replay(start, b[..n], name)
    ensures a[n] == b[n]
  {
    JoinedAndOldFixNew(a[n], b[n]);
  }

  /** Linked entries leave no room for a different split of the joined text. */
  lemma {:induction false} LinkedReplaysAgree(start: string, a: seq<Change>, b: seq<Change>, name: string, n: nat)
    requires n <= |a| && SameTexts(a, b) && LinkedIn(start, a, name) && LinkedIn(start, b, name)
    ensures Replay(start, a[..n], name) == Replay(start, b[..n], name)
  {
    if n > 0 {
      LinkedReplaysAgree(start, a, b, name, n - 1);
      ReplayStep(start, a, name, n - 1);
      ReplayStep(start, b, name, n - 1);
      assert SameText(a[n - 1], b[n - 1]);
      if a[n - 1].field == name {
        LinkedEntryAgrees(start, a, b, name, n - 1);
      }
    }
  }

  lemma LinkedEntriesAgree(start: string, a: seq<HistoryRow>, b: seq<HistoryRow>, name: string)
    requires SameRecords(a, b)
    requires LinkedIn(start, ChangesOf(a), name) && LinkedIn(start, ChangesOf(b), name)
    ensures SameEntries(a, b, name)
    ensures Replay(start, ChangesOf(a), name) == Replay(start, ChangesOf(b), name)
  {
    var logA, logB := ChangesOf(a), ChangesOf(b);
    forall i | 0 <= i < |logA| ensures SameText(logA[i], logB[i]) {
      assert SameJoined(a[i], b[i]);
    }
    forall i | 0 <= i < |a| && a[i].field == name ensures ChangeOf(a[i]) == ChangeOf(b[i]) {
      LinkedReplaysAgree(start, logA, logB, name, i);
      assert SameText(logA[i], logB[i]) && logA[i].field == name;
      LinkedEntryAgrees(start, logA, logB, name, i);
    }
    LinkedReplaysAgree(start, logA, logB, name, |logA|);
    assert logA[..|logA|] == logA && logB[..|logA|] == logB;
  }

  /** Records that the code wrote for a run of saves and imports. */
  ghost predicate Wrote(rows: seq<HistoryRow>, start: DieRow, events: seq<Event>) {
    ChangesOf(rows) == Log(start, events)
  }

  lemma WrittenNamesArePlain(rows: seq<HistoryRow>, start: DieRow, events: seq<Event>)
    requires Wrote(rows, start, events)
    ensures PlainNames(rows)
  {
    LogNamesArePlain(start, events);
    forall i | 0 <= i < |rows| ensures NoColon(rows[i].field) {
      assert ChangesOf(rows)[i] in Log(start, events);
    }
  }

  /**
   For logs the code itself wrote, colons do no harm: with the initial row, one head hash
   determines every entry of a watched field but the set, and its current value, as long as
   no import changed it - whatever becomes of the sets and with size records in between.
   */
  lemma HeadAndStartDetermineLog(H: Hash, start: DieRow, f: Field,
                                 a: seq<HistoryRow>, eventsA: seq<Event>, b: seq<HistoryRow>, eventsB: seq<Event>)
    requires IsDigest(H) && Valid(H, ChainOf(a)) && Valid(H, ChainOf(b)) && Head(ChainOf(a)) == Head(ChainOf(b))
    requires Wrote(a, start, eventsA) && Wrote(b, start, eventsB)
    requires f != CurrentSet && ImportsKeep(start, eventsA, f) && ImportsKeep(start, eventsB, f)
    ensures Broken(H, ChainOf(a), ChainOf(b)) ||
            (|a| == |b| && SameEntries(a, b, FieldName(f))
             && Plain(Current(start, eventsA), f) == Plain(Current(start, eventsB), f))
  {
    WrittenNamesArePlain(a, start, eventsA);
    WrittenNamesArePlain(b, start, eventsB);
    HeadBindsRecords(H, a, b);
    if SameRecords(a, b) {
      LogIsLinked(start, eventsA, f);
      LogIsLinked(start, eventsB, f);
      LinkedEntriesAgree(Plain(start, f), a, b, FieldName(f));
      ReplayGivesCurrent(start, eventsA, f);
      ReplayGivesCurrent(start, eventsB, f);
    }
  }

  /**
   Every field, the set included, over runs with any imports and renames: the entries and
   the text last logged, as long as each change logged took up the text logged before it.
   */
  lemma HeadAndStartDetermineEntries(H: Hash, start: DieRow, names: Names, f: Field,
                                     a: seq<HistoryRow>, eventsA: seq<Event>, b: seq<HistoryRow>, eventsB: seq<Event>)
    requires IsDigest(H) && Valid(H, ChainOf(a)) && Valid(H, ChainOf(b)) && Head(ChainOf(a)) == Head(ChainOf(b))
    requires Wrote(a, start, eventsA) && Wrote(b, start, eventsB)
    requires AllLeftAsLogged(start, names, eventsA, f) && AllLeftAsLogged(start, names, eventsB, f)
    ensures Broken(H, ChainOf(a), ChainOf(b)) ||
            (|a| == |b| && SameEntries(a, b, FieldName(f))
             && LoggedText(start, names, eventsA, f) == LoggedText(start, names, eventsB, f))
  {
    WrittenNamesArePlain(a, start, eventsA);
    WrittenNamesArePlain(b, start, eventsB);
    HeadBindsRecords(H, a, b);
    if SameRecords(a, b) {
      LogIsLinkedIff(start, names, eventsA, f);
      LogIsLinkedIff(start, names, eventsB, f);
      LinkedEntriesAgree(Text(start, f, names), a, b, FieldName(f));
      ReplayGivesLogged(start, names, eventsA, f);
      ReplayGivesLogged(start, names, eventsB, f);
    }
  }

  // ---------------------------------------------------------------- the code

  /** Nothing but the records of `die` has changed. */
  ghost predicate OnlyOf(die: nat, before: seq<HistoryRow>, after: seq<HistoryRow>) {
    forall d :: d != die ==> RowsOf(after, d) == RowsOf(before, d)
  }

  /** The changes on file for a die. */
  function LogOf(history: seq<HistoryRow>, die: nat): seq<Change> {
    ChangesOf(RowsOf(history, die))
  }

  lemma AppendOne(a: seq<Change>, b: seq<Change>, c: Change)
    ensures a + b + [c] == a + (b + [c])
  {
  }

  lemma AppendNone(a: seq<Change>, b: seq<Change>)
    ensures a + (b + []) == a + b && a + [] == a
  {
  }

  lemma AppendMore(a: seq<Change>, b: seq<Change>, c: seq<Change>)
    ensures a + b + c == a + (b + c)
  {
  }

  lemma OnlyOfTwice(die: nat, a: seq<HistoryRow>, b: seq<HistoryRow>, c: seq<HistoryRow>)
    requires OnlyOf(die, a, b) && OnlyOf(die, b, c)
    ensures OnlyOf(die, a, c)
  {
  }

  class AuditTrail {
    const sha256: Hash
    var dies: map<nat, DieRow>
    var history: seq<HistoryRow>

    constructor (sha256: Hash)
      ensures this.sha256 == sha256 && dies == map[] && history == []
    {
      this.sha256 := sha256;
      dies, history := map[], [];
    }

    /** `DieHistory.save`. */
    method SaveHistory(r: HistoryRow)
      modifies this`history
      ensures history == old(history) + [Stamped(sha256, old(history), r)]
    {
      var stored := r;
      if r.hash == "" {
        var mine := RowsOf(history, r.die);
        var prev := ZEROS;
        if mine != [] && mine[|mine| - 1].hash != "" {
          prev := mine[|mine| - 1].hash;
        }
        stored := r.(prev := prev, hash := sha256(prev + ":" + BodyOf(r)));
      }
      history := history + [stored];
    }

    /** One record for a change, whatever its field. */
    method LogChange(die: nat, c: Change)
      requires IsDigest(sha256) && Chained(sha256, history)
      modifies this`history
      ensures Chained(sha256, history)
      ensures LogOf(history, die) == LogOf(old(history), die) + [c]
      ensures OnlyOf(die, old(history), history)
    {
      var r := HistoryRow(die, c.user, c.field, c.was, c.now, "", "");
      ghost var s := Stamped(sha256, history, r);
      StampedExtendsChain(sha256, history, r);
      forall d ensures RowsOf(history + [s], d) == if d == die then RowsOf(history, d) + [s] else RowsOf(history, d) {
        RowsOfAppend(history, s, d);
      }
      assert ChangesOf(RowsOf(history, die) + [s]) == ChangesOf(RowsOf(history, die)) + [c];
      SaveHistory(r);
    }

    /** `log_die_changes`. */
    method LogDiff(die: nat, fields: seq<Field>, before: DieRow, after: DieRow, names: Names, user: Option<nat>)
      requires IsDigest(sha256) && Chained(sha256, history)
      modifies this`history
      ensures Chained(sha256, history)
      ensures LogOf(history, die) == LogOf(old(history), die) + Diff(fields, before, after, names, user)
      ensures OnlyOf(die, old(history), history)
    {
      ghost var earlier, entries: seq<Change> := LogOf(history, die), [];
      AppendNone(earlier, []);
      for n := 0 to |fields|
        invariant Chained(sha256, history)
        invariant entries == Diff(fields[..n], before, after, names, user)
        invariant LogOf(history, die) == earlier + entries
        invariant OnlyOf(die, old(history), history)
      {
        DiffOneMore(fields, n, before, after, names, user);
        AppendNone(earlier, entries);
        var was, now := Text(before, fields[n], names), Text(after, fields[n], names);
        if was != now {
          var c := Change(FieldName(fields[n]), was, now, user);
          ghost var h := history;
          LogChange(die, c);
          OnlyOfTwice(die, old(history), h, history);
          AppendOne(earlier, entries, c);
          entries := entries + [c];
        }
      }
      assert fields[..|fields|] == fields;
    }

    /** `log_round_size_change` and `log_flat_changes`, for the sizes as they are written out. */
    method LogSizes(die: nat, texts: seq<SizeText>, user: Option<nat>)
      requires IsDigest(sha256) && Chained(sha256, history)
      modifies this`history
      ensures Chained(sha256, history)
      ensures LogOf(history, die) == LogOf(old(history), die) + SizeDiff(texts, user)
      ensures OnlyOf(die, old(history), history)
    {
      ghost var earlier, entries: seq<Change> := LogOf(history, die), [];
      AppendNone(earlier, []);
      for n := 0 to |texts|
        invariant Chained(sha256, history)
        invariant entries == SizeDiff(texts[..n], user)
        invariant LogOf(history, die) == earlier + entries
        invariant OnlyOf(die, old(history), history)
      {
        SizeDiffOneMore(texts, n, user);
        AppendNone(earlier, entries);
        var SizeText(field, was, now) := texts[n];
        if was != now {
          var c := Change(SizeName(field), was, now, user);
          ghost var h := history;
          LogChange(die, c);
          OnlyOfTwice(die, old(history), h, history);
          AppendOne(earlier, entries, c);
          entries := entries + [c];
        }
      }
      assert texts[..|texts|] == texts;
    }

    /**
     A save of an existing die: the signal compares every watched field with the stored
     row and logs the differences, each chained to the die's latest record.
     */
    method SaveDie(die: nat, after: DieRow, names: Names, user: Option<nat>)
      requires die in dies && IsDigest(sha256) && Chained(sha256, history)
      modifies this`dies, this`history
      ensures Chained(sha256, history)
      ensures dies == old(dies)[die := after]
      ensures LogOf(history, die) == LogOf(old(history), die) + Diff(WATCHED, old(dies)[die], after, names, user)
      ensures OnlyOf(die, old(history), history)
    {
      LogDiff(die, WATCHED, dies[die], after, names, user);
      dies := dies[die := after];
    }

    /** An import writes the row and no history. */
    method ImportDie(die: nat, row: DieRow)
      requires die in dies
      modifies this`dies
      ensures dies == old(dies)[die := row]
    {
      dies := dies[die := row];
    }

    /** One event of a die: its row, its new records and nothing else. */
    method Perform(die: nat, e: Event)
      requires die in dies && IsDigest(sha256) && Chained(sha256, history)
      modifies this`dies, this`history
      ensures Chained(sha256, history)
      ensures dies == old(dies)[die := RowAfter(old(dies)[die], e)]
      ensures LogOf(history, die) == LogOf(old(history), die) + EventLog(old(dies)[die], e)
      ensures OnlyOf(die, old(history), history)
    {
      match e {
        case Saved(row, names, user) => SaveDie(die, row, names, user);
        case Sized(texts, user) => LogSizes(die, texts, user);
        case Imported(row) =>
          AppendNone(LogOf(history, die), []);
          ImportDie(die, row);
      }
    }

    /** The table and the records after the first `n` events of a run that began at `dies0` and `history0`. */
    ghost predicate Served(dies0: map<nat, DieRow>, history0: seq<HistoryRow>, die: nat, events: seq<Event>, n: nat)
      requires die in dies0 && n <= |events|
      reads this
    {
      && Chained(sha256, history)
      && dies == dies0[die := Current(dies0[die], events[..n])]
      && LogOf(history, die) == LogOf(history0, die) + Log(dies0[die], events[..n])
      && OnlyOf(die, history0, history)
    }

    method ServeNext(die: nat, events: seq<Event>, n: nat, ghost dies0: map<nat, DieRow>,
        ghost history0: seq<HistoryRow>)
      requires die in dies0 && n < |events| && IsDigest(sha256) && Served(dies0, history0, die, events, n)
      modifies this`dies, this`history
      ensures Served(dies0, history0, die, events, n + 1)
    {
      ghost var h, row := history, dies[die];
      EventOneMore(dies0[die], events, n);
      AppendMore(LogOf(history0, die), Log(dies0[die], events[..n]), EventLog(row, events[n]));
      Perform(die, events[n]);
      OnlyOfTwice(die, history0, h, history);
    }

    /**
     Any run of saves and imports of a die: its row ends as the run says, its records are exactly those
     of the run, every chain stays valid and other dies' records stay as they are.
     */
    method Serve(die: nat, events: seq<Event>)
      requires die in dies && IsDigest(sha256) && Chained(sha256, history)
      modifies this`dies, this`history
      ensures Chained(sha256, history)
      ensures dies == old(dies)[die := Current(old(dies)[die], events)]
      ensures LogOf(history, die) == LogOf(old(history), die) + Log(old(dies)[die], events)
      ensures LogOf(old(history), die) == [] ==> Wrote(RowsOf(history, die), old(dies)[die], events)
      ensures OnlyOf(die, old(history), history)
    {
      ghost var dies0, history0 := dies, history;
      AppendNone(LogOf(history, die), []);
      for n := 0 to |events|
        invariant Served(dies0, history0, die, events, n)
      {
        ServeNext(die, events, n, dies0, history0);
      }
      assert events[..|events|] == events;
      AppendNothingBefore(Log(dies0[die], events));
    }
  }

  lemma AppendNothingBefore(a: seq<Change>)
    ensures [] + a == a
  {
  }
}
