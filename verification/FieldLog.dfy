/**
 The field-change log of a die: what a save writes, how its entries follow on each other,
 and that replaying them gives the current values.
 */
module FieldLog {
  import opened Options
  import opened Texts
  import opened Decimals

  datatype DieRow = DieRow(
    status: string, currentSet: Option<nat>, rack: Option<nat>, shelf: Option<nat>,
    remarks: string, dieId: string, casing: string)

  datatype Field = Status | CurrentSet | RackId | ShelfNumber | Remarks | DieId | Casing

  const WATCHED: seq<Field> := [Status, CurrentSet, RackId, ShelfNumber, Remarks, DieId, Casing]

  function FieldName(f: Field): string {
    match f
    case Status => "status"
    case CurrentSet => "current_set_id"
    case RackId => "rack_id"
    case ShelfNumber => "shelf_number"
    case Remarks => "remarks"
    case DieId => "die_id"
    case Casing => "casing"
  }

  /** The columns of the round and flat size records. */
  datatype SizeField =
    | CurrentSize | PunchedSize | CurrentWidth | CurrentThickness | PunchedWidth | PunchedThickness | Radius

  function SizeName(f: SizeField): string {
    match f
    case CurrentSize => "current_size"
    case PunchedSize => "punched_size"
    case CurrentWidth => "current_width"
    case CurrentThickness => "current_thickness"
    case PunchedWidth => "punched_width"
    case PunchedThickness => "punched_thickness"
    case Radius => "radius"
  }

  lemma FieldNamesAreDistinct(f: Field, g: Field)
    requires FieldName(f) == FieldName(g)
    ensures f == g
  {
    var s, t := FieldName(f), FieldName(g);
    assert |s| == |t| && s[0] == t[0] && s[1] == t[1];
  }

  lemma SizesAreNotWatched(f: Field, g: SizeField)
    ensures FieldName(f) != SizeName(g)
  {
    var s, t := FieldName(f), SizeName(g);
    assert |s| != |t| || s[0] != t[0];
  }

  lemma FieldNameHasNoColon(f: Field)
    ensures NoColon(FieldName(f))
  {
  }

  lemma SizeNameHasNoColon(f: SizeField)
    ensures NoColon(SizeName(f))
  {
  }

  function OptionText(v: Option<nat>): string {
    if v.Some? then Print(v.value) else ""
  }

  type Names = map<nat, string>

  /** A watched value as the log writes it; sets appear by name, absent values as empty. */
  function Text(row: DieRow, f: Field, names: Names): string {
    match f
    case Status => row.status
    case CurrentSet => if row.currentSet.Some? && row.currentSet.value in names then names[row.currentSet.value] else ""
    case RackId => OptionText(row.rack)
    case ShelfNumber => OptionText(row.shelf)
    case Remarks => row.remarks
    case DieId => row.dieId
    case Casing => row.casing
  }

  datatype Change = Change(field: string, was: string, now: string, user: Option<nat>)

  /** The entry a field leaves, if it reads differently. */
  function Entry(f: Field, before: DieRow, after: DieRow, names: Names, user: Option<nat>): seq<Change> {
    var was, now := Text(before, f, names), Text(after, f, names);
    if was != now then [Change(FieldName(f), was, now, user)] else []
  }

  /** The entries of one save, in the order the fields are watched. */
  function Diff(fields: seq<Field>, before: DieRow, after: DieRow, names: Names, user: Option<nat>): seq<Change> {
    if fields == [] then []
    else Diff(fields[..|fields| - 1], before, after, names, user)
         + Entry(fields[|fields| - 1], before, after, names, user)
  }

  /** A size before and after, as the two are written out. */
  datatype SizeText = SizeText(field: SizeField, was: string, now: string)

  function SizeDiff(texts: seq<SizeText>, user: Option<nat>): seq<Change> {
    if texts == [] then []
    else
      var t := texts[|texts| - 1];
      SizeDiff(texts[..|texts| - 1], user)
      + if t.was != t.now then [Change(SizeName(t.field), t.was, t.now, user)] else []
  }

  /** Reading a log forward from a starting value. */
  function Replay(start: string, log: seq<Change>, name: string): string {
    if log == [] then start
    else
      var last := log[|log| - 1];
      if last.field == name then last.now else Replay(start, log[..|log| - 1], name)
  }

  /** If entry `i` is of this field, it takes up the value the entries before it left, and changes it. */
  predicate LinkedAt(start: string, log: seq<Change>, name: string, i: nat)
    requires i < |log|
  {
    log[i].field == name ==> log[i].was == Replay(start, log[..i], name) && log[i].was != log[i].now
  }

  ghost predicate LinkedIn(start: string, log: seq<Change>, name: string) {
    forall i :: 0 <= i < |log| ==> LinkedAt(start, log, name, i)
  }

  // ---------------------------------------------------------------- one save

  lemma {:induction false} ReplayAppend(start: string, a: seq<Change>, b: seq<Change>, name: string)
    ensures Replay(start, a + b, name) == Replay(Replay(start, a, name), b, name)
  {
    if b == [] {
      assert a + b == a;
    } else {
      ReplayAppend(start, a, b[..|b| - 1], name);
      assert (a + b)[..|a + b| - 1] == a + b[..|b| - 1];
    }
  }

  predicate Mentions(log: seq<Change>, name: string) {
    exists i :: 0 <= i < |log| && log[i].field == name
  }

  lemma {:induction false} ReplayOfOthers(start: string, log: seq<Change>, name: string)
    requires !Mentions(log, name)
    ensures Replay(start, log, name) == start
  {
    if log != [] {
      ReplayOfOthers(start, log[..|log| - 1], name);
    }
  }

  lemma MentionsAppend(a: seq<Change>, b: seq<Change>, name: string)
    ensures Mentions(a + b, name) <==> Mentions(a, name) || Mentions(b, name)
  {
    if i :| 0 <= i < |a| && a[i].field == name {
      assert (a + b)[i].field == name;
    }
    if i :| 0 <= i < |b| && b[i].field == name {
      assert (a + b)[|a| + i].field == name;
    }
  }

  predicate Distinct(fields: seq<Field>) {
    forall i, j :: 0 <= i < j < |fields| ==> fields[i] != fields[j]
  }

  /** A save has one entry for each field that reads differently, and none for any other. */
  ghost predicate OneEntryEach(fields: seq<Field>, before: DieRow, after: DieRow, names: Names, f: Field,
      diff: seq<Change>) {
    && (Mentions(diff, FieldName(f)) <==> f in fields && Text(before, f, names) != Text(after, f, names))
    && (forall i :: 0 <= i < |diff| && diff[i].field == FieldName(f) ==>
          diff[i].was == Text(before, f, names) && diff[i].now == Text(after, f, names)
          && !Mentions(diff[..i], FieldName(f)))
  }

  lemma OneEntryMore(fields: seq<Field>, g: Field, before: DieRow, after: DieRow, names: Names, user: Option<nat>,
                     f: Field, front: seq<Change>)
    requires g !in fields && OneEntryEach(fields, before, after, names, f, front)
    ensures OneEntryEach(fields + [g], before, after, names, f, front + Entry(g, before, after, names, user))
  {
    var more, name := Entry(g, before, after, names, user), FieldName(f);
    var diff := front + more;
    MentionsAppend(front, more, name);
    if f == g {
      assert more != [] ==> more[0].field == name;
    } else if FieldName(f) == FieldName(g) {
      FieldNamesAreDistinct(f, g);
    }
    forall i | 0 <= i < |diff| && diff[i].field == name
      ensures diff[i].was == Text(before, f, names) && diff[i].now == Text(after, f, names)
      ensures !Mentions(diff[..i], name)
    {
      if i < |front| {
        assert diff[..i] == front[..i] && diff[i] == front[i];
      } else {
        assert diff[..i] == front && diff[i] == more[0];
      }
    }
  }

  lemma {:induction false} DiffHasOneEntryEach(fields: seq<Field>, before: DieRow, after: DieRow, names: Names,
                                               user: Option<nat>, f: Field)
    requires Distinct(fields)
    ensures OneEntryEach(fields, before, after, names, f, Diff(fields, before, after, names, user))
  {
    if fields != [] {
      var front, g := fields[..|fields| - 1], fields[|fields| - 1];
      DiffHasOneEntryEach(front, before, after, names, user, f);
      OneEntryMore(front, g, before, after, names, user, f, Diff(front, before, after, names, user));
      assert front + [g] == fields;
    }
  }

  /** A save writes no entry exactly when no watched value reads differently. */
  lemma {:induction false} NoEntryIffUnchanged(fields: seq<Field>, before: DieRow, after: DieRow, names: Names,
                                               user: Option<nat>)
    ensures Diff(fields, before, after, names, user) == [] <==>
            forall f :: f in fields ==> Text(before, f, names) == Text(after, f, names)
  {
    if fields != [] {
      var front, g := fields[..|fields| - 1], fields[|fields| - 1];
      NoEntryIffUnchanged(front, before, after, names, user);
      assert forall f :: f in fields <==> f in front || f == g;
    }
  }

  lemma AllFieldsAreWatched(f: Field)
    ensures f in WATCHED && Distinct(WATCHED)
  {
    match f
    case Status => assert WATCHED[0] == f;
    case CurrentSet => assert WATCHED[1] == f;
    case RackId => assert WATCHED[2] == f;
    case ShelfNumber => assert WATCHED[3] == f;
    case Remarks => assert WATCHED[4] == f;
    case DieId => assert WATCHED[5] == f;
    case Casing => assert WATCHED[6] == f;
  }

  lemma {:induction false} SizeEntriesNameNoField(texts: seq<SizeText>, user: Option<nat>, f: Field)
    ensures !Mentions(SizeDiff(texts, user), FieldName(f))
  {
    if texts != [] {
      SizeEntriesNameNoField(texts[..|texts| - 1], user, f);
      SizesAreNotWatched(f, texts[|texts| - 1].field);
    }
  }

  // ---------------------------------------------------------------- runs of saves

  /**
   A save of the die, with the set names as they are at that moment, or of its sizes; or a
   bulk import of it, which writes no history.
   */
  datatype Event =
    | Saved(row: DieRow, names: Names, user: Option<nat>)
    | Sized(texts: seq<SizeText>, user: Option<nat>)
    | Imported(row: DieRow)

  function RowAfter(before: DieRow, e: Event): DieRow {
    match e
    case Saved(row, _, _) => row
    case Sized(_, _) => before
    case Imported(row) => row
  }

  function Current(start: DieRow, events: seq<Event>): DieRow {
    if events == [] then start
    else
      RowAfter(Current(start, events[..|events| - 1]), events[|events| - 1])
  }

  function EventLog(before: DieRow, e: Event): seq<Change> {
    match e
    case Saved(row, names, user) => Diff(WATCHED, before, row, names, user)
    case Sized(texts, user) => SizeDiff(texts, user)
    case Imported(_) => []
  }

  function Log(start: DieRow, events: seq<Event>): seq<Change> {
    if events == [] then []
    else
      var front := events[..|events| - 1];
      Log(start, front) + EventLog(Current(start, front), events[|events| - 1])
  }

  /** The event changes how a field reads, and so leaves its one entry for it. */
  predicate Changes(before: DieRow, e: Event, f: Field) {
    e.Saved? && Text(before, f, e.names) != Text(e.row, f, e.names)
  }

  /** What an event leaves for one field. */
  lemma EventEntry(before: DieRow, e: Event, f: Field)
    ensures var log, name := EventLog(before, e), FieldName(f);
            && (Mentions(log, name) <==> Changes(before, e, f))
            && (forall i :: 0 <= i < |log| && log[i].field == name ==>
                  Changes(before, e, f)
                  && log[i].was == Text(before, f, e.names) && log[i].now == Text(e.row, f, e.names)
                  && !Mentions(log[..i], name))
  {
    match e
    case Saved(row, names, user) =>
      AllFieldsAreWatched(f);
      DiffHasOneEntryEach(WATCHED, before, row, names, user, f);
    case Sized(texts, user) =>
      SizeEntriesNameNoField(texts, user, f);
    case Imported(_) =>
  }

  lemma {:induction false} ReplayOfOneEntry(start: string, log: seq<Change>, name: string, was: string, now: string)
    requires Mentions(log, name)
    requires forall i :: 0 <= i < |log| && log[i].field == name ==> log[i].now == now
    ensures Replay(start, log, name) == now
  {
    if log[|log| - 1].field != name {
      var i :| 0 <= i < |log| && log[i].field == name;
      assert log[..|log| - 1][i].field == name;
      ReplayOfOneEntry(start, log[..|log| - 1], name, was, now);
    }
  }

  /** Replaying one more event. */
  lemma EventReplays(text: string, before: DieRow, e: Event, f: Field)
    ensures Replay(text, EventLog(before, e), FieldName(f))
        == if Changes(before, e, f) then Text(e.row, f, e.names) else text
  {
    EventEntry(before, e, f);
    if Changes(before, e, f) {
      ReplayOfOneEntry(text, EventLog(before, e), FieldName(f), Text(before, f, e.names), Text(e.row, f, e.names));
    } else {
      ReplayOfOthers(text, EventLog(before, e), FieldName(f));
    }
  }

  // ---------------------------------------------------------------- what replay gives

  /** Event `n` changes how a field reads, by the names of that moment, and is written down. */
  predicate LogsField(start: DieRow, events: seq<Event>, f: Field, n: nat) {
    n < |events| && Changes(Current(start, events[..n]), events[n], f)
  }

  lemma LogsFieldInFront(start: DieRow, events: seq<Event>, f: Field)
    requires events != []
    ensures var front := events[..|events| - 1];
            forall n: nat :: LogsField(start, front, f, n) <==> n < |front| && LogsField(start, events, f, n)
  {
    var front := events[..|events| - 1];
    forall n: nat | n < |front| ensures LogsField(start, events, f, n) == LogsField(start, front, f, n) {
      assert events[..n] == front[..n];
    }
  }

  /** The last event that logged a field. */
  function LastEntry(start: DieRow, events: seq<Event>, f: Field): (last: Option<nat>)
    ensures last.Some? ==> LogsField(start, events, f, last.value)
    ensures forall n: nat :: LogsField(start, events, f, n) ==> last.Some? && n <= last.value
  {
    if events == [] then None
    else
      var front := events[..|events| - 1];
      LogsFieldInFront(start, events, f);
      if LogsField(start, events, f, |events| - 1) then Some(|events| - 1) else LastEntry(start, front, f)
  }

  /** How a field read when a change of it was last logged, or else at the start. */
  function LoggedText(start: DieRow, names: Names, events: seq<Event>, f: Field): string {
    match LastEntry(start, events, f)
    case None => Text(start, f, names)
    case Some(n) => Text(events[n].row, f, events[n].names)
  }

  lemma LoggedTextStep(start: DieRow, names: Names, events: seq<Event>, f: Field)
    requires events != []
    ensures var front, e := events[..|events| - 1], events[|events| - 1];
            LoggedText(start, names, events, f) ==
              if Changes(Current(start, front), e, f) then Text(e.row, f, e.names)
              else LoggedText(start, names, front, f)
  {
    LogsFieldInFront(start, events, f);
  }

  /** Over any run, imports and renamed sets included, replay gives the text last logged. */
  lemma {:induction false} ReplayGivesLogged(start: DieRow, names: Names, events: seq<Event>, f: Field)
    ensures Replay(Text(start, f, names), Log(start, events), FieldName(f)) == LoggedText(start, names, events, f)
  {
    if events != [] {
      var front, e := events[..|events| - 1], events[|events| - 1];
      var before := Current(start, front);
      ReplayGivesLogged(start, names, front, f);
      ReplayAppend(Text(start, f, names), Log(start, front), EventLog(before, e), FieldName(f));
      EventReplays(LoggedText(start, names, front, f), before, e, f);
      LoggedTextStep(start, names, events, f);
    }
  }

  /** Replay gives how a field reads now just when it read so when last logged. */
  lemma ReplayIsCurrentIff(start: DieRow, names: Names, events: seq<Event>, f: Field, present: Names)
    ensures Replay(Text(start, f, names), Log(start, events), FieldName(f)) == Text(Current(start, events), f, present)
       <==> match LastEntry(start, events, f)
            case Some(n) => Text(events[n].row, f, events[n].names) == Text(Current(start, events), f, present)
            case None => Text(start, f, names) == Text(Current(start, events), f, present)
  {
    ReplayGivesLogged(start, names, events, f);
  }

  /** In particular: with the die still in the set it was last logged in, when that set has its name of then. */
  lemma SameSetReplaysIff(start: DieRow, names: Names, events: seq<Event>, present: Names, n: nat, id: nat)
    requires LastEntry(start, events, CurrentSet) == Some(n)
    requires events[n].row.currentSet == Some(id) == Current(start, events).currentSet
    requires id in events[n].names && id in present
    ensures Replay(Text(start, CurrentSet, names), Log(start, events), FieldName(CurrentSet))
            == Text(Current(start, events), CurrentSet, present)
       <==> events[n].names[id] == present[id]
  {
    ReplayIsCurrentIff(start, names, events, CurrentSet, present);
  }

  /** The text of every field but the set does not depend on any name. */
  function Plain(row: DieRow, f: Field): string
    requires f != CurrentSet
  {
    Text(row, f, map[])
  }

  lemma PlainIsText(row: DieRow, f: Field, names: Names)
    requires f != CurrentSet
    ensures Text(row, f, names) == Plain(row, f)
  {
  }

  /** No import has changed a field. */
  predicate ImportsKeep(start: DieRow, events: seq<Event>, f: Field)
    requires f != CurrentSet
  {
    events == [] ||
    (var front, e := events[..|events| - 1], events[|events| - 1];
     ImportsKeep(start, front, f) && (e.Imported? ==> Plain(e.row, f) == Plain(Current(start, front), f)))
  }

  /**
   Over any run in which no import changed the field, whatever becomes of the sets,
   replaying the log from the initial value gives the current value of every field but the
   set.
   */
  lemma {:induction false} ReplayGivesCurrent(start: DieRow, events: seq<Event>, f: Field)
    requires f != CurrentSet && ImportsKeep(start, events, f)
    ensures Replay(Plain(start, f), Log(start, events), FieldName(f)) == Plain(Current(start, events), f)
  {
    if events != [] {
      var front, e := events[..|events| - 1], events[|events| - 1];
      var before := Current(start, front);
      ReplayGivesCurrent(start, front, f);
      ReplayAppend(Plain(start, f), Log(start, front), EventLog(before, e), FieldName(f));
      EventReplays(Plain(before, f), before, e, f);
      if e.Saved? {
        PlainIsText(before, f, e.names);
        PlainIsText(e.row, f, e.names);
      }
    }
  }

  lemma OneEventLog(start: DieRow, e: Event)
    ensures Current(start, [e]) == RowAfter(start, e) && Log(start, [e]) == [] + EventLog(start, e)
  {
    assert [e][..0] == [];
  }

  /** A concrete run in which the die's set is renamed and replay gives the old name. */
  lemma RenamedSetBreaksReplay(row: DieRow)
    requires row.currentSet.None?
    ensures var events := [Saved(row.(currentSet := Some(1)), map[1 := "A"], None)];
            Replay("", Log(row, events), FieldName(CurrentSet)) == "A" &&
            Text(Current(row, events), CurrentSet, map[1 := "B"]) == "B" != "A"
  {
    var events := [Saved(row.(currentSet := Some(1)), map[1 := "A"], None)];
    OneEventLog(row, events[0]);
    assert LogsField(row, events, CurrentSet, 0);
    ReplayGivesLogged(row, map[], events, CurrentSet);
  }

  /** A concrete run in which an import changes the status and replay gives the old one. */
  lemma ImportBreaksReplay(row: DieRow)
    requires row.status == "AVAILABLE"
    ensures var events := [Imported(row.(status := "DAMAGED"))];
            Replay("AVAILABLE", Log(row, events), FieldName(Status)) == "AVAILABLE" &&
            Plain(Current(row, events), Status) == "DAMAGED"
  {
    OneEventLog(row, Imported(row.(status := "DAMAGED")));
  }

  // ---------------------------------------------------------------- entries follow on each other

  /** A log and one more event are linked when the log is and the event takes up its replay. */
  lemma LinkedWithEvent(start: string, log: seq<Change>, before: DieRow, e: Event, f: Field)
    ensures LinkedIn(start, log + EventLog(before, e), FieldName(f)) <==>
      && LinkedIn(start, log, FieldName(f))
      && (Changes(before, e, f) ==> Text(before, f, e.names) == Replay(start, log, FieldName(f)))
  {
    var more, name := EventLog(before, e), FieldName(f);
    var all := log + more;
    EventEntry(before, e, f);
    forall i | 0 <= i < |log| ensures LinkedAt(start, all, name, i) == LinkedAt(start, log, name, i) {
      assert all[..i] == log[..i];
    }
    forall i | 0 <= i < |more|
      ensures LinkedAt(start, all, name, |log| + i)
         <==> (more[i].field == name ==> Text(before, f, e.names) == Replay(start, log, name))
    {
      if more[i].field == name {
        assert all[..|log| + i] == log + more[..i];
        ReplayAppend(start, log, more[..i], name);
        ReplayOfOthers(Replay(start, log, name), more[..i], name);
      }
    }
    if Changes(before, e, f) {
      var i :| 0 <= i < |more| && more[i].field == name;
      assert LinkedIn(start, all, name) ==> LinkedAt(start, all, name, |log| + i);
    }
    assert LinkedIn(start, all, name) ==> LinkedIn(start, log, name);
    if LinkedIn(start, log, name) && (Changes(before, e, f) ==> Text(before, f, e.names) == Replay(start, log, name)) {
      forall i | 0 <= i < |all| ensures LinkedAt(start, all, name, i) {
        if i >= |log| {
          assert LinkedAt(start, all, name, |log| + (i - |log|));
        }
      }
    }
  }

  /** When event `n` changed a field, the field read, until then, as last logged. */
  predicate LeftAsLogged(start: DieRow, names: Names, events: seq<Event>, f: Field, n: nat)
    requires n < |events| && events[n].Saved?
  {
    Text(Current(start, events[..n]), f, events[n].names) == LoggedText(start, names, events[..n], f)
  }

  ghost predicate AllLeftAsLogged(start: DieRow, names: Names, events: seq<Event>, f: Field) {
    forall n: nat :: LogsField(start, events, f, n) ==> LeftAsLogged(start, names, events, f, n)
  }

  lemma LeftAsLoggedInFront(start: DieRow, names: Names, events: seq<Event>, f: Field, n: nat)
    requires n + 1 < |events| && events[n].Saved?
    ensures LeftAsLogged(start, names, events, f, n) == LeftAsLogged(start, names, events[..|events| - 1], f, n)
  {
    assert events[..n] == events[..|events| - 1][..n];
  }

  lemma AllLeftInFront(start: DieRow, names: Names, events: seq<Event>, f: Field)
    requires events != [] && AllLeftAsLogged(start, names, events, f)
    ensures AllLeftAsLogged(start, names, events[..|events| - 1], f)
  {
    var front := events[..|events| - 1];
    LogsFieldInFront(start, events, f);
    forall n: nat | LogsField(start, front, f, n) ensures LeftAsLogged(start, names, front, f, n) {
      assert LogsField(start, events, f, n);
      LeftAsLoggedInFront(start, names, events, f, n);
    }
  }

  lemma AllLeftAndLast(start: DieRow, names: Names, events: seq<Event>, f: Field)
    requires events != [] && AllLeftAsLogged(start, names, events[..|events| - 1], f)
    requires LogsField(start, events, f, |events| - 1) ==> LeftAsLogged(start, names, events, f, |events| - 1)
    ensures AllLeftAsLogged(start, names, events, f)
  {
    var front := events[..|events| - 1];
    LogsFieldInFront(start, events, f);
    forall n: nat | LogsField(start, events, f, n) ensures LeftAsLogged(start, names, events, f, n) {
      if n < |front| {
        assert LogsField(start, front, f, n);
        LeftAsLoggedInFront(start, names, events, f, n);
      }
    }
  }

  lemma AllLeftAsLoggedStep(start: DieRow, names: Names, events: seq<Event>, f: Field)
    requires events != []
    ensures var front, last := events[..|events| - 1], |events| - 1;
            AllLeftAsLogged(start, names, events, f) <==>
              && AllLeftAsLogged(start, names, front, f)
              && (LogsField(start, events, f, last) ==> LeftAsLogged(start, names, events, f, last))
  {
    if AllLeftAsLogged(start, names, events, f) {
      AllLeftInFront(start, names, events, f);
    } else if AllLeftAsLogged(start, names, events[..|events| - 1], f) {
      if LogsField(start, events, f, |events| - 1) ==> LeftAsLogged(start, names, events, f, |events| - 1) {
        AllLeftAndLast(start, names, events, f);
        assert false;
      }
    }
  }

  /**
   The entries of a field follow on each other - each old value is the previous entry's new
   one - just when the field, whenever a change of it was logged, still read as last logged.
   */
  lemma {:induction false} LogIsLinkedIff(start: DieRow, names: Names, events: seq<Event>, f: Field)
    ensures LinkedIn(Text(start, f, names), Log(start, events), FieldName(f))
       <==> AllLeftAsLogged(start, names, events, f)
  {
    if events != [] {
      var front, e := events[..|events| - 1], events[|events| - 1];
      LogIsLinkedIff(start, names, front, f);
      ReplayGivesLogged(start, names, front, f);
      LinkedWithEvent(Text(start, f, names), Log(start, front), Current(start, front), e, f);
      AllLeftAsLoggedStep(start, names, events, f);
    }
  }

  /**
   Over any run in which no import changed the field, whatever becomes of the sets, every
   entry of a field but the set has as its old value the previous entry's new value.
   */
  lemma {:induction false} LogIsLinked(start: DieRow, events: seq<Event>, f: Field)
    requires f != CurrentSet && ImportsKeep(start, events, f)
    ensures LinkedIn(Plain(start, f), Log(start, events), FieldName(f))
  {
    if events != [] {
      var front, e := events[..|events| - 1], events[|events| - 1];
      LogIsLinked(start, front, f);
      ReplayGivesCurrent(start, front, f);
      LinkedWithEvent(Plain(start, f), Log(start, front), Current(start, front), e, f);
      if e.Saved? {
        PlainIsText(Current(start, front), f, e.names);
      }
    }
  }

  // ---------------------------------------------------------------- names of logged fields

  lemma {:induction false} DiffNamesArePlain(fields: seq<Field>, before: DieRow, after: DieRow, names: Names,
      user: Option<nat>)
    ensures forall c :: c in Diff(fields, before, after, names, user) ==> NoColon(c.field)
  {
    if fields != [] {
      DiffNamesArePlain(fields[..|fields| - 1], before, after, names, user);
      FieldNameHasNoColon(fields[|fields| - 1]);
    }
  }

  lemma {:induction false} SizeNamesArePlain(texts: seq<SizeText>, user: Option<nat>)
    ensures forall c :: c in SizeDiff(texts, user) ==> NoColon(c.field)
  {
    if texts != [] {
      SizeNamesArePlain(texts[..|texts| - 1], user);
      SizeNameHasNoColon(texts[|texts| - 1].field);
    }
  }

  lemma {:induction false} LogNamesArePlain(start: DieRow, events: seq<Event>)
    ensures forall c :: c in Log(start, events) ==> NoColon(c.field)
  {
    if events != [] {
      var front := events[..|events| - 1];
      LogNamesArePlain(start, front);
      match events[|events| - 1]
      case Saved(row, names, user) => DiffNamesArePlain(WATCHED, Current(start, front), row, names, user);
      case Sized(texts, user) => SizeNamesArePlain(texts, user);
      case Imported(_) =>
    }
  }

  // ---------------------------------------------------------------- one more of each

  lemma DiffOneMore(fields: seq<Field>, n: nat, before: DieRow, after: DieRow, names: Names, user: Option<nat>)
    requires n < |fields|
    ensures Diff(fields[..n + 1], before, after, names, user)
         == Diff(fields[..n], before, after, names, user) + Entry(fields[n], before, after, names, user)
  {
    assert fields[..n + 1][..n] == fields[..n];
  }

  lemma SizeDiffOneMore(texts: seq<SizeText>, n: nat, user: Option<nat>)
    requires n < |texts|
    ensures SizeDiff(texts[..n + 1], user)
         == SizeDiff(texts[..n], user)
            + (if texts[n].was != texts[n].now
               then [Change(SizeName(texts[n].field), texts[n].was, texts[n].now, user)] else [])
  {
    assert texts[..n + 1][..n] == texts[..n];
  }

  lemma EventOneMore(start: DieRow, events: seq<Event>, n: nat)
    requires n < |events|
    ensures Log(start, events[..n + 1]) == Log(start, events[..n]) + EventLog(Current(start, events[..n]), events[n])
    ensures Current(start, events[..n + 1]) == RowAfter(Current(start, events[..n]), events[n])
  {
    assert events[..n + 1][..n] == events[..n];
  }
}
