/**
 The field log column by column: which column of the row each named entry reports, with
 what texts, in what order and for whom.
 */
module FieldColumns {
  import opened Options
  import opened Texts
  import opened Decimals
  import opened FieldLog

  /** One entry, if the two texts differ. */
  function Noted(column: string, was: string, now: string, user: Option<nat>): seq<Change> {
    if was != now then [Change(column, was, now, user)] else []
  }

  function SetName(row: DieRow, names: Names): string {
    if row.currentSet.Some? && row.currentSet.value in names then names[row.currentSet.value] else ""
  }

  // ---------------------------------------------------------------- one save

  lemma DiffOfOneMore(fields: seq<Field>, f: Field, before: DieRow, after: DieRow, names: Names, user: Option<nat>)
    ensures Diff(fields + [f], before, after, names, user)
         == Diff(fields, before, after, names, user)
            + Noted(FieldName(f), Text(before, f, names), Text(after, f, names), user)
  {
    assert (fields + [f])[..|fields|] == fields;
  }

  lemma NoFieldsNoEntries(before: DieRow, after: DieRow, names: Names, user: Option<nat>)
    ensures Diff([], before, after, names, user) == []
  {
  }

  lemma FirstThree(before: DieRow, after: DieRow, names: Names, user: Option<nat>)
    ensures Diff([Status, CurrentSet, RackId], before, after, names, user)
         == Noted("status", before.status, after.status, user)
            + Noted("current_set_id", SetName(before, names), SetName(after, names), user)
            + Noted("rack_id", OptionText(before.rack), OptionText(after.rack), user)
  {
    NoFieldsNoEntries(before, after, names, user);
    DiffOfOneMore([], Status, before, after, names, user);
    assert [] + [Status] == [Status];
    DiffOfOneMore([Status], CurrentSet, before, after, names, user);
    assert [Status] + [CurrentSet] == [Status, CurrentSet];
    DiffOfOneMore([Status, CurrentSet], RackId, before, after, names, user);
    assert [Status, CurrentSet] + [RackId] == [Status, CurrentSet, RackId];
  }

  lemma LastFour(before: DieRow, after: DieRow, names: Names, user: Option<nat>)
    ensures Diff(WATCHED, before, after, names, user)
         == Diff([Status, CurrentSet, RackId], before, after, names, user)
            + Noted("shelf_number", OptionText(before.shelf), OptionText(after.shelf), user)
            + Noted("remarks", before.remarks, after.remarks, user)
            + Noted("die_id", before.dieId, after.dieId, user)
            + Noted("casing", before.casing, after.casing, user)
  {
    var three := [Status, CurrentSet, RackId];
    DiffOfOneMore(three, ShelfNumber, before, after, names, user);
    DiffOfOneMore(three + [ShelfNumber], Remarks, before, after, names, user);
    DiffOfOneMore(three + [ShelfNumber] + [Remarks], DieId, before, after, names, user);
    DiffOfOneMore(three + [ShelfNumber] + [Remarks] + [DieId], Casing, before, after, names, user);
    assert WATCHED == three + [ShelfNumber] + [Remarks] + [DieId] + [Casing];
  }

  /** Everything a save writes, in order: each column that reads differently, under its own name. */
  lemma SaveLogsColumns(before: DieRow, after: DieRow, names: Names, user: Option<nat>)
    ensures EventLog(before, Saved(after, names, user))
         == Noted("status", before.status, after.status, user)
            + Noted("current_set_id", SetName(before, names), SetName(after, names), user)
            + Noted("rack_id", OptionText(before.rack), OptionText(after.rack), user)
            + Noted("shelf_number", OptionText(before.shelf), OptionText(after.shelf), user)
            + Noted("remarks", before.remarks, after.remarks, user)
            + Noted("die_id", before.dieId, after.dieId, user)
            + Noted("casing", before.casing, after.casing, user)
  {
    FirstThree(before, after, names, user);
    LastFour(before, after, names, user);
  }

  /** A column reads the same exactly when it holds the same. */
  lemma NumberTextIffSame(a: Option<nat>, b: Option<nat>)
    ensures OptionText(a) == OptionText(b) <==> a == b
  {
    if a.Some? && b.Some? && OptionText(a) == OptionText(b) {
      PrintInjective(a.value, b.value);
    }
  }

  /** The log has an entry for a column exactly if it `differs`, and that one says just this. */
  ghost predicate Reports(log: seq<Change>, column: string, differs: bool, was: string, now: string) {
    && (Mentions(log, column) <==> differs)
    && (forall i :: 0 <= i < |log| && log[i].field == column ==>
          log[i].was == was && log[i].now == now && !Mentions(log[..i], column))
  }

  lemma FieldIsReported(before: DieRow, after: DieRow, names: Names, user: Option<nat>, f: Field)
    ensures Reports(EventLog(before, Saved(after, names, user)), FieldName(f),
                    Text(before, f, names) != Text(after, f, names), Text(before, f, names), Text(after, f, names))
  {
    EventEntry(before, Saved(after, names, user), f);
  }

  /**
   A save reports a column exactly if the column changed (a set: if its name reads
   differently), once, with the column's own old and new text: "rack_id" tells of the rack,
   "shelf_number" of the shelf, and so on.
   */
  lemma SaveReportsColumns(before: DieRow, after: DieRow, names: Names, user: Option<nat>)
    ensures var log := EventLog(before, Saved(after, names, user));
            && Reports(log, "status", before.status != after.status, before.status, after.status)
            && Reports(log, "current_set_id", SetName(before, names) != SetName(after, names),
                       SetName(before, names), SetName(after, names))
            && Reports(log, "rack_id", before.rack != after.rack, OptionText(before.rack), OptionText(after.rack))
            && Reports(log, "shelf_number", before.shelf != after.shelf, OptionText(before.shelf),
                       OptionText(after.shelf))
            && Reports(log, "remarks", before.remarks != after.remarks, before.remarks, after.remarks)
            && Reports(log, "die_id", before.dieId != after.dieId, before.dieId, after.dieId)
            && Reports(log, "casing", before.casing != after.casing, before.casing, after.casing)
  {
    FieldIsReported(before, after, names, user, Status);
    FieldIsReported(before, after, names, user, CurrentSet);
    FieldIsReported(before, after, names, user, RackId);
    FieldIsReported(before, after, names, user, ShelfNumber);
    FieldIsReported(before, after, names, user, Remarks);
    FieldIsReported(before, after, names, user, DieId);
    FieldIsReported(before, after, names, user, Casing);
    NumberTextIffSame(before.rack, after.rack);
    NumberTextIffSame(before.shelf, after.shelf);
  }

  // ---------------------------------------------------------------- sizes

  lemma SizeDiffOfOneMore(texts: seq<SizeText>, t: SizeText, user: Option<nat>)
    ensures SizeDiff(texts + [t], user) == SizeDiff(texts, user) + Noted(SizeName(t.field), t.was, t.now, user)
  {
    assert (texts + [t])[..|texts|] == texts;
  }

  lemma SizeDiffOfOne(t: SizeText, user: Option<nat>)
    ensures SizeDiff([t], user) == Noted(SizeName(t.field), t.was, t.now, user)
  {
    assert [t][..0] == [];
  }

  lemma TwoTexts(a: SizeText, b: SizeText)
    ensures [a] + [b] == [a, b]
  {
  }

  lemma SizeDiffOfTwo(a: SizeText, b: SizeText, user: Option<nat>)
    ensures SizeDiff([a, b], user)
         == Noted(SizeName(a.field), a.was, a.now, user) + Noted(SizeName(b.field), b.was, b.now, user)
  {
    SizeDiffOfOne(a, user);
    SizeDiffOfOneMore([a], b, user);
    TwoTexts(a, b);
  }

  lemma SizeDiffOfThreeMore(texts: seq<SizeText>, a: SizeText, b: SizeText, c: SizeText, user: Option<nat>)
    ensures SizeDiff(texts + [a] + [b] + [c], user)
         == SizeDiff(texts, user) + Noted(SizeName(a.field), a.was, a.now, user)
            + Noted(SizeName(b.field), b.was, b.now, user) + Noted(SizeName(c.field), c.was, c.now, user)
  {
    SizeDiffOfOneMore(texts, a, user);
    SizeDiffOfOneMore(texts + [a], b, user);
    SizeDiffOfOneMore(texts + [a] + [b], c, user);
  }

  /** What saving a round size record writes. */
  lemma RoundSizesLogColumns(current: string, current': string, punched: string, punched': string, user: Option<nat>)
    ensures SizeDiff([SizeText(CurrentSize, current, current'), SizeText(PunchedSize, punched, punched')], user)
         == Noted("current_size", current, current', user) + Noted("punched_size", punched, punched', user)
  {
    SizeDiffOfTwo(SizeText(CurrentSize, current, current'), SizeText(PunchedSize, punched, punched'), user);
  }

  lemma FiveTexts(a: SizeText, b: SizeText, c: SizeText, d: SizeText, e: SizeText)
    ensures [a, b] + [c] + [d] + [e] == [a, b, c, d, e]
  {
  }

  /** The flat columns, in the order they are compared. */
  lemma FlatSizesLogColumns(w: string, w': string, t: string, t': string, pw: string, pw': string,
                            pt: string, pt': string, r: string, r': string, user: Option<nat>)
    ensures SizeDiff([SizeText(CurrentWidth, w, w'), SizeText(CurrentThickness, t, t'),
                      SizeText(PunchedWidth, pw, pw'), SizeText(PunchedThickness, pt, pt'),
                      SizeText(Radius, r, r')], user)
         == Noted("current_width", w, w', user) + Noted("current_thickness", t, t', user)
            + Noted("punched_width", pw, pw', user) + Noted("punched_thickness", pt, pt', user)
            + Noted("radius", r, r', user)
  {
    var width, thickness := SizeText(CurrentWidth, w, w'), SizeText(CurrentThickness, t, t');
    var punchedWidth, punchedThickness := SizeText(PunchedWidth, pw, pw'), SizeText(PunchedThickness, pt, pt');
    var radius := SizeText(Radius, r, r');
    SizeDiffOfTwo(width, thickness, user);
    SizeDiffOfThreeMore([width, thickness], punchedWidth, punchedThickness, radius, user);
    FiveTexts(width, thickness, punchedWidth, punchedThickness, radius);
  }

  // ---------------------------------------------------------------- replaying a column

  /** The text of a column that does not depend on any set. */
  function ColumnText(row: DieRow, column: string): string {
    match column
    case "status" => row.status
    case "rack_id" => OptionText(row.rack)
    case "shelf_number" => OptionText(row.shelf)
    case "remarks" => row.remarks
    case "die_id" => row.dieId
    case "casing" => row.casing
    case _ => ""
  }

  /** No import of the run has changed a column. */
  predicate ImportsLeave(start: DieRow, events: seq<Event>, column: string) {
    events == [] ||
    (var front, e := events[..|events| - 1], events[|events| - 1];
     ImportsLeave(start, front, column)
     && (e.Imported? ==> ColumnText(e.row, column) == ColumnText(Current(start, front), column)))
  }

  lemma PlainIsColumn(row: DieRow, f: Field)
    requires f != CurrentSet
    ensures Plain(row, f) == ColumnText(row, FieldName(f))
  {
  }

  lemma {:induction false} ImportsKeepColumn(start: DieRow, events: seq<Event>, f: Field)
    requires f != CurrentSet && ImportsLeave(start, events, FieldName(f))
    ensures ImportsKeep(start, events, f)
  {
    if events != [] {
      var front, e := events[..|events| - 1], events[|events| - 1];
      ImportsKeepColumn(start, front, f);
      PlainIsColumn(RowAfter(start, e), f);
      PlainIsColumn(RowAfter(Current(start, front), e), f);
      PlainIsColumn(Current(start, front), f);
    }
  }

  lemma ColumnTexts(row: DieRow)
    ensures ColumnText(row, "status") == row.status && ColumnText(row, "rack_id") == OptionText(row.rack)
    ensures ColumnText(row, "shelf_number") == OptionText(row.shelf) && ColumnText(row, "remarks") == row.remarks
    ensures ColumnText(row, "die_id") == row.dieId && ColumnText(row, "casing") == row.casing
  {
  }

  lemma ColumnReplays(start: DieRow, events: seq<Event>, f: Field)
    requires f != CurrentSet
    ensures ImportsLeave(start, events, FieldName(f)) ==>
              Replay(ColumnText(start, FieldName(f)), Log(start, events), FieldName(f))
              == ColumnText(Current(start, events), FieldName(f))
  {
    if ImportsLeave(start, events, FieldName(f)) {
      ImportsKeepColumn(start, events, f);
      ReplayGivesCurrent(start, events, f);
      PlainIsColumn(start, f);
      PlainIsColumn(Current(start, events), f);
    }
  }

  /** Over every run in which no import changed the column, replaying it gives what the die has in it now. */
  lemma ReplayGivesColumns(start: DieRow, events: seq<Event>)
    ensures var log, now := Log(start, events), Current(start, events);
            && (ImportsLeave(start, events, "status") ==> Replay(start.status, log, "status") == now.status)
            && (ImportsLeave(start, events, "rack_id") ==>
                  Replay(OptionText(start.rack), log, "rack_id") == OptionText(now.rack))
            && (ImportsLeave(start, events, "shelf_number") ==>
                  Replay(OptionText(start.shelf), log, "shelf_number") == OptionText(now.shelf))
            && (ImportsLeave(start, events, "remarks") ==> Replay(start.remarks, log, "remarks") == now.remarks)
            && (ImportsLeave(start, events, "die_id") ==> Replay(start.dieId, log, "die_id") == now.dieId)
            && (ImportsLeave(start, events, "casing") ==> Replay(start.casing, log, "casing") == now.casing)
  {
    ColumnTexts(start);
    ColumnTexts(Current(start, events));
    ColumnReplays(start, events, Status);
    ColumnReplays(start, events, RackId);
    ColumnReplays(start, events, ShelfNumber);
    ColumnReplays(start, events, Remarks);
    ColumnReplays(start, events, DieId);
    ColumnReplays(start, events, Casing);
  }

  // ---------------------------------------------------------------- the row itself

  /** The last save or import of a run is what the die has become. */
  lemma {:induction false} RowIsLastWritten(start: DieRow, events: seq<Event>, n: nat)
    requires n < |events| && !events[n].Sized? && forall i :: n < i < |events| ==> events[i].Sized?
    ensures Current(start, events) == events[n].row
  {
    if n < |events| - 1 {
      RowIsLastWritten(start, events[..|events| - 1], n);
    }
  }
}
