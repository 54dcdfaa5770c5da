/**
 Bulk import of dies: what one row asks for, and what a whole file does to the tables.
 Whether a row is accepted depends on the row and on the sets and racks read beforehand,
 never on the die tables.
 */
module ImportModel {
  import opened Options
  import opened Decimals
  import opened Texts

  datatype Result<+T> = Ok(value: T) | Err(error: RowError) {
    predicate IsFailure() {
      Err?
    }

    function PropagateFailure<U>(): Result<U>
      requires IsFailure()
    {
      Err(error)
    }

    function Extract(): T
      requires !IsFailure()
    {
      value
    }
  }

  datatype RowError =
    | MissingValue(column: string) | BadDieId | BadDieType | BadStatus
    | NoSuchRack | BadShelf | ShelfRequired | RackRequired | ShelfTooSmall | ShelfTooLarge
    | NoSuchSetId | NoSuchSetName | AmbiguousSet | NoSetUnderMachine | ManySetsUnderMachine
    | DoesNotFit | BadDecimal(column: string)

  // ---------------------------------------------------------------- tables

  datatype DieType = ROUND | FLAT
  datatype Set = Set(id: nat, name: string, machine: string)
  datatype Rack = Rack(id: nat, rowCount: int, columnCount: int)
  datatype Info = Info(dieType: DieType, casing: string, status: string,
                       rack: Option<nat>, shelf: Option<int>, remarks: string, currentSet: Option<nat>)
  datatype Die = Die(pk: nat, info: Info)
  datatype RoundSizes = RoundSizes(punched: int, current: int)
  datatype FlatSizes = FlatSizes(punchedWidth: int, currentWidth: int,
                                 punchedThickness: int, currentThickness: int, radius: int)
  datatype Sizes = OfRound(round: RoundSizes) | OfFlat(flat: FlatSizes)

  /** The die tables; `nextPk` is the sequence new primary keys come from. */
  datatype Store = Store(dies: map<string, Die>, rounds: map<nat, RoundSizes>, flats: map<nat, FlatSizes>, nextPk: nat)

  /** How `float` and `int` read a set id. */
  datatype Numeric = NotNumeric | NoInteger | Integer(id: int)

  /**
   What the import reads before its first row, and how texts become numbers: `sizeOf`
   gives a decimal in thousandths, or nothing if the text is no decimal.
   */
  datatype Book = Book(sets: seq<Set>, racks: map<string, Rack>, numeric: string -> Numeric,
      sizeOf: string -> Option<int>)

  type Row = map<string, string>

  // ---------------------------------------------------------------- one row

  const STATUSES: set<string> := {
    "AVAILABLE", "RUNNING", "CLEANING", "POLISHING", "DAMAGED", "SCRAPPED", "MISSING", "MAINTENANCE"
  }

  const MAX_SHELF: int := 32767

  function Cell(row: Row, column: string): Option<string> {
    if column in row then Some(row[column]) else None
  }

  predicate Truthy(cell: Option<string>) {
    cell.Some? && cell.value != ""
  }

  /** Python's `a or b` on cells. */
  function Or(a: Option<string>, b: Option<string>): Option<string> {
    if Truthy(a) then a else b
  }

  predicate IsDieIdChar(c: char) {
    'a' <= c <= 'z' || 'A' <= c <= 'Z' || '0' <= c <= '9' || c in "_-./"
  }

  function ReadDieId(row: Row): Result<string> {
    var cell := Cell(row, "die_id");
    if !Truthy(cell) then Err(MissingValue("die_id"))
    else
      var id := Strip(cell.value);
      if id == "" || exists i :: 0 <= i < |id| && !IsDieIdChar(id[i]) then Err(BadDieId) else Ok(id)
  }

  function ReadDieType(row: Row): Result<DieType> {
    var cell := Cell(row, "die_type");
    if !Truthy(cell) then Err(MissingValue("die_type"))
    else
      var name := Upper(Strip(cell.value));
      if name == "ROUND" then Ok(ROUND) else if name == "FLAT" then Ok(FLAT) else Err(BadDieType)
  }

  function ReadStatus(row: Row): Result<string> {
    var cell := Cell(row, "status");
    if !Truthy(cell) then Ok("AVAILABLE")
    else
      var status := Upper(Strip(cell.value));
      if status in STATUSES then Ok(status) else Err(BadStatus)
  }

  function ReadRack(book: Book, row: Row): Result<Option<Rack>> {
    var cell := Cell(row, "rack");
    if !Truthy(cell) then Ok(None)
    else
      var name := Lower(Strip(cell.value));
      if name in book.racks then Ok(Some(book.racks[name])) else Err(NoSuchRack)
  }

  /** A shelf column that is there but blank is refused. */
  function ReadShelf(row: Row): Result<Option<int>> {
    match Cell(row, "shelf_number")
    case None => Ok(None)
    case Some(text) =>
      match ToInt(text)
      case None => Err(BadShelf)
      case Some(n) => Ok(Some(n))
  }

  function CheckLocation(rack: Option<Rack>, shelf: Option<int>): Result<()> {
    if rack.None? && shelf.None? then Ok(())
    else if shelf.None? then Err(ShelfRequired)
    else if rack.None? then Err(RackRequired)
    else if shelf.value < 1 then Err(ShelfTooSmall)
    else if shelf.value > rack.value.rowCount * rack.value.columnCount then Err(ShelfTooLarge)
    else Ok(())
  }

  function SetWithId(sets: seq<Set>, id: int): Option<nat> {
    if sets == [] then None
    else if sets[|sets| - 1].id == id then Some(id)
    else SetWithId(sets[..|sets| - 1], id)
  }

  function Named(sets: seq<Set>, name: string): seq<Set> {
    if sets == [] then []
    else Named(sets[..|sets| - 1], name)
         + if Lower(sets[|sets| - 1].name) == name then [sets[|sets| - 1]] else []
  }

  function UnderMachine(sets: seq<Set>, machine: string): seq<Set> {
    if sets == [] then []
    else UnderMachine(sets[..|sets| - 1], machine)
         + if Lower(sets[|sets| - 1].machine) == machine then [sets[|sets| - 1]] else []
  }

  function SetByName(sets: seq<Set>, name: string, machine: Option<string>): Result<Option<nat>> {
    var matches := Named(sets, Lower(Strip(name)));
    if |matches| == 1 then Ok(Some(matches[0].id))
    else if matches == [] then Err(NoSuchSetName)
    else if !Truthy(machine) then Err(AmbiguousSet)
    else
      var filtered := UnderMachine(matches, Lower(Strip(machine.value)));
      if |filtered| == 1 then Ok(Some(filtered[0].id))
      else if filtered == [] then Err(NoSetUnderMachine)
      else Err(ManySetsUnderMachine)
  }

  function ResolveSet(book: Book, row: Row): Result<Option<nat>> {
    var current := Or(Cell(row, "current_set"), Cell(row, "current_set_id"));
    var named := Cell(row, "set_name");
    var machine := Or(Cell(row, "machine_name"), Cell(row, "machine"));
    if Truthy(current) then
      var text := Strip(current.value);
      match book.numeric(text)
      case Integer(id) =>
        (match SetWithId(book.sets, id)
         case Some(found) => Ok(Some(found))
         case None => Err(NoSuchSetId))
      case NoInteger => Err(NoSuchSetId)
      case NotNumeric => if text == "" then Ok(None) else SetByName(book.sets, text, machine)
    else if Truthy(named) then SetByName(book.sets, named.value, machine)
    else Ok(None)
  }

  function ReadSize(book: Book, cell: Option<string>, column: string): Result<int> {
    if !Truthy(cell) then Err(MissingValue(column))
    else match book.sizeOf(cell.value)
         case Some(size) => Ok(size)
         case None => Err(BadDecimal(column))
  }

  function ReadSizes(book: Book, row: Row, dieType: DieType): (r: Result<Sizes>)
    ensures r.Ok? ==> (r.value.OfRound? <==> dieType == ROUND)
  {
    match dieType
    case ROUND =>
      var punched :- ReadSize(book, Or(Cell(row, "punched_size"), Cell(row, "original_size")), "punched_size");
      var current :- ReadSize(book, Cell(row, "current_size"), "current_size");
      Ok(OfRound(RoundSizes(punched, current)))
    case FLAT =>
      var punchedWidth :- ReadSize(book, Or(Cell(row, "punched_width"), Cell(row, "original_width")), "punched_width");
      var currentWidth :- ReadSize(book, Cell(row, "current_width"), "current_width");
      var punchedThickness :-
        ReadSize(book, Or(Cell(row, "punched_thickness"), Cell(row, "original_thickness")), "punched_thickness");
      var currentThickness :- ReadSize(book, Cell(row, "current_thickness"), "current_thickness");
      var radius :- ReadSize(book, Cell(row, "radius"), "radius");
      Ok(OfFlat(FlatSizes(punchedWidth, currentWidth, punchedThickness, currentThickness, radius)))
  }

  /** Everything checked before the die row is written. */
  function ReadDie(book: Book, row: Row): Result<(string, Info)> {
    var dieId :- ReadDieId(row);
    var dieType :- ReadDieType(row);
    var casing := Cell(row, "casing");
    if !Truthy(casing) then Err(MissingValue("casing"))
    else
      var status :- ReadStatus(row);
      var rack :- ReadRack(book, row);
      var shelf :- ReadShelf(row);
      var _ :- CheckLocation(rack, shelf);
      var remarks := match Cell(row, "remarks") case Some(text) => Strip(text) case None => "";
      var currentSet :- ResolveSet(book, row);
      var rackId := match rack case Some(r) => Some(r.id) case None => None;
      Ok((dieId, Info(dieType, Strip(casing.value), status, rackId, shelf, remarks, currentSet)))
  }

  /** The widths of the columns a die row is written to. */
  predicate Fits(dieId: string, info: Info) {
    |dieId| <= 50 && |info.casing| <= 50 && (info.shelf.Some? ==> info.shelf.value <= MAX_SHELF)
  }

  const MAX_SIZE: int := 9_999_999

  /** Seven digits, three of them decimals. */
  predicate SizeFits(z: int) {
    -MAX_SIZE <= z <= MAX_SIZE
  }

  predicate SizesFit(z: Sizes) {
    match z
    case OfRound(r) => SizeFits(r.punched) && SizeFits(r.current)
    case OfFlat(f) =>
      SizeFits(f.punchedWidth) && SizeFits(f.currentWidth)
      && SizeFits(f.punchedThickness) && SizeFits(f.currentThickness) && SizeFits(f.radius)
  }

  datatype Plan = Plan(dieId: string, info: Info, sizes: Sizes)

  /** How far a row gets: refused at once, undone after the die row was written, or accepted. */
  datatype Outcome = Refused(error: RowError) | Undone(dieId: string, why: RowError) | Accepted(plan: Plan)

  function Check(book: Book, row: Row): (o: Outcome)
    ensures o.Accepted? ==> (o.plan.sizes.OfRound? <==> o.plan.info.dieType == ROUND)
  {
    match ReadDie(book, row)
    case Err(e) => Refused(e)
    case Ok((dieId, info)) =>
      if !Fits(dieId, info) then Refused(DoesNotFit)
      else match ReadSizes(book, row, info.dieType)
           case Err(e) => Undone(dieId, e)
           case Ok(sizes) =>
             if SizesFit(sizes) then Accepted(Plan(dieId, info, sizes)) else Undone(dieId, DoesNotFit)
  }

  function Failure(o: Outcome): RowError
    requires !o.Accepted?
  {
    match o
    case Refused(e) => e
    case Undone(_, e) => e
  }

  // ---------------------------------------------------------------- a whole file

  function PkFor(s: Store, dieId: string): nat {
    if dieId in s.dies then s.dies[dieId].pk else s.nextPk
  }

  function SequenceAfter(s: Store, dieId: string): nat {
    if dieId in s.dies then s.nextPk else s.nextPk + 1
  }

  function Upsert(s: Store, p: Plan): Store {
    var pk := PkFor(s, p.dieId);
    Store(s.dies[p.dieId := Die(pk, p.info)],
          match p.sizes case OfRound(z) => s.rounds[pk := z] case OfFlat(_) => s.rounds,
          match p.sizes case OfFlat(z) => s.flats[pk := z] case OfRound(_) => s.flats,
          SequenceAfter(s, p.dieId))
  }

  /** A row that fails leaves the tables as they were; a key drawn for it stays drawn. */
  function After(s: Store, o: Outcome): Store {
    match o
    case Refused(_) => s
    case Undone(dieId, _) => s.(nextPk := SequenceAfter(s, dieId))
    case Accepted(p) => Upsert(s, p)
  }

  /** The outcome of each row, a matter of the row alone. */
  function Outcomes(book: Book, rows: seq<Row>): (os: seq<Outcome>)
    ensures |os| == |rows|
  {
    if rows == [] then []
    else Outcomes(book, rows[..|rows| - 1]) + [Check(book, rows[|rows| - 1])]
  }

  lemma {:induction false} OutcomeAt(book: Book, rows: seq<Row>, i: nat)
    requires i < |rows|
    ensures Outcomes(book, rows)[i] == Check(book, rows[i])
  {
    if i < |rows| - 1 {
      OutcomeAt(book, rows[..|rows| - 1], i);
    }
  }

  function Imported(s: Store, os: seq<Outcome>): Store {
    if os == [] then s
    else After(Imported(s, os[..|os| - 1]), os[|os| - 1])
  }

  function Creates(s: Store, o: Outcome): nat {
    if o.Accepted? && o.plan.dieId !in s.dies then 1 else 0
  }

  function Created(s: Store, os: seq<Outcome>): nat {
    if os == [] then 0
    else Created(s, os[..|os| - 1])
         + Creates(Imported(s, os[..|os| - 1]), os[|os| - 1])
  }

  /** What a dry run counts as created: every row meets the tables as they were. */
  function DryCreated(s: Store, os: seq<Outcome>): nat {
    if os == [] then 0
    else DryCreated(s, os[..|os| - 1]) + Creates(s, os[|os| - 1])
  }

  function AcceptedCount(os: seq<Outcome>): nat {
    if os == [] then 0
    else AcceptedCount(os[..|os| - 1]) + if os[|os| - 1].Accepted? then 1 else 0
  }

  /** The primary keys handed to the search index, one for each accepted row. */
  function SyncedKeys(s: Store, os: seq<Outcome>): seq<nat> {
    if os == [] then []
    else
      var o := os[|os| - 1];
      SyncedKeys(s, os[..|os| - 1])
      + if o.Accepted? then [PkFor(Imported(s, os[..|os| - 1]), o.plan.dieId)] else []
  }

  // ---------------------------------------------------------------- what stays true

  /** Primary keys are drawn from the sequence, one for each die; size rows belong to dies. */
  ghost predicate Inv(s: Store) {
    && (forall d :: d in s.dies ==> s.dies[d].pk < s.nextPk)
    && (forall d, e :: d in s.dies && e in s.dies && s.dies[d].pk == s.dies[e].pk ==> d == e)
    && (forall k :: k in s.rounds ==> exists d :: d in s.dies && s.dies[d].pk == k)
    && (forall k :: k in s.flats ==> exists d :: d in s.dies && s.dies[d].pk == k)
  }

  lemma OwnerSurvives(s: Store, t: Store, k: nat)
    requires forall d :: d in s.dies ==> d in t.dies && t.dies[d].pk == s.dies[d].pk
    requires exists d :: d in s.dies && s.dies[d].pk == k
    ensures exists d :: d in t.dies && t.dies[d].pk == k
  {
    var d :| d in s.dies && s.dies[d].pk == k;
    assert d in t.dies;
  }

  lemma UpsertKeepsKeys(s: Store, p: Plan)
    requires Inv(s)
    ensures var t := Upsert(s, p);
            && (forall d :: d in t.dies ==> t.dies[d].pk < t.nextPk)
            && (forall d, e :: d in t.dies && e in t.dies && t.dies[d].pk == t.dies[e].pk ==> d == e)
  {
  }

  lemma UpsertKeepsOwner(s: Store, p: Plan, k: nat)
    requires k == PkFor(s, p.dieId) || exists d :: d in s.dies && s.dies[d].pk == k
    ensures exists d :: d in Upsert(s, p).dies && Upsert(s, p).dies[d].pk == k
  {
    var t := Upsert(s, p);
    if k == PkFor(s, p.dieId) {
      assert t.dies[p.dieId].pk == k;
    } else {
      OwnerSurvives(s, t, k);
    }
  }

  lemma UpsertKeepsInv(s: Store, p: Plan)
    requires Inv(s)
    ensures Inv(Upsert(s, p))
  {
    var t := Upsert(s, p);
    UpsertKeepsKeys(s, p);
    forall k | k in t.rounds || k in t.flats ensures exists d :: d in t.dies && t.dies[d].pk == k {
      UpsertKeepsOwner(s, p, k);
    }
  }

  lemma {:induction false} ImportKeepsInv(s: Store, os: seq<Outcome>)
    requires Inv(s)
    ensures Inv(Imported(s, os))
  {
    if os != [] {
      ImportKeepsInv(s, os[..|os| - 1]);
      var o := os[|os| - 1];
      if o.Accepted? {
        UpsertKeepsInv(Imported(s, os[..|os| - 1]), o.plan);
      }
    }
  }
}
