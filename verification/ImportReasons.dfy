/**
 What an import reports: for every row that is not accepted, the reason, column by column in
 the order the columns are looked at; the line, die and reason in the list of errors; and the
 keys handed to the search index.
 */
module ImportReasons {
  import opened Options
  import opened Decimals
  import opened Texts
  import opened ImportModel
  import opened ImportRows
  import opened ImportService
  import P = ImportProperties

  // ---------------------------------------------------------------- one column after the other

  predicate IdReads(row: Row) {
    Has(row, "die_id") && Strip(row["die_id"]) != ""
    && forall i :: 0 <= i < |Strip(row["die_id"])| ==> IsDieIdChar(Strip(row["die_id"])[i])
  }

  predicate TypeReads(row: Row) {
    Has(row, "die_type") && Upper(Strip(row["die_type"])) in {"ROUND", "FLAT"}
  }

  predicate StatusReads(row: Row) {
    Has(row, "status") ==> Upper(Strip(row["status"])) in STATUSES
  }

  predicate RackReads(book: Book, row: Row) {
    Has(row, "rack") ==> Lower(Strip(row["rack"])) in book.racks
  }

  predicate ShelfReads(row: Row) {
    "shelf_number" in row ==> ToInt(row["shelf_number"]).Some?
  }

  /** Rack and shelf are both there, and can be read. */
  predicate Placed(book: Book, row: Row) {
    Has(row, "rack") && "shelf_number" in row && RackReads(book, row) && ShelfReads(row)
  }

  function Places(book: Book, row: Row): int
    requires Placed(book, row)
  {
    var rack := book.racks[Lower(Strip(row["rack"]))];
    rack.rowCount * rack.columnCount
  }

  predicate PlaceReads(book: Book, row: Row) {
    && (Has(row, "rack") <==> "shelf_number" in row)
    && (Placed(book, row) ==> 1 <= ToInt(row["shelf_number"]).value <= Places(book, row))
  }

  // ---------------------------------------------------------------- the set columns

  function CurrentSetCell(row: Row): Option<string> {
    if Has(row, "current_set") then Some(Strip(row["current_set"]))
    else if Has(row, "current_set_id") then Some(Strip(row["current_set_id"]))
    else None
  }

  /** The set name that decides: a set column that is no number, or else the name column. */
  function NameCell(book: Book, row: Row): Option<string> {
    match CurrentSetCell(row)
    case Some(text) => if book.numeric(text).NotNumeric? && text != "" then Some(text) else None
    case None => if Has(row, "set_name") then Some(row["set_name"]) else None
  }

  function MachineCell(row: Row): Option<string> {
    if Has(row, "machine_name") then Some(row["machine_name"])
    else if Has(row, "machine") then Some(row["machine"])
    else None
  }

  ghost predicate SetIdUnknown(book: Book, row: Row) {
    match CurrentSetCell(row)
    case None => false
    case Some(text) =>
      match book.numeric(text)
      case Integer(id) => forall x :: x in book.sets ==> x.id != id
      case NoInteger => true
      case NotNumeric => false
  }

  ghost predicate NoneNamed(book: Book, name: string) {
    forall x :: x in book.sets ==> Lower(x.name) != Lower(Strip(name))
  }

  ghost predicate TwoNamed(book: Book, name: string) {
    exists x, y :: x in book.sets && y in book.sets && x != y
                   && Lower(x.name) == Lower(Strip(name)) == Lower(y.name)
  }

  predicate IsUnder(x: Set, name: string, machine: string) {
    Lower(x.name) == Lower(Strip(name)) && Lower(x.machine) == Lower(Strip(machine))
  }

  ghost predicate NoneUnder(book: Book, name: string, machine: string) {
    forall x :: x in book.sets ==> !IsUnder(x, name, machine)
  }

  ghost predicate TwoUnder(book: Book, name: string, machine: string) {
    exists x, y :: x in book.sets && y in book.sets && x != y && IsUnder(x, name, machine) && IsUnder(y, name, machine)
  }

  ghost predicate SetReads(book: Book, row: Row) {
    && !SetIdUnknown(book, row)
    && (NameCell(book, row).Some? ==>
          var name := NameCell(book, row).value;
          && !NoneNamed(book, name)
          && (TwoNamed(book, name) ==>
                && MachineCell(row).Some?
                && !NoneUnder(book, name, MachineCell(row).value)
                && !TwoUnder(book, name, MachineCell(row).value)))
  }

  /** What is wrong with a set column that does not read. */
  ghost predicate SetFault(book: Book, row: Row, e: RowError) {
    match e
    case NoSuchSetId => SetIdUnknown(book, row)
    case NoSuchSetName => NameCell(book, row).Some? && NoneNamed(book, NameCell(book, row).value)
    case AmbiguousSet =>
      NameCell(book, row).Some? && TwoNamed(book, NameCell(book, row).value) && MachineCell(row).None?
    case NoSetUnderMachine =>
      NameCell(book, row).Some? && TwoNamed(book, NameCell(book, row).value)
      && MachineCell(row).Some? && NoneUnder(book, NameCell(book, row).value, MachineCell(row).value)
    case ManySetsUnderMachine =>
      NameCell(book, row).Some? && TwoNamed(book, NameCell(book, row).value)
      && MachineCell(row).Some? && TwoUnder(book, NameCell(book, row).value, MachineCell(row).value)
    case _ => false
  }

  // ---------------------------------------------------------------- the sizes

  /** The columns of the sizes, each with the older column that stands in for it, if any. */
  function SizeColumns(t: DieType): seq<(string, string)> {
    match t
    case ROUND => [("punched_size", "original_size"), ("current_size", "")]
    case FLAT =>
      [("punched_width", "original_width"), ("current_width", ""), ("punched_thickness", "original_thickness"),
       ("current_thickness", ""), ("radius", "")]
  }

  function SizeCell(row: Row, columns: (string, string)): Option<string> {
    if Has(row, columns.0) then Some(row[columns.0])
    else if columns.1 != "" && Has(row, columns.1) then Some(row[columns.1])
    else None
  }

  predicate SizeReads(book: Book, row: Row, columns: (string, string)) {
    SizeCell(row, columns).Some? && book.sizeOf(SizeCell(row, columns).value).Some?
  }

  /** Size `k` is the first that does not read. */
  predicate FirstBadSize(book: Book, row: Row, t: DieType, k: nat) {
    && k < |SizeColumns(t)| && !SizeReads(book, row, SizeColumns(t)[k])
    && forall m :: 0 <= m < k ==> SizeReads(book, row, SizeColumns(t)[m])
  }

  function SizeError(row: Row, columns: (string, string)): RowError {
    if SizeCell(row, columns).None? then MissingValue(columns.0) else BadDecimal(columns.0)
  }

  predicate SizesRead(book: Book, row: Row, t: DieType) {
    forall m :: 0 <= m < |SizeColumns(t)| ==> SizeReads(book, row, SizeColumns(t)[m])
  }

  predicate SizesHold(book: Book, row: Row, t: DieType)
    requires SizesRead(book, row, t)
  {
    forall m :: 0 <= m < |SizeColumns(t)| ==> SizeFits(book.sizeOf(SizeCell(row, SizeColumns(t)[m]).value).value)
  }

  // ---------------------------------------------------------------- the reason

  /** The first `n` things looked at are as they should be. */
  ghost predicate Passes(book: Book, row: Row, n: nat) {
    && (n >= 1 ==> IdReads(row))
    && (n >= 2 ==> TypeReads(row))
    && (n >= 3 ==> Has(row, "casing"))
    && (n >= 4 ==> StatusReads(row))
    && (n >= 5 ==> RackReads(book, row))
    && (n >= 6 ==> ShelfReads(row))
    && (n >= 7 ==> PlaceReads(book, row))
    && (n >= 8 ==> SetReads(book, row))
    && (n >= 9 ==> RowFits(row))
  }

  /** The die row is no wider than its columns. */
  predicate RowFits(row: Row) {
    && (Has(row, "die_id") ==> |Strip(row["die_id"])| <= 50)
    && (Has(row, "casing") ==> |Strip(row["casing"])| <= 50)
    && ("shelf_number" in row && ToInt(row["shelf_number"]).Some? ==> ToInt(row["shelf_number"]).value <= MAX_SHELF)
  }

  function TypeOf(row: Row): DieType
    requires TypeReads(row)
  {
    if Upper(Strip(row["die_type"])) == "ROUND" then ROUND else FLAT
  }

  ghost predicate SizeFault(book: Book, row: Row, e: RowError)
    requires TypeReads(row)
  {
    var t := TypeOf(row);
    || (exists k: nat :: FirstBadSize(book, row, t, k) && e == SizeError(row, SizeColumns(t)[k]))
    || (SizesRead(book, row, t) && !SizesHold(book, row, t) && e == DoesNotFit)
  }

  /** What is wrong with the `n`th thing looked at, the earlier ones being as they should. */
  ghost predicate FaultAt(book: Book, row: Row, n: nat, e: RowError) {
    match n
    case 1 => if Has(row, "die_id") then !IdReads(row) && e == BadDieId else e == MissingValue("die_id")
    case 2 => if Has(row, "die_type") then !TypeReads(row) && e == BadDieType else e == MissingValue("die_type")
    case 3 => !Has(row, "casing") && e == MissingValue("casing")
    case 4 => !StatusReads(row) && e == BadStatus
    case 5 => !RackReads(book, row) && e == NoSuchRack
    case 6 => !ShelfReads(row) && e == BadShelf
    case 7 =>
      if Has(row, "rack") && "shelf_number" !in row then e == ShelfRequired
      else if !Has(row, "rack") && "shelf_number" in row then e == RackRequired
      else Placed(book, row) && var shelf := ToInt(row["shelf_number"]).value;
           if shelf < 1 then e == ShelfTooSmall else shelf > Places(book, row) && e == ShelfTooLarge
    case 8 => SetFault(book, row, e)
    case 9 => !RowFits(row) && e == DoesNotFit
    case 10 => TypeReads(row) && SizeFault(book, row, e)
    case _ => false
  }

  // ---------------------------------------------------------------- the readers, each on its own

  lemma IdIsRead(book: Book, row: Row)
    ensures ReadDieId(row).Ok? <==> IdReads(row)
    ensures ReadDieId(row).Ok? ==> ReadDieId(row).value == Strip(row["die_id"])
    ensures ReadDieId(row).Err? ==> FaultAt(book, row, 1, ReadDieId(row).error)
  {
  }

  lemma TypeIsRead(book: Book, row: Row)
    ensures ReadDieType(row).Ok? <==> TypeReads(row)
    ensures TypeReads(row) ==> ReadDieType(row).value == TypeOf(row)
    ensures ReadDieType(row).Err? ==> FaultAt(book, row, 2, ReadDieType(row).error)
  {
  }

  lemma StatusIsRead(book: Book, row: Row)
    ensures ReadStatus(row).Ok? <==> StatusReads(row)
    ensures ReadStatus(row).Err? ==> FaultAt(book, row, 4, ReadStatus(row).error)
  {
  }

  lemma RackIsRead(book: Book, row: Row)
    ensures ReadRack(book, row).Ok? <==> RackReads(book, row)
    ensures ReadRack(book, row).Err? ==> FaultAt(book, row, 5, ReadRack(book, row).error)
    ensures RackReads(book, row) ==>
              ReadRack(book, row).value
              == if Has(row, "rack") then Some(book.racks[Lower(Strip(row["rack"]))]) else None
  {
  }

  lemma ShelfIsRead(book: Book, row: Row)
    ensures ReadShelf(row).Ok? <==> ShelfReads(row)
    ensures ReadShelf(row).Err? ==> FaultAt(book, row, 6, ReadShelf(row).error)
    ensures ShelfReads(row) ==>
              ReadShelf(row).value == if "shelf_number" in row then ToInt(row["shelf_number"]) else None
  {
  }

  lemma PlaceIsChecked(book: Book, row: Row)
    requires RackReads(book, row) && ShelfReads(row)
    ensures var r := CheckLocation(ReadRack(book, row).value, ReadShelf(row).value);
            && (r.Ok? <==> PlaceReads(book, row))
            && (r.Err? ==> FaultAt(book, row, 7, r.error))
  {
    RackIsRead(book, row);
    ShelfIsRead(book, row);
  }

  lemma CountByMembers(found: seq<Set>)
    requires P.Distinct(found)
    ensures found == [] <==> forall x :: x !in found
    ensures |found| > 1 <==> exists x, y :: x in found && y in found && x != y
  {
    if found != [] {
      assert found[0] in found;
    }
    if |found| > 1 {
      P.TwoDiffer(found);
    }
  }

  lemma HowManyNamed(book: Book, name: string)
    requires P.Distinct(book.sets)
    ensures var matches := Named(book.sets, Lower(Strip(name)));
            (matches == [] <==> NoneNamed(book, name)) && (|matches| > 1 <==> TwoNamed(book, name))
  {
    P.NamedAreTheMatches(book.sets, Lower(Strip(name)));
    P.NamedIsDistinct(book.sets, Lower(Strip(name)));
    CountByMembers(Named(book.sets, Lower(Strip(name))));
  }

  lemma FoundUnder(book: Book, name: string, machine: string)
    requires P.Distinct(book.sets)
    ensures var found := UnderMachine(Named(book.sets, Lower(Strip(name))), Lower(Strip(machine)));
            P.Distinct(found) && forall x :: x in found <==> x in book.sets && IsUnder(x, name, machine)
  {
    var matches := Named(book.sets, Lower(Strip(name)));
    P.NamedAreTheMatches(book.sets, Lower(Strip(name)));
    P.NamedIsDistinct(book.sets, Lower(Strip(name)));
    P.UnderMachineAreTheMatches(matches, Lower(Strip(machine)));
    P.UnderMachineIsDistinct(matches, Lower(Strip(machine)));
  }

  lemma HowManyUnder(book: Book, name: string, machine: string)
    requires P.Distinct(book.sets)
    ensures var found := UnderMachine(Named(book.sets, Lower(Strip(name))), Lower(Strip(machine)));
            (found == [] <==> NoneUnder(book, name, machine)) && (|found| > 1 <==> TwoUnder(book, name, machine))
  {
    FoundUnder(book, name, machine);
    CountByMembers(UnderMachine(Named(book.sets, Lower(Strip(name))), Lower(Strip(machine))));
  }

  lemma NameIsResolved(book: Book, name: string, machine: Option<string>)
    requires P.Distinct(book.sets)
    ensures var r := SetByName(book.sets, name, machine);
            match r
            case Ok(_) =>
              !NoneNamed(book, name)
              && (TwoNamed(book, name) ==>
                    Truthy(machine) && !NoneUnder(book, name, machine.value) && !TwoUnder(book, name, machine.value))
            case Err(e) =>
              || (e == NoSuchSetName && NoneNamed(book, name))
              || (e == AmbiguousSet && TwoNamed(book, name) && !Truthy(machine))
              || (TwoNamed(book, name) && Truthy(machine)
                  && (if e == NoSetUnderMachine then NoneUnder(book, name, machine.value)
                      else e == ManySetsUnderMachine && TwoUnder(book, name, machine.value)))
  {
    HowManyNamed(book, name);
    if Truthy(machine) {
      HowManyUnder(book, name, machine.value);
    }
  }

  lemma CellsAreFound(row: Row)
    ensures var current := Or(Cell(row, "current_set"), Cell(row, "current_set_id"));
            && (Truthy(current) <==> CurrentSetCell(row).Some?)
            && (Truthy(current) ==> CurrentSetCell(row) == Some(Strip(current.value)))
    ensures var machine := Or(Cell(row, "machine_name"), Cell(row, "machine"));
            && (Truthy(machine) <==> MachineCell(row).Some?)
            && (Truthy(machine) ==> MachineCell(row) == machine)
  {
  }

  lemma SetIsResolved(book: Book, row: Row)
    requires P.Distinct(book.sets)
    ensures ResolveSet(book, row).Ok? ==> SetReads(book, row)
    ensures ResolveSet(book, row).Err? ==> SetFault(book, row, ResolveSet(book, row).error)
  {
    CellsAreFound(row);
    var machine := Or(Cell(row, "machine_name"), Cell(row, "machine"));
    match CurrentSetCell(row) {
      case Some(text) =>
        if book.numeric(text).Integer? {
          SetWithIdExists(book.sets, book.numeric(text).id);
        } else if book.numeric(text).NotNumeric? && text != "" {
          NameIsResolved(book, text, machine);
        }
      case None =>
        if Has(row, "set_name") {
          NameIsResolved(book, row["set_name"], machine);
        }
    }
  }

  // ---------------------------------------------------------------- sizes and the whole row

  lemma SizeIsRead(book: Book, row: Row, column: string, older: string, cell: Option<string>)
    requires cell == if older == "" then Cell(row, column) else Or(Cell(row, column), Cell(row, older))
    ensures var r := ReadSize(book, cell, column);
            && (r.Ok? <==> SizeReads(book, row, (column, older)))
            && (r.Ok? ==> SizeCell(row, (column, older)).Some?
                          && book.sizeOf(SizeCell(row, (column, older)).value) == Some(r.value))
            && (r.Err? ==> r.error == SizeError(row, (column, older)))
  {
  }

  lemma RoundSizesAreRead(book: Book, row: Row)
    ensures var r := ReadSizes(book, row, ROUND);
            && (r.Ok? <==> SizesRead(book, row, ROUND))
            && (r.Ok? ==> (SizesFit(r.value) <==> SizesHold(book, row, ROUND)))
            && (r.Err? ==> exists k: nat :: FirstBadSize(book, row, ROUND, k)
                                            && r.error == SizeError(row, SizeColumns(ROUND)[k]))
  {
    var columns := SizeColumns(ROUND);
    SizeIsRead(book, row, "punched_size", "original_size", Or(Cell(row, "punched_size"), Cell(row, "original_size")));
    SizeIsRead(book, row, "current_size", "", Cell(row, "current_size"));
    assert |columns| == 2 && columns[0] == ("punched_size", "original_size") && columns[1] == ("current_size", "");
    if !SizeReads(book, row, columns[0]) {
      assert FirstBadSize(book, row, ROUND, 0);
    } else if !SizeReads(book, row, columns[1]) {
      assert FirstBadSize(book, row, ROUND, 1);
    }
  }

  lemma FlatColumns()
    ensures var columns := SizeColumns(FLAT);
            && |columns| == 5
            && columns[0] == ("punched_width", "original_width") && columns[1] == ("current_width", "")
            && columns[2] == ("punched_thickness", "original_thickness") && columns[3] == ("current_thickness", "")
            && columns[4] == ("radius", "")
  {
  }

  /** Each flat size on its own. */
  lemma FlatSizesOneByOne(book: Book, row: Row)
    ensures var r := ReadSizes(book, row, FLAT);
            var columns := SizeColumns(FLAT);
            if !SizeReads(book, row, columns[0]) then r == Err(SizeError(row, columns[0]))
            else if !SizeReads(book, row, columns[1]) then r == Err(SizeError(row, columns[1]))
            else if !SizeReads(book, row, columns[2]) then r == Err(SizeError(row, columns[2]))
            else if !SizeReads(book, row, columns[3]) then r == Err(SizeError(row, columns[3]))
            else if !SizeReads(book, row, columns[4]) then r == Err(SizeError(row, columns[4]))
            else r.Ok? && r.value == OfFlat(FlatSizes(
              SizeIn(book, row, columns[0]), SizeIn(book, row, columns[1]), SizeIn(book, row, columns[2]),
              SizeIn(book, row, columns[3]), SizeIn(book, row, columns[4])))
  {
    FlatColumns();
    SizeIsRead(book, row, "punched_width", "original_width",
               Or(Cell(row, "punched_width"), Cell(row, "original_width")));
    SizeIsRead(book, row, "current_width", "", Cell(row, "current_width"));
    SizeIsRead(book, row, "punched_thickness", "original_thickness",
               Or(Cell(row, "punched_thickness"), Cell(row, "original_thickness")));
    SizeIsRead(book, row, "current_thickness", "", Cell(row, "current_thickness"));
    SizeIsRead(book, row, "radius", "", Cell(row, "radius"));
  }

  function SizeIn(book: Book, row: Row, columns: (string, string)): int
    requires SizeReads(book, row, columns)
  {
    book.sizeOf(SizeCell(row, columns).value).value
  }

  lemma FirstBadFlatSize(book: Book, row: Row)
    requires ReadSizes(book, row, FLAT).Err?
    ensures exists k: nat :: FirstBadSize(book, row, FLAT, k)
                             && ReadSizes(book, row, FLAT).error == SizeError(row, SizeColumns(FLAT)[k])
  {
    var columns := SizeColumns(FLAT);
    FlatSizesOneByOne(book, row);
    if !SizeReads(book, row, columns[0]) {
      assert FirstBadSize(book, row, FLAT, 0);
    } else if !SizeReads(book, row, columns[1]) {
      assert FirstBadSize(book, row, FLAT, 1);
    } else if !SizeReads(book, row, columns[2]) {
      assert FirstBadSize(book, row, FLAT, 2);
    } else if !SizeReads(book, row, columns[3]) {
      assert FirstBadSize(book, row, FLAT, 3);
    } else {
      assert FirstBadSize(book, row, FLAT, 4);
    }
  }

  lemma FlatSizesAreRead(book: Book, row: Row)
    ensures var r := ReadSizes(book, row, FLAT);
            && (r.Ok? <==> SizesRead(book, row, FLAT))
            && (r.Ok? ==> (SizesFit(r.value) <==> SizesHold(book, row, FLAT)))
  {
    FlatSizesOneByOne(book, row);
  }

  /** Where the checks before the die row stop, if they do. */
  lemma DieFaultIsFirst(book: Book, row: Row) returns (n: nat)
    requires P.Distinct(book.sets)
    ensures ReadDie(book, row).Ok? ==>
              n == 9 && Passes(book, row, 8) && ReadDie(book, row).value.1.dieType == TypeOf(row)
    ensures ReadDie(book, row).Err? ==>
              1 <= n <= 8 && Passes(book, row, n - 1) && FaultAt(book, row, n, ReadDie(book, row).error)
    ensures ReadDie(book, row).Ok? ==>
              var (dieId, info) := ReadDie(book, row).value; Fits(dieId, info) <==> RowFits(row)
  {
    IdIsRead(book, row);
    TypeIsRead(book, row);
    StatusIsRead(book, row);
    RackIsRead(book, row);
    ShelfIsRead(book, row);
    if !IdReads(row) {
      return 1;
    }
    if !TypeReads(row) {
      return 2;
    }
    if !Has(row, "casing") {
      return 3;
    }
    if !StatusReads(row) {
      return 4;
    }
    if !RackReads(book, row) {
      return 5;
    }
    if !ShelfReads(row) {
      return 6;
    }
    PlaceIsChecked(book, row);
    if !PlaceReads(book, row) {
      return 7;
    }
    SetIsResolved(book, row);
    n := if ResolveSet(book, row).Err? then 8 else 9;
  }

  /**
   The reason given for a row that is not accepted is what is wrong with the first thing
   looked at that is not as it should be. Up to the tenth, the sizes, nothing has been
   written; a fault there is found with the die row written, and undoes it.
   */
  lemma ReasonIsFirstFault(book: Book, row: Row) returns (n: nat)
    requires P.Distinct(book.sets) && !Check(book, row).Accepted?
    ensures 1 <= n <= 10 && Passes(book, row, n - 1) && FaultAt(book, row, n, Failure(Check(book, row)))
    ensures Check(book, row).Undone? <==> n == 10
  {
    n := DieFaultIsFirst(book, row);
    if ReadDie(book, row).Ok? && RowFits(row) {
      n := 10;
      if TypeOf(row) == ROUND {
        RoundSizesAreRead(book, row);
      } else {
        FlatSizesAreRead(book, row);
        if ReadSizes(book, row, FLAT).Err? {
          FirstBadFlatSize(book, row);
        }
      }
    }
  }

  // ---------------------------------------------------------------- the list of errors

  lemma {:induction false} ErrorsBefore(lines: seq<Line>, os: seq<Outcome>, n: nat)
    requires n <= |lines| == |os|
    ensures Failures(lines[..n], os[..n]) <= Failures(lines, os)
    decreases |lines|
  {
    if n == |lines| {
      assert lines[..n] == lines && os[..n] == os;
    } else {
      var front, outcomes := lines[..|lines| - 1], os[..|os| - 1];
      assert front[..n] == lines[..n] && outcomes[..n] == os[..n];
      ErrorsBefore(front, outcomes, n);
    }
  }

  lemma LastErrorOf(lines: seq<Line>, os: seq<Outcome>, n: nat)
    requires n < |lines| == |os| && !os[n].Accepted?
    ensures var errors, k := Failures(lines[..n + 1], os[..n + 1]), |Failures(lines[..n], os[..n])|;
            && k < |errors|
            && errors[k].line == lines[n].0
            && errors[k].dieId == (if Has(lines[n].1, "die_id") then lines[n].1["die_id"] else "N/A")
            && errors[k].error == Failure(os[n])
  {
    assert lines[..n + 1][..n] == lines[..n] && os[..n + 1][..n] == os[..n];
  }

  lemma PrefixElement(a: seq<Failed>, b: seq<Failed>, k: int)
    requires a <= b && 0 <= k < |a|
    ensures k < |b| && b[k] == a[k]
  {
  }

  /**
   The errors name the lines that were not accepted and no others, in order: line `n` comes
   after as many errors as lines before it failed, with its number, its die id cell or "N/A",
   and its reason.
   */
  lemma ErrorsNameTheirLines(lines: seq<Line>, os: seq<Outcome>, n: nat)
    requires n < |lines| == |os| && !os[n].Accepted?
    ensures var errors, k := Failures(lines, os), n - AcceptedCount(os[..n]);
            && 0 <= k < |errors| && |errors| == |lines| - AcceptedCount(os)
            && errors[k].line == lines[n].0
            && errors[k].dieId == (if Has(lines[n].1, "die_id") then lines[n].1["die_id"] else "N/A")
            && errors[k].error == Failure(os[n])
  {
    FailuresAndAcceptedAreAll(lines, os);
    FailuresAndAcceptedAreAll(lines[..n], os[..n]);
    LastErrorOf(lines, os, n);
    ErrorsBefore(lines, os, n + 1);
    PrefixElement(Failures(lines[..n + 1], os[..n + 1]), Failures(lines, os), n - AcceptedCount(os[..n]));
  }

  // ---------------------------------------------------------------- the keys handed on

  lemma {:induction false} KeysBefore(s: Store, os: seq<Outcome>, n: nat)
    requires n <= |os|
    ensures |SyncedKeys(s, os[..n])| == AcceptedCount(os[..n]) && SyncedKeys(s, os[..n]) <= SyncedKeys(s, os)
    decreases |os|, n
  {
    if n == |os| {
      assert os[..n] == os;
      if n > 0 {
        KeysBefore(s, os[..n - 1], n - 1);
        assert os[..n - 1][..n - 1] == os[..n - 1];
      }
    } else {
      var front := os[..|os| - 1];
      assert front[..n] == os[..n];
      KeysBefore(s, front, n);
    }
  }

  /** One key for each accepted row, in order: that of the row's die. */
  lemma KeysAreOfAcceptedRows(s: Store, os: seq<Outcome>, n: nat)
    requires n < |os| && os[n].Accepted?
    ensures var keys, k := SyncedKeys(s, os), AcceptedCount(os[..n]);
            && |keys| == AcceptedCount(os) && k < |keys|
            && os[n].plan.dieId in Imported(s, os).dies && keys[k] == Imported(s, os).dies[os[n].plan.dieId].pk
  {
    var dieId := os[n].plan.dieId;
    assert os[..n + 1][..n] == os[..n] && os[..|os|] == os;
    KeysBefore(s, os, n);
    KeysBefore(s, os, n + 1);
    KeysBefore(s, os, |os|);
    assert dieId in Imported(s, os[..n + 1]).dies;
    DiesStay(s, os, n + 1, dieId);
  }

  lemma {:induction false} DiesStay(s: Store, os: seq<Outcome>, n: nat, dieId: string)
    requires n <= |os| && dieId in Imported(s, os[..n]).dies
    ensures dieId in Imported(s, os).dies && Imported(s, os).dies[dieId].pk == Imported(s, os[..n]).dies[dieId].pk
    decreases |os|
  {
    if n == |os| {
      assert os[..n] == os;
    } else {
      assert os[..|os| - 1][..n] == os[..n];
      DiesStay(s, os[..|os| - 1], n, dieId);
    }
  }
}
