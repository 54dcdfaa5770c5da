/**
 Which rows an import accepts and what it takes from them, stated column by column and
 without the order of the checks; and where the template's own description is wrong.
 */
module ImportRows {
  import opened Options
  import opened Decimals
  import opened Texts
  import opened ImportModel
  import P = ImportProperties

  // ---------------------------------------------------------------- the columns

  /** The column is there and not blank. */
  predicate Has(row: Row, column: string) {
    column in row && row[column] != ""
  }

  predicate DescribesId(row: Row, dieId: string) {
    && Has(row, "die_id") && Strip(row["die_id"]) == dieId
    && dieId != "" && |dieId| <= 50 && forall i :: 0 <= i < |dieId| ==> IsDieIdChar(dieId[i])
  }

  predicate DescribesHeading(row: Row, info: Info) {
    && Has(row, "die_type") && Upper(Strip(row["die_type"])) == (if info.dieType == ROUND then "ROUND" else "FLAT")
    && Has(row, "casing") && Strip(row["casing"]) == info.casing && |info.casing| <= 50
    && info.status in STATUSES
    && info.status == (if Has(row, "status") then Upper(Strip(row["status"])) else "AVAILABLE")
    && info.remarks == (if "remarks" in row then Strip(row["remarks"]) else "")
  }

  /** Rack and shelf come together, and the shelf is one of the rack's. */
  predicate DescribesPlace(book: Book, row: Row, info: Info) {
    if Has(row, "rack") then
      && Lower(Strip(row["rack"])) in book.racks && "shelf_number" in row
      && var rack := book.racks[Lower(Strip(row["rack"]))];
         && info.rack == Some(rack.id) && info.shelf == ToInt(row["shelf_number"])
         && info.shelf.Some? && 1 <= info.shelf.value <= rack.rowCount * rack.columnCount
             && info.shelf.value <= MAX_SHELF
    else "shelf_number" !in row && info.rack == None && info.shelf == None
  }

  /** The set a name means: the only one of that name, or the only one under the machine given. */
  ghost predicate NamesSet(book: Book, row: Row, name: string, id: nat) {
    var machine := Or(Cell(row, "machine_name"), Cell(row, "machine"));
    || (exists x :: P.OnlyMatch(book.sets, x, Lower(Strip(name))) && x.id == id)
    || (Truthy(machine)
        && exists x :: P.OnlyMatchUnder(book.sets, x, Lower(Strip(name)), Lower(Strip(machine.value))) && x.id == id)
  }

  /** The set columns: an id that exists, a name that means one set, or nothing at all. */
  ghost predicate DescribesSet(book: Book, row: Row, info: Info) {
    if Has(row, "current_set") || Has(row, "current_set_id") then
      var text := Strip(if Has(row, "current_set") then row["current_set"] else row["current_set_id"]);
      match book.numeric(text)
      case Integer(id) => id >= 0 && info.currentSet == Some(id) && exists x :: x in book.sets && x.id == id
      case NoInteger => false
      case NotNumeric =>
        if text == "" then info.currentSet == None
            else info.currentSet.Some? && NamesSet(book, row, text, info.currentSet.value)
    else if Has(row, "set_name") then
      info.currentSet.Some? && NamesSet(book, row, row["set_name"], info.currentSet.value)
    else info.currentSet == None
  }

  /** A size is in its column, or, if that is blank, in the older column. */
  predicate HasSize(book: Book, row: Row, column: string, older: string, size: int) {
    && SizeFits(size)
    && if Has(row, column) then book.sizeOf(row[column]) == Some(size)
       else Has(row, older) && book.sizeOf(row[older]) == Some(size)
  }

  predicate HasOnlySize(book: Book, row: Row, column: string, size: int) {
    SizeFits(size) && Has(row, column) && book.sizeOf(row[column]) == Some(size)
  }

  predicate DescribesSizes(book: Book, row: Row, sizes: Sizes) {
    match sizes
    case OfRound(z) =>
      && HasSize(book, row, "punched_size", "original_size", z.punched)
      && HasOnlySize(book, row, "current_size", z.current)
    case OfFlat(z) =>
      && HasSize(book, row, "punched_width", "original_width", z.punchedWidth)
      && HasOnlySize(book, row, "current_width", z.currentWidth)
      && HasSize(book, row, "punched_thickness", "original_thickness", z.punchedThickness)
      && HasOnlySize(book, row, "current_thickness", z.currentThickness)
      && HasOnlySize(book, row, "radius", z.radius)
  }

  ghost predicate Describes(book: Book, row: Row, plan: Plan) {
    && DescribesId(row, plan.dieId)
    && DescribesHeading(row, plan.info)
    && DescribesPlace(book, row, plan.info)
    && DescribesSet(book, row, plan.info)
    && (plan.sizes.OfRound? <==> plan.info.dieType == ROUND)
    && DescribesSizes(book, row, plan.sizes)
  }

  // ---------------------------------------------------------------- accepted just when described

  lemma HeadingIsRead(row: Row, info: Info)
    ensures DescribesHeading(row, info) <==>
      && ReadDieType(row) == Ok(info.dieType)
      && Truthy(Cell(row, "casing")) && Strip(row["casing"]) == info.casing && |info.casing| <= 50
      && ReadStatus(row) == Ok(info.status)
      && info.remarks == (match Cell(row, "remarks") case Some(text) => Strip(text) case None => "")
  {
  }

  lemma PlaceIsRead(book: Book, row: Row, info: Info)
    ensures DescribesPlace(book, row, info) <==>
      var rack, shelf := ReadRack(book, row), ReadShelf(row);
      && rack.Ok? && shelf.Ok? && CheckLocation(rack.value, shelf.value).Ok?
      && info.rack == (match rack.value case Some(r) => Some(r.id) case None => None)
      && info.shelf == shelf.value
      && (info.shelf.Some? ==> info.shelf.value <= MAX_SHELF)
  {
  }

  lemma {:induction false} SetWithIdExists(sets: seq<Set>, id: int)
    ensures SetWithId(sets, id).Some? <==> exists x :: x in sets && x.id == id
    ensures SetWithId(sets, id).Some? ==> SetWithId(sets, id).value == id
  {
    if sets != [] {
      var front, last := sets[..|sets| - 1], sets[|sets| - 1];
      SetWithIdExists(front, id);
      assert sets == front + [last];
    }
  }

  lemma NameIsRead(book: Book, row: Row, name: string, found: Option<nat>)
    requires P.Distinct(book.sets)
    ensures SetByName(book.sets, name, Or(Cell(row, "machine_name"), Cell(row, "machine"))) == Ok(found)
       <==> found.Some? && NamesSet(book, row, name, found.value)
  {
    var machine := Or(Cell(row, "machine_name"), Cell(row, "machine"));
    if found.Some? {
      P.NameResolvesToOnlyMatch(book.sets, name, machine, found.value);
    }
  }

  lemma SetIsRead(book: Book, row: Row, info: Info)
    requires P.Distinct(book.sets)
    ensures DescribesSet(book, row, info) <==> ResolveSet(book, row) == Ok(info.currentSet)
  {
    var current := Or(Cell(row, "current_set"), Cell(row, "current_set_id"));
    if Truthy(current) {
      var text := Strip(current.value);
      if book.numeric(text).Integer? {
        SetWithIdExists(book.sets, book.numeric(text).id);
      }
      NameIsRead(book, row, text, info.currentSet);
    } else if Has(row, "set_name") {
      NameIsRead(book, row, row["set_name"], info.currentSet);
    }
  }

  lemma SizesAreRead(book: Book, row: Row, sizes: Sizes)
    ensures DescribesSizes(book, row, sizes) <==>
      ReadSizes(book, row, if sizes.OfRound? then ROUND else FLAT) == Ok(sizes) && SizesFit(sizes)
  {
  }

  lemma DieIsRead(book: Book, row: Row, dieId: string, info: Info)
    ensures ReadDie(book, row) == Ok((dieId, info)) && Fits(dieId, info) <==>
      && DescribesId(row, dieId) && DescribesHeading(row, info) && DescribesPlace(book, row, info)
      && ResolveSet(book, row) == Ok(info.currentSet)
  {
    HeadingIsRead(row, info);
    PlaceIsRead(book, row, info);
  }

  /** A row is accepted, with this outcome, just when each of its columns says so; set ids are primary keys. */
  lemma AcceptedIffDescribed(book: Book, row: Row, plan: Plan)
    requires P.Distinct(book.sets)
    ensures Check(book, row) == Accepted(plan) <==> Describes(book, row, plan)
  {
    DieIsRead(book, row, plan.dieId, plan.info);
    SetIsRead(book, row, plan.info);
    SizesAreRead(book, row, plan.sizes);
  }

  // ---------------------------------------------------------------- against the template's description

  /** The template calls the shelf optional; a text row that has the column but leaves it blank is refused. */
  lemma BlankShelfIsRefused(book: Book, row: Row)
    requires "shelf_number" in row && Strip(row["shelf_number"]) == ""
    ensures Check(book, row).Refused?
  {
    if !Check(book, row).Refused? {
      var (dieId, info) := ReadDie(book, row).value;
      DieIsRead(book, row, dieId, info);
    }
  }

  /** Two of the statuses the template lists are refused. */
  lemma ListedStatusesAreRefused(book: Book, row: Row)
    requires Has(row, "status") && Upper(Strip(row["status"])) in {"MEASURING", "INACTIVE"}
    ensures Check(book, row).Refused?
  {
    if !Check(book, row).Refused? {
      var (dieId, info) := ReadDie(book, row).value;
      DieIsRead(book, row, dieId, info);
    }
  }

  /** A shelf written as a plain number is the shelf stored. */
  lemma WrittenShelfIsStored(book: Book, row: Row, shelf: nat)
    requires Check(book, row).Accepted? && "shelf_number" in row && row["shelf_number"] == Print(shelf)
    ensures Check(book, row).plan.info.shelf == Some(shelf) && Has(row, "rack")
  {
    var plan := Check(book, row).plan;
    DieIsRead(book, row, plan.dieId, plan.info);
    PrintIsReadBack(shelf);
  }
}
