/**
 * The rows of the operator/ability LEFT JOIN and the operator records the
 * `/operators` page is rendered from, together with what one row
 * contributes to a record: Python truthiness of an ability cell and the
 * display lines "Trait: ...", "Tactical Gear: ...", "Gadget 1: ...",
 * "Gadget 2: ...".
 */
module OperatorRows {
  import opened Wrappers

  /** One result row: an operator joined with at most one of its abilities.
      The four ability columns are NULL when the LEFT JOIN found no ability. */
  datatype Row = Row(
    id: int,
    name: string,
    info: string,
    countryName: string,
    traitName: Option<string>,
    tacticalGear: Option<string>,
    gadget1: Option<string>,
    gadget2: Option<string>)

  /** The dictionary built for one operator id. */
  datatype Record = Record(
    id: int,
    name: string,
    info: string,
    countryName: string,
    traitName: Option<string>,
    tacticalGear: Option<string>,
    gadget1: Option<string>,
    gadget2: Option<string>,
    abilities: seq<string>)

  /** The four ability columns, in the order the rows are inspected. */
  datatype Ability = Trait | TacticalGear | Gadget1 | Gadget2

  /** Python truthiness of a text cell: NULL and the empty string are false. */
  predicate Truthy(cell: Option<string>) {
    cell.Some? && cell.value != ""
  }

  function Cell(row: Row, a: Ability): Option<string> {
    match a
    case Trait => row.traitName
    case TacticalGear => row.tacticalGear
    case Gadget1 => row.gadget1
    case Gadget2 => row.gadget2
  }

  function Field(rec: Record, a: Ability): Option<string> {
    match a
    case Trait => rec.traitName
    case TacticalGear => rec.tacticalGear
    case Gadget1 => rec.gadget1
    case Gadget2 => rec.gadget2
  }

  function Prefix(a: Ability): string {
    match a
    case Trait => "Trait: "
    case TacticalGear => "Tactical Gear: "
    case Gadget1 => "Gadget 1: "
    case Gadget2 => "Gadget 2: "
  }

  /** The display line for an ability value (the f-string of the source). */
  function Line(a: Ability, value: string): string {
    Prefix(a) + value
  }

  function Bit(cell: Option<string>): nat {
    if Truthy(cell) then 1 else 0
  }

  /** How many ability cells of the row are truthy. */
  function TruthyCount(row: Row): nat {
    Bit(row.traitName) + Bit(row.tacticalGear) + Bit(row.gadget1) + Bit(row.gadget2)
  }

  /** How many truthy cells of the row come before column `a`. */
  function Position(row: Row, a: Ability): nat {
    match a
    case Trait => 0
    case TacticalGear => Bit(row.traitName)
    case Gadget1 => Bit(row.traitName) + Bit(row.tacticalGear)
    case Gadget2 => Bit(row.traitName) + Bit(row.tacticalGear) + Bit(row.gadget1)
  }

  function LineFor(row: Row, a: Ability): seq<string> {
    if Truthy(Cell(row, a)) then [Line(a, Cell(row, a).value)] else []
  }

  /** The lines one row appends to its operator's `abilities`. */
  function Lines(row: Row): seq<string> {
    LineFor(row, Trait) + LineFor(row, TacticalGear) + LineFor(row, Gadget1) + LineFor(row, Gadget2)
  }

  /**
   * A row appends one line per truthy cell and nothing else, in the fixed
   * column order trait, tactical gear, gadget 1, gadget 2: the line of a
   * column sits after the lines of every truthy column before it.
   */
  lemma LinesInColumnOrder(row: Row)
    ensures |Lines(row)| == TruthyCount(row)
    ensures forall a: Ability :: Truthy(Cell(row, a)) ==>
      Position(row, a) < |Lines(row)| && Lines(row)[Position(row, a)] == Line(a, Cell(row, a).value)
  {
  }

  /** The record created the first time an id is seen: identity columns
      from that row, no ability values and no lines yet. */
  function NewRecord(row: Row): Record {
    Record(row.id, row.name, row.info, row.countryName, None, None, None, None, [])
  }

  /** A truthy cell overwrites the stored value; a falsy one leaves it. */
  function Latest(stored: Option<string>, cell: Option<string>): Option<string> {
    if Truthy(cell) then cell else stored
  }

  /**
   * What the four `if row[...]` blocks do to the row's record: identity
   * columns untouched, each truthy cell overwrites its field and appends its
   * line, column after column. The lines are appended one column at a
   * time, as the source appends them, rather than as `Lines(row)` in one
   * piece, so that the method performing the four blocks matches this
   * function without regrouping the concatenation; AbsorbAppendsLines
   * states the appended whole.
   */
  function Absorb(rec: Record, row: Row): Record {
    rec.(traitName := Latest(rec.traitName, row.traitName),
         tacticalGear := Latest(rec.tacticalGear, row.tacticalGear),
         gadget1 := Latest(rec.gadget1, row.gadget1),
         gadget2 := Latest(rec.gadget2, row.gadget2),
         abilities := rec.abilities + LineFor(row, Trait) + LineFor(row, TacticalGear)
                      + LineFor(row, Gadget1) + LineFor(row, Gadget2))
  }

  /** Absorbing a row appends exactly the row's lines to `abilities`. */
  lemma AbsorbAppendsLines(rec: Record, row: Row)
    ensures Absorb(rec, row).abilities == rec.abilities + Lines(row)
  {
  }
}
