/**
 * The dictionary `operators_dict` of `operators()` as a value: a map from
 * operator id to record plus the ids in insertion order (Python dictionaries
 * iterate in insertion order). `Fold` is the specification of the loop over
 * the query rows, one `Step` per row; `Aggregate` is
 * `list(operators_dict.values())` after the loop.
 */
module OperatorTable {
  import opened Wrappers
  import opened OperatorRows

  datatype Table = Table(records: map<int, Record>, order: seq<int>)

  /** The insertion order lists every key exactly once, and each record
      carries the id it is stored under. */
  ghost predicate Valid(t: Table) {
    (forall i, j :: 0 <= i < j < |t.order| ==> t.order[i] != t.order[j]) &&
    (forall i :: 0 <= i < |t.order| ==> t.order[i] in t.records) &&
    (forall k :: k in t.records ==> k in t.order) &&
    (forall k :: k in t.records ==> t.records[k].id == k)
  }

  const Empty: Table := Table(map[], [])

  /** One iteration of the loop: create the record on the id's first row,
      then let the row's ability cells update it. */
  function Step(t: Table, row: Row): Table {
    var created :=
      if row.id in t.records then t
      else Table(t.records[row.id := NewRecord(row)], t.order + [row.id]);
    created.(records := created.records[row.id := Absorb(created.records[row.id], row)])
  }

  /** The table after the loop has consumed `rows` in order. */
  function Fold(rows: seq<Row>): (t: Table)
    ensures Valid(t)
    ensures |t.order| <= |rows|
    decreases |rows|
  {
    if rows == [] then Empty
    else Step(Fold(rows[..|rows| - 1]), rows[|rows| - 1])
  }

  /** The dictionary's values in insertion order. */
  function Values(t: Table): seq<Record>
    requires Valid(t)
  {
    seq(|t.order|, i requires 0 <= i < |t.order| => t.records[t.order[i]])
  }

  /** The operator list handed to the template. */
  function Aggregate(rows: seq<Row>): seq<Record> {
    Values(Fold(rows))
  }

  /**
   * Processing a row keeps the table well formed, adds the row's id to the
   * keys, and grows the insertion order by that id exactly when it was new.
   */
  lemma StepAppendsNewId(t: Table, row: Row)
    requires Valid(t)
    ensures Valid(Step(t, row))
    ensures Step(t, row).records.Keys == t.records.Keys + {row.id}
    ensures Step(t, row).order == if row.id in t.records then t.order else t.order + [row.id]
  {
  }

  /**
   * Processing a row touches only the record stored under that row's id:
   * every other record is unchanged, and that id's record (a fresh one if
   * the id was new) absorbs the row.
   */
  lemma StepTouchesOnlyItsId(t: Table, row: Row)
    ensures row.id in Step(t, row).records
    ensures forall k :: k in t.records && k != row.id ==>
      k in Step(t, row).records && Step(t, row).records[k] == t.records[k]
    ensures Step(t, row).records[row.id] ==
      Absorb(if row.id in t.records then t.records[row.id] else NewRecord(row), row)
  {
  }

  /** The operator list is the dictionary's values in insertion order, and
      each record carries the id it is stored under. */
  lemma AggregateInInsertionOrder(rows: seq<Row>)
    ensures |Aggregate(rows)| == |Fold(rows).order|
    ensures forall i :: 0 <= i < |Aggregate(rows)| ==>
      Aggregate(rows)[i] == Fold(rows).records[Fold(rows).order[i]] && Aggregate(rows)[i].id == Fold(rows).order[i]
  {
  }
}
