/**
 * A reference description of the operator list that does not follow the
 * loop: for each id, where its identity columns come from, which lines its
 * `abilities` hold and which value each ability column keeps, all read off
 * the rows directly. The lemmas show that the fold builds exactly these
 * records, one per distinct id, in order of first appearance.
 */
module OperatorReference {
  import opened Wrappers
  import opened OperatorRows
  import opened OperatorTable

  /** The ids occurring in the rows. */
  function Ids(rows: seq<Row>): set<int>
    decreases |rows|
  {
    if rows == [] then {} else Ids(rows[..|rows| - 1]) + {rows[|rows| - 1].id}
  }

  lemma IdsAppend(rows: seq<Row>, row: Row)
    ensures Ids(rows + [row]) == Ids(rows) + {row.id}
  {
    var all := rows + [row];
    assert all[..|all| - 1] == rows;
  }

  /** The index of the first row with this id, or |rows| when there is none. */
  function FirstIndex(rows: seq<Row>, id: int): (k: nat)
    ensures k <= |rows|
    ensures k < |rows| ==> rows[k].id == id
    ensures forall j :: 0 <= j < k ==> rows[j].id != id
    decreases |rows|
  {
    if rows == [] then 0
    else if rows[0].id == id then 0
    else 1 + FirstIndex(rows[1..], id)
  }

  /** Appending a row moves no id's first occurrence, except that the new
      row is the first occurrence of an id seen for the first time. */
  lemma {:induction false} FirstIndexAppend(rows: seq<Row>, row: Row, id: int)
    ensures FirstIndex(rows + [row], id) ==
      if FirstIndex(rows, id) < |rows| then FirstIndex(rows, id)
      else if row.id == id then |rows|
      else |rows| + 1
  {
    if rows != [] && rows[0].id != id {
      assert (rows + [row])[1..] == rows[1..] + [row];
      FirstIndexAppend(rows[1..], row, id);
    }
  }

  /** An id is among the ids of the rows exactly when some row carries it,
      that is, when it has a first occurrence. */
  lemma {:induction false} IdsAreRowIds(rows: seq<Row>, id: int)
    ensures id in Ids(rows) <==> FirstIndex(rows, id) < |rows|
    ensures id in Ids(rows) <==> exists k :: 0 <= k < |rows| && rows[k].id == id
    decreases |rows|
  {
    if rows != [] {
      var prefix, last := rows[..|rows| - 1], rows[|rows| - 1];
      assert rows == prefix + [last];
      IdsAppend(prefix, last);
      FirstIndexAppend(prefix, last, id);
      IdsAreRowIds(prefix, id);
    }
  }

  /** The number of truthy ability cells over all rows with this id. */
  function CellCount(rows: seq<Row>, id: int): nat
    decreases |rows|
  {
    if rows == [] then 0
    else
      var last := rows[|rows| - 1];
      CellCount(rows[..|rows| - 1], id) + (if last.id == id then TruthyCount(last) else 0)
  }

  /** The lines of all rows with this id, row after row; one per truthy cell. */
  function LinesOf(rows: seq<Row>, id: int): (lines: seq<string>)
    ensures |lines| == CellCount(rows, id)
    decreases |rows|
  {
    if rows == [] then []
    else
      var last := rows[|rows| - 1];
      LinesOf(rows[..|rows| - 1], id) + (if last.id == id then Lines(last) else [])
  }

  /** Column `a` of the last row with this id where it is truthy, if any. */
  function LastCell(rows: seq<Row>, id: int, a: Ability): Option<string>
    decreases |rows|
  {
    if rows == [] then None
    else
      var last := rows[|rows| - 1];
      if last.id == id && Truthy(Cell(last, a)) then Cell(last, a)
      else LastCell(rows[..|rows| - 1], id, a)
  }

  /**
   * LastCell is None exactly when no row with the id has a truthy cell in
   * column `a`; otherwise it is the truthy value of the last such row.
   */
  lemma {:induction false} LastCellMeaning(rows: seq<Row>, id: int, a: Ability)
    ensures LastCell(rows, id, a).None? <==>
      forall k :: 0 <= k < |rows| && rows[k].id == id ==> !Truthy(Cell(rows[k], a))
    ensures LastCell(rows, id, a).Some? ==>
      Truthy(LastCell(rows, id, a)) &&
      exists k :: 0 <= k < |rows| && rows[k].id == id && Cell(rows[k], a) == LastCell(rows, id, a) &&
        (forall j :: k < j < |rows| && rows[j].id == id ==> !Truthy(Cell(rows[j], a)))
    decreases |rows|
  {
    if rows != [] {
      var prefix, last := rows[..|rows| - 1], rows[|rows| - 1];
      assert forall k :: 0 <= k < |prefix| ==> prefix[k] == rows[k];
      LastCellMeaning(prefix, id, a);
      if last.id == id && Truthy(Cell(last, a)) {
        assert rows[|rows| - 1] == last;
      } else if LastCell(prefix, id, a).Some? {
        var k :| 0 <= k < |prefix| && prefix[k].id == id && Cell(prefix[k], a) == LastCell(prefix, id, a) &&
          (forall j :: k < j < |prefix| && prefix[j].id == id ==> !Truthy(Cell(prefix[j], a)));
        assert rows[k] == prefix[k];
      }
    }
  }

  /** The record the rows call for under an id that occurs in them. */
  function Expected(rows: seq<Row>, id: int): Record
    requires id in Ids(rows)
  {
    IdsAreRowIds(rows, id);
    var first := rows[FirstIndex(rows, id)];
    Record(id, first.name, first.info, first.countryName,
           LastCell(rows, id, Trait), LastCell(rows, id, TacticalGear),
           LastCell(rows, id, Gadget1), LastCell(rows, id, Gadget2),
           LinesOf(rows, id))
  }

  /** An id that no row carries has no lines and no ability values. */
  lemma {:induction false} NothingForAbsentId(rows: seq<Row>, id: int)
    requires id !in Ids(rows)
    ensures LinesOf(rows, id) == []
    ensures forall a: Ability :: LastCell(rows, id, a) == None
    decreases |rows|
  {
    if rows != [] {
      var prefix, last := rows[..|rows| - 1], rows[|rows| - 1];
      assert rows == prefix + [last];
      IdsAppend(prefix, last);
      NothingForAbsentId(prefix, id);
    }
  }

  /** Appending a row leaves the reference record of every other id as it was. */
  lemma ExpectedAppendOther(rows: seq<Row>, row: Row, id: int)
    requires id in Ids(rows + [row]) && id != row.id
    ensures id in Ids(rows) && Expected(rows + [row], id) == Expected(rows, id)
  {
    var all := rows + [row];
    assert all[..|all| - 1] == rows;
    IdsAppend(rows, row);
    IdsAreRowIds(rows, id);
    FirstIndexAppend(rows, row, id);
    assert all[FirstIndex(all, id)] == rows[FirstIndex(rows, id)];
  }

  /**
   * Appending a row to the reference record of its own id (a bare record
   * built from that row when the id is new) absorbs the row: identity
   * columns unchanged, each truthy cell overwrites its field, the row's
   * lines are appended.
   */
  lemma ExpectedAppendOwn(rows: seq<Row>, row: Row)
    ensures row.id in Ids(rows + [row])
    ensures Expected(rows + [row], row.id) ==
      Absorb(if row.id in Ids(rows) then Expected(rows, row.id) else NewRecord(row), row)
  {
    var all, id := rows + [row], row.id;
    assert all[..|all| - 1] == rows;
    AbsorbAppendsLines(if id in Ids(rows) then Expected(rows, id) else NewRecord(row), row);
    IdsAppend(rows, row);
    IdsAreRowIds(rows, id);
    FirstIndexAppend(rows, row, id);
    if id in Ids(rows) {
      assert all[FirstIndex(all, id)] == rows[FirstIndex(rows, id)];
    } else {
      NothingForAbsentId(rows, id);
      assert all[FirstIndex(all, id)] == row;
      assert LinesOf(all, id) == Lines(row);
      forall a: Ability
        ensures LastCell(all, id, a) == Latest(None, Cell(row, a))
      {
      }
    }
  }

  /** The ids of `order` sorted by their first occurrence in `rows`. */
  ghost predicate ByFirstOccurrence(order: seq<int>, rows: seq<Row>) {
    forall i, j :: 0 <= i < j < |order| ==> FirstIndex(rows, order[i]) < FirstIndex(rows, order[j])
  }

  /** Appending a row keeps ids that already occurred sorted by first
      occurrence; an id seen for the first time sorts after all of them. */
  lemma {:induction false} OrderExtend(order: seq<int>, rows: seq<Row>, row: Row)
    requires forall k :: 0 <= k < |order| ==> FirstIndex(rows, order[k]) < |rows|
    requires ByFirstOccurrence(order, rows)
    ensures ByFirstOccurrence(order, rows + [row])
    ensures FirstIndex(rows, row.id) == |rows| ==> ByFirstOccurrence(order + [row.id], rows + [row])
  {
    var all := rows + [row];
    forall k | 0 <= k < |order|
      ensures FirstIndex(all, order[k]) == FirstIndex(rows, order[k])
    {
      FirstIndexAppend(rows, row, order[k]);
    }
    if FirstIndex(rows, row.id) == |rows| {
      FirstIndexAppend(rows, row, row.id);
      var ext := order + [row.id];
      forall i, j | 0 <= i < j < |ext|
        ensures FirstIndex(all, ext[i]) < FirstIndex(all, ext[j])
      {
        assert ext[i] == order[i];
        if j < |order| {
          assert ext[j] == order[j];
        }
      }
    }
  }

  /** One more row keeps the insertion order sorted by first occurrence
      and keeps one key per distinct id. */
  lemma OrderStep(t: Table, rows: seq<Row>, row: Row)
    requires Valid(t)
    requires t.records.Keys == Ids(rows) && |t.order| == |Ids(rows)|
    requires ByFirstOccurrence(t.order, rows)
    ensures Step(t, row).records.Keys == Ids(rows + [row])
    ensures |Step(t, row).order| == |Ids(rows + [row])|
    ensures ByFirstOccurrence(Step(t, row).order, rows + [row])
  {
    StepAppendsNewId(t, row);
    IdsAppend(rows, row);
    IdsAreRowIds(rows, row.id);
    forall k | 0 <= k < |t.order|
      ensures FirstIndex(rows, t.order[k]) < |rows|
    {
      IdsAreRowIds(rows, t.order[k]);
    }
    OrderExtend(t.order, rows, row);
  }

  /** One more row keeps every record equal to its reference. */
  lemma RecordsStep(t: Table, rows: seq<Row>, row: Row)
    requires t.records.Keys == Ids(rows)
    requires forall id :: id in Ids(rows) ==> t.records[id] == Expected(rows, id)
    ensures forall id :: id in Ids(rows + [row]) ==>
      id in Step(t, row).records && Step(t, row).records[id] == Expected(rows + [row], id)
  {
    var all, after := rows + [row], Step(t, row);
    StepTouchesOnlyItsId(t, row);
    IdsAppend(rows, row);
    forall id | id in Ids(all)
      ensures id in after.records && after.records[id] == Expected(all, id)
    {
      if id == row.id {
        ExpectedAppendOwn(rows, row);
      } else {
        ExpectedAppendOther(rows, row, id);
      }
    }
  }

  /**
   * The fold builds exactly the reference records: its keys are the ids of
   * the rows, one per distinct id, the record under each id is Expected, and
   * the insertion order sorts the ids by their first occurrence.
   */
  lemma {:induction false} FoldMatchesReference(rows: seq<Row>)
    ensures Fold(rows).records.Keys == Ids(rows)
    ensures |Fold(rows).order| == |Ids(rows)|
    ensures forall id :: id in Ids(rows) ==> Fold(rows).records[id] == Expected(rows, id)
    ensures ByFirstOccurrence(Fold(rows).order, rows)
    decreases |rows|
  {
    if rows != [] {
      var prefix, row := rows[..|rows| - 1], rows[|rows| - 1];
      assert rows == prefix + [row];
      FoldMatchesReference(prefix);
      assert Fold(rows) == Step(Fold(prefix), row);
      RecordsStep(Fold(prefix), prefix, row);
      OrderStep(Fold(prefix), prefix, row);
    }
  }

  /** Later rows never change an operator's identity columns, and they only
      append to its ability lines: nothing is removed or reordered. */
  lemma {:induction false} LaterRowsOnlyAppend(rows: seq<Row>, more: seq<Row>, id: int)
    requires id in Ids(rows)
    ensures id in Ids(rows + more)
    ensures Expected(rows + more, id).name == Expected(rows, id).name
    ensures Expected(rows + more, id).info == Expected(rows, id).info
    ensures Expected(rows + more, id).countryName == Expected(rows, id).countryName
    ensures Expected(rows, id).abilities <= Expected(rows + more, id).abilities
    decreases |more|
  {
    if more == [] {
      assert rows + more == rows;
    } else {
      var init, row := more[..|more| - 1], more[|more| - 1];
      assert rows + more == (rows + init) + [row];
      LaterRowsOnlyAppend(rows, init, id);
      IdsAppend(rows + init, row);
      if id == row.id {
        ExpectedAppendOwn(rows + init, row);
      } else {
        ExpectedAppendOther(rows + init, row, id);
      }
    }
  }

  /** An id none of whose rows has a truthy cell gets no lines and no values. */
  lemma {:induction false} NoCellsNothingRecorded(rows: seq<Row>, id: int)
    requires forall k, a: Ability :: 0 <= k < |rows| && rows[k].id == id ==> !Truthy(Cell(rows[k], a))
    ensures CellCount(rows, id) == 0
    ensures forall a: Ability :: LastCell(rows, id, a) == None
    decreases |rows|
  {
    if rows != [] {
      var prefix, last := rows[..|rows| - 1], rows[|rows| - 1];
      assert forall k :: 0 <= k < |prefix| ==> prefix[k] == rows[k];
      NoCellsNothingRecorded(prefix, id);
      if last.id == id {
        assert !Truthy(Cell(last, Trait)) && !Truthy(Cell(last, TacticalGear));
        assert !Truthy(Cell(last, Gadget1)) && !Truthy(Cell(last, Gadget2));
      }
    }
  }

  /**
   * One record per distinct id: the records' ids are pairwise distinct and
   * are exactly the ids of the rows, so there are at most as many records
   * as rows.
   */
  lemma AggregateOnePerId(rows: seq<Row>)
    ensures |Aggregate(rows)| == |Ids(rows)| <= |rows|
    ensures forall i, j :: 0 <= i < j < |Aggregate(rows)| ==> Aggregate(rows)[i].id != Aggregate(rows)[j].id
    ensures forall id :: id in Ids(rows) <==> exists i :: 0 <= i < |Aggregate(rows)| && Aggregate(rows)[i].id == id
  {
    var t, ops := Fold(rows), Aggregate(rows);
    FoldMatchesReference(rows);
    AggregateInInsertionOrder(rows);
    forall id | id in Ids(rows)
      ensures exists i :: 0 <= i < |ops| && ops[i].id == id
    {
      assert id in t.order;
      var i :| 0 <= i < |t.order| && t.order[i] == id;
      assert ops[i].id == id;
    }
  }

  /** Records appear in the order in which their ids first appear. */
  lemma AggregateFirstAppearanceOrder(rows: seq<Row>)
    ensures forall i, j :: 0 <= i < j < |Aggregate(rows)| ==>
      FirstIndex(rows, Aggregate(rows)[i].id) < FirstIndex(rows, Aggregate(rows)[j].id)
  {
    FoldMatchesReference(rows);
    AggregateInInsertionOrder(rows);
  }

  /** Every record is the reference record of its id. */
  lemma AggregateMatchesReference(rows: seq<Row>)
    ensures forall i :: 0 <= i < |Aggregate(rows)| ==>
      Aggregate(rows)[i].id in Ids(rows) && Aggregate(rows)[i] == Expected(rows, Aggregate(rows)[i].id)
  {
    FoldMatchesReference(rows);
    AggregateInInsertionOrder(rows);
  }

  /** name, info and country_name come from the first row with the id. */
  lemma IdentityFromFirstRow(rows: seq<Row>, i: int)
    requires 0 <= i < |Aggregate(rows)|
    ensures FirstIndex(rows, Aggregate(rows)[i].id) < |rows|
    ensures Aggregate(rows)[i].name == rows[FirstIndex(rows, Aggregate(rows)[i].id)].name
    ensures Aggregate(rows)[i].info == rows[FirstIndex(rows, Aggregate(rows)[i].id)].info
    ensures Aggregate(rows)[i].countryName == rows[FirstIndex(rows, Aggregate(rows)[i].id)].countryName
  {
    AggregateMatchesReference(rows);
    IdsAreRowIds(rows, Aggregate(rows)[i].id);
  }

  /** An operator none of whose rows has a truthy ability cell gets no lines
      and keeps all four ability fields None. */
  lemma NoAbilitiesYieldsBareRecord(rows: seq<Row>, i: int)
    requires 0 <= i < |Aggregate(rows)|
    requires forall k, a: Ability :: 0 <= k < |rows| && rows[k].id == Aggregate(rows)[i].id ==> !Truthy(Cell(rows[k], a))
    ensures Aggregate(rows)[i].abilities == []
    ensures Aggregate(rows)[i].traitName == None && Aggregate(rows)[i].tacticalGear == None
    ensures Aggregate(rows)[i].gadget1 == None && Aggregate(rows)[i].gadget2 == None
  {
    AggregateMatchesReference(rows);
    NoCellsNothingRecorded(rows, Aggregate(rows)[i].id);
  }

  /** A record holds one line per truthy ability cell over all rows with its id. */
  lemma AbilityLineCount(rows: seq<Row>, i: int)
    requires 0 <= i < |Aggregate(rows)|
    ensures |Aggregate(rows)[i].abilities| == CellCount(rows, Aggregate(rows)[i].id)
  {
    AggregateMatchesReference(rows);
  }

  /**
   * Each ability field holds the value of the last row with the id in which
   * that column was truthy, and is None exactly when no such row exists: a
   * later NULL or empty cell never clears it.
   */
  lemma LastTruthyValueWins(rows: seq<Row>, i: int, a: Ability)
    requires 0 <= i < |Aggregate(rows)|
    ensures Field(Aggregate(rows)[i], a).None? <==>
      forall k :: 0 <= k < |rows| && rows[k].id == Aggregate(rows)[i].id ==> !Truthy(Cell(rows[k], a))
    ensures Field(Aggregate(rows)[i], a).Some? ==>
      exists k :: 0 <= k < |rows| && rows[k].id == Aggregate(rows)[i].id &&
        Truthy(Cell(rows[k], a)) && Cell(rows[k], a) == Field(Aggregate(rows)[i], a) &&
        (forall j :: k < j < |rows| && rows[j].id == Aggregate(rows)[i].id ==> !Truthy(Cell(rows[j], a)))
  {
    AggregateMatchesReference(rows);
    var rec := Aggregate(rows)[i];
    assert Field(rec, a) == LastCell(rows, rec.id, a);
    LastCellMeaning(rows, rec.id, a);
  }
}
