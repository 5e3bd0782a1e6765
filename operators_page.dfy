/**
 * The aggregation loop of the `/operators` route: the query rows are folded
 * into a dictionary keyed by operator id, in place, and the dictionary's
 * values become the list the template receives.
 */
module OperatorsPage {
  import opened Wrappers
  import opened OperatorRows
  import opened OperatorTable
  import opened OperatorReference

  /**
   * The four `if row[...]` blocks for one row, applied to the record stored
   * under the row's id: each truthy cell overwrites its field and appends
   * its line, in column order. Together they absorb the row.
   */
  method AddAbilities(rec: Record, row: Row) returns (updated: Record)
    ensures updated == Absorb(rec, row)
    ensures updated.abilities == rec.abilities + Lines(row)
  {
    updated := rec;
    if Truthy(row.traitName) {
      updated := updated.(traitName := row.traitName,
        abilities := updated.abilities + [Line(Trait, row.traitName.value)]);
    }
    assert updated == rec.(traitName := Latest(rec.traitName, row.traitName),
                           abilities := rec.abilities + LineFor(row, Trait));
    if Truthy(row.tacticalGear) {
      updated := updated.(tacticalGear := row.tacticalGear,
        abilities := updated.abilities + [Line(TacticalGear, row.tacticalGear.value)]);
    }
    assert updated == rec.(traitName := Latest(rec.traitName, row.traitName),
                           tacticalGear := Latest(rec.tacticalGear, row.tacticalGear),
                           abilities := rec.abilities + LineFor(row, Trait) + LineFor(row, TacticalGear));
    if Truthy(row.gadget1) {
      updated := updated.(gadget1 := row.gadget1,
        abilities := updated.abilities + [Line(Gadget1, row.gadget1.value)]);
    }
    assert updated == rec.(traitName := Latest(rec.traitName, row.traitName),
                           tacticalGear := Latest(rec.tacticalGear, row.tacticalGear),
                           gadget1 := Latest(rec.gadget1, row.gadget1),
                           abilities := rec.abilities + LineFor(row, Trait) + LineFor(row, TacticalGear)
                                        + LineFor(row, Gadget1));
    if Truthy(row.gadget2) {
      updated := updated.(gadget2 := row.gadget2,
        abilities := updated.abilities + [Line(Gadget2, row.gadget2.value)]);
    }
    AbsorbAppendsLines(rec, row);
  }

  /**
   * Groups the LEFT JOIN rows by operator id. The result is the fold of the
   * rows, which means: one record per distinct id and no more records than
   * rows, in order of first appearance, each record being the reference
   * record of its id (identity from the first row, one line per truthy
   * cell in row and column order, last truthy value per ability column).
   */
  method Operators(rows: seq<Row>) returns (operators: seq<Record>)
    ensures operators == Aggregate(rows)
    ensures |operators| == |Ids(rows)| <= |rows|
    ensures forall i, j :: 0 <= i < j < |operators| ==> operators[i].id != operators[j].id
    ensures forall i, j :: 0 <= i < j < |operators| ==>
      FirstIndex(rows, operators[i].id) < FirstIndex(rows, operators[j].id)
    ensures forall i :: 0 <= i < |operators| ==>
      operators[i].id in Ids(rows) && operators[i] == Expected(rows, operators[i].id)
  {
    var operatorsDict: map<int, Record> := map[];
    var order: seq<int> := [];
    for n := 0 to |rows|
      invariant Table(operatorsDict, order) == Fold(rows[..n])
    {
      var row := rows[n];
      var opId := row.id;
      ghost var before := Table(operatorsDict, order);

      if opId !in operatorsDict {
        operatorsDict := operatorsDict[opId := NewRecord(row)];
        order := order + [opId];
      }

      // The four ability blocks update the record stored under opId.
      var updated := AddAbilities(operatorsDict[opId], row);
      operatorsDict := operatorsDict[opId := updated];

      assert Table(operatorsDict, order) == Step(before, row);
      assert rows[..n + 1][..n] == rows[..n];
    }
    assert rows[..|rows|] == rows;
    operators := Values(Table(operatorsDict, order));
    assert operators == Aggregate(rows);
    AggregateOnePerId(rows);
    AggregateFirstAppearanceOrder(rows);
    AggregateMatchesReference(rows);
  }

  /** Two rows for one operator, one with a trait and one with a tactical gear. */
  const ashTraitRow := Row(7, "Ash", "Breacher", "USA", Some("X"), None, None, None)
  const ashGearRow := Row(7, "Ash", "Breacher", "USA", None, Some("Y"), None, None)

  /** Each row overwrites only its truthy column and appends only its line. */
  lemma TwoAbilityRowsAbsorbed()
    ensures Absorb(NewRecord(ashTraitRow), ashTraitRow) ==
      Record(7, "Ash", "Breacher", "USA", Some("X"), None, None, None, ["Trait: X"])
    ensures Absorb(Absorb(NewRecord(ashTraitRow), ashTraitRow), ashGearRow) ==
      Record(7, "Ash", "Breacher", "USA", Some("X"), Some("Y"), None, None, ["Trait: X", "Tactical Gear: Y"])
  {
    assert Line(Trait, "X") == "Trait: X";
    assert LineFor(ashTraitRow, Trait) == ["Trait: X"];
    assert Line(TacticalGear, "Y") == "Tactical Gear: Y";
    assert LineFor(ashGearRow, TacticalGear) == ["Tactical Gear: Y"];
  }

  /** The two rows give one record listing both abilities, in row order. */
  lemma TwoAbilityRowsExample()
    ensures Aggregate([ashTraitRow, ashGearRow]) ==
      [Record(7, "Ash", "Breacher", "USA", Some("X"), Some("Y"), None, None, ["Trait: X", "Tactical Gear: Y"])]
  {
    var r1, r2 := ashTraitRow, ashGearRow;
    TwoAbilityRowsAbsorbed();
    var ash1 := Absorb(NewRecord(r1), r1);
    var ash2 := Absorb(ash1, r2);
    assert Fold([r1]) == Table(map[7 := ash1], [7]) by {
      assert [r1][..0] == [];
      assert Fold([r1]) == Step(Empty, r1);
    }
    assert Fold([r1, r2]) == Table(map[7 := ash2], [7]) by {
      assert [r1, r2][..1] == [r1];
      assert Fold([r1, r2]) == Step(Fold([r1]), r2);
    }
  }

  /** An operator whose rows carry only NULL or empty ability cells gets a
      bare record without error. */
  lemma EmptyCellsExample()
    ensures Aggregate([Row(3, "Kai", "Scout", "Japan", None, None, None, None),
                       Row(3, "Kai", "Scout", "Japan", Some(""), None, None, None)]) ==
      [Record(3, "Kai", "Scout", "Japan", None, None, None, None, [])]
  {
    var r1 := Row(3, "Kai", "Scout", "Japan", None, None, None, None);
    var r2 := Row(3, "Kai", "Scout", "Japan", Some(""), None, None, None);
    assert [r1, r2][..1] == [r1] && [r1][..0] == [];
    var kai := NewRecord(r1);
    assert Absorb(kai, r1) == kai && Absorb(kai, r2) == kai;
    assert Fold([r1]).records == map[3 := kai];
    assert Fold([r1]) == Table(map[3 := kai], [3]);
  }
}
