# Operator list of the `/operators` page

The `/operators` route of the site runs one query that joins each
operator to its country and LEFT JOINs its abilities. The query gives one
row per (operator, ability) pair. An operator with a matching country but
no abilities gets a single row whose four ability columns are NULL; an
operator whose country matches no country row gives no row at all. The route then groups these rows by operator id
into a dictionary, in place:

- the first row of an id creates its record, with identity columns from
  that row, four empty ability fields and an empty `abilities` list;
- every truthy ability cell (neither NULL nor the empty string) overwrites
  its field and appends a display line, always in the column order trait,
  tactical gear, gadget 1, gadget 2;
- the page receives the dictionary's values in insertion order.

This project models that grouping and proves what the page relies on.

- `OperatorRows` (`operator_rows.dfy`): the row and record types, Python
  truthiness of a cell, the display lines, and `Absorb`, the effect of the
  four `if row[...]` blocks on a record.
- `OperatorTable` (`operator_table.dfy`): the dictionary as a map plus its
  insertion order, and `Fold`, the specification of the loop.
- `OperatorReference` (`operator_reference.dfy`): an independent per-id
  description of the result. For each id it gives the first row, the last
  truthy value of each column, and the lines of all its rows in row order.
  The lemmas here prove the fold equal to this description and derive the
  listed properties from it.
- `OperatorsPage` (`operators_page.dfy`): the route's loop as a method over
  a local `map<int, Record>` and a `seq<int>` of keys. It is proved equal
  to the fold, together with two worked examples.

## Model

| member | source | states |
|---|---|---|
| OperatorRows.Truthy | main.py:55-64 | Definition: Python truthiness of an ability cell, false for NULL and for the empty string. NoAbilitiesYieldsBareRecord and LastTruthyValueWins state its effect on the record. |
| OperatorRows.Lines | main.py:55-66 | Definition, with Line and Prefix: the f-string lines one row appends, "Trait: ", "Tactical Gear: ", "Gadget 1: " or "Gadget 2: " followed by the value. LinesInColumnOrder states their number, content and order. |
| OperatorRows.NewRecord | main.py:43-53 | Definition: the record literal created on an id's first row. IdentityFromFirstRow, ExpectedAppendOwn and NoAbilitiesYieldsBareRecord state what it contributes. |
| OperatorRows.Absorb | main.py:55-66 | Definition: the effect of one row's four `if` blocks on its record. AbsorbAppendsLines, StepTouchesOnlyItsId and LastTruthyValueWins state it. |
| OperatorTable.Step | main.py:40-66 | Definition: one iteration of the loop on the dictionary and its insertion order. StepAppendsNewId and StepTouchesOnlyItsId state it. |
| OperatorTable.Aggregate | main.py:68 | Definition, with Values: `list(operators_dict.values())` after the loop. AggregateInInsertionOrder, AggregateOnePerId and AggregateFirstAppearanceOrder state it. |
| OperatorsPage.Operators | main.py:37-68 | The list built by the loop is the fold of the rows. It has one record per distinct id, so it is no longer than the rows, and its ids are pairwise distinct. Records come in order of each id's first row. Each record is the reference record of its id. |
| OperatorsPage.AddAbilities | main.py:55-66 | The four `if` blocks applied to a stored record absorb the row. Each truthy cell overwrites its field. The row's lines are appended to `abilities` and nothing else changes. |
| OperatorRows.LinesInColumnOrder | main.py:55-66 | A row contributes one line per truthy cell, and nothing for a NULL or empty cell. Each line is the column's prefix followed by the value. The line of a column comes after the lines of all truthy columns before it. |
| OperatorRows.AbsorbAppendsLines | main.py:55-66 | Absorbing a row appends exactly that row's lines to the record's `abilities`. |
| OperatorTable.Fold | main.py:38-66 | After any sequence of rows, the insertion order lists every key exactly once and each record carries its own id. There are never more keys than rows. |
| OperatorTable.StepAppendsNewId | main.py:40-53 | Processing a row keeps the table well formed and adds its id to the keys. The insertion order grows by that id exactly when the id was new. |
| OperatorTable.StepTouchesOnlyItsId | main.py:40-66 | Processing a row leaves every record of another id unchanged. The row's own record absorbs the row; if the id was new, a fresh record does. |
| OperatorTable.AggregateInInsertionOrder | main.py:68 | The i-th record of the page's list carries the i-th inserted id. |
| OperatorReference.FirstIndex | main.py:42-43 | The index of the first row with an id: every earlier row has a different id. It equals the row count when no row has the id. |
| OperatorReference.FirstIndexAppend | main.py:42-43 | A later row never moves the first row of an id already seen. A row with a new id becomes that id's first row. |
| OperatorReference.IdsAreRowIds | main.py:39-43 | An id is among the rows' ids exactly when some row carries it, which is exactly when it has a first row. |
| OperatorReference.LinesOf | main.py:39-66 | An id's lines, taken from all its rows in row order, number exactly the truthy cells of those rows. |
| OperatorReference.LastCellMeaning | main.py:55-65 | A column's value for an id is None exactly when none of the id's rows has a truthy cell there. Otherwise it is the truthy cell of the last such row, and no later row of the id has a truthy cell in that column. |
| OperatorReference.NothingForAbsentId | main.py:42-53 | An id that no row carries has no lines and no ability values. |
| OperatorReference.ExpectedAppendOther | main.py:40-66 | A row leaves the reference record of every other id as it was. |
| OperatorReference.ExpectedAppendOwn | main.py:42-66 | A row turns the reference record of its own id into that record with the row absorbed. If the id is new, the starting record is the bare one from lines 43-53. |
| OperatorReference.FoldMatchesReference | main.py:38-68 | The fold's keys are exactly the ids of the rows, one per distinct id. Each record equals its reference record. The insertion order sorts ids by their first row. |
| OperatorReference.LaterRowsOnlyAppend | main.py:42-66 | Later rows never change an operator's name, info or country_name. They only extend its `abilities`, which keeps the earlier lines as a prefix. |
| OperatorReference.NoCellsNothingRecorded | main.py:48-66 | If none of an id's rows has a truthy cell, the id has no lines and no column values. |
| OperatorReference.AggregateOnePerId | main.py:38-68 | The list has one record per distinct id, with pairwise distinct ids, so its length is at most the number of rows. An id occurs in the list exactly when some row carries it. |
| OperatorReference.AggregateFirstAppearanceOrder | main.py:42-68 | Records appear in the order in which their ids first appear in the rows. |
| OperatorReference.AggregateMatchesReference | main.py:38-68 | Every record in the list is the reference record of its id. |
| OperatorReference.IdentityFromFirstRow | main.py:42-47 | A record's name, info and country_name are those of the first row with its id. |
| OperatorReference.NoAbilitiesYieldsBareRecord | main.py:48-66 | An operator whose rows have only NULL or empty ability cells gets `abilities == []` and all four ability fields None. |
| OperatorReference.AbilityLineCount | main.py:39-66 | A record's `abilities` has one line per truthy ability cell, counted over all rows with its id. |
| OperatorReference.LastTruthyValueWins | main.py:55-65 | Each ability field holds the value from the last row of the id where that column was truthy, and is None exactly when no such row exists. A later NULL or empty cell never clears it. |
| OperatorsPage.TwoAbilityRowsAbsorbed | main.py:55-60 | A trait row sets only `trait` and appends "Trait: X". A later tactical-gear row keeps the trait, sets `tactical_gear` and appends "Tactical Gear: Y". |
| OperatorsPage.TwoAbilityRowsExample | main.py:37-68 | Two rows for operator 7 give a single record listing both lines in row order. |
| OperatorsPage.EmptyCellsExample | main.py:42-66 | Rows whose ability cells are only NULL or the empty string give a single bare record. |

## Left out

- Flask routing, `render_template`, `url_for`, the `/`, `/weapons` and `/weapon/<id>` routes and `app.run` (main.py:2-5, 12-14, 70-79, 90-91) are page plumbing and are not modelled.
- sqlite3 connection handling and the SQL query (main.py:7-10, 18-35) run in the database. The query result is the input `seq<Row>` of `Operators`, so the JOIN semantics and the row order the database chooses are not modelled.
- The `/weapons/<category>` route (main.py:81-88) only filters weapons in SQL and passes them to a template, so it is not modelled.
- `name`, `info` and `country_name` are modelled as non-null strings. The loop only copies them into the record and never inspects them.
- Each ability line is modelled as the prefix followed by the value. The f-string formatting of the source is not modelled further.
- In the source, each record is a dictionary changed in place through `operators_dict[op_id]`. The model keeps it as a value that `AddAbilities` returns and the loop stores back under the same key. No other reference to a record exists during the loop, so aliasing cannot arise.
- Python dictionaries iterate in insertion order. The model keeps that order explicitly as a `seq<int>` next to the map.
