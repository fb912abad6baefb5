/**
 * The data-table managers of the interactive dashboard: queries over the
 * rows of one table (find by id, select by a set of ids, distinct column
 * values), shared with the linked tables, and the plain table manager.
 */
module DataTables {
  import opened Wrappers
  import opened JsValues
  import Sequences

  // ---------------------------------------------------------------------
  // Row queries shared by both managers

  /** `rows.find(row => row[idColumn] === id)`. */
  function FindById(rows: seq<Row>, idColumn: string, id: Value): Option<Row>
    decreases |rows|
  {
    if rows == [] then None
    else if StrictEquals(Get(rows[0], idColumn), id) then Some(rows[0])
    else FindById(rows[1..], idColumn, id)
  }

  /** Nothing is found exactly when no row's id strictly equals `id` (never, for NaN). */
  lemma {:induction false} FindByIdNone(rows: seq<Row>, idColumn: string, id: Value)
    ensures FindById(rows, idColumn, id).None? <==>
      forall i :: 0 <= i < |rows| ==> !StrictEquals(Get(rows[i], idColumn), id)
    decreases |rows|
  {
    if rows != [] {
      FindByIdNone(rows[1..], idColumn, id);
      assert forall i :: 1 <= i < |rows| ==> rows[1..][i - 1] == rows[i];
    }
  }

  /** The row found is the first whose id strictly equals `id`. */
  lemma {:induction false} FindByIdFirst(rows: seq<Row>, idColumn: string, id: Value, i: nat)
    requires i < |rows| && StrictEquals(Get(rows[i], idColumn), id)
    requires forall k :: 0 <= k < i ==> !StrictEquals(Get(rows[k], idColumn), id)
    ensures FindById(rows, idColumn, id) == Some(rows[i])
    decreases i
  {
    if i > 0 {
      assert rows[1..][i - 1] == rows[i];
      assert forall k :: 0 <= k < i - 1 ==> rows[1..][k] == rows[k + 1];
      FindByIdFirst(rows[1..], idColumn, id, i - 1);
    }
  }

  /** `rows.filter(row => ids.has(row[idColumn]))`. */
  function RowsWithIds(rows: seq<Row>, idColumn: string, ids: set<Value>): seq<Row> {
    Sequences.Filter(rows, (row: Row) => Get(row, idColumn) in ids)
  }

  /** Exactly the rows whose id is in the set are kept, and concatenation commutes with the selection. */
  lemma RowsWithIdsKeeps(a: seq<Row>, b: seq<Row>, idColumn: string, ids: set<Value>)
    ensures forall row :: row in RowsWithIds(a, idColumn, ids) <==> row in a && Get(row, idColumn) in ids
    ensures RowsWithIds(a + b, idColumn, ids) == RowsWithIds(a, idColumn, ids) + RowsWithIds(b, idColumn, ids)
  {
    Sequences.FilterMembers(a, (row: Row) => Get(row, idColumn) in ids);
    Sequences.FilterAppend(a, b, (row: Row) => Get(row, idColumn) in ids);
  }

  /** `Array.from(new Set(rows.map(row => row[column])))`. */
  function ColumnValues(rows: seq<Row>, column: string): seq<Value> {
    Sequences.Distinct(Column(rows, column))
  }

  /**
   * The distinct values are exactly the values the column takes, each once,
   * listed in the order of their first occurrence.
   */
  lemma ColumnValuesDistinct(rows: seq<Row>, column: string)
    ensures forall v :: v in ColumnValues(rows, column) <==> exists i :: 0 <= i < |rows| && Get(rows[i], column) == v
    ensures Sequences.NoDuplicates(ColumnValues(rows, column))
    ensures forall i, j :: 0 <= i < j < |ColumnValues(rows, column)| ==>
      Sequences.FirstIndex(Column(rows, column), ColumnValues(rows, column)[i])
        < Sequences.FirstIndex(Column(rows, column), ColumnValues(rows, column)[j])
  {
    var col := Column(rows, column);
    Sequences.DistinctFirstOccurrence(col);
    forall v | v in ColumnValues(rows, column)
      ensures exists i :: 0 <= i < |rows| && Get(rows[i], column) == v
    {
      var i := Sequences.FirstIndex(col, v);
      assert Get(rows[i], column) == v;
    }
    forall v, i | 0 <= i < |rows| && Get(rows[i], column) == v
      ensures v in ColumnValues(rows, column)
    {
      assert col[i] == v;
    }
  }

  // ---------------------------------------------------------------------
  // DataTableManager

  /** The table configuration; column display options are not modelled. */
  datatype TableConfig = TableConfig(name: string, dataset: string, idColumn: string, visible: bool)

  /** A loaded table: its configuration, its id column and its rows. */
  datatype DataTableManager = DataTableManager(config: TableConfig, idColumn: string, data: seq<Row>)

  /** The constructor: no rows until a load, and the id column taken from the configuration. */
  function NewDataTableManager(config: TableConfig): (t: DataTableManager)
    ensures t.data == [] && t.config == config && t.idColumn == config.idColumn
  {
    DataTableManager(config, config.idColumn, [])
  }

  /** `getRowById`: the first row whose id strictly equals `id`. */
  function GetRowById(t: DataTableManager, id: Value): (r: Option<Row>)
    ensures r.Some? ==> r.value in t.data && StrictEquals(Get(r.value, t.idColumn), id)
  {
    FindByIdFound(t.data, t.idColumn, id);
    FindById(t.data, t.idColumn, id)
  }

  /** A row that is found is a row of the table with a matching id. */
  lemma {:induction false} FindByIdFound(rows: seq<Row>, idColumn: string, id: Value)
    ensures FindById(rows, idColumn, id).Some? ==>
      FindById(rows, idColumn, id).value in rows
      && StrictEquals(Get(FindById(rows, idColumn, id).value, idColumn), id)
    decreases |rows|
  {
    if rows != [] {
      FindByIdFound(rows[1..], idColumn, id);
    }
  }

  /** `getRowsByIds`: the rows whose id is in `ids`, in table order. */
  function GetRowsByIds(t: DataTableManager, ids: set<Value>): seq<Row> {
    RowsWithIds(t.data, t.idColumn, ids)
  }

  /** `getColumnValues`: the column's distinct values in first-occurrence order. */
  function GetColumnValues(t: DataTableManager, column: string): seq<Value> {
    ColumnValues(t.data, column)
  }

  /** A row found by id is among the rows selected by that id, and the id is among the id column's values. */
  lemma RowByIdIsSelected(t: DataTableManager, id: Value)
    requires GetRowById(t, id).Some?
    ensures GetRowById(t, id).value in GetRowsByIds(t, {id})
    ensures id in GetColumnValues(t, t.idColumn)
  {
    var row := GetRowById(t, id).value;
    RowsWithIdsKeeps(t.data, [], t.idColumn, {id});
    ColumnValuesDistinct(t.data, t.idColumn);
    var i :| 0 <= i < |t.data| && t.data[i] == row;
    assert Get(t.data[i], t.idColumn) == id;
    assert exists k :: 0 <= k < |t.data| && Get(t.data[k], t.idColumn) == id;
  }
}
