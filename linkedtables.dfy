/**
 * The linked table manager: a secondary table whose visible rows are those
 * linked to the rows selected in a parent table, with listeners told of
 * every new selection. Listener calls are recorded in a log.
 */
module LinkedTables {
  import opened Wrappers
  import opened JsValues
  import Sequences
  import opened DataTables

  datatype LinkedTableConfig = LinkedTableConfig(
    name: string, dataset: string, idColumn: string, linkColumn: string, visible: Option<bool>)

  /** A registered callback, by identity. */
  datatype Listener = Listener(id: nat)

  /** One call of a listener with the rows it was given. */
  datatype Notification = Notification(listener: Listener, rows: seq<Row>)

  /**
   * The visible rows: all of them when nothing is selected in the parent,
   * otherwise the rows whose link column holds a selected id.
   */
  function FilterByParent(data: seq<Row>, linkColumn: string, selected: set<Value>): seq<Row> {
    if |selected| == 0 then data else RowsWithIds(data, linkColumn, selected)
  }

  /**
   * An empty parent selection shows every row; a non-empty one shows exactly
   * the linked rows, in table order.
   */
  lemma FilterByParentKeeps(a: seq<Row>, b: seq<Row>, linkColumn: string, selected: set<Value>)
    ensures selected == {} ==> FilterByParent(a, linkColumn, selected) == a
    ensures selected != {} ==> forall row :: row in FilterByParent(a, linkColumn, selected) <==>
      row in a && Get(row, linkColumn) in selected
    ensures FilterByParent(a + b, linkColumn, selected)
         == FilterByParent(a, linkColumn, selected) + FilterByParent(b, linkColumn, selected)
  {
    RowsWithIdsKeeps(a, b, linkColumn, selected);
  }

  /** `listeners.forEach(callback => callback(rows))`, as the calls made. */
  function Deliveries(listeners: seq<Listener>, rows: seq<Row>): (r: seq<Notification>)
    ensures |r| == |listeners|
    ensures forall i :: 0 <= i < |listeners| ==> r[i].listener == listeners[i] && r[i].rows == rows
  {
    seq(|listeners|, i requires 0 <= i < |listeners| => Notification(listeners[i], rows))
  }

  class LinkedTableManager {
    var data: seq<Row>
    var filteredData: seq<Row>
    const config: LinkedTableConfig
    const idColumn: string
    const linkColumn: string
    var parentSelectedIds: set<Value>
    var listeners: seq<Listener>
    /** Every listener call so far, oldest first. */
    var notifications: seq<Notification>

    constructor(config: LinkedTableConfig)
      ensures this.config == config && idColumn == config.idColumn && linkColumn == config.linkColumn
      ensures data == [] && filteredData == [] && parentSelectedIds == {}
      ensures listeners == [] && notifications == []
    {
      this.config := config;
      idColumn := config.idColumn;
      linkColumn := config.linkColumn;
      data := [];
      filteredData := [];
      parentSelectedIds := {};
      listeners := [];
      notifications := [];
    }

    /** The completion of `loadData`: the parsed rows replace the data and the filter is reapplied. */
    method Load(rows: seq<Row>)
      modifies this
      ensures data == rows && filteredData == FilterByParent(rows, linkColumn, parentSelectedIds)
      ensures parentSelectedIds == old(parentSelectedIds)
      ensures listeners == old(listeners) && notifications == old(notifications)
    {
      data := rows;
      ApplyFilter();
    }

    /** `setParentSelection`: store the selection, refilter, then call every listener with the new rows. */
    method SetParentSelection(selectedIds: set<Value>)
      modifies this
      ensures parentSelectedIds == selectedIds
      ensures filteredData == FilterByParent(data, linkColumn, selectedIds)
      ensures data == old(data) && listeners == old(listeners)
      ensures notifications == old(notifications) + Deliveries(listeners, filteredData)
    {
      parentSelectedIds := selectedIds;
      ApplyFilter();
      NotifyListeners();
    }

    method ApplyFilter()
      modifies this
      ensures filteredData == FilterByParent(data, linkColumn, parentSelectedIds)
      ensures data == old(data) && parentSelectedIds == old(parentSelectedIds)
      ensures listeners == old(listeners) && notifications == old(notifications)
    {
      if |parentSelectedIds| == 0 {
        filteredData := data;
      } else {
        filteredData := RowsWithIds(data, linkColumn, parentSelectedIds);
      }
    }

    method NotifyListeners()
      modifies this
      ensures notifications == old(notifications) + Deliveries(listeners, filteredData)
      ensures data == old(data) && filteredData == old(filteredData)
      ensures parentSelectedIds == old(parentSelectedIds) && listeners == old(listeners)
    {
      var i := 0;
      while i < |listeners|
        invariant i <= |listeners|
        invariant notifications == old(notifications) + Deliveries(listeners[..i], filteredData)
        invariant data == old(data) && filteredData == old(filteredData)
        invariant parentSelectedIds == old(parentSelectedIds) && listeners == old(listeners)
      {
        assert Deliveries(listeners[..i + 1], filteredData)
            == Deliveries(listeners[..i], filteredData) + [Notification(listeners[i], filteredData)];
        notifications := notifications + [Notification(listeners[i], filteredData)];
        i := i + 1;
      }
      assert listeners[..i] == listeners;
    }

    function GetAllData(): seq<Row>
      reads this
    {
      data
    }

    function GetFilteredData(): seq<Row>
      reads this
    {
      filteredData
    }

    /** `getRowById`, searching the visible rows only. */
    function GetRowById(id: Value): (r: Option<Row>)
      reads this
      ensures r.Some? ==> r.value in filteredData && StrictEquals(Get(r.value, idColumn), id)
    {
      FindByIdFound(filteredData, idColumn, id);
      FindById(filteredData, idColumn, id)
    }

    /** `getRowsByIds`, selecting among the visible rows only. */
    function GetRowsByIds(ids: set<Value>): seq<Row>
      reads this
    {
      RowsWithIds(filteredData, idColumn, ids)
    }

    /** `getColumnValues`, over the visible rows only. */
    function GetColumnValues(column: string): seq<Value>
      reads this
    {
      ColumnValues(filteredData, column)
    }

    method AddListener(callback: Listener)
      modifies this
      ensures listeners == old(listeners) + [callback]
      ensures data == old(data) && filteredData == old(filteredData)
      ensures parentSelectedIds == old(parentSelectedIds) && notifications == old(notifications)
    {
      listeners := listeners + [callback];
    }

    /** `removeListener` drops every registration of `callback` and keeps the others in order. */
    method RemoveListener(callback: Listener)
      modifies this
      ensures listeners == Sequences.Filter(old(listeners), (l: Listener) => l != callback)
      ensures callback !in listeners && forall l :: l != callback ==> (l in listeners <==> l in old(listeners))
      ensures data == old(data) && filteredData == old(filteredData)
      ensures parentSelectedIds == old(parentSelectedIds) && notifications == old(notifications)
    {
      Sequences.FilterMembers(listeners, (l: Listener) => l != callback);
      listeners := Sequences.Filter(listeners, (l: Listener) => l != callback);
    }
  }

  /** The rows a linked table shows are always among its rows, whatever the parent selection. */
  lemma VisibleRowsAreRows(data: seq<Row>, linkColumn: string, selected: set<Value>)
    ensures forall row :: row in FilterByParent(data, linkColumn, selected) ==> row in data
  {
    FilterByParentKeeps(data, [], linkColumn, selected);
  }

  /**
   * Selecting rows by id among the visible rows is selecting them among all
   * rows and keeping the linked ones: the parent filter and the id query commute.
   */
  lemma QueryAfterParentFilter(data: seq<Row>, linkColumn: string, selected: set<Value>, idColumn: string, ids: set<Value>)
    ensures RowsWithIds(FilterByParent(data, linkColumn, selected), idColumn, ids)
         == FilterByParent(RowsWithIds(data, idColumn, ids), linkColumn, selected)
  {
    if |selected| != 0 {
      var linked := (row: Row) => Get(row, linkColumn) in selected;
      var wanted := (row: Row) => Get(row, idColumn) in ids;
      Sequences.FilterCommute(data, linked, wanted);
    }
  }
}
