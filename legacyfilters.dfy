/**
 * The older filter manager: filters are stored even when empty, and a row
 * passes a filter only when its cell is a member of the filter's value set.
 */
module LegacyFilters {
  import opened JsValues
  import Sequences

  datatype FilterType = Categorical | Range | Time | Binned

  datatype Behavior = Toggle | Replace

  datatype Filter = Filter(id: string, column: string, kind: FilterType, values: set<Value>, behavior: Behavior)

  type Filters = map<string, Filter>

  /** Every stored filter is stored under its own id. */
  predicate WellFormed(filters: Filters) {
    forall id :: id in filters ==> filters[id].id == id
  }

  /** `setFilter`: stores the filter, even with no values, replacing any previous one. */
  function PutFilter(filters: Filters, filterId: string, column: string, values: set<Value>, kind: FilterType): (r: Filters)
    ensures filterId in r && r[filterId] == Filter(filterId, column, kind, values, Toggle)
    ensures forall other :: other != filterId ==>
      (other in r <==> other in filters) && (other in r ==> r[other] == filters[other])
  {
    filters[filterId := Filter(filterId, column, kind, values, Toggle)]
  }

  /** `toggleFilterValue`: as in the interactive manager, but a filter stored empty can come back to life. */
  function ToggleValue(filters: Filters, filterId: string, value: Value): (r: Filters)
    ensures filterId !in filters ==> r == filters
    ensures forall other :: other != filterId ==>
      (other in r <==> other in filters) && (other in r ==> r[other] == filters[other])
    ensures filterId in filters && value in filters[filterId].values ==>
      (filterId in r <==> filters[filterId].values != {value})
      && (filterId in r ==> r[filterId] == filters[filterId].(values := filters[filterId].values - {value}))
    ensures filterId in filters && value !in filters[filterId].values ==>
      filterId in r && r[filterId] == filters[filterId].(values := filters[filterId].values + {value})
  {
    if filterId !in filters then filters
    else
      var f := filters[filterId];
      if value in f.values then
        var remaining := f.values - {value};
        if |remaining| == 0 then filters - {filterId}
        else filters[filterId := f.(values := remaining)]
      else filters[filterId := f.(values := f.values + {value})]
  }

  /** Both transitions keep every filter under its own id. */
  lemma TransitionsWellFormed(filters: Filters, filterId: string, column: string, values: set<Value>, kind: FilterType, value: Value)
    requires WellFormed(filters)
    ensures WellFormed(PutFilter(filters, filterId, column, values, kind))
    ensures WellFormed(ToggleValue(filters, filterId, value))
  {
    var p := PutFilter(filters, filterId, column, values, kind);
    forall id | id in p ensures p[id].id == id {
      if id != filterId {
        assert p[id] == filters[id];
      }
    }
    var t := ToggleValue(filters, filterId, value);
    forall id | id in t ensures t[id].id == id {
      if id != filterId {
        assert t[id] == filters[id];
      }
    }
  }

  /** A row passes when, for every filter, its cell is in that filter's set. */
  predicate RowPasses(filters: Filters, row: Row) {
    forall id :: id in filters ==> Get(row, filters[id].column) in filters[id].values
  }

  /** `applyFilters`: the input itself with no filters, otherwise the passing rows in order. */
  function Apply(filters: Filters, data: seq<Row>): (r: seq<Row>)
    ensures |filters| == 0 ==> r == data
    ensures forall row :: row in r <==> row in data && RowPasses(filters, row)
  {
    if |filters| == 0 then data
    else
      var passes := (row: Row) => RowPasses(filters, row);
      Sequences.FilterMembers(data, passes);
      Sequences.Filter(data, passes)
  }

  /** A stored filter with no values rejects every row. */
  lemma EmptyFilterRejectsAll(filters: Filters, data: seq<Row>, filterId: string)
    requires filterId in filters && filters[filterId].values == {}
    ensures Apply(filters, data) == []
  {
    assert filters.Keys != {};
    Sequences.FilterNone(data, row => RowPasses(filters, row));
  }

  /** Applying the filters twice is applying them once. */
  lemma ApplyIdempotent(filters: Filters, data: seq<Row>)
    ensures Apply(filters, Apply(filters, data)) == Apply(filters, data)
  {
    if |filters| != 0 {
      Sequences.FilterIdempotent(data, row => RowPasses(filters, row));
    }
  }

  /** Applying filters distributes over concatenated data, so row order is kept. */
  lemma ApplyAppend(filters: Filters, a: seq<Row>, b: seq<Row>)
    ensures Apply(filters, a + b) == Apply(filters, a) + Apply(filters, b)
  {
    if |filters| != 0 {
      Sequences.FilterAppend(a, b, row => RowPasses(filters, row));
    }
  }

  /** Adding a filter can only drop rows. */
  lemma PutFilterNarrows(filters: Filters, filterId: string, column: string, values: set<Value>, kind: FilterType, data: seq<Row>)
    requires filterId !in filters
    ensures forall row :: row in Apply(PutFilter(filters, filterId, column, values, kind), data) ==>
      row in Apply(filters, data)
  {
    var p := PutFilter(filters, filterId, column, values, kind);
    forall row | row in Apply(p, data) ensures row in Apply(filters, data) {
      forall id | id in filters ensures Get(row, filters[id].column) in filters[id].values {
        assert p[id] == filters[id];
      }
    }
  }

  datatype Notification = Notification(recipients: set<nat>, filters: Filters)

  class FilterManager {
    var filters: Filters
    var observers: set<nat>
    var notifications: seq<Notification>

    predicate Valid()
      reads this
    {
      WellFormed(filters)
    }

    constructor()
      ensures Valid()
      ensures filters == map[] && observers == {} && notifications == []
    {
      filters := map[];
      observers := {};
      notifications := [];
    }

    method AddObserver(observer: nat)
      modifies this
      ensures observers == old(observers) + {observer}
      ensures filters == old(filters) && notifications == old(notifications)
    {
      observers := observers + {observer};
    }

    method RemoveObserver(observer: nat)
      modifies this
      ensures observers == old(observers) - {observer}
      ensures filters == old(filters) && notifications == old(notifications)
    {
      observers := observers - {observer};
    }

    method NotifyObservers()
      modifies this
      ensures filters == old(filters) && observers == old(observers)
      ensures notifications == old(notifications) + [Notification(observers, filters)]
    {
      notifications := notifications + [Notification(observers, filters)];
    }

    method SetFilter(filterId: string, column: string, values: set<Value>, kind: FilterType)
      requires Valid()
      modifies this
      ensures Valid()
      ensures filters == PutFilter(old(filters), filterId, column, values, kind)
      ensures observers == old(observers)
      ensures notifications == old(notifications) + [Notification(observers, filters)]
    {
      TransitionsWellFormed(filters, filterId, column, values, kind, Null);
      filters := filters[filterId := Filter(filterId, column, kind, values, Toggle)];
      NotifyObservers();
    }

    method ToggleFilterValue(filterId: string, value: Value)
      requires Valid()
      modifies this
      ensures Valid()
      ensures filters == ToggleValue(old(filters), filterId, value)
      ensures observers == old(observers)
      ensures filterId !in old(filters) ==> notifications == old(notifications)
      ensures filterId in old(filters) ==> notifications == old(notifications) + [Notification(observers, filters)]
    {
      TransitionsWellFormed(filters, filterId, "", {}, Categorical, value);
      if filterId !in filters {
        return;
      }
      var filter := filters[filterId];
      if value in filter.values {
        filter := filter.(values := filter.values - {value});
        if |filter.values| == 0 {
          filters := filters - {filterId};
        } else {
          filters := filters[filterId := filter];
        }
      } else {
        filters := filters[filterId := filter.(values := filter.values + {value})];
      }
      NotifyObservers();
    }

    method ClearFilter(filterId: string)
      requires Valid()
      modifies this
      ensures Valid()
      ensures filters == old(filters) - {filterId}
      ensures observers == old(observers)
      ensures notifications == old(notifications) + [Notification(observers, filters)]
    {
      filters := filters - {filterId};
      NotifyObservers();
    }

    method ClearAllFilters()
      modifies this
      ensures Valid()
      ensures filters == map[]
      ensures observers == old(observers)
      ensures notifications == old(notifications) + [Notification(observers, filters)]
    {
      filters := map[];
      NotifyObservers();
    }

    function GetFilters(): (r: Filters)
      reads this
      ensures r == filters
    {
      filters
    }

    /** `applyFilters(data)` over the current filters. */
    function ApplyFilters(data: seq<Row>): (r: seq<Row>)
      reads this
      ensures |filters| == 0 ==> r == data
      ensures forall row :: row in r <==> row in data && RowPasses(filters, row)
    {
      Apply(filters, data)
    }
  }
}
