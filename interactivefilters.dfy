/**
 * The interactive dashboard's filter manager: a map of named filters,
 * applied to rows with AND across filters and OR within a filter's values.
 * A binned filter with a non-zero bin size matches half-open numeric
 * ranges; every other filter matches through a tolerant three-step value
 * comparison. Observers are recorded as notifications in a log.
 */
module InteractiveFilters {
  import opened Wrappers
  import opened JsText
  import opened JsValues
  import Sequences

  datatype FilterType = Categorical | Range | Time | Binned

  datatype Behavior = Toggle | Replace

  datatype Filter = Filter(
    id: string,
    column: string,
    kind: FilterType,
    values: set<Value>,
    behavior: Behavior,
    binSize: Option<Number>)

  type Filters = map<string, Filter>

  /** Every stored filter is non-empty and stored under its own id. */
  predicate WellFormed(filters: Filters) {
    forall id :: id in filters ==> filters[id].values != {} && filters[id].id == id
  }

  // ---------------------------------------------------------------------
  // State transitions

  /** `setFilter`: an empty value set removes the filter, any other replaces it. */
  function PutFilter(
    filters: Filters, filterId: string, column: string, values: set<Value>,
    kind: FilterType, binSize: Option<Number>): (r: Filters)
    ensures values == {} ==> filterId !in r
    ensures values != {} ==> filterId in r && r[filterId] == Filter(filterId, column, kind, values, Toggle, binSize)
    ensures forall other :: other != filterId ==>
      (other in r <==> other in filters) && (other in r ==> r[other] == filters[other])
  {
    if |values| == 0 then filters - {filterId}
    else filters[filterId := Filter(filterId, column, kind, values, Toggle, binSize)]
  }

  /**
   * `toggleFilterValue`: an unknown id changes nothing; a present value is
   * removed, and the filter with it once empty; an absent value is added.
   */
  function ToggleValue(filters: Filters, filterId: string, value: Value): (r: Filters)
    ensures filterId !in filters ==> r == filters
    ensures forall other :: other != filterId ==>
      (other in r <==> other in filters) && (other in r ==> r[other] == filters[other])
    ensures filterId in filters && value in filters[filterId].values ==>
      (filterId in r <==> filters[filterId].values != {value})
      && (filterId in r ==> r[filterId] == filters[filterId].(values := filters[filterId].values - {value}))
    ensures filterId in filters && value !in filters[filterId].values ==>
      filterId in r && r[filterId] == filters[filterId].(values := filters[filterId].values + {value})
  {
    if filterId !in filters then filters
    else
      var f := filters[filterId];
      if value in f.values then
        var remaining := f.values - {value};
        if |remaining| == 0 then filters - {filterId}
        else filters[filterId := f.(values := remaining)]
      else filters[filterId := f.(values := f.values + {value})]
  }

  /** `setFilter` keeps every stored filter non-empty. */
  lemma PutFilterWellFormed(
    filters: Filters, filterId: string, column: string, values: set<Value>,
    kind: FilterType, binSize: Option<Number>)
    requires WellFormed(filters)
    ensures WellFormed(PutFilter(filters, filterId, column, values, kind, binSize))
  {
    var r := PutFilter(filters, filterId, column, values, kind, binSize);
    forall id | id in r ensures r[id].values != {} && r[id].id == id {
      if id != filterId {
        assert r[id] == filters[id];
      }
    }
  }

  /** `toggleFilterValue` keeps every stored filter non-empty. */
  lemma ToggleWellFormed(filters: Filters, filterId: string, value: Value)
    requires WellFormed(filters)
    ensures WellFormed(ToggleValue(filters, filterId, value))
  {
    var r := ToggleValue(filters, filterId, value);
    forall id | id in r ensures r[id].values != {} && r[id].id == id {
      if id != filterId {
        assert r[id] == filters[id];
      } else if value in filters[id].values {
        assert filters[id].values != {value};
        assert filters[id].values - {value} != {} by {
          var other :| other in filters[id].values && other != value;
          assert other in filters[id].values - {value};
        }
      }
    }
  }

  /**
   * Toggling one value twice restores the filters, unless the value was a
   * filter's last one: then the first toggle deleted the filter and the
   * second does nothing.
   */
  lemma ToggleTwice(filters: Filters, filterId: string, value: Value)
    requires WellFormed(filters)
    ensures ToggleValue(ToggleValue(filters, filterId, value), filterId, value) == filters
      <==> !(filterId in filters && filters[filterId].values == {value})
  {
    if filterId in filters && filters[filterId].values == {value} {
      ToggleTwiceDropsLast(filters, filterId, value);
    } else if filterId in filters {
      ToggleTwiceRestores(filters, filterId, value);
    }
  }

  lemma ToggleTwiceDropsLast(filters: Filters, filterId: string, value: Value)
    requires filterId in filters && filters[filterId].values == {value}
    ensures filterId !in ToggleValue(ToggleValue(filters, filterId, value), filterId, value)
  {
  }

  lemma ToggleTwiceRestores(filters: Filters, filterId: string, value: Value)
    requires WellFormed(filters) && filterId in filters && filters[filterId].values != {value}
    ensures ToggleValue(ToggleValue(filters, filterId, value), filterId, value) == filters
  {
    var twice := ToggleValue(ToggleValue(filters, filterId, value), filterId, value);
    var f := filters[filterId];
    if value in f.values {
      assert f.values - {value} + {value} == f.values;
    } else {
      assert f.values + {value} - {value} == f.values;
    }
    assert twice[filterId] == f;
  }

  // ---------------------------------------------------------------------
  // Matching

  predicate IsAsciiLetter(c: char) { 'a' <= c <= 'z' || 'A' <= c <= 'Z' }

  predicate AllLetters(s: string) {
    forall i :: 0 <= i < |s| ==> IsAsciiLetter(s[i])
  }

  /** The length of the run of ASCII letters that starts `s`. */
  function LetterRun(s: string): (n: nat)
    ensures n <= |s| && AllLetters(s[..n])
    ensures n == |s| || !IsAsciiLetter(s[n])
  {
    if s != [] && IsAsciiLetter(s[0]) then
      var n := 1 + LetterRun(s[1..]);
      assert forall i :: 1 <= i < n ==> s[..n][i] == s[1..][..n - 1][i - 1];
      n
    else 0
  }

  /** The digits of a string matching `^[a-zA-Z]+_\d+$`, or `None`. */
  function PrefixedNumber(s: string): (r: Option<string>)
    ensures r.Some? ==> |r.value| >= 1 && AllDecimalDigits(r.value)
  {
    var n := LetterRun(s);
    if 1 <= n && n + 1 < |s| && s[n] == '_' && AllDecimalDigits(s[n + 1..]) then Some(s[n + 1..])
    else None
  }

  /** A letters-underscore-digits string gives back exactly its digits. */
  lemma PrefixedNumberOf(prefix: string, digits: string)
    requires |prefix| >= 1 && AllLetters(prefix)
    requires |digits| >= 1 && AllDecimalDigits(digits)
    ensures PrefixedNumber(prefix + "_" + digits) == Some(digits)
  {
    var s := prefix + "_" + digits;
    assert s[..|prefix|] == prefix && s[|prefix|] == '_';
    assert LetterRun(s) == |prefix| by {
      LetterRunOf(s, |prefix|);
    }
    assert s[|prefix| + 1..] == digits;
  }

  lemma {:induction false} LetterRunOf(s: string, n: nat)
    requires n <= |s| && AllLetters(s[..n]) && (n == |s| || !IsAsciiLetter(s[n]))
    ensures LetterRun(s) == n
    decreases n
  {
    if n > 0 {
      assert IsAsciiLetter(s[..n][0]);
      assert s[1..][..n - 1] == s[..n][1..];
      LetterRunOf(s[1..], n - 1);
    }
  }

  /** The prefix rule: `prefixed` matches `^[a-zA-Z]+_\d+$` and its digits are `other`. */
  predicate PrefixMatch(prefixed: string, other: string) {
    var m := PrefixedNumber(prefixed);
    m.Some? && other == m.value
  }

  /** `valuesMatch`: strict equality, then loose equality, then the prefix rule either way round. */
  predicate ValuesMatch(cell: Value, filterValue: Value) {
    StrictEquals(cell, filterValue)
    || LooseEquals(cell, filterValue)
    || PrefixMatch(ToStr(filterValue), ToStr(cell))
    || PrefixMatch(ToStr(cell), ToStr(filterValue))
  }

  /** The matcher does not care which side is the cell. */
  lemma ValuesMatchSymmetric(a: Value, b: Value)
    ensures ValuesMatch(a, b) == ValuesMatch(b, a)
  {
    LooseEqualsSymmetric(a, b);
  }

  /** Every value other than NaN matches itself. */
  lemma ValuesMatchReflexive(v: Value)
    requires v != Num(NaN)
    ensures ValuesMatch(v, v)
  {
  }

  /** A NaN cell matches no filter value. */
  lemma NaNMatchesNothing(filterValue: Value)
    ensures !ValuesMatch(Num(NaN), filterValue)
  {
    LooseEqualsNaN(filterValue);
    NaNHasNoPrefixedNumber();
    NaNIsNoDigits(ToStr(filterValue));
  }

  /** "NaN" is all letters, so it has no underscore and no digits. */
  lemma NaNHasNoPrefixedNumber()
    ensures PrefixedNumber("NaN") == None
  {
    LetterRunOf("NaN", 3);
  }

  /** The digits of a prefixed label are never "NaN". */
  lemma NaNIsNoDigits(prefixed: string)
    ensures !PrefixMatch(prefixed, "NaN")
  {
    var m := PrefixedNumber(prefixed);
    if m.Some? {
      assert IsDecimalDigit(m.value[0]);
    }
  }

  /** A cluster id matches its prefixed label: the cell 55 matches the filter value "origin_55". */
  lemma PrefixedLabelMatches(prefix: string, id: nat)
    requires |prefix| >= 1 && AllLetters(prefix)
    ensures ValuesMatch(Num(Fin(id)), Str(prefix + "_" + IntToString(id)))
  {
    PrefixedNumberOf(prefix, NatToString(id));
  }

  /** `filter.binSize` is truthy: present, a number, and neither 0 nor NaN. */
  predicate HasBinSize(f: Filter) {
    f.binSize.Some? && f.binSize.value.Fin? && f.binSize.value.v != 0
  }

  /** `binStart <= v < binStart + binSize` after `Number(binStart)`; NaN compares false. */
  predicate InBin(v: int, binStart: Value, binSize: int) {
    var b := ToNumber(binStart);
    b.Fin? && b.v <= v < b.v + binSize
  }

  /** One filter accepts a row: some value (OR) matches the row's cell. */
  predicate FilterAccepts(f: Filter, row: Row) {
    var cell := Get(row, f.column);
    if f.kind == Binned && HasBinSize(f) then
      var n := ToNumber(cell);
      n.Fin? && exists binStart :: binStart in f.values && InBin(n.v, binStart, f.binSize.value.v)
    else
      exists filterValue :: filterValue in f.values && ValuesMatch(cell, filterValue)
  }

  /** Every filter (AND) accepts the row. */
  predicate RowPasses(filters: Filters, row: Row) {
    forall id :: id in filters ==> FilterAccepts(filters[id], row)
  }

  /** `applyFilters`: the input itself with no filters, otherwise the passing rows in order. */
  function Apply(filters: Filters, data: seq<Row>): (r: seq<Row>)
    ensures |filters| == 0 ==> r == data
    ensures forall row :: row in r <==> row in data && RowPasses(filters, row)
  {
    if |filters| == 0 then data
    else
      var passes := (row: Row) => RowPasses(filters, row);
      Sequences.FilterMembers(data, passes);
      Sequences.Filter(data, passes)
  }

  /** Applying filters distributes over concatenated data, so row order is kept. */
  lemma ApplyAppend(filters: Filters, a: seq<Row>, b: seq<Row>)
    ensures Apply(filters, a + b) == Apply(filters, a) + Apply(filters, b)
  {
    if |filters| != 0 {
      Sequences.FilterAppend(a, b, row => RowPasses(filters, row));
    }
  }

  /** A null or empty-string cell reads as 0, so it falls into the bin [0, binSize) when binSize > 0. */
  lemma NullCellInZeroBin(f: Filter, row: Row)
    requires f.kind == Binned && HasBinSize(f) && f.binSize.value.v > 0
    requires Num(Fin(0)) in f.values
    requires Get(row, f.column) == Null || Get(row, f.column) == Str("")
    ensures FilterAccepts(f, row)
  {
    NullAndEmptyAreZero(Get(row, f.column));
    ZeroCellInZeroBin(f, row);
  }

  lemma ZeroCellInZeroBin(f: Filter, row: Row)
    requires f.kind == Binned && HasBinSize(f) && f.binSize.value.v > 0
    requires Num(Fin(0)) in f.values
    requires ToNumber(Get(row, f.column)) == Fin(0)
    ensures FilterAccepts(f, row)
  {
    assert InBin(0, Num(Fin(0)), f.binSize.value.v);
  }

  /** An undefined cell never falls into a bin. */
  lemma UndefinedCellInNoBin(f: Filter, row: Row)
    requires f.kind == Binned && HasBinSize(f)
    requires f.column !in row
    ensures !FilterAccepts(f, row)
  {
  }

  // ---------------------------------------------------------------------
  // The manager

  /** One call of `notifyObservers`: who was told, and the filters they saw. */
  datatype Notification = Notification(recipients: set<nat>, filters: Filters)

  class FilterManager {
    var filters: Filters
    /** The registered observers, by identity. */
    var observers: set<nat>
    /** Every notification sent so far, oldest first. */
    var notifications: seq<Notification>

    predicate Valid()
      reads this
    {
      WellFormed(filters)
    }

    constructor()
      ensures Valid()
      ensures filters == map[] && observers == {} && notifications == []
    {
      filters := map[];
      observers := {};
      notifications := [];
    }

    method AddObserver(observer: nat)
      modifies this
      ensures observers == old(observers) + {observer}
      ensures filters == old(filters) && notifications == old(notifications)
    {
      observers := observers + {observer};
    }

    method RemoveObserver(observer: nat)
      modifies this
      ensures observers == old(observers) - {observer}
      ensures filters == old(filters) && notifications == old(notifications)
    {
      observers := observers - {observer};
    }

    method NotifyObservers()
      modifies this
      ensures filters == old(filters) && observers == old(observers)
      ensures notifications == old(notifications) + [Notification(observers, filters)]
    {
      notifications := notifications + [Notification(observers, filters)];
    }

    method SetFilter(filterId: string, column: string, values: set<Value>, kind: FilterType, binSize: Option<Number>)
      requires Valid()
      modifies this
      ensures Valid()
      ensures filters == PutFilter(old(filters), filterId, column, values, kind, binSize)
      ensures observers == old(observers)
      ensures notifications == old(notifications) + [Notification(observers, filters)]
    {
      PutFilterWellFormed(filters, filterId, column, values, kind, binSize);
      if |values| == 0 {
        filters := filters - {filterId};
      } else {
        filters := filters[filterId := Filter(filterId, column, kind, values, Toggle, binSize)];
      }
      NotifyObservers();
    }

    method ToggleFilterValue(filterId: string, value: Value)
      requires Valid()
      modifies this
      ensures Valid()
      ensures filters == ToggleValue(old(filters), filterId, value)
      ensures observers == old(observers)
      ensures filterId !in old(filters) ==> notifications == old(notifications)
      ensures filterId in old(filters) ==> notifications == old(notifications) + [Notification(observers, filters)]
    {
      ToggleWellFormed(filters, filterId, value);
      if filterId !in filters {
        return;
      }
      var filter := filters[filterId];
      if value in filter.values {
        filter := filter.(values := filter.values - {value});
        if |filter.values| == 0 {
          filters := filters - {filterId};
        } else {
          filters := filters[filterId := filter];
        }
      } else {
        filters := filters[filterId := filter.(values := filter.values + {value})];
      }
      NotifyObservers();
    }

    method ClearFilter(filterId: string)
      requires Valid()
      modifies this
      ensures Valid()
      ensures filters == old(filters) - {filterId}
      ensures observers == old(observers)
      ensures notifications == old(notifications) + [Notification(observers, filters)]
    {
      filters := filters - {filterId};
      NotifyObservers();
    }

    method ClearAllFilters()
      modifies this
      ensures Valid()
      ensures filters == map[]
      ensures observers == old(observers)
      ensures notifications == old(notifications) + [Notification(observers, filters)]
    {
      filters := map[];
      NotifyObservers();
    }

    function GetFilters(): (r: Filters)
      reads this
      ensures r == filters
    {
      filters
    }

    /** `hasActiveFilters`: some filter is stored. */
    function HasActiveFilters(): (b: bool)
      reads this
      ensures b <==> exists id :: id in filters
    {
      assert forall id :: id in filters ==> |filters| > 0;
      |filters| > 0
    }

    /** `applyFilters(data)` over the current filters. */
    function ApplyFilters(data: seq<Row>): (r: seq<Row>)
      reads this
      ensures !HasActiveFilters() ==> r == data
      ensures forall row :: row in r <==> row in data && RowPasses(filters, row)
    {
      Apply(filters, data)
    }
  }
}
