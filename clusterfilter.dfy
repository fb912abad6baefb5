/**
 * Cluster filtering of the commuter-clustering plugin: the requests of one
 * cluster, the distinct cluster ids in sorted order, and the number of
 * requests per cluster.
 *
 * A cluster id is whatever value the request's cluster column holds; the
 * ids `undefined`, `null` and the number -1 mark a request without a
 * cluster.
 */
module ClusterFilter {
  import opened JsText
  import opened JsValues
  import Sequences
  import Sorting

  datatype ClusterType = Origin | Destination | Spatial

  /** The `columnMap` every function here uses. */
  function ClusterColumn(clusterType: ClusterType): string {
    match clusterType
    case Origin => "origin_cluster"
    case Destination => "destination_cluster"
    case Spatial => "spatial_cluster"
  }

  /** `r[column]`. */
  function ClusterOf(r: Row, clusterType: ClusterType): Value {
    Get(r, ClusterColumn(clusterType))
  }

  // ---------------------------------------------------------------------
  // filterByCluster

  /** `String(r[column]) === String(clusterId)`. */
  predicate InCluster(r: Row, clusterId: Value, clusterType: ClusterType) {
    ToStr(ClusterOf(r, clusterType)) == ToStr(clusterId)
  }

  /** `filterByCluster`: the requests whose cluster spells the same as `clusterId`, in order. */
  function FilterByCluster(requests: seq<Row>, clusterId: Value, clusterType: ClusterType): seq<Row> {
    Sequences.Filter(requests, (r: Row) => InCluster(r, clusterId, clusterType))
  }

  /**
   * A request is kept iff its cluster value and the id stringify alike, so
   * the number 3 and the string "3" select the same requests.
   */
  lemma FilterByClusterKeeps(requests: seq<Row>, clusterId: Value, clusterType: ClusterType)
    ensures forall r :: r in FilterByCluster(requests, clusterId, clusterType) <==>
      r in requests && ToStr(ClusterOf(r, clusterType)) == ToStr(clusterId)
  {
    Sequences.FilterMembers(requests, (r: Row) => InCluster(r, clusterId, clusterType));
  }

  /** The number `i` and the string spelling it select the same requests. */
  lemma NumberAndStringIdAgree(requests: seq<Row>, i: int, clusterType: ClusterType)
    ensures FilterByCluster(requests, Num(Fin(i)), clusterType)
         == FilterByCluster(requests, Str(IntToString(i)), clusterType)
  {
    Sequences.FilterSame(requests, (r: Row) => InCluster(r, Num(Fin(i)), clusterType),
      (r: Row) => InCluster(r, Str(IntToString(i)), clusterType));
  }

  /** The filter keeps the input order: filtering a concatenation filters each part. */
  lemma FilterByClusterInOrder(a: seq<Row>, b: seq<Row>, clusterId: Value, clusterType: ClusterType)
    ensures FilterByCluster(a + b, clusterId, clusterType)
         == FilterByCluster(a, clusterId, clusterType) + FilterByCluster(b, clusterId, clusterType)
  {
    Sequences.FilterAppend(a, b, (r: Row) => InCluster(r, clusterId, clusterType));
  }

  // ---------------------------------------------------------------------
  // getClusterIds

  /** `id !== undefined && id !== null && id !== -1`. */
  predicate ValidId(id: Value) {
    id != Undefined && id != Null && id != Num(Fin(-1))
  }

  /** `requests.map(r => r[column]).filter(ValidId)`. */
  function Ids(requests: seq<Row>, clusterType: ClusterType): seq<Value> {
    if requests == [] then []
    else
      var id := ClusterOf(requests[|requests| - 1], clusterType);
      Ids(requests[..|requests| - 1], clusterType) + (if ValidId(id) then [id] else [])
  }

  /** The ids listed are the valid cluster values of the requests. */
  lemma {:induction false} IdsMembers(requests: seq<Row>, clusterType: ClusterType)
    ensures forall id :: id in Ids(requests, clusterType) <==>
      ValidId(id) && exists r :: r in requests && ClusterOf(r, clusterType) == id
    decreases |requests|
  {
    if requests != [] {
      var n := |requests|;
      var init := requests[..n - 1];
      IdsMembers(init, clusterType);
      assert requests == init + [requests[n - 1]];
      forall id | ValidId(id) && (exists r :: r in requests && ClusterOf(r, clusterType) == id)
        ensures id in Ids(requests, clusterType)
      {
        var r :| r in requests && ClusterOf(r, clusterType) == id;
        if r != requests[n - 1] {
          assert r in init;
        }
      }
    }
  }

  /** `(a, b) => a - b`, read as "may stay in front": only two finite numbers in descending order swap. */
  predicate NumericLe(a: Value, b: Value) {
    !(a.Num? && b.Num? && a.n.Fin? && b.n.Fin? && a.n.v > b.n.v)
  }

  /** Code-unit order of strings, the order the model gives `localeCompare`. */
  predicate CodeUnitLe(a: string, b: string) {
    if a == [] then true
    else if b == [] then false
    else a[0] < b[0] || (a[0] == b[0] && CodeUnitLe(a[1..], b[1..]))
  }

  /** `(a, b) => String(a).localeCompare(String(b))`, read as "may stay in front". */
  predicate StringLe(a: Value, b: Value) {
    CodeUnitLe(ToStr(a), ToStr(b))
  }

  /** Every id is a number. */
  predicate AllNumbers(ids: seq<Value>) {
    forall i :: 0 <= i < |ids| ==> ids[i].Num?
  }

  /** `getClusterIds`: the distinct valid ids, numerically when all are numbers, else by their strings. */
  function GetClusterIds(requests: seq<Row>, clusterType: ClusterType): seq<Value> {
    var uniqueIds := Sequences.Distinct(Ids(requests, clusterType));
    if AllNumbers(uniqueIds) then Sorting.SortBy(uniqueIds, NumericLe)
    else Sorting.SortBy(uniqueIds, StringLe)
  }

  /** Code-unit order is total. */
  lemma {:induction false} CodeUnitTotal(a: string, b: string)
    ensures CodeUnitLe(a, b) || CodeUnitLe(b, a)
    decreases |a|
  {
    if a != [] && b != [] && a[0] == b[0] {
      CodeUnitTotal(a[1..], b[1..]);
    }
  }

  /** Code-unit order is transitive. */
  lemma {:induction false} CodeUnitTransitive(a: string, b: string, c: string)
    requires CodeUnitLe(a, b) && CodeUnitLe(b, c)
    ensures CodeUnitLe(a, c)
    decreases |a|
  {
    if a != [] && b != [] && c != [] && a[0] == b[0] && b[0] == c[0] {
      CodeUnitTransitive(a[1..], b[1..], c[1..]);
    }
  }

  /** The string comparator is a total preorder on any ids. */
  lemma StringLePreorder(ids: seq<Value>)
    ensures Sorting.PreorderOn(ids, StringLe)
  {
    forall a, b | a in ids && b in ids ensures StringLe(a, b) || StringLe(b, a) {
      CodeUnitTotal(ToStr(a), ToStr(b));
    }
    forall a, b, c | a in ids && b in ids && c in ids && StringLe(a, b) && StringLe(b, c)
      ensures StringLe(a, c)
    {
      CodeUnitTransitive(ToStr(a), ToStr(b), ToStr(c));
    }
  }

  /** Every id is a finite number. */
  predicate AllFiniteNumbers(ids: seq<Value>) {
    forall i :: 0 <= i < |ids| ==> ids[i].Num? && ids[i].n.Fin?
  }

  /** The numeric comparator is a total preorder on finite numbers. */
  lemma NumericLePreorder(ids: seq<Value>)
    requires AllFiniteNumbers(ids)
    ensures Sorting.PreorderOn(ids, NumericLe)
  {
    forall a | a in ids ensures a.Num? && a.n.Fin? {
      assert a == ids[Sequences.FirstIndex(ids, a)];
    }
  }

  /** `getClusterIds` lists every valid cluster value of the requests, each once, and nothing else. */
  lemma GetClusterIdsMembers(requests: seq<Row>, clusterType: ClusterType)
    ensures forall id :: id in GetClusterIds(requests, clusterType) <==>
      ValidId(id) && exists r :: r in requests && ClusterOf(r, clusterType) == id
    ensures Sequences.NoDuplicates(GetClusterIds(requests, clusterType))
  {
    var ids := Ids(requests, clusterType);
    var uniqueIds := Sequences.Distinct(ids);
    IdsMembers(requests, clusterType);
    Sorting.SortByMembers(uniqueIds, NumericLe);
    Sorting.SortByMembers(uniqueIds, StringLe);
  }

  /** Distinct finite numbers sorted by the numeric comparator are strictly ascending. */
  lemma SortedNumbersAscend(ids: seq<Value>)
    requires Sorting.Sorted(ids, NumericLe) && Sequences.NoDuplicates(ids) && AllFiniteNumbers(ids)
    ensures forall i, j :: 0 <= i < j < |ids| ==> ids[i].n.v < ids[j].n.v
  {
    forall i, j | 0 <= i < j < |ids| ensures ids[i].n.v < ids[j].n.v {
      assert NumericLe(ids[i], ids[j]) && ids[i] != ids[j];
    }
  }

  /** When every id is a finite number the ids come out strictly ascending. */
  lemma GetClusterIdsNumeric(requests: seq<Row>, clusterType: ClusterType)
    requires AllFiniteNumbers(Sequences.Distinct(Ids(requests, clusterType)))
    ensures var ids := GetClusterIds(requests, clusterType);
      AllFiniteNumbers(ids) && forall i, j :: 0 <= i < j < |ids| ==> ids[i].n.v < ids[j].n.v
  {
    var uniqueIds := Sequences.Distinct(Ids(requests, clusterType));
    var ids := GetClusterIds(requests, clusterType);
    assert AllNumbers(uniqueIds);
    assert ids == Sorting.SortBy(uniqueIds, NumericLe);
    NumericLePreorder(uniqueIds);
    Sorting.SortBySorted(uniqueIds, NumericLe);
    Sorting.SortByMembers(uniqueIds, NumericLe);
    forall k | 0 <= k < |ids| ensures ids[k].Num? && ids[k].n.Fin? {
      assert ids[k] in uniqueIds;
      assert ids[k] == uniqueIds[Sequences.FirstIndex(uniqueIds, ids[k])];
    }
    SortedNumbersAscend(ids);
  }

  /** When some id is not a number the ids come out in the order of their strings. */
  lemma GetClusterIdsByString(requests: seq<Row>, clusterType: ClusterType)
    requires !AllNumbers(Sequences.Distinct(Ids(requests, clusterType)))
    ensures var ids := GetClusterIds(requests, clusterType);
      forall i, j :: 0 <= i < j < |ids| ==> CodeUnitLe(ToStr(ids[i]), ToStr(ids[j]))
  {
    var uniqueIds := Sequences.Distinct(Ids(requests, clusterType));
    StringLePreorder(uniqueIds);
    Sorting.SortBySorted(uniqueIds, StringLe);
  }

  // ---------------------------------------------------------------------
  // getClusterRequestCounts

  /** The number of requests carrying `id` in the cluster column. */
  function CountOf(requests: seq<Row>, clusterType: ClusterType, id: Value): nat {
    if requests == [] then 0
    else
      CountOf(requests[..|requests| - 1], clusterType, id)
      + (if ClusterOf(requests[|requests| - 1], clusterType) == id then 1 else 0)
  }

  /** A value no request carries has count 0, and one that some request carries has a positive count. */
  lemma {:induction false} CountOfPositive(requests: seq<Row>, clusterType: ClusterType, id: Value)
    ensures CountOf(requests, clusterType, id) > 0 <==> exists r :: r in requests && ClusterOf(r, clusterType) == id
    decreases |requests|
  {
    if requests != [] {
      var n := |requests|;
      var init := requests[..n - 1];
      CountOfPositive(init, clusterType, id);
      assert requests == init + [requests[n - 1]];
      if exists r :: r in requests && ClusterOf(r, clusterType) == id {
        var r :| r in requests && ClusterOf(r, clusterType) == id;
        if r != requests[n - 1] {
          assert r in init;
        }
      }
    }
  }

  /** One loop step: the counts of `done + [r]` from those of `done`. */
  lemma CountStep(requests: seq<Row>, i: nat, clusterType: ClusterType)
    requires i < |requests|
    ensures forall id ::
      (CountOf(requests[..i + 1], clusterType, id)
       == CountOf(requests[..i], clusterType, id) + (if ClusterOf(requests[i], clusterType) == id then 1 else 0))
  {
    assert requests[..i + 1][..i] == requests[..i];
  }

  /**
   * `getClusterRequestCounts`: a map from each valid cluster id to the number
   * of requests carrying it. Its keys are exactly the ids `getClusterIds`
   * lists.
   */
  method GetClusterRequestCounts(requests: seq<Row>, clusterType: ClusterType) returns (counts: map<Value, nat>)
    ensures forall id :: id in counts <==> ValidId(id) && CountOf(requests, clusterType, id) > 0
    ensures forall id :: id in counts ==> counts[id] == CountOf(requests, clusterType, id)
    ensures forall id :: id in counts <==> id in GetClusterIds(requests, clusterType)
  {
    counts := map[];
    var i := 0;
    while i < |requests|
      invariant i <= |requests|
      invariant forall id :: id in counts <==> ValidId(id) && CountOf(requests[..i], clusterType, id) > 0
      invariant forall id :: id in counts ==> counts[id] == CountOf(requests[..i], clusterType, id)
    {
      var clusterId := ClusterOf(requests[i], clusterType);
      CountStep(requests, i, clusterType);
      if ValidId(clusterId) {
        var previous := if clusterId in counts then counts[clusterId] else 0;
        counts := counts[clusterId := previous + 1];
      }
      i := i + 1;
    }
    assert requests[..i] == requests;
    CountedAreListed(requests, clusterType);
  }

  /** The sum of the counts of `ids`, one term per listed id. */
  function CountTotal(requests: seq<Row>, clusterType: ClusterType, ids: seq<Value>): nat {
    if ids == [] then 0
    else CountTotal(requests, clusterType, ids[..|ids| - 1]) + CountOf(requests, clusterType, ids[|ids| - 1])
  }

  /** With no requests every count, and so the total, is 0. */
  lemma {:induction false} CountTotalOfNone(clusterType: ClusterType, ids: seq<Value>)
    ensures CountTotal([], clusterType, ids) == 0
    decreases |ids|
  {
    if ids != [] {
      CountTotalOfNone(clusterType, ids[..|ids| - 1]);
    }
  }

  /** One more request raises the total of duplicate-free `ids` by one exactly when its cluster is listed. */
  lemma {:induction false} CountTotalSnoc(requests: seq<Row>, r: Row, clusterType: ClusterType, ids: seq<Value>)
    requires Sequences.NoDuplicates(ids)
    ensures CountTotal(requests + [r], clusterType, ids)
         == CountTotal(requests, clusterType, ids) + (if ClusterOf(r, clusterType) in ids then 1 else 0)
    decreases |ids|
  {
    if ids != [] {
      var n := |ids|;
      var init := ids[..n - 1];
      CountTotalSnoc(requests, r, clusterType, init);
      assert (requests + [r])[..|requests|] == requests;
      assert ids == init + [ids[n - 1]];
      forall k | 0 <= k < n - 1 ensures init[k] != ids[n - 1] {
        assert init[k] == ids[k];
      }
    }
  }

  /** The counts of duplicate-free `ids` add up to the number of requests whose cluster is one of them. */
  lemma {:induction false} CountTotalIsMatches(requests: seq<Row>, clusterType: ClusterType, ids: seq<Value>)
    requires Sequences.NoDuplicates(ids)
    ensures CountTotal(requests, clusterType, ids)
         == |Sequences.Filter(requests, (r: Row) => ClusterOf(r, clusterType) in ids)|
    decreases |requests|
  {
    var listed := (r: Row) => ClusterOf(r, clusterType) in ids;
    if requests == [] {
      CountTotalOfNone(clusterType, ids);
    } else {
      var n := |requests|;
      var init := requests[..n - 1];
      assert requests == init + [requests[n - 1]];
      CountTotalIsMatches(init, clusterType, ids);
      CountTotalSnoc(init, requests[n - 1], clusterType, ids);
      Sequences.FilterSnoc(init, requests[n - 1], listed);
    }
  }

  /**
   * The counts `getClusterRequestCounts` reports, one per id `getClusterIds`
   * lists, add up to the number of requests with a valid cluster id.
   */
  lemma CountsSum(requests: seq<Row>, clusterType: ClusterType)
    ensures CountTotal(requests, clusterType, GetClusterIds(requests, clusterType))
         == |Sequences.Filter(requests, (r: Row) => ValidId(ClusterOf(r, clusterType)))|
  {
    var ids := GetClusterIds(requests, clusterType);
    GetClusterIdsMembers(requests, clusterType);
    CountTotalIsMatches(requests, clusterType, ids);
    Sequences.FilterSame(requests, (r: Row) => ClusterOf(r, clusterType) in ids,
      (r: Row) => ValidId(ClusterOf(r, clusterType)));
  }

  /** The ids with a positive count are the ids `getClusterIds` lists. */
  lemma CountedAreListed(requests: seq<Row>, clusterType: ClusterType)
    ensures forall id :: ValidId(id) && CountOf(requests, clusterType, id) > 0 <==> id in GetClusterIds(requests, clusterType)
  {
    GetClusterIdsMembers(requests, clusterType);
    forall id ensures CountOf(requests, clusterType, id) > 0 <==>
      exists r :: r in requests && ClusterOf(r, clusterType) == id
    {
      CountOfPositive(requests, clusterType, id);
    }
  }
}
