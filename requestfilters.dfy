/**
 * The request filters of the commuter-requests plugin: four predicates on a
 * request (cluster, time bin, mode, request id), each of which lets every
 * request through when its selection is empty, combined with AND by
 * `filterRequests`. A time-bin label that does not parse throws; the model
 * returns that error as a `Result`.
 */
module RequestFilters {
  import opened Wrappers
  import opened JsText
  import opened JsValues
  import RequestTimeBins
  import Sequences

  /** Which cluster column a cluster selection refers to. */
  datatype ClusterType = Origin | Destination | Spatial

  /** The column read for each cluster type. */
  function ClusterColumn(clusterType: ClusterType): string {
    match clusterType
    case Origin => "origin_cluster"
    case Destination => "destination_cluster"
    case Spatial => "od_cluster"
  }

  // ---------------------------------------------------------------------
  // Cluster filter

  /** The length of the run of decimal digits that ends `s`. */
  function TrailingDigitCount(s: string): (n: nat)
    ensures n <= |s|
    ensures forall i :: |s| - n <= i < |s| ==> IsDecimalDigit(s[i])
    ensures n < |s| ==> !IsDecimalDigit(s[|s| - n - 1])
  {
    if s != [] && IsDecimalDigit(s[|s| - 1]) then 1 + TrailingDigitCount(s[..|s| - 1]) else 0
  }

  /** What `/\d+$/` matches in `s`: its trailing digits, or `None` when it does not end in a digit. */
  function TrailingDigits(s: string): (r: Option<string>)
    ensures r.Some? ==> r.value != [] && AllDecimalDigits(r.value)
  {
    var n := TrailingDigitCount(s);
    if n == 0 then None else Some(s[|s| - n..])
  }

  /** A digit run after a non-digit, or after nothing, is exactly what the pattern matches. */
  lemma {:induction false} TrailingDigitCountOf(prefix: string, digits: string)
    requires AllDecimalDigits(digits)
    requires prefix == [] || !IsDecimalDigit(prefix[|prefix| - 1])
    ensures TrailingDigitCount(prefix + digits) == |digits|
    decreases |digits|
  {
    if digits == [] {
      assert prefix + digits == prefix;
    } else {
      var n := |digits|;
      assert (prefix + digits)[..|prefix| + n - 1] == prefix + digits[..n - 1];
      assert IsDecimalDigit(digits[n - 1]);
      TrailingDigitCountOf(prefix, digits[..n - 1]);
    }
  }

  lemma TrailingDigitsOf(prefix: string, digits: string)
    requires digits != [] && AllDecimalDigits(digits)
    requires prefix == [] || !IsDecimalDigit(prefix[|prefix| - 1])
    ensures TrailingDigits(prefix + digits) == Some(digits)
  {
    TrailingDigitCountOf(prefix, digits);
    assert (prefix + digits)[|prefix|..] == digits;
  }

  /**
   * One selected id against the request's cluster value: a string id whose
   * trailing digits, read by `parseInt`, are the value, or an id strictly
   * equal to the value.
   */
  predicate ClusterIdMatches(selectedId: Value, clusterValue: Value) {
    (selectedId.Str?
      && var m := TrailingDigits(selectedId.s);
      m.Some? && StrictEquals(clusterValue, Num(ParseInt(m.value, 10))))
    || StrictEquals(clusterValue, selectedId)
  }

  /** `applyClusterFilter`. */
  predicate ApplyClusterFilter(request: Row, selectedClusters: set<Value>, clusterType: ClusterType) {
    if |selectedClusters| == 0 then true
    else
      var clusterValue := Get(request, ClusterColumn(clusterType));
      if clusterValue == Undefined || clusterValue == Num(Fin(-1)) then false
      else exists selectedId :: selectedId in selectedClusters && ClusterIdMatches(selectedId, clusterValue)
  }

  /** A request without the cluster column, or with cluster -1, passes only an empty selection. */
  lemma UnclusteredRejected(request: Row, selectedClusters: set<Value>, clusterType: ClusterType)
    requires Get(request, ClusterColumn(clusterType)) in {Undefined, Num(Fin(-1))}
    ensures ApplyClusterFilter(request, selectedClusters, clusterType) <==> selectedClusters == {}
  {
  }

  /** A GeoJSON-style id such as "origin_55" selects the requests in cluster 55. */
  lemma LabelledClusterSelects(request: Row, selectedClusters: set<Value>, clusterType: ClusterType, prefix: string, id: nat)
    requires Get(request, ClusterColumn(clusterType)) == Num(Fin(id))
    requires Str(prefix + "_" + NatToString(id)) in selectedClusters
    ensures ApplyClusterFilter(request, selectedClusters, clusterType)
  {
    var digits := NatToString(id);
    var name := prefix + "_" + digits;
    NatToStringValue(id);
    assert name == (prefix + "_") + digits;
    TrailingDigitsOf(prefix + "_", digits);
    ParseIntDigits(digits, 10);
    assert ClusterIdMatches(Str(name), Num(Fin(id)));
  }

  /** A cluster value other than -1 is selected by itself. */
  lemma NumericClusterSelects(request: Row, selectedClusters: set<Value>, clusterType: ClusterType, id: int)
    requires id != -1 && Get(request, ClusterColumn(clusterType)) == Num(Fin(id))
    requires Num(Fin(id)) in selectedClusters
    ensures ApplyClusterFilter(request, selectedClusters, clusterType)
  {
    assert ClusterIdMatches(Num(Fin(id)), Num(Fin(id)));
  }

  // ---------------------------------------------------------------------
  // Time-bin filter

  /** `a <= b` between numbers: false when either is NaN. */
  predicate AtMost(a: Number, b: Number) {
    a.Fin? && b.Fin? && a.v <= b.v
  }

  /** `requestStart <= end && requestEnd >= start`: the closed intervals meet. */
  predicate Overlaps(requestStart: Number, requestEnd: Number, bin: RequestTimeBins.TimeBin) {
    AtMost(requestStart, bin.end) && AtMost(bin.start, requestEnd)
  }

  /** The label parser the filter uses: `parseTimeBin(binLabel)` with the default bin size. */
  function ParseLabel(binLabel: string): Result<RequestTimeBins.TimeBin, string> {
    RequestTimeBins.ParseTimeBin(binLabel, RequestTimeBins.DefaultBinSizeMinutes)
  }

  /**
   * The loop of `applyTimebinFilter` over the selected labels in insertion
   * order: the first label that fails to parse throws, the first overlapping
   * bin returns true. `parse` is the label parser (`ParseLabel` in the filter).
   */
  function SearchBins(requestStart: Number, requestEnd: Number, labels: seq<string>,
                      parse: string -> Result<RequestTimeBins.TimeBin, string>): Result<bool, string>
    decreases |labels|
  {
    if labels == [] then Ok(false)
    else
      match parse(labels[0])
      case Err(e) => Err(e)
      case Ok(bin) =>
        if Overlaps(requestStart, requestEnd, bin) then Ok(true)
        else SearchBins(requestStart, requestEnd, labels[1..], parse)
  }

  /** Every label of the selection parses. */
  predicate AllParse(labels: seq<string>, parse: string -> Result<RequestTimeBins.TimeBin, string>) {
    forall k :: 0 <= k < |labels| ==> parse(labels[k]).Ok?
  }

  /** The bin of the k-th label meets the request. */
  predicate LabelMeets(requestStart: Number, requestEnd: Number, labels: seq<string>, k: nat,
                       parse: string -> Result<RequestTimeBins.TimeBin, string>)
    requires k < |labels|
  {
    parse(labels[k]).Ok? && Overlaps(requestStart, requestEnd, parse(labels[k]).value)
  }

  /** The search answers true only through a label that parses and meets the request. */
  lemma {:induction false} SearchBinsFound(requestStart: Number, requestEnd: Number, labels: seq<string>,
                                           parse: string -> Result<RequestTimeBins.TimeBin, string>)
    requires SearchBins(requestStart, requestEnd, labels, parse) == Ok(true)
    ensures exists k :: 0 <= k < |labels| && LabelMeets(requestStart, requestEnd, labels, k, parse)
    decreases |labels|
  {
    if !LabelMeets(requestStart, requestEnd, labels, 0, parse) {
      var tail := labels[1..];
      SearchBinsFound(requestStart, requestEnd, tail, parse);
      var k :| 0 <= k < |tail| && LabelMeets(requestStart, requestEnd, tail, k, parse);
      assert tail[k] == labels[k + 1];
      assert LabelMeets(requestStart, requestEnd, labels, k + 1, parse);
    }
  }

  /** The search throws only when some label does not parse. */
  lemma {:induction false} SearchBinsThrows(requestStart: Number, requestEnd: Number, labels: seq<string>,
                                            parse: string -> Result<RequestTimeBins.TimeBin, string>)
    requires SearchBins(requestStart, requestEnd, labels, parse).Err?
    ensures !AllParse(labels, parse)
    decreases |labels|
  {
    if parse(labels[0]).Ok? {
      var tail := labels[1..];
      SearchBinsThrows(requestStart, requestEnd, tail, parse);
      var k :| 0 <= k < |tail| && parse(tail[k]).Err?;
      assert tail[k] == labels[k + 1];
    }
  }

  /** When every label parses, the search answers whether some bin meets the request. */
  lemma {:induction false} SearchBinsParsed(requestStart: Number, requestEnd: Number, labels: seq<string>,
                                            parse: string -> Result<RequestTimeBins.TimeBin, string>)
    requires AllParse(labels, parse)
    ensures SearchBins(requestStart, requestEnd, labels, parse)
      == Ok(exists k :: 0 <= k < |labels| && LabelMeets(requestStart, requestEnd, labels, k, parse))
    decreases |labels|
  {
    if labels != [] {
      var tail := labels[1..];
      assert AllParse(tail, parse) by {
        forall k | 0 <= k < |tail| ensures parse(tail[k]).Ok? {
          assert tail[k] == labels[k + 1];
        }
      }
      SearchBinsParsed(requestStart, requestEnd, tail, parse);
      forall k | 0 <= k < |tail|
        ensures LabelMeets(requestStart, requestEnd, tail, k, parse)
             == LabelMeets(requestStart, requestEnd, labels, k + 1, parse)
      {
        assert tail[k] == labels[k + 1];
      }
      if LabelMeets(requestStart, requestEnd, labels, 0, parse) {
        assert SearchBins(requestStart, requestEnd, labels, parse) == Ok(true);
      } else {
        assert SearchBins(requestStart, requestEnd, labels, parse) == SearchBins(requestStart, requestEnd, tail, parse);
        assert (exists k :: 0 <= k < |labels| && LabelMeets(requestStart, requestEnd, labels, k, parse))
           == (exists k :: 0 <= k < |tail| && LabelMeets(requestStart, requestEnd, tail, k, parse)) by {
          if exists k :: 0 <= k < |labels| && LabelMeets(requestStart, requestEnd, labels, k, parse) {
            var k :| 0 <= k < |labels| && LabelMeets(requestStart, requestEnd, labels, k, parse);
            assert k > 0 && LabelMeets(requestStart, requestEnd, tail, k - 1, parse);
          }
        }
      }
    }
  }

  /** A single label that parses to `bin` selects exactly the requests meeting `bin`. */
  lemma SearchOneBin(requestStart: Number, requestEnd: Number, binLabel: string,
                     parse: string -> Result<RequestTimeBins.TimeBin, string>, bin: RequestTimeBins.TimeBin)
    requires parse(binLabel) == Ok(bin)
    ensures SearchBins(requestStart, requestEnd, [binLabel], parse) == Ok(Overlaps(requestStart, requestEnd, bin))
  {
    assert [binLabel][1..] == [];
  }

  /** `request.treq` and `request.treq + request.travel_time`, read as numbers. */
  function RequestStart(request: Row): Number {
    ToNumber(Get(request, "treq"))
  }

  function RequestEnd(request: Row): Number {
    RequestTimeBins.Add(RequestStart(request), ToNumber(Get(request, "travel_time")))
  }

  /** `applyTimebinFilter`: an empty selection passes, otherwise the search over the labels. */
  function ApplyTimebinFilter(request: Row, selectedTimebins: seq<string>): Result<bool, string> {
    if |selectedTimebins| == 0 then Ok(true)
    else SearchBins(RequestStart(request), RequestEnd(request), selectedTimebins, ParseLabel)
  }

  /** An empty label among the selection throws "Bin label is required" when it is reached first. */
  lemma EmptyLabelThrows(request: Row, rest: seq<string>)
    ensures ApplyTimebinFilter(request, [""] + rest) == Err("Bin label is required")
  {
  }

  /**
   * A generated bin selects the requests whose interval [treq, treq + travel_time]
   * meets the bin's [start, end] in seconds.
   */
  lemma GeneratedBinSelects(request: Row, start: nat, binSizeMinutes: nat, treq: int, travel: int)
    requires ToNumber(Get(request, "treq")) == Fin(treq)
    requires ToNumber(Get(request, "travel_time")) == Fin(travel)
    ensures ApplyTimebinFilter(request, [RequestTimeBins.BinLabel(start, binSizeMinutes)])
      == Ok(treq <= (start + binSizeMinutes) * 60 && treq + travel >= start * 60)
  {
    var binLabel := RequestTimeBins.BinLabel(start, binSizeMinutes);
    var bin := RequestTimeBins.TimeBin(Fin(start * 60), Fin((start + binSizeMinutes) * 60));
    RequestTimeBins.ParseBinLabel(binLabel, start, binSizeMinutes, RequestTimeBins.DefaultBinSizeMinutes,
      start * 60, (start + binSizeMinutes) * 60);
    SearchOneBin(RequestStart(request), RequestEnd(request), binLabel, ParseLabel, bin);
  }

  // ---------------------------------------------------------------------
  // Mode and request-id filters

  /** `request.main_mode || request.mode || 'unknown'`. */
  function RequestMode(request: Row): Value {
    Or(Or(Get(request, "main_mode"), Get(request, "mode")), Str("unknown"))
  }

  /** `applyModeFilter`: membership of the request's mode in a set of strings. */
  predicate ApplyModeFilter(request: Row, selectedModes: set<string>) {
    if |selectedModes| == 0 then true
    else var mode := RequestMode(request); mode.Str? && mode.s in selectedModes
  }

  /**
   * The mode read is `main_mode` when it is a non-empty string, else `mode`
   * when that is, else "unknown".
   */
  lemma ModeFallback(request: Row, selectedModes: set<string>)
    requires selectedModes != {}
    requires Get(request, "main_mode").Str? && Get(request, "mode").Str?
    ensures var main := Get(request, "main_mode").s;
      var other := Get(request, "mode").s;
      ApplyModeFilter(request, selectedModes) <==>
        (if main != "" then main else if other != "" then other else "unknown") in selectedModes
  {
  }

  /** A request with neither mode column is filed under "unknown". */
  lemma MissingModeIsUnknown(request: Row, selectedModes: set<string>)
    requires selectedModes != {} && "main_mode" !in request && "mode" !in request
    ensures ApplyModeFilter(request, selectedModes) <==> "unknown" in selectedModes
  {
  }

  /** `applyRequestIdFilter`: membership of `String(request.request_id)`. */
  predicate ApplyRequestIdFilter(request: Row, selectedRequestIds: set<string>) {
    |selectedRequestIds| == 0 || ToStr(Get(request, "request_id")) in selectedRequestIds
  }

  /** A numeric request id is looked up by its decimal spelling. */
  lemma NumericRequestId(request: Row, selectedRequestIds: set<string>, id: int)
    requires Get(request, "request_id") == Num(Fin(id))
    ensures ApplyRequestIdFilter(request, selectedRequestIds) <==>
      selectedRequestIds == {} || IntToString(id) in selectedRequestIds
  {
  }

  // ---------------------------------------------------------------------
  // All filters together

  /** The selections of the four filters. */
  datatype Selection = Selection(
    clusters: set<Value>,
    timebins: seq<string>,
    modes: set<string>,
    requestIds: set<string>,
    clusterType: ClusterType)

  /** The filter callback: the four predicates joined by `&&`, which skips the rest once one is false. */
  function Passes(request: Row, sel: Selection): (r: Result<bool, string>)
    ensures r == Ok(true) <==>
      && ApplyClusterFilter(request, sel.clusters, sel.clusterType)
      && ApplyTimebinFilter(request, sel.timebins) == Ok(true)
      && ApplyModeFilter(request, sel.modes)
      && ApplyRequestIdFilter(request, sel.requestIds)
    ensures r.Err? ==>
      ApplyClusterFilter(request, sel.clusters, sel.clusterType) && ApplyTimebinFilter(request, sel.timebins).Err?
  {
    if !ApplyClusterFilter(request, sel.clusters, sel.clusterType) then Ok(false)
    else
      match ApplyTimebinFilter(request, sel.timebins)
      case Err(e) => Err(e)
      case Ok(inBin) =>
        if !inBin then Ok(false)
        else Ok(ApplyModeFilter(request, sel.modes) && ApplyRequestIdFilter(request, sel.requestIds))
  }

  /** Whether the callback keeps a request. */
  predicate Keeps(sel: Selection, request: Row) {
    Passes(request, sel) == Ok(true)
  }

  /** `filterRequests`: `allRequests.filter(...)`, which throws on the first request whose callback throws. */
  function FilterRequests(allRequests: seq<Row>, sel: Selection): Result<seq<Row>, string>
    decreases |allRequests|
  {
    if allRequests == [] then Ok([])
    else
      var n := |allRequests|;
      match FilterRequests(allRequests[..n - 1], sel)
      case Err(e) => Err(e)
      case Ok(kept) =>
        match Passes(allRequests[n - 1], sel)
        case Err(e) => Err(e)
        case Ok(keep) => Ok(kept + if keep then [allRequests[n - 1]] else [])
  }

  /** A result, when there is one, is the requests the callback keeps, in their order. */
  lemma {:induction false} FilterRequestsKeeps(allRequests: seq<Row>, sel: Selection)
    requires FilterRequests(allRequests, sel).Ok?
    ensures FilterRequests(allRequests, sel).value == Sequences.Filter(allRequests, (r: Row) => Keeps(sel, r))
    decreases |allRequests|
  {
    if allRequests != [] {
      FilterRequestsKeeps(allRequests[..|allRequests| - 1], sel);
    }
  }

  /** The filtering throws only when some selected label does not parse. */
  lemma {:induction false} FilterRequestsThrows(allRequests: seq<Row>, sel: Selection)
    requires FilterRequests(allRequests, sel).Err?
    ensures !AllParse(sel.timebins, ParseLabel)
    decreases |allRequests|
  {
    var n := |allRequests|;
    if FilterRequests(allRequests[..n - 1], sel).Err? {
      FilterRequestsThrows(allRequests[..n - 1], sel);
    } else {
      var request := allRequests[n - 1];
      SearchBinsThrows(RequestStart(request), RequestEnd(request), sel.timebins, ParseLabel);
    }
  }

  /** When every selected label parses, the filtering does not throw. */
  lemma {:induction false} FilterRequestsParsed(allRequests: seq<Row>, sel: Selection)
    requires AllParse(sel.timebins, ParseLabel)
    ensures FilterRequests(allRequests, sel) == Ok(Sequences.Filter(allRequests, (r: Row) => Keeps(sel, r)))
    decreases |allRequests|
  {
    if allRequests != [] {
      var n := |allRequests|;
      var request := allRequests[n - 1];
      FilterRequestsParsed(allRequests[..n - 1], sel);
      if sel.timebins != [] {
        SearchBinsParsed(RequestStart(request), RequestEnd(request), sel.timebins, ParseLabel);
      }
    }
  }

  /** With all four selections empty every request is returned. */
  lemma {:induction false} EmptySelectionKeepsAll(allRequests: seq<Row>, clusterType: ClusterType)
    ensures FilterRequests(allRequests, Selection({}, [], {}, {}, clusterType)) == Ok(allRequests)
    decreases |allRequests|
  {
    if allRequests != [] {
      var n := |allRequests|;
      EmptySelectionKeepsAll(allRequests[..n - 1], clusterType);
      assert allRequests[..n - 1] + [allRequests[n - 1]] == allRequests;
    }
  }
}
