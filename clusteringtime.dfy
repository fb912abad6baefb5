/**
 * Time handling of the commuter-clustering plugin: the request-time range
 * filter, the start times of the time-slider bins, and the `HH:MM:SS` and
 * `HH:MM` formatters with the bin label built from them.
 *
 * Times are integer seconds. `r.treq` is compared with `>=` and `<=`, which
 * read it through `Number`, so an undefined time compares false.
 */
module ClusteringTime {
  import opened Wrappers
  import opened JsText
  import opened JsValues
  import Sequences
  import RequestTimeBins

  // ---------------------------------------------------------------------
  // filterByTimeRange

  /** `r.treq`, as the comparisons read it. */
  function Treq(r: Row): Number {
    ToNumber(Get(r, "treq"))
  }

  /** `r.treq >= minTime && r.treq <= maxTime`. */
  predicate InRange(r: Row, minTime: int, maxTime: int) {
    Treq(r).Fin? && minTime <= Treq(r).v && Treq(r).v <= maxTime
  }

  /** `filterByTimeRange`: the requests inside the closed range, in order. */
  function FilterByTimeRange(requests: seq<Row>, minTime: int, maxTime: int): seq<Row> {
    Sequences.Filter(requests, (r: Row) => InRange(r, minTime, maxTime))
  }

  /** A request is kept iff its time lies in [minTime, maxTime], both ends included. */
  lemma FilterByTimeRangeKeeps(requests: seq<Row>, minTime: int, maxTime: int)
    ensures forall r :: r in FilterByTimeRange(requests, minTime, maxTime) <==>
      r in requests && Treq(r).Fin? && minTime <= Treq(r).v <= maxTime
  {
    Sequences.FilterMembers(requests, (r: Row) => InRange(r, minTime, maxTime));
  }

  /** The filter keeps the input order: filtering a concatenation filters each part. */
  lemma FilterByTimeRangeInOrder(a: seq<Row>, b: seq<Row>, minTime: int, maxTime: int)
    ensures FilterByTimeRange(a + b, minTime, maxTime)
         == FilterByTimeRange(a, minTime, maxTime) + FilterByTimeRange(b, minTime, maxTime)
  {
    Sequences.FilterAppend(a, b, (r: Row) => InRange(r, minTime, maxTime));
  }

  // ---------------------------------------------------------------------
  // createTimeBins

  /** `requests.map(r => r.treq).filter(t => t !== null && t !== undefined)`. */
  function Times(requests: seq<Row>): (ts: seq<Value>)
    ensures |ts| <= |requests|
  {
    if requests == [] then []
    else
      var t := Get(requests[|requests| - 1], "treq");
      Times(requests[..|requests| - 1]) + (if IsNullish(t) then [] else [t])
  }

  /** The times as `Math.min` and `Math.max` read their arguments, through `Number`. */
  function TimeNumbers(requests: seq<Row>): (ns: seq<Number>)
    ensures |ns| == |Times(requests)|
  {
    var ts := Times(requests);
    seq(|ts|, i requires 0 <= i < |ts| => ToNumber(ts[i]))
  }

  /** `Math.min` of two numbers: NaN when either is NaN. */
  function Min2(a: Number, b: Number): Number {
    if a.NaN? || b.NaN? then NaN else if a.v <= b.v then a else b
  }

  /** `Math.max` of two numbers: NaN when either is NaN. */
  function Max2(a: Number, b: Number): Number {
    if a.NaN? || b.NaN? then NaN else if a.v >= b.v then a else b
  }

  /** `Math.min(...ns)`. */
  function MinOf(ns: seq<Number>): Number
    requires |ns| >= 1
  {
    if |ns| == 1 then ns[0] else Min2(MinOf(ns[..|ns| - 1]), ns[|ns| - 1])
  }

  /** `Math.max(...ns)`. */
  function MaxOf(ns: seq<Number>): Number
    requires |ns| >= 1
  {
    if |ns| == 1 then ns[0] else Max2(MaxOf(ns[..|ns| - 1]), ns[|ns| - 1])
  }

  predicate AllFinite(ns: seq<Number>) {
    forall i :: 0 <= i < |ns| ==> ns[i].Fin?
  }

  /**
   * The minimum is finite iff every argument is, and then it is one of the
   * arguments and no argument is below it.
   */
  lemma {:induction false} MinOfIsLeast(ns: seq<Number>)
    requires |ns| >= 1
    ensures MinOf(ns).Fin? <==> AllFinite(ns)
    ensures MinOf(ns).Fin? ==> MinOf(ns) in ns && forall i :: 0 <= i < |ns| ==> MinOf(ns).v <= ns[i].v
    decreases |ns|
  {
    if |ns| > 1 {
      var init := ns[..|ns| - 1];
      MinOfIsLeast(init);
      assert ns == init + [ns[|ns| - 1]];
    }
  }

  /** The maximum is finite iff every argument is, and then it is one of the arguments and none exceeds it. */
  lemma {:induction false} MaxOfIsGreatest(ns: seq<Number>)
    requires |ns| >= 1
    ensures MaxOf(ns).Fin? <==> AllFinite(ns)
    ensures MaxOf(ns).Fin? ==> MaxOf(ns) in ns && forall i :: 0 <= i < |ns| ==> ns[i].v <= MaxOf(ns).v
    decreases |ns|
  {
    if |ns| > 1 {
      var init := ns[..|ns| - 1];
      MaxOfIsGreatest(init);
      assert ns == init + [ns[|ns| - 1]];
    }
  }

  /** When both are finite, the minimum does not exceed the maximum. */
  lemma MinAtMostMax(ns: seq<Number>)
    requires |ns| >= 1 && MinOf(ns).Fin? && MaxOf(ns).Fin?
    ensures MinOf(ns).v <= MaxOf(ns).v
  {
    MinOfIsLeast(ns);
    MaxOfIsGreatest(ns);
    assert MinOf(ns).v <= ns[0].v <= MaxOf(ns).v;
  }

  /** The count of bins: the loop exits with c bins exactly when c - 1 steps fit and c do not. */
  lemma BinCount(span: int, binSize: int, c: int)
    requires span >= 0 && binSize > 0 && c >= 1
    requires (c - 1) * binSize <= span < c * binSize
    ensures c == span / binSize + 1
  {
    var q := span / binSize;
    assert q * binSize <= span < (q + 1) * binSize;
    RequestTimeBins.MulLess(c - 1, q + 1, binSize);
    RequestTimeBins.MulLess(q, c, binSize);
  }

  /**
   * `createTimeBins`: no bins without a request time; otherwise the starts
   * min, min + binSize, … up to max. A time that does not read as a number
   * makes min or max NaN, and the loop then runs no step.
   */
  method CreateTimeBins(requests: seq<Row>, binSize: int) returns (bins: seq<int>)
    requires binSize > 0
    ensures TimeNumbers(requests) == [] ==> bins == []
    ensures TimeNumbers(requests) != [] ==>
      var lo := MinOf(TimeNumbers(requests));
      var hi := MaxOf(TimeNumbers(requests));
      if lo.Fin? && hi.Fin? then
        |bins| == (hi.v - lo.v) / binSize + 1
        && (forall k :: 0 <= k < |bins| ==> bins[k] == lo.v + k * binSize && bins[k] <= hi.v)
      else bins == []
  {
    if |requests| == 0 {
      return [];
    }
    var times := TimeNumbers(requests);
    if |times| == 0 {
      return [];
    }
    var minTime := MinOf(times);
    var maxTime := MaxOf(times);
    if minTime.NaN? || maxTime.NaN? {
      return [];
    }
    MinAtMostMax(times);
    bins := StepFrom(minTime.v, maxTime.v, binSize);
  }

  /** The loop `for (let t = lo; t <= hi; t += binSize) bins.push(t)`. */
  method StepFrom(lo: int, hi: int, binSize: int) returns (bins: seq<int>)
    requires binSize > 0 && lo <= hi
    ensures |bins| == (hi - lo) / binSize + 1
    ensures forall k :: 0 <= k < |bins| ==> bins[k] == lo + k * binSize && bins[k] <= hi
  {
    bins := [];
    var t := lo;
    while t <= hi
      invariant t == lo + |bins| * binSize
      invariant t <= hi + binSize
      invariant forall k :: 0 <= k < |bins| ==> bins[k] == lo + k * binSize && bins[k] <= hi
      decreases hi + binSize - t
    {
      bins := bins + [t];
      t := t + binSize;
    }
    BinCount(hi - lo, binSize, |bins|);
  }

  // ---------------------------------------------------------------------
  // formatTimeSeconds, formatTimeMinutes, getTimeBinLabel

  /** `n.toString().padStart(2, '0')`. */
  function PadInt(n: int): string {
    PadStart(IntToString(n), 2, '0')
  }

  /** `Math.floor(seconds / 3600)`. */
  function Hours(seconds: int): int { seconds / 3600 }

  /** `Math.floor((seconds % 3600) / 60)`. */
  function MinutesPart(seconds: int): int { Rem(seconds, 3600) / 60 }

  /** `Math.floor(seconds % 60)`. */
  function SecondsPart(seconds: int): int { Rem(seconds, 60) }

  /** `formatTimeSeconds`: `HH:MM:SS`. */
  function FormatTimeSeconds(seconds: int): string {
    PadInt(Hours(seconds)) + ":" + PadInt(MinutesPart(seconds)) + ":" + PadInt(SecondsPart(seconds))
  }

  /** `formatTimeMinutes`: `HH:MM`. */
  function FormatTimeMinutes(seconds: int): string {
    PadInt(Hours(seconds)) + ":" + PadInt(MinutesPart(seconds))
  }

  /** `getTimeBinLabel`: `"<start> - <end>"` in `HH:MM`. */
  function GetTimeBinLabel(startSeconds: int, binSize: int): string {
    FormatTimeMinutes(startSeconds) + " - " + FormatTimeMinutes(startSeconds + binSize)
  }

  /** For a non-negative count the padding is `Pad2`. */
  lemma PadIntNat(n: int)
    requires n >= 0
    ensures PadInt(n) == Pad2(n)
  {
  }

  /** Hours, minutes and seconds of a non-negative time make it up, minutes and seconds below 60. */
  lemma {:induction false} TimeFields(seconds: int)
    requires seconds >= 0
    ensures 0 <= MinutesPart(seconds) < 60 && 0 <= SecondsPart(seconds) < 60 && Hours(seconds) >= 0
    ensures Hours(seconds) * 3600 + MinutesPart(seconds) * 60 + SecondsPart(seconds) == seconds
    ensures Hours(seconds) == (seconds / 60) / 60 && MinutesPart(seconds) == (seconds / 60) % 60
  {
    var m := seconds / 60;
    assert seconds == m * 60 + seconds % 60;
    assert m == (m / 60) * 60 + m % 60;
    assert seconds == (m / 60) * 3600 + (m % 60) * 60 + seconds % 60;
    assert (m % 60) * 60 + seconds % 60 < 3600;
  }

  /** Three digit strings joined with ':' split back into themselves. */
  lemma SplitThree(a: string, b: string, c: string)
    requires AllDecimalDigits(a) && AllDecimalDigits(b) && AllDecimalDigits(c)
    ensures Split(a + ":" + b + ":" + c, ':') == [a, b, c]
  {
    var parts := [a, b, c];
    RequestTimeBins.DigitsAvoid(a, ':');
    RequestTimeBins.DigitsAvoid(b, ':');
    RequestTimeBins.DigitsAvoid(c, ':');
    assert parts[1..][1..] == [c];
    assert Join(parts[1..], ':') == b + ":" + c;
    assert Join(parts, ':') == a + ":" + b + ":" + c;
    SplitJoin(parts, ':');
  }

  /**
   * `formatTimeSeconds` of a non-negative time reads back: its three
   * ':'-separated fields are digit strings whose hours, minutes (below 60)
   * and seconds (below 60) make up the time, and the first two fields are
   * `formatTimeMinutes` of the same time.
   */
  lemma FormatTimeSecondsReadsBack(seconds: int)
    requires seconds >= 0
    ensures var parts := Split(FormatTimeSeconds(seconds), ':');
      |parts| == 3
      && AllRadixDigits(parts[0], 10) && AllRadixDigits(parts[1], 10) && AllRadixDigits(parts[2], 10)
      && DigitsValue(parts[1], 10) < 60 && DigitsValue(parts[2], 10) < 60
      && DigitsValue(parts[0], 10) * 3600 + DigitsValue(parts[1], 10) * 60 + DigitsValue(parts[2], 10) == seconds
      && FormatTimeSeconds(seconds) == FormatTimeMinutes(seconds) + ":" + parts[2]
  {
    TimeFields(seconds);
    var h, m, s := Hours(seconds), MinutesPart(seconds), SecondsPart(seconds);
    PadIntNat(h);
    PadIntNat(m);
    PadIntNat(s);
    Pad2Value(h);
    Pad2Value(m);
    Pad2Value(s);
    SplitThree(Pad2(h), Pad2(m), Pad2(s));
  }

  /** `formatTimeMinutes` of a non-negative time is the clock of its whole minutes. */
  lemma FormatTimeMinutesIsClock(seconds: int)
    requires seconds >= 0
    ensures FormatTimeMinutes(seconds) == RequestTimeBins.Clock(seconds / 60)
  {
    TimeFields(seconds);
    PadIntNat(Hours(seconds));
    PadIntNat(MinutesPart(seconds));
  }

  /** `parseTime` reads `formatTimeMinutes` back as the time rounded down to the minute. */
  lemma FormatTimeMinutesParses(seconds: int)
    requires seconds >= 0
    ensures RequestTimeBins.ParseTime(FormatTimeMinutes(seconds)) == Ok(Fin(seconds / 60 * 60))
  {
    FormatTimeMinutesIsClock(seconds);
    RequestTimeBins.ParseClock(seconds / 60, seconds / 60 * 60);
  }

  /** A string with no whitespace at its ends, with one space appended or prepended, trims back to itself. */
  lemma TrimPadded(c: string)
    requires c != [] && !IsWhiteSpace(c[0]) && !IsWhiteSpace(c[|c| - 1])
    ensures Trim(c + " ") == c && Trim(" " + c) == c
  {
    var right := c + " ";
    assert right[0] == c[0];
    assert TrimStart(right) == right;
    assert right[..|right| - 1] == c;
    assert TrimEnd(right) == TrimEnd(c);
    TrimNoOp(c);
    var left := " " + c;
    assert left[1..] == c;
    assert TrimStart(left) == TrimStart(c);
  }

  /** A clock starts and ends with a digit. */
  lemma ClockEnds(minutes: nat)
    ensures var c := RequestTimeBins.Clock(minutes);
      c != [] && IsDecimalDigit(c[0]) && IsDecimalDigit(c[|c| - 1])
  {
    var h := Pad2(minutes / 60);
    var m := Pad2(minutes % 60);
    assert RequestTimeBins.Clock(minutes) == h + ":" + m;
  }

  /** `parseTime` trims first, so strings that trim alike parse alike. */
  lemma ParseTimeTrims(a: string, b: string)
    requires a != "" && b != "" && Trim(a) == Trim(b)
    ensures RequestTimeBins.ParseTime(a) == RequestTimeBins.ParseTime(b)
  {
  }

  /** "<a> - <b>" splits at '-' into "<a> " and " <b>" when neither side holds a '-'. */
  lemma SplitSpacedDash(x: string, y: string)
    requires '-' !in x && '-' !in y
    ensures Split(x + " - " + y, '-') == [x + " ", " " + y]
  {
    var parts := [x + " ", " " + y];
    assert Join(parts[1..], '-') == " " + y;
    assert x + " - " + y == Join(parts, '-');
    SplitJoin(parts, '-');
  }

  /** `parseTimeBin` of a label with two non-empty '-'-separated sides that parse. */
  lemma ParseTwoSides(binLabel: string, x: string, y: string, start: Number, end: Number, anyBinSize: int)
    requires '-' in binLabel && Split(binLabel, '-') == [x, y]
    requires RequestTimeBins.ParseTime(x) == Ok(start) && RequestTimeBins.ParseTime(y) == Ok(end)
    ensures RequestTimeBins.ParseTimeBin(binLabel, anyBinSize) == Ok(RequestTimeBins.TimeBin(start, end))
  {
  }

  /** A string that trims to a time parses as that time. */
  lemma PaddedParses(c: string, padded: string, sec: int)
    requires padded == c + " " || padded == " " + c
    requires c != [] && !IsWhiteSpace(c[0]) && !IsWhiteSpace(c[|c| - 1])
    requires RequestTimeBins.ParseTime(c) == Ok(Fin(sec))
    ensures RequestTimeBins.ParseTime(padded) == Ok(Fin(sec))
  {
    TrimPadded(c);
    ParseTimeTrims(padded, c);
  }

  /** A digit is not whitespace. */
  lemma DigitNotSpace(ch: char)
    requires IsDecimalDigit(ch)
    ensures !IsWhiteSpace(ch)
  {
  }

  /** A clock padded with one space parses as the clock's seconds. */
  lemma PaddedClockParses(minutes: nat, padded: string)
    requires padded == RequestTimeBins.Clock(minutes) + " " || padded == " " + RequestTimeBins.Clock(minutes)
    ensures RequestTimeBins.ParseTime(padded) == Ok(Fin(minutes * 60))
  {
    var c := RequestTimeBins.Clock(minutes);
    ClockEnds(minutes);
    DigitNotSpace(c[0]);
    DigitNotSpace(c[|c| - 1]);
    RequestTimeBins.ParseClock(minutes, minutes * 60);
    PaddedParses(c, padded, minutes * 60);
  }

  /** "<clock> - <clock>" parses as the two clocks' seconds. */
  lemma ClockPairParses(a: nat, b: nat, anyBinSize: int)
    ensures RequestTimeBins.ParseTimeBin(RequestTimeBins.Clock(a) + " - " + RequestTimeBins.Clock(b), anyBinSize)
         == Ok(RequestTimeBins.TimeBin(Fin(a * 60), Fin(b * 60)))
  {
    var ca, cb := RequestTimeBins.Clock(a), RequestTimeBins.Clock(b);
    var text := ca + " - " + cb;
    RequestTimeBins.ClockNoDash(a);
    RequestTimeBins.ClockNoDash(b);
    SplitSpacedDash(ca, cb);
    assert text[|ca| + 1] == '-';
    PaddedClockParses(a, ca + " ");
    PaddedClockParses(b, " " + cb);
    ParseTwoSides(text, ca + " ", " " + cb, Fin(a * 60), Fin(b * 60), anyBinSize);
  }

  /** The label is its two formatted ends around " - ". */
  lemma LabelOfEnds(startSeconds: int, binSize: int, first: string, second: string)
    requires FormatTimeMinutes(startSeconds) == first && FormatTimeMinutes(startSeconds + binSize) == second
    ensures GetTimeBinLabel(startSeconds, binSize) == first + " - " + second
  {
  }

  /** Two non-negative times format as the clocks of their whole minutes. */
  lemma BothClocks(a: int, b: int, first: string, second: string)
    requires a >= 0 && b >= 0
    requires first == RequestTimeBins.Clock(a / 60) && second == RequestTimeBins.Clock(b / 60)
    ensures FormatTimeMinutes(a) == first && FormatTimeMinutes(b) == second
  {
    FormatTimeMinutesIsClock(a);
    FormatTimeMinutesIsClock(b);
  }

  /**
   * The label `getTimeBinLabel` builds for a non-negative start and end
   * reads back through the commuter-requests `parseTimeBin` as the start and
   * end rounded down to the minute.
   */
  lemma TimeBinLabelParses(startSeconds: int, binSize: int, anyBinSize: int)
    requires startSeconds >= 0 && startSeconds + binSize >= 0
    ensures RequestTimeBins.ParseTimeBin(GetTimeBinLabel(startSeconds, binSize), anyBinSize)
         == Ok(RequestTimeBins.TimeBin(Fin(startSeconds / 60 * 60), Fin((startSeconds + binSize) / 60 * 60)))
  {
    var a, b := startSeconds / 60, (startSeconds + binSize) / 60;
    var first, second := RequestTimeBins.Clock(a), RequestTimeBins.Clock(b);
    BothClocks(startSeconds, startSeconds + binSize, first, second);
    LabelOfEnds(startSeconds, binSize, first, second);
    ClockPairParses(a, b, anyBinSize);
  }
}
