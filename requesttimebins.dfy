/**
 * Time-bin labels of the commuter-requests plugin: `"HH:MM-HH:MM"` labels
 * covering the day, and the parser that turns a label back into a start
 * and end in seconds.
 */
module RequestTimeBins {
  import opened Wrappers
  import opened JsText

  /** Minutes in a day. */
  const TotalMinutes: int := 24 * 60

  /** The bin size used when none is given. */
  const DefaultBinSizeMinutes: int := 15

  /** A parsed bin, in seconds since midnight; NaN where a part is not a number. */
  datatype TimeBin = TimeBin(start: Number, end: Number)

  /** `a + b` on numbers. */
  function Add(a: Number, b: Number): (r: Number)
    ensures r.Fin? <==> a.Fin? && b.Fin?
    ensures r.Fin? ==> r.v == a.v + b.v
  {
    if a.Fin? && b.Fin? then Fin(a.v + b.v) else NaN
  }

  /** `a * k` on numbers, for an integer constant `k`. */
  function Scale(a: Number, k: int): (r: Number)
    ensures r.Fin? <==> a.Fin?
    ensures r.Fin? ==> r.v == a.v * k
  {
    if a.Fin? then Fin(a.v * k) else NaN
  }

  /** Splitting at a separator that occurs gives at least two parts. */
  lemma SplitAtOccurring(s: string, sep: char)
    requires sep in s
    ensures |Split(s, sep)| >= 2
  {
  }

  /**
   * `parseTime`: an empty string is an error; otherwise the trimmed string
   * is split at ':' and read as hours and minutes (NaN for a missing part).
   */
  function ParseTime(timeStr: string): (r: Result<Number, string>)
    ensures r.Err? <==> timeStr == ""
  {
    if timeStr == "" then Err("Time string is required")
    else Ok(TimeOfParts(Split(Trim(timeStr), ':')))
  }

  /** Seconds from `[hours, minutes]` as `Number` reads them; NaN when either is not a number or is missing. */
  function TimeOfParts(parts: seq<string>): (t: Number)
    requires |parts| >= 1
    ensures t.Fin? <==> StringToNumber(parts[0]).Fin? && |parts| >= 2 && StringToNumber(parts[1]).Fin?
  {
    var hours := StringToNumber(parts[0]);
    var minutes := if |parts| >= 2 then StringToNumber(parts[1]) else NaN;
    Add(Scale(hours, 3600), Scale(minutes, 60))
  }

  /**
   * `parseTimeBin`: an empty label is an error; a label with '-' is read as
   * start and end times (an empty side is an error); a single time gets an
   * end `binSizeMinutes` later.
   */
  function ParseTimeBin(binLabel: string, binSizeMinutes: int): (r: Result<TimeBin, string>)
    ensures binLabel == "" ==> r == Err("Bin label is required")
    ensures '-' in binLabel ==>
      |Split(binLabel, '-')| >= 2 && (r.Err? <==> Split(binLabel, '-')[0] == "" || Split(binLabel, '-')[1] == "")
    ensures binLabel != "" && '-' !in binLabel ==>
      r.Ok? && r.value.start == ParseTime(binLabel).value && r.value.end == Add(r.value.start, Fin(binSizeMinutes * 60))
  {
    if binLabel == "" then Err("Bin label is required")
    else if '-' in binLabel then
      var parts := Split(binLabel, '-');
      SplitAtOccurring(binLabel, '-');
      var startStr := parts[0];
      var endStr := parts[1];
      match ParseTime(startStr)
      case Err(e) => Err(e)
      case Ok(start) =>
        match ParseTime(endStr)
        case Err(e) => Err(e)
        case Ok(end) => Ok(TimeBin(start, end))
    else
      var start := ParseTime(binLabel).value;
      Ok(TimeBin(start, Add(start, Fin(binSizeMinutes * 60))))
  }

  /** `"HH:MM"` for a number of minutes, hours not wrapped at 24. */
  function Clock(minutes: nat): string {
    Pad2(minutes / 60) + ":" + Pad2(minutes % 60)
  }

  /** The label of the bin starting at `minutes`. */
  function BinLabel(minutes: nat, binSizeMinutes: nat): string {
    Clock(minutes) + "-" + Clock(minutes + binSizeMinutes)
  }

  /** The start minutes `minutes`, `minutes + b`, … that come before midnight. */
  function Starts(minutes: nat, binSizeMinutes: nat): seq<nat>
    requires binSizeMinutes > 0
    decreases TotalMinutes - minutes
  {
    if minutes >= TotalMinutes then []
    else [minutes] + Starts(minutes + binSizeMinutes, binSizeMinutes)
  }

  /** The k-th start from `minutes` is k·b later. */
  lemma {:induction false} StartAt(minutes: nat, binSizeMinutes: nat, k: nat)
    requires binSizeMinutes > 0 && k < |Starts(minutes, binSizeMinutes)|
    ensures Starts(minutes, binSizeMinutes)[k] == minutes + k * binSizeMinutes
    decreases k
  {
    if k > 0 {
      StartAt(minutes + binSizeMinutes, binSizeMinutes, k - 1);
      MulSucc(k - 1, binSizeMinutes);
    }
  }

  /** From `minutes` the last start is before midnight and one more step would not be. */
  lemma {:induction false} StartsLength(minutes: nat, binSizeMinutes: nat)
    requires binSizeMinutes > 0
    ensures minutes >= TotalMinutes ==> |Starts(minutes, binSizeMinutes)| == 0
    ensures minutes < TotalMinutes ==> var count := |Starts(minutes, binSizeMinutes)|;
      count > 0 && (count - 1) * binSizeMinutes < TotalMinutes - minutes <= count * binSizeMinutes
    decreases TotalMinutes - minutes
  {
    if minutes < TotalMinutes {
      var rest := |Starts(minutes + binSizeMinutes, binSizeMinutes)|;
      StartsLength(minutes + binSizeMinutes, binSizeMinutes);
      MulSucc(rest, binSizeMinutes);
    }
  }

  /** There are ⌈1440 / b⌉ bins, the k-th starting at minute k·b. */
  lemma BinStarts(binSizeMinutes: nat)
    requires binSizeMinutes > 0
    ensures |Starts(0, binSizeMinutes)| == BinCount(binSizeMinutes)
    ensures forall k :: 0 <= k < |Starts(0, binSizeMinutes)| ==> Starts(0, binSizeMinutes)[k] == k * binSizeMinutes
  {
    StartsLength(0, binSizeMinutes);
    CeilDiv(TotalMinutes, binSizeMinutes, |Starts(0, binSizeMinutes)|);
    forall k | 0 <= k < |Starts(0, binSizeMinutes)|
      ensures Starts(0, binSizeMinutes)[k] == k * binSizeMinutes
    {
      StartAt(0, binSizeMinutes, k);
    }
  }

  /** The number of bins: ⌈1440 / binSizeMinutes⌉. */
  function BinCount(binSizeMinutes: nat): nat
    requires binSizeMinutes > 0
  {
    (TotalMinutes + binSizeMinutes - 1) / binSizeMinutes
  }

  /** `c` steps of size `b` are the fewest that reach `n` exactly when `c` is ⌈n / b⌉. */
  lemma CeilDiv(n: nat, b: nat, c: nat)
    requires b > 0 && c > 0 && (c - 1) * b < n <= c * b
    ensures c == (n + b - 1) / b
  {
    var q := (n + b - 1) / b;
    var r := (n + b - 1) % b;
    assert n + b - 1 == q * b + r && 0 <= r < b;
    assert (c - 1) * b == c * b - b;
    assert c * b < (q + 1) * b by {
      assert c * b <= n + b - 1;
      assert (q + 1) * b == q * b + b;
    }
    MulLess(c, q + 1, b);
    assert q * b < (c + 1) * b by {
      assert (c + 1) * b == c * b + b;
    }
    MulLess(q, c + 1, b);
  }

  /** Multiplying by a positive number keeps a strict order. */
  lemma MulLess(a: int, c: int, b: int)
    requires b > 0 && a * b < c * b
    ensures a < c
  {
    assert (c - a) * b == c * b - a * b;
  }

  /**
   * `generateTimeBins(binSizeMinutes)`: labels for bins starting at 0,
   * b, 2b, … while the start is before midnight. A bin size that is not
   * positive never ends the loop.
   */
  method GenerateTimeBins(binSizeMinutes: int) returns (bins: seq<string>)
    requires binSizeMinutes > 0
    ensures Labelled(bins, Starts(0, binSizeMinutes), (m: nat) => BinLabel(m, binSizeMinutes))
    ensures |bins| == |Starts(0, binSizeMinutes)|
  {
    ghost var starts := Starts(0, binSizeMinutes);
    bins := [];
    var minutes := 0;
    while minutes < TotalMinutes
      invariant |bins| <= |starts| && starts[|bins|..] == Starts(minutes, binSizeMinutes)
      invariant Labelled(bins, starts, (m: nat) => BinLabel(m, binSizeMinutes))
      decreases TotalMinutes - minutes
    {
      var startHours := minutes / 60;
      var startMinutes := minutes % 60;
      var endMinutes := minutes + binSizeMinutes;
      var endHours := endMinutes / 60;
      var endMins := endMinutes % 60;
      var start := Pad2(startHours) + ":" + Pad2(startMinutes);
      var end := Pad2(endHours) + ":" + Pad2(endMins);
      SliceStep(starts, |bins|, minutes, Starts(minutes + binSizeMinutes, binSizeMinutes));
      LabelOfParts(minutes, binSizeMinutes, startHours, startMinutes, endHours, endMins);
      LabelledSnoc(bins, starts, (m: nat) => BinLabel(m, binSizeMinutes), start + "-" + end);
      bins := bins + [start + "-" + end];
      minutes := minutes + binSizeMinutes;
    }
  }

  /** `labels` are `labelOf` applied to the first `|labels|` of `starts`. */
  ghost predicate Labelled(labels: seq<string>, starts: seq<nat>, labelOf: nat -> string) {
    |labels| <= |starts| && forall k :: 0 <= k < |labels| ==> labels[k] == labelOf(starts[k])
  }

  /** Appending the label of the next start keeps `Labelled`. */
  lemma LabelledSnoc(labels: seq<string>, starts: seq<nat>, labelOf: nat -> string, next: string)
    requires Labelled(labels, starts, labelOf) && |labels| < |starts|
    requires next == labelOf(starts[|labels|])
    ensures Labelled(labels + [next], starts, labelOf)
  {
  }

  /** A suffix that starts with `x` has `x` at its first index. */
  lemma SliceStep(s: seq<nat>, i: nat, x: nat, rest: seq<nat>)
    requires i <= |s| && s[i..] == [x] + rest
    ensures i < |s| && s[i] == x && s[i + 1..] == rest
  {
    assert s[i..][0] == x;
    assert s[i + 1..] == s[i..][1..];
  }

  /** The label the loop spells out from the hours and minutes of a bin's start and end. */
  lemma LabelOfParts(minutes: nat, binSizeMinutes: nat, startHours: nat, startMinutes: nat, endHours: nat, endMins: nat)
    requires startHours == minutes / 60 && startMinutes == minutes % 60
    requires endHours == (minutes + binSizeMinutes) / 60 && endMins == (minutes + binSizeMinutes) % 60
    ensures (Pad2(startHours) + ":" + Pad2(startMinutes)) + "-" + (Pad2(endHours) + ":" + Pad2(endMins))
      == BinLabel(minutes, binSizeMinutes)
  {
  }

  /** One more step of size `b`. */
  lemma MulSucc(n: nat, b: int)
    ensures (n + 1) * b == n * b + b
  {
  }

  /** `Number` reads a padded number back. */
  lemma Pad2Number(n: nat)
    ensures StringToNumber(Pad2(n)) == Fin(n)
  {
    Pad2Value(n);
    StringToNumberDigits(Pad2(n));
  }

  /** A digit string holds no separator. */
  lemma DigitsAvoid(s: string, c: char)
    requires AllDecimalDigits(s) && !IsDecimalDigit(c)
    ensures c !in s
  {
  }

  /** Splitting "<digits>:<digits>" at ':' gives the two digit strings back, with nothing to trim. */
  lemma SplitClock(h: string, m: string)
    requires h != [] && m != [] && AllDecimalDigits(h) && AllDecimalDigits(m)
    ensures Split(Trim(h + ":" + m), ':') == [h, m]
  {
    var s := h + ":" + m;
    DigitsAvoid(h, ':');
    DigitsAvoid(m, ':');
    var parts := [h, m];
    assert parts[0] == h && parts[1] == m;
    assert Join(parts[1..], ':') == m;
    assert s == Join(parts, ':');
    SplitJoin(parts, ':');
    assert IsDecimalDigit(s[0]) && IsDecimalDigit(s[|s| - 1]);
    TrimNoOp(s);
  }

  /** Seconds from two parts that read as numbers. */
  lemma TimeOfNumbers(h: string, m: string, dh: int, dm: int, sec: int)
    requires StringToNumber(h) == Fin(dh) && StringToNumber(m) == Fin(dm)
    requires sec == dh * 3600 + dm * 60
    ensures TimeOfParts([h, m]) == Fin(sec)
  {
    var parts := [h, m];
    assert parts[0] == h && parts[1] == m;
  }

  /** Whole hours and the remaining minutes make up the minutes. */
  lemma ClockSeconds(minutes: nat, hours: nat, mins: nat)
    requires hours == minutes / 60 && mins == minutes % 60
    ensures hours * 3600 + mins * 60 == minutes * 60
  {
  }

  /** `parseTime` on a clean "<hours>:<minutes>" is the seconds its parts give. */
  lemma ParseTimeParts(h: string, m: string, sec: int)
    requires Split(Trim(h + ":" + m), ':') == [h, m]
    requires TimeOfParts([h, m]) == Fin(sec)
    ensures ParseTime(h + ":" + m) == Ok(Fin(sec))
  {
  }

  /** `parseTime` reads a clock back as seconds. */
  lemma ParseClock(minutes: nat, sec: int)
    requires sec == minutes * 60
    ensures ParseTime(Clock(minutes)) == Ok(Fin(sec))
  {
    var hours := minutes / 60;
    var mins := minutes % 60;
    var h := Pad2(hours);
    var m := Pad2(mins);
    assert Split(Trim(h + ":" + m), ':') == [h, m] by { SplitClock(h, m); }
    assert TimeOfParts([h, m]) == Fin(sec) by {
      ClockSeconds(minutes, hours, mins);
      Pad2Number(hours);
      Pad2Number(mins);
      TimeOfNumbers(h, m, hours, mins, sec);
    }
    ParseTimeParts(h, m, sec);
  }

  /** A clock holds no '-'. */
  lemma ClockNoDash(minutes: nat)
    ensures '-' !in Clock(minutes) && Clock(minutes) != ""
  {
    var h := Pad2(minutes / 60);
    var m := Pad2(minutes % 60);
    assert forall i :: 0 <= i < |h| ==> IsDecimalDigit(h[i]);
    assert forall i :: 0 <= i < |m| ==> IsDecimalDigit(m[i]);
  }

  /** The label of the bin starting at `start` parses back to its start and end in seconds. */
  lemma ParseBinLabel(binLabel: string, start: nat, binSizeMinutes: nat, anyBinSize: int, startSec: int, endSec: int)
    requires binLabel == BinLabel(start, binSizeMinutes)
    requires startSec == start * 60 && endSec == (start + binSizeMinutes) * 60
    ensures ParseTimeBin(binLabel, anyBinSize) == Ok(TimeBin(Fin(startSec), Fin(endSec)))
  {
    var end := start + binSizeMinutes;
    ClockNoDash(start);
    ClockNoDash(end);
    assert binLabel == Join([Clock(start), Clock(end)], '-');
    SplitJoin([Clock(start), Clock(end)], '-');
    ParseClock(start, startSec);
    ParseClock(end, endSec);
  }

  /** Round trip: every generated label parses back to its start and its start plus the bin size, in seconds. */
  lemma ParseGeneratedLabel(bins: seq<string>, starts: seq<nat>, binSizeMinutes: nat, k: nat, anyBinSize: int)
    requires Labelled(bins, starts, (m: nat) => BinLabel(m, binSizeMinutes)) && k < |bins|
    ensures ParseTimeBin(bins[k], anyBinSize) == Ok(TimeBin(Fin(starts[k] * 60), Fin((starts[k] + binSizeMinutes) * 60)))
  {
    ParseBinLabel(bins[k], starts[k], binSizeMinutes, anyBinSize, starts[k] * 60, (starts[k] + binSizeMinutes) * 60);
  }
}
