/**
 * The colour schemes of the commuter-clustering map: requests coloured by
 * transport mode or activity (from fixed tables or colours given in the
 * configuration), by price or detour on a green-yellow-red gradient, the
 * cluster palette, and the legend that lists the colours in use.
 */
module ClusteringColors {
  import opened Wrappers
  import opened JsText
  import opened JsValues
  import Sequences
  import opened HexColors

  const DefaultModeColors: map<string, Rgba> := map[
    "car" := Color(255, 68, 68, 255), "pt" := Color(68, 119, 255, 255),
    "bike" := Color(68, 255, 119, 255), "walk" := Color(255, 187, 68, 255),
    "other" := Color(128, 128, 128, 255)]

  const DefaultActivityColors: map<string, Rgba> := map[
    "home" := Color(68, 119, 255, 255), "work" := Color(255, 68, 119, 255),
    "education" := Color(68, 255, 119, 255), "shopping" := Color(255, 119, 68, 255),
    "leisure" := Color(170, 68, 255, 255), "other" := Color(119, 119, 119, 255)]

  /** The colour of a request when the colouring attribute is unknown. */
  const Gray: Rgba := Color(128, 128, 128, 255)

  /** A colour given in the configuration is used when it is a non-empty string. */
  predicate HasCustom(custom: map<string, string>, key: string) {
    key in custom && custom[key] != ""
  }

  /** `getModeColor`: the configured colour of the mode, else its default, else the 'other' colour. */
  function GetModeColor(mode: Value, custom: map<string, string>): Rgba {
    var key := ToStr(mode);
    if HasCustom(custom, key) then HexToRgbaLeading(custom[key], 255)
    else if key in DefaultModeColors then DefaultModeColors[key]
    else DefaultModeColors["other"]
  }

  /** `getActivityColor`: a falsy activity is 'other'; then as for modes. */
  function GetActivityColor(activity: Value, custom: map<string, string>): Rgba {
    if !Truthy(activity) then DefaultActivityColors["other"]
    else
      var key := ToStr(activity);
      if HasCustom(custom, key) then HexToRgbaLeading(custom[key], 255)
      else if key in DefaultActivityColors then DefaultActivityColors[key]
      else DefaultActivityColors["other"]
  }

  /** Configured colours are well-formed when each non-empty one is a `#rrggbb`. */
  predicate CustomWellFormed(custom: map<string, string>) {
    forall key :: key in custom && custom[key] != "" ==> IsHexColor(custom[key])
  }

  /** An opaque colour of three bytes. */
  predicate IsOpaqueColor(c: Rgba) {
    IsByte(c.r) && IsByte(c.g) && IsByte(c.b) && c.a == 255
  }

  lemma DefaultTablesOpaque()
    ensures forall k :: k in DefaultModeColors ==> IsOpaqueColor(DefaultModeColors[k])
    ensures forall k :: k in DefaultActivityColors ==> IsOpaqueColor(DefaultActivityColors[k])
  {
  }

  /**
   * A configured colour wins over the table, and is read from its `#rrggbb`
   * digits; with well-formed configured colours every mode and activity
   * colour is opaque with byte channels.
   */
  lemma NamedColors(v: Value, custom: map<string, string>)
    requires CustomWellFormed(custom)
    ensures IsOpaqueColor(GetModeColor(v, custom)) && IsOpaqueColor(GetActivityColor(v, custom))
    ensures HasCustom(custom, ToStr(v)) ==> GetModeColor(v, custom) == ColorOf(custom[ToStr(v)], 255)
    ensures HasCustom(custom, ToStr(v)) && Truthy(v) ==> GetActivityColor(v, custom) == ColorOf(custom[ToStr(v)], 255)
    ensures !HasCustom(custom, ToStr(v)) && ToStr(v) !in DefaultModeColors ==>
      GetModeColor(v, custom) == DefaultModeColors["other"]
    ensures !Truthy(v) ==> GetActivityColor(v, custom) == DefaultActivityColors["other"]
  {
    DefaultTablesOpaque();
    var key := ToStr(v);
    if HasCustom(custom, key) {
      HexColorChannels(custom[key], 255);
    }
  }

  // ---------------------------------------------------------------------
  // getGradientColor

  /** `Math.max(min, Math.min(max, value))`. */
  function Clamp(value: real, min: real, max: real): (c: real)
    requires min < max
    ensures min <= c <= max
    ensures min <= value <= max ==> c == value
  {
    if value < min then min else if value > max then max else value
  }

  /** Where `value` lies between `min` and `max`, from 0 to 1. */
  function Ratio(value: real, min: real, max: real): (t: real)
    requires min < max
    ensures 0.0 <= t <= 1.0
  {
    DivUnit(Clamp(value, min, max) - min, max - min);
    (Clamp(value, min, max) - min) / (max - min)
  }

  lemma DivExact(x: real, d: real, q: real)
    requires d > 0.0 && x == q * d
    ensures x / d == q
  {
    assert (x / d) * d == q * d;
  }

  lemma DivUnit(x: real, d: real)
    requires d > 0.0 && 0.0 <= x <= d
    ensures 0.0 <= x / d <= 1.0
  {
    assert (x / d) * d == x;
  }

  /**
   * `getGradientColor` for a finite value: green through yellow to red as
   * the value goes from `min` to `max`.
   */
  function GradientColor(value: real, min: real, max: real): Rgba
    requires min < max
  {
    var t := Ratio(value, min, max);
    if t < 0.5 then Color((255.0 * (t * 2.0)).Floor, 255, 0, 255)
    else Color(255, (255.0 * (1.0 - (t - 0.5) * 2.0)).Floor, 0, 255)
  }

  /** `getGradientColor` for a number, NaN included: the comparisons fail and green is NaN. */
  function GradientOf(value: Number, min: real, max: real): Rgba
    requires min < max
  {
    if value.NaN? then Rgba(Fin(255), NaN, Fin(0), 255)
    else GradientColor(value.v as real, min, max)
  }

  /** The red and green channels of a finite gradient colour. */
  function Red(c: Rgba): int requires c.r.Fin? { c.r.v }
  function Green(c: Rgba): int requires c.g.Fin? { c.g.v }

  /** Every gradient colour is opaque with byte channels and no blue. */
  lemma GradientBytes(value: real, min: real, max: real)
    requires min < max
    ensures IsOpaqueColor(GradientColor(value, min, max)) && GradientColor(value, min, max).b == Fin(0)
  {
    var t := Ratio(value, min, max);
    if t < 0.5 {
      assert 0.0 <= 255.0 * (t * 2.0) < 255.0;
    } else {
      assert 0.0 <= 255.0 * (1.0 - (t - 0.5) * 2.0) <= 255.0;
    }
  }

  /** Green at or below the minimum, yellow at the midpoint, red at or above the maximum. */
  lemma GradientStops(value: real, min: real, max: real)
    requires min < max
    ensures value <= min ==> GradientColor(value, min, max) == Color(0, 255, 0, 255)
    ensures value == (min + max) / 2.0 ==> GradientColor(value, min, max) == Color(255, 255, 0, 255)
    ensures value >= max ==> GradientColor(value, min, max) == Color(255, 0, 0, 255)
  {
    var d := max - min;
    if value <= min {
      assert Ratio(value, min, max) == 0.0 / d == 0.0;
    } else if value >= max {
      assert Clamp(value, min, max) == max;
      DivExact(d, d, 1.0);
      assert Ratio(value, min, max) == 1.0;
      assert (255.0 * (1.0 - (1.0 - 0.5) * 2.0)).Floor == 0;
    } else if value == (min + max) / 2.0 {
      assert value - min == d / 2.0;
      DivExact(d / 2.0, d, 0.5);
      assert Ratio(value, min, max) == 0.5;
    }
  }

  /** As the value grows the colour never gets less red nor more green. */
  lemma GradientMonotone(v1: real, v2: real, min: real, max: real)
    requires min < max && v1 <= v2
    ensures Red(GradientColor(v1, min, max)) <= Red(GradientColor(v2, min, max))
    ensures Green(GradientColor(v1, min, max)) >= Green(GradientColor(v2, min, max))
  {
    var t1 := Ratio(v1, min, max);
    var t2 := Ratio(v2, min, max);
    assert t1 <= t2 by {
      assert Clamp(v1, min, max) <= Clamp(v2, min, max);
      RatioMonotone(Clamp(v1, min, max), Clamp(v2, min, max), min, max);
    }
    GradientBytes(v1, min, max);
    GradientBytes(v2, min, max);
    if t2 < 0.5 {
      FloorMonotone(255.0 * (t1 * 2.0), 255.0 * (t2 * 2.0));
    } else if 0.5 <= t1 {
      FloorMonotone(255.0 * (1.0 - (t2 - 0.5) * 2.0), 255.0 * (1.0 - (t1 - 0.5) * 2.0));
    }
  }

  lemma RatioMonotone(c1: real, c2: real, min: real, max: real)
    requires min < max && c1 <= c2
    ensures (c1 - min) / (max - min) <= (c2 - min) / (max - min)
  {
  }

  lemma FloorMonotone(x: real, y: real)
    requires x <= y
    ensures x.Floor <= y.Floor
  {
  }

  // ---------------------------------------------------------------------
  // getClusterColor

  const ClusterPalette: seq<Rgba> := [
    Color(255, 99, 132, 180), Color(54, 162, 235, 180), Color(255, 206, 86, 180),
    Color(75, 192, 192, 180), Color(153, 102, 255, 180), Color(255, 159, 64, 180),
    Color(199, 199, 199, 180), Color(83, 102, 255, 180), Color(40, 159, 64, 180),
    Color(210, 99, 132, 180)]

  datatype HullType = OriginHull | DestinationHull

  /**
   * `getClusterColor`: the palette entry at `clusterId % 10`, its alpha 150
   * for an origin hull and 100 for a destination hull. A negative remainder
   * reads past the palette: the plain lookup is undefined and the hull
   * lookups throw, both `None` here.
   */
  function GetClusterColor(clusterId: int, hullType: Option<HullType>): Option<Rgba> {
    var k := Rem(clusterId, 10);
    if k < 0 then None
    else
      var base := ClusterPalette[k];
      match hullType
      case Some(OriginHull) => Some(base.(a := 150))
      case Some(DestinationHull) => Some(base.(a := 100))
      case None => Some(base)
  }

  /**
   * A cluster colour is defined exactly when the id's remainder by 10 is not
   * negative; the hull type changes only the alpha, and ids 10 apart share
   * a colour.
   */
  lemma ClusterColorShape(clusterId: int, hullType: Option<HullType>)
    ensures GetClusterColor(clusterId, hullType).Some? <==> Rem(clusterId, 10) >= 0
    ensures GetClusterColor(clusterId, hullType).Some? ==>
      var c := GetClusterColor(clusterId, hullType).value;
      var base := GetClusterColor(clusterId, None).value;
      c.r == base.r && c.g == base.g && c.b == base.b
      && c.a == (match hullType case Some(OriginHull) => 150 case Some(DestinationHull) => 100 case None => 180)
    ensures clusterId >= 0 ==> GetClusterColor(clusterId + 10, hullType) == GetClusterColor(clusterId, hullType)
  {
  }

  /** Ten clusters with consecutive non-negative ids get ten different colours. */
  lemma ClusterColorsDistinct(i: int, j: int, hullType: Option<HullType>)
    requires 0 <= i < j && j - i < 10
    ensures GetClusterColor(i, hullType) != GetClusterColor(j, hullType)
  {
    if i / 10 == j / 10 {
      assert i % 10 < j % 10;
    } else {
      assert j % 10 < i % 10;
    }
    var a := ClusterPalette[i % 10];
    var b := ClusterPalette[j % 10];
    assert (a.r, a.g, a.b) != (b.r, b.g, b.b);
  }

  // ---------------------------------------------------------------------
  // getColorByAttribute and getLegendItems

  /** `request.main_mode || request.mode`. */
  function ModeOf(request: Row): Value {
    Or(Get(request, "main_mode"), Get(request, "mode"))
  }

  /** `request.start_activity_type`. */
  function ActivityOf(request: Row): Value {
    Get(request, "start_activity_type")
  }

  /** `getColorByAttribute`. */
  function GetColorByAttribute(request: Row, colorBy: string, custom: map<string, string>): Rgba {
    if colorBy == "mode" then GetModeColor(ModeOf(request), custom)
    else if colorBy == "activity" then GetActivityColor(ActivityOf(request), custom)
    else if colorBy == "price" then
      GradientOf(ToNumber(Or(Get(request, "max_price"), Num(Fin(0)))), 0.0, 50.0)
    else if colorBy == "detour" then
      GradientOf(ToNumber(Or(Get(request, "max_detour"), Num(Fin(1)))), 1.0, 2.0)
    else Gray
  }

  /**
   * The gradient colour of `Number(v || dflt)` when the default sits at the
   * bottom of the scale: a falsy value (undefined, null, false, 0, "") is
   * green, a truthy one is coloured as itself, and a finite value at or
   * above the top of the scale is red.
   */
  lemma DefaultedGradient(v: Value, dflt: int, min: real, max: real)
    requires 0.0 <= min < max && dflt as real == min
    ensures Truthy(v) ==> GradientOf(ToNumber(Or(v, Num(Fin(dflt)))), min, max) == GradientOf(ToNumber(v), min, max)
    ensures !Truthy(v) ==> GradientOf(ToNumber(Or(v, Num(Fin(dflt)))), min, max) == Color(0, 255, 0, 255)
    ensures ToNumber(v).Fin? && ToNumber(v).v as real >= max ==>
      GradientOf(ToNumber(Or(v, Num(Fin(dflt)))), min, max) == Color(255, 0, 0, 255)
  {
    var n := ToNumber(v);
    if !Truthy(v) {
      assert ToNumber(Or(v, Num(Fin(dflt)))) == Fin(dflt);
      GradientStops(min, min, max);
      assert GradientOf(Fin(dflt), min, max) == Color(0, 255, 0, 255);
      if v == Null || v == Str("") {
        NullAndEmptyAreZero(v);
      }
      assert n.NaN? || n.v == 0;
      assert !(n.Fin? && n.v as real >= max);
    } else {
      assert Or(v, Num(Fin(dflt))) == v;
      if n.Fin? && n.v as real >= max {
        GradientStops(n.v as real, min, max);
      }
    }
  }

  /**
   * How `getColorByAttribute` dispatches. Mode and activity use their
   * lookups. A missing or falsy price is coloured as 0 on the 0–50 gradient,
   * and a missing or falsy detour as 1 on the 1–2 gradient: green in both
   * cases. A price of 50 or more, or a detour of 2 or more, is red. Any other
   * attribute is gray.
   */
  lemma ColorByAttributeBranches(request: Row, colorBy: string, custom: map<string, string>)
    ensures colorBy == "mode" ==> GetColorByAttribute(request, colorBy, custom) == GetModeColor(ModeOf(request), custom)
    ensures colorBy == "activity" ==>
      GetColorByAttribute(request, colorBy, custom) == GetActivityColor(ActivityOf(request), custom)
    ensures colorBy == "price" && Truthy(Get(request, "max_price")) ==>
      GetColorByAttribute(request, colorBy, custom) == GradientOf(ToNumber(Get(request, "max_price")), 0.0, 50.0)
    ensures colorBy == "price" && !Truthy(Get(request, "max_price")) ==>
      GetColorByAttribute(request, colorBy, custom) == Color(0, 255, 0, 255)
    ensures colorBy == "price" && ToNumber(Get(request, "max_price")).Fin? && ToNumber(Get(request, "max_price")).v >= 50 ==>
      GetColorByAttribute(request, colorBy, custom) == Color(255, 0, 0, 255)
    ensures colorBy == "detour" && Truthy(Get(request, "max_detour")) ==>
      GetColorByAttribute(request, colorBy, custom) == GradientOf(ToNumber(Get(request, "max_detour")), 1.0, 2.0)
    ensures colorBy == "detour" && !Truthy(Get(request, "max_detour")) ==>
      GetColorByAttribute(request, colorBy, custom) == Color(0, 255, 0, 255)
    ensures colorBy == "detour" && ToNumber(Get(request, "max_detour")).Fin? && ToNumber(Get(request, "max_detour")).v >= 2 ==>
      GetColorByAttribute(request, colorBy, custom) == Color(255, 0, 0, 255)
    ensures colorBy !in {"mode", "activity", "price", "detour"} ==> GetColorByAttribute(request, colorBy, custom) == Gray
  {
    if colorBy == "price" {
      DefaultedGradient(Get(request, "max_price"), 0, 0.0, 50.0);
    } else if colorBy == "detour" {
      DefaultedGradient(Get(request, "max_detour"), 1, 1.0, 2.0);
    }
  }

  datatype LegendItem = LegendItem(text: Value, color: Rgba)

  function Modes(requests: seq<Row>): (r: seq<Value>)
    ensures |r| == |requests| && forall i :: 0 <= i < |requests| ==> r[i] == ModeOf(requests[i])
  {
    seq(|requests|, i requires 0 <= i < |requests| => ModeOf(requests[i]))
  }

  function Activities(requests: seq<Row>): (r: seq<Value>)
    ensures |r| == |requests| && forall i :: 0 <= i < |requests| ==> r[i] == ActivityOf(requests[i])
  {
    seq(|requests|, i requires 0 <= i < |requests| => ActivityOf(requests[i]))
  }

  /** The distinct modes of the requests, in first-occurrence order. */
  function LegendModes(requests: seq<Row>): seq<Value> {
    Sequences.Distinct(Modes(requests))
  }

  /** The distinct truthy activities of the requests, in first-occurrence order. */
  function LegendActivities(requests: seq<Row>): seq<Value> {
    Sequences.Distinct(Sequences.Filter(Activities(requests), (v: Value) => Truthy(v)))
  }

  const PriceLegend: seq<LegendItem> := [
    LegendItem(Str("€0"), Color(0, 255, 0, 255)),
    LegendItem(Str("€25"), Color(255, 255, 0, 255)),
    LegendItem(Str("€50"), Color(255, 0, 0, 255))]

  const DetourLegend: seq<LegendItem> := [
    LegendItem(Str("1.0x"), Color(0, 255, 0, 255)),
    LegendItem(Str("1.5x"), Color(255, 255, 0, 255)),
    LegendItem(Str("2.0x"), Color(255, 0, 0, 255))]

  /** `getLegendItems`. */
  function GetLegendItems(colorBy: string, requests: seq<Row>, custom: map<string, string>): seq<LegendItem> {
    if colorBy == "mode" then
      var modes := LegendModes(requests);
      seq(|modes|, i requires 0 <= i < |modes| => LegendItem(modes[i], GetModeColor(modes[i], custom)))
    else if colorBy == "activity" then
      var activities := LegendActivities(requests);
      seq(|activities|, i requires 0 <= i < |activities| =>
        LegendItem(activities[i], GetActivityColor(activities[i], custom)))
    else if colorBy == "price" then PriceLegend
    else if colorBy == "detour" then DetourLegend
    else []
  }

  /**
   * The mode legend lists each mode once, and every request's colour is
   * the colour the legend gives its mode.
   */
  lemma ModeLegendCoversRequests(requests: seq<Row>, custom: map<string, string>)
    ensures Sequences.NoDuplicates(GetLegendItems("mode", requests, custom))
    ensures forall item :: item in GetLegendItems("mode", requests, custom) ==>
      exists i :: 0 <= i < |requests| && ModeOf(requests[i]) == item.text
    ensures forall i :: 0 <= i < |requests| ==>
      LegendItem(ModeOf(requests[i]), GetColorByAttribute(requests[i], "mode", custom))
        in GetLegendItems("mode", requests, custom)
  {
    var modes := LegendModes(requests);
    var items := GetLegendItems("mode", requests, custom);
    forall j, k | 0 <= j < k < |items| ensures items[j] != items[k] {
      assert items[j].text == modes[j] && items[k].text == modes[k];
    }
    forall item | item in items
      ensures exists i :: 0 <= i < |requests| && ModeOf(requests[i]) == item.text
    {
      var j :| 0 <= j < |items| && items[j] == item;
      assert modes[j] in Modes(requests);
      var i :| 0 <= i < |requests| && Modes(requests)[i] == modes[j];
    }
    forall i | 0 <= i < |requests|
      ensures LegendItem(ModeOf(requests[i]), GetColorByAttribute(requests[i], "mode", custom)) in items
    {
      assert Modes(requests)[i] in modes;
      var j :| 0 <= j < |modes| && modes[j] == ModeOf(requests[i]);
      assert items[j] == LegendItem(ModeOf(requests[i]), GetColorByAttribute(requests[i], "mode", custom));
    }
  }

  /**
   * The activity legend lists each truthy activity once, and every request
   * with a truthy activity has the colour the legend gives that activity;
   * requests without one are drawn in the 'other' colour, which is not listed.
   */
  lemma ActivityLegendCoversRequests(requests: seq<Row>, custom: map<string, string>)
    ensures Sequences.NoDuplicates(GetLegendItems("activity", requests, custom))
    ensures forall item :: item in GetLegendItems("activity", requests, custom) ==>
      Truthy(item.text) && exists i :: 0 <= i < |requests| && ActivityOf(requests[i]) == item.text
    ensures forall i :: 0 <= i < |requests| && Truthy(ActivityOf(requests[i])) ==>
      LegendItem(ActivityOf(requests[i]), GetColorByAttribute(requests[i], "activity", custom))
        in GetLegendItems("activity", requests, custom)
    ensures forall i :: 0 <= i < |requests| && !Truthy(ActivityOf(requests[i])) ==>
      GetColorByAttribute(requests[i], "activity", custom) == DefaultActivityColors["other"]
  {
    var truthy := (v: Value) => Truthy(v);
    var acts := Activities(requests);
    var activities := LegendActivities(requests);
    var items := GetLegendItems("activity", requests, custom);
    Sequences.FilterMembers(acts, truthy);
    forall j, k | 0 <= j < k < |items| ensures items[j] != items[k] {
      assert items[j].text == activities[j] && items[k].text == activities[k];
    }
    forall item | item in items
      ensures Truthy(item.text) && exists i :: 0 <= i < |requests| && ActivityOf(requests[i]) == item.text
    {
      var j :| 0 <= j < |items| && items[j] == item;
      assert activities[j] in Sequences.Filter(acts, truthy);
      var i :| 0 <= i < |requests| && acts[i] == activities[j];
    }
    forall i | 0 <= i < |requests| && Truthy(ActivityOf(requests[i]))
      ensures LegendItem(ActivityOf(requests[i]), GetColorByAttribute(requests[i], "activity", custom)) in items
    {
      assert acts[i] in acts && truthy(acts[i]);
      assert acts[i] in activities;
      var j :| 0 <= j < |activities| && activities[j] == ActivityOf(requests[i]);
      assert items[j] == LegendItem(ActivityOf(requests[i]), GetColorByAttribute(requests[i], "activity", custom));
    }
  }

  /** The price and detour legends show the gradient's colours at its two ends and its midpoint. */
  lemma GradientLegends()
    ensures PriceLegend[0].color == GradientColor(0.0, 0.0, 50.0)
    ensures PriceLegend[1].color == GradientColor(25.0, 0.0, 50.0)
    ensures PriceLegend[2].color == GradientColor(50.0, 0.0, 50.0)
    ensures DetourLegend[0].color == GradientColor(1.0, 1.0, 2.0)
    ensures DetourLegend[1].color == GradientColor(1.5, 1.0, 2.0)
    ensures DetourLegend[2].color == GradientColor(2.0, 1.0, 2.0)
  {
    GradientStops(0.0, 0.0, 50.0);
    GradientStops(25.0, 0.0, 50.0);
    GradientStops(50.0, 0.0, 50.0);
    GradientStops(1.0, 1.0, 2.0);
    GradientStops(1.5, 1.0, 2.0);
    GradientStops(2.0, 1.0, 2.0);
  }
}
