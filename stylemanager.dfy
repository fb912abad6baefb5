/**
 * The dashboard's style manager: colours named by dot-separated paths
 * (`theme.background.primary`, `cluster.origin`, `categorical.3`, ...),
 * resolved against fixed tables, the current light or dark mode, and
 * cluster colours overridden from the configuration.
 */
module Styling {
  import opened Wrappers
  import opened JsText
  import opened HexColors
  import opened DashboardColors

  datatype ColorMode = Light | Dark

  /** A colour with one value per mode. */
  datatype Variant = Variant(light: string, dark: string)

  function Pick(v: Variant, mode: ColorMode): string {
    if mode == Light then v.light else v.dark
  }

  const Theme: map<string, map<string, Variant>> := map[
    "background" := map[
      "primary" := Variant("#ffffff", "#1e293b"),
      "secondary" := Variant("#f8f9fa", "#334155"),
      "tertiary" := Variant("#f1f5f9", "#475569")],
    "text" := map[
      "primary" := Variant("#374151", "#e2e8f0"),
      "secondary" := Variant("#6b7280", "#94a3b8")],
    "border" := map[
      "default" := Variant("#e5e7eb", "#475569"),
      "subtle" := Variant("#f3f4f6", "#334155")]]

  /** The string entries of `interaction`; `dimmedAlpha` is a number. */
  const InteractionColors: map<string, string> := map["hover" := "#fbbf24", "selected" := "#3b82f6"]

  const DimmedAlpha: int := 77

  const ClusterDefaults: map<string, string> := map["origin" := "#2563eb", "destination" := "#dc2626"]

  const ChartBar: map<string, Variant> := map[
    "default" := Variant("#3b82f6", "#60a5fa"),
    "selected" := Variant("#ef4444", "#f87171")]

  const ChartGrid: Variant := Variant("#e5e7eb", "#334155")

  /** The colour of a path nobody knows. */
  const Fallback: string := "#808080"

  /** A cluster colour: a non-empty override, else the default; undefined for other names. */
  function ClusterColor(overrides: map<string, string>, name: string): Option<string> {
    if name in overrides && overrides[name] != "" then Some(overrides[name])
    else if name in ClusterDefaults then Some(ClusterDefaults[name])
    else None
  }

  /** An interaction colour, or the fallback for `dimmedAlpha` and unknown names. */
  function InteractionColor(name: string): string {
    if name in InteractionColors then InteractionColors[name] else Fallback
  }

  /** `colors.mode[name] || colors.mode.default`, with the name taken as written. */
  function ModeEntry(name: string): string {
    if name in ModeColors then ModeColors[name] else ModeColors["default"]
  }

  /** `colors.activity[name] || colors.activity.other`. */
  function ActivityEntry(name: string): string {
    if name in ActivityColors then ActivityColors[name] else ActivityColors["other"]
  }

  predicate IsThemeEntry(category: string, name: string) {
    category in Theme && name in Theme[category]
  }

  /**
   * `getColor` on the parts of the path, in the order the source tests them;
   * a theme, chart or categorical path that matches no entry falls through
   * to the fallback colour. `None` is the `undefined` returned for an
   * unknown cluster name or a negative categorical index.
   */
  function ResolveParts(mode: ColorMode, overrides: map<string, string>, parts: seq<string>): Option<string>
    requires |parts| >= 1
  {
    if parts[0] == "cluster" && |parts| == 2 then ClusterColor(overrides, parts[1])
    else if parts[0] == "interaction" && |parts| == 2 then Some(InteractionColor(parts[1]))
    else if parts[0] == "theme" && |parts| == 3 && IsThemeEntry(parts[1], parts[2]) then
      Some(Pick(Theme[parts[1]][parts[2]], mode))
    else if parts[0] == "chart" && |parts| == 2 && parts[1] == "grid" then Some(Pick(ChartGrid, mode))
    else if parts[0] == "chart" && |parts| == 3 && parts[1] == "bar" && parts[2] in ChartBar then
      Some(Pick(ChartBar[parts[2]], mode))
    else if parts[0] == "categorical" && |parts| == 2 && ParseInt(parts[1], 10).Fin? then
      PaletteAt(ParseInt(parts[1], 10).v)
    else if parts[0] == "mode" && |parts| == 2 then Some(ModeEntry(parts[1]))
    else if parts[0] == "activity" && |parts| == 2 then Some(ActivityEntry(parts[1]))
    else Some(Fallback)
  }

  /** `getColor(path)`: the path is split at every '.'. */
  function Resolve(mode: ColorMode, overrides: map<string, string>, path: string): Option<string> {
    ResolveParts(mode, overrides, Split(path, '.'))
  }

  /** `getColorRGBA`: the colour read as `[r, g, b, alpha]`; an undefined colour throws, here `None`. */
  function ResolveRgba(mode: ColorMode, overrides: map<string, string>, path: string, alpha: int): Option<Rgba> {
    var c := Resolve(mode, overrides, path);
    if c.None? then None else Some(HexToRgba(c.value, alpha))
  }

  // ---------------------------------------------------------------------
  // What resolution promises

  /** A path of two parts is written `a.b`, and splits back into them. */
  lemma SplitTwo(a: string, b: string)
    requires '.' !in a && '.' !in b
    ensures Split(a + "." + b, '.') == [a, b]
  {
    assert Join([a, b], '.') == a + "." + b;
    SplitJoin([a, b], '.');
  }

  /** Only theme and chart colours depend on the mode. */
  lemma ModeMattersOnlyForThemeAndChart(overrides: map<string, string>, parts: seq<string>)
    requires |parts| >= 1 && parts[0] != "theme" && parts[0] != "chart"
    ensures ResolveParts(Light, overrides, parts) == ResolveParts(Dark, overrides, parts)
  {
  }

  /** Every theme and chart colour differs between the light and the dark mode. */
  lemma ModesDiffer()
    ensures forall c, n :: c in Theme && n in Theme[c] ==> Theme[c][n].light != Theme[c][n].dark
    ensures forall n :: n in ChartBar ==> ChartBar[n].light != ChartBar[n].dark
    ensures ChartGrid.light != ChartGrid.dark
  {
  }

  /** A theme entry resolves to its variant for the current mode, so switching the mode switches it. */
  lemma ThemeFollowsMode(overrides: map<string, string>, category: string, name: string)
    requires IsThemeEntry(category, name)
    ensures ResolveParts(Light, overrides, ["theme", category, name]) == Some(Theme[category][name].light)
    ensures ResolveParts(Dark, overrides, ["theme", category, name]) == Some(Theme[category][name].dark)
    ensures ResolveParts(Light, overrides, ["theme", category, name])
         != ResolveParts(Dark, overrides, ["theme", category, name])
  {
    ModesDiffer();
  }

  /** A theme path that names no entry gets the fallback colour. */
  lemma UnknownThemeEntry(mode: ColorMode, overrides: map<string, string>, category: string, name: string)
    requires !IsThemeEntry(category, name)
    ensures ResolveParts(mode, overrides, ["theme", category, name]) == Some(Fallback)
  {
  }

  /**
   * `cluster.<name>`: a non-empty override wins over the default, an empty
   * one is ignored, and without overrides the defaults apply.
   */
  lemma ClusterPath(mode: ColorMode, overrides: map<string, string>, name: string)
    requires '.' !in name
    ensures name in overrides && overrides[name] != "" ==>
      Resolve(mode, overrides, "cluster." + name) == Some(overrides[name])
    ensures !(name in overrides && overrides[name] != "") ==>
      Resolve(mode, overrides, "cluster." + name) == Resolve(mode, map[], "cluster." + name)
    ensures Resolve(mode, map[], "cluster." + name) ==
      if name in ClusterDefaults then Some(ClusterDefaults[name]) else None
  {
    assert "cluster." + name == "cluster" + "." + name;
    SplitTwo("cluster", name);
  }

  /** `categorical.<i>` is the palette entry at `i % 15`, undefined when that remainder is negative. */
  lemma CategoricalPath(mode: ColorMode, overrides: map<string, string>, i: int)
    ensures Resolve(mode, overrides, "categorical." + IntToString(i)) == PaletteAt(i)
    ensures i >= 0 ==> Resolve(mode, overrides, "categorical." + IntToString(i)) == Some(CategoricalColors[i % 15])
  {
    var text := IntToString(i);
    NoDotInIntToString(i);
    assert "categorical." + text == "categorical" + "." + text;
    SplitTwo("categorical", text);
    ParseIntOfIntToString(i);
    CategoricalParts(mode, overrides, text, i);
  }

  /** The parts `categorical` and a number's text resolve to the palette entry for that number. */
  lemma CategoricalParts(mode: ColorMode, overrides: map<string, string>, text: string, i: int)
    requires ParseInt(text, 10) == Fin(i)
    ensures ResolveParts(mode, overrides, ["categorical", text]) == PaletteAt(i)
  {
  }

  /** A path whose first part names no colour group gets the fallback colour. */
  lemma UnknownGroup(mode: ColorMode, overrides: map<string, string>, parts: seq<string>)
    requires |parts| >= 1
    requires parts[0] !in {"cluster", "interaction", "theme", "chart", "categorical", "mode", "activity"}
    ensures ResolveParts(mode, overrides, parts) == Some(Fallback)
  {
  }

  /**
   * A colour is undefined exactly for a cluster name with neither an
   * override nor a default, and for a categorical index whose remainder
   * by 15 is negative.
   */
  lemma ResolveUndefined(mode: ColorMode, overrides: map<string, string>, parts: seq<string>)
    requires |parts| >= 1
    ensures ResolveParts(mode, overrides, parts).None? <==>
      (parts[0] == "cluster" && |parts| == 2 && ClusterColor(overrides, parts[1]).None?)
      || (parts[0] == "categorical" && |parts| == 2 && ParseInt(parts[1], 10).Fin?
          && Rem(ParseInt(parts[1], 10).v, 15) < 0)
  {
  }

  /** Overrides are well-formed when each non-empty one is a `#rrggbb` colour. */
  predicate OverridesWellFormed(overrides: map<string, string>) {
    forall name :: name in overrides && overrides[name] != "" ==> IsHexColor(overrides[name])
  }

  predicate VariantWellFormed(v: Variant) {
    IsHexColor(v.light) && IsHexColor(v.dark)
  }

  /** The theme table holds well-formed colours only, shown one category at a time. */
  lemma ThemeWellFormed()
    ensures forall c, n :: c in Theme && n in Theme[c] ==> VariantWellFormed(Theme[c][n])
  {
    BackgroundWellFormed();
    TextWellFormed();
    BorderWellFormed();
  }

  lemma BackgroundWellFormed()
    ensures forall n :: n in Theme["background"] ==> VariantWellFormed(Theme["background"][n])
  {
  }

  lemma TextWellFormed()
    ensures forall n :: n in Theme["text"] ==> VariantWellFormed(Theme["text"][n])
  {
  }

  lemma BorderWellFormed()
    ensures forall n :: n in Theme["border"] ==> VariantWellFormed(Theme["border"][n])
  {
  }

  /** The chart colours are well-formed. */
  lemma ChartWellFormed()
    ensures forall n :: n in ChartBar ==> VariantWellFormed(ChartBar[n])
    ensures VariantWellFormed(ChartGrid)
  {
  }

  /** The interaction, cluster and fallback colours are well-formed. */
  lemma FixedColorsWellFormed()
    ensures forall n :: n in InteractionColors ==> IsHexColor(InteractionColors[n])
    ensures forall n :: n in ClusterDefaults ==> IsHexColor(ClusterDefaults[n])
    ensures IsHexColor(Fallback)
  {
  }

  /** With well-formed overrides every defined colour is a well-formed `#rrggbb`. */
  lemma ResolvedColorsWellFormed(mode: ColorMode, overrides: map<string, string>, parts: seq<string>)
    requires |parts| >= 1 && OverridesWellFormed(overrides)
    ensures ResolveParts(mode, overrides, parts).Some? ==> IsHexColor(ResolveParts(mode, overrides, parts).value)
  {
    if parts[0] == "cluster" {
      ClusterPartsWellFormed(mode, overrides, parts);
    } else if parts[0] == "interaction" {
      InteractionPartsWellFormed(mode, overrides, parts);
    } else if parts[0] == "theme" {
      ThemePartsWellFormed(mode, overrides, parts);
    } else if parts[0] == "chart" {
      ChartPartsWellFormed(mode, overrides, parts);
    } else if parts[0] == "categorical" {
      CategoricalPartsWellFormed(mode, overrides, parts);
    } else if parts[0] == "mode" || parts[0] == "activity" {
      NamedPartsWellFormed(mode, overrides, parts);
    } else {
      OtherPartsWellFormed(mode, overrides, parts);
    }
  }

  /** Cluster paths: an override, a default or the fallback. */
  lemma ClusterPartsWellFormed(mode: ColorMode, overrides: map<string, string>, parts: seq<string>)
    requires |parts| >= 1 && OverridesWellFormed(overrides) && parts[0] == "cluster"
    ensures ResolveParts(mode, overrides, parts).Some? ==> IsHexColor(ResolveParts(mode, overrides, parts).value)
  {
    if |parts| == 2 {
      ClusterColorWellFormed(overrides, parts[1]);
    } else {
      FixedColorWellFormed(parts[0]);
    }
  }

  /** Interaction paths: an interaction colour or the fallback. */
  lemma InteractionPartsWellFormed(mode: ColorMode, overrides: map<string, string>, parts: seq<string>)
    requires |parts| >= 1 && OverridesWellFormed(overrides) && parts[0] == "interaction"
    ensures ResolveParts(mode, overrides, parts).Some? ==> IsHexColor(ResolveParts(mode, overrides, parts).value)
  {
    FixedColorWellFormed(parts[|parts| - 1]);
  }

  /** Theme paths: a theme entry or the fallback. */
  lemma ThemePartsWellFormed(mode: ColorMode, overrides: map<string, string>, parts: seq<string>)
    requires |parts| >= 1 && OverridesWellFormed(overrides) && parts[0] == "theme"
    ensures ResolveParts(mode, overrides, parts).Some? ==> IsHexColor(ResolveParts(mode, overrides, parts).value)
  {
    if |parts| == 3 && IsThemeEntry(parts[1], parts[2]) {
      ThemeEntryWellFormed(mode, parts[1], parts[2]);
    } else {
      FixedColorWellFormed(parts[0]);
    }
  }

  /** Chart paths: a chart entry or the fallback. */
  lemma ChartPartsWellFormed(mode: ColorMode, overrides: map<string, string>, parts: seq<string>)
    requires |parts| >= 1 && OverridesWellFormed(overrides) && parts[0] == "chart"
    ensures ResolveParts(mode, overrides, parts).Some? ==> IsHexColor(ResolveParts(mode, overrides, parts).value)
  {
    ChartEntryWellFormed(mode, parts[|parts| - 1]);
    FixedColorWellFormed(parts[0]);
  }

  /** Categorical paths: a palette entry or the fallback. */
  lemma CategoricalPartsWellFormed(mode: ColorMode, overrides: map<string, string>, parts: seq<string>)
    requires |parts| >= 1 && OverridesWellFormed(overrides) && parts[0] == "categorical"
    ensures ResolveParts(mode, overrides, parts).Some? ==> IsHexColor(ResolveParts(mode, overrides, parts).value)
  {
    if |parts| == 2 && ParseInt(parts[1], 10).Fin? {
      PaletteEntryWellFormed(ParseInt(parts[1], 10).v);
    } else {
      FixedColorWellFormed(parts[0]);
    }
  }

  /** Mode and activity paths: a table entry, its default or the fallback. */
  lemma NamedPartsWellFormed(mode: ColorMode, overrides: map<string, string>, parts: seq<string>)
    requires |parts| >= 1 && OverridesWellFormed(overrides) && (parts[0] == "mode" || parts[0] == "activity")
    ensures ResolveParts(mode, overrides, parts).Some? ==> IsHexColor(ResolveParts(mode, overrides, parts).value)
  {
    NamedEntryWellFormed(parts[|parts| - 1]);
    FixedColorWellFormed(parts[0]);
  }

  /** Any other path: the fallback. */
  lemma OtherPartsWellFormed(mode: ColorMode, overrides: map<string, string>, parts: seq<string>)
    requires |parts| >= 1 && OverridesWellFormed(overrides) && parts[0] !in {"cluster", "interaction", "theme", "chart", "categorical", "mode", "activity"}
    ensures ResolveParts(mode, overrides, parts).Some? ==> IsHexColor(ResolveParts(mode, overrides, parts).value)
  {
    FixedColorWellFormed(parts[0]);
  }

  /** A cluster colour, an override or a default, is well-formed. */
  lemma ClusterColorWellFormed(overrides: map<string, string>, name: string)
    requires OverridesWellFormed(overrides)
    ensures ClusterColor(overrides, name).Some? ==> IsHexColor(ClusterColor(overrides, name).value)
  {
    FixedColorsWellFormed();
  }

  /** The interaction colours and the fallback are well-formed. */
  lemma FixedColorWellFormed(name: string)
    ensures IsHexColor(InteractionColor(name)) && IsHexColor(Fallback)
  {
    FixedColorsWellFormed();
  }

  lemma ThemeEntryWellFormed(mode: ColorMode, category: string, name: string)
    requires IsThemeEntry(category, name)
    ensures IsHexColor(Pick(Theme[category][name], mode))
  {
    ThemeWellFormed();
  }

  lemma ChartEntryWellFormed(mode: ColorMode, name: string)
    ensures name in ChartBar ==> IsHexColor(Pick(ChartBar[name], mode))
    ensures IsHexColor(Pick(ChartGrid, mode))
  {
    ChartWellFormed();
  }

  lemma PaletteEntryWellFormed(i: int)
    ensures PaletteAt(i).Some? ==> IsHexColor(PaletteAt(i).value)
  {
    PaletteWellFormed();
  }

  lemma NamedEntryWellFormed(name: string)
    ensures IsHexColor(ModeEntry(name)) && IsHexColor(ActivityEntry(name))
  {
    ModeColorsWellFormed();
    ActivityColorsWellFormed();
    assert "default" in ModeColors && "other" in ActivityColors;
  }

  /**
   * `getColorRGBA` throws exactly when `getColor` is undefined; otherwise,
   * with well-formed overrides, it gives three bytes and the alpha asked for.
   */
  lemma ResolveRgbaBytes(mode: ColorMode, overrides: map<string, string>, path: string, alpha: int)
    requires OverridesWellFormed(overrides)
    ensures ResolveRgba(mode, overrides, path, alpha).Some? <==> Resolve(mode, overrides, path).Some?
    ensures ResolveRgba(mode, overrides, path, alpha).Some? ==>
      var c := ResolveRgba(mode, overrides, path, alpha).value;
      IsByte(c.r) && IsByte(c.g) && IsByte(c.b) && c.a == alpha
  {
    var c := Resolve(mode, overrides, path);
    ResolvedColorsWellFormed(mode, overrides, Split(path, '.'));
    if c.Some? {
      HexColorChannels(c.value, alpha);
    }
  }

  // ---------------------------------------------------------------------
  // The manager

  class StyleManager {
    var currentMode: ColorMode
    var clusterColorOverrides: map<string, string>

    /** A new manager starts in dark mode with no overrides. */
    constructor()
      ensures currentMode == Dark && clusterColorOverrides == map[]
    {
      currentMode := Dark;
      clusterColorOverrides := map[];
    }

    function GetMode(): ColorMode
      reads this
    {
      currentMode
    }

    /** `setMode`: the mode changes and with it the theme and chart colours only. */
    method SetMode(mode: ColorMode)
      modifies this
      ensures currentMode == mode && clusterColorOverrides == old(clusterColorOverrides)
      ensures forall path :: Split(path, '.')[0] != "theme" && Split(path, '.')[0] != "chart" ==>
        GetColor(path) == old(GetColor(path))
    {
      if currentMode != mode {
        currentMode := mode;
      }
      forall path | Split(path, '.')[0] != "theme" && Split(path, '.')[0] != "chart"
        ensures GetColor(path) == old(GetColor(path))
      {
        ModeMattersOnlyForThemeAndChart(clusterColorOverrides, Split(path, '.'));
      }
    }

    function GetColor(path: string): Option<string>
      reads this
    {
      Resolve(currentMode, clusterColorOverrides, path)
    }

    function GetColorRgba(path: string, alpha: int): Option<Rgba>
      reads this
    {
      ResolveRgba(currentMode, clusterColorOverrides, path, alpha)
    }

    /** `getDimmedColorRGBA`: the colour with the dimmed alpha. */
    function GetDimmedColorRgba(path: string): Option<Rgba>
      reads this
    {
      GetColorRgba(path, DimmedAlpha)
    }

    /** `setClusterColors`: the overrides are replaced by a copy of `colors`, and win where non-empty. */
    method SetClusterColors(colors: map<string, string>)
      modifies this
      ensures clusterColorOverrides == colors && currentMode == old(currentMode)
      ensures forall name :: '.' !in name && name in colors && colors[name] != "" ==>
        GetColor("cluster." + name) == Some(colors[name])
    {
      clusterColorOverrides := colors;
      forall name | '.' !in name && name in colors && colors[name] != ""
        ensures GetColor("cluster." + name) == Some(colors[name])
      {
        ClusterPath(currentMode, colors, name);
      }
    }

    /** `resetClusterColors`: no overrides, so the cluster colours are the defaults again. */
    method ResetClusterColors()
      modifies this
      ensures clusterColorOverrides == map[] && currentMode == old(currentMode)
      ensures forall name :: '.' !in name && name in ClusterDefaults ==>
        GetColor("cluster." + name) == Some(ClusterDefaults[name])
    {
      clusterColorOverrides := map[];
      forall name | '.' !in name && name in ClusterDefaults
        ensures GetColor("cluster." + name) == Some(ClusterDefaults[name])
      {
        ClusterPath(currentMode, map[], name);
      }
    }

    /** `getCategoricalColor`: the palette entry at `index % 15`. */
    function GetCategoricalColor(index: int): Option<string> {
      PaletteAt(index)
    }

    /** `getCategoricalColorRGBA`: throws, here `None`, where the palette entry is undefined. */
    function GetCategoricalColorRgba(index: int, alpha: int): Option<Rgba> {
      var c := GetCategoricalColor(index);
      if c.None? then None else Some(HexToRgba(c.value, alpha))
    }
  }

  /** `getCategoricalColor(i)` and `getColor('categorical.' + i)` agree. */
  lemma CategoricalColorAgrees(sm: StyleManager, i: int)
    ensures sm.GetCategoricalColor(i) == sm.GetColor("categorical." + IntToString(i))
  {
    CategoricalPath(sm.currentMode, sm.clusterColorOverrides, i);
  }

  /**
   * `getDimmedColorRGBA` fails exactly where `getColor` is undefined;
   * otherwise it is the colour's `getColorRGBA` with alpha 77 in place of the
   * alpha asked for, and with well-formed overrides its channels are bytes.
   */
  lemma DimmedColor(sm: StyleManager, path: string, alpha: int)
    ensures sm.GetDimmedColorRgba(path).Some? <==> sm.GetColor(path).Some?
    ensures sm.GetDimmedColorRgba(path).Some? ==>
      sm.GetDimmedColorRgba(path).value == sm.GetColorRgba(path, alpha).value.(a := 77)
    ensures sm.GetDimmedColorRgba(path).Some? && OverridesWellFormed(sm.clusterColorOverrides) ==>
      var c := sm.GetDimmedColorRgba(path).value;
      IsByte(c.r) && IsByte(c.g) && IsByte(c.b) && c.a == 77
  {
    if OverridesWellFormed(sm.clusterColorOverrides) {
      ResolveRgbaBytes(sm.currentMode, sm.clusterColorOverrides, path, DimmedAlpha);
    }
  }
}
