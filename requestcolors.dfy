/**
 * The mode colours of the commuter-requests plugin: a small table looked
 * up by lower-cased mode name with a default entry, the same colour as an
 * `[r, g, b, a]` array, and the palette built for the modes of a dataset.
 */
module RequestColors {
  import opened JsText
  import opened HexColors
  import DashboardColors

  const ModeColors: map<string, string> := map[
    "car" := "#e74c3c", "pt" := "#3498db", "bike" := "#2ecc71", "walk" := "#f39c12",
    "drt" := "#9b59b6", "ride" := "#1abc9c", "default" := "#95a5a6"]

  /** `getModeColor` (and its alias `getModeColorHex`): the colour of the lower-cased name, or the default. */
  function GetModeColor(mode: string): string {
    var key := ToLower(mode);
    if key in ModeColors then ModeColors[key] else ModeColors["default"]
  }

  /** `getModeColorRGB`: the characters 1-2, 3-4 and 5-6 of the colour read as hex pairs. */
  function GetModeColorRgb(mode: string, alpha: int): Rgba {
    HexToRgbaFromOne(GetModeColor(mode), alpha)
  }

  lemma ModeColorsWellFormed()
    ensures forall k :: k in ModeColors ==> IsHexColor(ModeColors[k])
  {
  }

  /**
   * The lookup ignores letter case and always gives a table colour, the
   * default one for a name the table lacks.
   */
  lemma ModeColorLookup(mode: string)
    ensures GetModeColor(ToLower(mode)) == GetModeColor(mode)
    ensures GetModeColor(mode) in ModeColors.Values && IsHexColor(GetModeColor(mode))
    ensures ToLower(mode) !in ModeColors ==> GetModeColor(mode) == ModeColors["default"]
  {
    ToLowerIdempotent(mode);
    ModeColorsWellFormed();
    assert ModeColors["default"] in ModeColors.Values;
  }

  /**
   * `getModeColorRGB` gives the bytes the colour spells, the same as the
   * dashboard's `hexToRgba` reads from it, and the alpha asked for.
   */
  lemma ModeColorRgbBytes(mode: string, alpha: int)
    ensures GetModeColorRgb(mode, alpha) == HexToRgba(GetModeColor(mode), alpha)
    ensures IsByte(GetModeColorRgb(mode, alpha).r) && IsByte(GetModeColorRgb(mode, alpha).g)
    ensures IsByte(GetModeColorRgb(mode, alpha).b) && GetModeColorRgb(mode, alpha).a == alpha
  {
    ModeColorLookup(mode);
    HexColorChannels(GetModeColor(mode), alpha);
  }

  /** Every mode of this table has the colour the interactive dashboard's table gives it. */
  lemma AgreesWithDashboard()
    ensures forall k :: k in ModeColors ==> k in DashboardColors.ModeColors && DashboardColors.ModeColors[k] == ModeColors[k]
  {
  }

  /**
   * `generateModePalette`: one entry per mode of the list, each the mode's
   * colour; a mode listed twice is set twice to the same colour.
   */
  method GenerateModePalette(modes: seq<string>) returns (palette: map<string, string>)
    ensures palette.Keys == set m | m in modes
    ensures forall m :: m in palette ==> palette[m] == GetModeColor(m)
  {
    palette := map[];
    var i := 0;
    while i < |modes|
      invariant i <= |modes|
      invariant palette.Keys == set m | m in modes[..i]
      invariant forall m :: m in palette ==> palette[m] == GetModeColor(m)
    {
      assert modes[..i + 1] == modes[..i] + [modes[i]];
      palette := palette[modes[i] := GetModeColor(modes[i])];
      i := i + 1;
    }
    assert modes[..i] == modes;
  }

  /** Every colour of a generated palette is a well-formed colour of the table. */
  lemma PaletteColorsWellFormed(palette: map<string, string>)
    requires forall m :: m in palette ==> palette[m] == GetModeColor(m)
    ensures forall m :: m in palette ==> palette[m] in ModeColors.Values && IsHexColor(palette[m])
  {
    forall m | m in palette ensures palette[m] in ModeColors.Values && IsHexColor(palette[m]) {
      ModeColorLookup(m);
    }
  }
}
