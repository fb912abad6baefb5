/**
 * The colour tables of the interactive dashboard and the lookups over
 * them: transport-mode and activity colours with a fallback entry, a
 * fifteen-colour categorical palette picked by position or by a string
 * hash, and the colour map built for a column's distinct values.
 */
module DashboardColors {
  import opened Wrappers
  import opened JsText
  import opened JsValues
  import Sequences
  import opened HexColors

  const ModeColors: map<string, string> := map[
    "car" := "#e74c3c", "pt" := "#3498db", "bike" := "#2ecc71", "walk" := "#f39c12",
    "drt" := "#9b59b6", "ride" := "#1abc9c", "transit" := "#3498db", "auto" := "#e74c3c",
    "bicycle" := "#2ecc71", "pedestrian" := "#f39c12", "default" := "#95a5a6"]

  const ActivityColors: map<string, string> := map[
    "home" := "#4477ff", "work" := "#ff4477", "education" := "#44ff77",
    "shopping" := "#ff7744", "leisure" := "#aa44ff", "other" := "#777777"]

  const CategoricalColors: seq<string> := [
    "#3498db", "#e74c3c", "#2ecc71", "#f39c12", "#9b59b6", "#1abc9c", "#e67e22", "#34495e",
    "#16a085", "#c0392b", "#2980b9", "#8e44ad", "#27ae60", "#d35400", "#7f8c8d"]

  /** `name?.toLowerCase()?.trim()`. */
  function Normalize(name: string): string {
    Trim(ToLower(name))
  }

  /** `getModeColor`: the colour of the normalised mode name, or the default colour. */
  function GetModeColor(mode: string): string {
    var key := Normalize(mode);
    if key in ModeColors then ModeColors[key] else ModeColors["default"]
  }

  /** `getActivityColor`: the colour of the normalised activity name, or the 'other' colour. */
  function GetActivityColor(activity: string): string {
    var key := Normalize(activity);
    if key in ActivityColors then ActivityColors[key] else ActivityColors["other"]
  }

  /** `getModeColorRGB`: the mode colour as `[r, g, b, alpha]`. */
  function GetModeColorRgb(mode: string, alpha: int): Rgba {
    HexToRgba(GetModeColor(mode), alpha)
  }

  /**
   * The lookups ignore letter case, and always give a colour of their table,
   * a name outside the table giving the fallback entry.
   */
  lemma NamedColorLookup(name: string)
    ensures GetModeColor(ToLower(name)) == GetModeColor(name)
    ensures GetActivityColor(ToLower(name)) == GetActivityColor(name)
    ensures GetModeColor(name) in ModeColors.Values
    ensures GetActivityColor(name) in ActivityColors.Values
    ensures Normalize(name) !in ModeColors ==> GetModeColor(name) == ModeColors["default"]
    ensures Normalize(name) !in ActivityColors ==> GetActivityColor(name) == ActivityColors["other"]
  {
    ToLowerIdempotent(name);
    assert ModeColors["default"] in ModeColors.Values;
    assert ActivityColors["other"] in ActivityColors.Values;
  }

  /** Every colour of the mode table is a well-formed `#rrggbb`. */
  lemma ModeColorsWellFormed()
    ensures forall k :: k in ModeColors ==> IsHexColor(ModeColors[k])
  {
  }

  /** Every colour of the activity table is a well-formed `#rrggbb`. */
  lemma ActivityColorsWellFormed()
    ensures forall k :: k in ActivityColors ==> IsHexColor(ActivityColors[k])
  {
  }

  /** Every colour of the categorical palette is a well-formed `#rrggbb`. */
  lemma PaletteWellFormed()
    ensures forall i :: 0 <= i < |CategoricalColors| ==> IsHexColor(CategoricalColors[i])
  {
  }

  /** `getModeColorRGB` gives three bytes and the alpha asked for. */
  lemma ModeColorRgbBytes(mode: string, alpha: int)
    ensures IsByte(GetModeColorRgb(mode, alpha).r) && IsByte(GetModeColorRgb(mode, alpha).g)
    ensures IsByte(GetModeColorRgb(mode, alpha).b) && GetModeColorRgb(mode, alpha).a == alpha
  {
    ModeColorsWellFormed();
    NamedColorLookup(mode);
    HexColorChannels(GetModeColor(mode), alpha);
  }

  // ---------------------------------------------------------------------
  // getCategoryColor

  /** JavaScript's `ToInt32`: the integer taken modulo 2^32 into [-2^31, 2^31). */
  function ToInt32(x: int): (r: int)
    ensures -0x8000_0000 <= r < 0x8000_0000
  {
    var m := x % 0x1_0000_0000;
    if m >= 0x8000_0000 then m - 0x1_0000_0000 else m
  }

  /** One step of the hash: `code + ((acc << 5) - acc)`, where `<<` works on 32-bit integers. */
  function HashStep(acc: int, code: int): int {
    code + (ToInt32(ToInt32(acc) * 32) - acc)
  }

  /** The `reduce` over the characters of `s`, starting from 0. */
  function StringHash(s: string): int {
    if s == [] then 0 else HashStep(StringHash(s[..|s| - 1]), s[|s| - 1] as int)
  }

  /**
   * The hash grows by at most 2^31 plus a character code per character, so
   * for every string shorter than 2^21 characters it stays below 2^53, where
   * double arithmetic is exact and integer arithmetic is the same.
   */
  lemma {:induction false} StringHashBound(s: string)
    ensures -(|s| * 0x8011_0000) <= StringHash(s) <= |s| * 0x8011_0000
    decreases |s|
  {
    if s != [] {
      StringHashBound(s[..|s| - 1]);
      assert (|s| - 1) * 0x8011_0000 + 0x8011_0000 == |s| * 0x8011_0000;
    }
  }

  /** A mode name that has its own colour. */
  predicate KnownMode(key: string) {
    key in ModeColors && ModeColors[key] != ModeColors["default"]
  }

  /** An activity name that has its own colour. */
  predicate KnownActivity(key: string) {
    key in ActivityColors && ActivityColors[key] != ActivityColors["other"]
  }

  /** `CATEGORICAL_COLORS[i % 15]`: undefined when the remainder is negative. */
  function PaletteAt(i: int): (r: Option<string>)
    ensures r.Some? <==> Rem(i, 15) >= 0
  {
    var k := Rem(i, 15);
    if k < 0 then None else Some(CategoricalColors[k])
  }

  /**
   * `getCategoryColor`: a known mode's colour, else a known activity's,
   * else the palette entry at `index`, else the palette entry the hash of
   * the value picks. `None` is JavaScript's `undefined`.
   */
  function GetCategoryColor(value: Value, index: Option<int>): Option<string> {
    var key := ToLower(ToStr(value));
    if KnownMode(key) then Some(ModeColors[key])
    else if KnownActivity(key) then Some(ActivityColors[key])
    else if index.Some? then PaletteAt(index.value)
    else
      var h := StringHash(ToStr(value));
      Some(CategoricalColors[(if h < 0 then -h else h) % 15])
  }

  /** A defined colour always comes from one of the three tables. */
  lemma CategoryColorFromTables(value: Value, index: Option<int>)
    ensures GetCategoryColor(value, index).Some? ==>
      var c := GetCategoryColor(value, index).value;
      c in ModeColors.Values || c in ActivityColors.Values || c in CategoricalColors
  {
    var key := ToLower(ToStr(value));
    if KnownMode(key) {
      ModeCategoryColor(value, index);
    } else if KnownActivity(key) {
      ActivityCategoryColor(value, index);
    } else {
      PaletteCategoryColor(value, index);
    }
  }

  /** A known mode name takes a colour of the mode table. */
  lemma ModeCategoryColor(value: Value, index: Option<int>)
    requires KnownMode(ToLower(ToStr(value)))
    ensures GetCategoryColor(value, index).Some? && GetCategoryColor(value, index).value in ModeColors.Values
  {
    TableValue(ModeColors, ToLower(ToStr(value)));
  }

  /** A known activity name takes a colour of the activity table. */
  lemma ActivityCategoryColor(value: Value, index: Option<int>)
    requires !KnownMode(ToLower(ToStr(value))) && KnownActivity(ToLower(ToStr(value)))
    ensures GetCategoryColor(value, index).Some? && GetCategoryColor(value, index).value in ActivityColors.Values
  {
    TableValue(ActivityColors, ToLower(ToStr(value)));
  }

  /** Any other value takes a palette colour, when it takes one. */
  lemma PaletteCategoryColor(value: Value, index: Option<int>)
    requires !KnownMode(ToLower(ToStr(value))) && !KnownActivity(ToLower(ToStr(value)))
    ensures GetCategoryColor(value, index).Some? ==> GetCategoryColor(value, index).value in CategoricalColors
  {
  }

  /** A looked-up entry is one of the table's colours. */
  lemma TableValue(table: map<string, string>, key: string)
    requires key in table
    ensures table[key] in table.Values
  {
  }

  /** The colour is undefined exactly for an unknown name given a negative index not divisible by 15. */
  lemma CategoryColorUndefined(value: Value, index: Option<int>)
    ensures GetCategoryColor(value, index).None? <==>
      !KnownMode(ToLower(ToStr(value))) && !KnownActivity(ToLower(ToStr(value)))
      && index.Some? && Rem(index.value, 15) < 0
  {
  }

  /** A non-negative index always gives a colour. */
  lemma CategoryColorWithIndex(value: Value, i: nat)
    ensures GetCategoryColor(value, Some(i)).Some?
  {
    assert Rem(i, 15) >= 0;
  }

  /** Known names take their table colour whatever the index. */
  lemma CategoryColorIgnoresIndex(value: Value, i: Option<int>, j: Option<int>)
    requires KnownMode(ToLower(ToStr(value))) || KnownActivity(ToLower(ToStr(value)))
    ensures GetCategoryColor(value, i) == GetCategoryColor(value, j)
  {
  }

  /** Other names take the palette entry of a non-negative index, so indices 15 apart share a colour. */
  lemma CategoryColorByIndex(value: Value, i: int)
    requires !KnownMode(ToLower(ToStr(value))) && !KnownActivity(ToLower(ToStr(value)))
    requires i >= 0
    ensures GetCategoryColor(value, Some(i)) == Some(CategoricalColors[i % 15])
    ensures GetCategoryColor(value, Some(i + 15)) == GetCategoryColor(value, Some(i))
  {
  }

  /** A name of lower-case ASCII letters only, as every table key is. */
  predicate IsLowerWord(k: string) {
    k != [] && forall i :: 0 <= i < |k| ==> 'a' <= k[i] <= 'z'
  }

  /** A lower-case word is its own normal form. */
  lemma LowerWordNormal(k: string)
    requires IsLowerWord(k)
    ensures ToLower(k) == k && Normalize(k) == k
  {
    assert ToLower(k) == k;
    assert !IsWhiteSpace(k[0]) && !IsWhiteSpace(k[|k| - 1]);
    TrimNoOp(k);
  }

  /** The keys of the mode table are lower-case words. */
  lemma ModeKeysLower()
    ensures forall k :: k in ModeColors ==> IsLowerWord(k)
  {
  }

  /** On a known mode name the category colour is the mode colour, whatever the index. */
  lemma CategoryColorOfMode(mode: string, index: Option<int>)
    requires KnownMode(mode)
    ensures GetCategoryColor(Str(mode), index) == Some(GetModeColor(mode))
  {
    ModeKeysLower();
    LowerWordNormal(mode);
  }

  /** The fifteen palette colours differ from each other. */
  lemma PaletteDistinct()
    ensures Sequences.NoDuplicates(CategoricalColors)
  {
  }

  // ---------------------------------------------------------------------
  // buildColorMap

  /** `values.map(v => String(v))`. */
  function Strings(values: seq<Value>): (r: seq<string>)
    ensures |r| == |values| && forall i :: 0 <= i < |values| ==> r[i] == ToStr(values[i])
  {
    seq(|values|, i requires 0 <= i < |values| => ToStr(values[i]))
  }

  /** The colour `getCategoryColor` gives the key at position `i` of the map. */
  function ColorAt(key: string, i: nat): string {
    CategoryColorWithIndex(Str(key), i);
    GetCategoryColor(Str(key), Some(i)).value
  }

  /** `ColorAt` is the defined colour of `getCategoryColor`. */
  lemma ColorAtIsCategoryColor(key: string, i: nat)
    ensures GetCategoryColor(Str(key), Some(i)) == Some(ColorAt(key, i))
  {
    CategoryColorWithIndex(Str(key), i);
  }

  /** The map `buildColorMap` has built once it has set the first `n` keys, each to `color` of it and its position. */
  function ColorsUpTo(keys: seq<string>, color: (string, nat) -> string, n: nat): map<string, string>
    requires n <= |keys|
  {
    if n == 0 then map[] else ColorsUpTo(keys, color, n - 1)[keys[n - 1] := color(keys[n - 1], n - 1)]
  }

  /** Setting distinct keys one by one keeps each key's own colour and no other key. */
  lemma {:induction false} ColorsUpToEntries(keys: seq<string>, color: (string, nat) -> string, n: nat)
    requires n <= |keys| && Sequences.NoDuplicates(keys)
    ensures forall k :: k in ColorsUpTo(keys, color, n) <==> k in keys[..n]
    ensures forall j :: 0 <= j < n ==> ColorsUpTo(keys, color, n)[keys[j]] == color(keys[j], j)
  {
    if n > 0 {
      ColorsUpToEntries(keys, color, n - 1);
      assert keys[..n] == keys[..n - 1] + [keys[n - 1]];
    }
  }

  /**
   * `buildColorMap`: one entry per distinct `String(v)`, in first-occurrence
   * order (`keys`, the order the Map iterates in), each coloured by
   * `getCategoryColor` with its position.
   */
  method BuildColorMap(values: seq<Value>) returns (keys: seq<string>, colorMap: map<string, string>)
    ensures keys == Sequences.Distinct(Strings(values))
    ensures forall k :: k in colorMap <==> k in keys
    ensures forall i :: 0 <= i < |keys| ==> colorMap[keys[i]] == ColorAt(keys[i], i)
  {
    keys := Sequences.Distinct(Strings(values));
    colorMap := map[];
    var i := 0;
    while i < |keys|
      invariant i <= |keys|
      invariant colorMap == ColorsUpTo(keys, ColorAt, i)
    {
      colorMap := colorMap[keys[i] := ColorAt(keys[i], i)];
      i := i + 1;
    }
    ColorsUpToEntries(keys, ColorAt, |keys|);
    assert keys[..|keys|] == keys;
  }

  /**
   * Among the values without a table colour of their own, any fifteen
   * consecutive keys of the colour map get fifteen different colours.
   */
  lemma ColorMapSpreads(keys: seq<string>, i: nat, j: nat)
    requires i < j < |keys| && j - i < 15
    requires !KnownMode(ToLower(keys[i])) && !KnownActivity(ToLower(keys[i]))
    requires !KnownMode(ToLower(keys[j])) && !KnownActivity(ToLower(keys[j]))
    ensures GetCategoryColor(Str(keys[i]), Some(i)) != GetCategoryColor(Str(keys[j]), Some(j))
  {
    PaletteDistinct();
    if i / 15 == j / 15 {
      assert i % 15 < j % 15;
    } else {
      assert j % 15 < i % 15;
    }
  }
}
