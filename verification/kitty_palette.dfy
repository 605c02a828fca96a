/**
 * The two Kitty colour palettes and the choice between them.
 *
 * A palette is named after the background it suits: `LightBg` has dark text
 * for a bright image, `DarkBg` has light text for a dark one.  The choice is
 * forced by the POKEMON_TERMINAL_KITTY_TEXT_MODE variable ("light" text or
 * "dark" text) or else made from the image's brightness score.
 */
module KittyPalette {
  import opened PyText
  import opened KittyThresholds

  datatype Palette = LightBg | DarkBg

  /** The palette keys, in the order kitty receives them. */
  const PaletteKeys: seq<string> := [
    "foreground", "cursor", "selection_foreground", "selection_background",
    "color0", "color1", "color2", "color3", "color4", "color5", "color6", "color7",
    "color8", "color9", "color10", "color11", "color12", "color13", "color14", "color15"
  ]

  const LightBgValues: seq<string> := [
    "#111111", "#111111", "#111111", "#d6d6d6",
    "#111111", "#8f1d21", "#1f7a32", "#6b5800", "#004f95", "#6a2e8a", "#006c79", "#8f8f8f",
    "#4d4d4d", "#b33a3f", "#2f9951", "#8c7300", "#2a73ba", "#8d3ab5", "#008b9c", "#111111"
  ]

  const DarkBgValues: seq<string> := [
    "#f0f0f0", "#f0f0f0", "#111111", "#f0f0f0",
    "#1a1a1a", "#ff6b6b", "#8ce99a", "#ffd43b", "#74c0fc", "#d0bfff", "#66d9e8", "#dee2e6",
    "#6c757d", "#ff8787", "#b2f2bb", "#ffe066", "#a5d8ff", "#e5dbff", "#99e9f2", "#ffffff"
  ]

  /** The environment variable that forces the text colour. */
  const TextModeVar: string := "POKEMON_TERMINAL_KITTY_TEXT_MODE"

  /** Scores at or above this are bright images that get dark text. */
  const BrightThreshold: real := 0.65

  /** A kitty colour value: '#' followed by six lower-case hex digits. */
  predicate IsHexColor(v: string) {
    |v| == 7 && v[0] == '#' && forall j :: 1 <= j < 7 ==> IsLowerHexDigit(v[j])
  }

  /** The 0..255 intensity of channel c (0 red, 1 green, 2 blue) of a colour value. */
  function Channel(v: string, c: nat): nat
    requires IsHexColor(v) && c < 3
  {
    HexDigitValue(v[1 + 2 * c]) * 16 + HexDigitValue(v[2 + 2 * c])
  }

  /** The palette as an ordered key/value list, as the source's dictionaries iterate. */
  function Colors(p: Palette): (r: seq<(string, string)>)
    ensures |r| == |PaletteKeys|
    ensures forall i :: 0 <= i < |r| ==> r[i].0 == PaletteKeys[i] && IsHexColor(r[i].1)
  {
    var values := if p == LightBg then LightBgValues else DarkBgValues;
    ValuesAreColors(values);
    seq(|PaletteKeys|, i requires 0 <= i < |PaletteKeys| => (PaletteKeys[i], values[i]))
  }

  /** The value a palette gives to a key, if it has it. */
  function Value(p: Palette, key: string): (r: Option<string>)
    ensures r.Some? <==> key in PaletteKeys
    ensures r.Some? ==> IsHexColor(r.value)
  {
    var c := Colors(p);
    var i := IndexOfKey(c, key, 0);
    if i < |c| then Some(c[i].1) else None
  }

  function IndexOfKey(c: seq<(string, string)>, key: string, from: nat): (i: nat)
    requires from <= |c|
    ensures from <= i <= |c|
    ensures i < |c| ==> c[i].0 == key
    ensures forall j :: from <= j < i ==> c[j].0 != key
    decreases |c| - from
  {
    if from == |c| then from
    else if c[from].0 == key then from
    else IndexOfKey(c, key, from + 1)
  }

  /** The arguments of `kitty @ set-colors`: one `key=value` per palette entry, in order. */
  function ColorArgs(p: Palette): (r: seq<string>)
    ensures |r| == |PaletteKeys|
  {
    var c := Colors(p);
    seq(|c|, i requires 0 <= i < |c| => c[i].0 + "=" + c[i].1)
  }

  /** How kitty reads one `key=value` argument: split at the first '='. */
  function ParseColorArg(arg: string): Option<(string, string)> {
    var i := IndexOrEnd(arg, '=', 0);
    if i < |arg| then Some((arg[..i], arg[i + 1..])) else None
  }

  /** `_palette_for_threshold`: a bright image (score >= 0.65) gets the light-background palette. */
  function PaletteForThreshold(t: real): (p: Palette)
    ensures p == LightBg <==> t >= BrightThreshold
  {
    if t >= BrightThreshold then LightBg else DarkBg
  }

  /** `_palette_for_path`: the text mode variable (lower-cased, default "auto") overrides the score. */
  function PaletteForPath(env: map<string, string>, table: Thresholds, path: string): (p: Palette)
    ensures var mode := Lower(if TextModeVar in env then env[TextModeVar] else "auto");
      (mode == "light" ==> p == DarkBg) && (mode == "dark" ==> p == LightBg)
  {
    var mode := Lower(if TextModeVar in env then env[TextModeVar] else "auto");
    if mode == "light" then DarkBg
    else if mode == "dark" then LightBg
    else PaletteForThreshold(InferDarkThreshold(table, path))
  }

  // ---------------------------------------------------------------------
  // Properties of the palettes

  lemma ValuesAreColors(values: seq<string>)
    requires values == LightBgValues || values == DarkBgValues
    ensures |values| == |PaletteKeys|
    ensures forall i :: 0 <= i < |values| ==> IsHexColor(values[i])
  {
    if values == LightBgValues {
      LightBgValuesAreColors();
    } else {
      DarkBgValuesAreColors();
    }
  }

  lemma LightBgValuesAreColors()
    ensures |LightBgValues| == |PaletteKeys|
    ensures forall i :: 0 <= i < |LightBgValues| ==> IsHexColor(LightBgValues[i])
  {
  }

  lemma DarkBgValuesAreColors()
    ensures |DarkBgValues| == |PaletteKeys|
    ensures forall i :: 0 <= i < |DarkBgValues| ==> IsHexColor(DarkBgValues[i])
  {
  }

  /** No key contains '=', so every `key=value` argument splits back into its key and value. */
  lemma {:induction false} ColorArgsRoundTrip(p: Palette)
    ensures forall i :: 0 <= i < |PaletteKeys| ==> ParseColorArg(ColorArgs(p)[i]) == Some(Colors(p)[i])
  {
    forall i | 0 <= i < |PaletteKeys|
      ensures ParseColorArg(ColorArgs(p)[i]) == Some(Colors(p)[i])
    {
      var (key, value) := Colors(p)[i];
      KeyHasNoEquals(i);
      ColorArgSplit(key, value);
    }
  }

  lemma KeyHasNoEquals(i: nat)
    requires i < |PaletteKeys|
    ensures forall j :: 0 <= j < |PaletteKeys[i]| ==> PaletteKeys[i][j] != '='
  {
  }

  lemma ColorArgSplit(key: string, value: string)
    requires forall j :: 0 <= j < |key| ==> key[j] != '='
    ensures ParseColorArg(key + "=" + value) == Some((key, value))
  {
    var arg := key + "=" + value;
    assert arg[|key|] == '=';
    assert IndexOrEnd(arg, '=', 0) == |key|;
    assert arg[..|key|] == key;
    assert arg[|key| + 1..] == value;
  }

  /** The palettes assign each key once: the keys are pairwise distinct. */
  lemma KeysDistinct()
    ensures forall i, j :: 0 <= i < j < |PaletteKeys| ==> PaletteKeys[i] != PaletteKeys[j]
  {
  }

  /** Dark text on a bright image, light text on a dark one: every channel of the foreground says so. */
  lemma TextContrastsBackground()
    ensures Value(LightBg, "foreground").Some? && Value(DarkBg, "foreground").Some?
    ensures forall c :: 0 <= c < 3 ==> Channel(Value(LightBg, "foreground").value, c) < 128
    ensures forall c :: 0 <= c < 3 ==> Channel(Value(DarkBg, "foreground").value, c) >= 128
  {
    assert Colors(LightBg)[0] == ("foreground", "#111111");
    assert Colors(DarkBg)[0] == ("foreground", "#f0f0f0");
  }

  /** The choice is monotone: a brighter image never gets a lighter text than a dimmer one. */
  lemma PaletteMonotone(t1: real, t2: real)
    requires t1 <= t2
    ensures PaletteForThreshold(t1) == LightBg ==> PaletteForThreshold(t2) == LightBg
  {
  }

  /** An image the table does not know scores 0.5 and so gets light text. */
  lemma NeutralGetsLightText()
    ensures PaletteForThreshold(NeutralThreshold) == DarkBg
  {
  }

  /** Without an override (unset, "auto", or any other value), the palette follows the image's score. */
  lemma AutoModeFollowsScore(env: map<string, string>, table: Thresholds, path: string)
    requires var mode := Lower(if TextModeVar in env then env[TextModeVar] else "auto");
      mode != "light" && mode != "dark"
    ensures PaletteForPath(env, table, path) == PaletteForThreshold(InferDarkThreshold(table, path))
  {
  }

  /** The override is case-insensitive: "LIGHT" and "light" force the same palette for every image. */
  lemma OverrideIgnoresCase(env: map<string, string>, table: Thresholds, path1: string, path2: string)
    requires TextModeVar in env && Lower(env[TextModeVar]) in {"light", "dark"}
    ensures PaletteForPath(env, table, path1) == PaletteForPath(env, table, path2)
    ensures PaletteForPath(env, table, path1) == PaletteForPath(env[TextModeVar := Lower(env[TextModeVar])], table, path2)
  {
    LowerIdempotent(env[TextModeVar]);
  }

  /** An unset variable behaves exactly like "auto". */
  lemma UnsetIsAuto(env: map<string, string>, table: Thresholds, path: string)
    requires TextModeVar !in env
    ensures PaletteForPath(env, table, path) == PaletteForPath(env[TextModeVar := "auto"], table, path)
  {
  }
}
