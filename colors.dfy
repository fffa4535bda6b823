/**
 * Colours as three 8-bit channels, their canonical `#RRGGBB` form
 * (`colorToHex`), the preset and display-name tables and the brightness test
 * that picks black or white text.
 */
module Colors {
  import opened Wrappers
  import opened Strings

  type Channel = x: int | 0 <= x <= 255

  datatype Color = Color(r: Channel, g: Channel, b: Channel)

  function HexDigit(d: int): (c: char)
    requires 0 <= d < 16
    ensures IsHexDigit(c) && HexDigitValue(c) == d
  {
    if d < 10 then ('0' as int + d) as char else ('A' as int + d - 10) as char
  }

  /** An upper-case hexadecimal digit, the only kind `%02X` prints. */
  predicate IsHexDigit(c: char)
  {
    '0' <= c <= '9' || 'A' <= c <= 'F'
  }

  function HexDigitValue(c: char): int
    requires IsHexDigit(c)
  {
    if c <= '9' then c as int - '0' as int else c as int - 'A' as int + 10
  }

  /** `%02X` of one channel. */
  function HexByte(n: Channel): (s: string)
    ensures |s| == 2 && IsHexDigit(s[0]) && IsHexDigit(s[1])
  {
    [HexDigit(n / 16), HexDigit(n % 16)]
  }

  /** `colorToHex`: `#` and the three channels as two upper-case hex digits each. */
  function ColorToHex(c: Color): (h: string)
    ensures |h| == 7 && h[0] == '#'
    ensures forall i | 1 <= i < 7 :: IsHexDigit(h[i])
  {
    "#" + HexByte(c.r) + HexByte(c.g) + HexByte(c.b)
  }

  /** Reads back a canonical `#RRGGBB` text; the inverse of ColorToHex. */
  function HexToColor(h: string): (r: Option<Color>)
    ensures r.Some? ==> |h| == 7
  {
    if |h| == 7 && h[0] == '#' && forall i | 1 <= i < 7 :: IsHexDigit(h[i]) then
      Some(Color(HexDigitValue(h[1]) * 16 + HexDigitValue(h[2]),
                 HexDigitValue(h[3]) * 16 + HexDigitValue(h[4]),
                 HexDigitValue(h[5]) * 16 + HexDigitValue(h[6])))
    else None
  }

  lemma HexRoundTrip(c: Color)
    ensures HexToColor(ColorToHex(c)) == Some(c)
  {
    var h := ColorToHex(c);
    assert h[1..3] == HexByte(c.r) && h[3..5] == HexByte(c.g) && h[5..7] == HexByte(c.b);
  }

  /** Two colours share a hex text exactly when they are the same colour. */
  lemma HexInjective(c1: Color, c2: Color)
    ensures ColorToHex(c1) == ColorToHex(c2) <==> c1 == c2
  {
    HexRoundTrip(c1);
    HexRoundTrip(c2);
  }

  /**
   * `getBrightness() > 0.5`. The HSB brightness is the largest channel over
   * 255, and no channel value lies between 127.5 and 128.
   */
  predicate Bright(c: Color)
  {
    Max(c.r, Max(c.g, c.b)) >= 128
  }

  /** The contrasting text colour: black on bright colours, white otherwise. */
  function TextFill(c: Color): (s: string)
    ensures s == "black" <==> Bright(c)
    ensures s == "white" <==> !Bright(c)
  {
    if Bright(c) then "black" else "white"
  }

  // The JavaFX colour constants the code names.
  const Red: Color := Color(255, 0, 0)
  const Green: Color := Color(0, 128, 0)
  const Blue: Color := Color(0, 0, 255)
  const Yellow: Color := Color(255, 255, 0)
  const Orange: Color := Color(255, 165, 0)
  const Purple: Color := Color(128, 0, 128)
  const Pink: Color := Color(255, 192, 203)
  const Black: Color := Color(0, 0, 0)
  const White: Color := Color(255, 255, 255)
  const Gray: Color := Color(128, 128, 128)
  const DarkBlue: Color := Color(0, 0, 139)
  const LightBlue: Color := Color(173, 216, 230)

  /** `colorPresets`: key hex and the constant it is bound to. */
  const Presets: seq<(string, Color)> := [
    ("#FF0000", Red), ("#00FF00", Green), ("#0000FF", Blue), ("#FFFF00", Yellow),
    ("#FFA500", Orange), ("#800080", Purple), ("#FFC0CB", Pink), ("#000000", Black),
    ("#FFFFFF", White), ("#808080", Gray)]

  /** The table behind `getChineseColorName`. */
  const ChineseNames: map<string, string> := map[
    "#FF0000" := "红色", "#00FF00" := "绿色", "#0000FF" := "蓝色", "#FFFF00" := "黄色",
    "#FFA500" := "橙色", "#800080" := "紫色", "#FFC0CB" := "粉色", "#000000" := "黑色",
    "#FFFFFF" := "白色", "#808080" := "灰色"]

  /** `getChineseColorName(hex)`: the Chinese name of a preset hex, else the hex itself. */
  function ChineseColorName(hex: string): (name: string)
    ensures hex in ChineseNames ==> name == ChineseNames[hex]
    ensures hex !in ChineseNames ==> name == hex
  {
    if hex in ChineseNames then ChineseNames[hex] else hex
  }

  /** The first preset whose colour has the given hex, scanning from index i. */
  function PresetKeyFor(hex: string, i: nat): (r: Option<string>)
    requires i <= |Presets|
    ensures r.None? ==> forall k | i <= k < |Presets| :: ColorToHex(Presets[k].1) != hex
    decreases |Presets| - i
  {
    if i == |Presets| then None
    else if ColorToHex(Presets[i].1) == hex then Some(Presets[i].0)
    else PresetKeyFor(hex, i + 1)
  }

  /**
   * `getColorName`: the Chinese name of the preset whose colour has this hex,
   * otherwise the hex itself.
   */
  function ColorName(c: Color): (name: string)
    ensures PresetKeyFor(ColorToHex(c), 0).Some? ==> name == ChineseColorName(PresetKeyFor(ColorToHex(c), 0).value)
    ensures PresetKeyFor(ColorToHex(c), 0).None? ==> name == ColorToHex(c)
  {
    match PresetKeyFor(ColorToHex(c), 0)
    case Some(key) => ChineseColorName(key)
    case None => ColorToHex(c)
  }

  /** The hex texts of the JavaFX constants that appear in the preset table. */
  lemma PresetHexes()
    ensures ColorToHex(Red) == "#FF0000" && ColorToHex(Green) == "#008000"
    ensures ColorToHex(Blue) == "#0000FF" && ColorToHex(Yellow) == "#FFFF00"
    ensures ColorToHex(Orange) == "#FFA500" && ColorToHex(Purple) == "#800080"
    ensures ColorToHex(Pink) == "#FFC0CB" && ColorToHex(Black) == "#000000"
    ensures ColorToHex(White) == "#FFFFFF" && ColorToHex(Gray) == "#808080"
  {
    assert HexByte(0) == "00" && HexByte(128) == "80" && HexByte(255) == "FF";
    assert HexByte(165) == "A5" && HexByte(192) == "C0" && HexByte(203) == "CB";
  }

  /** The scan finds the first preset with the hex. */
  lemma {:induction false} PresetKeyForFirst(hex: string, i: nat, k: nat)
    requires i <= k < |Presets| && ColorToHex(Presets[k].1) == hex
    requires forall j | i <= j < k :: ColorToHex(Presets[j].1) != hex
    ensures PresetKeyFor(hex, i) == Some(Presets[k].0)
    decreases k - i
  {
    if i < k {
      PresetKeyForFirst(hex, i + 1, k);
      PresetKeyForSkips(hex, i);
    }
  }

  /** A preset with another hex is passed over. */
  lemma PresetKeyForSkips(hex: string, i: nat)
    requires i < |Presets| && ColorToHex(Presets[i].1) != hex
    ensures PresetKeyFor(hex, i) == PresetKeyFor(hex, i + 1)
  {
  }

  /** The scan finds nothing when no preset from i on has the hex. */
  lemma {:induction false} PresetKeyForNone(hex: string, i: nat)
    requires i <= |Presets|
    requires forall k | i <= k < |Presets| :: ColorToHex(Presets[k].1) != hex
    ensures PresetKeyFor(hex, i) == None
    decreases |Presets| - i
  {
    if i < |Presets| {
      PresetKeyForNone(hex, i + 1);
    }
  }

  /** The preset colours are pairwise different. */
  lemma PresetColorsDistinct(j: nat, k: nat)
    requires j < k < |Presets|
    ensures Presets[j].1 != Presets[k].1
  {
  }

  /** Pure green is none of the preset colours, so it is shown by its hex. */
  lemma PureGreenUnnamed()
    ensures ColorName(Color(0, 255, 0)) == ColorToHex(Color(0, 255, 0))
  {
    var g := Color(0, 255, 0);
    forall k | 0 <= k < |Presets| ensures ColorToHex(Presets[k].1) != ColorToHex(g) {
      HexInjective(Presets[k].1, g);
    }
    PresetKeyForNone(ColorToHex(g), 0);
  }

  /**
   * The green preset is keyed "#00FF00" but bound to JavaFX's GREEN, which is
   * #008000: pure green is shown by its hex, and #008000 is the one called 绿色.
   */
  lemma GreenPresetNaming()
    ensures ColorName(Color(0, 255, 0)) == "#00FF00"
    ensures ColorName(Green) == "绿色"
  {
    PureGreenUnnamed();
    PureGreenHex();
    GreenNamed();
  }

  lemma PureGreenHex()
    ensures ColorToHex(Color(0, 255, 0)) == "#00FF00"
  {
    assert HexByte(0) == "00" && HexByte(255) == "FF";
  }

  /** #008000 is found at the key "#00FF00", whose name is 绿色. */
  lemma GreenNamed()
    ensures ColorName(Green) == "绿色"
  {
    HexInjective(Red, Green);
    PresetKeyForFirst(ColorToHex(Green), 0, 1);
    assert PresetKeyFor(ColorToHex(Green), 0) == Some("#00FF00");
    assert ChineseColorName("#00FF00") == "绿色";
  }

  /** Every other preset is named after the hex it is keyed by. */
  lemma PresetNames(k: nat)
    requires k < |Presets| && k != 1
    ensures ColorToHex(Presets[k].1) == Presets[k].0
    ensures ColorName(Presets[k].1) == ChineseNames[Presets[k].0]
  {
    PresetHexes();
    assert k == 0 || k == 2 || k == 3 || k == 4 || k == 5 || k == 6 || k == 7 || k == 8 || k == 9;
    forall j | 0 <= j < k ensures ColorToHex(Presets[j].1) != ColorToHex(Presets[k].1) {
      PresetColorsDistinct(j, k);
      HexInjective(Presets[j].1, Presets[k].1);
    }
    PresetKeyForFirst(ColorToHex(Presets[k].1), 0, k);
  }
}
