/**
 * The JavaFX nodes the commands act on, and the styles the two colour
 * operations leave on them: `applyColorToComponent` on any node and
 * `applyColorToSampleComponents` on the sample button and the title label.
 */
module Widgets {
  import opened Wrappers
  import opened Strings
  import opened Colors
  import opened Styles

  /** The node classes the controller tells apart. A Shape stands for any node that is not a Region. */
  datatype WidgetKind = Button | Label | TextField | TextArea | ColorPicker | Pane | Shape

  /** `instanceof Region`: every control and layout pane. */
  predicate IsRegion(k: WidgetKind)
  {
    k != Shape
  }

  /** `instanceof Labeled`. */
  predicate IsLabeled(k: WidgetKind)
  {
    k == Button || k == Label
  }

  /** The kinds `changeText` can set the text of. */
  predicate HasText(k: WidgetKind)
  {
    k == Label || k == Button || k == TextField || k == TextArea
  }

  /** A JavaFX node: its class and `fx:id` are fixed, the rest is set by the commands. */
  class Widget {
    const kind: WidgetKind
    const id: Option<string>
    var visible: bool
    var managed: bool
    var style: string
    var text: string
    var pickerValue: Color

    /** A fresh node is visible and managed, without style or text; a picker starts at white. */
    constructor (kind: WidgetKind, id: Option<string>)
      ensures this.kind == kind && this.id == id
      ensures visible && managed && style == "" && text == "" && pickerValue == White
    {
      this.kind := kind;
      this.id := id;
      visible := true;
      managed := true;
      style := "";
      text := "";
      pickerValue := White;
    }

    /** `setStyle`: replaces the inline style. */
    method SetStyle(s: string)
      modifies this
      ensures style == s
      ensures visible == old(visible) && managed == old(managed) && text == old(text) && pickerValue == old(pickerValue)
    {
      style := s;
    }

    /** `setVisible`. */
    method SetVisible(b: bool)
      modifies this
      ensures visible == b
      ensures managed == old(managed) && style == old(style) && text == old(text) && pickerValue == old(pickerValue)
    {
      visible := b;
    }

    /** `setManaged`. */
    method SetManaged(b: bool)
      modifies this
      ensures managed == b
      ensures visible == old(visible) && style == old(style) && text == old(text) && pickerValue == old(pickerValue)
    {
      managed := b;
    }

    /** `setText` on a labelled node or a text input. */
    method SetText(t: string)
      modifies this
      ensures text == t
      ensures visible == old(visible) && managed == old(managed) && style == old(style) && pickerValue == old(pickerValue)
    {
      text := t;
    }

    /** `ColorPicker.setValue`. */
    method SetValue(c: Color)
      modifies this
      ensures pickerValue == c
      ensures visible == old(visible) && managed == old(managed) && style == old(style) && text == old(text)
    {
      pickerValue := c;
    }
  }

  /** Only the style changed. */
  twostate predicate OnlyStyleChanged(w: Widget)
    reads w
  {
    w.visible == old(w.visible) && w.managed == old(w.managed)
    && w.text == old(w.text) && w.pickerValue == old(w.pickerValue)
  }

  /** `getComponentName`: a button's or label's text, else the id, else a placeholder. */
  function ComponentName(w: Widget): (name: string)
    reads w
    ensures w.kind == Button ==> name == "按钮: " + w.text
    ensures w.kind == Label ==> name == "标签: " + w.text
    ensures w.kind != Button && w.kind != Label && w.id.Some? ==> name == w.id.value
    ensures w.kind != Button && w.kind != Label && w.id.None? ==> name == "未命名组件"
  {
    if w.kind == Button then "按钮: " + w.text
    else if w.kind == Label then "标签: " + w.text
    else match w.id
      case Some(i) => i
      case None => "未命名组件"
  }

  // ---------------------------------------------------------------------
  // applyColorToComponent

  /**
   * The style `applyColorToComponent` leaves: on a region the background is
   * replaced in front of what the regex clean keeps, and a labelled node gets
   * a contrasting text fill appended.
   */
  function AppliedStyle(kind: WidgetKind, c: Color, style: string): (r: string)
    ensures !IsRegion(kind) && !IsLabeled(kind) ==> r == style
    ensures IsRegion(kind) && !IsLabeled(kind) ==> r == RegionStyle(c, style)
    ensures IsLabeled(kind) && !IsRegion(kind) ==> r == LabeledStyle(c, style)
    ensures IsRegion(kind) && IsLabeled(kind) ==> r == LabeledStyle(c, RegionStyle(c, style))
  {
    var background := if IsRegion(kind) then RegionStyle(c, style) else style;
    if IsLabeled(kind) then LabeledStyle(c, background) else background
  }

  /** The region step: the new background in front of what the regex clean keeps. */
  function RegionStyle(c: Color, style: string): (r: string)
    ensures var bg := BackgroundStyle(ColorToHex(c));
      |r| > |bg| && r[..|bg|] == bg && r[|bg|] == ' ' && r[|bg| + 1..] == RegexCleaned(style)
  {
    BackgroundStyle(ColorToHex(c)) + " " + RegexCleaned(style)
  }

  /** The labelled step: a contrasting text fill appended. */
  function LabeledStyle(c: Color, style: string): (r: string)
    ensures |r| > |style| && r[..|style|] == style && r[|style|] == ' '
    ensures r[|style| + 1..] == TextFillStyle(TextFill(c))
  {
    style + " " + TextFillStyle(TextFill(c))
  }

  lemma HexHasNoSeparator(c: Color)
    ensures ';' !in ColorToHex(c)
  {
    var h := ColorToHex(c);
    forall i | 0 <= i < |h| ensures h[i] != ';' {
      if i > 0 {
        assert IsHexDigit(h[i]);
      }
    }
  }

  lemma HexIsValue(c: Color)
    ensures IsValue(ColorToHex(c))
  {
    HexHasNoSeparator(c);
    assert IsHexDigit(ColorToHex(c)[6]);
  }

  /**
   * Applying a second colour to a region removes the first one's background
   * declaration: the result is that of applying the second colour to what the
   * first application kept of the style (on labelled nodes, with its appended
   * text fill, which stays).
   */
  lemma ReapplyReplacesBackground(kind: WidgetKind, c1: Color, c2: Color, style: string)
    requires IsRegion(kind)
    ensures AppliedStyle(kind, c2, AppliedStyle(kind, c1, style)) ==
      AppliedStyle(kind, c2, if IsLabeled(kind) then RegexCleaned(style) + " " + TextFillStyle(TextFill(c1))
                             else RegexCleaned(style))
  {
    if IsLabeled(kind) {
      ReapplyLabeled(c1, c2, style);
    } else {
      ReapplyRegion(c1, c2, style);
    }
  }

  /** On a region that is not labelled, the second background replaces the first. */
  lemma ReapplyRegion(c1: Color, c2: Color, style: string)
    ensures RegionStyle(c2, RegionStyle(c1, style)) == RegionStyle(c2, RegexCleaned(style))
  {
    HexHasNoSeparator(c1);
    RewrittenBackgroundDropped(ColorToHex(c1), RegexCleaned(style));
  }

  /** On a labelled region the first text fill stays behind what was kept of the style. */
  lemma ReapplyLabeled(c1: Color, c2: Color, style: string)
    ensures LabeledStyle(c2, RegionStyle(c2, LabeledStyle(c1, RegionStyle(c1, style)))) ==
      LabeledStyle(c2, RegionStyle(c2, RegexCleaned(style) + " " + TextFillStyle(TextFill(c1))))
  {
    var first := LabeledStyle(c1, RegionStyle(c1, style));
    var kept := RegexCleaned(style) + " " + TextFillStyle(TextFill(c1));
    FirstFillKept(c1, style);
    assert RegionStyle(c2, first) == RegionStyle(c2, kept);
  }

  /** The regex clean of a labelled region's style drops the background and keeps the text fill. */
  lemma FirstFillKept(c: Color, style: string)
    ensures RegexCleaned(LabeledStyle(c, RegionStyle(c, style))) ==
      RegexCleaned(RegexCleaned(style) + " " + TextFillStyle(TextFill(c)))
  {
    var h := ColorToHex(c);
    HexHasNoSeparator(c);
    var front := BackgroundStyle(h) + " ";
    var kept := RegexCleaned(style);
    var fill := TextFillStyle(TextFill(c));
    assert LabeledStyle(c, RegionStyle(c, style)) == ((front + kept) + " ") + fill;
    ConcatAssoc(front, kept, " ");
    ConcatAssoc(front, kept + " ", fill);
    RewrittenBackgroundDropped(h, kept + " " + fill);
  }

  // ---------------------------------------------------------------------
  // applyColorToSampleComponents

  /** What `applyColorToSampleComponents` gives the sample button: the colour pair, then its cleaned style. */
  function SampleButtonStyle(c: Color, style: string): string
  {
    ColorStyle(ColorToHex(c), TextFill(c)) + CleanedStyle(style)
  }

  /** What it gives the title label: the old style with the colour appended as its text fill. */
  function TitleStyle(c: Color, style: string): string
  {
    style + TextFillStyle(ColorToHex(c))
  }

  /**
   * The sample button ends up with exactly one background and one text fill,
   * the new colour's, ahead of its other declarations in their old order.
   */
  lemma SampleButtonDeclarations(c: Color, style: string)
    ensures Declarations(Split(SampleButtonStyle(c, style), ';')) ==
      [BackgroundColorProperty + ": " + ColorToHex(c), TextFillProperty + ": " + TextFill(c)]
      + KeptDeclarations(Split(style, ';'))
  {
    HexIsValue(c);
    RecolouredDeclarations(ColorToHex(c), TextFill(c), style);
  }

  lemma ColorPairIsColored(hex: string, fill: string)
    ensures IsColorDeclaration(BackgroundColorProperty + ": " + hex)
    ensures IsColorDeclaration(TextFillProperty + ": " + fill)
  {
    assert (BackgroundColorProperty + ": " + hex)[..|BackgroundColorProperty|] == BackgroundColorProperty;
    assert (TextFillProperty + ": " + fill)[..|TextFillProperty|] == TextFillProperty;
  }

  lemma ColorPairRemoved(hex: string, fill: string)
    ensures WithoutColors([BackgroundColorProperty + ": " + hex, TextFillProperty + ": " + fill]) == []
  {
    var pair := [BackgroundColorProperty + ": " + hex, TextFillProperty + ": " + fill];
    ColorPairIsColored(hex, fill);
    assert pair == [pair[0]] + [pair[1]];
    WithoutColorsConcat([pair[0]], [pair[1]]);
  }

  lemma ColorPairDropped(hex: string, fill: string, kept: seq<string>)
    requires forall i | 0 <= i < |kept| :: !IsColorDeclaration(kept[i])
    ensures WithoutColors([BackgroundColorProperty + ": " + hex, TextFillProperty + ": " + fill] + kept) == kept
  {
    var pair := [BackgroundColorProperty + ": " + hex, TextFillProperty + ": " + fill];
    calc {
      WithoutColors(pair + kept);
      { WithoutColorsConcat(pair, kept); }
      WithoutColors(pair) + WithoutColors(kept);
      { ColorPairRemoved(hex, fill); WithoutColorsOfClean(kept); }
      [] + kept;
      kept;
    }
  }

  /** The sample button's own declarations survive a recolouring, and nothing else does. */
  lemma KeptOfRecoloured(c: Color, style: string)
    ensures KeptDeclarations(Split(SampleButtonStyle(c, style), ';')) == KeptDeclarations(Split(style, ';'))
  {
    SampleButtonDeclarations(c, style);
    var kept := KeptDeclarations(Split(style, ';'));
    assert forall i | 0 <= i < |kept| :: !IsColorDeclaration(kept[i]);
    ColorPairDropped(ColorToHex(c), TextFill(c), kept);
  }

  lemma CleanedStyleOfKept(style: string)
    ensures CleanedStyle(style) == Terminated(KeptDeclarations(Split(style, ';')))
  {
    if style == "" {
      assert Split(style, ';') == [""];
      assert Declarations([""]) == [];
    }
  }

  /** Recolouring the sample button twice leaves what recolouring it once with the second colour does. */
  lemma SampleButtonLastColorWins(c1: Color, c2: Color, style: string)
    ensures SampleButtonStyle(c2, SampleButtonStyle(c1, style)) == SampleButtonStyle(c2, style)
  {
    var first := SampleButtonStyle(c1, style);
    CleanedStyleOfKept(first);
    KeptOfRecoloured(c1, style);
    CleanedStyleOfKept(style);
    assert CleanedStyle(first) == CleanedStyle(style);
  }

  /**
   * The title label's declarations keep growing: after a recolouring an old
   * style ending in ';' has all its declarations and then the new text fill.
   */
  lemma TitleStyleDeclarations(c: Color, style: string)
    requires style == [] || style[|style| - 1] == ';'
    ensures Declarations(Split(TitleStyle(c, style), ';')) ==
      Declarations(Split(style, ';')) + [TextFillProperty + ": " + ColorToHex(c)]
  {
    HexIsValue(c);
    AppendedTextFill(style, ColorToHex(c));
  }
}
