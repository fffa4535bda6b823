/**
 * The JavaFX inline-style strings the controller reads and writes. A style is
 * a text of `property: value` declarations separated by `;`.
 *
 * `removeColorProperties` splits on `;`, trims each piece and keeps the
 * non-empty pieces that are not colour declarations, each followed by "; ".
 * `applyColorToComponent` uses a different clean instead, a regular-expression
 * replacement that removes only `-fx-background-color` declarations.
 */
module Styles {
  import opened Strings

  const BackgroundColorProperty: string := "-fx-background-color"
  const TextFillProperty: string := "-fx-text-fill"
  const BorderColorProperty: string := "-fx-border-color"

  /** A declaration `removeColorProperties` drops. */
  predicate IsColorDeclaration(d: string)
  {
    StartsWith(d, BackgroundColorProperty) || StartsWith(d, TextFillProperty)
      || StartsWith(d, BorderColorProperty)
  }

  /** A non-empty text with nothing to trim at either end. */
  predicate IsTrimmedPiece(d: string)
  {
    d != [] && !IsTrimmable(d[0]) && !IsTrimmable(d[|d| - 1])
  }

  /** A trimmed piece of a style: non-empty, nothing to trim, no separator. */
  predicate IsDeclaration(d: string)
  {
    IsTrimmedPiece(d) && ';' !in d
  }

  /** The trimmed, non-empty pieces, in order. */
  function Declarations(pieces: seq<string>): (ds: seq<string>)
    ensures |ds| <= |pieces|
    ensures forall i | 0 <= i < |ds| :: IsTrimmedPiece(ds[i])
  {
    if pieces == [] then []
    else (if Trim(pieces[0]) != [] then [Trim(pieces[0])] else []) + Declarations(pieces[1..])
  }

  /** The declarations that are not colour declarations, in order. */
  function WithoutColors(ds: seq<string>): (r: seq<string>)
    ensures |r| <= |ds|
    ensures forall i | 0 <= i < |r| :: !IsColorDeclaration(r[i])
  {
    if ds == [] then []
    else (if IsColorDeclaration(ds[0]) then [] else [ds[0]]) + WithoutColors(ds[1..])
  }

  /** The pieces `removeColorProperties` keeps. */
  function KeptDeclarations(pieces: seq<string>): seq<string>
  {
    WithoutColors(Declarations(pieces))
  }

  /** Each declaration followed by "; ". */
  function Terminated(ds: seq<string>): (r: string)
    ensures r == [] <==> ds == []
    ensures ds != [] ==> |r| >= 2 && r[|r| - 2..] == "; "
  {
    if ds == [] then "" else ds[0] + "; " + Terminated(ds[1..])
  }

  /** What `removeColorProperties(style)` returns. */
  function CleanedStyle(style: string): (r: string)
    ensures style == [] ==> r == []
    ensures r == [] || (|r| >= 2 && r[|r| - 2..] == "; ")
  {
    if style == [] then "" else Terminated(KeptDeclarations(Split(style, ';')))
  }

  /**
   * `removeColorProperties`: the StringBuilder loop over the pieces of the
   * style, proved to build exactly CleanedStyle.
   */
  method RemoveColorProperties(style: string) returns (cleaned: string)
    ensures cleaned == CleanedStyle(style)
  {
    if style == [] {
      return "";
    }
    var lines := Split(style, ';');
    cleaned := "";
    var i := 0;
    while i < |lines|
      invariant 0 <= i <= |lines|
      invariant cleaned == Terminated(KeptDeclarations(lines[..i]))
    {
      var trimmed := Trim(lines[i]);
      CleanedStep(lines, i);
      if trimmed != [] && !IsColorDeclaration(trimmed) {
        cleaned := cleaned + trimmed + "; ";
      }
      i := i + 1;
    }
    assert lines[..|lines|] == lines;
  }

  /** One more piece adds its declaration, if kept, to the text built so far. */
  lemma CleanedStep(pieces: seq<string>, i: nat)
    requires i < |pieces|
    ensures var before := Terminated(KeptDeclarations(pieces[..i]));
      Terminated(KeptDeclarations(pieces[..i + 1])) ==
        if Trim(pieces[i]) != [] && !IsColorDeclaration(Trim(pieces[i])) then before + Trim(pieces[i]) + "; "
        else before
  {
    var before := Terminated(KeptDeclarations(pieces[..i]));
    PrefixStep(pieces, i);
    KeptDeclarationsAppend(pieces[..i], pieces[i]);
    TerminatedConcat(KeptDeclarations(pieces[..i]), KeptDeclarations([pieces[i]]));
    TerminatedSingle(Trim(pieces[i]));
    ConcatAssoc(before, Trim(pieces[i]), "; ");
    ConcatEmpty(before);
  }

  lemma ConcatAssoc(a: string, b: string, c: string)
    ensures a + (b + c) == a + b + c
  {
  }

  lemma ConcatEmpty(a: string)
    ensures a + "" == a
  {
  }

  lemma PrefixStep(pieces: seq<string>, i: nat)
    requires i < |pieces|
    ensures KeptDeclarations(pieces[..i + 1]) == KeptDeclarations(pieces[..i] + [pieces[i]])
  {
    assert pieces[..i + 1] == pieces[..i] + [pieces[i]];
  }

  lemma TerminatedSingle(d: string)
    ensures Terminated([d]) == d + "; "
  {
    assert [d][1..] == [];
  }

  lemma {:induction false} DeclarationsConcat(a: seq<string>, b: seq<string>)
    ensures Declarations(a + b) == Declarations(a) + Declarations(b)
  {
    if a != [] {
      var rest := a[1..];
      assert (a + b)[0] == a[0] && (a + b)[1..] == rest + b;
      DeclarationsConcat(rest, b);
      var h := if Trim(a[0]) != [] then [Trim(a[0])] else [];
      calc {
        Declarations(a + b);
        h + Declarations(rest + b);
        h + (Declarations(rest) + Declarations(b));
        { ListAssoc(h, Declarations(rest), Declarations(b)); }
        (h + Declarations(rest)) + Declarations(b);
        Declarations(a) + Declarations(b);
      }
    } else {
      assert a + b == b;
    }
  }

  lemma ListAssoc(x: seq<string>, y: seq<string>, z: seq<string>)
    ensures x + (y + z) == (x + y) + z
  {
  }

  lemma {:induction false} WithoutColorsConcat(a: seq<string>, b: seq<string>)
    ensures WithoutColors(a + b) == WithoutColors(a) + WithoutColors(b)
  {
    if a != [] {
      var rest := a[1..];
      assert (a + b)[0] == a[0] && (a + b)[1..] == rest + b;
      WithoutColorsConcat(rest, b);
      var h := if IsColorDeclaration(a[0]) then [] else [a[0]];
      calc {
        WithoutColors(a + b);
        h + WithoutColors(rest + b);
        h + (WithoutColors(rest) + WithoutColors(b));
        { ListAssoc(h, WithoutColors(rest), WithoutColors(b)); }
        (h + WithoutColors(rest)) + WithoutColors(b);
        WithoutColors(a) + WithoutColors(b);
      }
    } else {
      assert a + b == b;
    }
  }

  lemma {:induction false} TerminatedConcat(a: seq<string>, b: seq<string>)
    ensures Terminated(a + b) == Terminated(a) + Terminated(b)
  {
    if a != [] {
      assert (a + b)[1..] == a[1..] + b;
      TerminatedConcat(a[1..], b);
    } else {
      assert a + b == b;
    }
  }

  lemma KeptDeclarationsAppend(pieces: seq<string>, piece: string)
    ensures KeptDeclarations(pieces + [piece]) == KeptDeclarations(pieces) + KeptDeclarations([piece])
    ensures KeptDeclarations([piece]) ==
      if Trim(piece) != [] && !IsColorDeclaration(Trim(piece)) then [Trim(piece)] else []
  {
    DeclarationsConcat(pieces, [piece]);
    WithoutColorsConcat(Declarations(pieces), Declarations([piece]));
  }

  /** Each piece, trimmed. */
  function TrimmedPieces(pieces: seq<string>): (ts: seq<string>)
    ensures |ts| == |pieces|
    ensures forall i | 0 <= i < |pieces| :: ts[i] == Trim(pieces[i])
  {
    if pieces == [] then [] else [Trim(pieces[0])] + TrimmedPieces(pieces[1..])
  }

  /** A declaration is kept exactly when some piece trims to it and it is not a colour declaration. */
  lemma {:induction false} KeptDeclarationsMembers(pieces: seq<string>, d: string)
    ensures d in KeptDeclarations(pieces) <==>
      d != [] && !IsColorDeclaration(d) && d in TrimmedPieces(pieces)
  {
    if pieces != [] {
      var rest := pieces[1..];
      KeptDeclarationsMembers(rest, d);
      KeptDeclarationsSplit(pieces);
      KeptDeclarationsAppend([], pieces[0]);
      assert TrimmedPieces(pieces) == [Trim(pieces[0])] + TrimmedPieces(rest);
    }
  }

  lemma KeptDeclarationsSplit(pieces: seq<string>)
    requires pieces != []
    ensures KeptDeclarations(pieces) == KeptDeclarations([pieces[0]]) + KeptDeclarations(pieces[1..])
  {
    assert [pieces[0]] + pieces[1..] == pieces;
    DeclarationsConcat([pieces[0]], pieces[1..]);
    WithoutColorsConcat(Declarations([pieces[0]]), Declarations(pieces[1..]));
  }

  /** Every element is a trimmed, non-empty text without a separator. */
  predicate AllDeclarations(ds: seq<string>)
  {
    forall i | 0 <= i < |ds| :: IsDeclaration(ds[i])
  }

  lemma AllDeclarationsConcat(a: seq<string>, b: seq<string>)
    requires AllDeclarations(a) && AllDeclarations(b)
    ensures AllDeclarations(a + b)
  {
  }

  /** The pieces of a split have no separator, so neither have their declarations. */
  lemma {:induction false} DeclarationsHaveNoSeparator(pieces: seq<string>)
    requires forall i | 0 <= i < |pieces| :: ';' !in pieces[i]
    ensures AllDeclarations(Declarations(pieces))
  {
    if pieces != [] {
      var rest := pieces[1..];
      TailHasNoSeparator(pieces, rest);
      DeclarationsHaveNoSeparator(rest);
      DeclarationsHead(pieces, rest);
      SinglePieceDeclarations(pieces[0]);
      AllDeclarationsConcat(Declarations([pieces[0]]), Declarations(rest));
    }
  }

  lemma TailHasNoSeparator(pieces: seq<string>, rest: seq<string>)
    requires pieces != [] && rest == pieces[1..]
    requires forall i | 0 <= i < |pieces| :: ';' !in pieces[i]
    ensures forall i | 0 <= i < |rest| :: ';' !in rest[i]
  {
    forall i | 0 <= i < |rest| ensures ';' !in rest[i] {
      assert rest[i] == pieces[i + 1];
    }
  }

  lemma DeclarationsHead(pieces: seq<string>, rest: seq<string>)
    requires pieces != [] && rest == pieces[1..]
    ensures Declarations(pieces) == Declarations([pieces[0]]) + Declarations(rest)
  {
    assert [pieces[0]] + rest == pieces;
    DeclarationsConcat([pieces[0]], rest);
  }

  /** A piece without a separator yields at most one declaration. */
  lemma SinglePieceDeclarations(piece: string)
    requires ';' !in piece
    ensures AllDeclarations(Declarations([piece]))
  {
    DeclarationsSingle(piece);
    assert ';' !in Trim(piece);
  }

  /** Characters `trim` removes in front do not change the trim. */
  lemma {:induction false} TrimBlankPrefix(w: string, s: string)
    requires forall i | 0 <= i < |w| :: IsTrimmable(w[i])
    ensures Trim(w + s) == Trim(s)
  {
    if w != [] {
      assert (w + s)[1..] == w[1..] + s;
      TrimBlankPrefix(w[1..], s);
    } else {
      assert w + s == s;
    }
  }

  lemma TrimBlank(w: string)
    requires forall i | 0 <= i < |w| :: IsTrimmable(w[i])
    ensures Trim(w) == ""
  {
    TrimBlankPrefix(w, "");
    assert w + "" == w;
  }

  /**
   * Splitting a terminated list of declarations, behind blanks, gives back
   * the declarations.
   */
  lemma {:induction false} DeclarationsOfTerminated(w: string, ds: seq<string>)
    requires forall i | 0 <= i < |w| :: IsTrimmable(w[i])
    requires AllDeclarations(ds)
    ensures Declarations(Split(w + Terminated(ds), ';')) == ds
    decreases ds
  {
    if ds == [] {
      BlankDeclarations(w);
    } else {
      AllDeclarationsTail(ds);
      DeclarationsOfTerminated(" ", ds[1..]);
      TerminatedInduction(w, ds);
    }
  }

  /** The inductive step: the first declaration, then what the rest gives back. */
  lemma TerminatedInduction(w: string, ds: seq<string>)
    requires forall i | 0 <= i < |w| :: IsTrimmable(w[i])
    requires ds != [] && AllDeclarations(ds)
    requires Declarations(Split(" " + Terminated(ds[1..]), ';')) == ds[1..]
    ensures Declarations(Split(w + Terminated(ds), ';')) == ds
  {
    assert IsDeclaration(ds[0]);
    TerminatedStep(w, ds);
    ConsTail(ds);
  }

  lemma BlankDeclarations(w: string)
    requires forall i | 0 <= i < |w| :: IsTrimmable(w[i])
    ensures Declarations(Split(w + Terminated([]), ';')) == []
  {
    assert ';' !in w;
    ConcatEmpty(w);
    SplitWithout(w, ';');
    TrimBlank(w);
    DeclarationsSingle(w);
  }

  lemma ConsTail(ds: seq<string>)
    requires ds != []
    ensures [ds[0]] + ds[1..] == ds
  {
  }

  /** The first declaration comes off, and the rest follows behind one blank. */
  lemma TerminatedStep(w: string, ds: seq<string>)
    requires forall i | 0 <= i < |w| :: IsTrimmable(w[i])
    requires ds != [] && IsDeclaration(ds[0])
    ensures Declarations(Split(w + Terminated(ds), ';')) ==
      [ds[0]] + Declarations(Split(" " + Terminated(ds[1..]), ';'))
  {
    var d := ds[0];
    var rest := " " + Terminated(ds[1..]);
    TerminatedCons(w, ds);
    LeadingDeclaration(w, d, rest);
    DeclarationsConcat([w + d], Split(rest, ';'));
  }

  /** The first piece of a terminated list, behind blanks, trims to its declaration. */
  lemma LeadingDeclaration(w: string, d: string, rest: string)
    requires forall i | 0 <= i < |w| :: IsTrimmable(w[i])
    requires IsDeclaration(d)
    ensures Split((w + d) + [';'] + rest, ';') == [w + d] + Split(rest, ';')
    ensures Declarations([w + d]) == [d]
  {
    SplitAround(w + d, ';', rest);
    assert ';' !in w;
    assert ';' !in w + d;
    SplitWithout(w + d, ';');
    TrimBlankPrefix(w, d);
    TrimOfTrimmed(d);
    DeclarationsSingle(w + d);
  }

  lemma TerminatedCons(w: string, ds: seq<string>)
    requires ds != []
    ensures w + Terminated(ds) == (w + ds[0]) + [';'] + (" " + Terminated(ds[1..]))
  {
    var d := ds[0];
    var t := Terminated(ds[1..]);
    calc {
      w + Terminated(ds);
      w + (d + "; " + t);
      { ConcatAssoc(w, d + "; ", t); }
      (w + (d + "; ")) + t;
      { ConcatAssoc(w, d, "; "); }
      (w + d + "; ") + t;
      { assert "; " == [';'] + " "; ConcatAssoc(w + d, [';'], " "); }
      (w + d + [';'] + " ") + t;
      { ConcatAssoc(w + d + [';'], " ", t); }
      (w + d) + [';'] + (" " + t);
    }
  }

  lemma AllDeclarationsTail(ds: seq<string>)
    requires ds != [] && AllDeclarations(ds)
    ensures AllDeclarations(ds[1..])
  {
    forall i | 0 <= i < |ds| - 1 ensures IsDeclaration(ds[1..][i]) {
      assert ds[1..][i] == ds[i + 1];
    }
  }

  lemma DeclarationsSingle(piece: string)
    ensures Declarations([piece]) == if Trim(piece) != [] then [Trim(piece)] else []
  {
    assert [piece][1..] == [];
  }

  /** The declarations of a cleaned style are exactly the kept declarations of the original. */
  lemma DeclarationsOfCleaned(style: string)
    ensures Declarations(Split(CleanedStyle(style), ';')) == KeptDeclarations(Split(style, ';'))
  {
    var pieces := Split(style, ';');
    if style == [] {
      assert pieces == [""];
      DeclarationsSingle("");
      assert Declarations(Split(CleanedStyle(style), ';')) == [];
    } else {
      DeclarationsHaveNoSeparator(pieces);
      var kept := KeptDeclarations(pieces);
      WithoutColorsKeepsDeclarations(Declarations(pieces));
      EmptyPrefix(Terminated(kept));
      DeclarationsOfTerminated("", kept);
    }
  }

  lemma EmptyPrefix(a: string)
    ensures "" + a == a
  {
  }

  /** Cleaning a cleaned style changes nothing. */
  lemma CleanedStyleIdempotent(style: string)
    ensures CleanedStyle(CleanedStyle(style)) == CleanedStyle(style)
  {
    var c := CleanedStyle(style);
    if c != [] {
      DeclarationsOfCleaned(style);
      WithoutColorsOfClean(KeptDeclarations(Split(style, ';')));
    }
  }

  lemma {:induction false} WithoutColorsKeepsDeclarations(ds: seq<string>)
    requires AllDeclarations(ds)
    ensures AllDeclarations(WithoutColors(ds))
  {
    if ds != [] {
      var rest := ds[1..];
      assert AllDeclarations(rest) by {
        forall i | 0 <= i < |rest| ensures IsDeclaration(rest[i]) {
          assert rest[i] == ds[i + 1];
        }
      }
      WithoutColorsKeepsDeclarations(rest);
      assert [ds[0]] + rest == ds;
      WithoutColorsConcat([ds[0]], rest);
      AllDeclarationsConcat(WithoutColors([ds[0]]), WithoutColors(rest));
    }
  }

  lemma {:induction false} WithoutColorsOfClean(ds: seq<string>)
    requires forall i | 0 <= i < |ds| :: !IsColorDeclaration(ds[i])
    ensures WithoutColors(ds) == ds
  {
    if ds != [] {
      WithoutColorsOfClean(ds[1..]);
    }
  }

  /** The declarations `changeColor` and `applyColorToSampleComponents` write for a colour. */
  function ColorStyle(hex: string, textFill: string): string
  {
    BackgroundColorProperty + ": " + hex + "; " + TextFillProperty + ": " + textFill + ";"
  }

  /** The declaration `applyColorToComponent` writes for a colour. */
  function BackgroundStyle(hex: string): string
  {
    BackgroundColorProperty + ": " + hex + ";"
  }

  /** A text-fill declaration, as written to Labeled nodes and the title label. */
  function TextFillStyle(fill: string): string
  {
    TextFillProperty + ": " + fill + ";"
  }

  /** A value with no separator and nothing to trim at its end. */
  predicate IsValue(v: string)
  {
    v != [] && !IsTrimmable(v[|v| - 1]) && ';' !in v
  }

  /** A piece without the separator, then the separator, is split off whole. */
  lemma SplitAtSeparator(x: string, rest: string)
    requires ';' !in x
    ensures Split(x + [';'] + rest, ';') == [x] + Split(rest, ';')
  {
    SplitAround(x, ';', rest);
    SplitWithout(x, ';');
  }

  /** `property: value` is already trimmed. */
  lemma PropertyDeclaration(property: string, v: string)
    requires property != [] && !IsTrimmable(property[0]) && ';' !in property
    requires IsValue(v)
    ensures IsDeclaration(property + ": " + v)
    ensures Trim(property + ": " + v) == property + ": " + v
    ensures Trim(" " + (property + ": " + v)) == property + ": " + v
  {
    var d := property + ": " + v;
    assert d[0] == property[0] && d[|d| - 1] == v[|v| - 1];
    assert ';' !in d;
    TrimOfTrimmed(d);
    TrimLeadingBlank(d);
  }

  lemma ColorStyleShape(hex: string, textFill: string, c: string)
    ensures ColorStyle(hex, textFill) + c ==
      (BackgroundColorProperty + ": " + hex) + [';'] + ((" " + (TextFillProperty + ": " + textFill)) + [';'] + c)
  {
  }

  /**
   * The button style written by `applyColorToSampleComponents`: its
   * declarations are the new background and text fill, then the earlier
   * declarations other than colours, in order. No colour declaration of the
   * earlier style survives, so repeated colouring does not pile them up.
   */
  lemma RecolouredDeclarations(hex: string, textFill: string, prior: string)
    requires IsValue(hex) && IsValue(textFill)
    ensures Declarations(Split(ColorStyle(hex, textFill) + CleanedStyle(prior), ';')) ==
      [BackgroundColorProperty + ": " + hex, TextFillProperty + ": " + textFill] + KeptDeclarations(Split(prior, ';'))
  {
    var a := BackgroundColorProperty + ": " + hex;
    var t := TextFillProperty + ": " + textFill;
    var b := " " + t;
    var c := CleanedStyle(prior);
    var kept := KeptDeclarations(Split(prior, ';'));
    ColorStylePieces(hex, textFill, c);
    DeclarationsOfCleaned(prior);
    calc {
      Declarations(Split(ColorStyle(hex, textFill) + c, ';'));
      Declarations([a] + ([b] + Split(c, ';')));
      { DeclarationsConcat([a], [b] + Split(c, ';')); }
      Declarations([a]) + Declarations([b] + Split(c, ';'));
      { DeclarationsConcat([b], Split(c, ';')); }
      Declarations([a]) + (Declarations([b]) + kept);
      { ColorStyleDeclarations(hex, textFill); }
      [a] + ([t] + kept);
      { PairShape(a, t, kept); }
      [a, t] + kept;
    }
  }

  lemma PropertiesArePlain()
    ensures ';' !in BackgroundColorProperty && ';' !in TextFillProperty
    ensures !IsTrimmable(BackgroundColorProperty[0]) && !IsTrimmable(TextFillProperty[0])
  {
  }

  /** The two declarations of a colour style are split off whole. */
  lemma ColorStylePieces(hex: string, textFill: string, c: string)
    requires IsValue(hex) && IsValue(textFill)
    ensures Split(ColorStyle(hex, textFill) + c, ';') ==
      [BackgroundColorProperty + ": " + hex] + ([" " + (TextFillProperty + ": " + textFill)] + Split(c, ';'))
  {
    var a := BackgroundColorProperty + ": " + hex;
    var b := " " + (TextFillProperty + ": " + textFill);
    ColorStyleShape(hex, textFill, c);
    PropertiesArePlain();
    assert ';' !in a && ';' !in b;
    SplitAtSeparator(a, b + [';'] + c);
    SplitAtSeparator(b, c);
  }

  lemma ColorStyleDeclarations(hex: string, textFill: string)
    requires IsValue(hex) && IsValue(textFill)
    ensures Declarations([BackgroundColorProperty + ": " + hex]) == [BackgroundColorProperty + ": " + hex]
    ensures Declarations([" " + (TextFillProperty + ": " + textFill)]) == [TextFillProperty + ": " + textFill]
  {
    PropertiesArePlain();
    PropertyDeclaration(BackgroundColorProperty, hex);
    PropertyDeclaration(TextFillProperty, textFill);
    DeclarationsSingle(BackgroundColorProperty + ": " + hex);
    DeclarationsSingle(" " + (TextFillProperty + ": " + textFill));
  }

  lemma PairShape(a: string, b: string, rest: seq<string>)
    ensures [a] + ([b] + rest) == [a, b] + rest
  {
  }

  lemma TextFillShape(fill: string)
    ensures TextFillStyle(fill) == (TextFillProperty + ": " + fill) + [';'] + ""
  {
  }

  /** Splitting a text ending in `;` leaves one empty piece at the end. */
  lemma SplitTerminated(front: string, tail: string)
    ensures Split(front + [';'] + tail, ';') == Split(front, ';') + Split(tail, ';')
    ensures Declarations(Split(front + [';'] + tail, ';')) ==
      Declarations(Split(front, ';')) + Declarations(Split(tail, ';'))
  {
    SplitAround(front, ';', tail);
    DeclarationsConcat(Split(front, ';'), Split(tail, ';'));
  }

  /**
   * Appending a text-fill declaration to a style that is empty or ends with
   * `;` (as the title label's does) adds one more declaration after the
   * earlier ones; the earlier text fills stay.
   */
  lemma AppendedTextFill(prior: string, fill: string)
    requires prior == [] || prior[|prior| - 1] == ';'
    requires IsValue(fill)
    ensures Declarations(Split(prior + TextFillStyle(fill), ';')) ==
      Declarations(Split(prior, ';')) + [TextFillProperty + ": " + fill]
  {
    if prior == [] {
      AppendedToEmpty(fill);
    } else {
      AppendedToTerminated(prior, fill);
    }
  }

  lemma AppendedToEmpty(fill: string)
    requires IsValue(fill)
    ensures Declarations(Split("" + TextFillStyle(fill), ';')) ==
      Declarations(Split("", ';')) + [TextFillProperty + ": " + fill]
  {
    var d := TextFillProperty + ": " + fill;
    TextFillDeclarations(fill);
    EmptyPrefix(TextFillStyle(fill));
    NoDeclarationsInEmpty();
  }

  /** The empty style has no declarations. */
  lemma NoDeclarationsInEmpty()
    ensures Declarations(Split("", ';')) == []
  {
    assert Split("", ';') == [""];
    assert Trim("") == "";
    DeclarationsSingle("");
  }

  lemma AppendedToTerminated(prior: string, fill: string)
    requires prior != [] && prior[|prior| - 1] == ';'
    requires IsValue(fill)
    ensures Declarations(Split(prior + TextFillStyle(fill), ';')) ==
      Declarations(Split(prior, ';')) + [TextFillProperty + ": " + fill]
  {
    var tail := TextFillStyle(fill);
    TextFillDeclarations(fill);
    var front := prior[..|prior| - 1];
    PriorShape(prior, tail);
    SplitTerminated(front, "");
    SplitTerminated(front, tail);
    assert Split("", ';') == [""];
    DeclarationsSingle("");
    ConcatNil(Declarations(Split(front, ';')));
  }

  /** The text-fill style alone holds one declaration. */
  lemma TextFillDeclarations(fill: string)
    requires IsValue(fill)
    ensures Declarations(Split(TextFillStyle(fill), ';')) == [TextFillProperty + ": " + fill]
  {
    var d := TextFillProperty + ": " + fill;
    PropertiesArePlain();
    PropertyDeclaration(TextFillProperty, fill);
    TextFillShape(fill);
    SplitAtSeparator(d, "");
    DeclarationsSingle(d);
    DeclarationsSingle("");
    DeclarationsConcat([d], [""]);
    assert Split("", ';') == [""];
  }

  lemma ConcatNil(a: seq<string>)
    ensures a + [] == a
  {
  }

  lemma PriorShape(prior: string, tail: string)
    requires prior != [] && prior[|prior| - 1] == ';'
    ensures prior == prior[..|prior| - 1] + [';'] + ""
    ensures prior + tail == prior[..|prior| - 1] + [';'] + tail
  {
  }

  // The regular-expression clean of `applyColorToComponent`:
  // `replaceAll("-fx-background-color:[^;]*;?", "")`, then `replaceAll(";;", ";")`,
  // then `trim()`.

  const BackgroundColorKey: string := "-fx-background-color:"

  /** What is left after `[^;]*;?`: everything up to and including the next `;`. */
  function AfterValue(s: string): (r: string)
    ensures |r| <= |s|
    ensures r == s[|s| - |r|..]
    decreases |s|
  {
    if s == [] then []
    else if s[0] == ';' then s[1..]
    else AfterValue(s[1..])
  }

  /**
   * `replaceAll("-fx-background-color:[^;]*;?", "")`: scanning left to right,
   * each match (the key, the greedy value, an optional `;`) is removed and the
   * scan goes on after it.
   */
  function StripBackground(s: string): (r: string)
    ensures !Contains(s, BackgroundColorKey) ==> r == s
    decreases |s|
  {
    if StartsWith(s, BackgroundColorKey) then StripBackground(AfterValue(s[|BackgroundColorKey|..]))
    else if s == [] then []
    else [s[0]] + StripBackground(s[1..])
  }

  /** `applyColorToComponent`'s clean of the prior style. */
  function RegexCleaned(style: string): (r: string)
    ensures r == [] || (!IsTrimmable(r[0]) && !IsTrimmable(r[|r| - 1]))
  {
    Trim(ReplaceAll(StripBackground(style), ";;", ";"))
  }

  /** The background declaration is removed as a whole, value and `;` included. */
  lemma BackgroundDeclarationRemoved(value: string, rest: string)
    requires ';' !in value
    ensures StripBackground(BackgroundColorKey + (value + ";" + rest)) == StripBackground(rest)
  {
    var tail := value + ";" + rest;
    KeyInFront(tail);
    AfterValueSkips(value, rest);
  }

  lemma KeyInFront(tail: string)
    ensures StartsWith(BackgroundColorKey + tail, BackgroundColorKey)
    ensures (BackgroundColorKey + tail)[|BackgroundColorKey|..] == tail
  {
    assert (BackgroundColorKey + tail)[..|BackgroundColorKey|] == BackgroundColorKey;
  }

  lemma {:induction false} AfterValueSkips(value: string, rest: string)
    requires ';' !in value
    ensures AfterValue(value + ";" + rest) == rest
  {
    if value != [] {
      assert (value + ";" + rest)[1..] == value[1..] + ";" + rest;
      AfterValueSkips(value[1..], rest);
    }
  }

  /**
   * Cleaning a style this method wrote gives what cleaning the rest gives:
   * the background it set is dropped whole, so a new colour replaces the prior.
   */
  lemma RewrittenBackgroundDropped(hex: string, rest: string)
    requires ';' !in hex
    ensures RegexCleaned(BackgroundStyle(hex) + " " + rest) == RegexCleaned(rest)
  {
    BackgroundStyleShape(hex, rest);
    BackgroundDeclarationRemoved(" " + hex, " " + rest);
    var z := StripBackground(rest);
    StripLeadingBlank(rest);
    ReplaceLeadingBlank(z);
    TrimLeadingBlank(ReplaceAll(z, ";;", ";"));
  }

  lemma BackgroundStyleShape(hex: string, rest: string)
    ensures BackgroundStyle(hex) + " " + rest == BackgroundColorKey + ((" " + hex) + ";" + (" " + rest))
  {
  }

  lemma StripLeadingBlank(s: string)
    ensures StripBackground(" " + s) == " " + StripBackground(s)
  {
    assert !StartsWith(" " + s, BackgroundColorKey);
    assert (" " + s)[1..] == s;
  }

  lemma ReplaceLeadingBlank(s: string)
    ensures ReplaceAll(" " + s, ";;", ";") == " " + ReplaceAll(s, ";;", ";")
  {
    assert !StartsWith(" " + s, ";;");
    assert (" " + s)[1..] == s;
  }

  /** A style without a background declaration or a doubled `;` only loses its outer blanks. */
  lemma RegexCleanedPlain(style: string)
    requires !Contains(style, BackgroundColorKey) && !Contains(style, ";;")
    ensures RegexCleaned(style) == Trim(style)
  {
  }
}
