/**
 * The java.lang.String operations the controller and the client rely on, with
 * Java's semantics: `startsWith`, `contains`, `replace` (all occurrences,
 * leftmost first), `trim` (drops every character up to U+0020 at both ends),
 * `split` on one character, ASCII `toLowerCase`, decimal formatting with
 * `%d`, `Integer.parseInt` over the Unicode decimal digits, and cutting a text
 * to a number of UTF-16 units.
 */
module Strings {
  import opened Wrappers

  predicate StartsWith(s: string, p: string)
  {
    |p| <= |s| && s[..|p|] == p
  }

  /** `s.contains(p)`: p occurs at some position of s. */
  predicate Contains(s: string, p: string)
    decreases |s|
  {
    StartsWith(s, p) || (|s| > 0 && Contains(s[1..], p))
  }

  /** `s.replace(pat, rep)`: every occurrence, scanning left to right, without overlap. */
  function ReplaceAll(s: string, pat: string, rep: string): (r: string)
    requires |pat| > 0
    ensures !Contains(s, pat) ==> r == s
    decreases |s|
  {
    if StartsWith(s, pat) then rep + ReplaceAll(s[|pat|..], pat, rep)
    else if s == [] then []
    else [s[0]] + ReplaceAll(s[1..], pat, rep)
  }

  /** A character `trim` removes. */
  predicate IsTrimmable(c: char)
  {
    c <= ' '
  }

  function TrimStart(s: string): (r: string)
    ensures |r| <= |s| && r == s[|s| - |r|..]
    ensures r == [] || !IsTrimmable(r[0])
    ensures forall k | 0 <= k < |s| - |r| :: IsTrimmable(s[k])
    decreases |s|
  {
    if s != [] && IsTrimmable(s[0]) then TrimStart(s[1..]) else s
  }

  function TrimEnd(s: string): (r: string)
    ensures |r| <= |s| && r == s[..|r|]
    ensures r == [] || !IsTrimmable(r[|r| - 1])
    ensures forall k | |r| <= k < |s| :: IsTrimmable(s[k])
    decreases |s|
  {
    if s != [] && IsTrimmable(s[|s| - 1]) then TrimEnd(s[..|s| - 1]) else s
  }

  /** `s.trim()`. */
  function Trim(s: string): (r: string)
    ensures r == [] || (!IsTrimmable(r[0]) && !IsTrimmable(r[|r| - 1]))
    ensures forall c | c in r :: c in s
  {
    var t := TrimStart(s);
    var r := TrimEnd(t);
    assert forall c | c in r :: c in t;
    r
  }

  /** `trim` keeps one contiguous middle of the text and removes only blanks around it. */
  lemma {:induction false} TrimIsMiddle(s: string)
    ensures exists i, j | 0 <= i <= j <= |s| :: Trim(s) == s[i..j] && TrimmedAround(s, i, j)
  {
    var t := TrimStart(s);
    var r := TrimEnd(t);
    assert Trim(s) == r;
    var i := |s| - |t|;
    MiddleSlice(s, t, r, i);
    ExistsMiddle(s, Trim(s), i, i + |r|);
  }

  lemma ExistsMiddle(s: string, r: string, i: int, j: int)
    requires 0 <= i <= j <= |s| && r == s[i..j] && TrimmedAround(s, i, j)
    ensures exists i', j' | 0 <= i' <= j' <= |s| :: r == s[i'..j'] && TrimmedAround(s, i', j')
  {
  }

  /** The end of a suffix that `TrimEnd` removed is the end of the whole text. */
  lemma MiddleSlice(s: string, t: string, r: string, i: int)
    requires 0 <= i <= |s| && t == s[i..] && |r| <= |t| && r == t[..|r|]
    requires forall k | 0 <= k < i :: IsTrimmable(s[k])
    requires forall k | |r| <= k < |t| :: IsTrimmable(t[k])
    ensures r == s[i..i + |r|] && TrimmedAround(s, i, i + |r|)
  {
    forall k | i + |r| <= k < |s|
      ensures IsTrimmable(s[k])
    {
      assert s[k] == t[k - i];
    }
  }

  /** Only characters `trim` removes lie before i and from j on. */
  predicate TrimmedAround(s: string, i: int, j: int)
    requires 0 <= i <= j <= |s|
  {
    (forall k | 0 <= k < i :: IsTrimmable(s[k])) && (forall k | j <= k < |s| :: IsTrimmable(s[k]))
  }

  /** A string with nothing to trim is its own trim. */
  lemma TrimOfTrimmed(t: string)
    requires t == [] || (!IsTrimmable(t[0]) && !IsTrimmable(t[|t| - 1]))
    ensures Trim(t) == t
  {
  }

  lemma TrimIdempotent(s: string)
    ensures Trim(Trim(s)) == Trim(s)
  {
    TrimOfTrimmed(Trim(s));
  }

  /** A leading blank never changes the trim. */
  lemma TrimLeadingBlank(s: string)
    ensures Trim(" " + s) == Trim(s)
  {
    assert (" " + s)[1..] == s;
  }

  /**
   * `s.split(d)`, keeping every piece. Java drops trailing empty pieces; every
   * caller here discards empty (trimmed) pieces anyway.
   */
  function Split(s: string, d: char): (parts: seq<string>)
    ensures |parts| >= 1
    ensures forall i | 0 <= i < |parts| :: d !in parts[i]
    decreases |s|
  {
    if s == [] then [""]
    else
      var rest := Split(s[1..], d);
      if s[0] == d then [""] + rest
      else [[s[0]] + rest[0]] + rest[1..]
  }

  /** The pieces put back together with the separator between them. */
  function Join(parts: seq<string>, d: char): string
    requires |parts| >= 1
  {
    if |parts| == 1 then parts[0] else parts[0] + [d] + Join(parts[1..], d)
  }

  /** Splitting loses nothing: joining the pieces gives the string back. */
  lemma {:induction false} JoinSplit(s: string, d: char)
    ensures Join(Split(s, d), d) == s
    decreases |s|
  {
    if s != [] {
      JoinSplit(s[1..], d);
      var rest := Split(s[1..], d);
      if s[0] != d && |rest| > 1 {
        assert Join(rest, d) == rest[0] + [d] + Join(rest[1..], d);
        assert ([[s[0]] + rest[0]] + rest[1..])[1..] == rest[1..];
      } else if s[0] != d {
        assert ([[s[0]] + rest[0]] + rest[1..]) == [[s[0]] + rest[0]];
      } else {
        assert ([""] + rest)[1..] == rest;
      }
    }
  }

  /** A separator splits the string into the pieces of each side. */
  lemma {:induction false} SplitAround(x: string, d: char, y: string)
    ensures Split(x + [d] + y, d) == Split(x, d) + Split(y, d)
    decreases |x|
  {
    if x == [] {
      assert x + [d] + y == [d] + y;
      assert ([d] + y)[1..] == y;
    } else {
      SplitAround(x[1..], d, y);
      SplitAroundStep(x, d, y);
    }
  }

  /** The inductive step of SplitAround: the first character joins the first piece or starts a new one. */
  lemma SplitAroundStep(x: string, d: char, y: string)
    requires x != []
    requires Split(x[1..] + [d] + y, d) == Split(x[1..], d) + Split(y, d)
    ensures Split(x + [d] + y, d) == Split(x, d) + Split(y, d)
  {
    var s := x + [d] + y;
    assert s[0] == x[0] && s[1..] == x[1..] + [d] + y;
    if x[0] == d {
      SeparatorFirst(s, d);
      SeparatorFirst(x, d);
      PieceAssoc([""], Split(x[1..], d), Split(y, d));
    } else {
      CharacterFirst(s, d);
      CharacterFirst(x, d);
      JoinFirstPiece(x[0], Split(x[1..], d), Split(y, d));
    }
  }

  lemma SeparatorFirst(s: string, d: char)
    requires s != [] && s[0] == d
    ensures Split(s, d) == [""] + Split(s[1..], d)
  {
  }

  lemma CharacterFirst(s: string, d: char)
    requires s != [] && s[0] != d
    ensures Split(s, d) == [[s[0]] + Split(s[1..], d)[0]] + Split(s[1..], d)[1..]
  {
  }

  lemma JoinFirstPiece(c: char, front: seq<string>, back: seq<string>)
    requires |front| >= 1
    ensures var rest := front + back;
      [[c] + rest[0]] + rest[1..] == ([[c] + front[0]] + front[1..]) + back
  {
    var rest := front + back;
    assert rest[0] == front[0] && rest[1..] == front[1..] + back;
    PieceAssoc([[c] + front[0]], front[1..], back);
  }

  lemma PieceAssoc(a: seq<string>, b: seq<string>, c: seq<string>)
    ensures a + (b + c) == (a + b) + c
  {
  }

  /** A string without the separator is a single piece. */
  lemma {:induction false} SplitWithout(s: string, d: char)
    requires d !in s
    ensures Split(s, d) == [s]
    decreases |s|
  {
    if s != [] {
      assert d !in s[1..];
      SplitWithout(s[1..], d);
      assert [s[0]] + s[1..] == s;
    }
  }

  /** A leading non-separator joins the first piece. */
  lemma SplitCons(c: char, s: string, d: char)
    requires c != d
    ensures Split([c] + s, d) == [[c] + Split(s, d)[0]] + Split(s, d)[1..]
  {
    assert ([c] + s)[1..] == s;
  }

  function LowerChar(c: char): char
  {
    if 'A' <= c <= 'Z' then (c as int + 32) as char else c
  }

  /**
   * `toLowerCase()` as this model reads it: the ASCII capitals become small
   * letters and no other character changes. The Chinese text the commands
   * carry has no case, so it is the same either way.
   */
  function ToLower(s: string): (r: string)
    ensures |r| == |s|
    ensures forall i | 0 <= i < |s| :: r[i] == LowerChar(s[i])
  {
    seq(|s|, i requires 0 <= i < |s| => LowerChar(s[i]))
  }

  lemma ToLowerIdempotent(s: string)
    ensures ToLower(ToLower(s)) == ToLower(s)
  {
  }

  /** The ASCII digits `%d` prints. */
  predicate IsDigit(c: char)
  {
    '0' <= c <= '9'
  }

  predicate AllDigits(s: string)
  {
    forall i | 0 <= i < |s| :: IsDigit(s[i])
  }

  function DigitChar(d: int): (c: char)
    requires 0 <= d <= 9
    ensures IsDigit(c) && c as int - '0' as int == d
    ensures JavaDigit(c) == Some(d)
  {
    ('0' as int + d) as char
  }

  /** `%d` of a non-negative value. */
  function NatToDecimal(n: nat): (s: string)
    ensures |s| >= 1 && AllDigits(s) && AllJavaDigits(s)
  {
    if n < 10 then [DigitChar(n)] else NatToDecimal(n / 10) + [DigitChar(n % 10)]
  }

  /** `%d` / `String.valueOf(int)`. */
  function IntToDecimal(n: int): string
  {
    if n < 0 then "-" + NatToDecimal(-n) else NatToDecimal(n)
  }

  /** k is one of the ten code points from the digit zero z on. */
  predicate InBlock(k: int, z: int)
  {
    z <= k < z + 10
  }

  /**
   * The digit zero of the Unicode decimal-digit (Nd) block of the Basic
   * Multilingual Plane that holds code point k, from Unicode 7 on, or -1:
   * ASCII, Arabic-Indic, the Indic scripts, Thai, Lao, Tibetan, Myanmar,
   * Khmer, Mongolian, ..., and the full-width digits that Chinese input
   * methods type. Each block holds the digits 0..9 in order.
   */
  function DigitZero(k: int): (z: int)
    ensures z == -1 || (0x30 <= z && InBlock(k, z))
  {
    if InBlock(k, 0x0030) then 0x0030
    else if InBlock(k, 0x0660) then 0x0660
    else if InBlock(k, 0x06F0) then 0x06F0
    else if InBlock(k, 0x07C0) then 0x07C0
    else if InBlock(k, 0x0966) then 0x0966
    else if InBlock(k, 0x09E6) then 0x09E6
    else if InBlock(k, 0x0A66) then 0x0A66
    else if InBlock(k, 0x0AE6) then 0x0AE6
    else if InBlock(k, 0x0B66) then 0x0B66
    else if InBlock(k, 0x0BE6) then 0x0BE6
    else if InBlock(k, 0x0C66) then 0x0C66
    else if InBlock(k, 0x0CE6) then 0x0CE6
    else if InBlock(k, 0x0D66) then 0x0D66
    else if InBlock(k, 0x0DE6) then 0x0DE6
    else if InBlock(k, 0x0E50) then 0x0E50
    else if InBlock(k, 0x0ED0) then 0x0ED0
    else if InBlock(k, 0x0F20) then 0x0F20
    else if InBlock(k, 0x1040) then 0x1040
    else if InBlock(k, 0x1090) then 0x1090
    else if InBlock(k, 0x17E0) then 0x17E0
    else if InBlock(k, 0x1810) then 0x1810
    else if InBlock(k, 0x1946) then 0x1946
    else if InBlock(k, 0x19D0) then 0x19D0
    else if InBlock(k, 0x1A80) then 0x1A80
    else if InBlock(k, 0x1A90) then 0x1A90
    else if InBlock(k, 0x1B50) then 0x1B50
    else if InBlock(k, 0x1BB0) then 0x1BB0
    else if InBlock(k, 0x1C40) then 0x1C40
    else if InBlock(k, 0x1C50) then 0x1C50
    else if InBlock(k, 0xA620) then 0xA620
    else if InBlock(k, 0xA8D0) then 0xA8D0
    else if InBlock(k, 0xA900) then 0xA900
    else if InBlock(k, 0xA9D0) then 0xA9D0
    else if InBlock(k, 0xA9F0) then 0xA9F0
    else if InBlock(k, 0xAA50) then 0xAA50
    else if InBlock(k, 0xABF0) then 0xABF0
    else if InBlock(k, 0xFF10) then 0xFF10
    else -1
  }

  /**
   * `Character.digit(c, 10)` on a UTF-16 unit: the value of a decimal digit
   * of any of those blocks, None for every other character.
   */
  function JavaDigit(c: char): (r: Option<int>)
    ensures r.Some? ==> 0 <= r.value <= 9
    ensures r.Some? <==> DigitZero(c as int) != -1
  {
    var z := DigitZero(c as int);
    if z == -1 then None else Some(c as int - z)
  }

  /** An ASCII digit is a Java digit with its own value. */
  lemma AsciiDigit(c: char)
    requires IsDigit(c)
    ensures JavaDigit(c) == Some(c as int - '0' as int)
  {
  }

  /** A full-width digit is a Java digit with the value of its ASCII twin. */
  lemma FullWidthDigit(c: char)
    requires 0xFF10 <= c as int <= 0xFF19
    ensures JavaDigit(c) == Some(c as int - 0xFF10)
  {
  }

  predicate AllJavaDigits(s: string)
  {
    forall i | 0 <= i < |s| :: JavaDigit(s[i]).Some?
  }

  /** The value of a string of decimal digits, most significant first. */
  function DigitsValue(s: string): nat
    requires AllJavaDigits(s)
  {
    if s == [] then 0 else DigitsValue(s[..|s| - 1]) * 10 + JavaDigit(s[|s| - 1]).value
  }

  const Int32Min: int := -0x8000_0000
  const Int32Max: int := 0x7FFF_FFFF

  /**
   * `Integer.parseInt(s)`: an optional sign and at least one decimal digit of
   * any Unicode digit block, in the range of a Java int; None where Java throws
   * NumberFormatException.
   */
  function ParseJavaInt(s: string): (r: Option<int>)
    ensures r.Some? ==> Int32Min <= r.value <= Int32Max
    ensures r.Some? ==> |s| >= 1 && (JavaDigit(s[0]).Some? || s[0] == '-' || s[0] == '+')
    ensures r.Some? ==> forall i | 1 <= i < |s| :: JavaDigit(s[i]).Some?
    ensures r.Some? && s[0] != '-' ==> r.value >= 0
    ensures r.Some? && s[0] == '-' ==> r.value <= 0
  {
    if s == [] then None
    else
      var digits := if s[0] == '-' || s[0] == '+' then s[1..] else s;
      if digits == [] || !AllJavaDigits(digits) then None
      else
        var v: int := if s[0] == '-' then -(DigitsValue(digits) as int) else DigitsValue(digits);
        if Int32Min <= v <= Int32Max then Some(v) else None
  }

  /** Digits of other blocks read as their ASCII twins: `parseInt("１２")` is 12. */
  lemma {:induction false} DigitsValueTwins(s: string, t: string)
    requires AllJavaDigits(s) && AllDigits(t) && |s| == |t|
    requires forall i | 0 <= i < |s| :: JavaDigit(s[i]) == JavaDigit(t[i])
    ensures AllJavaDigits(t) && DigitsValue(s) == DigitsValue(t)
  {
    forall i | 0 <= i < |t| ensures JavaDigit(t[i]).Some? {
      AsciiDigit(t[i]);
    }
    if s != [] {
      DigitsValueTwins(s[..|s| - 1], t[..|t| - 1]);
    }
  }

  lemma {:induction false} DigitsOfDecimal(n: nat)
    ensures DigitsValue(NatToDecimal(n)) == n
  {
    if n >= 10 {
      DigitsOfDecimal(n / 10);
      var s := NatToDecimal(n);
      assert s[..|s| - 1] == NatToDecimal(n / 10);
    }
  }

  /** `Integer.parseInt` reads back every int that `%d` prints. */
  lemma ParseIntOfDecimal(n: int)
    requires Int32Min <= n <= Int32Max
    ensures ParseJavaInt(IntToDecimal(n)) == Some(n)
  {
    if n < 0 {
      ParseNegativeDecimal(-n);
    } else {
      ParseNaturalDecimal(n);
    }
  }

  lemma ParseNaturalDecimal(n: nat)
    requires n <= Int32Max
    ensures ParseJavaInt(NatToDecimal(n)) == Some(n)
  {
    var s := NatToDecimal(n);
    DigitsOfDecimal(n);
    assert s[0] != '-' && s[0] != '+';
  }

  lemma ParseNegativeDecimal(m: nat)
    requires 0 < m <= -Int32Min
    ensures ParseJavaInt("-" + NatToDecimal(m)) == Some(-(m as int))
  {
    var s := "-" + NatToDecimal(m);
    DigitsOfDecimal(m);
    assert s[0] == '-' && s[1..] == NatToDecimal(m);
  }

  /** How many UTF-16 units a Java `String` spends on the character: two above the BMP. */
  function Utf16Units(c: char): nat
  {
    if c as int >= 0x1_0000 then 2 else 1
  }

  /** `String.length()`: the UTF-16 units of the text. */
  function Utf16Length(s: string): nat
  {
    if s == [] then 0 else Utf16Units(s[0]) + Utf16Length(s[1..])
  }

  /**
   * `s.substring(0, Math.min(n, s.length()))` on whole characters: the longest
   * prefix of at most n UTF-16 units.
   */
  function Utf16Prefix(s: string, n: nat): (r: string)
    ensures |r| <= |s| && r == s[..|r|]
    ensures Utf16Length(r) <= n
    ensures Utf16Length(s) <= n ==> r == s
    ensures |r| < |s| ==> Utf16Length(r) + Utf16Units(s[|r|]) > n
  {
    if s == [] || Utf16Units(s[0]) > n then []
    else
      var rest := Utf16Prefix(s[1..], n - Utf16Units(s[0]));
      assert ([s[0]] + rest)[1..] == rest;
      [s[0]] + rest
  }

  /** Below the supplementary planes a unit is a character: the cut is `s[..min(n, |s|)]`. */
  lemma {:induction false} Utf16PrefixBmp(s: string, n: nat)
    requires forall i | 0 <= i < |s| :: s[i] as int < 0x1_0000
    ensures Utf16Prefix(s, n) == s[..Min(n, |s|)]
  {
    if s != [] && n > 0 {
      assert Utf16Units(s[0]) == 1;
      var rest := s[1..];
      Utf16PrefixBmp(rest, n - 1);
      assert Utf16Prefix(s, n) == [s[0]] + Utf16Prefix(rest, n - 1);
      assert s[..Min(n, |s|)] == [s[0]] + rest[..Min(n - 1, |rest|)];
    }
  }

  function Min(a: int, b: int): int
  {
    if a <= b then a else b
  }

  function Max(a: int, b: int): int
  {
    if a >= b then a else b
  }
}
