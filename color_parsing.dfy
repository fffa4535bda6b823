/**
 * `parseColorString` and `parseHistoryColorIndex`: history references,
 * Chinese numerals and the clamp into the history, then the named-colour
 * tables. The hex (`Color.web`) and `rgb(...)` readers work on floating point
 * inside JavaFX and are passed in as uninterpreted functions.
 */
module ColorParsing {
  import opened Wrappers
  import opened Strings
  import opened Colors

  /** The Chinese numerals 一..八. */
  const ChineseNumerals: map<string, int> := map[
    "一" := 1, "二" := 2, "三" := 3, "四" := 4, "五" := 5, "六" := 6, "七" := 7, "八" := 8]

  /** What is left of a history reference once its words are removed and it is trimmed. */
  function IndexText(s: string): string
  {
    Trim(ReplaceAll(ReplaceAll(ReplaceAll(ReplaceAll(ReplaceAll(
      s, "历史颜色", ""), "historycolor", ""), "colorhistory", ""), "历史", ""), "颜色", ""))
  }

  /** A Chinese numeral, else `Integer.parseInt`. */
  function HistoryIndex(t: string): (r: Option<int>)
    ensures t in ChineseNumerals ==> r == Some(ChineseNumerals[t])
    ensures t !in ChineseNumerals ==> r == ParseJavaInt(t)
  {
    if t in ChineseNumerals then Some(ChineseNumerals[t]) else ParseJavaInt(t)
  }

  function Clamp(n: int, lo: int, hi: int): (r: int)
    requires lo <= hi
    ensures lo <= r <= hi
    ensures n < lo ==> r == lo
    ensures n > hi ==> r == hi
    ensures lo <= n <= hi ==> r == n
  {
    if n < lo then lo else if n > hi then hi else n
  }

  /**
   * `parseHistoryColorIndex`: null on an empty history or an index text that
   * is neither a numeral nor an int; otherwise the entry at the index clamped
   * into 1..size (1 is the newest).
   */
  function ParseHistoryColorIndex(s: string, history: seq<Color>): (r: Option<Color>)
    ensures |history| == 0 ==> r == None
    ensures HistoryIndex(IndexText(s)) == None ==> r == None
    ensures |history| > 0 && HistoryIndex(IndexText(s)).Some? ==>
      r == Some(history[Clamp(HistoryIndex(IndexText(s)).value, 1, |history|) - 1])
  {
    HistoryEntryAt(HistoryIndex(IndexText(s)), history)
  }

  /** The entry an index selects once it is clamped into 1..size; none for no index or no history. */
  function HistoryEntryAt(index: Option<int>, history: seq<Color>): (r: Option<Color>)
    ensures |history| == 0 ==> r == None
    ensures index == None ==> r == None
    ensures |history| > 0 && index.Some? ==> r == Some(history[Clamp(index.value, 1, |history|) - 1])
  {
    match index
    case None => None
    case Some(n) =>
      var i := Max(1, Min(n, |history|)) - 1;
      if 0 <= i < |history| then Some(history[i]) else None
  }

  /** 一..八 denote 1..8. */
  lemma ChineseNumeralsDenote()
    ensures HistoryIndex("一") == Some(1) && HistoryIndex("二") == Some(2)
    ensures HistoryIndex("三") == Some(3) && HistoryIndex("四") == Some(4)
    ensures HistoryIndex("五") == Some(5) && HistoryIndex("六") == Some(6)
    ensures HistoryIndex("七") == Some(7) && HistoryIndex("八") == Some(8)
    ensures forall t | t in ChineseNumerals :: 1 <= ChineseNumerals[t] <= 8
  {
  }

  /** A full-width digit, as Chinese input methods type it, is read like its ASCII twin. */
  lemma FullWidthIndex(c: char)
    requires 0xFF10 <= c as int <= 0xFF19
    ensures HistoryIndex([c]) == Some(c as int - 0xFF10)
  {
    FullWidthDigit(c);
    assert [c] !in ChineseNumerals;
    assert [c][..0] == [];
    assert DigitsValue([c]) == c as int - 0xFF10;
  }

  /** A one-character text holds no longer pattern. */
  lemma ReplaceInOneChar(c: char, pat: string)
    requires |pat| >= 2
    ensures ReplaceAll([c], pat, "") == [c]
  {
    assert !Contains([c][1..], pat);
  }

  /** The reference word is removed whole, one longer pattern at a time, leaving the character. */
  lemma LeadingWordRemoved(w: string, c: char)
    requires |w| >= 2
    ensures ReplaceAll(w + [c], w, "") == [c]
  {
    var s := w + [c];
    assert StartsWith(s, w) && s[|w|..] == [c];
    ReplaceInOneChar(c, w);
  }

  /** What is left of "历史颜色" and one character other than a blank is that character. */
  lemma IndexTextOfWordAndChar(c: char)
    requires !IsTrimmable(c)
    ensures IndexText("历史颜色" + [c]) == [c]
  {
    LeadingWordRemoved("历史颜色", c);
    ReplaceInOneChar(c, "historycolor");
    ReplaceInOneChar(c, "colorhistory");
    ReplaceInOneChar(c, "历史");
    ReplaceInOneChar(c, "颜色");
    TrimOfTrimmed([c]);
  }

  /** "历史颜色" followed by a full-width digit names the entry that digit selects. */
  lemma FullWidthReference(c: char, history: seq<Color>)
    requires 0xFF10 <= c as int <= 0xFF19 && |history| > 0
    ensures ParseHistoryColorIndex("历史颜色" + [c], history) ==
      Some(history[Clamp(c as int - 0xFF10, 1, |history|) - 1])
  {
    IndexTextOfWordAndChar(c);
    FullWidthIndex(c);
  }

  /** What Java's `rgb(...)` branch makes of its text. */
  datatype RgbOutcome =
    | TooFewParts       // fewer than three comma-separated parts: fall through to the names
    | RgbColor(c: Color)
    | RgbFailed         // a part is not a number: the exception makes the result null

  /** `Color.web` (None where it throws) and the `rgb(...)` reader. */
  datatype ColorParsers = ColorParsers(web: string -> Option<Color>, rgb: string -> RgbOutcome)

  const ChineseColorTable: map<string, Color> := map[
    "红色" := Red, "蓝色" := Blue, "绿色" := Green, "黄色" := Yellow, "紫色" := Purple,
    "橙色" := Orange, "粉色" := Pink, "黑色" := Black, "白色" := White, "灰色" := Gray,
    "深蓝" := DarkBlue, "浅蓝" := LightBlue]

  const EnglishColorTable: map<string, Color> := map[
    "red" := Red, "blue" := Blue, "green" := Green, "yellow" := Yellow, "purple" := Purple,
    "orange" := Orange, "pink" := Pink, "black" := Black, "white" := White, "gray" := Gray,
    "darkblue" := DarkBlue, "lightblue" := LightBlue]

  predicate IsHistoryReference(lower: string)
  {
    StartsWith(lower, "历史颜色") || StartsWith(lower, "historycolor") || StartsWith(lower, "colorhistory")
  }

  /** The named tables, then `Color.web` on the original text. */
  function LookupName(s: string, lower: string, p: ColorParsers): Option<Color>
  {
    if lower in ChineseColorTable then Some(ChineseColorTable[lower])
    else if lower in EnglishColorTable then Some(EnglishColorTable[lower])
    else p.web(s)
  }

  /** `parseColorString`: history reference, hex, `rgb(...)`, names, `Color.web`, in that order. */
  function ParseColorString(s: string, history: seq<Color>, p: ColorParsers): (r: Option<Color>)
    ensures Trim(s) == [] ==> r == None
  {
    var lower := ToLower(Trim(s));
    if Trim(s) == [] then None
    else if IsHistoryReference(lower) then ParseHistoryColorIndex(lower, history)
    else ParseOtherForms(s, lower, p)
  }

  /** The branches after the history reference: hex, `rgb(...)`, then the names. */
  function ParseOtherForms(s: string, lower: string, p: ColorParsers): Option<Color>
  {
    if StartsWith(lower, "#") then p.web(s)
    else if StartsWith(lower, "rgb") then
      match p.rgb(lower)
      case TooFewParts => LookupName(s, lower, p)
      case RgbColor(c) => Some(c)
      case RgbFailed => None
    else LookupName(s, lower, p)
  }

  /** A history reference is resolved from the history alone, whatever the JavaFX readers do. */
  lemma HistoryReferenceIsLocal(s: string, history: seq<Color>, p: ColorParsers, q: ColorParsers)
    requires Trim(s) != [] && IsHistoryReference(ToLower(Trim(s)))
    ensures ParseColorString(s, history, p) == ParseColorString(s, history, q)
    ensures ParseColorString(s, history, p) == ParseHistoryColorIndex(ToLower(Trim(s)), history)
  {
  }

  /** The English names begin with a lower-case letter other than h and c, and only "red" with r. */
  lemma EnglishNameHead(name: string)
    requires name in EnglishColorTable
    ensures |name| >= 3 && 'a' <= name[0] <= 'z' && name[0] != 'h' && name[0] != 'c'
    ensures name[0] == 'r' ==> name[1] == 'e'
  {
    assert name == "red" || name == "blue" || name == "green" || name == "yellow" || name == "purple"
      || name == "orange" || name == "pink" || name == "black" || name == "white" || name == "gray"
      || name == "darkblue" || name == "lightblue";
  }

  /** The Chinese names are two characters past the ASCII range, none of them 历. */
  lemma ChineseNameHead(name: string)
    requires name in ChineseColorTable
    ensures |name| == 2 && name[0] > 'z' && name[0] != '历'
  {
    assert name == "红色" || name == "蓝色" || name == "绿色" || name == "黄色" || name == "紫色"
      || name == "橙色" || name == "粉色" || name == "黑色" || name == "白色" || name == "灰色"
      || name == "深蓝" || name == "浅蓝";
  }

  /** What the first two characters rule out. */
  lemma HeadRulesOut(name: string)
    requires |name| >= 2 && name[0] != '历' && name[0] != 'h' && name[0] != 'c' && name[0] != '#'
    requires name[0] == 'r' ==> name[1] != 'g'
    ensures !IsHistoryReference(name) && !StartsWith(name, "#") && !StartsWith(name, "rgb")
  {
    assert "历史颜色"[0] == '历' && "historycolor"[0] == 'h' && "colorhistory"[0] == 'c';
    assert "rgb"[1] == 'g';
  }

  /** A table name is neither a history reference, nor a hex text, nor `rgb(...)`, and is in one table only. */
  lemma NamesAreNotOtherForms(name: string)
    requires name in ChineseColorTable || name in EnglishColorTable
    ensures !IsHistoryReference(name) && !StartsWith(name, "#") && !StartsWith(name, "rgb")
    ensures name in EnglishColorTable ==> name !in ChineseColorTable
  {
    if name in EnglishColorTable {
      EnglishNameHead(name);
      if name in ChineseColorTable {
        ChineseNameHead(name);
      }
    } else {
      ChineseNameHead(name);
    }
    HeadRulesOut(name);
  }

  /** A table name skips the history, hex and `rgb(...)` branches. */
  lemma NamesReachTables(s: string, history: seq<Color>, p: ColorParsers)
    requires ToLower(Trim(s)) in EnglishColorTable || ToLower(Trim(s)) in ChineseColorTable
    ensures ParseColorString(s, history, p) == LookupName(s, ToLower(Trim(s)), p)
  {
    var lower := ToLower(Trim(s));
    NamesAreNotOtherForms(lower);
    assert Trim(s) != [] by {
      if Trim(s) == [] {
        assert |lower| == 0;
        if lower in EnglishColorTable { EnglishNameHead(lower); } else { ChineseNameHead(lower); }
      }
    }
    assert ParseColorString(s, history, p) == ParseOtherForms(s, lower, p);
  }

  /**
   * A colour name, in either language and in any ASCII case, with blanks
   * around it, is read from the tables, whatever the JavaFX readers do.
   */
  lemma NamedColorsResolve(s: string, history: seq<Color>, p: ColorParsers)
    requires ToLower(Trim(s)) in EnglishColorTable || ToLower(Trim(s)) in ChineseColorTable
    ensures ToLower(Trim(s)) in ChineseColorTable ==> ParseColorString(s, history, p) == Some(ChineseColorTable[ToLower(Trim(s))])
    ensures ToLower(Trim(s)) in EnglishColorTable ==> ParseColorString(s, history, p) == Some(EnglishColorTable[ToLower(Trim(s))])
  {
    NamesReachTables(s, history, p);
    NamesAreNotOtherForms(ToLower(Trim(s)));
  }
}
