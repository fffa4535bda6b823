/**
 * An abstract JSON value and the few Jackson `JsonNode` queries the code uses:
 * `has`, `get`, `path`, `asText` and `asInt`. Text-to-JSON parsing and
 * JSON-to-text rendering belong to the libraries (Jackson, org.json) and stay
 * uninterpreted: they are passed in as a `Codec`.
 */
module Json {
  import opened Wrappers
  import opened Strings

  datatype Json =
    | JNull
    | JBool(b: bool)
    | JNum(n: int)                      // an integral number: Jackson's IntNode, LongNode, BigIntegerNode
    | JFrac(text: string, whole: int)   // a number with a fraction or exponent (a DoubleNode): its
                                        // `asText` and its value truncated toward zero
    | JStr(s: string)
    | JArr(items: seq<Json>)
    | JObj(fields: map<string, Json>)

  /** What the parser makes of a text: a value, or the exception's message. */
  datatype ParseOutcome = Parsed(value: Json) | ParseError(message: string)

  /**
   * `ObjectMapper.readTree` and `toString()`, as the code sees them, and
   * `Double.parseDouble` as Jackson's `asInt` uses it: the value truncated
   * toward zero, or None where it throws.
   */
  datatype Codec = Codec(parse: string -> ParseOutcome, render: Json -> string, readDouble: string -> Option<int>)

  /** `node.has(key)`: only an object has named members. */
  predicate Has(j: Json, key: string)
  {
    j.JObj? && key in j.fields
  }

  function Get(j: Json, key: string): Json
    requires Has(j, key)
  {
    j.fields[key]
  }

  /** `node.path(key)`: the member, or None for Jackson's MissingNode. */
  function Path(j: Json, key: string): (r: Option<Json>)
    ensures r.Some? <==> Has(j, key)
    ensures r.Some? ==> r.value == Get(j, key)
  {
    if Has(j, key) then Some(j.fields[key]) else None
  }

  /** `asText()`: a string's own text, a scalar's literal, "" for containers. */
  function AsText(j: Json): (t: string)
    ensures j.JStr? ==> t == j.s
  {
    match j
    case JNull => "null"
    case JBool(b) => if b then "true" else "false"
    case JNum(n) => IntToDecimal(n)
    case JFrac(text, _) => text
    case JStr(s) => s
    case JArr(_) => ""
    case JObj(_) => ""
  }

  /** `asText()` of a `path(...)` result; a MissingNode reads as "". */
  function PathText(j: Json, key: string): (t: string)
    ensures !Has(j, key) ==> t == ""
    ensures Has(j, key) ==> t == AsText(Get(j, key))
  {
    match Path(j, key)
    case None => ""
    case Some(v) => AsText(v)
  }

  /** A Java `(int)` cast of an integer: keep the low 32 bits, signed. */
  function WrapInt32(n: int): (r: int)
    ensures Int32Min <= r <= Int32Max
    ensures Int32Min <= n <= Int32Max ==> r == n
  {
    (n - Int32Min) % 0x1_0000_0000 + Int32Min
  }

  /** A Java `(int)` cast of a double: values outside the int range saturate. */
  function SaturateInt32(n: int): (r: int)
    ensures Int32Min <= r <= Int32Max
    ensures Int32Min <= n <= Int32Max ==> r == n
    ensures n < Int32Min ==> r == Int32Min
    ensures n > Int32Max ==> r == Int32Max
  {
    Max(Int32Min, Min(n, Int32Max))
  }

  /** Some character of s from index i on is not an ASCII digit. */
  predicate HasNonDigitFrom(s: string, i: nat)
  {
    exists k | i <= k < |s| :: !IsDigit(s[k])
  }

  /**
   * Jackson's `asInt()` of a text node (`NumberInput.parseAsInt` with default
   * 0): the trimmed text loses a leading '+'; if a character after the sign is
   * not an ASCII digit, the text goes to `Double.parseDouble` and is cast to
   * int; otherwise it goes to `Integer.parseInt`; every failure gives 0.
   */
  function TextAsInt(s: string, readDouble: string -> Option<int>): (r: int)
    ensures Int32Min <= r <= Int32Max
    ensures Trim(s) == [] ==> r == 0
  {
    var t := Trim(s);
    if t == [] then 0
    else
      var u := if t[0] == '+' then t[1..] else t;
      var start := if t[0] == '-' then 1 else 0;
      if HasNonDigitFrom(u, start) then
        (match readDouble(u) case Some(d) => SaturateInt32(d) case None => 0)
      else
        (match ParseJavaInt(u) case Some(k) => k case None => 0)
  }

  /** Every int that `%d` prints, blanks around it or not, reads back as itself. */
  lemma TextAsIntOfDecimal(n: int, readDouble: string -> Option<int>)
    requires Int32Min <= n <= Int32Max
    ensures TextAsInt(IntToDecimal(n), readDouble) == n
  {
    var t := IntToDecimal(n);
    TrimDecimal(n);
    ParseIntOfDecimal(n);
    if n < 0 {
      assert t[1..] == NatToDecimal(-n);
      assert !HasNonDigitFrom(t, 1);
    } else {
      assert !HasNonDigitFrom(t, 0);
    }
  }

  /** A decimal text has nothing to trim. */
  lemma TrimDecimal(n: int)
    ensures Trim(IntToDecimal(n)) == IntToDecimal(n)
  {
    var t := IntToDecimal(n);
    if n < 0 {
      assert t[0] == '-' && t[|t| - 1] == NatToDecimal(-n)[|NatToDecimal(-n)| - 1];
    }
    TrimOfTrimmed(t);
  }

  /** A text with a fraction or an exponent is read through `Double.parseDouble`: "1.5" is 1, "2e0" is 2. */
  lemma TextAsIntDecimalFallback(s: string, readDouble: string -> Option<int>)
    requires Trim(s) != [] && Trim(s)[0] != '+' && Trim(s)[0] != '-' && HasNonDigitFrom(Trim(s), 0)
    ensures readDouble(Trim(s)).Some? ==> TextAsInt(s, readDouble) == SaturateInt32(readDouble(Trim(s)).value)
    ensures readDouble(Trim(s)).None? ==> TextAsInt(s, readDouble) == 0
  {
  }

  /**
   * `asInt()` of a `path(...)` result with Jackson's default 0: integral
   * numbers are cast to int, fractional ones truncated and saturated, booleans
   * are 1 or 0, text is read as `TextAsInt` does.
   */
  function PathInt(j: Json, key: string, readDouble: string -> Option<int>): (r: int)
    ensures Int32Min <= r <= Int32Max
    ensures !Has(j, key) ==> r == 0
    ensures Has(j, key) && Get(j, key).JNum? ==> r == WrapInt32(Get(j, key).n)
    ensures Has(j, key) && Get(j, key).JFrac? ==> r == SaturateInt32(Get(j, key).whole)
    ensures Has(j, key) && Get(j, key).JStr? ==> r == TextAsInt(Get(j, key).s, readDouble)
    ensures Has(j, key) && Get(j, key).JBool? ==> r == (if Get(j, key).b then 1 else 0)
    ensures Has(j, key) && (Get(j, key).JNull? || Get(j, key).JArr? || Get(j, key).JObj?) ==> r == 0
  {
    match Path(j, key)
    case None => 0
    case Some(v) =>
      match v
      case JNum(n) => WrapInt32(n)
      case JFrac(_, w) => SaturateInt32(w)
      case JBool(b) => if b then 1 else 0
      case JStr(s) => TextAsInt(s, readDouble)
      case _ => 0
  }
}
