/**
 The number-stringifying JSON codec of the auth server
 (auth/auth-server/src/http_utils/stringify_formatter.rs). Numbers are kept as their literal
 text. On the way out that text is what the formatter writes for a typed integer or float; on
 the way in it is how a parsed number is held under the arbitrary-precision feature.
 */
module StringifiedJson {
  import opened Wrappers

  datatype Json =
    | Null
    | Bool(value: bool)
    | Num(literal: string)
    | Str(text: string)
    | Arr(items: seq<Json>)
    | Obj(fields: seq<Field>)

  datatype Field = Field(key: string, value: Json)

  // -------------------
  // | Number grammars |
  // -------------------

  predicate IsDigit(c: char) {
    '0' <= c <= '9'
  }

  /** The end of the run of digits that starts at `i`. */
  function SkipDigits(s: string, i: nat): (j: nat)
    requires i <= |s|
    ensures i <= j <= |s|
    ensures forall k :: i <= k < j ==> IsDigit(s[k])
    ensures j < |s| ==> !IsDigit(s[j])
    decreases |s| - i
  {
    if i < |s| && IsDigit(s[i]) then SkipDigits(s, i + 1) else i
  }

  /** Either nothing is left at `k`, or exactly an exponent. */
  predicate ExponentOrEnd(s: string, k: nat)
    requires k <= |s|
  {
    || k == |s|
    || ((s[k] == 'e' || s[k] == 'E') &&
        var m := if k + 1 < |s| && (s[k + 1] == '+' || s[k + 1] == '-') then k + 2 else k + 1;
        m < |s| && SkipDigits(s, m) == |s| )
  }

  /** The scan of a JSON number after its sign. */
  predicate IsUnsignedJson(s: string, i: nat)
    requires i <= |s|
  {
    && i < |s| && IsDigit(s[i])
    && var j := if s[i] == '0' then i + 1 else SkipDigits(s, i);
       if j < |s| && s[j] == '.' then
         SkipDigits(s, j + 1) > j + 1 && ExponentOrEnd(s, SkipDigits(s, j + 1))
       else ExponentOrEnd(s, j)
  }

  /** A number in the sense of section 6 of RFC 8259; this is what `Number::from_str` accepts. */
  predicate IsJsonNumber(s: string) {
    IsUnsignedJson(s, if |s| > 0 && s[0] == '-' then 1 else 0)
  }

  function Lower(c: char): char {
    if 'A' <= c <= 'Z' then ((c as int) + 32) as char else c
  }

  predicate EqualsIgnoreCase(s: string, t: string) {
    |s| == |t| && forall i :: 0 <= i < |s| ==> Lower(s[i]) == t[i]
  }

  /** The scan of the decimal part, from the sign on. */
  predicate IsDecimal(s: string, i: nat)
    requires i <= |s|
  {
    var j := SkipDigits(s, i);
    if j < |s| && s[j] == '.' then
      (j > i || SkipDigits(s, j + 1) > j + 1) && ExponentOrEnd(s, SkipDigits(s, j + 1))
    else j > i && ExponentOrEnd(s, j)
  }

  /** What `str::parse::<f64>` accepts: signs, bare dots on one side, infinities and NaN included. */
  predicate IsNumeric(s: string) {
    var i := if |s| > 0 && (s[0] == '-' || s[0] == '+') then 1 else 0;
    || EqualsIgnoreCase(s[i..], "inf") || EqualsIgnoreCase(s[i..], "infinity") || EqualsIgnoreCase(s[i..], "nan")
    || IsDecimal(s, i)
  }

  /** Every JSON number is taken for numeric; the converse fails, for one on a leading plus. */
  lemma JsonNumberIsNumeric(s: string)
    requires IsJsonNumber(s)
    ensures IsNumeric(s)
  {
    var i := if |s| > 0 && s[0] == '-' then 1 else 0;
    if s[i] == '0' {
      var j := i + 1;
      assert j < |s| ==> !IsDigit(s[j]);
      assert SkipDigits(s, i) == SkipDigits(s, j) == j;
    }
  }

  // The same grammars by their pieces, without any scanning.

  predicate Digits(s: string) {
    forall i :: 0 <= i < |s| ==> '0' <= s[i] <= '9'
  }

  predicate Exponent(s: string) {
    || s == ""
    || (&& |s| >= 2 && (s[0] == 'e' || s[0] == 'E')
        && var digits := if s[1] == '+' || s[1] == '-' then s[2..] else s[1..];
           digits != "" && Digits(digits))
  }

  predicate Fraction(s: string) {
    s == "" || (s[0] == '.' && Digits(s[1..]))
  }

  predicate FloatPieces(body: string, whole: string, frac: string, exp: string) {
    && body == whole + frac + exp
    && Digits(whole) && Fraction(frac) && Exponent(exp) && (|whole| > 0 || |frac| > 1)
  }

  /** The string is the name in any mix of lower and upper case. */
  predicate Spells(s: string, lower: string, upper: string)
    requires |lower| == |upper|
  {
    |s| == |lower| && forall i :: 0 <= i < |s| ==> s[i] == lower[i] || s[i] == upper[i]
  }

  predicate Named(s: string) {
    Spells(s, "inf", "INF") || Spells(s, "infinity", "INFINITY") || Spells(s, "nan", "NAN")
  }

  ghost predicate FloatText(s: string, sign: string, body: string) {
    && s == sign + body && (sign == "" || sign == "+" || sign == "-")
    && (Named(body) || exists whole: string, frac: string, exp: string :: FloatPieces(body, whole, frac, exp))
  }

  lemma {:induction false} SkipDigitsIs(s: string, i: nat, j: nat)
    requires i <= j <= |s| && Digits(s[i..j]) && (j < |s| ==> !IsDigit(s[j]))
    ensures SkipDigits(s, i) == j
    decreases j - i
  {
    if i < j {
      assert s[i..j][0] == s[i] && s[i..j][1..] == s[i + 1..j];
      SkipDigitsIs(s, i + 1, j);
    }
  }

  lemma SkippedAreDigits(s: string, i: nat)
    requires i <= |s|
    ensures Digits(s[i..SkipDigits(s, i)])
  {
  }

  lemma ExponentOrEndIff(s: string, k: nat)
    requires k <= |s|
    ensures ExponentOrEnd(s, k) <==> Exponent(s[k..])
  {
    if k < |s| {
      var m := if k + 1 < |s| && (s[k + 1] == '+' || s[k + 1] == '-') then k + 2 else k + 1;
      if m <= |s| {
        SkippedAreDigits(s, m);
        assert s[m..|s|] == s[m..];
        assert m == k + 2 ==> s[k..][2..] == s[m..];
        assert m == k + 1 ==> s[k..][1..] == s[m..];
        if m < |s| && Digits(s[m..]) {
          SkipDigitsIs(s, m, |s|);
        }
      }
    }
  }

  lemma EqualsIgnoreCaseIff(s: string)
    ensures EqualsIgnoreCase(s, "inf") <==> Spells(s, "inf", "INF")
    ensures EqualsIgnoreCase(s, "infinity") <==> Spells(s, "infinity", "INFINITY")
    ensures EqualsIgnoreCase(s, "nan") <==> Spells(s, "nan", "NAN")
  {
  }

  lemma GluePieces(s: string, i: nat, j: nat, k: nat)
    requires i <= j <= k <= |s|
    ensures s[i..] == s[i..j] + s[j..k] + s[k..] && s == s[..i] + s[i..]
    ensures j < k ==> s[j..k][0] == s[j] && s[j..k][1..] == s[j + 1..k]
  {
  }

  /** The end of the fraction that starts at `j`, if there is one. */
  function SkipFraction(s: string, j: nat): (k: nat)
    requires j <= |s|
    ensures j <= k <= |s|
  {
    if j < |s| && s[j] == '.' then SkipDigits(s, j + 1) else j
  }

  lemma FractionIsScanned(s: string, j: nat)
    requires j <= |s|
    ensures Fraction(s[j..SkipFraction(s, j)])
  {
    var k := SkipFraction(s, j);
    GluePieces(s, j, j, k);
    if k > j {
      SkippedAreDigits(s, j + 1);
    }
  }

  lemma DecimalHasPieces(s: string, i: nat) returns (whole: string, frac: string, exp: string)
    requires i <= |s| && IsDecimal(s, i)
    ensures FloatPieces(s[i..], whole, frac, exp)
  {
    hide SkipDigits, Digits, Exponent, ExponentOrEnd, Fraction, IsDigit;
    var j := SkipDigits(s, i);
    var k := SkipFraction(s, j);
    whole, frac, exp := s[i..j], s[j..k], s[k..];
    GluePieces(s, i, j, k);
    SkippedAreDigits(s, i);
    FractionIsScanned(s, j);
    ExponentOrEndIff(s, k);
  }

  lemma CutPieces(s: string, i: nat, whole: string, frac: string, exp: string)
    requires i <= |s| && s[i..] == whole + frac + exp
    ensures var j, k := i + |whole|, i + |whole| + |frac|;
            && k + |exp| == |s| && s[i..j] == whole && s[j..k] == frac && s[k..] == exp
            && (whole != "" ==> s[i] == whole[0]) && (frac != "" ==> s[j] == frac[0] && s[j + 1..k] == frac[1..])
            && (exp != "" ==> s[k] == exp[0])
  {
    var body, j, k := s[i..], i + |whole|, i + |whole| + |frac|;
    assert |body| == |whole| + |frac| + |exp|;
    assert s[i..j] == body[..|whole|] && s[j..k] == body[|whole|..|whole| + |frac|];
    assert s[k..] == body[|whole| + |frac|..];
    assert frac != "" ==> s[j..k][1..] == s[j + 1..k];
  }

  lemma Heads(frac: string, exp: string)
    ensures Fraction(frac) && frac != "" ==> frac[0] == '.' && Digits(frac[1..])
    ensures Exponent(exp) && exp != "" ==> !IsDigit(exp[0]) && exp[0] != '.'
    ensures !IsDigit('.')
  {
  }

  lemma PiecesAreDecimal(s: string, i: nat, whole: string, frac: string, exp: string)
    requires i <= |s| && FloatPieces(s[i..], whole, frac, exp)
    ensures IsDecimal(s, i)
  {
    hide SkipDigits, Digits, Exponent, ExponentOrEnd, Fraction, IsDigit;
    CutPieces(s, i, whole, frac, exp);
    Heads(frac, exp);
    var j, k := i + |whole|, i + |whole| + |frac|;
    ExponentOrEndIff(s, k);
    SkipDigitsIs(s, i, j);
    if frac != "" {
      SkipDigitsIs(s, j + 1, k);
    }
  }

  lemma NumericIsNamedOrDecimal(s: string)
    ensures var i := if |s| > 0 && (s[0] == '-' || s[0] == '+') then 1 else 0;
            IsNumeric(s) <==> Named(s[i..]) || IsDecimal(s, i)
  {
    var i := if |s| > 0 && (s[0] == '-' || s[0] == '+') then 1 else 0;
    EqualsIgnoreCaseIff(s[i..]);
  }

  /**
   What is taken for numeric, exactly: an optional sign, and then inf, infinity or nan in any case,
   or digits with an optional fraction, at least one digit in all, and an optional exponent.
   */
  lemma IsNumericIff(s: string)
    ensures IsNumeric(s) <==> exists sign: string, body: string :: FloatText(s, sign, body)
  {
    NumericIsNamedOrDecimal(s);
    var i := if |s| > 0 && (s[0] == '-' || s[0] == '+') then 1 else 0;
    if IsNumeric(s) {
      if !Named(s[i..]) {
        var whole, frac, exp := DecimalHasPieces(s, i);
      }
      assert s[..i] == "" || s[..i] == "+" || s[..i] == "-";
      assert FloatText(s, s[..i], s[i..]);
    }
    if sign: string, body: string :| FloatText(s, sign, body) {
      BodyHasNoSign(body);
      assert |sign| == i && s[i..] == body;
      if !Named(body) {
        var whole: string, frac: string, exp: string :| FloatPieces(body, whole, frac, exp);
        PiecesAreDecimal(s, i, whole, frac, exp);
      }
    }
  }

  lemma BodyHasNoSign(body: string)
    requires Named(body) || exists whole: string, frac: string, exp: string :: FloatPieces(body, whole, frac, exp)
    ensures body != "" && body[0] != '+' && body[0] != '-'
  {
    if !Named(body) {
      var whole: string, frac: string, exp: string :| FloatPieces(body, whole, frac, exp);
      assert whole != "" ==> body[0] == whole[0];
      assert whole == "" ==> body[0] == frac[0];
    }
  }

  predicate JsonPieces(s: string, sign: string, whole: string, frac: string, exp: string) {
    && s == sign + (whole + frac + exp)
    && (sign == "" || sign == "-")
    && (whole == "0" || (whole != "" && Digits(whole) && whole[0] != '0'))
    && Fraction(frac) && |frac| != 1 && Exponent(exp)
  }

  /**
   What is a JSON number, exactly: an optional minus, digits without a leading zero, an optional
   fraction with a digit, and an optional exponent, as in section 6 of RFC 8259.
   */
  lemma IsJsonNumberIff(s: string)
    ensures IsJsonNumber(s)
       <==> exists sign: string, whole: string, frac: string, exp: string :: JsonPieces(s, sign, whole, frac, exp)
  {
    var i := if |s| > 0 && s[0] == '-' then 1 else 0;
    if IsJsonNumber(s) {
      JsonHasPieces(s, i);
    }
    if sign: string, whole: string, frac: string, exp: string :| JsonPieces(s, sign, whole, frac, exp) {
      PiecesAreJson(s, sign, whole, frac, exp);
    }
  }

  lemma UnsignedHasPieces(s: string, i: nat) returns (whole: string, frac: string, exp: string)
    requires i <= |s| && IsUnsignedJson(s, i)
    ensures s[i..] == whole + frac + exp && whole != "" && (whole == "0" || (Digits(whole) && whole[0] != '0'))
    ensures Fraction(frac) && |frac| != 1 && Exponent(exp)
  {
    var j := if s[i] == '0' then i + 1 else SkipDigits(s, i);
    assert j > i;
    hide SkipDigits, Digits, Exponent, ExponentOrEnd, Fraction, IsDigit;
    var k := SkipFraction(s, j);
    whole, frac, exp := s[i..j], s[j..k], s[k..];
    GluePieces(s, i, j, k);
    ExponentOrEndIff(s, k);
    FractionIsScanned(s, j);
    SkippedAreDigits(s, i);
    assert whole[0] == s[i];
  }

  lemma JsonHasPieces(s: string, i: nat)
    requires IsJsonNumber(s) && i == if |s| > 0 && s[0] == '-' then 1 else 0
    ensures exists sign: string, whole: string, frac: string, exp: string :: JsonPieces(s, sign, whole, frac, exp)
  {
    hide IsUnsignedJson, Digits, Exponent, Fraction;
    var whole, frac, exp := UnsignedHasPieces(s, i);
    assert s == s[..i] + s[i..] && (s[..i] == "" || s[..i] == "-");
    assert JsonPieces(s, s[..i], whole, frac, exp);
  }

  lemma WholeIsScanned(s: string, i: nat, whole: string)
    requires i + |whole| <= |s| && s[i..i + |whole|] == whole && whole != "" && s[i] == whole[0]
    requires whole == "0" || (Digits(whole) && whole[0] != '0')
    requires i + |whole| < |s| ==> !IsDigit(s[i + |whole|])
    ensures IsDigit(s[i]) && (if s[i] == '0' then i + 1 else SkipDigits(s, i)) == i + |whole|
  {
    if whole != "0" {
      SkipDigitsIs(s, i, i + |whole|);
    }
  }

  lemma PiecesAreUnsigned(s: string, i: nat, whole: string, frac: string, exp: string)
    requires i <= |s| && s[i..] == whole + frac + exp && whole != ""
    requires whole == "0" || (Digits(whole) && whole[0] != '0')
    requires Fraction(frac) && |frac| != 1 && Exponent(exp)
    ensures IsUnsignedJson(s, i)
  {
    hide SkipDigits, Digits, Exponent, ExponentOrEnd, Fraction, IsDigit;
    CutPieces(s, i, whole, frac, exp);
    Heads(frac, exp);
    var j, k := i + |whole|, i + |whole| + |frac|;
    WholeIsScanned(s, i, whole);
    ExponentOrEndIff(s, k);
    if frac != "" {
      SkipDigitsIs(s, j + 1, k);
    }
  }

  lemma PiecesAreJson(s: string, sign: string, whole: string, frac: string, exp: string)
    requires JsonPieces(s, sign, whole, frac, exp)
    ensures IsJsonNumber(s)
  {
    hide SkipDigits, Digits, Exponent, ExponentOrEnd, Fraction, IsDigit;
    var i, body := |sign|, whole + frac + exp;
    assert s[i..] == body && s[i] == body[0] == whole[0];
    PiecesAreUnsigned(s, i, whole, frac, exp);
    NoMinus(whole);
    assert sign != "" ==> s[0] == sign[0];
    assert i == if |s| > 0 && s[0] == '-' then 1 else 0;
    assert IsUnsignedJson(s, i);
  }

  lemma NoMinus(whole: string)
    requires whole == "0" || (whole != "" && Digits(whole))
    ensures whole[0] != '-'
  {
  }

  predicate IsNumberChar(c: char) {
    IsDigit(c) || c == '-' || c == '+' || c == '.' || c == 'e' || c == 'E'
  }

  /** The characters that occur in text taken for numeric. */
  predicate InFloatAlphabet(c: char) {
    '0' <= c <= '9' || c in "+-.eEiInNfFtTyYaA"
  }

  lemma NumericAlphabet(s: string, k: nat)
    requires IsNumeric(s) && k < |s|
    ensures InFloatAlphabet(s[k])
  {
    hide IsNumeric, IsDecimal, FloatPieces, Named;
    IsNumericIff(s);
    var sign: string, body: string :| FloatText(s, sign, body);
    if k >= |sign| {
      var b := k - |sign|;
      assert s[k] == body[b];
      if Named(body) {
        NamedAlphabet(body, b);
      } else {
        var whole: string, frac: string, exp: string :| FloatPieces(body, whole, frac, exp);
        PiecesAlphabet(body, whole, frac, exp, b);
      }
    } else {
      assert s[k] == sign[k];
    }
  }

  lemma NamedAlphabet(body: string, b: nat)
    requires Named(body) && b < |body|
    ensures InFloatAlphabet(body[b])
  {
  }

  lemma PiecesAlphabet(body: string, whole: string, frac: string, exp: string, b: nat)
    requires FloatPieces(body, whole, frac, exp) && b < |body|
    ensures IsNumberChar(body[b])
  {
    if b < |whole| {
      assert body[b] == whole[b];
    } else if b < |whole| + |frac| {
      var x := b - |whole|;
      assert body[b] == frac[x];
      assert x > 0 ==> frac[x] == frac[1..][x - 1];
    } else {
      var x := b - |whole| - |frac|;
      assert body[b] == exp[x];
      assert x > 0 ==> exp[x] == exp[1..][x - 1];
      assert x > 1 ==> exp[x] == exp[2..][x - 2];
    }
  }

  lemma JsonNumberChars(s: string)
    requires IsJsonNumber(s)
    ensures s != "" && forall k :: 0 <= k < |s| ==> IsNumberChar(s[k])
  {
    hide IsJsonNumber, FloatPieces, IsNumberChar;
    IsJsonNumberIff(s);
    var sign: string, whole: string, frac: string, exp: string :| JsonPieces(s, sign, whole, frac, exp);
    var body := whole + frac + exp;
    JsonIsFloat(s, sign, whole, frac, exp);
    forall k | 0 <= k < |s| ensures IsNumberChar(s[k]) {
      if k >= |sign| {
        assert s[k] == body[k - |sign|];
        PiecesAlphabet(body, whole, frac, exp, k - |sign|);
      }
    }
  }

  lemma JsonIsFloat(s: string, sign: string, whole: string, frac: string, exp: string)
    requires JsonPieces(s, sign, whole, frac, exp)
    ensures FloatPieces(whole + frac + exp, whole, frac, exp) && s != ""
    ensures forall k :: 0 <= k < |sign| ==> IsNumberChar(s[k])
  {
  }

  // ---------------------------
  // | Serializing the numbers |
  // ---------------------------

  /** The tree that the stringifying formatter writes: every number becomes the string of its literal. */
  function Stringify(v: Json): Json
    decreases v, 1
  {
    match v
    case Num(literal) => Str(literal)
    case Arr(items) => Arr(StringifyAll(items))
    case Obj(fields) => Obj(StringifyFields(fields))
    case _ => v
  }

  function StringifyAll(items: seq<Json>): (r: seq<Json>)
    ensures |r| == |items|
    decreases items, 0
  {
    if items == [] then [] else [Stringify(items[0])] + StringifyAll(items[1..])
  }

  function StringifyFields(fields: seq<Field>): (r: seq<Field>)
    ensures |r| == |fields|
    decreases fields, 0
  {
    if fields == [] then [] else [Field(fields[0].key, Stringify(fields[0].value))] + StringifyFields(fields[1..])
  }

  /** Number literals are JSON numbers, as the `Display` of a finite Rust number is. */
  ghost predicate WellFormed(v: Json)
    decreases v
  {
    match v
    case Num(literal) => IsJsonNumber(literal)
    case Arr(items) => forall x :: x in items ==> WellFormed(x)
    case Obj(fields) => forall f :: f in fields ==> WellFormed(f.value)
    case _ => true
  }

  // ------------
  // | The text |
  // ------------

  const HEX := "0123456789abcdef"

  /** The escapes of a JSON string. */
  function EscapeChar(c: char): string {
    if c == '"' then "\\\"" else if c == '\\' then "\\\\"
    else if c as int >= 0x20 then [c]
    else if c as int == 8 then "\\b" else if c as int == 9 then "\\t" else if c as int == 10 then "\\n"
    else if c as int == 12 then "\\f" else if c as int == 13 then "\\r"
    else "\\u00" + [HEX[c as int / 16]] + [HEX[c as int % 16]]
  }

  function Escape(s: string): string {
    if s == [] then [] else EscapeChar(s[0]) + Escape(s[1..])
  }

  function Quoted(s: string): string {
    "\"" + s + "\""
  }

  /** The compact text of a tree. A stringifying formatter puts quotes around the raw literal of a number. */
  function Write(v: Json, stringify: bool): string
    decreases v, 1
  {
    match v
    case Null => "null"
    case Bool(b) => if b then "true" else "false"
    case Num(literal) => if stringify then Quoted(literal) else literal
    case Str(s) => Quoted(Escape(s))
    case Arr(items) => "[" + WriteAll(items, stringify) + "]"
    case Obj(fields) => "{" + WriteFields(fields, stringify) + "}"
  }

  function WriteAll(items: seq<Json>, stringify: bool): string
    decreases items, 0
  {
    if items == [] then ""
    else Write(items[0], stringify) + (if |items| == 1 then "" else ",") + WriteAll(items[1..], stringify)
  }

  function WriteFields(fields: seq<Field>, stringify: bool): string
    decreases fields, 0
  {
    if fields == [] then ""
    else Quoted(Escape(fields[0].key)) + ":" + Write(fields[0].value, stringify)
         + (if |fields| == 1 then "" else ",") + WriteFields(fields[1..], stringify)
  }

  lemma {:induction false} NumbersNeedNoEscape(s: string)
    requires forall k :: 0 <= k < |s| ==> IsNumberChar(s[k])
    ensures Escape(s) == s
  {
    if s != [] {
      NumbersNeedNoEscape(s[1..]);
      assert EscapeChar(s[0]) == [s[0]];
      assert s == [s[0]] + s[1..];
    }
  }

  /** The stringifying formatter writes exactly the compact text of the stringified tree. */
  lemma {:induction false} FormatterWritesStringified(v: Json)
    requires WellFormed(v)
    ensures Write(v, true) == Write(Stringify(v), false)
    decreases v, 1
  {
    match v
    case Num(literal) =>
      JsonNumberChars(literal);
      NumbersNeedNoEscape(literal);
    case Arr(items) => FormatterWritesAll(items);
    case Obj(fields) => FormatterWritesFields(fields);
    case _ =>
  }

  lemma {:induction false} FormatterWritesAll(items: seq<Json>)
    requires forall x :: x in items ==> WellFormed(x)
    ensures WriteAll(items, true) == WriteAll(StringifyAll(items), false)
    decreases items, 0
  {
    if items != [] {
      FormatterWritesStringified(items[0]);
      FormatterWritesAll(items[1..]);
      var out := StringifyAll(items);
      assert out[0] == Stringify(items[0]) && out[1..] == StringifyAll(items[1..]);
    }
  }

  lemma {:induction false} FormatterWritesFields(fields: seq<Field>)
    requires forall f :: f in fields ==> WellFormed(f.value)
    ensures WriteFields(fields, true) == WriteFields(StringifyFields(fields), false)
    decreases fields, 0
  {
    if fields != [] {
      FormatterWritesStringified(fields[0].value);
      FormatterWritesFields(fields[1..]);
      var out := StringifyFields(fields);
      assert out[0] == Field(fields[0].key, Stringify(fields[0].value)) && out[1..] == StringifyFields(fields[1..]);
    }
  }

  // ------------------------
  // | Converting them back |
  // ------------------------

  const IGNORED_KEY := "price"

  predicate ShouldIgnoreKey(key: string, value: Json) {
    !value.Obj? && !value.Arr? && key == IGNORED_KEY
  }

  function Prepend<T>(prefix: seq<T>, rest: Option<seq<T>>): Option<seq<T>> {
    if rest.None? then None else Some(prefix + rest.value)
  }

  /** The conversion on values; `None` is a serialization error. */
  function Convert(v: Json): Option<Json>
    decreases v, 1
  {
    match v
    case Str(s) => if !IsNumeric(s) then Some(v) else if IsJsonNumber(s) then Some(Num(s)) else None
    case Arr(items) => var r := ConvertAll(items); if r.None? then None else Some(Arr(r.value))
    case Obj(fields) => var r := ConvertFields(fields); if r.None? then None else Some(Obj(r.value))
    case _ => Some(v)
  }

  function ConvertAll(items: seq<Json>): (r: Option<seq<Json>>)
    ensures r.Some? ==> |r.value| == |items|
    decreases items, 0
  {
    if items == [] then Some([])
    else
      var first := Convert(items[0]);
      if first.None? then None else Prepend([first.value], ConvertAll(items[1..]))
  }

  function ConvertField(f: Field): Option<Field>
    decreases f, 0
  {
    if ShouldIgnoreKey(f.key, f.value) then Some(f)
    else var r := Convert(f.value); if r.None? then None else Some(Field(f.key, r.value))
  }

  function ConvertFields(fields: seq<Field>): (r: Option<seq<Field>>)
    ensures r.Some? ==> |r.value| == |fields|
    decreases fields, 0
  {
    if fields == [] then Some([])
    else
      var first := ConvertField(fields[0]);
      if first.None? then None else Prepend([first.value], ConvertFields(fields[1..]))
  }

  /** The in-place walk: children are rewritten one by one and the first error ends it. */
  method ConvertStringifiedNumbers(val: Json) returns (r: Option<Json>)
    ensures r == Convert(val)
    decreases val
  {
    match val {
      case Str(s) =>
        if IsNumeric(s) {
          if !IsJsonNumber(s) {
            return None;
          }
          return Some(Num(s));
        }
        return Some(val);
      case Arr(items) =>
        var arr := items;
        assert items[0..] == items;
        PrependNil(ConvertAll(items));
        for i := 0 to |items|
          invariant |arr| == |items| && arr[i..] == items[i..]
          invariant ConvertAll(items) == Prepend(arr[..i], ConvertAll(items[i..]))
        {
          assert items[i..][0] == items[i] && items[i..][1..] == items[i + 1..];
          var c := ConvertStringifiedNumbers(items[i]);
          if c.None? {
            return None;
          }
          arr := arr[i := c.value];
          PrependOne(arr[..i], c.value, ConvertAll(items[i + 1..]));
          assert arr[..i + 1] == arr[..i] + [c.value];
          assert arr[i + 1..] == items[i + 1..];
        }
        assert items[|items|..] == [] && arr[..|items|] + [] == arr;
        return Some(Arr(arr));
      case Obj(fields) =>
        var entries := fields;
        assert fields[0..] == fields;
        PrependNil(ConvertFields(fields));
        for i := 0 to |fields|
          invariant |entries| == |fields| && entries[i..] == fields[i..]
          invariant ConvertFields(fields) == Prepend(entries[..i], ConvertFields(fields[i..]))
        {
          assert fields[i..][0] == fields[i] && fields[i..][1..] == fields[i + 1..];
          if !ShouldIgnoreKey(fields[i].key, fields[i].value) {
            var c := ConvertStringifiedNumbers(fields[i].value);
            if c.None? {
              return None;
            }
            entries := entries[i := Field(fields[i].key, c.value)];
          }
          PrependOne(entries[..i], entries[i], ConvertFields(fields[i + 1..]));
          assert entries[..i + 1] == entries[..i] + [entries[i]];
          assert entries[i + 1..] == fields[i + 1..];
        }
        assert fields[|fields|..] == [] && entries[..|fields|] + [] == entries;
        return Some(Obj(entries));
      case _ =>
        return Some(val);
    }
  }

  lemma PrependNil<T>(r: Option<seq<T>>)
    ensures Prepend([], r) == r
  {
    if r.Some? {
      assert [] + r.value == r.value;
    }
  }

  lemma PrependOne<T>(prefix: seq<T>, x: T, rest: Option<seq<T>>)
    ensures Prepend(prefix, Prepend([x], rest)) == Prepend(prefix + [x], rest)
  {
    if rest.Some? {
      assert prefix + ([x] + rest.value) == prefix + [x] + rest.value;
    }
  }

  // --------------
  // | Round trip |
  // --------------

  /** A field that conversion leaves alone: a value directly under "price" that is no object or array. */
  predicate PriceLeaf(f: Field) {
    f.key == "price" && (f.value.Null? || f.value.Bool? || f.value.Num? || f.value.Str?)
  }

  /** No number directly under an ignored key, and no numeric-looking string anywhere else. */
  ghost predicate Clean(v: Json, ignored: bool)
    decreases v
  {
    match v
    case Num(_) => !ignored
    case Str(s) => ignored || !IsNumeric(s)
    case Arr(items) => forall x :: x in items ==> Clean(x, false)
    case Obj(fields) => forall f :: f in fields ==> Clean(f.value, PriceLeaf(f))
    case _ => true
  }

  /**
   Converting the stringified tree gives the original back if and only if the tree is clean.
   */
  lemma {:induction false} RoundTripIff(v: Json)
    requires WellFormed(v)
    ensures Convert(Stringify(v)) == Some(v) <==> Clean(v, false)
    decreases v, 1
  {
    match v
    case Num(literal) => JsonNumberIsNumeric(literal);
    case Arr(items) => RoundTripAll(items);
    case Obj(fields) => RoundTripFields(fields);
    case _ =>
  }

  lemma {:induction false} RoundTripAll(items: seq<Json>)
    requires forall x :: x in items ==> WellFormed(x)
    ensures ConvertAll(StringifyAll(items)) == Some(items) <==> forall x :: x in items ==> Clean(x, false)
    decreases items, 0
  {
    if items != [] {
      RoundTripIff(items[0]);
      RoundTripAll(items[1..]);
      var out := StringifyAll(items);
      assert out[0] == Stringify(items[0]) && out[1..] == StringifyAll(items[1..]);
      assert items == [items[0]] + items[1..];
    }
  }

  lemma {:induction false} RoundTripField(f: Field)
    requires WellFormed(f.value)
    ensures ConvertField(Field(f.key, Stringify(f.value))) == Some(f)
       <==> Clean(f.value, PriceLeaf(f))
    decreases f, 0
  {
    RoundTripIff(f.value);
  }

  lemma {:induction false} RoundTripFields(fields: seq<Field>)
    requires forall f :: f in fields ==> WellFormed(f.value)
    ensures ConvertFields(StringifyFields(fields)) == Some(fields)
       <==> forall f :: f in fields ==> Clean(f.value, PriceLeaf(f))
    decreases fields, 0
  {
    if fields != [] {
      RoundTripField(fields[0]);
      RoundTripFields(fields[1..]);
      var out := StringifyFields(fields);
      assert out[0] == Field(fields[0].key, Stringify(fields[0].value)) && out[1..] == StringifyFields(fields[1..]);
      assert fields == [fields[0]] + fields[1..];
    }
  }

  // ---------------------------
  // | Idempotence and failure |
  // ---------------------------

  /** Converting what has been converted changes nothing. */
  lemma {:induction false} ConvertIsIdempotent(v: Json)
    requires Convert(v).Some?
    ensures Convert(Convert(v).value) == Convert(v)
    decreases v, 1
  {
    match v
    case Arr(items) => ConvertAllIsIdempotent(items);
    case Obj(fields) => ConvertFieldsIsIdempotent(fields);
    case _ =>
  }

  lemma {:induction false} ConvertAllIsIdempotent(items: seq<Json>)
    requires ConvertAll(items).Some?
    ensures ConvertAll(ConvertAll(items).value) == ConvertAll(items)
    decreases items, 0
  {
    if items != [] {
      ConvertIsIdempotent(items[0]);
      ConvertAllIsIdempotent(items[1..]);
      var out := ConvertAll(items).value;
      assert out[0] == Convert(items[0]).value && out[1..] == ConvertAll(items[1..]).value;
    }
  }

  lemma {:induction false} ConvertFieldsIsIdempotent(fields: seq<Field>)
    requires ConvertFields(fields).Some?
    ensures ConvertFields(ConvertFields(fields).value) == ConvertFields(fields)
    decreases fields, 0
  {
    if fields != [] {
      var f := fields[0];
      if !ShouldIgnoreKey(f.key, f.value) {
        ConvertIsIdempotent(f.value);
        ConvertKeepsKind(f.value);
      }
      ConvertFieldsIsIdempotent(fields[1..]);
      var out := ConvertFields(fields).value;
      assert out[0] == ConvertField(f).value && out[1..] == ConvertFields(fields[1..]).value;
    }
  }

  lemma ConvertKeepsKind(v: Json)
    requires Convert(v).Some?
    ensures Convert(v).value.Arr? == v.Arr? && Convert(v).value.Obj? == v.Obj?
  {
  }

  /** Some string at a convertible position parses as a float and is not a JSON number. */
  ghost predicate HasBadString(v: Json)
    decreases v
  {
    match v
    case Str(s) => IsNumeric(s) && !IsJsonNumber(s)
    case Arr(items) => exists x :: x in items && HasBadString(x)
    case Obj(fields) => exists f :: f in fields && !PriceLeaf(f) && HasBadString(f.value)
    case _ => false
  }

  /** The conversion fails exactly on such trees. */
  lemma {:induction false} ConvertFailsIff(v: Json)
    ensures Convert(v).None? <==> HasBadString(v)
    decreases v, 1
  {
    match v
    case Arr(items) => ConvertAllFailsIff(items);
    case Obj(fields) => ConvertFieldsFailsIff(fields);
    case _ =>
  }

  lemma {:induction false} ConvertAllFailsIff(items: seq<Json>)
    ensures ConvertAll(items).None? <==> exists x :: x in items && HasBadString(x)
    decreases items, 0
  {
    if items != [] {
      ConvertFailsIff(items[0]);
      ConvertAllFailsIff(items[1..]);
      assert items == [items[0]] + items[1..];
    }
  }

  lemma {:induction false} ConvertFieldsFailsIff(fields: seq<Field>)
    ensures ConvertFields(fields).None?
       <==> exists f :: f in fields && !PriceLeaf(f) && HasBadString(f.value)
    decreases fields, 0
  {
    if fields != [] {
      ConvertFailsIff(fields[0].value);
      ConvertFieldsFailsIff(fields[1..]);
      assert fields == [fields[0]] + fields[1..];
    }
  }

  /** Ordinary text is left alone: a string with any character outside the number alphabets is returned as it is. */
  lemma OrdinaryTextIsKept(s: string, k: nat)
    requires k < |s| && !InFloatAlphabet(s[k])
    ensures Convert(Str(s)) == Some(Str(s))
  {
    if IsNumeric(s) {
      NumericAlphabet(s, k);
    }
  }

  ghost predicate HasNoNumbers(v: Json)
    decreases v
  {
    match v
    case Num(_) => false
    case Arr(items) => forall x :: x in items ==> HasNoNumbers(x)
    case Obj(fields) => forall f :: f in fields ==> HasNoNumbers(f.value)
    case _ => true
  }

  /** The stringified tree holds no number at any depth. */
  lemma {:induction false} StringifiedHasNoNumbers(v: Json)
    ensures HasNoNumbers(Stringify(v)) && WellFormed(Stringify(v))
    decreases v, 1
  {
    match v
    case Arr(items) =>
      forall i | 0 <= i < |items| ensures HasNoNumbers(StringifyAll(items)[i]) && WellFormed(StringifyAll(items)[i]) {
        StringifiedAt(items, i);
        StringifiedHasNoNumbers(items[i]);
      }
    case Obj(fields) =>
      forall i | 0 <= i < |fields|
        ensures HasNoNumbers(StringifyFields(fields)[i].value) && WellFormed(StringifyFields(fields)[i].value)
      {
        StringifiedFieldAt(fields, i);
        StringifiedHasNoNumbers(fields[i].value);
      }
    case _ =>
  }

  lemma {:induction false} StringifiedAt(items: seq<Json>, i: nat)
    requires i < |items|
    ensures StringifyAll(items)[i] == Stringify(items[i])
  {
    if i > 0 {
      StringifiedAt(items[1..], i - 1);
    }
  }

  lemma {:induction false} StringifiedFieldAt(fields: seq<Field>, i: nat)
    requires i < |fields|
    ensures StringifyFields(fields)[i] == Field(fields[i].key, Stringify(fields[i].value))
  {
    if i > 0 {
      StringifiedFieldAt(fields[1..], i - 1);
    }
  }

  /** A leading plus is enough: the string "+1" is numeric and no JSON number. */
  lemma LeadingPlusFails()
    ensures HasBadString(Arr([Str("+1")])) && Convert(Arr([Str("+1")])).None?
  {
    var s := "+1";
    assert SkipDigits(s, 1) == SkipDigits(s, 2) == 2;
    assert IsNumeric(s) && !IsJsonNumber(s);
    var v := Arr([Str(s)]);
    assert Str(s) in v.items && HasBadString(Str(s));
    ConvertFailsIff(v);
  }
}
