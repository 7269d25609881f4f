/**
 Whole JSON texts of the auth server: `json_serialize` and `json_deserialize` in
 auth/auth-server/src/http_utils/stringify_formatter.rs. The writer is the compact formatter of
 StringifiedJson. The reader is a reader of compact JSON after RFC 8259, written independently of
 the writer; it stands for the parser that the source calls.
 */
module JsonText {
  import opened StringifiedJson
  import opened Wrappers

  // --------------
  // | The reader |
  // --------------

  function HexValue(c: char): Option<nat> {
    if '0' <= c <= '9' then Some(c as int - '0' as int)
    else if 'a' <= c <= 'f' then Some(c as int - 'a' as int + 10)
    else if 'A' <= c <= 'F' then Some(c as int - 'A' as int + 10)
    else None
  }

  /** The character of four hexadecimal digits, below the surrogates. */
  function HexChar(s: string): Option<char>
    requires |s| == 4
  {
    var a, b, c, d := HexValue(s[0]), HexValue(s[1]), HexValue(s[2]), HexValue(s[3]);
    if a.None? || b.None? || c.None? || d.None? then None
    else
      var code := 4096 * a.value + 256 * b.value + 16 * c.value + d.value;
      if code < 0xD800 then Some(code as char) else None
  }

  /** The character that a backslash and this letter stand for. */
  function ShortEscape(c: char): Option<char> {
    if c == '"' || c == '\\' || c == '/' then Some(c)
    else if c == 'b' then Some(8 as char)
    else if c == 't' then Some(9 as char)
    else if c == 'n' then Some(10 as char)
    else if c == 'f' then Some(12 as char)
    else if c == 'r' then Some(13 as char)
    else None
  }

  /** The first character of a string body, and what is left of the text after it. */
  function ReadChar(s: string): (r: Option<(char, string)>)
    requires s != ""
    ensures r.Some? ==> |r.value.1| < |s|
  {
    if s[0] != '\\' then (if s[0] as int < 0x20 then None else Some((s[0], s[1..])))
    else if |s| < 2 then None
    else if s[1] != 'u' then
      var c := ShortEscape(s[1]);
      if c.None? then None else Some((c.value, s[2..]))
    else if |s| < 6 then None
    else
      var c := HexChar(s[2..6]);
      if c.None? then None else Some((c.value, s[6..]))
  }

  /** The rest of a string after its opening quote, and what is left after its closing one. */
  function ReadString(s: string): (r: Option<(string, string)>)
    ensures r.Some? ==> |r.value.1| < |s|
    decreases |s|
  {
    if s == "" then None
    else if s[0] == '"' then Some(("", s[1..]))
    else
      var c := ReadChar(s);
      if c.None? then None
      else
        var rest := ReadString(c.value.1);
        if rest.None? then None else Some(([c.value.0] + rest.value.0, rest.value.1))
  }

  /** The length of the run of number characters at the front. */
  function NumberRun(s: string): (n: nat)
    ensures n <= |s|
  {
    if s != "" && IsNumberChar(s[0]) then 1 + NumberRun(s[1..]) else 0
  }

  function ReadNumber(s: string): (r: Option<(Json, string)>)
    ensures r.Some? ==> |r.value.1| < |s|
  {
    var n := NumberRun(s);
    if n > 0 && IsJsonNumber(s[..n]) then Some((Num(s[..n]), s[n..])) else None
  }

  /** The text goes on with this character. */
  predicate At(s: string, c: char) {
    s != "" && s[0] == c
  }

  function ReadWord(s: string, word: string, v: Json): (r: Option<(Json, string)>)
    requires word != ""
    ensures r.Some? ==> |r.value.1| < |s|
  {
    if |word| <= |s| && s[..|word|] == word then Some((v, s[|word|..])) else None
  }

  function ReadValue(s: string): (r: Option<(Json, string)>)
    ensures r.Some? ==> |r.value.1| < |s|
    decreases |s|, 0
  {
    if At(s, 'n') then ReadWord(s, "null", Null)
    else if At(s, 't') then ReadWord(s, "true", Bool(true))
    else if At(s, 'f') then ReadWord(s, "false", Bool(false))
    else if At(s, '"') then
      var r := ReadString(s[1..]);
      if r.None? then None else Some((Str(r.value.0), r.value.1))
    else if At(s, '[') then
      if At(s[1..], ']') then Some((Arr([]), s[2..]))
      else
        var r := ReadItems(s[1..]);
        if r.None? then None else Some((Arr(r.value.0), r.value.1))
    else if At(s, '{') then
      if At(s[1..], '}') then Some((Obj([]), s[2..]))
      else
        var r := ReadFields(s[1..]);
        if r.None? then None else Some((Obj(r.value.0), r.value.1))
    else ReadNumber(s)
  }

  /** One or more values with commas between them, up to the closing bracket. */
  function ReadItems(s: string): (r: Option<(seq<Json>, string)>)
    ensures r.Some? ==> |r.value.1| < |s|
    decreases |s|, 1
  {
    var first := ReadValue(s);
    if first.None? then None
    else
      var (v, rest) := first.value;
      if At(rest, ']') then Some(([v], rest[1..]))
      else if !At(rest, ',') then None
      else
        var more := ReadItems(rest[1..]);
        if more.None? then None else Some(([v] + more.value.0, more.value.1))
  }

  function ReadField(s: string): (r: Option<(Field, string)>)
    ensures r.Some? ==> |r.value.1| < |s|
    decreases |s|, 1
  {
    if !At(s, '"') then None
    else
      var key := ReadString(s[1..]);
      if key.None? || !At(key.value.1, ':') then None
      else
        var value := ReadValue(key.value.1[1..]);
        if value.None? then None else Some((Field(key.value.0, value.value.0), value.value.1))
  }

  /** One or more fields with commas between them, up to the closing brace. */
  function ReadFields(s: string): (r: Option<(seq<Field>, string)>)
    ensures r.Some? ==> |r.value.1| < |s|
    decreases |s|, 2
  {
    var first := ReadField(s);
    if first.None? then None
    else
      var (f, rest) := first.value;
      if At(rest, '}') then Some(([f], rest[1..]))
      else if !At(rest, ',') then None
      else
        var more := ReadFields(rest[1..]);
        if more.None? then None else Some(([f] + more.value.0, more.value.1))
  }

  /** A whole text: one value and nothing after it. */
  function ReadText(s: string): Option<Json> {
    var r := ReadValue(s);
    if r.Some? && r.value.1 == "" then Some(r.value.0) else None
  }

  // -----------------------------
  // | Strings and numbers return |
  // -----------------------------

  lemma HexDigits(n: nat)
    requires n < 16
    ensures HexValue(HEX[n]) == Some(n)
  {
    assert HEX[0] == '0' && HEX[1] == '1' && HEX[2] == '2' && HEX[3] == '3' && HEX[4] == '4' && HEX[5] == '5';
    assert HEX[6] == '6' && HEX[7] == '7' && HEX[8] == '8' && HEX[9] == '9' && HEX[10] == 'a' && HEX[11] == 'b';
    assert HEX[12] == 'c' && HEX[13] == 'd' && HEX[14] == 'e' && HEX[15] == 'f';
  }

  lemma ReadsEscapedChar(c: char, r: string)
    ensures EscapeChar(c) != "" && EscapeChar(c)[0] != '"'
    ensures ReadChar(EscapeChar(c) + r) == Some((c, r))
  {
    var t := EscapeChar(c) + r;
    var code := c as int;
    if c == '"' || c == '\\' || code == 8 || code == 9 || code == 10 || code == 12 || code == 13 {
      assert t[2..] == r;
    } else if code >= 0x20 {
      assert t[1..] == r;
    } else {
      HexDigits(code / 16);
      HexDigits(code % 16);
      assert t[6..] == r;
      assert t[2..6] == ['0', '0', HEX[code / 16], HEX[code % 16]];
    }
  }

  lemma {:induction false} ReadsEscaped(s: string, r: string)
    ensures ReadString(Escape(s) + "\"" + r) == Some((s, r))
  {
    var t := Escape(s) + "\"" + r;
    if s == "" {
      assert t[0] == '"' && t[1..] == r;
    } else {
      var rest := Escape(s[1..]) + "\"" + r;
      assert t == EscapeChar(s[0]) + rest;
      ReadsEscapedChar(s[0], rest);
      ReadsEscaped(s[1..], r);
      assert t[0] == EscapeChar(s[0])[0];
      assert s == [s[0]] + s[1..];
    }
  }

  /** The text ends here, or goes on with a separator. */
  predicate Separated(r: string) {
    r == "" || r[0] == ',' || r[0] == ']' || r[0] == '}'
  }

  lemma {:induction false} RunsTo(s: string, r: string)
    requires (forall k :: 0 <= k < |s| ==> IsNumberChar(s[k])) && Separated(r)
    ensures NumberRun(s + r) == |s|
  {
    if s == "" {
      assert s + r == r;
    } else {
      RunsTo(s[1..], r);
      assert (s + r)[1..] == s[1..] + r;
    }
  }

  lemma ReadsNumber(literal: string, r: string)
    requires IsJsonNumber(literal) && Separated(r)
    ensures ReadValue(literal + r) == Some((Num(literal), r))
  {
    hide IsJsonNumber;
    JsonNumberChars(literal);
    RunsTo(literal, r);
    var t := literal + r;
    assert t[0] == literal[0] && IsNumberChar(t[0]);
    assert t[..|literal|] == literal && t[|literal|..] == r;
  }

  // ----------------
  // | Values return |
  // ----------------

  lemma ReadsWord(word: string, v: Json, r: string)
    requires word != ""
    ensures At(word + r, word[0]) && ReadWord(word + r, word, v) == Some((v, r))
  {
    var t := word + r;
    assert t[..|word|] == word && t[|word|..] == r;
  }

  lemma ReadsNull(r: string)
    ensures ReadValue("null" + r) == Some((Null, r))
  {
    ReadsWord("null", Null, r);
  }

  lemma ReadsBool(b: bool, r: string)
    ensures ReadValue((if b then "true" else "false") + r) == Some((Bool(b), r))
  {
    ReadsWord(if b then "true" else "false", Bool(b), r);
  }

  /** Text in brackets of its own, followed by more text. */
  lemma Bracketed(open: string, body: string, close: string, r: string)
    requires |open| == 1 && |close| == 1
    ensures var t := open + body + close + r;
            && At(t, open[0]) && t[1..] == body + close + r
            && (body == "" ==> At(t[1..], close[0]) && t[2..] == r)
            && (body != "" ==> At(t[1..], body[0]))
  {
  }

  /** Reading what was written gives the value back and stops exactly behind it. */
  lemma {:induction false} ReadsValue(v: Json, r: string)
    requires WellFormed(v) && Separated(r)
    ensures ReadValue(Write(v, false) + r) == Some((v, r))
    decreases v, 1
  {
    hide ReadValue, ReadString, ReadItems, ReadFields, Escape, WriteAll, WriteFields;
    match v
    case Null => ReadsNull(r);
    case Bool(b) => ReadsBool(b, r);
    case Num(literal) => ReadsNumber(literal, r);
    case Str(s) =>
      ReadsEscaped(s, r);
      ReadsQuoted(Escape(s), s, r);
    case Arr(items) =>
      WrittenItemsStart(items);
      if items != [] {
        ReadsItems(items, r);
      }
      ReadsArray(WriteAll(items, false), items, r);
    case Obj(fields) =>
      WrittenFieldsStart(fields);
      if fields != [] {
        ReadsFields(fields, r);
      }
      ReadsObject(WriteFields(fields, false), fields, r);
  }

  lemma ReadsQuoted(body: string, s: string, r: string)
    requires ReadString(body + "\"" + r) == Some((s, r))
    ensures ReadValue("\"" + body + "\"" + r) == Some((Str(s), r))
  {
    hide ReadString;
    Bracketed("\"", body, "\"", r);
  }

  lemma ReadsArray(body: string, items: seq<Json>, r: string)
    requires if items == [] then body == "" else body != "" && body[0] != ']'
    requires items != [] ==> ReadItems(body + "]" + r) == Some((items, r))
    ensures ReadValue("[" + body + "]" + r) == Some((Arr(items), r))
  {
    hide ReadItems;
    Bracketed("[", body, "]", r);
  }

  lemma ReadsObject(body: string, fields: seq<Field>, r: string)
    requires if fields == [] then body == "" else body != "" && body[0] == '"'
    requires fields != [] ==> ReadFields(body + "}" + r) == Some((fields, r))
    ensures ReadValue("{" + body + "}" + r) == Some((Obj(fields), r))
  {
    hide ReadFields;
    Bracketed("{", body, "}", r);
  }

  lemma WrittenStart(v: Json)
    requires WellFormed(v)
    ensures Write(v, false) != "" && Write(v, false)[0] != ']'
  {
    if v.Num? {
      JsonNumberChars(v.literal);
    }
  }

  lemma WrittenItemsStart(items: seq<Json>)
    requires forall x :: x in items ==> WellFormed(x)
    ensures items == [] ==> WriteAll(items, false) == ""
    ensures items != [] ==> WriteAll(items, false) != "" && WriteAll(items, false)[0] != ']'
  {
    if items != [] {
      WrittenStart(items[0]);
    }
  }

  lemma WrittenFieldsStart(fields: seq<Field>)
    ensures fields == [] ==> WriteFields(fields, false) == ""
    ensures fields != [] ==> WriteFields(fields, false) != "" && WriteFields(fields, false)[0] == '"'
  {
  }

  /** A piece of text, then one character, then more. */
  lemma Joined(a: string, c: string, b: string, close: string, r: string)
    requires |c| == 1
    ensures a + c + b + close + r == a + (c + (b + close + r))
    ensures At(c + (b + close + r), c[0]) && (c + (b + close + r))[1..] == b + close + r
  {
  }

  lemma Closed(a: string, close: string, r: string)
    requires |close| == 1
    ensures a + "" + "" + close + r == a + (close + r) && At(close + r, close[0]) && (close + r)[1..] == r
  {
  }

  lemma {:induction false} ReadsItems(items: seq<Json>, r: string)
    requires items != [] && forall x :: x in items ==> WellFormed(x)
    ensures ReadItems(WriteAll(items, false) + "]" + r) == Some((items, r))
    decreases items, 0
  {
    hide ReadValue, Write;
    var first := Write(items[0], false);
    if |items| == 1 {
      Closed(first, "]", r);
      ReadsValue(items[0], "]" + r);
      assert items == [items[0]] && items[1..] == [];
    } else {
      var more := WriteAll(items[1..], false);
      Joined(first, ",", more, "]", r);
      ReadsValue(items[0], "," + (more + "]" + r));
      ReadsItems(items[1..], r);
      assert items == [items[0]] + items[1..];
    }
  }

  lemma KeyAndValue(key: string, value: string, r: string)
    ensures var t := Quoted(key) + ":" + value + r;
            At(t, '"') && t[1..] == key + "\"" + (":" + (value + r))
    ensures At(":" + (value + r), ':') && (":" + (value + r))[1..] == value + r
  {
  }

  lemma ReadsField(f: Field, r: string)
    requires WellFormed(f.value) && Separated(r)
    ensures ReadField(Quoted(Escape(f.key)) + ":" + Write(f.value, false) + r) == Some((f, r))
    decreases f, 0
  {
    hide ReadString, ReadValue, Escape, Write, Quoted;
    var value := Write(f.value, false);
    KeyAndValue(Escape(f.key), value, r);
    ReadsEscaped(f.key, ":" + (value + r));
    ReadsValue(f.value, r);
  }

  lemma {:induction false} ReadsFields(fields: seq<Field>, r: string)
    requires fields != [] && forall f :: f in fields ==> WellFormed(f.value)
    ensures ReadFields(WriteFields(fields, false) + "}" + r) == Some((fields, r))
    decreases fields, 0
  {
    hide ReadField, Write, Escape, Quoted;
    var first := Quoted(Escape(fields[0].key)) + ":" + Write(fields[0].value, false);
    if |fields| == 1 {
      Closed(first, "}", r);
      ReadsField(fields[0], "}" + r);
      assert fields == [fields[0]] && fields[1..] == [];
    } else {
      var more := WriteFields(fields[1..], false);
      Joined(first, ",", more, "}", r);
      ReadsField(fields[0], "," + (more + "}" + r));
      ReadsFields(fields[1..], r);
      assert fields == [fields[0]] + fields[1..];
    }
  }

  // ---------------
  // | Whole texts |
  // ---------------

  /** Serialize a value, possibly stringifying all numbers. */
  function JsonSerialize(v: Json, stringify: bool): string {
    Write(v, stringify)
  }

  /** Read a text back, possibly converting stringified numbers; `None` is a serialization error. */
  function JsonDeserialize(text: string, stringify: bool): Option<Json> {
    var v := ReadText(text);
    if v.None? || !stringify then v else Convert(v.value)
  }

  /** The compact text of a tree determines the tree, and the stringified text the stringified tree. */
  lemma TextReadsBack(v: Json)
    requires WellFormed(v)
    ensures ReadText(Write(v, false)) == Some(v)
    ensures ReadText(Write(v, true)) == Some(Stringify(v))
  {
    ReadsValue(v, "");
    assert Write(v, false) + "" == Write(v, false);
    FormatterWritesStringified(v);
    StringifiedHasNoNumbers(v);
    ReadsValue(Stringify(v), "");
    assert Write(Stringify(v), false) + "" == Write(Stringify(v), false);
  }

  /**
   The codec on text: without stringification every value comes back; with it a value comes back iff
   no number sits directly under "price" and no convertible string looks numeric.
   */
  lemma CodecRoundTripIff(v: Json)
    requires WellFormed(v)
    ensures JsonDeserialize(JsonSerialize(v, false), false) == Some(v)
    ensures JsonDeserialize(JsonSerialize(v, true), true) == Some(v) <==> Clean(v, false)
  {
    TextReadsBack(v);
    RoundTripIff(v);
  }
}
