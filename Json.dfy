/**
 * The JSON values the cache stores, with the text encoding `JSON.stringify` produces and the
 * decoding `JSON.parse` performs on it. The cache layer needs the pair only through the
 * round trip `Decode(Encode(v)) == Some(v)`, which is proved here for every value.
 */
module Json {
  import opened Wrappers
  import opened Text

  /** A JSON value; numbers are integers and an object is its list of fields in order. */
  datatype Json =
    | JNull
    | JBool(b: bool)
    | JNum(n: int)
    | JStr(s: string)
    | JArr(items: seq<Json>)
    | JObj(fields: seq<Field>)

  datatype Field = Field(key: string, value: Json)

  /** JavaScript truthiness of a parsed value: null, false, 0 and "" are falsy, every array and object is truthy. */
  predicate Truthy(v: Json) {
    match v
    case JNull => false
    case JBool(b) => b
    case JNum(n) => n != 0
    case JStr(s) => s != ""
    case _ => true
  }

  // ---------------------------------------------------------------- encoding

  function HexDigit(d: nat): (c: char)
    requires d < 16
  {
    if d < 10 then ('0' as int + d) as char else ('a' as int + d - 10) as char
  }

  predicate IsHex(c: char) {
    ('0' <= c <= '9') || ('a' <= c <= 'f') || ('A' <= c <= 'F')
  }

  function HexValue(c: char): (d: nat)
    requires IsHex(c)
    ensures d < 16
  {
    if '0' <= c <= '9' then (c as int - '0' as int) as nat
    else if 'a' <= c <= 'f' then (c as int - 'a' as int + 10) as nat
    else (c as int - 'A' as int + 10) as nat
  }

  /** How `JSON.stringify` writes one character inside a string literal. */
  function EscapeChar(c: char): (r: string)
    ensures |r| > 0 && r[0] != '"'
  {
    if c == '"' then "\\\""
    else if c == '\\' then "\\\\"
    else if c == '\U{8}' then "\\b"
    else if c == '\t' then "\\t"
    else if c == '\n' then "\\n"
    else if c == '\U{C}' then "\\f"
    else if c == '\r' then "\\r"
    else if c < ' ' then "\\u00" + [HexDigit(c as int / 16), HexDigit(c as int % 16)]
    else [c]
  }

  function EscapeString(s: string): string {
    if |s| == 0 then "" else EscapeChar(s[0]) + EscapeString(s[1..])
  }

  function EncodeString(s: string): string {
    "\"" + EscapeString(s) + "\""
  }

  /** `JSON.stringify(v)`: no insignificant whitespace, items and fields separated by ','. */
  function Encode(v: Json): string
    decreases v
  {
    match v
    case JNull => "null"
    case JBool(b) => if b then "true" else "false"
    case JNum(n) => IntToString(n)
    case JStr(s) => EncodeString(s)
    case JArr(items) => "[" + EncodeItems(items) + "]"
    case JObj(fields) => "{" + EncodeFields(fields) + "}"
  }

  function EncodeItems(items: seq<Json>): string
    decreases items
  {
    if |items| == 0 then ""
    else if |items| == 1 then Encode(items[0])
    else Encode(items[0]) + "," + EncodeItems(items[1..])
  }

  function EncodeField(f: Field): string
    decreases f
  {
    EncodeString(f.key) + ":" + Encode(f.value)
  }

  function EncodeFields(fields: seq<Field>): string
    decreases fields
  {
    if |fields| == 0 then ""
    else if |fields| == 1 then EncodeField(fields[0])
    else EncodeField(fields[0]) + "," + EncodeFields(fields[1..])
  }

  // ---------------------------------------------------------------- decoding

  /** One character of a string literal, escaped or not; the closing quote and raw control characters are refused. */
  function ParseChar(t: string): (r: Option<(char, string)>)
    ensures r.Some? ==> |r.value.1| < |t|
  {
    if |t| == 0 || t[0] == '"' || t[0] < ' ' then None
    else if t[0] != '\\' then Some((t[0], t[1..]))
    else if |t| < 2 then None
    else if t[1] == '"' || t[1] == '\\' || t[1] == '/' then Some((t[1], t[2..]))
    else if t[1] == 'b' then Some(('\U{8}', t[2..]))
    else if t[1] == 't' then Some(('\t', t[2..]))
    else if t[1] == 'n' then Some(('\n', t[2..]))
    else if t[1] == 'f' then Some(('\U{C}', t[2..]))
    else if t[1] == 'r' then Some(('\r', t[2..]))
    else if t[1] == 'u' && |t| >= 6 && IsHex(t[2]) && IsHex(t[3]) && IsHex(t[4]) && IsHex(t[5]) then
      var n := HexValue(t[2]) * 4096 + HexValue(t[3]) * 256 + HexValue(t[4]) * 16 + HexValue(t[5]);
      if n < 0xD800 || 0xE000 <= n then Some((n as char, t[6..])) else None
    else None
  }

  /** The body of a string literal up to and including its closing quote. */
  function ParseStringBody(t: string): (r: Option<(string, string)>)
    ensures r.Some? ==> |r.value.1| < |t|
    decreases |t|
  {
    if |t| == 0 then None
    else if t[0] == '"' then Some(("", t[1..]))
    else match ParseChar(t)
      case None => None
      case Some((c, rest)) =>
        match ParseStringBody(rest)
        case None => None
        case Some((cs, rest')) => Some(([c] + cs, rest'))
  }

  /** Digits without a leading zero ("0" itself is allowed) and the value they denote. */
  function ParseNat(t: string): (r: Option<(nat, string)>)
    ensures r.Some? ==> |r.value.1| < |t|
  {
    var n := LeadingCount(t, IsDigit);
    if n == 0 || (n > 1 && t[0] == '0') then None
    else Some((DigitsValue(t[..n]), t[n..]))
  }

  /** An integer literal: an optional '-' before the digits. */
  function ParseNumber(s: string): (r: Option<(Json, string)>)
    ensures r.Some? ==> |r.value.1| < |s|
  {
    if |s| > 0 && s[0] == '-' then
      match ParseNat(s[1..])
      case None => None
      case Some((v, rest)) => Some((JNum(-(v as int)), rest))
    else
      match ParseNat(s)
      case None => None
      case Some((v, rest)) => Some((JNum(v), rest))
  }

  function ParseValue(s: string): (r: Option<(Json, string)>)
    ensures r.Some? ==> |r.value.1| < |s|
    decreases |s|, 1
  {
    if |s| == 0 then None
    else if s[0] == 'n' then (if StartsWith(s, "null") then Some((JNull, s[4..])) else None)
    else if s[0] == 't' then (if StartsWith(s, "true") then Some((JBool(true), s[4..])) else None)
    else if s[0] == 'f' then (if StartsWith(s, "false") then Some((JBool(false), s[5..])) else None)
    else if s[0] == '"' then
      match ParseStringBody(s[1..])
      case None => None
      case Some((str, rest)) => Some((JStr(str), rest))
    else if s[0] == '-' || IsDigit(s[0]) then ParseNumber(s)
    else if s[0] == '[' then ParseArray(s[1..])
    else if s[0] == '{' then ParseObject(s[1..])
    else None
  }

  /** The rest of an array after its '['. */
  function ParseArray(t: string): (r: Option<(Json, string)>)
    ensures r.Some? ==> |r.value.1| < |t|
    decreases |t|, 4
  {
    if StartsWith(t, "]") then Some((JArr([]), t[1..]))
    else
      match ParseItems(t)
      case None => None
      case Some((items, rest)) => Some((JArr(items), rest))
  }

  /** One or more values separated by ',' and closed by ']'. */
  function ParseItems(s: string): (r: Option<(seq<Json>, string)>)
    ensures r.Some? ==> |r.value.1| < |s|
    decreases |s|, 3
  {
    match ParseValue(s)
    case None => None
    case Some((v, rest)) =>
      if StartsWith(rest, "]") then Some(([v], rest[1..]))
      else if StartsWith(rest, ",") then
        match ParseItems(rest[1..])
        case None => None
        case Some((vs, rest')) => Some(([v] + vs, rest'))
      else None
  }

  /** The rest of an object after its '{'. */
  function ParseObject(t: string): (r: Option<(Json, string)>)
    ensures r.Some? ==> |r.value.1| < |t|
    decreases |t|, 4
  {
    if StartsWith(t, "}") then Some((JObj([]), t[1..]))
    else
      match ParseFields(t)
      case None => None
      case Some((fields, rest)) => Some((JObj(fields), rest))
  }

  /** One `"key":value` field. */
  function ParseField(s: string): (r: Option<(Field, string)>)
    ensures r.Some? ==> |r.value.1| < |s|
    decreases |s|, 2
  {
    if |s| == 0 || s[0] != '"' then None
    else match ParseStringBody(s[1..])
      case None => None
      case Some((key, afterKey)) =>
        if !StartsWith(afterKey, ":") then None
        else match ParseValue(afterKey[1..])
          case None => None
          case Some((v, rest)) => Some((Field(key, v), rest))
  }

  /** One or more fields separated by ',' and closed by '}'. */
  function ParseFields(s: string): (r: Option<(seq<Field>, string)>)
    ensures r.Some? ==> |r.value.1| < |s|
    decreases |s|, 3
  {
    match ParseField(s)
    case None => None
    case Some((f, rest)) =>
      if StartsWith(rest, "}") then Some(([f], rest[1..]))
      else if StartsWith(rest, ",") then
        match ParseFields(rest[1..])
        case None => None
        case Some((fs, rest')) => Some(([f] + fs, rest'))
      else None
  }

  /** `JSON.parse(s)`: one whole value and nothing after it; `None` where `JSON.parse` throws. */
  function Decode(s: string): Option<Json> {
    match ParseValue(s)
    case None => None
    case Some((v, rest)) => if rest == [] then Some(v) else None
  }

  // ---------------------------------------------------------------- round trip

  /** What may follow a value inside an encoding: nothing, or the next separator or closing bracket. */
  predicate Delimited(rest: string) {
    |rest| == 0 || rest[0] == ',' || rest[0] == ']' || rest[0] == '}'
  }

  lemma HexRoundTrip(d: nat)
    requires d < 16
    ensures IsHex(HexDigit(d)) && HexValue(HexDigit(d)) == d
  {
  }

  lemma {:induction false} ParseEscapedChar(c: char, rest: string)
    ensures ParseChar(EscapeChar(c) + rest) == Some((c, rest))
  {
    var t := EscapeChar(c) + rest;
    if c < ' ' && c != '\U{8}' && c != '\t' && c != '\n' && c != '\U{C}' && c != '\r' {
      HexRoundTrip(c as int / 16);
      HexRoundTrip(c as int % 16);
      assert t[2] == '0' && t[3] == '0';
      assert t[6..] == rest;
    } else if c == '"' || c == '\\' || c == '\U{8}' || c == '\t' || c == '\n' || c == '\U{C}' || c == '\r' {
      assert t[2..] == rest;
    } else {
      assert t[1..] == rest;
    }
  }

  lemma {:induction false} ParseEscapedString(s: string, rest: string)
    ensures ParseStringBody(EscapeString(s) + "\"" + rest) == Some((s, rest))
  {
    var t := EscapeString(s) + "\"" + rest;
    if |s| == 0 {
      assert t[1..] == rest;
    } else {
      var tail := EscapeString(s[1..]) + "\"" + rest;
      assert t == EscapeChar(s[0]) + tail;
      ParseEscapedChar(s[0], tail);
      ParseEscapedString(s[1..], rest);
      assert [s[0]] + s[1..] == s;
    }
  }

  lemma {:induction false} ParseDigits(m: nat, rest: string)
    requires |rest| == 0 || !IsDigit(rest[0])
    ensures ParseNat(NatToString(m) + rest) == Some((m, rest))
  {
    var d := NatToString(m);
    var t := d + rest;
    LeadingCountOfPrefix(d, rest, IsDigit);
    assert t[..|d|] == d && t[|d|..] == rest;
    NatToStringValue(m);
  }

  lemma ParseNegative(m: nat, rest: string)
    requires Delimited(rest)
    ensures ParseNumber("-" + NatToString(m) + rest) == Some((JNum(-(m as int)), rest))
  {
    var t := NatToString(m) + rest;
    var s := "-" + t;
    assert "-" + NatToString(m) + rest == s;
    assert s[0] == '-' && s[1..] == t;
    ParseDigits(m, rest);
  }

  lemma ParseEncodedNumber(n: int, rest: string)
    requires Delimited(rest)
    ensures ParseNumber(IntToString(n) + rest) == Some((JNum(n), rest))
  {
    if n < 0 {
      var m: nat := -n;
      assert IntToString(n) + rest == "-" + NatToString(m) + rest;
      ParseNegative(m, rest);
    } else {
      assert NatToString(n)[0] != '-';
      ParseDigits(n, rest);
    }
  }

  lemma {:induction false} ParseEncoded(v: Json, rest: string)
    requires Delimited(rest)
    ensures ParseValue(Encode(v) + rest) == Some((v, rest))
    decreases v, 2
  {
    match v
    case JNull =>
      var s := Encode(v) + rest;
      assert s[..4] == "null" && s[4..] == rest;
    case JBool(b) =>
      var s := Encode(v) + rest;
      if b {
        assert s[..4] == "true" && s[4..] == rest;
      } else {
        assert s[..5] == "false" && s[5..] == rest;
      }
    case JNum(n) =>
      ParseEncodedInt(n, rest);
    case JStr(str) =>
      ParseEncodedStr(str, rest);
    case JArr(items) =>
      ParseEncodedArray(items, rest);
    case JObj(fields) =>
      ParseEncodedObject(fields, rest);
  }

  lemma ParseEncodedInt(n: int, rest: string)
    requires Delimited(rest)
    ensures ParseValue(Encode(JNum(n)) + rest) == Some((JNum(n), rest))
  {
    var s := Encode(JNum(n)) + rest;
    ParseEncodedNumber(n, rest);
    var m: nat := if n < 0 then -n else n;
    assert IsDigit(NatToString(m)[0]);
    assert s[0] == '-' || IsDigit(s[0]);
  }

  lemma ParseEncodedStr(str: string, rest: string)
    ensures ParseValue(Encode(JStr(str)) + rest) == Some((JStr(str), rest))
  {
    var s := Encode(JStr(str)) + rest;
    assert s[1..] == EscapeString(str) + "\"" + rest;
    ParseEscapedString(str, rest);
  }

  /** Parsing text that starts with `c` is parsing what follows `c` by the rule for `c`. */
  lemma ParseValueArray(t: string)
    ensures ParseValue("[" + t) == ParseArray(t)
  {
    assert ("[" + t)[0] == '[' && ("[" + t)[1..] == t;
  }

  lemma ParseValueObject(t: string)
    ensures ParseValue("{" + t) == ParseObject(t)
  {
    assert ("{" + t)[0] == '{' && ("{" + t)[1..] == t;
  }

  lemma EncodeArrayShape(items: seq<Json>, rest: string)
    ensures Encode(JArr(items)) + rest == "[" + (EncodeItems(items) + "]" + rest)
  {
  }

  lemma EncodeObjectShape(fields: seq<Field>, rest: string)
    ensures Encode(JObj(fields)) + rest == "{" + (EncodeFields(fields) + "}" + rest)
  {
  }

  lemma {:induction false} ParseEncodedArray(items: seq<Json>, rest: string)
    requires Delimited(rest)
    ensures ParseValue(Encode(JArr(items)) + rest) == Some((JArr(items), rest))
    decreases items, 1
  {
    var t := EncodeItems(items) + "]" + rest;
    EncodeArrayShape(items, rest);
    ParseValueArray(t);
    if |items| == 0 {
      assert t == "]" + rest;
      assert t[1..] == rest;
    } else {
      ParseEncodedItems(items, rest);
      ItemsDoNotStartWithBracket(items);
      assert t[0] == EncodeItems(items)[0];
    }
  }

  lemma {:induction false} ParseEncodedObject(fields: seq<Field>, rest: string)
    requires Delimited(rest)
    ensures ParseValue(Encode(JObj(fields)) + rest) == Some((JObj(fields), rest))
    decreases fields, 1
  {
    var t := EncodeFields(fields) + "}" + rest;
    EncodeObjectShape(fields, rest);
    ParseValueObject(t);
    if |fields| == 0 {
      assert t == "}" + rest;
      assert t[1..] == rest;
    } else {
      ParseEncodedFields(fields, rest);
      assert t[0] == EncodeFields(fields)[0] == '"';
    }
  }

  /** An encoding never starts with ']', so a non-empty array is not mistaken for `[]`. */
  lemma {:induction false} ItemsDoNotStartWithBracket(items: seq<Json>)
    requires |items| > 0
    ensures |EncodeItems(items)| > 0 && EncodeItems(items)[0] != ']'
  {
    EncodingStart(items[0]);
  }

  lemma EncodingStart(v: Json)
    ensures |Encode(v)| > 0 && Encode(v)[0] != ']'
  {
    if v.JNum? {
      var m: nat := if v.n < 0 then -v.n else v.n;
      assert |NatToString(m)| > 0 && IsDigit(NatToString(m)[0]);
    }
  }

  lemma ItemsLast(s: string, v: Json, rest: string)
    requires ParseValue(s) == Some((v, "]" + rest))
    ensures ParseItems(s) == Some(([v], rest))
  {
    assert ("]" + rest)[1..] == rest;
  }

  lemma ItemsMore(s: string, v: Json, u: string, vs: seq<Json>, rest: string)
    requires ParseValue(s) == Some((v, "," + u))
    requires ParseItems(u) == Some((vs, rest))
    ensures ParseItems(s) == Some(([v] + vs, rest))
  {
    assert ("," + u)[1..] == u;
  }

  lemma {:induction false} ParseEncodedItems(items: seq<Json>, rest: string)
    requires |items| > 0
    ensures ParseItems(EncodeItems(items) + "]" + rest) == Some((items, rest))
    decreases items, 0
  {
    if |items| == 1 {
      assert EncodeItems(items) + "]" + rest == Encode(items[0]) + ("]" + rest);
      ParseEncoded(items[0], "]" + rest);
      ItemsLast(Encode(items[0]) + ("]" + rest), items[0], rest);
      assert items == [items[0]];
    } else {
      var u := EncodeItems(items[1..]) + "]" + rest;
      assert EncodeItems(items) + "]" + rest == Encode(items[0]) + ("," + u);
      ParseEncoded(items[0], "," + u);
      ParseEncodedItems(items[1..], rest);
      ItemsMore(Encode(items[0]) + ("," + u), items[0], u, items[1..], rest);
      assert [items[0]] + items[1..] == items;
    }
  }

  lemma FieldOf(t: string, key: string, u: string, v: Json, rest: string)
    requires ParseStringBody(t) == Some((key, ":" + u))
    requires ParseValue(u) == Some((v, rest))
    ensures ParseField("\"" + t) == Some((Field(key, v), rest))
  {
    assert ("\"" + t)[0] == '"' && ("\"" + t)[1..] == t;
    assert (":" + u)[1..] == u;
  }

  lemma EncodeFieldShape(f: Field, rest: string)
    ensures EncodeField(f) + rest == "\"" + (EscapeString(f.key) + "\"" + (":" + (Encode(f.value) + rest)))
  {
  }

  lemma {:induction false} ParseEncodedField(f: Field, rest: string)
    requires Delimited(rest)
    ensures ParseField(EncodeField(f) + rest) == Some((f, rest))
    decreases f, 0
  {
    var u := Encode(f.value) + rest;
    var t := EscapeString(f.key) + "\"" + (":" + u);
    EncodeFieldShape(f, rest);
    ParseEscapedString(f.key, ":" + u);
    ParseEncoded(f.value, rest);
    FieldOf(t, f.key, u, f.value, rest);
  }

  lemma FieldsLast(s: string, f: Field, rest: string)
    requires ParseField(s) == Some((f, "}" + rest))
    ensures ParseFields(s) == Some(([f], rest))
  {
    assert ("}" + rest)[1..] == rest;
  }

  lemma FieldsMore(s: string, f: Field, u: string, fs: seq<Field>, rest: string)
    requires ParseField(s) == Some((f, "," + u))
    requires ParseFields(u) == Some((fs, rest))
    ensures ParseFields(s) == Some(([f] + fs, rest))
  {
    assert ("," + u)[1..] == u;
  }

  lemma {:induction false} ParseEncodedFields(fields: seq<Field>, rest: string)
    requires |fields| > 0
    ensures ParseFields(EncodeFields(fields) + "}" + rest) == Some((fields, rest))
    decreases fields, 0
  {
    if |fields| == 1 {
      assert EncodeFields(fields) + "}" + rest == EncodeField(fields[0]) + ("}" + rest);
      ParseEncodedField(fields[0], "}" + rest);
      FieldsLast(EncodeField(fields[0]) + ("}" + rest), fields[0], rest);
      assert fields == [fields[0]];
    } else {
      var u := EncodeFields(fields[1..]) + "}" + rest;
      assert EncodeFields(fields) + "}" + rest == EncodeField(fields[0]) + ("," + u);
      ParseEncodedField(fields[0], "," + u);
      ParseEncodedFields(fields[1..], rest);
      FieldsMore(EncodeField(fields[0]) + ("," + u), fields[0], u, fields[1..], rest);
      assert [fields[0]] + fields[1..] == fields;
    }
  }

  /** `JSON.parse(JSON.stringify(v))` gives back `v`. */
  lemma DecodeEncode(v: Json)
    ensures Decode(Encode(v)) == Some(v)
  {
    ParseEncoded(v, "");
    assert Encode(v) + "" == Encode(v);
  }

  /** No encoding is the empty string, so a stored encoding always reads as present. */
  lemma EncodeNonEmpty(v: Json)
    ensures Encode(v) != ""
  {
    EncodingStart(v);
  }
}
