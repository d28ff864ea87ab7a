/**
 * `JSON.stringify` and `JSON.parse` (RFC 8259) over `Js.JsValue`, as the codec
 * uses them.
 *
 * The serialiser writes the compact form `JSON.stringify` writes without an
 * indent: no whitespace, strings escaped with the short escapes for `"`, `\`,
 * backspace, form feed, newline, carriage return and tab and `\u00xx` for the
 * other control characters. Inside an array, `undefined` and functions are
 * written as `null`; inside an object, their members are left out. A String
 * object is written as its string and a class instance as its own fields.
 *
 * The parser accepts whitespace between tokens, the escapes above plus `\/`
 * and any `\uXXXX` that names a Unicode scalar value, and integer numbers.
 * A repeated member name keeps its first position and takes the last value.
 */
module Json {
  import opened Js
  import Text

  // ---------------------------------------------------------------------------
  // Serialiser

  /** A member whose value `JSON.stringify` drops from an object. */
  predicate Omitted(v: JsValue) {
    v.Undefined? || v.Func?
  }

  /** `JSON.stringify(v)`: never empty; an object is written in braces and a string in quotes. */
  function Stringify(v: JsValue): (r: string)
    ensures r != []
    ensures v.Obj? || v.Instance? ==> r[0] == '{' && r[|r| - 1] == '}'
    ensures v.Str? || v.StrObject? ==> r[0] == '"' && r[|r| - 1] == '"'
    decreases v
  {
    match v
    case Undefined => "null"
    case Null => "null"
    case Bool(b) => if b then "true" else "false"
    case Num(n) => Text.NumberText(n)
    case Str(s) => Quote(s)
    case StrObject(s) => Quote(s)
    case Arr(elems) => "[" + Elements(elems) + "]"
    case Obj(fields) => "{" + Members(fields) + "}"
    case Func(_) => "null"
    case Instance(_, fields) => "{" + Members(fields) + "}"
  }

  function Elements(elems: seq<JsValue>): string
    decreases elems
  {
    if elems == [] then ""
    else if |elems| == 1 then Stringify(elems[0])
    else Stringify(elems[0]) + "," + Elements(elems[1..])
  }

  function Members(fields: seq<Field>): string
    decreases fields
  {
    if fields == [] then ""
    else
      var rest := Members(fields[1..]);
      if Omitted(fields[0].value) then rest
      else if rest == "" then Member(fields[0])
      else Member(fields[0]) + "," + rest
  }

  function Member(f: Field): string
    decreases f
  {
    Quote(f.name) + ":" + Stringify(f.value)
  }

  function Quote(s: string): string {
    "\"" + EscapeString(s) + "\""
  }

  function EscapeString(s: string): string {
    if s == [] then "" else EscapeChar(s[0]) + EscapeString(s[1..])
  }

  function HexDigit(d: nat): char
    requires d < 16
  {
    if d < 10 then (('0' as int) + d) as char else (('a' as int) + d - 10) as char
  }

  function EscapeChar(c: char): string {
    if c == '"' then "\\\""
    else if c == '\\' then "\\\\"
    else if c == 8 as char then "\\b"
    else if c == '\t' then "\\t"
    else if c == '\n' then "\\n"
    else if c == 12 as char then "\\f"
    else if c == '\r' then "\\r"
    else if (c as int) < 0x20 then "\\u00" + [HexDigit((c as int) / 16), HexDigit((c as int) % 16)]
    else [c]
  }

  // ---------------------------------------------------------------------------
  // Parser: each function takes the remaining text and returns what it read and
  // the text after it, or None on a syntax error.

  predicate IsWs(c: char) {
    c == ' ' || c == '\t' || c == '\n' || c == '\r'
  }

  function SkipWs(s: string): (r: string)
    ensures |r| <= |s|
    ensures r == [] || !IsWs(r[0])
  {
    if s != [] && IsWs(s[0]) then SkipWs(s[1..]) else s
  }

  predicate IsHex(c: char) {
    Text.IsDigit(c) || 'a' <= c <= 'f' || 'A' <= c <= 'F'
  }

  function HexValue(c: char): (d: nat)
    requires IsHex(c)
    ensures d < 16
  {
    if Text.IsDigit(c) then Text.DigitValue(c)
    else if 'a' <= c <= 'f' then (c as int) - ('a' as int) + 10
    else (c as int) - ('A' as int) + 10
  }

  /** The character named by the text after a backslash. */
  function ParseEscape(s: string): (r: Option<(char, string)>)
    ensures r.Some? ==> |r.value.1| < |s|
  {
    if s == [] then None
    else if s[0] == '"' || s[0] == '\\' || s[0] == '/' then Some((s[0], s[1..]))
    else if s[0] == 'b' then Some((8 as char, s[1..]))
    else if s[0] == 'f' then Some((12 as char, s[1..]))
    else if s[0] == 'n' then Some(('\n', s[1..]))
    else if s[0] == 'r' then Some(('\r', s[1..]))
    else if s[0] == 't' then Some(('\t', s[1..]))
    else if s[0] == 'u' && |s| >= 5 && IsHex(s[1]) && IsHex(s[2]) && IsHex(s[3]) && IsHex(s[4]) then
      var code := HexValue(s[1]) * 4096 + HexValue(s[2]) * 256 + HexValue(s[3]) * 16 + HexValue(s[4]);
      if 0xD800 <= code < 0xE000 then None else Some((code as char, s[5..]))
    else None
  }

  /** The characters of a string literal up to its closing quote (the opening one is already read). */
  function ParseString(s: string): (r: Option<(string, string)>)
    ensures r.Some? ==> |r.value.1| < |s|
    decreases |s|
  {
    if s == [] then None
    else if s[0] == '"' then Some(([], s[1..]))
    else if (s[0] as int) < 0x20 then None
    else if s[0] == '\\' then
      match ParseEscape(s[1..])
      case None => None
      case Some((c, next)) =>
        match ParseString(next)
        case None => None
        case Some((t, rest)) => Some(([c] + t, rest))
    else
      match ParseString(s[1..])
      case None => None
      case Some((t, rest)) => Some(([s[0]] + t, rest))
  }

  /** The number of leading decimal digits. */
  function DigitRun(s: string): (k: nat)
    ensures k <= |s| && Text.AllDigits(s[..k])
    ensures k < |s| ==> !Text.IsDigit(s[k])
  {
    if s == [] || !Text.IsDigit(s[0]) then 0 else 1 + DigitRun(s[1..])
  }

  /** An integer: an optional minus, then `0` or digits not starting with `0`. */
  function ParseNumber(s: string): (r: Option<(JsValue, string)>)
    ensures r.Some? ==> |r.value.1| < |s|
  {
    var negative := s != [] && s[0] == '-';
    var d := if negative then s[1..] else s;
    var k := DigitRun(d);
    if k == 0 || (k > 1 && d[0] == '0') then None
    else
      var magnitude: int := Text.DigitsValue(d[..k]);
      Some((Num(if negative then -magnitude else magnitude), d[k..]))
  }

  function ParseValue(s: string): (r: Option<(JsValue, string)>)
    ensures r.Some? ==> |r.value.1| < |s|
    decreases |s|, 2
  {
    var t := SkipWs(s);
    if t == [] then None
    else if t[0] == 'n' then (if Text.StartsWith(t, "null") then Some((Null, t[4..])) else None)
    else if t[0] == 't' then (if Text.StartsWith(t, "true") then Some((Bool(true), t[4..])) else None)
    else if t[0] == 'f' then (if Text.StartsWith(t, "false") then Some((Bool(false), t[5..])) else None)
    else if t[0] == '"' then
      match ParseString(t[1..])
      case None => None
      case Some((str, rest)) => Some((Str(str), rest))
    else if t[0] == '[' then ParseArray(t[1..])
    else if t[0] == '{' then ParseObject(t[1..])
    else if t[0] == '-' || Text.IsDigit(t[0]) then ParseNumber(t)
    else None
  }

  /** An array after its `[`. */
  function ParseArray(s: string): (r: Option<(JsValue, string)>)
    ensures r.Some? ==> |r.value.1| < |s|
    decreases |s|, 4
  {
    var t := SkipWs(s);
    if t != [] && t[0] == ']' then Some((Arr([]), t[1..])) else ParseElementsFrom(s, [])
  }

  /** The elements of an array after `acc`, up to and including its `]`. */
  function ParseElementsFrom(s: string, acc: seq<JsValue>): (r: Option<(JsValue, string)>)
    ensures r.Some? ==> |r.value.1| < |s|
    decreases |s|, 3
  {
    match ParseValue(s)
    case None => None
    case Some((v, rest)) =>
      var u := SkipWs(rest);
      if u == [] then None
      else if u[0] == ',' then ParseElementsFrom(u[1..], acc + [v])
      else if u[0] == ']' then Some((Arr(acc + [v]), u[1..]))
      else None
  }

  /** An object after its `{`. */
  function ParseObject(s: string): (r: Option<(JsValue, string)>)
    ensures r.Some? ==> |r.value.1| < |s|
    decreases |s|, 4
  {
    var t := SkipWs(s);
    if t != [] && t[0] == '}' then Some((Obj([]), t[1..])) else ParseMembersFrom(s, [])
  }

  /** The members of an object after `acc`, up to and including its `}`. */
  function ParseMembersFrom(s: string, acc: seq<Field>): (r: Option<(JsValue, string)>)
    ensures r.Some? ==> |r.value.1| < |s|
    decreases |s|, 3
  {
    var t := SkipWs(s);
    if t == [] || t[0] != '"' then None
    else
      match ParseString(t[1..])
      case None => None
      case Some((name, afterName)) =>
        var u := SkipWs(afterName);
        if u == [] || u[0] != ':' then None
        else
          match ParseValue(u[1..])
          case None => None
          case Some((v, rest)) =>
            var w := SkipWs(rest);
            if w == [] then None
            else if w[0] == ',' then ParseMembersFrom(w[1..], Put(acc, name, v))
            else if w[0] == '}' then Some((Obj(Put(acc, name, v)), w[1..]))
            else None
  }

  /** `JSON.parse(s)`: one value, surrounded by optional whitespace. */
  function Parse(s: string): (r: Result<JsValue>)
    ensures r.Err? ==> r.error == SyntaxError
  {
    match ParseValue(s)
    case None => Err(SyntaxError)
    case Some((v, rest)) => if SkipWs(rest) == [] then Ok(v) else Err(SyntaxError)
  }

  /** An object whose first member does not start with `"` is not JSON: `{%22a%22:1}`, say. */
  lemma UnquotedMemberFails(rest: string)
    requires rest != [] && rest[0] != '"' && rest[0] != '}' && !IsWs(rest[0])
    ensures Parse("{" + rest).Err?
  {
    var s := "{" + rest;
    assert s[1..] == rest;
    assert ParseMembersFrom(rest, []) == None;
    assert ParseObject(rest) == None;
    assert ParseValue(s) == None;
  }

  // ---------------------------------------------------------------------------
  // Round trip

  /** A value `JSON.parse(JSON.stringify(v))` gives back: null, booleans, numbers, strings, arrays and well-formed plain objects of such values. */
  predicate JsonValue(v: JsValue)
    decreases v
  {
    match v
    case Null => true
    case Bool(_) => true
    case Num(_) => true
    case Str(_) => true
    case Arr(elems) => forall i :: 0 <= i < |elems| ==> JsonValue(elems[i])
    case Obj(fields) => DistinctNames(fields) && forall i :: 0 <= i < |fields| ==> JsonValue(fields[i].value)
    case _ => false
  }

  /** A field read from a JSON object is a JSON value, and so never a function. */
  lemma MemberJson(v: JsValue, name: string)
    ensures JsonValue(v) && HasOwnNamed(v, name) ==> v.Obj? && JsonValue(Lookup(v.fields, name).value)
  {
    if JsonValue(v) && HasOwnNamed(v, name) {
      LookupJson(v.fields, name);
    }
  }

  lemma {:induction false} LookupJson(fields: seq<Field>, name: string)
    requires name in Names(fields) && forall i :: 0 <= i < |fields| ==> JsonValue(fields[i].value)
    ensures JsonValue(Lookup(fields, name).value)
  {
    if fields[0].name != name {
      assert forall i :: 0 <= i < |fields[1..]| ==> fields[1..][i] == fields[i + 1];
      LookupJson(fields[1..], name);
    }
  }

  /** What may follow a value inside serialised text. */
  predicate Delimited(rest: string) {
    rest == [] || rest[0] == ',' || rest[0] == ']' || rest[0] == '}'
  }

  lemma {:induction false} EscapeCharParse(c: char, t: string)
    ensures ParseString(EscapeChar(c) + t) ==
      match ParseString(t)
      case None => None
      case Some((u, rest)) => Some(([c] + u, rest))
  {
    var s := EscapeChar(c) + t;
    if c == '"' || c == '\\' || (c as int) < 0x20 {
      EscapeSequenceParse(c, t);
      hide ParseEscape, EscapeChar;
    } else {
      assert s[0] == c && s[1..] == t;
    }
  }

  /** A character written as an escape sequence reads back from it. */
  lemma EscapeSequenceParse(c: char, t: string)
    requires c == '"' || c == '\\' || (c as int) < 0x20
    ensures var s := EscapeChar(c) + t;
      |s| > 1 && s[0] == '\\' && ParseEscape(s[1..]) == Some((c, t))
  {
    var e := EscapeChar(c);
    var s := e + t;
    if (c as int) < 0x20 && c != 8 as char && c != '\t' && c != '\n' && c != 12 as char && c != '\r' {
      var code := c as int;
      assert e == "\\u00" + [HexDigit(code / 16), HexDigit(code % 16)];
      assert s[1..] == ['u', '0', '0', HexDigit(code / 16), HexDigit(code % 16)] + t;
      assert HexValue(HexDigit(code / 16)) == code / 16;
      assert HexValue(HexDigit(code % 16)) == code % 16;
      assert s[1..][5..] == t;
    } else {
      assert s[1..][1..] == t;
    }
  }

  lemma {:induction false} EscapeStringParse(s: string, rest: string)
    ensures ParseString(EscapeString(s) + "\"" + rest) == Some((s, rest))
  {
    if s == [] {
      assert EscapeString(s) + "\"" + rest == "\"" + rest;
      assert ("\"" + rest)[1..] == rest;
    } else {
      EscapeStringParse(s[1..], rest);
      assert EscapeString(s) + "\"" + rest == EscapeChar(s[0]) + (EscapeString(s[1..]) + "\"" + rest);
      EscapeCharParse(s[0], EscapeString(s[1..]) + "\"" + rest);
      assert [s[0]] + s[1..] == s;
    }
  }

  lemma {:induction false} DigitRunOf(d: string, rest: string)
    requires Text.AllDigits(d)
    requires rest == [] || !Text.IsDigit(rest[0])
    ensures DigitRun(d + rest) == |d|
  {
    if d != [] {
      assert (d + rest)[1..] == d[1..] + rest;
      DigitRunOf(d[1..], rest);
    } else {
      assert d + rest == rest;
    }
  }

  lemma NumberParse(n: int, rest: string)
    requires rest == [] || !Text.IsDigit(rest[0])
    ensures ParseNumber(Text.NumberText(n) + rest) == Some((Num(n), rest))
  {
    var m: nat := if n < 0 then -n else n;
    var digits := Text.NatText(m);
    MagnitudeParse(m, rest);
    hide Text.NatText, Text.DigitsValue, DigitRun;
    var s := Text.NumberText(n) + rest;
    var negative := s != [] && s[0] == '-';
    var d := if negative then s[1..] else s;
    if n < 0 {
      assert s == "-" + (digits + rest);
      assert negative && d == digits + rest;
    } else {
      assert s == digits + rest && Text.IsDigit(digits[0]);
      assert !negative && d == digits + rest;
    }
    assert d[..|digits|] == (digits + rest)[..|digits|] && d[|digits|..] == rest;
  }

  /** The digits of a magnitude are one digit run, with no leading zero, worth the magnitude. */
  lemma MagnitudeParse(m: nat, rest: string)
    requires rest == [] || !Text.IsDigit(rest[0])
    ensures var digits := Text.NatText(m);
      DigitRun(digits + rest) == |digits| && (|digits| > 1 ==> digits[0] != '0')
      && Text.DigitsValue((digits + rest)[..|digits|]) == m && (digits + rest)[|digits|..] == rest
  {
    var digits := Text.NatText(m);
    DigitRunOf(digits, rest);
    Text.NatTextValue(m);
    assert (digits + rest)[..|digits|] == digits;
  }


  /** Serialised text is never empty and never starts with whitespace. */
  lemma StringifyStart(v: JsValue)
    ensures Stringify(v) != [] && !IsWs(Stringify(v)[0])
  {
    if v.Num? {
      var t := Text.NatText(if v.n < 0 then -v.n else v.n);
      assert Text.IsDigit(t[0]);
    }
  }

  /** `JSON.parse(JSON.stringify(v))` gives `v` back for every value that survives JSON, and stops where its text ends. */
  lemma {:induction false} ValueRoundTrip(v: JsValue, rest: string)
    requires JsonValue(v) && Delimited(rest)
    ensures ParseValue(Stringify(v) + rest) == Some((v, rest))
    decreases v, 1
  {
    match v
    case Arr(elems) => ArrayRoundTrip(elems, rest);
    case Obj(fields) => ObjectRoundTrip(fields, rest);
    case _ => ScalarRoundTrip(v, rest);
  }

  lemma ScalarRoundTrip(v: JsValue, rest: string)
    requires v.Null? || v.Bool? || v.Num? || v.Str?
    requires Delimited(rest)
    ensures ParseValue(Stringify(v) + rest) == Some((v, rest))
  {
    match v
    case Null => KeywordRoundTrip(v, rest);
    case Bool(_) => KeywordRoundTrip(v, rest);
    case Num(n) => NumberRoundTrip(n, rest);
    case Str(str) => StringRoundTrip(str, rest);
  }

  lemma KeywordRoundTrip(v: JsValue, rest: string)
    requires v.Null? || v.Bool?
    ensures ParseValue(Stringify(v) + rest) == Some((v, rest))
  {
    hide ParseString, ParseNumber, ParseArray, ParseObject, ParseElementsFrom, ParseMembersFrom;
    var s := Stringify(v) + rest;
    StringifyStart(v);
    assert SkipWs(s) == s;
    if v.Null? || v.b { assert s[4..] == rest; } else { assert s[5..] == rest; }
  }

  lemma NumberRoundTrip(n: int, rest: string)
    requires Delimited(rest)
    ensures ParseValue(Stringify(Num(n)) + rest) == Some((Num(n), rest))
  {
    hide ParseString, ParseNumber, ParseArray, ParseObject, ParseElementsFrom, ParseMembersFrom;
    var s := Stringify(Num(n)) + rest;
    StringifyStart(Num(n));
    assert SkipWs(s) == s;
    NumberParse(n, rest);
  }

  lemma StringRoundTrip(str: string, rest: string)
    requires Delimited(rest)
    ensures ParseValue(Stringify(Str(str)) + rest) == Some((Str(str), rest))
  {
    hide ParseString, ParseNumber, ParseArray, ParseObject, ParseElementsFrom, ParseMembersFrom;
    var s := Stringify(Str(str)) + rest;
    StringifyStart(Str(str));
    assert SkipWs(s) == s;
    assert s[1..] == EscapeString(str) + "\"" + rest;
    EscapeStringParse(str, rest);
  }

  // One parsing step each, so that the round-trip proofs need not unfold the parser.

  lemma ValueOfArray(x: string)
    ensures ParseValue("[" + x) == ParseArray(x)
  {
    assert ("[" + x)[1..] == x;
  }

  lemma ValueOfObject(x: string)
    ensures ParseValue("{" + x) == ParseObject(x)
  {
    assert ("{" + x)[1..] == x;
  }

  lemma ArrayEmpty(rest: string)
    ensures ParseArray("]" + rest) == Some((Arr([]), rest))
  {
    assert ("]" + rest)[1..] == rest;
  }

  lemma ArrayOfElements(x: string)
    requires x != [] && !IsWs(x[0]) && x[0] != ']'
    ensures ParseArray(x) == ParseElementsFrom(x, [])
  {
  }

  lemma ObjectEmpty(rest: string)
    ensures ParseObject("}" + rest) == Some((Obj([]), rest))
  {
    assert ("}" + rest)[1..] == rest;
  }

  lemma ObjectOfMembers(x: string)
    requires x != [] && x[0] == '"'
    ensures ParseObject(x) == ParseMembersFrom(x, [])
  {
  }

  lemma ElementsNext(x: string, v: JsValue, tail: string, acc: seq<JsValue>)
    requires ParseValue(x) == Some((v, "," + tail))
    ensures ParseElementsFrom(x, acc) == ParseElementsFrom(tail, acc + [v])
  {
    assert ("," + tail)[1..] == tail;
  }

  lemma ElementsLast(x: string, v: JsValue, rest: string, acc: seq<JsValue>)
    requires ParseValue(x) == Some((v, "]" + rest))
    ensures ParseElementsFrom(x, acc) == Some((Arr(acc + [v]), rest))
  {
    assert ("]" + rest)[1..] == rest;
  }

  lemma MemberNext(name: string, x: string, v: JsValue, tail: string, acc: seq<Field>)
    requires ParseValue(x) == Some((v, "," + tail))
    ensures ParseMembersFrom(Quote(name) + ":" + x, acc) == ParseMembersFrom(tail, Put(acc, name, v))
  {
    hide ParseValue, ParseString, ParseNumber, ParseArray, ParseObject, ParseElementsFrom, Stringify;
    var s := Quote(name) + ":" + x;
    assert SkipWs(s) == s;
    assert s[1..] == EscapeString(name) + "\"" + (":" + x);
    EscapeStringParse(name, ":" + x);
    var u := ":" + x;
    assert SkipWs(u) == u;
    assert u[1..] == x;
    assert ("," + tail)[1..] == tail;
  }

  lemma MemberLast(name: string, x: string, v: JsValue, rest: string, acc: seq<Field>)
    requires ParseValue(x) == Some((v, "}" + rest))
    ensures ParseMembersFrom(Quote(name) + ":" + x, acc) == Some((Obj(Put(acc, name, v)), rest))
  {
    hide ParseValue, ParseString, ParseNumber, ParseArray, ParseObject, ParseElementsFrom, Stringify;
    var s := Quote(name) + ":" + x;
    assert SkipWs(s) == s;
    assert s[1..] == EscapeString(name) + "\"" + (":" + x);
    EscapeStringParse(name, ":" + x);
    var u := ":" + x;
    assert SkipWs(u) == u;
    assert u[1..] == x;
    assert ("}" + rest)[1..] == rest;
  }

  lemma {:induction false} ArrayRoundTrip(elems: seq<JsValue>, rest: string)
    requires forall i :: 0 <= i < |elems| ==> JsonValue(elems[i])
    requires Delimited(rest)
    ensures ParseValue(Stringify(Arr(elems)) + rest) == Some((Arr(elems), rest))
    decreases Arr(elems), 0
  {
    hide ParseValue, ParseString, ParseNumber, ParseArray, ParseObject, ParseElementsFrom, ParseMembersFrom;
    var x := Elements(elems) + "]" + rest;
    assert Stringify(Arr(elems)) + rest == "[" + x;
    ValueOfArray(x);
    if elems == [] {
      assert x == "]" + rest;
      ArrayEmpty(rest);
    } else {
      StringifyStart(elems[0]);
      assert x[0] == Stringify(elems[0])[0];
      ArrayOfElements(x);
      assert ParseArray(x) == ParseElementsFrom(x, []);
      ElementsRoundTrip(elems, rest, []);
      assert [] + elems == elems;
      assert ParseElementsFrom(x, []) == Some((Arr(elems), rest));
    }
  }

  lemma {:induction false} ObjectRoundTrip(fields: seq<Field>, rest: string)
    requires DistinctNames(fields) && forall i :: 0 <= i < |fields| ==> JsonValue(fields[i].value)
    requires Delimited(rest)
    ensures ParseValue(Stringify(Obj(fields)) + rest) == Some((Obj(fields), rest))
    decreases Obj(fields), 0
  {
    hide ParseValue, ParseString, ParseNumber, ParseArray, ParseObject, ParseElementsFrom, ParseMembersFrom;
    var x := Members(fields) + "}" + rest;
    assert Stringify(Obj(fields)) + rest == "{" + x;
    ValueOfObject(x);
    if fields == [] {
      assert x == "}" + rest;
      ObjectEmpty(rest);
    } else {
      assert JsonValue(fields[0].value);
      MembersStart(fields);
      ObjectOfMembers(x);
      assert [] + fields == fields;
      MembersRoundTrip(fields, rest, []);
    }
  }

  lemma {:induction false} ElementsRoundTrip(elems: seq<JsValue>, rest: string, acc: seq<JsValue>)
    requires elems != []
    requires forall i :: 0 <= i < |elems| ==> JsonValue(elems[i])
    requires Delimited(rest)
    ensures ParseElementsFrom(Elements(elems) + "]" + rest, acc) == Some((Arr(acc + elems), rest))
    decreases elems, 0
  {
    if |elems| == 1 {
      ValueRoundTrip(elems[0], "]" + rest);
      ElementsOne(elems, rest, acc);
    } else {
      ValueRoundTrip(elems[0], "," + (Elements(elems[1..]) + "]" + rest));
      ElementsRoundTrip(elems[1..], rest, acc + [elems[0]]);
      ElementsStep(elems, rest, acc);
    }
  }

  lemma ElementsOne(elems: seq<JsValue>, rest: string, acc: seq<JsValue>)
    requires |elems| == 1
    requires ParseValue(Stringify(elems[0]) + ("]" + rest)) == Some((elems[0], "]" + rest))
    ensures ParseElementsFrom(Elements(elems) + "]" + rest, acc) == Some((Arr(acc + elems), rest))
  {
    hide ParseValue, ParseString, ParseNumber, ParseArray, ParseObject, ParseElementsFrom, ParseMembersFrom;
    assert Elements(elems) + "]" + rest == Stringify(elems[0]) + ("]" + rest);
    ElementsLast(Stringify(elems[0]) + ("]" + rest), elems[0], rest, acc);
    assert acc + elems == acc + [elems[0]];
  }

  lemma ElementsStep(elems: seq<JsValue>, rest: string, acc: seq<JsValue>)
    requires |elems| > 1
    requires var tail := Elements(elems[1..]) + "]" + rest;
      ParseValue(Stringify(elems[0]) + ("," + tail)) == Some((elems[0], "," + tail))
    requires ParseElementsFrom(Elements(elems[1..]) + "]" + rest, acc + [elems[0]]) == Some((Arr(acc + [elems[0]] + elems[1..]), rest))
    ensures ParseElementsFrom(Elements(elems) + "]" + rest, acc) == Some((Arr(acc + elems), rest))
  {
    hide ParseValue, ParseString, ParseNumber, ParseArray, ParseObject, ParseElementsFrom, ParseMembersFrom;
    var tail := Elements(elems[1..]) + "]" + rest;
    assert Elements(elems) + "]" + rest == Stringify(elems[0]) + ("," + tail);
    ElementsNext(Stringify(elems[0]) + ("," + tail), elems[0], tail, acc);
    assert acc + [elems[0]] + elems[1..] == acc + elems;
  }


  lemma {:induction false} MembersStart(fields: seq<Field>)
    requires fields != [] && !Omitted(fields[0].value)
    ensures Members(fields) != [] && Members(fields)[0] == '"'
  {
  }

  lemma {:induction false} FreshName(acc: seq<Field>, fields: seq<Field>)
    requires fields != [] && DistinctNames(acc + fields)
    ensures fields[0].name !in Names(acc)
    ensures DistinctNames(acc + [fields[0]] + fields[1..])
  {
    NamesIndex(acc, fields[0].name);
    forall i | 0 <= i < |acc|
      ensures acc[i].name != fields[0].name
    {
      assert (acc + fields)[i] == acc[i];
      assert (acc + fields)[|acc|] == fields[0];
    }
    assert acc + [fields[0]] + fields[1..] == acc + fields;
  }

  /** The text of the members that follow the first one, up to the end of the object. */
  function MembersTail(fields: seq<Field>, rest: string): string
    requires fields != []
  {
    if |fields| == 1 then "}" + rest else "," + (Members(fields[1..]) + "}" + rest)
  }

  lemma MembersShape(fields: seq<Field>, rest: string)
    requires fields != [] && !Omitted(fields[0].value)
    requires |fields| > 1 ==> !Omitted(fields[1].value)
    ensures Members(fields) + "}" + rest == Member(fields[0]) + MembersTail(fields, rest)
  {
    var m := Member(fields[0]);
    if |fields| > 1 {
      MembersStart(fields[1..]);
      var more := Members(fields[1..]);
      assert Members(fields) == m + "," + more;
      Text.Assoc(m, ",", more);
      Text.Assoc(m, "," + more, "}");
      Text.Assoc(m, "," + more + "}", rest);
      Text.Assoc(",", more, "}");
      Text.Assoc(",", more + "}", rest);
    }
  }

  /** Reading the first member of an object's text. */
  lemma {:induction false} FirstMember(fields: seq<Field>, rest: string, acc: seq<Field>)
    requires fields != [] && JsonValue(fields[0].value)
    requires |fields| > 1 ==> !Omitted(fields[1].value)
    requires fields[0].name !in Names(acc)
    requires Delimited(rest)
    ensures ParseMembersFrom(Members(fields) + "}" + rest, acc) ==
      if |fields| == 1 then Some((Obj(acc + fields), rest))
      else ParseMembersFrom(Members(fields[1..]) + "}" + rest, acc + [fields[0]])
    decreases fields, 0
  {
    var f := fields[0];
    var tail := MembersTail(fields, rest);
    var x := Stringify(f.value) + tail;
    var s := Members(fields) + "}" + rest;
    MembersShape(fields, rest);
    Text.Assoc(Quote(f.name) + ":", Stringify(f.value), tail);
    assert s == Quote(f.name) + ":" + x;
    ValueRoundTrip(f.value, tail);
    PutFresh(acc, f.name, f.value);
    assert f == Field(f.name, f.value);
    if |fields| == 1 {
      MemberLast(f.name, x, f.value, rest, acc);
      assert fields == [f];
    } else {
      MemberNext(f.name, x, f.value, Members(fields[1..]) + "}" + rest, acc);
    }
  }

  lemma {:induction false} MembersRoundTrip(fields: seq<Field>, rest: string, acc: seq<Field>)
    requires fields != []
    requires DistinctNames(acc + fields)
    requires forall i :: 0 <= i < |fields| ==> JsonValue(fields[i].value)
    requires Delimited(rest)
    ensures ParseMembersFrom(Members(fields) + "}" + rest, acc) == Some((Obj(acc + fields), rest))
    decreases fields, 1
  {
    assert JsonValue(fields[0].value);
    if |fields| > 1 {
      assert JsonValue(fields[1].value);
    }
    FreshName(acc, fields);
    FirstMember(fields, rest, acc);
    if |fields| > 1 {
      assert [fields[0]] + fields[1..] == fields;
      Text.Assoc(acc, [fields[0]], fields[1..]);
      MembersRoundTrip(fields[1..], rest, acc + [fields[0]]);
    }
  }

  /** `JSON.parse(JSON.stringify(v)) == v` for every value that survives JSON. */
  lemma RoundTrip(v: JsValue)
    requires JsonValue(v)
    ensures Parse(Stringify(v)) == Ok(v)
  {
    ValueRoundTrip(v, []);
    assert Stringify(v) + [] == Stringify(v);
  }
}
