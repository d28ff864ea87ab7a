/**
 * The browser's `btoa` and `atob`: base64 (section 4 of RFC 4648) over
 * "binary strings", whose characters are the bytes 0..255.
 *
 * `btoa` throws on a character above 0xFF. `atob` follows the forgiving
 * base64 decode of the HTML standard: ASCII whitespace is dropped, one or two
 * trailing `=` are dropped when the length is a multiple of four, a length of
 * 1 modulo 4 or a character outside the alphabet throws, and bits that do not
 * fill a byte are discarded.
 */
module Base64 {
  import opened Js

  predicate Latin1(s: string) {
    forall i :: 0 <= i < |s| ==> (s[i] as int) < 256
  }

  function Symbol(d: nat): (c: char)
    requires d < 64
    ensures IsSymbol(c) && SymbolValue(c) == d
  {
    if d < 26 then (('A' as int) + d) as char
    else if d < 52 then (('a' as int) + d - 26) as char
    else if d < 62 then (('0' as int) + d - 52) as char
    else if d == 62 then '+' else '/'
  }

  predicate IsSymbol(c: char) {
    'A' <= c <= 'Z' || 'a' <= c <= 'z' || '0' <= c <= '9' || c == '+' || c == '/'
  }

  function SymbolValue(c: char): (d: nat)
    requires IsSymbol(c)
    ensures d < 64
  {
    if 'A' <= c <= 'Z' then (c as int) - ('A' as int)
    else if 'a' <= c <= 'z' then (c as int) - ('a' as int) + 26
    else if '0' <= c <= '9' then (c as int) - ('0' as int) + 52
    else if c == '+' then 62 else 63
  }

  predicate AllSymbols(s: string) {
    forall i :: 0 <= i < |s| ==> IsSymbol(s[i])
  }

  // ---------------------------------------------------------------------------
  // Encoding

  // The four 6-bit values of a group of three bytes b0 b1 b2, and the three
  // bytes of a group of four 6-bit values c0 c1 c2 c3.

  function Sextet0(b0: int): (c: nat) requires 0 <= b0 < 256 ensures c < 64 { b0 / 4 }
  function Sextet1(b0: int, b1: int): (c: nat) requires 0 <= b0 < 256 && 0 <= b1 < 256 ensures c < 64 { (b0 % 4) * 16 + b1 / 16 }
  function Sextet2(b1: int, b2: int): (c: nat) requires 0 <= b1 < 256 && 0 <= b2 < 256 ensures c < 64 { (b1 % 16) * 4 + b2 / 64 }
  function Sextet3(b2: int): (c: nat) requires 0 <= b2 < 256 ensures c < 64 { b2 % 64 }

  function Byte0(c0: nat, c1: nat): (b: char) requires c0 < 64 && c1 < 64 ensures (b as int) < 256 { (c0 * 4 + c1 / 16) as char }
  function Byte1(c1: nat, c2: nat): (b: char) requires c1 < 64 && c2 < 64 ensures (b as int) < 256 { ((c1 % 16) * 16 + c2 / 4) as char }
  function Byte2(c2: nat, c3: nat): (b: char) requires c2 < 64 && c3 < 64 ensures (b as int) < 256 { ((c2 % 4) * 64 + c3) as char }

  /** The symbols of `s`, three bytes to four symbols; a last group of one or two bytes gives two or three symbols. */
  function EncodeSymbols(s: string): (r: string)
    requires Latin1(s)
    ensures AllSymbols(r)
    ensures |r| == 4 * (|s| / 3) + (if |s| % 3 == 0 then 0 else |s| % 3 + 1)
  {
    if s == [] then ""
    else
      var b0 := s[0] as int;
      if |s| == 1 then [Symbol(Sextet0(b0)), Symbol(Sextet1(b0, 0))]
      else
        var b1 := s[1] as int;
        if |s| == 2 then [Symbol(Sextet0(b0)), Symbol(Sextet1(b0, b1)), Symbol(Sextet2(b1, 0))]
        else
          var b2 := s[2] as int;
          [Symbol(Sextet0(b0)), Symbol(Sextet1(b0, b1)), Symbol(Sextet2(b1, b2)), Symbol(Sextet3(b2))]
            + EncodeSymbols(s[3..])
  }

  function Padding(n: nat): string {
    if n % 3 == 1 then "==" else if n % 3 == 2 then "=" else ""
  }

  function Encode(s: string): (r: string)
    requires Latin1(s)
    ensures |r| % 4 == 0
  {
    EncodeSymbols(s) + Padding(|s|)
  }

  /** `btoa(s)` */
  function Btoa(s: string): (r: Result<string>)
    ensures r.Ok? <==> Latin1(s)
    ensures r.Err? ==> r.error == InvalidCharacter
  {
    if Latin1(s) then Ok(Encode(s)) else Err(InvalidCharacter)
  }

  // ---------------------------------------------------------------------------
  // Decoding

  predicate IsAsciiWhitespace(c: char) {
    c == ' ' || c == '\t' || c == '\n' || c == '\r' || c == 12 as char
  }

  function RemoveWhitespace(s: string): string {
    if s == [] then ""
    else if IsAsciiWhitespace(s[0]) then RemoveWhitespace(s[1..])
    else [s[0]] + RemoveWhitespace(s[1..])
  }

  function StripPadding(s: string): string {
    if |s| % 4 != 0 then s
    else if |s| >= 2 && s[|s| - 2..] == "==" then s[..|s| - 2]
    else if |s| >= 1 && s[|s| - 1] == '=' then s[..|s| - 1]
    else s
  }

  /** The bytes of a run of symbols, four symbols to three bytes; a last group of two or three symbols gives one or two bytes. */
  function DecodeSymbols(s: string): (r: string)
    requires AllSymbols(s) && |s| % 4 != 1
    ensures Latin1(r)
  {
    if s == [] then ""
    else
      var c0, c1 := SymbolValue(s[0]), SymbolValue(s[1]);
      if |s| == 2 then [Byte0(c0, c1)]
      else
        var c2 := SymbolValue(s[2]);
        if |s| == 3 then [Byte0(c0, c1), Byte1(c1, c2)]
        else
          var c3 := SymbolValue(s[3]);
          [Byte0(c0, c1), Byte1(c1, c2), Byte2(c2, c3)] + DecodeSymbols(s[4..])
  }

  /** `atob(s)` */
  function Atob(s: string): (r: Result<string>)
    ensures r.Err? ==> r.error == InvalidCharacter
    ensures r.Ok? ==> Latin1(r.value)
  {
    var t := StripPadding(RemoveWhitespace(s));
    if |t| % 4 == 1 || !AllSymbols(t) then Err(InvalidCharacter) else Ok(DecodeSymbols(t))
  }

  // ---------------------------------------------------------------------------
  // Round trip

  lemma Byte0RoundTrip(b0: int, b1: int)
    requires 0 <= b0 < 256 && 0 <= b1 < 256
    ensures Byte0(Sextet0(b0), Sextet1(b0, b1)) as int == b0
  {
  }

  lemma Byte1RoundTrip(b0: int, b1: int, b2: int)
    requires 0 <= b0 < 256 && 0 <= b1 < 256 && 0 <= b2 < 256
    ensures Byte1(Sextet1(b0, b1), Sextet2(b1, b2)) as int == b1
  {
    var hi, lo := b1 / 16, b1 % 16;
    Digits16((b0 % 4) * 16 + hi, b0 % 4, hi);
    Digits4(lo * 4 + b2 / 64, lo, b2 / 64);
  }

  /** Splitting `x == q * 16 + r` with `0 <= r < 16` gives back the quotient and the remainder. */
  lemma Digits16(x: int, q: int, r: int)
    requires 0 <= r < 16 && x == q * 16 + r
    ensures x / 16 == q && x % 16 == r
  {
  }

  /** Splitting `x == q * 4 + r` with `0 <= r < 4` gives back the quotient and the remainder. */
  lemma Digits4(x: int, q: int, r: int)
    requires 0 <= r < 4 && x == q * 4 + r
    ensures x / 4 == q && x % 4 == r
  {
  }

  lemma Byte2RoundTrip(b1: int, b2: int)
    requires 0 <= b1 < 256 && 0 <= b2 < 256
    ensures Byte2(Sextet2(b1, b2), Sextet3(b2)) as int == b2
  {
  }

  /** One group of at most three bytes survives encoding and decoding. */
  lemma GroupDecodeEncode(s: string)
    requires Latin1(s) && 1 <= |s| <= 3
    ensures DecodeSymbols(EncodeSymbols(s)) == s
  {
    if |s| == 1 {
      OneByte(s);
    } else if |s| == 2 {
      TwoBytes(s);
    } else {
      ThreeBytes(s);
    }
  }

  lemma OneByte(s: string)
    requires Latin1(s) && |s| == 1
    ensures DecodeSymbols(EncodeSymbols(s)) == s
  {
    var b0 := s[0] as int;
    Byte0RoundTrip(b0, 0);
    assert DecodeSymbols(EncodeSymbols(s)) == [Byte0(Sextet0(b0), Sextet1(b0, 0))];
  }

  lemma TwoBytes(s: string)
    requires Latin1(s) && |s| == 2
    ensures DecodeSymbols(EncodeSymbols(s)) == s
  {
    var b0, b1 := s[0] as int, s[1] as int;
    Byte0RoundTrip(b0, b1);
    Byte1RoundTrip(b0, b1, 0);
    assert DecodeSymbols(EncodeSymbols(s)) == [Byte0(Sextet0(b0), Sextet1(b0, b1)), Byte1(Sextet1(b0, b1), Sextet2(b1, 0))];
    assert s == [s[0], s[1]];
  }

  lemma ThreeBytes(s: string)
    requires Latin1(s) && |s| == 3
    ensures DecodeSymbols(EncodeSymbols(s)) == s
  {
    var b0, b1, b2 := s[0] as int, s[1] as int, s[2] as int;
    Byte0RoundTrip(b0, b1);
    Byte1RoundTrip(b0, b1, b2);
    Byte2RoundTrip(b1, b2);
    var e := EncodeSymbols(s);
    assert EncodeSymbols(s[3..]) == [];
    assert e[4..] == [];
    assert DecodeSymbols(e) == [Byte0(Sextet0(b0), Sextet1(b0, b1)), Byte1(Sextet1(b0, b1), Sextet2(b1, b2)), Byte2(Sextet2(b1, b2), Sextet3(b2))];
    assert s == [s[0], s[1], s[2]];
  }

  lemma EncodeSplit(s: string)
    requires Latin1(s) && |s| > 3
    ensures EncodeSymbols(s) == EncodeSymbols(s[..3]) + EncodeSymbols(s[3..])
  {
    assert s[..3][3..] == [];
    assert s[..3][0] == s[0] && s[..3][1] == s[1] && s[..3][2] == s[2];
  }

  lemma DecodeSplit(q: string, t: string)
    requires |q| == 4 && AllSymbols(q) && AllSymbols(t) && |t| % 4 != 1
    ensures AllSymbols(q + t) && |q + t| % 4 != 1
    ensures DecodeSymbols(q + t) == DecodeSymbols(q) + DecodeSymbols(t)
  {
    assert (q + t)[4..] == t;
    assert q[4..] == [];
    assert forall i :: 0 <= i < |q + t| ==> (q + t)[i] == if i < 4 then q[i] else t[i - 4];
  }

  lemma SymbolsLength(s: string)
    requires Latin1(s)
    ensures |EncodeSymbols(s)| % 4 != 1
  {
    var n := |s|;
    assert |EncodeSymbols(s)| == 4 * (n / 3) + (if n % 3 == 0 then 0 else n % 3 + 1);
  }

  lemma {:induction false} DecodeEncodeSymbols(s: string)
    requires Latin1(s)
    ensures DecodeSymbols(EncodeSymbols(s)) == s
  {
    if 1 <= |s| <= 3 {
      GroupDecodeEncode(s);
    } else if |s| > 3 {
      var head, tail := s[..3], s[3..];
      var q, t := EncodeSymbols(head), EncodeSymbols(tail);
      EncodeSplit(s);
      assert |q| == 4;
      SymbolsLength(tail);
      DecodeSplit(q, t);
      GroupDecodeEncode(head);
      DecodeEncodeSymbols(tail);
      assert DecodeSymbols(EncodeSymbols(s)) == head + tail;
      assert s == head + tail;
    }
  }

  lemma {:induction false} NoWhitespace(s: string)
    requires forall i :: 0 <= i < |s| ==> !IsAsciiWhitespace(s[i])
    ensures RemoveWhitespace(s) == s
  {
    if s != [] {
      NoWhitespace(s[1..]);
      assert [s[0]] + s[1..] == s;
    }
  }

  lemma EncodedHasNoWhitespace(s: string)
    requires Latin1(s)
    ensures RemoveWhitespace(Encode(s)) == Encode(s)
  {
    var body := EncodeSymbols(s);
    var e := Encode(s);
    forall i | 0 <= i < |e|
      ensures !IsAsciiWhitespace(e[i])
    {
      if i < |body| {
        assert IsSymbol(body[i]);
      }
    }
    NoWhitespace(e);
  }

  lemma StripEncodedPadding(s: string)
    requires Latin1(s)
    ensures StripPadding(Encode(s)) == EncodeSymbols(s)
  {
    var body := EncodeSymbols(s);
    var e := Encode(s);
    if |s| % 3 == 1 {
      assert e[|e| - 2..] == "==";
      assert e[..|e| - 2] == body;
    } else if |s| % 3 == 2 {
      assert e[|e| - 1] == '=';
      assert e[..|e| - 1] == body;
      assert e[|e| - 2] == body[|body| - 1];
      assert IsSymbol(body[|body| - 1]);
    } else {
      assert e == body;
      if |e| > 0 {
        assert IsSymbol(e[|e| - 1]);
      }
    }
  }

  /** `atob(btoa(s)) == s` for every binary string. */
  lemma RoundTrip(s: string)
    requires Latin1(s)
    ensures Btoa(s) == Ok(Encode(s)) && Atob(Encode(s)) == Ok(s)
  {
    EncodedHasNoWhitespace(s);
    StripEncodedPadding(s);
    SymbolsLength(s);
    DecodeEncodeSymbols(s);
  }
}
