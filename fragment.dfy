/**
 * What the browser does to a string assigned to `window.location.hash`. The
 * setter of the HTML Standard's Location interface drops one leading `#`;
 * the URL Standard's basic URL parser then removes every ASCII tab and
 * newline and, in the fragment state, UTF-8 percent-encodes every code
 * point of the fragment percent-encode set (the C0 controls, space, `"`,
 * `<`, `>`, backquote, and every code point above `~`). Reading
 * `location.hash` back gives that text after its `#`; nothing decodes it.
 */
module Fragment {
  /** A code point of the fragment percent-encode set. */
  predicate Escaped(c: char) {
    c <= ' ' || c == '"' || c == '<' || c == '>' || c == '`' || c > '~'
  }

  /** An ASCII tab or newline, which the URL parser removes. */
  predicate Removed(c: char) {
    c == '\t' || c == '\n' || c == '\r'
  }

  /** Text that starts with `#`, which the hash setter drops. */
  predicate HashLed(s: string) {
    s != [] && s[0] == '#'
  }

  /** Text that holds nothing the percent-encoding changes. */
  predicate Kept(s: string) {
    forall i :: 0 <= i < |s| ==> !Escaped(s[i])
  }

  /** The UTF-8 bytes of a code point. */
  function Utf8(c: char): (r: seq<nat>)
    ensures 1 <= |r| <= 4
    ensures forall i :: 0 <= i < |r| ==> r[i] < 256
    ensures (c as int < 0x80) <==> r == [c as int]
  {
    var n := c as int;
    if n < 0x80 then [n]
    else if n < 0x800 then [0xC0 + n / 64, 0x80 + n % 64]
    else if n < 0x1_0000 then [0xE0 + n / 4096, 0x80 + (n / 64) % 64, 0x80 + n % 64]
    else [0xF0 + n / 262144, 0x80 + (n / 4096) % 64, 0x80 + (n / 64) % 64, 0x80 + n % 64]
  }

  function HexDigit(d: nat): (c: char)
    requires d < 16
    ensures !Escaped(c)
  {
    "0123456789ABCDEF"[d]
  }

  /** `%XX` for each byte, with upper-case hex digits. */
  function Percent(bytes: seq<nat>): (r: string)
    requires forall i :: 0 <= i < |bytes| ==> bytes[i] < 256
    ensures |r| == 3 * |bytes|
    ensures bytes != [] ==> r[0] == '%'
    ensures Kept(r)
  {
    if bytes == [] then []
    else
      var head := "%" + [HexDigit(bytes[0] / 16), HexDigit(bytes[0] % 16)];
      var tail := Percent(bytes[1..]);
      KeptConcat(head, tail);
      head + tail
  }

  function EncodeChar(c: char): (r: string)
    ensures Kept(r)
    ensures Escaped(c) ==> |r| >= 3
    ensures !Escaped(c) ==> r == [c]
  {
    if Escaped(c) then Percent(Utf8(c)) else [c]
  }

  /** The percent-encoding of the fragment state. */
  function Encode(s: string): (r: string)
    ensures |r| >= |s|
    ensures Kept(r)
  {
    if s == [] then [] else EncodeChar(s[0]) + Encode(s[1..])
  }

  /** Text without its ASCII tabs and newlines. */
  function RemoveTabNewline(s: string): (r: string)
    ensures |r| <= |s|
  {
    if s == [] then []
    else (if Removed(s[0]) then [] else [s[0]]) + RemoveTabNewline(s[1..])
  }

  /** The fragment a string assigned to `location.hash` becomes. */
  function Assign(s: string): (r: string)
    ensures Kept(r)
  {
    Encode(RemoveTabNewline(if HashLed(s) then s[1..] else s))
  }

  /** Text without tabs and newlines loses nothing to their removal. */
  lemma {:induction false} NothingRemoved(s: string)
    requires forall i :: 0 <= i < |s| ==> !Removed(s[i])
    ensures RemoveTabNewline(s) == s
  {
    if s != [] {
      assert forall i :: 0 <= i < |s[1..]| ==> s[1..][i] == s[i + 1];
      NothingRemoved(s[1..]);
    }
  }

  /** Without a leading `#`, a tab or a newline, assigning is percent-encoding. */
  lemma AssignIsEncode(s: string)
    requires !HashLed(s)
    requires forall i :: 0 <= i < |s| ==> !Removed(s[i])
    ensures Assign(s) == Encode(s)
  {
    NothingRemoved(s);
  }

  /**
   * The browser keeps an assigned text exactly when it holds nothing the
   * percent-encoding changes (so no tab or newline either) and does not
   * start with `#`.
   */
  lemma AssignUnchanged(s: string)
    ensures Assign(s) == s <==> Kept(s) && !HashLed(s)
  {
    if Kept(s) {
      var t := if HashLed(s) then s[1..] else s;
      assert forall i :: 0 <= i < |t| ==> !Escaped(t[i]) by {
        if HashLed(s) {
          assert forall i :: 0 <= i < |s[1..]| ==> s[1..][i] == s[i + 1];
        }
      }
      NothingRemoved(t);
      KeptIsUnchanged(t);
    }
  }

  /** `#a=v` is stored as `a=v`. */
  lemma LeadingHashDropped()
    ensures Assign("#a=v") == "a=v"
  {
    assert ("#a=v")[1..] == "a=v";
    NothingRemoved("a=v");
    KeptIsUnchanged("a=v");
  }

  /** A newline is removed, not percent-encoded. */
  lemma NewlineRemoved()
    ensures Assign("a\n=v") == "a=v"
  {
    assert RemoveTabNewline("a\n=v") == "a" + RemoveTabNewline("\n=v");
    assert RemoveTabNewline("\n=v") == RemoveTabNewline("=v");
    NothingRemoved("=v");
    KeptIsUnchanged("a=v");
  }

  /** The percent-encoding leaves a text as it is exactly when no code point of it is encoded. */
  lemma {:induction false} KeptIsUnchanged(s: string)
    ensures Encode(s) == s <==> Kept(s)
    ensures !Kept(s) ==> |Encode(s)| > |s|
  {
    if s != [] {
      KeptIsUnchanged(s[1..]);
      assert Kept(s) <==> !Escaped(s[0]) && Kept(s[1..]) by {
        if Kept(s) {
          assert forall i :: 0 <= i < |s[1..]| ==> s[1..][i] == s[i + 1];
        }
        if !Escaped(s[0]) && Kept(s[1..]) {
          forall i | 0 <= i < |s|
            ensures !Escaped(s[i])
          {
            if i > 0 {
              assert s[i] == s[1..][i - 1];
            }
          }
        }
      }
    }
  }

  /** Percent-encoding the encoded text again changes nothing. */
  lemma Idempotent(s: string)
    ensures Encode(Encode(s)) == Encode(s)
  {
    KeptIsUnchanged(Encode(s));
  }

  lemma {:induction false} KeptConcat(a: string, b: string)
    ensures Kept(a + b) <==> Kept(a) && Kept(b)
  {
    if Kept(a + b) {
      forall i | 0 <= i < |a| ensures !Escaped(a[i]) { assert a[i] == (a + b)[i]; }
      forall i | 0 <= i < |b| ensures !Escaped(b[i]) { assert b[i] == (a + b)[|a| + i]; }
    }
  }

  /** A double quote is written as `%22`. */
  lemma QuoteEncoded()
    ensures Encode("\"") == "%22"
  {
    assert Utf8('"') == [34];
    assert Percent([34]) == "%" + [HexDigit(2), HexDigit(2)] + Percent([]);
  }

  /** A space is written as `%20`. */
  lemma SpaceEncoded()
    ensures Encode(" ") == "%20"
  {
    assert Utf8(' ') == [32];
    assert Percent([32]) == "%" + [HexDigit(2), HexDigit(0)] + Percent([]);
  }

  lemma {:induction false} EncodeConcat(a: string, b: string)
    ensures Encode(a + b) == Encode(a) + Encode(b)
  {
    if a == [] {
      assert a + b == b;
    } else {
      assert (a + b)[0] == a[0] && (a + b)[1..] == a[1..] + b;
      EncodeConcat(a[1..], b);
      assert Encode(a + b) == EncodeChar(a[0]) + (Encode(a[1..]) + Encode(b));
    }
  }

  /** Two double quotes in otherwise kept text are each written as `%22`. */
  lemma QuotesEncoded(a: string, b: string, c: string)
    requires Kept(a) && Kept(b) && Kept(c)
    ensures Encode(a + "\"" + b + "\"" + c) == a + "%22" + b + "%22" + c
  {
    var q := "\"";
    EncodeConcat(a + q + b + q, c);
    EncodeConcat(a + q + b, q);
    EncodeConcat(a + q, b);
    EncodeConcat(a, q);
    KeptIsUnchanged(a);
    KeptIsUnchanged(b);
    KeptIsUnchanged(c);
    QuoteEncoded();
  }
}
