/**
 * The extra escaping the hash storages apply to stored text, so that `&`
 * and `=` (and, in the URL hash, `{`, `}`, `"` and `:`) never appear in a
 * hash value: each such character is written as an escape text framed by
 * `@` (`&` as `@A@`, `=` as `@E@`, ...).
 *
 * The source escapes with one `replaceAll` per character and unescapes with
 * one `replaceAll` per escape text, in the same order. Escaping that way is
 * the same as escaping each character on its own; unescaping that way is not
 * the inverse, as a later escape text can be formed across the boundary of
 * an earlier replacement. `Unescape` reads the text once, left to right.
 */
module HashBindings {
  import opened Js
  import Text
  import Fragment

  /** A character and the escape text that stands for it. */
  datatype Binding = Binding(plain: char, escaped: string)

  const URL_BINDINGS: seq<Binding> := [
    Binding('&', "@A@"), Binding('=', "@E@"), Binding('{', "@LS@"),
    Binding('}', "@RS@"), Binding('"', "@Q@"), Binding(':', "@C@")]

  const SITE_BINDINGS: seq<Binding> := [Binding('&', "@A@"), Binding('=', "@E@")]

  const MARK := '@'

  /** The characters escape texts are made of: `@` and capital letters. */
  predicate EscapeTextChar(c: char) {
    c == MARK || 'A' <= c <= 'Z'
  }

  /** An escape text: `@`, one or more capital letters, `@`. */
  predicate Framed(e: string) {
    |e| >= 3 && e[0] == MARK && e[|e| - 1] == MARK && forall i :: 1 <= i < |e| - 1 ==> 'A' <= e[i] <= 'Z'
  }

  predicate AllFramed(bs: seq<Binding>) {
    forall b | b in bs :: Framed(b.escaped)
  }

  /**
   * Bindings that can be undone: framed escape texts, bound characters that
   * cannot occur in an escape text, and no character or escape text bound
   * twice.
   */
  predicate WellFormed(bs: seq<Binding>) {
    (forall b | b in bs :: Framed(b.escaped) && !EscapeTextChar(b.plain))
    && (forall i, j :: 0 <= i < j < |bs| ==> bs[i].plain != bs[j].plain && bs[i].escaped != bs[j].escaped)
  }

  lemma BindingsWellFormed()
    ensures WellFormed(URL_BINDINGS) && WellFormed(SITE_BINDINGS)
  {
    forall b | b in URL_BINDINGS
      ensures Framed(b.escaped) && !EscapeTextChar(b.plain)
    {
      FramedSample(b);
    }
    forall i, j | 0 <= i < j < |URL_BINDINGS|
      ensures URL_BINDINGS[i].plain != URL_BINDINGS[j].plain && URL_BINDINGS[i].escaped != URL_BINDINGS[j].escaped
    {
      assert URL_BINDINGS[i].escaped[1] != URL_BINDINGS[j].escaped[1];
    }
    assert SITE_BINDINGS == URL_BINDINGS[..2];
  }

  lemma FramedSample(b: Binding)
    requires b in URL_BINDINGS
    ensures Framed(b.escaped) && !EscapeTextChar(b.plain)
  {
    var k :| 0 <= k < |URL_BINDINGS| && URL_BINDINGS[k] == b;
    if k == 0 {} else if k == 1 {} else if k == 2 {} else if k == 3 {} else if k == 4 {} else {}
  }

  lemma WellFormedTail(bs: seq<Binding>)
    requires WellFormed(bs) && bs != []
    ensures WellFormed(bs[1..])
    ensures forall b | b in bs[1..] :: b.plain != bs[0].plain && b.escaped != bs[0].escaped
  {
    forall i, j | 0 <= i < j < |bs[1..]|
      ensures bs[1..][i].plain != bs[1..][j].plain && bs[1..][i].escaped != bs[1..][j].escaped
    {
      assert bs[1..][i] == bs[i + 1] && bs[1..][j] == bs[j + 1];
    }
    forall b | b in bs[1..]
      ensures b.plain != bs[0].plain && b.escaped != bs[0].escaped
    {
      var k :| 0 <= k < |bs[1..]| && bs[1..][k] == b;
      assert bs[k + 1] == b;
    }
  }

  /** Every character of an escape text is an escape-text character. */
  lemma FramedChars(e: string)
    requires Framed(e)
    ensures forall k :: 0 <= k < |e| ==> EscapeTextChar(e[k])
  {
  }

  // ---------------------------------------------------------------------------
  // Escaping

  /** `encodeHashBindings` on a string: one `replaceAll` per binding, in order. */
  function Escape(bs: seq<Binding>, s: string): string
    requires AllFramed(bs)
  {
    if bs == [] then s
    else
      assert Framed(bs[0].escaped);
      Escape(bs[1..], Text.ReplaceAll(s, [bs[0].plain], bs[0].escaped))
  }

  /** What one character becomes: the escape text of its binding, or itself. */
  function EscapeChar(bs: seq<Binding>, c: char): (r: string)
    requires AllFramed(bs)
    ensures r != []
    ensures (forall b | b in bs :: b.plain != c) ==> r == [c]
    ensures (exists b :: b in bs && b.plain == c) ==> exists b :: b in bs && b.plain == c && r == b.escaped
  {
    if bs == [] then [c]
    else if bs[0].plain == c then bs[0].escaped
    else
      var r := EscapeChar(bs[1..], c);
      assert forall b | b in bs[1..] :: b in bs;
      r
  }

  /** Every character escaped on its own. */
  function EscapeEach(bs: seq<Binding>, s: string): string
    requires AllFramed(bs)
  {
    if s == [] then [] else EscapeChar(bs, s[0]) + EscapeEach(bs, s[1..])
  }

  lemma {:induction false} EscapeEachConcat(bs: seq<Binding>, a: string, b: string)
    requires AllFramed(bs)
    ensures EscapeEach(bs, a + b) == EscapeEach(bs, a) + EscapeEach(bs, b)
  {
    if a != [] {
      assert (a + b)[1..] == a[1..] + b;
      EscapeEachConcat(bs, a[1..], b);
    } else {
      assert a + b == b;
    }
  }

  /** Text made of escape-text characters is its own escape. */
  lemma {:induction false} EscapeEachUnbound(bs: seq<Binding>, t: string)
    requires WellFormed(bs)
    requires forall k :: 0 <= k < |t| ==> EscapeTextChar(t[k])
    ensures EscapeEach(bs, t) == t
  {
    if t != [] {
      assert EscapeTextChar(t[0]);
      EscapeEachUnbound(bs, t[1..]);
    }
  }

  /** `replaceAll` of one character is a one-binding escape. */
  lemma {:induction false} ReplaceOne(s: string, b: Binding)
    requires Framed(b.escaped)
    ensures Text.ReplaceAll(s, [b.plain], b.escaped) == EscapeEach([b], s)
    decreases |s|
  {
    if s != [] {
      ReplaceOne(s[1..], b);
      if s[..1] == [b.plain] {
        assert s[0] == b.plain;
      } else {
        assert s[0] != b.plain;
      }
    }
  }

  /** Escaping by the first binding, then by the rest, escapes by all of them. */
  lemma {:induction false} EscapeFirstThenRest(bs: seq<Binding>, s: string)
    requires WellFormed(bs) && bs != []
    ensures EscapeEach(bs[1..], EscapeEach(bs[..1], s)) == EscapeEach(bs, s)
  {
    WellFormedTail(bs);
    if s != [] {
      var b := bs[0];
      assert bs[..1] == [b];
      EscapeEachConcat(bs[1..], EscapeChar([b], s[0]), EscapeEach([b], s[1..]));
      EscapeFirstThenRest(bs, s[1..]);
      if s[0] == b.plain {
        assert EscapeChar([b], s[0]) == b.escaped;
        FramedChars(b.escaped);
        EscapeEachUnbound(bs[1..], b.escaped);
      } else {
        assert EscapeChar([b], s[0]) == [s[0]];
        assert EscapeEach(bs[1..], [s[0]]) == EscapeChar(bs[1..], s[0]) + EscapeEach(bs[1..], []);
      }
    }
  }

  /** The source's chain of `replaceAll` calls escapes each character on its own. */
  lemma {:induction false} EscapeIsEach(bs: seq<Binding>, s: string)
    requires WellFormed(bs)
    ensures Escape(bs, s) == EscapeEach(bs, s)
    decreases |bs|, |s|
  {
    if bs == [] {
      if s != [] {
        EscapeIsEach(bs, s[1..]);
      }
    } else {
      var b := bs[0];
      ReplaceOne(s, b);
      assert bs[..1] == [b];
      WellFormedTail(bs);
      EscapeIsEach(bs[1..], Text.ReplaceAll(s, [b.plain], b.escaped));
      EscapeFirstThenRest(bs, s);
    }
  }

  /** Escaped text holds no bound character. */
  lemma {:induction false} EscapeEachFree(bs: seq<Binding>, s: string, c: char)
    requires WellFormed(bs)
    requires !EscapeTextChar(c) && exists b :: b in bs && b.plain == c
    ensures c !in EscapeEach(bs, s)
  {
    if s != [] {
      EscapeEachFree(bs, s[1..], c);
      var r := EscapeChar(bs, s[0]);
      if exists b :: b in bs && b.plain == s[0] {
        var b :| b in bs && b.plain == s[0] && r == b.escaped;
        FramedChars(b.escaped);
      }
    }
  }

  // ---------------------------------------------------------------------------
  // Unescaping

  /** `decodeHashBindings` on a string: one `replaceAll` per escape text, in order. */
  function UnescapeAsWritten(bs: seq<Binding>, s: string): string
    requires AllFramed(bs)
  {
    if bs == [] then s
    else
      assert Framed(bs[0].escaped);
      UnescapeAsWritten(bs[1..], Text.ReplaceAll(s, bs[0].escaped, [bs[0].plain]))
  }

  /** The first binding whose escape text starts `s`. */
  function EscapeAt(bs: seq<Binding>, s: string): (r: Option<Binding>)
    ensures r.Some? ==> Text.StartsWith(s, r.value.escaped) && r.value in bs
  {
    if bs == [] then None
    else if Text.StartsWith(s, bs[0].escaped) then Some(bs[0])
    else EscapeAt(bs[1..], s)
  }

  /** Unescaping in one left-to-right pass. */
  function Unescape(bs: seq<Binding>, s: string): string
    requires AllFramed(bs)
    decreases |s|
  {
    if s == [] then []
    else match EscapeAt(bs, s)
      case Some(b) => [b.plain] + Unescape(bs, s[|b.escaped|..])
      case None => [s[0]] + Unescape(bs, s[1..])
  }

  /** Of two escape texts, one can start the other followed by more text only if they are equal. */
  lemma FramedPrefix(x: string, y: string, rest: string)
    requires Framed(x) && Framed(y)
    requires Text.StartsWith(y + rest, x)
    ensures x == y
  {
    var m := (if |x| < |y| then |x| else |y|) - 1;
    assert x[m] == (y + rest)[..|x|][m] == y[m];
    if |x| == |y| {
      assert (y + rest)[..|x|] == y;
    }
  }

  /** Escaped text of a bound character is read back as that character. */
  lemma {:induction false} EscapeAtBound(bs: seq<Binding>, b: Binding, rest: string)
    requires WellFormed(bs) && b in bs
    ensures EscapeAt(bs, b.escaped + rest) == Some(b)
  {
    var s := b.escaped + rest;
    if b == bs[0] {
      assert s[..|b.escaped|] == b.escaped;
    } else {
      WellFormedTail(bs);
      assert b in bs[1..];
      if Text.StartsWith(s, bs[0].escaped) {
        FramedPrefix(bs[0].escaped, b.escaped, rest);
      }
      EscapeAtBound(bs[1..], b, rest);
    }
  }

  /** No escape text starts with a character other than `@`. */
  lemma {:induction false} EscapeAtUnmarked(bs: seq<Binding>, c: char, rest: string)
    requires AllFramed(bs)
    requires c != MARK
    ensures EscapeAt(bs, [c] + rest) == None
  {
    if bs != [] {
      assert Framed(bs[0].escaped);
      assert ([c] + rest)[0] == c;
      assert forall b | b in bs[1..] :: b in bs;
      EscapeAtUnmarked(bs[1..], c, rest);
    }
  }

  lemma UnescapeChar(bs: seq<Binding>, c: char, rest: string)
    requires WellFormed(bs) && c != MARK
    ensures Unescape(bs, EscapeChar(bs, c) + rest) == [c] + Unescape(bs, rest)
  {
    if exists b :: b in bs && b.plain == c {
      var b :| b in bs && b.plain == c && EscapeChar(bs, c) == b.escaped;
      EscapeAtBound(bs, b, rest);
      assert (b.escaped + rest)[|b.escaped|..] == rest;
    } else {
      EscapeAtUnmarked(bs, c, rest);
      assert ([c] + rest)[1..] == rest;
    }
  }

  /** Text without `@` is its own one-pass unescape. */
  lemma {:induction false} UnescapeUnmarked(bs: seq<Binding>, s: string)
    requires AllFramed(bs) && MARK !in s
    ensures Unescape(bs, s) == s
  {
    if s != [] {
      assert s[0] in s;
      EscapeAtUnmarked(bs, s[0], s[1..]);
      assert [s[0]] + s[1..] == s;
      assert MARK !in s[1..];
      UnescapeUnmarked(bs, s[1..]);
    }
  }

  /** Unescaping in one pass undoes escaping, for text without `@`. */
  lemma {:induction false} UnescapeEscape(bs: seq<Binding>, s: string)
    requires WellFormed(bs) && MARK !in s
    ensures Unescape(bs, Escape(bs, s)) == s
  {
    EscapeIsEach(bs, s);
    UnescapeEach(bs, s);
  }

  lemma {:induction false} UnescapeEach(bs: seq<Binding>, s: string)
    requires WellFormed(bs) && MARK !in s
    ensures Unescape(bs, EscapeEach(bs, s)) == s
  {
    if s != [] {
      assert EscapeEach(bs, s) == EscapeChar(bs, s[0]) + EscapeEach(bs, s[1..]);
      hide Unescape, EscapeChar, EscapeAt, EscapeEach;
      assert s[0] in s;
      UnescapeChar(bs, s[0], EscapeEach(bs, s[1..]));
      assert MARK !in s[1..];
      UnescapeEach(bs, s[1..]);
      assert [s[0]] + s[1..] == s;
    }
  }

  /** Escaped text holds neither `&` nor `=`, so it can sit in a hash item, and is empty only for empty text. */
  lemma EscapedIsItemSafe(bs: seq<Binding>, s: string)
    requires WellFormed(bs) && |bs| >= 2 && bs[0].plain == '&' && bs[1].plain == '='
    ensures '&' !in Escape(bs, s) && '=' !in Escape(bs, s)
    ensures s != [] ==> Escape(bs, s) != []
  {
    assert bs[0] in bs && bs[1] in bs;
    EscapeIsEach(bs, s);
    EscapeEachFree(bs, s, '&');
    EscapeEachFree(bs, s, '=');
  }

  /** `=A&` escapes to `@E@A@A@` under either set of bindings. */
  lemma EscapeSample()
    ensures Escape(URL_BINDINGS, "=A&") == "@E@A@A@"
    ensures Escape(SITE_BINDINGS, "=A&") == "@E@A@A@"
  {
    BindingsWellFormed();
    EscapeIsEach(URL_BINDINGS, "=A&");
    EscapeIsEach(SITE_BINDINGS, "=A&");
    EscapeCharSample(URL_BINDINGS);
    EscapeEachSample(URL_BINDINGS);
    EscapeCharSample(SITE_BINDINGS);
    EscapeEachSample(SITE_BINDINGS);
  }

  lemma EscapeEachSample(bs: seq<Binding>)
    requires AllFramed(bs)
    requires EscapeChar(bs, '=') == "@E@" && EscapeChar(bs, 'A') == "A" && EscapeChar(bs, '&') == "@A@"
    ensures EscapeEach(bs, "=A&") == "@E@A@A@"
  {
    EscapeEachText(bs, '=', "A&", "@E@");
    EscapeEachText(bs, 'A', "&", "A");
    EscapeEachText(bs, '&', "", "@A@");
    assert ['='] + "A&" == "=A&" && ['A'] + "&" == "A&" && ['&'] + "" == "&";
    assert EscapeEach(bs, "") == "";
    assert "@E@" + ("A" + ("@A@" + "")) == "@E@A@A@";
  }

  lemma EscapeEachText(bs: seq<Binding>, c: char, rest: string, e: string)
    requires AllFramed(bs) && EscapeChar(bs, c) == e
    ensures EscapeEach(bs, [c] + rest) == e + EscapeEach(bs, rest)
  {
    assert ([c] + rest)[1..] == rest;
  }

  lemma EscapeCharSample(bs: seq<Binding>)
    requires bs == URL_BINDINGS || bs == SITE_BINDINGS
    ensures AllFramed(bs)
    ensures EscapeChar(bs, '=') == "@E@" && EscapeChar(bs, 'A') == "A" && EscapeChar(bs, '&') == "@A@"
  {
    BindingsWellFormed();
    assert forall b | b in bs :: b.plain != 'A';
  }

  /** Replacing `@A@` first finds it across the two escapes. */
  lemma ReplaceSample()
    ensures Text.ReplaceAll("@E@A@A@", "@A@", "&") == "@E&A@"
  {
    assert Text.ReplaceAll("A@", "@A@", "&") == "A@";
    assert "@A@A@"[..3] == "@A@" && "@A@A@"[3..] == "A@";
    assert Text.ReplaceAll("@A@A@", "@A@", "&") == "&A@";
    assert "E@A@A@"[..3][0] != '@' && "E@A@A@"[1..] == "@A@A@";
    assert Text.ReplaceAll("E@A@A@", "@A@", "&") == "EA@A@"[..1] + "&A@";
    assert "@E@A@A@"[..3][1] != 'A' && "@E@A@A@"[1..] == "E@A@A@";
  }

  /** No escape text but `@A@` occurs in `@E&A@`, and that one only after its `@E`. */
  lemma ReplaceAbsent(pat: string, rep: string)
    requires |pat| >= 3 && pat[0] == MARK && pat[2] != '&' && pat[1] != 'A'
    ensures Text.ReplaceAll("@E&A@", pat, rep) == "@E&A@"
  {
    var s := "@E&A@";
    forall i: nat | i + |pat| <= |s|
      ensures !Text.OccursAt(s, pat, i)
    {
      if i == 0 {
        assert s[i..i + |pat|][2] == '&';
      } else {
        assert s[i..i + |pat|][0] != MARK;
      }
    }
    Text.ReplaceAllNone(s, pat, rep);
  }

  /**
   * The source's unescaping does not undo its escaping: `=A&` is escaped to
   * `@E@A@A@`, in which `@A@` is first found across the two escapes, so it is
   * read back as `@E&A@`; one pass reads it back as `=A&`.
   */
  lemma UnescapeAsWrittenMisreads()
    ensures Escape(URL_BINDINGS, "=A&") == "@E@A@A@"
    ensures UnescapeAsWritten(URL_BINDINGS, "@E@A@A@") == "@E&A@"
    ensures Escape(SITE_BINDINGS, "=A&") == "@E@A@A@"
    ensures UnescapeAsWritten(SITE_BINDINGS, "@E@A@A@") == "@E&A@"
    ensures Unescape(URL_BINDINGS, "@E@A@A@") == "=A&"
  {
    BindingsWellFormed();
    EscapeSample();
    ReplaceSample();
    UnescapeEscape(URL_BINDINGS, "=A&");
    ReplaceAbsent("@E@", "=");
    ReplaceAbsent("@LS@", "{");
    ReplaceAbsent("@RS@", "}");
    ReplaceAbsent("@Q@", "\"");
    ReplaceAbsent("@C@", ":");
    assert URL_BINDINGS[1..][1..][1..][1..][1..][1..] == [];
    assert SITE_BINDINGS[1..][1..] == [];
  }

  // ---------------------------------------------------------------------------
  // What the browser keeps of escaped text

  /** A character some binding escapes. */
  predicate Bound(bs: seq<Binding>, c: char) {
    exists b :: b in bs && b.plain == c
  }

  lemma FramedKept(e: string)
    requires Framed(e)
    ensures Fragment.Kept(e)
  {
  }

  lemma {:induction false} EscapeEachKept(bs: seq<Binding>, s: string)
    requires AllFramed(bs)
    requires forall i :: 0 <= i < |s| && Fragment.Escaped(s[i]) ==> Bound(bs, s[i])
    ensures Fragment.Kept(EscapeEach(bs, s))
  {
    if s != [] {
      var e := EscapeChar(bs, s[0]);
      if Bound(bs, s[0]) {
        var b :| b in bs && b.plain == s[0] && e == b.escaped;
        FramedKept(e);
      }
      assert forall i :: 0 <= i < |s[1..]| ==> s[1..][i] == s[i + 1];
      EscapeEachKept(bs, s[1..]);
      Fragment.KeptConcat(e, EscapeEach(bs, s[1..]));
    }
  }

  /**
   * Escaped text is written into the hash as it is when every character the
   * browser would percent-encode is one the bindings escape.
   */
  lemma EscapeKept(bs: seq<Binding>, s: string)
    requires WellFormed(bs)
    requires forall i :: 0 <= i < |s| && Fragment.Escaped(s[i]) ==> Bound(bs, s[i])
    ensures Fragment.Kept(Escape(bs, s))
  {
    EscapeIsEach(bs, s);
    EscapeEachKept(bs, s);
  }

  /** The URL hash escapes `"`, so text whose only such character is `"` (JSON text, say) is kept. */
  lemma UrlEscapeKept(s: string)
    requires forall i :: 0 <= i < |s| && Fragment.Escaped(s[i]) ==> s[i] == '"'
    ensures AllFramed(URL_BINDINGS) && Fragment.Kept(Escape(URL_BINDINGS, s))
  {
    BindingsWellFormed();
    assert URL_BINDINGS[4] == Binding('"', "@Q@");
    assert Bound(URL_BINDINGS, '"') by {
      assert URL_BINDINGS[4] in URL_BINDINGS;
    }
    EscapeKept(URL_BINDINGS, s);
  }

  /** The site hash does not escape `"`: text holding one is still not kept once escaped. */
  lemma SiteEscapeKeepsQuote(s: string)
    requires '"' in s
    ensures '"' in Escape(SITE_BINDINGS, s)
    ensures !Fragment.Kept(Escape(SITE_BINDINGS, s))
  {
    BindingsWellFormed();
    assert !Bound(SITE_BINDINGS, '"');
    EscapeIsEach(SITE_BINDINGS, s);
    var k :| 0 <= k < |s| && s[k] == '"';
    UnboundSurvives(SITE_BINDINGS, s, k);
    var i :| 0 <= i < |Escape(SITE_BINDINGS, s)| && Escape(SITE_BINDINGS, s)[i] == '"';
    assert Fragment.Escaped(Escape(SITE_BINDINGS, s)[i]);
  }

  /** A character no binding escapes stays in the escaped text. */
  lemma {:induction false} UnboundSurvives(bs: seq<Binding>, s: string, i: nat)
    requires AllFramed(bs) && i < |s| && !Bound(bs, s[i])
    ensures s[i] in EscapeEach(bs, s)
  {
    var e, rest := EscapeChar(bs, s[0]), EscapeEach(bs, s[1..]);
    assert EscapeEach(bs, s) == e + rest;
    hide EscapeChar, EscapeEach;
    if i == 0 {
      assert e == [s[0]];
      assert (e + rest)[0] == s[0];
    } else {
      assert s[1..][i - 1] == s[i];
      UnboundSurvives(bs, s[1..], i - 1);
      var j :| 0 <= j < |rest| && rest[j] == s[i];
      assert (e + rest)[|e| + j] == s[i];
    }
  }

  /** Text none of whose characters a binding escapes is left as it is. */
  lemma {:induction false} EscapeEachNoneBound(bs: seq<Binding>, t: string)
    requires AllFramed(bs)
    requires forall k :: 0 <= k < |t| ==> !Bound(bs, t[k])
    ensures EscapeEach(bs, t) == t
  {
    if t != [] {
      assert !Bound(bs, t[0]);
      EscapeEachNoneBound(bs, t[1..]);
    }
  }
}
