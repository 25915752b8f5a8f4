/**
 * PHP's `htmlspecialchars($s)` with its default arguments as of PHP 7
 * (`ENT_COMPAT | ENT_HTML401`, `double_encode` on): `&`, `"`, `<` and `>`
 * become entities; the single quote is left alone. Characters are
 * modelled abstractly; the charset argument is not.
 */
module HtmlEscape {

  /** The characters `htmlspecialchars` rewrites under `ENT_COMPAT`. */
  predicate IsSpecial(c: char)
  {
    c == '&' || c == '"' || c == '<' || c == '>'
  }

  /** No character that could end a double-quoted attribute or open/close a tag. */
  predicate AttributeSafe(s: string)
  {
    forall k :: 0 <= k < |s| ==> s[k] != '"' && s[k] != '<' && s[k] != '>'
  }

  function EscapeChar(c: char): (r: string)
    ensures |r| >= 1 && AttributeSafe(r)
    ensures IsSpecial(c) <==> r != [c]
    ensures IsSpecial(c) ==> |r| > 1 && r[0] == '&'
  {
    match c
    case '&' => "&amp;"
    case '"' => "&quot;"
    case '<' => "&lt;"
    case '>' => "&gt;"
    case _ => [c]
  }

  /** `htmlspecialchars($s)`: each character replaced by its entity, in order. */
  function Escape(s: string): (r: string)
    ensures AttributeSafe(r)
    ensures |r| >= |s|
  {
    if s == [] then [] else EscapeChar(s[0]) + Escape(s[1..])
  }

  /** Decodes the four entities `Escape` produces; any other text is kept as it is. */
  function Unescape(s: string): string
  {
    if s == [] then []
    else if "&amp;" <= s then ['&'] + Unescape(s[5..])
    else if "&quot;" <= s then ['"'] + Unescape(s[6..])
    else if "&lt;" <= s then ['<'] + Unescape(s[4..])
    else if "&gt;" <= s then ['>'] + Unescape(s[4..])
    else [s[0]] + Unescape(s[1..])
  }

  /** The entity of a character decodes back to that character, whatever follows it. */
  lemma UnescapeEscapeChar(c: char, tail: string)
    ensures Unescape(EscapeChar(c) + tail) == [c] + Unescape(tail)
  {
    var e := EscapeChar(c) + tail;
    assert e[|EscapeChar(c)|..] == tail;
    if !IsSpecial(c) {
      assert e[0] == c;
    } else if c == '&' {
      assert "&amp;" <= e;
    } else if c == '"' {
      assert e[..6] == "&quot;";
      assert e[1] != "&amp;"[1];
    } else if c == '<' {
      assert e[..4] == "&lt;";
      assert e[1] != "&amp;"[1] && e[1] != "&quot;"[1];
    } else {
      assert e[..4] == "&gt;";
      assert e[1] != "&amp;"[1] && e[1] != "&quot;"[1] && e[1] != "&lt;"[1];
    }
  }

  /** Escaping loses nothing: decoding the escaped text gives back the input. */
  lemma {:induction false} UnescapeEscape(s: string)
    ensures Unescape(Escape(s)) == s
  {
    if s != [] {
      UnescapeEscapeChar(s[0], Escape(s[1..]));
      UnescapeEscape(s[1..]);
    }
  }

  /** Two different inputs never escape to the same text. */
  lemma EscapeInjective(a: string, b: string)
    requires Escape(a) == Escape(b)
    ensures a == b
  {
    UnescapeEscape(a);
    UnescapeEscape(b);
  }

  /** Escaping works character by character, so it distributes over concatenation. */
  lemma {:induction false} EscapeConcat(a: string, b: string)
    ensures Escape(a + b) == Escape(a) + Escape(b)
  {
    if a != [] {
      assert (a + b)[1..] == a[1..] + b;
      EscapeConcat(a[1..], b);
    } else {
      assert a + b == b;
    }
  }

  /** Every `&` of the input becomes `&amp;` in place, whatever follows it (double encoding is on). */
  lemma EscapeAmpersand(s: string, k: nat)
    requires k < |s| && s[k] == '&'
    ensures Escape(s) == Escape(s[..k]) + "&amp;" + Escape(s[k + 1..])
  {
    assert s == s[..k] + s[k..];
    EscapeConcat(s[..k], s[k..]);
    assert Escape(s[k..]) == "&amp;" + Escape(s[k + 1..]) by {
      assert s[k..][1..] == s[k + 1..];
    }
  }

  /** Escaping leaves a string unchanged exactly when it holds none of `& " < >`. */
  lemma {:induction false} EscapeIdentity(s: string)
    ensures Escape(s) == s <==> forall k :: 0 <= k < |s| ==> !IsSpecial(s[k])
  {
    if s != [] {
      EscapeIdentity(s[1..]);
      var e := Escape(s);
      assert e == EscapeChar(s[0]) + Escape(s[1..]);
      if IsSpecial(s[0]) {
        assert |e| > |s|;
      } else if forall k :: 0 <= k < |s| ==> !IsSpecial(s[k]) {
        assert forall k :: 0 <= k < |s[1..]| ==> !IsSpecial(s[1..][k]) by {
          forall k | 0 <= k < |s[1..]| ensures !IsSpecial(s[1..][k]) {
            assert s[1..][k] == s[k + 1];
          }
        }
      } else {
        var k :| 0 <= k < |s| && IsSpecial(s[k]);
        assert IsSpecial(s[1..][k - 1]);
        if e == s {
          assert e[1..] == Escape(s[1..]);
        }
      }
    }
  }

  /**
   * Escaping is not idempotent: on a string with an `&` a second pass
   * encodes the entities of the first (`&amp;` becomes `&amp;amp;`).
   */
  lemma DoubleEncoding(s: string, k: nat)
    requires k < |s| && s[k] == '&'
    ensures Escape(Escape(s)) != Escape(s)
  {
    if Escape(Escape(s)) == Escape(s) {
      EscapeInjective(Escape(s), s);
      EscapeIdentity(s);
      assert IsSpecial(s[k]);
      assert false;
    }
  }
}
