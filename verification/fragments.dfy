/**
 * The four `<head>` fragments `HtmlHeaders` builds, and a reader for each
 * that recovers the arguments from the fragment. The round-trip lemmas say
 * that no argument can end its attribute early or add markup: whatever the
 * arguments hold, the reader finds exactly the template's structure.
 */
module Fragments {
  import opened Wrappers
  import opened Coercion
  import opened HtmlEscape

  const DefaultCssType: string := "text/css"
  const DefaultCssRel: string := "stylesheet"

  /** ` name="value"` with the value passed through `htmlspecialchars`. */
  function Attr(name: string, value: string): (r: string)
    ensures |r| >= |name| + |value| + 4
    ensures r[0] == ' ' && r[|r| - 1] == '"'
  {
    " " + name + "=\"" + Escape(value) + "\""
  }

  /** `addCss`: `<link rel="…" type="…" href="…">`, every value escaped. */
  function CssLink(url: string, cssType: string, rel: string): string
  {
    "<link" + (Attr("rel", rel) + (Attr("type", cssType) + (Attr("href", url) + ">")))
  }

  /** `addInlineCss`: a `<style>` block whose type is escaped and whose body is not. */
  function InlineStyle(css: string, cssType: string): string
  {
    "<style" + (Attr("type", cssType) + (">" + css + "</style>"))
  }

  /** The value an optional `addJs` attribute is written with, or None when PHP finds it falsy. */
  function Emitted(o: Option<string>): (r: Option<string>)
    ensures r.Some? <==> Truthy(o)
    ensures r.Some? ==> r == o
  {
    if Truthy(o) then o else None
  }

  /** The attribute when PHP finds `o` truthy, nothing otherwise. */
  function OptionalAttr(name: string, o: Option<string>): (r: string)
    ensures r != "" <==> Truthy(o)
  {
    if Truthy(o) then Attr(name, o.value) else ""
  }

  /** `addJs`: `<script src="…"`, then the optional `integrity` and `crossorigin`, then `></script>`. */
  function ScriptTag(url: string, integrity: Option<string>, crossOrigin: Option<string>): string
  {
    "<script" + (Attr("src", url) + (OptionalAttr("integrity", integrity)
      + (OptionalAttr("crossorigin", crossOrigin) + "></script>")))
  }

  /** `addInlineJs`: the script body verbatim between `<script>` and `</script>`. */
  function InlineScript(js: string): string
  {
    "<script>" + js + "</script>"
  }

  // ---------------------------------------------------------------------
  // Readers of the fragments

  /** Splits at the first double quote: the text before it and the text after it. */
  function SplitAtQuote(s: string): Option<(string, string)>
  {
    if s == [] then None
    else if s[0] == '"' then Some(([], s[1..]))
    else match SplitAtQuote(s[1..])
      case None => None
      case Some((before, after)) => Some(([s[0]] + before, after))
  }

  /** Reads ` name="value"` at the start of `s`: the decoded value and what follows. */
  function ReadAttr(s: string, name: string): Option<(string, string)>
  {
    var open := " " + name + "=\"";
    if !(open <= s) then None
    else match SplitAtQuote(s[|open|..])
      case None => None
      case Some((raw, rest)) => Some((Unescape(raw), rest))
  }

  /** Reads ` name="value"` when `s` starts with it; otherwise reads nothing. */
  function ReadOptionalAttr(s: string, name: string): Option<(Option<string>, string)>
  {
    if !((" " + name + "=\"") <= s) then Some((None, s))
    else match ReadAttr(s, name)
      case None => None
      case Some((v, rest)) => Some((Some(v), rest))
  }

  datatype LinkAttrs = LinkAttrs(rel: string, cssType: string, href: string)
  datatype ScriptAttrs = ScriptAttrs(src: string, integrity: Option<string>, crossOrigin: Option<string>)

  function ParseLink(s: string): Option<LinkAttrs>
  {
    if !("<link" <= s) then None
    else match ReadAttr(s[5..], "rel")
      case None => None
      case Some((rel, r1)) =>
        match ReadAttr(r1, "type")
        case None => None
        case Some((cssType, r2)) =>
          match ReadAttr(r2, "href")
          case None => None
          case Some((href, r3)) => if r3 == ">" then Some(LinkAttrs(rel, cssType, href)) else None
  }

  function ParseStyle(s: string): Option<(string, string)>
  {
    if !("<style" <= s) then None
    else match ReadAttr(s[6..], "type")
      case None => None
      case Some((cssType, r1)) =>
        if |r1| >= 9 && r1[0] == '>' && r1[|r1| - 8..] == "</style>"
        then Some((cssType, r1[1..|r1| - 8]))
        else None
  }

  function ParseScript(s: string): Option<ScriptAttrs>
  {
    if !("<script" <= s) then None
    else match ReadAttr(s[7..], "src")
      case None => None
      case Some((src, r1)) =>
        match ReadOptionalAttr(r1, "integrity")
        case None => None
        case Some((integrity, r2)) =>
          match ReadOptionalAttr(r2, "crossorigin")
          case None => None
          case Some((crossOrigin, r3)) =>
            if r3 == "></script>" then Some(ScriptAttrs(src, integrity, crossOrigin)) else None
  }

  function ParseInlineScript(s: string): Option<string>
  {
    if |s| >= 17 && s[..8] == "<script>" && s[|s| - 9..] == "</script>" then Some(s[8..|s| - 9]) else None
  }

  // ---------------------------------------------------------------------
  // Round trips

  /** What follows a literal prefix is the rest of the text. */
  lemma PrefixRest(p: string, t: string)
    ensures p <= p + t && (p + t)[|p|..] == t
  {
  }

  /** A value without a double quote ends exactly at the quote that follows it. */
  lemma {:induction false} SplitAtQuoteSafe(v: string, rest: string)
    requires forall k :: 0 <= k < |v| ==> v[k] != '"'
    ensures SplitAtQuote(v + "\"" + rest) == Some((v, rest))
  {
    var s := v + "\"" + rest;
    if v == [] {
      assert s[1..] == rest;
    } else {
      assert s[1..] == v[1..] + "\"" + rest;
      SplitAtQuoteSafe(v[1..], rest);
      assert [v[0]] + v[1..] == v;
    }
  }

  /** An escaped attribute reads back as the original argument, and reading stops at its closing quote. */
  lemma ReadAttrRoundTrip(name: string, v: string, rest: string)
    ensures (" " + name + "=\"") <= Attr(name, v) + rest
    ensures ReadAttr(Attr(name, v) + rest, name) == Some((v, rest))
  {
    var open := " " + name + "=\"";
    var tail := Escape(v) + "\"" + rest;
    assert Attr(name, v) + rest == open + tail;
    PrefixRest(open, tail);
    SplitAtQuoteSafe(Escape(v), rest);
    UnescapeEscape(v);
  }

  lemma ReadOptionalAttrRoundTrip(name: string, o: Option<string>, rest: string)
    requires !((" " + name + "=\"") <= rest)
    ensures ReadOptionalAttr(OptionalAttr(name, o) + rest, name) == Some((Emitted(o), rest))
  {
    if Truthy(o) {
      ReadAttrRoundTrip(name, o.value, rest);
    } else {
      assert OptionalAttr(name, o) + rest == rest;
    }
  }

  /** `addCss` output always reads back as the three arguments, in the template's order. */
  lemma CssLinkRoundTrip(url: string, cssType: string, rel: string)
    ensures ParseLink(CssLink(url, cssType, rel)) == Some(LinkAttrs(rel, cssType, url))
  {
    var r2 := Attr("href", url) + ">";
    var r1 := Attr("type", cssType) + r2;
    var t := Attr("rel", rel) + r1;
    assert CssLink(url, cssType, rel) == "<link" + t;
    assert "<link" <= "<link" + t && ("<link" + t)[5..] == t by { PrefixRest("<link", t); }
    assert ReadAttr(t, "rel") == Some((rel, r1)) by { ReadAttrRoundTrip("rel", rel, r1); }
    assert ReadAttr(r1, "type") == Some((cssType, r2)) by { ReadAttrRoundTrip("type", cssType, r2); }
    assert ReadAttr(r2, "href") == Some((url, ">")) by { ReadAttrRoundTrip("href", url, ">"); }
  }

  /** `addInlineCss` output reads back as its type and its body, the body untouched. */
  lemma InlineStyleRoundTrip(css: string, cssType: string)
    ensures ParseStyle(InlineStyle(css, cssType)) == Some((cssType, css))
  {
    var r1 := ">" + css + "</style>";
    var t := Attr("type", cssType) + r1;
    assert InlineStyle(css, cssType) == "<style" + t;
    assert "<style" <= "<style" + t && ("<style" + t)[6..] == t by { PrefixRest("<style", t); }
    assert ReadAttr(t, "type") == Some((cssType, r1)) by { ReadAttrRoundTrip("type", cssType, r1); }
    assert r1[|r1| - 8..] == "</style>";
    assert r1[1..|r1| - 8] == css;
  }

  /** After `src`, the optional attributes are read back in order and then only `></script>` is left. */
  lemma ScriptOptionalsRoundTrip(integrity: Option<string>, crossOrigin: Option<string>)
    ensures var r2 := OptionalAttr("crossorigin", crossOrigin) + "></script>";
            ReadOptionalAttr(OptionalAttr("integrity", integrity) + r2, "integrity") == Some((Emitted(integrity), r2))
            && ReadOptionalAttr(r2, "crossorigin") == Some((Emitted(crossOrigin), "></script>"))
  {
    var r3 := "></script>";
    var r2 := OptionalAttr("crossorigin", crossOrigin) + r3;
    assert r2[1] != " integrity=\""[1] by {
      if Truthy(crossOrigin) {
        assert r2[1] == 'c';
      } else {
        assert r2 == r3;
      }
    }
    ReadOptionalAttrRoundTrip("integrity", integrity, r2);
    assert r3[1] != " crossorigin=\""[1];
    ReadOptionalAttrRoundTrip("crossorigin", crossOrigin, r3);
  }

  /**
   * `addJs` output reads back as the URL and exactly those optional
   * attributes PHP finds truthy, integrity before crossorigin.
   */
  lemma ScriptTagRoundTrip(url: string, integrity: Option<string>, crossOrigin: Option<string>)
    ensures ParseScript(ScriptTag(url, integrity, crossOrigin))
         == Some(ScriptAttrs(url, Emitted(integrity), Emitted(crossOrigin)))
  {
    var r2 := OptionalAttr("crossorigin", crossOrigin) + "></script>";
    var r1 := OptionalAttr("integrity", integrity) + r2;
    var t := Attr("src", url) + r1;
    assert ScriptTag(url, integrity, crossOrigin) == "<script" + t;
    assert "<script" <= "<script" + t && ("<script" + t)[7..] == t by { PrefixRest("<script", t); }
    assert ReadAttr(t, "src") == Some((url, r1)) by { ReadAttrRoundTrip("src", url, r1); }
    ScriptOptionalsRoundTrip(integrity, crossOrigin);
  }

  /** `addInlineJs` output reads back as its body, untouched. */
  lemma InlineScriptRoundTrip(js: string)
    ensures ParseInlineScript(InlineScript(js)) == Some(js)
  {
  }

  // ---------------------------------------------------------------------
  // Markup characters

  /** How many times `c` occurs in `s`. */
  function Occurrences(s: string, c: char): nat
  {
    if s == [] then 0 else (if s[0] == c then 1 else 0) + Occurrences(s[1..], c)
  }

  lemma {:induction false} OccurrencesConcat(a: string, b: string, c: char)
    ensures Occurrences(a + b, c) == Occurrences(a, c) + Occurrences(b, c)
  {
    if a == [] {
      assert a + b == b;
    } else {
      assert (a + b)[1..] == a[1..] + b;
      OccurrencesConcat(a[1..], b, c);
    }
  }

  lemma OccurrencesConcat5(p1: string, p2: string, p3: string, p4: string, p5: string, c: char)
    ensures Occurrences(p1 + (p2 + (p3 + (p4 + p5))), c)
         == Occurrences(p1, c) + Occurrences(p2, c) + Occurrences(p3, c) + Occurrences(p4, c) + Occurrences(p5, c)
  {
    OccurrencesConcat(p1, p2 + (p3 + (p4 + p5)), c);
    OccurrencesConcat(p2, p3 + (p4 + p5), c);
    OccurrencesConcat(p3, p4 + p5, c);
    OccurrencesConcat(p4, p5, c);
  }

  lemma {:induction false} OccurrencesSafe(s: string)
    requires AttributeSafe(s)
    ensures Occurrences(s, '"') == 0 && Occurrences(s, '<') == 0 && Occurrences(s, '>') == 0
  {
    if s != [] {
      OccurrencesSafe(s[1..]);
    }
  }

  /** An attribute brings exactly its two quotes and no angle bracket, whatever its value. */
  lemma AttrMarkup(name: string, v: string)
    requires forall k :: 0 <= k < |name| ==> name[k] != '"' && name[k] != '<' && name[k] != '>'
    ensures Occurrences(Attr(name, v), '"') == 2
    ensures Occurrences(Attr(name, v), '<') == 0 && Occurrences(Attr(name, v), '>') == 0
  {
    var e := Escape(v);
    assert Attr(name, v) == (" " + name) + ("=\"" + (e + "\""));
    OccurrencesSafe(" " + name);
    OccurrencesSafe(e);
    forall c | c == '"' || c == '<' || c == '>'
      ensures Occurrences(Attr(name, v), c) == Occurrences(" " + name, c) + Occurrences("=\"", c) + Occurrences(e, c) + Occurrences("\"", c)
    {
      OccurrencesConcat(" " + name, "=\"" + (e + "\""), c);
      OccurrencesConcat("=\"", e + "\"", c);
      OccurrencesConcat(e, "\"", c);
    }
  }

  /** The literal opening of the `<link>` template holds one `<`. */
  lemma LinkOpenMarkup(c: char)
    requires c == '"' || c == '<' || c == '>'
    ensures Occurrences("<link", c) == if c == '<' then 1 else 0
  {
  }

  /**
   * Whatever its arguments, an `addCss` fragment holds one `<`, one `>` and
   * the six quotes of its three attributes: an argument can add no markup.
   */
  lemma CssLinkMarkup(url: string, cssType: string, rel: string)
    ensures Occurrences(CssLink(url, cssType, rel), '<') == 1
    ensures Occurrences(CssLink(url, cssType, rel), '>') == 1
    ensures Occurrences(CssLink(url, cssType, rel), '"') == 6
  {
    var a, b, d := Attr("rel", rel), Attr("type", cssType), Attr("href", url);
    assert CssLink(url, cssType, rel) == "<link" + (a + (b + (d + ">")));
    AttrMarkup("rel", rel);
    AttrMarkup("type", cssType);
    AttrMarkup("href", url);
    assert Occurrences(CssLink(url, cssType, rel), '<') == 1 by {
      LinkOpenMarkup('<');
      OccurrencesConcat5("<link", a, b, d, ">", '<');
    }
    assert Occurrences(CssLink(url, cssType, rel), '>') == 1 by {
      LinkOpenMarkup('>');
      OccurrencesConcat5("<link", a, b, d, ">", '>');
    }
    assert Occurrences(CssLink(url, cssType, rel), '"') == 6 by {
      LinkOpenMarkup('"');
      OccurrencesConcat5("<link", a, b, d, ">", '"');
    }
  }

  lemma OptionalAttrMarkup(name: string, o: Option<string>)
    requires forall k :: 0 <= k < |name| ==> name[k] != '"' && name[k] != '<' && name[k] != '>'
    ensures Occurrences(OptionalAttr(name, o), '"') == if Truthy(o) then 2 else 0
    ensures Occurrences(OptionalAttr(name, o), '<') == 0 && Occurrences(OptionalAttr(name, o), '>') == 0
  {
    if Truthy(o) {
      AttrMarkup(name, o.value);
    }
  }

  /** The literal opening of the `<script src>` template holds one `<`. */
  lemma ScriptOpenMarkup(c: char)
    requires c == '"' || c == '<' || c == '>'
    ensures Occurrences("<script", c) == if c == '<' then 1 else 0
  {
  }

  /**
   * The literal closing `></script>` holds one `<` and two `>`. The case
   * split lets the solver count each character separately, which is cheaper.
   */
  lemma ScriptCloseMarkup(c: char)
    requires c == '"' || c == '<' || c == '>'
    ensures Occurrences("></script>", c) == if c == '"' then 0 else if c == '<' then 1 else 2
  {
    if c == '<' {
    } else if c == '>' {
    } else {
    }
  }

  /**
   * Whatever its arguments, an `addJs` fragment holds the two `<` and two `>`
   * of `<script …></script>` and two quotes per attribute written.
   */
  lemma ScriptTagMarkup(url: string, integrity: Option<string>, crossOrigin: Option<string>)
    ensures Occurrences(ScriptTag(url, integrity, crossOrigin), '<') == 2
    ensures Occurrences(ScriptTag(url, integrity, crossOrigin), '>') == 2
    ensures Occurrences(ScriptTag(url, integrity, crossOrigin), '"')
         == 2 + (if Truthy(integrity) then 2 else 0) + (if Truthy(crossOrigin) then 2 else 0)
  {
    var a, b, d := Attr("src", url), OptionalAttr("integrity", integrity), OptionalAttr("crossorigin", crossOrigin);
    var tag := ScriptTag(url, integrity, crossOrigin);
    assert tag == "<script" + (a + (b + (d + "></script>")));
    AttrMarkup("src", url);
    OptionalAttrMarkup("integrity", integrity);
    OptionalAttrMarkup("crossorigin", crossOrigin);
    assert Occurrences(tag, '<') == 2 by {
      ScriptOpenMarkup('<');
      ScriptCloseMarkup('<');
      OccurrencesConcat5("<script", a, b, d, "></script>", '<');
    }
    assert Occurrences(tag, '>') == 2 by {
      ScriptOpenMarkup('>');
      ScriptCloseMarkup('>');
      OccurrencesConcat5("<script", a, b, d, "></script>", '>');
    }
    assert Occurrences(tag, '"') == 2 + Occurrences(b, '"') + Occurrences(d, '"') by {
      ScriptOpenMarkup('"');
      ScriptCloseMarkup('"');
      OccurrencesConcat5("<script", a, b, d, "></script>", '"');
    }
  }

  // ---------------------------------------------------------------------
  // The `addJs` tag written out

  /** The opening of each `addJs` attribute, as one literal. */
  lemma ScriptAttrOpeners()
    ensures " " + "src" + "=\"" == " src=\""
    ensures " " + "integrity" + "=\"" == " integrity=\""
    ensures " " + "crossorigin" + "=\"" == " crossorigin=\""
  {
  }

  /** `addJs($url)` with both optional arguments null: `<script src="…"></script>`, the URL escaped. */
  lemma ScriptTagSrcOnly(url: string)
    ensures ScriptTag(url, None, None) == "<script src=\"" + Escape(url) + "\"></script>"
  {
  }

  /** `addJs($url, $integrity, $crossOrigin)` with both optional arguments truthy, every value escaped. */
  lemma ScriptTagFull(url: string, integrity: string, crossOrigin: string)
    requires Truthy(Some(integrity)) && Truthy(Some(crossOrigin))
    ensures ScriptTag(url, Some(integrity), Some(crossOrigin))
         == "<script" + (" src=\"" + Escape(url) + "\"" + (" integrity=\"" + Escape(integrity) + "\""
            + (" crossorigin=\"" + Escape(crossOrigin) + "\"" + "></script>")))
  {
    ScriptAttrOpeners();
  }

  /**
   * Only truthiness decides whether an optional attribute is written: a
   * falsy `"0"` or `""` gives the tag null gives.
   */
  lemma FalsyAttributesOmitted(url: string, integrity: Option<string>, crossOrigin: Option<string>)
    ensures ScriptTag(url, integrity, crossOrigin) == ScriptTag(url, Emitted(integrity), Emitted(crossOrigin))
    ensures !Truthy(integrity) && !Truthy(crossOrigin) ==> ScriptTag(url, integrity, crossOrigin) == ScriptTag(url, None, None)
  {
  }

  // ---------------------------------------------------------------------
  // Arguments that hold nothing to escape

  /** An attribute whose value holds none of `& " < >` is written as it is. */
  lemma PlainAttr(name: string, v: string)
    requires forall k :: 0 <= k < |v| ==> !IsSpecial(v[k])
    ensures Attr(name, v) == " " + name + "=\"" + v + "\""
  {
    EscapeIdentity(v);
  }

  /** `addJs($url)` for a URL with nothing to escape writes the URL as it is. */
  lemma ScriptTagPlain(url: string)
    requires forall k :: 0 <= k < |url| ==> !IsSpecial(url[k])
    ensures ScriptTag(url, None, None) == "<script src=\"" + url + "\"></script>"
  {
    PlainAttr("src", url);
  }

  /** `addJs` with truthy optional arguments and nothing to escape writes every value as it is. */
  lemma ScriptTagFullPlain(url: string, integrity: string, crossOrigin: string)
    requires forall k :: 0 <= k < |url| ==> !IsSpecial(url[k])
    requires forall k :: 0 <= k < |integrity| ==> !IsSpecial(integrity[k])
    requires forall k :: 0 <= k < |crossOrigin| ==> !IsSpecial(crossOrigin[k])
    requires Truthy(Some(integrity)) && Truthy(Some(crossOrigin))
    ensures ScriptTag(url, Some(integrity), Some(crossOrigin))
         == "<script" + (" src=\"" + url + "\"" + (" integrity=\"" + integrity + "\""
            + (" crossorigin=\"" + crossOrigin + "\"" + "></script>")))
  {
    ScriptTagFull(url, integrity, crossOrigin);
    EscapeIdentity(url);
    EscapeIdentity(integrity);
    EscapeIdentity(crossOrigin);
  }
}
