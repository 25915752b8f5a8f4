/**
 * `HtmlHeaders`: an ordered, append-only list of `<head>` fragments. Every
 * `add…` method appends at the end and changes nothing else; the readers
 * change nothing.
 */
module Headers {
  import opened Wrappers
  import opened Coercion
  import opened HtmlEscape
  import opened Implode
  import opened Fragments

  /** What `add` is given: one scalar, or an iterable of scalars (read once, in order). */
  datatype Value = One(item: Scalar) | Many(items: seq<Scalar>)

  /** The `(string)` form of each element, in iteration order. */
  function Texts(items: seq<Scalar>): (r: seq<string>)
    ensures |r| == |items|
    ensures forall k :: 0 <= k < |items| ==> r[k] == ToText(items[k])
  {
    seq(|items|, k requires 0 <= k < |items| => ToText(items[k]))
  }

  /**
   * The entries `add` appends for a value: one entry for a scalar (PHP's
   * `is_iterable` is false for null too, so null adds ""), one per element
   * for an iterable.
   */
  function Contributed(v: Value): (r: seq<string>)
    ensures v.One? ==> r == [ToText(v.item)]
    ensures v.Many? ==> |r| == |v.items| && forall k :: 0 <= k < |r| ==> r[k] == ToText(v.items[k])
  {
    match v
    case One(x) => [ToText(x)]
    case Many(items) => Texts(items)
  }

  lemma Reassociate(p: string, a: string, b: string, c: string, e: string)
    ensures p + a + b + c + e == p + (a + (b + (c + e)))
  {
  }

  /** The `<script>` tag of `addJs`, built piece by piece as the source does with `.=`. */
  method ScriptMarkup(url: string, integrity: Option<string>, crossOrigin: Option<string>)
    returns (header: string)
    ensures header == ScriptTag(url, integrity, crossOrigin)
  {
    header := "<script" + Attr("src", url);
    ghost var afterSrc := header;
    if Truthy(integrity) {
      header := header + Attr("integrity", integrity.value);
    }
    ghost var afterIntegrity := header;
    if Truthy(crossOrigin) {
      header := header + Attr("crossorigin", crossOrigin.value);
    }
    ghost var afterCrossOrigin := header;
    header := header + "></script>";
    assert afterIntegrity == afterSrc + OptionalAttr("integrity", integrity);
    assert afterCrossOrigin == afterIntegrity + OptionalAttr("crossorigin", crossOrigin);
    Reassociate("<script", Attr("src", url), OptionalAttr("integrity", integrity),
      OptionalAttr("crossorigin", crossOrigin), "></script>");
  }

  class HtmlHeaders {
    var headers: seq<string>

    /** `new HtmlHeaders($headers = null)`: empty for null, otherwise what `add($headers)` would give. */
    constructor (initial: Value := One(Null))
      ensures headers == if initial == One(Null) then [] else Contributed(initial)
    {
      headers := [];
      new;
      if initial != One(Null) {
        var _ := Add(initial);
      }
    }

    /** Appends the `(string)` form of a scalar, or of each element of an iterable in order. */
    method Add(header: Value) returns (self: HtmlHeaders)
      modifies this
      ensures headers == old(headers) + Contributed(header)
      ensures self == this
    {
      match header {
        case Many(items) =>
          for i := 0 to |items|
            invariant headers == old(headers) + Texts(items[..i])
          {
            assert Texts(items[..i + 1]) == Texts(items[..i]) + [ToText(items[i])];
            headers := headers + [ToText(items[i])];
          }
          assert items[..|items|] == items;
        case One(item) =>
          headers := headers + [ToText(item)];
      }
      self := this;
    }

    /** Appends `<link rel="…" type="…" href="…">`. */
    method AddCss(url: string, cssType: string := DefaultCssType, rel: string := DefaultCssRel)
      returns (self: HtmlHeaders)
      modifies this
      ensures headers == old(headers) + [CssLink(url, cssType, rel)]
      ensures self == this
    {
      self := Add(One(Str(CssLink(url, cssType, rel))));
    }

    /** Appends `<style type="…">css</style>`, the CSS unescaped. */
    method AddInlineCss(css: string, cssType: string := DefaultCssType) returns (self: HtmlHeaders)
      modifies this
      ensures headers == old(headers) + [InlineStyle(css, cssType)]
      ensures self == this
    {
      self := Add(One(Str(InlineStyle(css, cssType))));
    }

    /** Appends the `<script src=…>` tag, the optional attributes only when truthy. */
    method AddJs(url: string, integrity: Option<string> := None, crossOrigin: Option<string> := None)
      returns (self: HtmlHeaders)
      modifies this
      ensures headers == old(headers) + [ScriptTag(url, integrity, crossOrigin)]
      ensures self == this
    {
      var header := ScriptMarkup(url, integrity, crossOrigin);
      self := Add(One(Str(header)));
    }

    /** Appends `<script>js</script>`, the JS unescaped. */
    method AddInlineJs(js: string) returns (self: HtmlHeaders)
      modifies this
      ensures headers == old(headers) + [InlineScript(js)]
      ensures self == this
    {
      self := Add(One(Str(InlineScript(js))));
    }

    /** The entries in insertion order, as a copy. */
    function GetAsArray(): (r: seq<string>)
      reads this
      ensures r == headers
    {
      headers
    }

    /** The entries joined with `glue`: "" when empty, the entry alone when there is one. */
    function Get(glue: string := "\n"): (r: string)
      reads this
      ensures r == Join(GetAsArray(), glue)
      ensures headers == [] ==> r == ""
      ensures |headers| == 1 ==> r == headers[0]
      ensures headers != [] ==> |r| == TotalLength(headers) + (|headers| - 1) * |glue|
    {
      if headers != [] then JoinLength(headers, glue); Join(headers, glue) else ""
    }

    /** A fresh traversal of the entries as they are now, in insertion order. */
    function GetIterator(): (r: seq<string>)
      reads this
      ensures r == GetAsArray()
    {
      headers
    }

    /** The number of entries: the length of what `GetAsArray` returns. */
    function Count(): (n: nat)
      reads this
      ensures n == |GetAsArray()|
    {
      |headers|
    }
  }
}
