# HtmlHeaders in Dafny

A model of `HtmlHeaders` (`CodeInc\UI\Library\Component`): an ordered, append-only list of HTML `<head>` fragments. The model has the generic `add`, the four fragment builders (`addCss`, `addInlineCss`, `addJs`, `addInlineJs`) and the read-only views (`getAsArray`, `get`, `getIterator`, `count`). Two PHP built-ins the class depends on are written out as functions: `htmlspecialchars` with its default flags, and `implode`. So is the `(string)` cast that `add` applies to each value.

Modules, one per concern:

- `Wrappers`: the `Option` type that models PHP's nullable `?string` parameters.
- `Coercion`: PHP's `(string)` cast on the scalars `add` accepts (null, bool, int, string), and PHP truthiness of a `?string`.
- `HtmlEscape`: `htmlspecialchars`. It uses the flags PHP 7 applied by default when this class was written (`ENT_COMPAT | ENT_HTML401`, `double_encode` on). `&`, `"`, `<` and `>` become `&amp;`, `&quot;`, `&lt;` and `&gt;`. The single quote is left alone. `Unescape`, the decoder for these four entities, is its partner: escaping followed by decoding gives back the input.
- `Implode`: `implode($glue, $pieces)`.
- `Fragments`: the four fragment templates, and a reader for each that recovers the arguments from a fragment. The round-trip lemmas state the safety property: however the arguments are chosen, no escaped argument can close its attribute or add markup.
- `Headers`: the class `HtmlHeaders`. Its one field `headers: seq<string>` is updated in place, as `$headers` is in the source. Every `Add…` method ensures that the new list is the old list followed by exactly the new entries. `Add` appends an iterable element by element, in a loop with an invariant. `ScriptMarkup` builds the `addJs` tag step by step, as the source does with `.=`. In the model each step appends one whole ` name="value"` attribute (`Fragments.Attr`), which is the same text the source's string literals spell out.

`addJs` writes `integrity` and `crossorigin` only when PHP finds the argument truthy. A value of `"0"` is therefore omitted, just like null and `""`: the source tests truthiness, not emptiness.

## Model

| member | source | states |
|---|---|---|
| Coercion.ToText | src/Library/Component/HtmlHeaders.php:61-65 | The `(string)` cast: a string is kept, null gives "", true gives "1", false gives "", and an integer gives its canonical decimal text, which reads back as the same integer and has no leading zero and no `-0` |
| Coercion.IntText | src/Library/Component/HtmlHeaders.php:61-65 | An integer's text starts with `-` exactly when the integer is negative, is "0" whenever it starts with `0`, and never has a zero right after the `-` |
| Coercion.NatText | src/Library/Component/HtmlHeaders.php:61-65 | Decimal text of a natural number is non-empty, all digits, and has no leading zero |
| Coercion.IntTextRoundTrip | src/Library/Component/HtmlHeaders.php:61-65 | Reading back the text an integer is cast to gives that integer (sign included) |
| Coercion.NatTextRoundTrip | src/Library/Component/HtmlHeaders.php:61-65 | Reading back the digits of a natural number gives that number |
| HtmlEscape.EscapeChar | src/Library/Component/HtmlHeaders.php:81-83 | Each of `& " < >` is replaced by an entity that starts with `&` and holds no quote or angle bracket; every other character is kept |
| HtmlEscape.Escape | src/Library/Component/HtmlHeaders.php:81-83 | An escaped value never holds a raw `"`, `<` or `>`, and is at least as long as the input |
| HtmlEscape.UnescapeEscapeChar | src/Library/Component/HtmlHeaders.php:81-83 | Each character's entity decodes to that character, whatever text follows it |
| HtmlEscape.UnescapeEscape | src/Library/Component/HtmlHeaders.php:81-83 | Decoding the escaped text gives back the input, so escaping loses nothing |
| HtmlEscape.EscapeInjective | src/Library/Component/HtmlHeaders.php:81-83 | Two different attribute values never escape to the same text |
| HtmlEscape.EscapeConcat | src/Library/Component/HtmlHeaders.php:81-83 | Escaping works character by character: escaping `a + b` gives the escape of `a` followed by the escape of `b` |
| HtmlEscape.EscapeAmpersand | src/Library/Component/HtmlHeaders.php:81-83 | Every `&` of the input becomes `&amp;` in place, even when it already starts an entity |
| HtmlEscape.EscapeIdentity | src/Library/Component/HtmlHeaders.php:81-83 | Escaping leaves a value unchanged if and only if it holds none of `& " < >` |
| HtmlEscape.DoubleEncoding | src/Library/Component/HtmlHeaders.php:81-83 | With double encoding on, escaping twice differs from escaping once for any value that holds an `&` |
| Implode.Join | src/Library/Component/HtmlHeaders.php:155 | `implode`: the pieces in order with the glue between neighbours; its meaning is stated by the Join lemmas below and by `Get` |
| Implode.JoinSmall | src/Library/Component/HtmlHeaders.php:153-156 | Joining no entries gives ""; joining one entry gives that entry with no glue |
| Implode.JoinConcat | src/Library/Component/HtmlHeaders.php:153-156 | Joining two non-empty lists gives the two joined texts with one glue between them |
| Implode.JoinAppend | src/Library/Component/HtmlHeaders.php:153-156 | Appending an entry extends the joined text by the glue and that entry, or gives just the entry when the list was empty |
| Implode.JoinLength | src/Library/Component/HtmlHeaders.php:153-156 | The joined text holds every entry once and one glue per gap between entries |
| Coercion.Truthy | src/Library/Component/HtmlHeaders.php:114-119 | PHP truthiness of `if ($integrity)` and `if ($crossOrigin)`: null, "" and "0" are false; `Emitted` and `OptionalAttrMarkup` state its effect on the tag |
| Fragments.Attr | src/Library/Component/HtmlHeaders.php:81-83 | A ` name="value"` attribute with the value escaped: it starts with a space, ends with its closing quote, and is at least four characters longer than name and value together; `ReadAttrRoundTrip` and `AttrMarkup` state its meaning |
| Fragments.CssLink | src/Library/Component/HtmlHeaders.php:80-84 | The `addCss` template `<link rel type href>`; `CssLinkRoundTrip` and `CssLinkMarkup` state its meaning |
| Fragments.InlineStyle | src/Library/Component/HtmlHeaders.php:97-99 | The `addInlineCss` template, type escaped and body verbatim; `InlineStyleRoundTrip` states its meaning |
| Fragments.OptionalAttr | src/Library/Component/HtmlHeaders.php:114-119 | An optional `addJs` attribute is non-empty exactly when PHP finds its argument truthy |
| Fragments.ScriptTag | src/Library/Component/HtmlHeaders.php:113-120 | The `addJs` template; `ScriptTagRoundTrip`, `ScriptTagMarkup` and `ScriptTagFull` state its meaning |
| Fragments.InlineScript | src/Library/Component/HtmlHeaders.php:133 | The `addInlineJs` template, body verbatim; `InlineScriptRoundTrip` states its meaning |
| Fragments.Emitted | src/Library/Component/HtmlHeaders.php:114-119 | An optional `addJs` attribute is written exactly when PHP finds its argument truthy, and then with that argument |
| Fragments.SplitAtQuoteSafe | src/Library/Component/HtmlHeaders.php:81-83 | A value that holds no double quote ends exactly at the quote that closes it |
| Fragments.ReadAttrRoundTrip | src/Library/Component/HtmlHeaders.php:81-83 | An escaped ` name="value"` attribute reads back as the original value, and reading stops at its closing quote |
| Fragments.ReadOptionalAttrRoundTrip | src/Library/Component/HtmlHeaders.php:114-119 | An optional attribute reads back as the argument when it is truthy, and as absent otherwise |
| Fragments.CssLinkRoundTrip | src/Library/Component/HtmlHeaders.php:78-86 | For any url, type and rel, the `<link>` fragment reads back as exactly those three arguments, in the order rel, type, href |
| Fragments.InlineStyleRoundTrip | src/Library/Component/HtmlHeaders.php:95-101 | The `<style>` fragment reads back as its type and its CSS body, with the body unescaped |
| Fragments.ScriptOptionalsRoundTrip | src/Library/Component/HtmlHeaders.php:113-120 | After `src`, the tag reads back as the truthy optional attributes, integrity before crossorigin, followed only by `></script>` |
| Fragments.ScriptTagRoundTrip | src/Library/Component/HtmlHeaders.php:111-123 | For any arguments, the `<script src>` fragment reads back as the URL and exactly the truthy optional attributes |
| Fragments.InlineScriptRoundTrip | src/Library/Component/HtmlHeaders.php:131-135 | The `<script>` fragment reads back as its JS body, verbatim |
| Fragments.OccurrencesConcat | src/Library/Component/HtmlHeaders.php:81-83 | Counting a character in `a + b` gives its count in `a` plus its count in `b` |
| Fragments.OccurrencesSafe | src/Library/Component/HtmlHeaders.php:81-83 | An escaped value holds no quote and no angle bracket |
| Fragments.AttrMarkup | src/Library/Component/HtmlHeaders.php:81-83 | An escaped attribute adds exactly its own two quotes and no angle bracket, whatever its value |
| Fragments.CssLinkMarkup | src/Library/Component/HtmlHeaders.php:78-86 | For any arguments, the `<link>` fragment holds exactly one `<`, one `>` and six quotes |
| Fragments.OptionalAttrMarkup | src/Library/Component/HtmlHeaders.php:114-119 | An optional attribute adds two quotes when written, none when omitted, and never an angle bracket |
| Fragments.ScriptTagMarkup | src/Library/Component/HtmlHeaders.php:111-123 | For any arguments, the `<script src>` fragment holds exactly two `<`, two `>`, and two quotes per attribute written |
| Fragments.PlainAttr | src/Library/Component/HtmlHeaders.php:81-83 | A value with none of `& " < >` is written into its attribute unchanged |
| Fragments.ScriptTagSrcOnly | src/Library/Component/HtmlHeaders.php:113-121 | For any URL, `addJs($url)` with both optional arguments null writes `<script src="E(url)"></script>`, where E is `htmlspecialchars` |
| Fragments.ScriptTagFull | src/Library/Component/HtmlHeaders.php:113-121 | For any arguments with both optional ones truthy, `addJs` writes ` src="E(url)"`, then ` integrity="E(integrity)"`, then ` crossorigin="E(crossOrigin)"`, then `></script>` |
| Fragments.FalsyAttributesOmitted | src/Library/Component/HtmlHeaders.php:114-119 | Only truthiness decides the tag: falsy arguments (`"0"` and `""` included) give the tag that null gives |
| Fragments.ScriptTagPlain | src/Library/Component/HtmlHeaders.php:113-121 | For a URL with nothing to escape, `addJs($url)` writes `<script src="url"></script>` with the URL as it is |
| Fragments.ScriptTagFullPlain | src/Library/Component/HtmlHeaders.php:113-121 | For arguments with nothing to escape and both optional ones truthy, `addJs` writes every value as it is |
| Headers.Texts | src/Library/Component/HtmlHeaders.php:60-62 | An iterable contributes one entry per element, in iteration order, each entry that element's `(string)` form |
| Headers.Contributed | src/Library/Component/HtmlHeaders.php:59-66 | A scalar, null included, contributes exactly one entry; an iterable contributes one entry per element, in order |
| Headers.ScriptMarkup | src/Library/Component/HtmlHeaders.php:113-120 | The tag built step by step is the `addJs` template for the same arguments |
| Headers.HtmlHeaders.constructor | src/Library/Component/HtmlHeaders.php:44-49 | Constructing with null gives an empty list; any other value gives the entries `add` would append to an empty list |
| Headers.HtmlHeaders.Add | src/Library/Component/HtmlHeaders.php:57-68 | The new list is the old list followed by the value's entries; earlier entries are unchanged; the object itself is returned for chaining |
| Headers.HtmlHeaders.AddCss | src/Library/Component/HtmlHeaders.php:78-86 | Appends exactly the `<link>` fragment, with defaults `text/css` and `stylesheet` |
| Headers.HtmlHeaders.AddInlineCss | src/Library/Component/HtmlHeaders.php:95-101 | Appends exactly the `<style>` fragment, with default type `text/css` |
| Headers.HtmlHeaders.AddJs | src/Library/Component/HtmlHeaders.php:111-123 | Appends exactly the `<script src>` fragment, with both optional arguments defaulting to null |
| Headers.HtmlHeaders.AddInlineJs | src/Library/Component/HtmlHeaders.php:131-135 | Appends exactly the `<script>` fragment |
| Headers.HtmlHeaders.GetAsArray | src/Library/Component/HtmlHeaders.php:142-145 | Returns the entries in insertion order, reading state without changing it |
| Headers.HtmlHeaders.Get | src/Library/Component/HtmlHeaders.php:153-156 | Returns the entries joined with the glue (default newline): "" when empty, the entry alone when there is one, and a text as long as all entries plus one glue per gap |
| Headers.HtmlHeaders.GetIterator | src/Library/Component/HtmlHeaders.php:162-165 | Traverses the entries as they are at the call, in insertion order |
| Headers.HtmlHeaders.Count | src/Library/Component/HtmlHeaders.php:171-174 | The number of entries equals the length of what `GetAsArray` returns |

## Left out

- `src/TemplateInterface.php`: it only declares `renderHeader` and `renderFooter`, with no body and no result. Their only behaviour is output written as a side effect.
- `ComponentInterface`, which the class implements, is not part of this model.
- The `(string)` cast of objects (`__toString`), floats and nested arrays: `add` accepts only null, bool, int and string scalars, or a finite sequence of them. PHP integers are 64-bit; the model's integers are unbounded.
- Iterables are finite sequences that can be read more than once. Generators that can be consumed only once are not modelled.
- `getIterator` returns an `\ArrayIterator` in the source. The model returns the sequence it would traverse, and the `\IteratorAggregate`/`\Countable` plumbing is left out.
- Fragments.InlineStyleRoundTrip, Fragments.InlineScriptRoundTrip: the readers take the last `</style>` or `</script>`, so these round trips hold for any body. A browser ends the element at the first closing tag, and the source writes the CSS or JS body unescaped (lines 98 and 133). A body holding `</style>` or `</script>` therefore ends the element early. These lemmas are not a safety property for bodies.
- `htmlspecialchars` charset handling (invalid UTF-8 giving "", `ENT_SUBSTITUTE`, the charset argument) is not modelled: characters are abstract. The single quote is left unescaped, as under the default flags of PHP 7. PHP 8.1 changed the default to `ENT_QUOTES`, which would also turn `'` into `&#039;`.
