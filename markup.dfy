/**
 * Option labels may carry markup written with the sentinels `{#` and `#}` in
 * place of `<` and `>` (the usage note at the top of jquery.richselect.js).
 * The unescaped string is kept as the option's html, and its plain text, as
 * jQuery parses it, becomes the option's name.
 */
module Markup {
  import opened Text
  import opened Wrappers

  /** Every `{#` becomes `<`, then every `#}` becomes `>`: no sentinel survives. */
  function Unescape(raw: string): (html: string)
    ensures !HasPair(html, '{', '#') && !HasPair(html, '#', '}')
    ensures |html| <= |raw|
  {
    var step := ReplacePair(raw, '{', '#', '<');
    ReplacePairKeepsAbsent(step, '#', '}', '>', '{', '#');
    ReplacePair(step, '#', '}', '>')
  }

  /** A label written without sentinels is shown as written. */
  lemma UnescapeIdentity(raw: string)
    requires !HasPair(raw, '{', '#') && !HasPair(raw, '#', '}')
    ensures Unescape(raw) == raw
  {
    ReplacePairIdentity(raw, '{', '#', '<');
    ReplacePairIdentity(raw, '#', '}', '>');
  }

  /** How a label with markup is written in the native select: `<` as `{#`, `>` as `#}`. */
  function Escape(html: string): (raw: string)
    ensures |raw| >= |html|
  {
    Expand(Expand(html, '>', '#', '}'), '<', '{', '#')
  }

  /**
   * Unescaping undoes the escaping of any markup that itself uses neither
   * `{` nor `#`: every `{#` becomes `<`, every `#}` becomes `>`, and all
   * else is kept in order.
   */
  lemma UnescapeEscape(html: string)
    requires '{' !in html && '#' !in html
    ensures Unescape(Escape(html)) == html
  {
    var half := Expand(html, '>', '#', '}');
    ExpandKeepsAbsent(html, '>', '#', '}', '{');
    assert !HasPair(half, '{', '#');
    ReplacePairExpand(half, '{', '#', '<');
    assert !HasPair(html, '#', '}');
    ReplacePairExpand(html, '#', '}', '>');
  }

  /**
   * The display name: `parsed` is what `$(html).text()` gave, `None` when it
   * threw. An empty or failed parse falls back to the unescaped string.
   */
  function DisplayName(html: string, parsed: Option<string>): (name: string)
    ensures name == [] ==> html == []
    ensures parsed.None? ==> name == html
    ensures parsed.Some? && parsed.value != [] ==> name == parsed.value
    ensures parsed == Some([]) ==> name == html
  {
    match parsed
    case None => html
    case Some(text) => if text == [] then html else text
  }

  /** The name of an option whose label is `raw`, given jQuery's parser as `parse`. */
  function NameOf(raw: string, parse: string -> Option<string>): (name: string)
    ensures name == [] ==> raw == []
  {
    var html := Unescape(raw);
    assert html == [] ==> raw == [] by {
      if raw != [] {
        assert ReplacePair(raw, '{', '#', '<') != [];
      }
    }
    DisplayName(html, parse(html))
  }
}
