/**
 * Identifiers of the link graph.
 *
 * Three kinds of string circulate in the crawler: raw href values and
 * document names, which keep their ".html" extension, and page identifiers,
 * which are the same strings with the last five characters cut off.
 */
module Pages {

  /** A raw href value or a document (blob) name, extension included. */
  type Href = string

  /** A node key of the graph: a document name or href without its extension. */
  type PageId = string

  /** The document extension every link target and every ingested name carries. */
  const Ext: string := ".html"

  /** Python's `s.endswith(".html")`. */
  predicate EndsWithExt(s: string) {
    |s| >= |Ext| && s[|s| - |Ext|..] == Ext
  }

  /** The href filter of the parser: a non-empty href that ends with the extension. */
  predicate Qualifies(href: Href) {
    |href| > 0 && EndsWithExt(href)
  }

  /** Python's `s[:-5]`: the last five characters removed, or "" for a shorter string. */
  function StripExt(s: string): PageId {
    if |s| >= |Ext| then s[..|s| - |Ext|] else []
  }

  /** Putting the extension back onto a stripped qualifying href gives the href. */
  lemma StripRoundTrip(s: string)
    requires EndsWithExt(s)
    ensures StripExt(s) + Ext == s
  {
    assert s == s[..|s| - |Ext|] + s[|s| - |Ext|..];
  }

  /** Two names that end in the extension name the same page only if they are equal. */
  lemma StripInjective(a: string, b: string)
    requires EndsWithExt(a) && EndsWithExt(b)
    ensures StripExt(a) == StripExt(b) <==> a == b
  {
    if StripExt(a) == StripExt(b) {
      StripRoundTrip(a);
      StripRoundTrip(b);
    }
  }
}
