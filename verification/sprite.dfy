/**
 * The sprite document `writeSvg` builds: one hidden `<svg>` element
 * holding every stored symbol's markup, one per line, in table order.
 */
module Sprite {
  import opened Options
  import opened Text

  const Header: string := "<svg xmlns=\"http://www.w3.org/2000/svg\" style=\"display: none;\">"
  const Footer: string := "</svg>"

  /** The document for the given symbol markups. */
  function Document(symbols: seq<string>): string
  {
    Header + Join(symbols, "\n") + Footer
  }

  /** Reads a sprite document back into its symbol markups, one per line
      between the opening and closing `<svg>` tags. */
  function ParseDocument(doc: string): (r: Option<seq<string>>)
    ensures r.Some? ==> forall k :: 0 <= k < |r.value| ==> '\n' !in r.value[k]
  {
    if |doc| < |Header| + |Footer| then None
    else if doc[..|Header|] != Header || doc[|doc| - |Footer|..] != Footer then None
    else
      var body := doc[|Header|..|doc| - |Footer|];
      if body == "" then Some([]) else Some(Split(body, '\n'))
  }

  /** A symbol's markup as the document can hold it: non-empty, one line. */
  predicate SingleLine(m: string)
  {
    m != "" && '\n' !in m
  }

  /** The document holds exactly the given symbols, in order: reading it
      back yields them, one entry per stored symbol. */
  lemma DocumentRoundTrip(symbols: seq<string>)
    requires forall k :: 0 <= k < |symbols| ==> SingleLine(symbols[k])
    ensures ParseDocument(Document(symbols)) == Some(symbols)
  {
    var body := Join(symbols, "\n");
    var doc := Document(symbols);
    assert doc[..|Header|] == Header;
    assert doc[|doc| - |Footer|..] == Footer;
    assert doc[|Header|..|doc| - |Footer|] == body;
    if |symbols| > 0 {
      JoinStartsWithHead(symbols, "\n");
      assert body != "";
      SplitJoin(symbols, '\n');
    }
  }
}
