/**
 * Worked requests against an abstract catalog: the exact fragments the
 * shortcode returns for a fallback, an unknown icon, and an unknown
 * `type` with a `class` prop.
 */
module ShortcodeExamples {
  import opened Options
  import opened Catalog
  import opened Markup
  import opened Symbols
  import opened Styles
  import opened Shortcode

  /** A regular-style request for an icon only the solid package has: the
      fragment references the solid symbol. */
  lemma ExampleFallbackToSolid(c: Catalog, pascal: string -> string, markup: string)
    requires pascal("coffee") == "Coffee"
    requires "faCoffee" !in c.regular.icons
    requires "faCoffee" in c.solid.icons && c.solid.icons["faCoffee"] == IconDef("fas", "coffee", markup)
    ensures Fragment(c, pascal, Request("coffee", Some("regular"), Some("i"), []))
              == UseMarkup("i", "", "", "fas-fa-coffee")
  {
    var req := Request("coffee", Some("regular"), Some("i"), []);
    assert StyleOf(req) == Regular;
    assert IconKey(pascal, "coffee") == "faCoffee";
    FragmentFallback(c, pascal, req);
    assert ClassSuffix([]) == "";
    assert Attrs(WithoutClass([])) == "";
    assert SymbolId("fas", "coffee") == "fas-fa-coffee";
  }

  /** The same request stores the solid symbol under `fas-fa-coffee` and
      writes the sprite file once, when that identifier did not hold yet. */
  lemma ExampleFallbackStores(c: Catalog, pascal: string -> string, markup: string, st: State)
    requires !Holds(st.symbols, "fas-fa-coffee")
    requires pascal("coffee") == "Coffee"
    requires "faCoffee" !in c.regular.icons
    requires "faCoffee" in c.solid.icons && c.solid.icons["faCoffee"] == IconDef("fas", "coffee", markup)
    ensures var out := Render(c, pascal, st, Request("coffee", Some("regular"), Some("i"), [])).state;
            && out.symbols.entries.Keys == st.symbols.entries.Keys + {"fas-fa-coffee"}
            && out.symbols.entries["fas-fa-coffee"] == markup
            && |out.writes| == |st.writes| + 1
  {
    var req := Request("coffee", Some("regular"), Some("i"), []);
    assert StyleOf(req) == Regular;
    assert IconKey(pascal, "coffee") == "faCoffee";
    assert SymbolId("fas", "coffee") == "fas-fa-coffee";
    RenderFallbackStores(c, pascal, st, req);
    assert TargetId(c, pascal, req) == Some("fas-fa-coffee");
  }

  /** With every default, an unknown icon gives the literal placeholder and
      leaves the table and the sprite file as they were. */
  lemma ExampleUnknownIcon(c: Catalog, pascal: string -> string, st: State)
    requires pascal("not-a-real-icon") == "NotARealIcon"
    requires "faNotARealIcon" !in c.solid.icons && "faNotARealIcon" !in c.regular.icons
    ensures Render(c, pascal, st, Request("not-a-real-icon", None, None, []))
              == Rendered(st, PlaceholderMarkup("i", "", "", "faNotARealIcon"))
    ensures Render(c, pascal, st, Request("not-a-real-icon", None, None, [])).markup
              == "<i class=\"icon\">faNotARealIcon</i>"
  {
    var req := Request("not-a-real-icon", None, None, []);
    assert StyleOf(req) == Solid;
    assert IconKey(pascal, "not-a-real-icon") == "faNotARealIcon";
    RenderUnresolved(c, pascal, st, req);
    assert ClassSuffix([]) == "";
    assert Attrs(WithoutClass([])) == "";
    PlaceholderLiteral();
  }

  /** The placeholder for `faNotARealIcon` in an `i` tag, spelled out. */
  lemma PlaceholderLiteral()
    ensures PlaceholderMarkup("i", "", "", "faNotARealIcon") == "<i class=\"icon\">faNotARealIcon</i>"
  {
    var open, close := OpenTag("i", "", ""), CloseTag("i");
    assert open == "<i class=\"icon\">";
    assert close == "</i>";
    ConcatLiteral(open, "faNotARealIcon", close);
  }

  lemma ConcatLiteral(open: string, text: string, close: string)
    requires open == "<i class=\"icon\">" && close == "</i>"
    ensures open + text + close == "<i class=\"icon\">" + text + "</i>"
  {
  }

  /** An unknown `type` is looked up as solid, and a `class` prop lands in
      the class attribute and nowhere else. */
  lemma ExampleUnknownTypeWithClass(c: Catalog, pascal: string -> string, markup: string)
    requires pascal("github") == "Github"
    requires "faGithub" in c.solid.icons && c.solid.icons["faGithub"] == IconDef("fas", "github", markup)
    ensures Fragment(c, pascal, Request("github", Some("bold"), Some("span"),
                                        [Attr("class", "big"), Attr("title", "GitHub")]))
              == UseMarkup("span", " big", " title=\"GitHub\"", "fas-fa-github")
  {
    var bag := [Attr("class", "big"), Attr("title", "GitHub")];
    var req := Request("github", Some("bold"), Some("span"), bag);
    BoldIsSolid();
    assert IconKey(pascal, "github") == "faGithub";
    FragmentPrimary(c, pascal, req);
    ClassPropSplit();
    assert SymbolId("fas", "github") == "fas-fa-github";
  }

  lemma BoldIsSolid()
    ensures Normalize("bold") == Solid
  {
    assert "bold" != "solid" && "bold" != "regular" && "bold" != "brand";
  }

  /** The `class` prop goes to the class suffix; the others to the
      attribute string. */
  lemma ClassPropSplit()
    ensures ClassSuffix([Attr("class", "big"), Attr("title", "GitHub")]) == " big"
    ensures Attrs(WithoutClass([Attr("class", "big"), Attr("title", "GitHub")])) == " title=\"GitHub\""
  {
    ClassPropSuffix();
    ClassPropAttrs();
  }

  lemma ClassPropSuffix()
    ensures ClassSuffix([Attr("class", "big"), Attr("title", "GitHub")]) == " big"
  {
    assert ClassValue([Attr("class", "big"), Attr("title", "GitHub")]) == Some("big");
  }

  lemma ClassPropAttrs()
    ensures Attrs(WithoutClass([Attr("class", "big"), Attr("title", "GitHub")])) == " title=\"GitHub\""
  {
    var title := Attr("title", "GitHub");
    assert title.key != "class";
    WithoutClassDrops([], "big", [title]);
    assert [] + [Attr("class", "big")] + [title] == [Attr("class", "big"), title];
    assert Attrs([title]) == AttrText(title);
  }
}
