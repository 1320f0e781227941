/**
 * `FontAwesomeIcon`: normalise the requested style, resolve the icon with
 * at most one fallback style, store its symbol in the table (rewriting the
 * sprite file when the symbol is new) and return the page fragment.
 * The name-to-PascalCase conversion is the parameter `pascal`.
 */
module Shortcode {
  import opened Options
  import opened Styles
  import opened Catalog
  import opened Markup
  import opened Symbols
  import Sprite

  /** One shortcode call: the icon name, the optional `type` (here `style`)
      and `tag`, and the remaining props (everything but name, type and
      tag) in their enumeration order. */
  datatype Request = Request(name: string, style: Option<string>, tag: Option<string>, rest: seq<Attr>)

  const DefaultType: string := "solid"
  const DefaultTag: string := "i"

  /** The style used for lookup: the requested one when it is accepted,
      otherwise solid. */
  function StyleOf(req: Request): Style
  {
    Normalize(req.style.GetOr(DefaultType))
  }

  /** The wrapper tag: the requested one, `i` by default. */
  function TagOf(req: Request): string
  {
    req.tag.GetOr(DefaultTag)
  }

  /** The export key looked up in a package: `fa` + the PascalCase name. */
  function IconKey(pascal: string -> string, name: string): string
  {
    "fa" + pascal(name)
  }

  /** Which of the three outcomes a lookup had. */
  datatype Resolution =
    | ResolvedPrimary(def: IconDef)
    | ResolvedFallback(def: IconDef, style: Style)
    | Unresolved

  /** Look `key` up in style `s`, and only if that fails in `FallbackOf(s)`. */
  function Resolve(c: Catalog, s: Style, key: string): (r: Resolution)
    ensures r.ResolvedPrimary? <==> key in SetFor(c, s).icons
    ensures r.ResolvedPrimary? ==> r.def == SetFor(c, s).icons[key]
    ensures r.ResolvedFallback? <==>
              key !in SetFor(c, s).icons && key in SetFor(c, FallbackOf(s)).icons
    ensures r.ResolvedFallback? ==>
              r.style == FallbackOf(s) && r.style != s && r.def == SetFor(c, r.style).icons[key]
    ensures r.Unresolved? <==>
              key !in SetFor(c, s).icons && key !in SetFor(c, FallbackOf(s)).icons
  {
    if key in SetFor(c, s).icons then ResolvedPrimary(SetFor(c, s).icons[key])
    else
      var f := FallbackOf(s);
      if key in SetFor(c, f).icons then ResolvedFallback(SetFor(c, f).icons[key], f)
      else Unresolved
  }

  /** Resolution reads only the requested style's package and its fallback's:
      catalogs that agree on those two resolve every key alike. */
  lemma ResolveReadsTwoStyles(c1: Catalog, c2: Catalog, s: Style, key: string)
    requires SetFor(c1, s).icons == SetFor(c2, s).icons
    requires SetFor(c1, FallbackOf(s)).icons == SetFor(c2, FallbackOf(s)).icons
    ensures Resolve(c1, s, key) == Resolve(c2, s, key)
  {
  }

  /** The definition a request resolves to, if any. */
  function Target(c: Catalog, pascal: string -> string, req: Request): (r: Option<IconDef>)
    ensures r.None? <==> Resolve(c, StyleOf(req), IconKey(pascal, req.name)).Unresolved?
    ensures r.Some? ==> r.value == Resolve(c, StyleOf(req), IconKey(pascal, req.name)).def
    ensures r.Some? && NonEmptyMarkups(c) ==> r.value.markup != ""
    ensures r.Some? && SingleLineMarkups(c) ==> '\n' !in r.value.markup
  {
    match Resolve(c, StyleOf(req), IconKey(pascal, req.name))
    case Unresolved => None
    case ResolvedPrimary(d) => Some(d)
    case ResolvedFallback(d, _) => Some(d)
  }

  /** The symbol identifier a request resolves to, if any. */
  function TargetId(c: Catalog, pascal: string -> string, req: Request): Option<string>
  {
    match Target(c, pascal, req)
    case None => None
    case Some(d) => Some(SymbolId(d.prefix, d.iconName))
  }

  function IdsOf(id: Option<string>): set<string>
  {
    match id
    case None => {}
    case Some(i) => {i}
  }

  datatype Rendered = Rendered(state: State, markup: string)

  /** The fragment a request returns: a `<use>` reference to the resolved
      symbol, or a placeholder showing the looked-up key. It depends on the
      request and the catalog only, never on the table. */
  function Fragment(c: Catalog, pascal: string -> string, req: Request): string
  {
    var tag := TagOf(req);
    var classSuffix := ClassSuffix(req.rest);
    var attrs := Attrs(WithoutClass(req.rest));
    match TargetId(c, pascal, req)
    case None => PlaceholderMarkup(tag, classSuffix, attrs, IconKey(pascal, req.name))
    case Some(id) => UseMarkup(tag, classSuffix, attrs, id)
  }

  /** The table half of `FontAwesomeIcon(request)`: exactly the resolved
      identifier is added, no entry that held is replaced, and the sprite
      file is written once when the identifier did not hold and not at all
      otherwise. */
  function Step(c: Catalog, pascal: string -> string, st: State, req: Request): (st': State)
    ensures Valid(st.symbols) ==> Valid(st'.symbols)
    ensures st'.symbols.entries.Keys == st.symbols.entries.Keys + IdsOf(TargetId(c, pascal, req))
    ensures forall k :: Holds(st.symbols, k) ==>
              k in st'.symbols.entries && st'.symbols.entries[k] == st.symbols.entries[k]
    ensures forall k :: k in st.symbols.entries && Some(k) != TargetId(c, pascal, req) ==>
              st'.symbols.entries[k] == st.symbols.entries[k]
    ensures |st'.writes| == |st.writes| +
              (if TargetId(c, pascal, req).Some? && !Holds(st.symbols, TargetId(c, pascal, req).value)
               then 1 else 0)
    ensures match Target(c, pascal, req)
            case None => st' == st
            case Some(d) =>
              var id := SymbolId(d.prefix, d.iconName);
              && id in st'.symbols.entries
              && st'.symbols.entries[id] == (if Holds(st.symbols, id) then st.symbols.entries[id] else d.markup)
  {
    match Target(c, pascal, req)
    case None => st
    case Some(d) => Ensure(st, SymbolId(d.prefix, d.iconName), d.markup)
  }

  /** `FontAwesomeIcon(request)` against the table in `st`: an unresolved
      request returns the placeholder and changes nothing; a resolved one
      returns a `<use>` reference to a symbol the table then holds. */
  function Render(c: Catalog, pascal: string -> string, st: State, req: Request): (out: Rendered)
    ensures TargetId(c, pascal, req).None? ==>
              && out.state == st
              && out.markup == PlaceholderMarkup(TagOf(req), ClassSuffix(req.rest), Attrs(WithoutClass(req.rest)),
                                                 IconKey(pascal, req.name))
    ensures TargetId(c, pascal, req).Some? ==>
              var id := TargetId(c, pascal, req).value;
              && id in out.state.symbols.entries
              && out.markup == UseMarkup(TagOf(req), ClassSuffix(req.rest), Attrs(WithoutClass(req.rest)), id)
  {
    Rendered(Step(c, pascal, st, req), Fragment(c, pascal, req))
  }

  /** The table step only extends the key order and the write log; a write
      it adds is the document of the new table, so the last write stays in
      step with the table. */
  lemma StepLog(c: Catalog, pascal: string -> string, st: State, req: Request)
    ensures var out := Step(c, pascal, st, req);
            && st.symbols.order <= out.symbols.order
            && st.writes <= out.writes
            && (|out.writes| > |st.writes| ==> out.writes[|st.writes|] == Snapshot(out.symbols))
            && (Synced(st) ==> Synced(out))
  {
    match Target(c, pascal, req)
    case None =>
    case Some(d) =>
      EnsureSynced(st, SymbolId(d.prefix, d.iconName), d.markup);
  }

  /** With non-empty catalog markups the table step keeps every entry
      non-empty and writes exactly when it adds a key; with single-line
      markups it keeps every entry a single line. */
  lemma StepKeepsEntries(c: Catalog, pascal: string -> string, st: State, req: Request)
    ensures var out := Step(c, pascal, st, req);
            Truthy(st.symbols) && NonEmptyMarkups(c) ==>
              && Truthy(out.symbols)
              && |out.writes| - |st.writes| == |out.symbols.order| - |st.symbols.order|
    ensures SingleLineEntries(st.symbols) && NonEmptyMarkups(c) && SingleLineMarkups(c) ==>
              SingleLineEntries(Step(c, pascal, st, req).symbols)
  {
    match Target(c, pascal, req)
    case None =>
    case Some(d) =>
      EnsureKeepsEntries(st, SymbolId(d.prefix, d.iconName), d.markup);
  }

  /** An icon missing from both the requested style and its fallback gives
      a placeholder tag whose text is the looked-up key, and leaves the
      table and the sprite file as they were. */
  lemma RenderUnresolved(c: Catalog, pascal: string -> string, st: State, req: Request)
    requires IconKey(pascal, req.name) !in SetFor(c, StyleOf(req)).icons
    requires IconKey(pascal, req.name) !in SetFor(c, FallbackOf(StyleOf(req))).icons
    ensures Render(c, pascal, st, req) ==
              Rendered(st, PlaceholderMarkup(TagOf(req), ClassSuffix(req.rest), Attrs(WithoutClass(req.rest)),
                                             "fa" + pascal(req.name)))
  {
  }

  /** An icon found in the requested style is referenced by that
      definition's identifier. */
  lemma FragmentPrimary(c: Catalog, pascal: string -> string, req: Request)
    requires IconKey(pascal, req.name) in SetFor(c, StyleOf(req)).icons
    ensures var d := SetFor(c, StyleOf(req)).icons[IconKey(pascal, req.name)];
            Fragment(c, pascal, req) ==
              UseMarkup(TagOf(req), ClassSuffix(req.rest), Attrs(WithoutClass(req.rest)),
                        SymbolId(d.prefix, d.iconName))
  {
  }

  /** An icon found only in the fallback style is referenced by the fallback
      definition's identifier, so the reference carries the fallback prefix. */
  lemma FragmentFallback(c: Catalog, pascal: string -> string, req: Request)
    requires IconKey(pascal, req.name) !in SetFor(c, StyleOf(req)).icons
    requires IconKey(pascal, req.name) in SetFor(c, FallbackOf(StyleOf(req))).icons
    ensures var d := SetFor(c, FallbackOf(StyleOf(req))).icons[IconKey(pascal, req.name)];
            Fragment(c, pascal, req) ==
              UseMarkup(TagOf(req), ClassSuffix(req.rest), Attrs(WithoutClass(req.rest)),
                        SymbolId(d.prefix, d.iconName))
  {
  }

  /** It is then the fallback definition's symbol that the table holds
      under that identifier, unless one already held there. */
  lemma RenderFallbackStores(c: Catalog, pascal: string -> string, st: State, req: Request)
    requires IconKey(pascal, req.name) !in SetFor(c, StyleOf(req)).icons
    requires IconKey(pascal, req.name) in SetFor(c, FallbackOf(StyleOf(req))).icons
    ensures var d := SetFor(c, FallbackOf(StyleOf(req))).icons[IconKey(pascal, req.name)];
            var id := SymbolId(d.prefix, d.iconName);
            var out := Render(c, pascal, st, req).state;
            && id in out.symbols.entries
            && out.symbols.entries[id] == (if Holds(st.symbols, id) then st.symbols.entries[id] else d.markup)
  {
  }

  /** The returned fragment does not depend on what the table holds. */
  lemma RenderMarkupIgnoresTable(c: Catalog, pascal: string -> string, st1: State, st2: State, req: Request)
    ensures Render(c, pascal, st1, req).markup == Render(c, pascal, st2, req).markup
  {
  }

  /** Rendering the same request again returns the same fragment and
      changes neither the table nor the sprite file. */
  lemma RenderIdempotent(c: Catalog, pascal: string -> string, st: State, req: Request)
    requires NonEmptyMarkups(c)
    ensures var first := Render(c, pascal, st, req);
            var second := Render(c, pascal, first.state, req);
            second == first
  {
    var first := Render(c, pascal, st, req);
    match TargetId(c, pascal, req)
    case None =>
    case Some(id) =>
      assert Holds(first.state.symbols, id);
  }

  /** A build: the requests rendered one after another, each against the
      table the previous ones left. */
  function RenderAll(c: Catalog, pascal: string -> string, st: State, reqs: seq<Request>): (out: State)
    ensures Valid(st.symbols) ==> Valid(out.symbols)
    decreases |reqs|
  {
    if |reqs| == 0 then st
    else RenderAll(c, pascal, Step(c, pascal, st, reqs[0]), reqs[1..])
  }

  /** The identifiers the requests resolve to. */
  function TargetIds(c: Catalog, pascal: string -> string, reqs: seq<Request>): set<string>
    decreases |reqs|
  {
    if |reqs| == 0 then {}
    else IdsOf(TargetId(c, pascal, reqs[0])) + TargetIds(c, pascal, reqs[1..])
  }

  /** After a build the table holds exactly the identifiers it held before
      plus one per distinct resolved identifier. */
  lemma {:induction false} RenderAllKeys(c: Catalog, pascal: string -> string, st: State, reqs: seq<Request>)
    ensures RenderAll(c, pascal, st, reqs).symbols.entries.Keys
              == st.symbols.entries.Keys + TargetIds(c, pascal, reqs)
    decreases |reqs|
  {
    if |reqs| > 0 {
      var next := Step(c, pascal, st, reqs[0]);
      var ids := IdsOf(TargetId(c, pascal, reqs[0]));
      assert next.symbols.entries.Keys == st.symbols.entries.Keys + ids;
      RenderAllKeys(c, pascal, next, reqs[1..]);
      assert TargetIds(c, pascal, reqs) == ids + TargetIds(c, pascal, reqs[1..]);
    }
  }

  /** A build never replaces a symbol that held, only extends the key order
      and the write log, and leaves the last document written in step with
      the table. */
  lemma {:induction false} RenderAllGrows(c: Catalog, pascal: string -> string, st: State, reqs: seq<Request>)
    ensures var out := RenderAll(c, pascal, st, reqs);
            && (forall k :: Holds(st.symbols, k) ==>
                  k in out.symbols.entries && out.symbols.entries[k] == st.symbols.entries[k])
            && st.symbols.order <= out.symbols.order
            && st.writes <= out.writes
            && (Synced(st) ==> Synced(out))
    decreases |reqs|
  {
    if |reqs| > 0 {
      var next := Step(c, pascal, st, reqs[0]);
      StepLog(c, pascal, st, reqs[0]);
      RenderAllGrows(c, pascal, next, reqs[1..]);
      assert forall k :: Holds(st.symbols, k) ==> Holds(next.symbols, k);
    }
  }

  /** With non-empty symbols, the sprite file is written exactly once per
      identifier added to the table. */
  lemma {:induction false} RenderAllWrites(c: Catalog, pascal: string -> string, st: State, reqs: seq<Request>)
    requires Truthy(st.symbols) && NonEmptyMarkups(c)
    ensures var out := RenderAll(c, pascal, st, reqs);
            && Truthy(out.symbols)
            && |out.writes| - |st.writes| == |out.symbols.order| - |st.symbols.order|
            && (SingleLineEntries(st.symbols) && SingleLineMarkups(c) ==> SingleLineEntries(out.symbols))
    decreases |reqs|
  {
    if |reqs| > 0 {
      var next := Step(c, pascal, st, reqs[0]);
      StepKeepsEntries(c, pascal, st, reqs[0]);
      RenderAllWrites(c, pascal, next, reqs[1..]);
    }
  }

  /** A whole build from an empty table: K distinct resolved identifiers,
      however often and in whatever order requested, give exactly K table
      entries and K sprite writes. */
  lemma BuildCounts(c: Catalog, pascal: string -> string, reqs: seq<Request>)
    requires NonEmptyMarkups(c)
    ensures var out := RenderAll(c, pascal, Empty, reqs);
            var k := |TargetIds(c, pascal, reqs)|;
            && out.symbols.entries.Keys == TargetIds(c, pascal, reqs)
            && |out.symbols.entries| == k
            && |out.writes| == k
  {
    var out := RenderAll(c, pascal, Empty, reqs);
    assert Valid(Empty.symbols) && Truthy(Empty.symbols);
    RenderAllKeys(c, pascal, Empty, reqs);
    RenderAllWrites(c, pascal, Empty, reqs);
    assert out.symbols.entries.Keys == TargetIds(c, pascal, reqs);
    assert |out.symbols.entries| == |out.symbols.entries.Keys|;
  }

  /** After a build from an empty table, the last document written lists
      exactly the stored symbols, one per table entry, in insertion order. */
  lemma BuildSprite(c: Catalog, pascal: string -> string, reqs: seq<Request>)
    requires NonEmptyMarkups(c) && SingleLineMarkups(c)
    ensures var out := RenderAll(c, pascal, Empty, reqs);
            |out.writes| > 0 ==> Sprite.ParseDocument(out.writes[|out.writes| - 1]) == Some(Stored(out.symbols))
  {
    var out := RenderAll(c, pascal, Empty, reqs);
    assert Valid(Empty.symbols) && Truthy(Empty.symbols) && SingleLineEntries(Empty.symbols);
    assert Synced(Empty);
    RenderAllGrows(c, pascal, Empty, reqs);
    RenderAllWrites(c, pascal, Empty, reqs);
    if |out.writes| > 0 {
      SyncedFileLists(out);
    }
  }
}
