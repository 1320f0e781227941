/**
 * The FontAwesome icon packages as the shortcode sees them: one export
 * object per style, whose icon exports are definitions carrying a prefix,
 * an icon name and the pre-rendered `<symbol>` markup.
 */
module Catalog {
  import opened Options
  import opened Styles

  /** One icon definition. `markup` stands for what the library renders as
      the icon's `<symbol>` element. */
  datatype IconDef = IconDef(prefix: string, iconName: string, markup: string)

  /** One icon package: the keys of its export object in enumeration order,
      and the exports among them that are icon definitions (keyed `faCoffee`). */
  datatype IconSet = IconSet(exports: seq<string>, icons: map<string, IconDef>)

  /** The three packages, one per style. */
  datatype Catalog = Catalog(solid: IconSet, regular: IconSet, brand: IconSet)

  function SetFor(c: Catalog, s: Style): IconSet
  {
    match s
    case Solid => c.solid
    case Regular => c.regular
    case Brand => c.brand
  }

  /** `getIconSet(type, canBeNull)`: the package of an accepted `type`; for
      any other string, nothing when `canBeNull` and the solid package
      otherwise. */
  function GetIconSet(c: Catalog, t: string, canBeNull: bool): (r: Option<IconSet>)
    ensures r.None? <==> canBeNull && t !in Types
    ensures r.Some? ==> r.value == SetFor(c, Normalize(t))
  {
    match Parse(t)
    case Some(s) => Some(SetFor(c, s))
    case None => if canBeNull then None else Some(c.solid)
  }

  /** Every rendered symbol is non-empty markup, which is what the table's
      truthiness test relies on. */
  ghost predicate NonEmptyMarkups(c: Catalog)
  {
    forall s: Style, k :: k in SetFor(c, s).icons ==> SetFor(c, s).icons[k].markup != ""
  }

  /** Every rendered symbol is a single line. */
  ghost predicate SingleLineMarkups(c: Catalog)
  {
    forall s: Style, k :: k in SetFor(c, s).icons ==> '\n' !in SetFor(c, s).icons[k].markup
  }

  /** How many leading exports `getAvailableIcons` skips (`idx > 2`). */
  const SkippedExports: nat := 3

  /** Export `k` is an icon whose (non-empty, hence truthy) name is `x`. */
  predicate Names(icons: map<string, IconDef>, k: string, x: string)
  {
    k in icons && icons[k].iconName == x && x != ""
  }

  /** The icon names of the exports `keys`, in order; exports that are not
      icons, and empty names, are dropped (`.filter(Boolean)`). */
  function NamesOf(keys: seq<string>, icons: map<string, IconDef>): (r: seq<string>)
    ensures |r| <= |keys|
    ensures forall x :: x in r <==> exists k :: k in keys && Names(icons, k, x)
  {
    if |keys| == 0 then []
    else
      var tail := NamesOf(keys[1..], icons);
      assert forall k :: k in keys <==> k == keys[0] || k in keys[1..];
      if keys[0] in icons && icons[keys[0]].iconName != "" then
        assert Names(icons, keys[0], icons[keys[0]].iconName);
        [icons[keys[0]].iconName] + tail
      else tail
  }

  /** The names come in export order: listing two runs of exports one
      after the other lists the first run's names, then the second's. */
  lemma {:induction false} NamesOfConcat(a: seq<string>, b: seq<string>, icons: map<string, IconDef>)
    ensures NamesOf(a + b, icons) == NamesOf(a, icons) + NamesOf(b, icons)
  {
    if |a| > 0 {
      assert (a + b)[1..] == a[1..] + b;
      NamesOfConcat(a[1..], b, icons);
    } else {
      assert a + b == b;
    }
  }

  /** `x` is listed for the package: some export past the skipped ones is
      an icon named `x`. */
  ghost predicate Lists(pkg: IconSet, x: string)
  {
    exists i :: SkippedExports <= i < |pkg.exports| && Names(pkg.icons, pkg.exports[i], x)
  }

  /** The names `getAvailableIcons` reports for a package. */
  function Listed(pkg: IconSet): (r: seq<string>)
    ensures |r| <= |pkg.exports|
    ensures forall x :: x in r <==> Lists(pkg, x)
  {
    if |pkg.exports| <= SkippedExports then []
    else
      var keys := pkg.exports[SkippedExports..];
      assert forall i :: SkippedExports <= i < |pkg.exports| ==> pkg.exports[i] == keys[i - SkippedExports];
      NamesOf(keys, pkg.icons)
  }

  /** An export added after the skipped ones adds its name, if it has one,
      at the end of the listing. */
  lemma ListedAppend(pkg: IconSet, k: string)
    requires |pkg.exports| >= SkippedExports
    ensures Listed(IconSet(pkg.exports + [k], pkg.icons)) == Listed(pkg) + NamesOf([k], pkg.icons)
  {
    var keys := pkg.exports[SkippedExports..];
    assert (pkg.exports + [k])[SkippedExports..] == keys + [k];
    NamesOfConcat(keys, [k], pkg.icons);
    if |pkg.exports| == SkippedExports {
      assert keys == [];
      assert NamesOf(keys, pkg.icons) == [];
    }
  }

  /** Every icon of the package is one of its exports, as on a module's
      export object. */
  predicate ExportsIcons(pkg: IconSet)
  {
    forall k :: k in pkg.icons ==> k in pkg.exports
  }

  /** So an icon the shortcode can resolve is listed, unless it is among the
      skipped leading exports or has an empty name. */
  lemma IconListed(pkg: IconSet, k: string)
    requires ExportsIcons(pkg) && k in pkg.icons
    requires forall j :: 0 <= j < |pkg.exports| && j < SkippedExports ==> pkg.exports[j] != k
    requires pkg.icons[k].iconName != ""
    ensures Lists(pkg, pkg.icons[k].iconName)
    ensures pkg.icons[k].iconName in Listed(pkg)
  {
    var i :| 0 <= i < |pkg.exports| && pkg.exports[i] == k;
    assert SkippedExports <= i && Names(pkg.icons, pkg.exports[i], pkg.icons[k].iconName);
  }
}
