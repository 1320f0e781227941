/**
 * The three FontAwesome families the shortcode knows, the `type` strings
 * that name them, and the two different "other style" rules: the one the
 * render path falls back to, and the one the availability check suggests.
 */
module Styles {
  import opened Options

  datatype Style = Solid | Regular | Brand

  /** The accepted `type` strings (`TYPES`). */
  const Types: seq<string> := ["solid", "regular", "brand"]

  /** The `type` string that names a style. */
  function Name(s: Style): (t: string)
    ensures t in Types
  {
    match s
    case Solid => "solid"
    case Regular => "regular"
    case Brand => "brand"
  }

  /** `TYPES.includes(type)` together with the `switch` of `getIconSet`:
      exactly the three accepted strings name a style. */
  function Parse(t: string): (r: Option<Style>)
    ensures r.Some? <==> t in Types
    ensures r.Some? ==> t == Name(r.value)
  {
    if t == "solid" then Some(Solid)
    else if t == "regular" then Some(Regular)
    else if t == "brand" then Some(Brand)
    else None
  }

  /** The style a render uses: an accepted `type` names itself, anything
      else is replaced by "solid". */
  function Normalize(t: string): (s: Style)
    ensures t in Types ==> Name(s) == t
    ensures t !in Types ==> s == Solid
  {
    Parse(t).GetOr(Solid)
  }

  /** The one alternate style a render tries when the requested style lacks
      the icon: solid goes to regular, regular and brand go to solid. */
  function FallbackOf(s: Style): (f: Style)
    ensures f != s
    ensures f != Brand
    ensures f == Regular <==> s == Solid
  {
    if s == Solid then Regular else Solid
  }

  /** The style the availability check suggests instead of `t`: "regular"
      goes to "solid", every other string to "regular". */
  function Alternate(t: string): (a: string)
    ensures a in Types && a != "brand"
    ensures a != t
    ensures a == "solid" <==> t == "regular"
  {
    if t == "regular" then "solid" else "regular"
  }

  /** Reading a style's name gives the style back. */
  lemma ParseName(s: Style)
    ensures Parse(Name(s)) == Some(s)
  {
  }

  /** The two rules disagree on brand: rendering falls back to solid, the
      availability check suggests regular. */
  lemma AlternateDiffersOnBrand()
    ensures Alternate(Name(Brand)) != Name(FallbackOf(Brand))
  {
  }
}
