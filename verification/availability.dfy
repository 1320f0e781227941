/**
 * The two diagnostic entry points: `getAvailableIcons`, which lists the
 * icon names of a style's package, and `isIconAvailable`, which reports
 * whether a name is among them and, if not, whether the alternate style
 * has it. The logged text is left out; the verdicts are modelled.
 * The plain camel-case conversion of names is the parameter `camel`.
 */
module Availability {
  import opened Options
  import opened Styles
  import opened Catalog

  /** What `getAvailableIcons` produces: it throws, returns `undefined`,
      returns `false`, or returns the list of names. */
  datatype Listing = Throws | Undefined | NoIcons | Names(names: seq<string>)

  /** `getAvailableIcons(type)` as evidently intended: `undefined` for a
      `type` outside the accepted three, otherwise the names the package
      lists. The `false` answer is never given, since every accepted type
      has a package. */
  function GetAvailableIcons(c: Catalog, t: string): (r: Listing)
    ensures r.Undefined? <==> t !in Types
    ensures !r.Throws? && !r.NoIcons?
    ensures r.Names? ==> forall x :: x in r.names <==> Lists(SetFor(c, Normalize(t)), x)
    ensures r.Names? ==> r.names == Listed(SetFor(c, Normalize(t)))
  {
    if t !in Types then Undefined
    else
      match GetIconSet(c, t, true)
      case None => NoIcons
      case Some(pkg) => Names(Listed(pkg))
  }

  /** `getAvailableIcons(type)` as written: for a `type` outside the
      accepted three, building the warning text reads a variable `name`
      that is not declared in that function, so the call throws instead of
      returning `undefined`. */
  function GetAvailableIconsAsWritten(c: Catalog, t: string): (r: Listing)
    ensures r.Throws? <==> t !in Types
  {
    if t !in Types then Throws else GetAvailableIcons(c, t)
  }

  /** The defect shows on any unaccepted type, "bold" for one. */
  lemma AsWrittenThrowsOnUnknownType(c: Catalog)
    ensures GetAvailableIconsAsWritten(c, "bold") == Throws
    ensures GetAvailableIcons(c, "bold") == Undefined
  {
  }

  /** On accepted types both agree, which is all `isIconAvailable` uses. */
  lemma AsWrittenAgreesOnAcceptedTypes(c: Catalog, t: string)
    requires t in Types
    ensures GetAvailableIconsAsWritten(c, t) == GetAvailableIcons(c, t)
  {
  }

  /** The outcome `isIconAvailable` reports. The "yes" message names the
      camel-cased name it looked up; the "no" message names the name as
      given. */
  datatype Verdict =
    | InvalidType
    | NoIconSet
    | Available(faName: string)
    | NotAvailable(name: string, alternate: string, inAlternate: bool)

  /** `isIconAvailable(name, type)`: for an accepted type, whether the
      camel-cased name is listed there; if not, whether it is listed in the
      alternate type ("regular" for solid and brand, "solid" for regular). */
  function IsIconAvailable(c: Catalog, camel: string -> string, name: string, t: string): (r: Verdict)
    ensures r.InvalidType? <==> t !in Types
    ensures !r.NoIconSet?
    ensures r.Available? <==> t in Types && Lists(SetFor(c, Normalize(t)), camel(name))
    ensures r.NotAvailable? ==>
              && r.alternate in Types
              && r.alternate != t
              && (r.alternate == "solid" <==> t == "regular")
              && (r.inAlternate <==> Lists(SetFor(c, Normalize(r.alternate)), camel(name)))
    ensures r.Available? ==> r.faName == camel(name)
    ensures r.NotAvailable? ==> r.name == name
  {
    if t !in Types then InvalidType
    else
      match GetAvailableIcons(c, t)
      case Names(names) =>
        var faName := camel(name);
        if faName in names then Available(faName)
        else
          var alternate := Alternate(t);
          var inAlternate :=
            match GetAvailableIcons(c, alternate)
            case Names(others) => faName in others
            case _ => false;
          NotAvailable(name, alternate, inAlternate)
      case _ => NoIconSet
  }
}
