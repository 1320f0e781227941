/**
 * The strings the shortcode emits for a page: the extra-attribute string
 * (`_getAttrs`), the special handling of `class`, the symbol identifier,
 * and the two fragment shapes (a `<use>` reference to the sprite, or a
 * plain placeholder tag). Nothing is escaped, as in the shortcode.
 */
module Markup {
  import opened Options
  import opened Text

  /** One extra attribute of the request, in the attribute bag's
      enumeration order. */
  datatype Attr = Attr(key: string, value: string)

  /** ` key="value"`, as `_getAttrs` writes each attribute. */
  function AttrText(a: Attr): string
  {
    " " + a.key + "=\"" + a.value + "\""
  }

  /** The attribute string: every attribute's text, in bag order. */
  function Attrs(bag: seq<Attr>): (s: string)
    ensures s == "" <==> |bag| == 0
    ensures |bag| > 0 ==> s[0] == ' '
  {
    if |bag| == 0 then "" else AttrText(bag[0]) + Attrs(bag[1..])
  }

  /** The attribute string of a suffix: the attribute at `i`, then the rest. */
  lemma AttrsAt(bag: seq<Attr>, i: nat)
    requires i < |bag|
    ensures Attrs(bag[i..]) == AttrText(bag[i]) + Attrs(bag[i + 1..])
  {
    assert bag[i..][1..] == bag[i + 1..];
  }

  /** A loop form of `_getAttrs(obj)`: the empty string when there are no
      keys, otherwise each key's text concatenated in order. It computes
      `Attrs`, the form the fragment functions use. */
  method GetAttrs(bag: seq<Attr>) returns (attrs: string)
    ensures attrs == Attrs(bag)
    ensures |bag| == 0 ==> attrs == ""
  {
    attrs := "";
    if |bag| > 0 {
      var i := 0;
      while i < |bag|
        invariant 0 <= i <= |bag|
        invariant attrs + Attrs(bag[i..]) == Attrs(bag)
      {
        AttrsAt(bag, i);
        ConcatAssoc(attrs, AttrText(bag[i]), Attrs(bag[i + 1..]));
        attrs := attrs + AttrText(bag[i]);
        i := i + 1;
      }
      assert bag[i..] == [];
    }
  }

  /** Reads an attribute string back into its attributes. */
  function ParseAttrs(s: string): (r: Option<seq<Attr>>)
    decreases |s|
  {
    if |s| == 0 then Some([])
    else if s[0] != ' ' then None
    else
      match Cut(s[1..], '=')
      case None => None
      case Some((key, afterKey)) =>
        if |afterKey| == 0 || afterKey[0] != '"' then None
        else
          match Cut(afterKey[1..], '"')
          case None => None
          case Some((value, rest)) =>
            match ParseAttrs(rest)
            case None => None
            case Some(tail) => Some([Attr(key, value)] + tail)
  }

  /** Keys without `=` and values without `"` can be written unescaped and
      still be read back unambiguously. */
  predicate Unambiguous(a: Attr)
  {
    '=' !in a.key && '"' !in a.value
  }

  /** One attribute's text, taken apart at its first `=` and the quotes
      around its value. */
  lemma AttrTextShape(a: Attr, rest: string)
    ensures (AttrText(a) + rest)[0] == ' '
    ensures (AttrText(a) + rest)[1..] == a.key + ['='] + (['"'] + (a.value + ['"'] + rest))
  {
    var s := AttrText(a) + rest;
    assert s == [' '] + a.key + ['='] + ['"'] + a.value + ['"'] + rest;
  }

  /** `ParseAttrs` of a string whose first attribute has been cut out. */
  lemma ParseAttrsUnfold(s: string, key: string, afterKey: string, value: string, rest: string)
    requires |s| > 0 && s[0] == ' '
    requires Cut(s[1..], '=') == Some((key, afterKey))
    requires |afterKey| > 0 && afterKey[0] == '"'
    requires Cut(afterKey[1..], '"') == Some((value, rest))
    ensures ParseAttrs(s) == (match ParseAttrs(rest)
                              case None => None
                              case Some(tail) => Some([Attr(key, value)] + tail))
  {
  }

  /** Reading one unambiguous attribute's text off the front of `rest`. */
  lemma ParseAttrsStep(a: Attr, rest: string)
    requires Unambiguous(a)
    ensures ParseAttrs(AttrText(a) + rest) == (match ParseAttrs(rest)
                                               case None => None
                                               case Some(tail) => Some([a] + tail))
  {
    var s := AttrText(a) + rest;
    var quoted := a.value + ['"'] + rest;
    var afterKey := ['"'] + quoted;
    AttrTextShape(a, rest);
    CutAfter(a.key, '=', afterKey);
    assert afterKey[1..] == quoted;
    CutAfter(a.value, '"', rest);
    ParseAttrsUnfold(s, a.key, afterKey, a.value, rest);
  }

  /** The induction step of the round trip: one more attribute in front. */
  lemma ParseAttrsCons(bag: seq<Attr>, tail: seq<Attr>)
    requires |bag| > 0 && tail == bag[1..] && Unambiguous(bag[0])
    requires ParseAttrs(Attrs(tail)) == Some(tail)
    ensures ParseAttrs(Attrs(bag)) == Some(bag)
  {
    ParseAttrsStep(bag[0], Attrs(tail));
    assert Attrs(bag) == AttrText(bag[0]) + Attrs(tail);
    assert [bag[0]] + tail == bag;
  }

  /** The attribute string determines the attributes, as long as no key
      holds `=` and no value holds `"` (nothing is escaped). */
  lemma {:induction false} ParseAttrsRoundTrip(bag: seq<Attr>)
    requires forall i :: 0 <= i < |bag| ==> Unambiguous(bag[i])
    ensures ParseAttrs(Attrs(bag)) == Some(bag)
  {
    if |bag| > 0 {
      var tail := bag[1..];
      assert forall i :: 0 <= i < |tail| ==> Unambiguous(tail[i]) by {
        assert forall i :: 0 <= i < |tail| ==> tail[i] == bag[i + 1];
      }
      ParseAttrsRoundTrip(tail);
      ParseAttrsCons(bag, tail);
    }
  }

  /** `rest.class`: the value the bag holds under `class`, if any. */
  function ClassValue(bag: seq<Attr>): (r: Option<string>)
    ensures r.Some? <==> exists i :: 0 <= i < |bag| && bag[i].key == "class"
    ensures r.Some? ==> Attr("class", r.value) in bag
  {
    if |bag| == 0 then None
    else if bag[0].key == "class" then Some(bag[0].value)
    else
      var r := ClassValue(bag[1..]);
      assert forall i :: 1 <= i < |bag| ==> bag[i] == bag[1..][i - 1];
      r
  }

  /** The text appended to `icon` in the emitted `class` attribute: a space
      and the requested class when it is a non-empty string, else nothing. */
  function ClassSuffix(bag: seq<Attr>): (s: string)
    ensures s == "" <==> ClassValue(bag) == None || ClassValue(bag) == Some("")
    ensures s != "" ==> s == " " + ClassValue(bag).value
  {
    match ClassValue(bag)
    case Some(v) => if v != "" then " " + v else ""
    case None => ""
  }

  /** `delete rest.class`: the bag without its `class` attribute, the
      others kept in order. */
  function WithoutClass(bag: seq<Attr>): (r: seq<Attr>)
    ensures |r| <= |bag|
    ensures forall i :: 0 <= i < |r| ==> r[i].key != "class"
  {
    if |bag| == 0 then []
    else if bag[0].key == "class" then WithoutClass(bag[1..])
    else [bag[0]] + WithoutClass(bag[1..])
  }

  /** Deleting `class` keeps exactly the other attributes, and a bag
      without `class` is left as it is. */
  lemma {:induction false} WithoutClassKeeps(bag: seq<Attr>)
    ensures forall a :: a in WithoutClass(bag) <==> a in bag && a.key != "class"
    ensures (forall i :: 0 <= i < |bag| ==> bag[i].key != "class") ==> WithoutClass(bag) == bag
  {
    if |bag| > 0 {
      var tail := bag[1..];
      WithoutClassKeeps(tail);
      assert forall a :: a in bag <==> a == bag[0] || a in tail;
      assert forall i :: 1 <= i < |bag| ==> bag[i] == tail[i - 1];
      assert bag == [bag[0]] + tail;
    }
  }

  /** Deleting `class` works run by run, so the kept attributes stay in
      bag order. */
  lemma {:induction false} WithoutClassConcat(a: seq<Attr>, b: seq<Attr>)
    ensures WithoutClass(a + b) == WithoutClass(a) + WithoutClass(b)
  {
    if |a| > 0 {
      assert (a + b)[1..] == a[1..] + b;
      WithoutClassConcat(a[1..], b);
    } else {
      assert a + b == b;
    }
  }

  /** A bag with one `class` attribute between other attributes loses
      exactly that attribute, the others keeping their order. */
  lemma WithoutClassDrops(pre: seq<Attr>, v: string, post: seq<Attr>)
    requires forall i :: 0 <= i < |pre| ==> pre[i].key != "class"
    requires forall i :: 0 <= i < |post| ==> post[i].key != "class"
    ensures WithoutClass(pre + [Attr("class", v)] + post) == pre + post
  {
    var cls := [Attr("class", v)];
    WithoutClassConcat(pre + cls, post);
    WithoutClassConcat(pre, cls);
    assert cls[1..] == [];
    assert WithoutClass(cls) == [];
    WithoutClassKeeps(pre);
    WithoutClassKeeps(post);
    assert WithoutClass(pre + cls) == pre;
  }

  /** The symbol identifier of a definition: `{prefix}-fa-{iconName}`. */
  function SymbolId(prefix: string, iconName: string): string
  {
    prefix + "-fa-" + iconName
  }

  /** Reads a symbol identifier back into prefix and icon name, cutting at
      the first `-`. */
  function ParseSymbolId(id: string): (r: Option<(string, string)>)
    ensures r.Some? ==> SymbolId(r.value.0, r.value.1) == id
  {
    match Cut(id, '-')
    case None => None
    case Some((prefix, rest)) =>
      if |rest| >= 3 && rest[..3] == "fa-" then
        assert rest == "fa-" + rest[3..];
        Some((prefix, rest[3..]))
      else None
  }

  /** For prefixes without `-` (the FontAwesome ones are `fas`, `far`,
      `fab`) the identifier gives prefix and icon name back. */
  lemma SymbolIdRoundTrip(prefix: string, iconName: string)
    requires '-' !in prefix
    ensures ParseSymbolId(SymbolId(prefix, iconName)) == Some((prefix, iconName))
  {
    CutAfter(prefix, '-', "fa-" + iconName);
    assert SymbolId(prefix, iconName) == prefix + ['-'] + ("fa-" + iconName);
    assert ("fa-" + iconName)[3..] == iconName;
  }

  /** Hence two such definitions share an identifier only if they agree on
      both prefix and icon name. */
  lemma SymbolIdInjective(p1: string, n1: string, p2: string, n2: string)
    requires '-' !in p1 && '-' !in p2
    requires SymbolId(p1, n1) == SymbolId(p2, n2)
    ensures p1 == p2 && n1 == n2
  {
    SymbolIdRoundTrip(p1, n1);
    SymbolIdRoundTrip(p2, n2);
  }

  /** Where the sprite file is served from, as the `<use>` reference names it. */
  const SpriteHref: string := "/fa-icons.svg#"

  function OpenTag(tag: string, classSuffix: string, attrs: string): string
  {
    "<" + tag + " class=\"icon" + classSuffix + "\"" + attrs + ">"
  }

  function CloseTag(tag: string): string
  {
    "</" + tag + ">"
  }

  /** The fragment for a resolved icon: the wrapper tag around an inline
      `<svg>` that uses the sprite's symbol `id`. */
  function UseMarkup(tag: string, classSuffix: string, attrs: string, id: string): string
  {
    OpenTag(tag, classSuffix, attrs)
      + "<svg><use xlink:href=\"" + SpriteHref + id + "\"></use></svg>"
      + CloseTag(tag)
  }

  /** The fragment for an unresolved icon: the wrapper tag around `text`. */
  function PlaceholderMarkup(tag: string, classSuffix: string, attrs: string, text: string): string
  {
    OpenTag(tag, classSuffix, attrs) + text + CloseTag(tag)
  }

  /** A `<use>` fragment names exactly one symbol: with the same wrapper,
      different identifiers give different fragments. */
  lemma UseMarkupDeterminesId(tag: string, classSuffix: string, attrs: string, id1: string, id2: string)
    requires UseMarkup(tag, classSuffix, attrs, id1) == UseMarkup(tag, classSuffix, attrs, id2)
    ensures id1 == id2
  {
    var pre := OpenTag(tag, classSuffix, attrs) + "<svg><use xlink:href=\"" + SpriteHref;
    var post := "\"></use></svg>" + CloseTag(tag);
    var m1 := UseMarkup(tag, classSuffix, attrs, id1);
    var m2 := UseMarkup(tag, classSuffix, attrs, id2);
    assert m1 == pre + id1 + post;
    assert m2 == pre + id2 + post;
    assert id1 == m1[|pre|..|m1| - |post|];
    assert id2 == m2[|pre|..|m2| - |post|];
  }
}
