/** `resolveTarget` (helpers.ts): the id an element refers to, taken from one of its
    attributes or else from the fragment of its `href`, as Bootstrap's selector
    engine does. */
module Helpers {
  import opened Js
  import opened Dom

  /** `resolveTarget(element, name)`, given `element.getAttribute(name)` and
      `element.getAttribute("href")`. The result is always a string. */
  function ResolveTarget(attr: Option<string>, href: Option<string>): (r: string)
  {
    if (attr.None? || attr.value == "" || attr.value == "#") && href.Some? then
      if href.value == "" || '#' !in href.value then ""
      else Trim(SecondField(href.value, '#'))
    else if attr.None? then ""
    else attr.value
  }

  /** `resolveTarget` applied to an element of the page. */
  function Resolve(e: Element, name: string): string
    reads e
  {
    ResolveTarget(e.Attr(name), e.Attr("href"))
  }

  /** The attribute wins, verbatim and untrimmed, whenever it is set to anything but
      `""` or `"#"`; otherwise, with no `href`, the result is `""` unless the
      attribute was exactly `"#"`. */
  lemma AttributeWins(attr: Option<string>, href: Option<string>)
    ensures attr.Some? && attr.value != "" && attr.value != "#" ==> ResolveTarget(attr, href) == attr.value
    ensures href.None? ==> ResolveTarget(attr, href) == (if attr.Some? then attr.value else "")
  {
  }

  /** With no usable attribute and an `href` holding no `#`, nothing is resolved. */
  lemma HrefWithoutFragment(attr: Option<string>, h: string)
    requires attr.None? || attr.value == "" || attr.value == "#"
    requires '#' !in h
    ensures ResolveTarget(attr, Some(h)) == ""
  {
  }

  /** With no usable attribute and an `href` holding `#`, the result is the text
      between the first `#` and the next one (or the end), with no whitespace
      around it and no `#` inside it. */
  lemma HrefFragment(attr: Option<string>, base: string, fragment: string, rest: string)
    requires attr.None? || attr.value == "" || attr.value == "#"
    requires '#' !in base && '#' !in fragment
    requires rest == [] || rest[0] == '#'
    ensures ResolveTarget(attr, Some(base + "#" + fragment + rest)) == Trim(fragment)
  {
    SecondFieldOf(base, '#', fragment, rest);
  }

  /** Every id resolved from an `href` is free of `#` and of surrounding whitespace;
      only an attribute taken verbatim can be otherwise. */
  lemma ResolvedShape(attr: Option<string>, href: Option<string>)
    ensures var r := ResolveTarget(attr, href);
            r == "" || (attr.Some? && r == attr.value) || ('#' !in r && NoSpaceAtEnds(r))
  {
    var r := ResolveTarget(attr, href);
    if (attr.None? || attr.value == "" || attr.value == "#") && href.Some? && href.value != "" && '#' in href.value {
      var f := SecondField(href.value, '#');
      var i, j := TrimSpan(f);
      assert r == f[i..j];
      assert forall k :: 0 <= k < |r| ==> r[k] == f[i + k];
    }
  }

  /** A link written `#id` (or `page#id`) resolves back to `id`. */
  lemma LinkRoundTrip(base: string, id: string)
    requires '#' !in base && '#' !in id && NoSpaceAtEnds(id)
    ensures ResolveTarget(None, Some(base + "#" + id)) == id
  {
    HrefFragment(None, base, id, "");
    assert base + "#" + id + "" == base + "#" + id;
    TrimNoSpace(id);
  }
}
