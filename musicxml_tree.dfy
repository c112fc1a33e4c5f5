/** The parsed MusicXML document as the reader sees it: elements with a tag, an attribute
    map, optional text and child elements in document order, and the three ElementTree
    queries the reader uses (`attrib.get`, `find`, `iterfind`). */
module MusicXmlTree {
  import opened Wrappers

  /** `text` is the element's text before its first child, None when there is none. */
  datatype Element = Element(tag: string, attrs: map<string, string>, text: Option<string>,
                             children: seq<Element>)

  /** `el.attrib.get(name)`. */
  function Attr(el: Element, name: string): Option<string> {
    if name in el.attrs then Some(el.attrs[name]) else None
  }

  /** The index of the first element with that tag. */
  function IndexOfTag(cs: seq<Element>, tag: string): (r: Option<nat>)
    ensures r.Some? ==> r.value < |cs| && cs[r.value].tag == tag
    ensures r.Some? ==> forall j :: 0 <= j < r.value ==> cs[j].tag != tag
    ensures r.None? <==> forall j :: 0 <= j < |cs| ==> cs[j].tag != tag
  {
    if cs == [] then None
    else if cs[0].tag == tag then Some(0)
    else
      match IndexOfTag(cs[1..], tag)
      case None => None
      case Some(k) => Some(k + 1)
  }

  /** `el.find(tag)`: the first child with that tag. */
  function FindChild(el: Element, tag: string): (r: Option<Element>)
    ensures r.Some? ==> r.value.tag == tag
    ensures r.Some? ==> exists i :: 0 <= i < |el.children| && el.children[i] == r.value &&
                                    forall j :: 0 <= j < i ==> el.children[j].tag != tag
    ensures r.None? <==> forall j :: 0 <= j < |el.children| ==> el.children[j].tag != tag
  {
    match IndexOfTag(el.children, tag)
    case None => None
    case Some(i) => Some(el.children[i])
  }

  /** `el.iterfind(tag)`: the children with that tag, in document order (their membership
      is `ChildrenWithTagMembers`, their counts `ChildrenWithTagCounts`). */
  function ChildrenWithTag(cs: seq<Element>, tag: string): (r: seq<Element>)
    ensures |r| <= |cs|
    ensures forall i :: 0 <= i < |r| ==> r[i].tag == tag
    ensures (forall j :: 0 <= j < |cs| ==> cs[j].tag == tag) ==> r == cs
  {
    if cs == [] then []
    else (if cs[0].tag == tag then [cs[0]] else []) + ChildrenWithTag(cs[1..], tag)
  }

  /** The matches are children of `cs`, and every child with the tag is among them. */
  lemma ChildrenWithTagMembers(cs: seq<Element>, tag: string)
    ensures forall i :: 0 <= i < |ChildrenWithTag(cs, tag)| ==> ChildrenWithTag(cs, tag)[i] in cs
    ensures forall j :: 0 <= j < |cs| && cs[j].tag == tag ==> cs[j] in ChildrenWithTag(cs, tag)
  {
    ChildrenWithTagCounts(cs, tag);
    forall i | 0 <= i < |ChildrenWithTag(cs, tag)| ensures ChildrenWithTag(cs, tag)[i] in cs {
      var e := ChildrenWithTag(cs, tag)[i];
      assert e in multiset(ChildrenWithTag(cs, tag));
    }
    forall j | 0 <= j < |cs| && cs[j].tag == tag ensures cs[j] in ChildrenWithTag(cs, tag) {
      assert cs[j] in multiset(cs);
    }
  }

  /** Each child with the tag is matched as often as it occurs, and nothing else is. */
  lemma {:induction false} ChildrenWithTagCounts(cs: seq<Element>, tag: string)
    ensures forall e :: multiset(ChildrenWithTag(cs, tag))[e] == if e.tag == tag then multiset(cs)[e] else 0
  {
    if cs != [] {
      ChildrenWithTagCounts(cs[1..], tag);
      assert cs == [cs[0]] + cs[1..];
    }
  }

  /** The document order is kept: the matches of `a + b` are those of `a`, then those of
      `b`. */
  lemma {:induction false} ChildrenWithTagAppend(a: seq<Element>, b: seq<Element>, tag: string)
    ensures ChildrenWithTag(a + b, tag) == ChildrenWithTag(a, tag) + ChildrenWithTag(b, tag)
  {
    if a == [] {
      assert a + b == b;
    } else {
      ChildrenWithTagAppend(a[1..], b, tag);
      ConsAppend(a, b);
      ChildrenWithTagCons(a[0], a[1..] + b, tag);
      ChildrenWithTagCons(a[0], a[1..], tag);
      AppendAssoc(if a[0].tag == tag then [a[0]] else [], ChildrenWithTag(a[1..], tag), ChildrenWithTag(b, tag));
    }
  }

  lemma ChildrenWithTagCons(x: Element, rest: seq<Element>, tag: string)
    ensures ChildrenWithTag([x] + rest, tag) == (if x.tag == tag then [x] else []) + ChildrenWithTag(rest, tag)
  {
    assert ([x] + rest)[1..] == rest;
  }

  lemma ConsAppend(a: seq<Element>, b: seq<Element>)
    requires a != []
    ensures a == [a[0]] + a[1..] && a + b == [a[0]] + (a[1..] + b)
  {
  }

  lemma AppendAssoc(x: seq<Element>, y: seq<Element>, z: seq<Element>)
    ensures x + (y + z) == x + y + z
  {
  }

  /** The state a `for el in parent:` loop reaches: `step` applied to each child in turn. */
  function FoldChildren<S>(init: S, cs: seq<Element>, step: (S, Element) -> S): S {
    if cs == [] then init else step(FoldChildren(init, cs[..|cs| - 1], step), cs[|cs| - 1])
  }

  /** One more child extends the fold by one step; the loop invariants of the parsers use
      this form. */
  lemma FoldChildrenStep<S>(init: S, cs: seq<Element>, i: nat, step: (S, Element) -> S)
    requires i < |cs|
    ensures FoldChildren(init, cs[..i + 1], step) == step(FoldChildren(init, cs[..i], step), cs[i])
  {
    assert cs[..i + 1][..i] == cs[..i];
  }

  /** The step of a loop that ends at its first error: `step` on the state reached so far,
      an error passed on as it is. */
  function UntilError<S>(step: (S, Element) -> Result<S>): (Result<S>, Element) -> Result<S> {
    (r: Result<S>, c: Element) => if r.Err? then r else step(r.value, c)
  }

  /** An error met at child `i` is what the whole loop ends with. */
  lemma {:induction false} ErrorEndsFold<S>(init: Result<S>, cs: seq<Element>, i: nat, step: (S, Element) -> Result<S>)
    requires i <= |cs| && FoldChildren(init, cs[..i], UntilError(step)).Err?
    ensures FoldChildren(init, cs, UntilError(step)) == FoldChildren(init, cs[..i], UntilError(step))
    decreases |cs| - i
  {
    if i < |cs| {
      FoldChildrenStep(init, cs, i, UntilError(step));
      ErrorEndsFold(init, cs, i + 1, step);
    } else {
      assert cs[..i] == cs;
    }
  }
}
