/**
  The part of an ElementTree document the flattener looks at: every
  element has a tag, an attribute map, a text and its child elements.
*/
module XmlTree {
  import opened Dict

  datatype Element = Element(tag: string, attrib: Row, text: string, children: seq<Element>)

  /** The concatenation of a sequence of sequences. */
  function ConcatAll(ss: seq<seq<Element>>): seq<Element> {
    if ss == [] then [] else ss[0] + ConcatAll(ss[1..])
  }

  /** `e.iter()`: the element itself, then the subtree of each child in document order. */
  function Iter(e: Element): (r: seq<Element>)
    ensures |r| >= 1 && r[0] == e
    decreases e
  {
    [e] + ConcatAll(seq(|e.children|, i requires 0 <= i < |e.children| => Iter(e.children[i])))
  }

  /** The elements of `es` with tag `tag`, in order. */
  function Tagged(es: seq<Element>, tag: string): seq<Element> {
    if es == [] then []
    else
      var init := Tagged(es[..|es| - 1], tag);
      if es[|es| - 1].tag == tag then init + [es[|es| - 1]] else init
  }

  /** `Tagged` keeps exactly the elements with the tag, and no more of them than there are. */
  lemma {:induction false} TaggedMembers(es: seq<Element>, tag: string)
    ensures |Tagged(es, tag)| <= |es|
    ensures forall x :: x in Tagged(es, tag) <==> x in es && x.tag == tag
  {
    if es != [] {
      TaggedMembers(es[..|es| - 1], tag);
      assert es == es[..|es| - 1] + [es[|es| - 1]];
    }
  }

  /** `e.iter(tag=t)`. */
  function IterTag(e: Element, tag: string): seq<Element> {
    Tagged(Iter(e), tag)
  }

  /** The elements of `es` whose attribute map has `key`, in order. */
  function WithAttr(es: seq<Element>, key: string): seq<Element> {
    if es == [] then []
    else
      var init := WithAttr(es[..|es| - 1], key);
      if HasKey(es[|es| - 1].attrib, key) then init + [es[|es| - 1]] else init
  }

  /** `WithAttr` keeps exactly the elements whose attributes have the key. */
  lemma {:induction false} WithAttrMembers(es: seq<Element>, key: string)
    ensures |WithAttr(es, key)| <= |es|
    ensures forall x :: x in WithAttr(es, key) <==> x in es && HasKey(x.attrib, key)
  {
    if es != [] {
      WithAttrMembers(es[..|es| - 1], key);
      assert es == es[..|es| - 1] + [es[|es| - 1]];
    }
  }
}
