/**
 * A small model of the XML element trees the library builds and reads
 * (an lxml element: tag, ordered attributes, optional text, children),
 * together with the behaviour of the helpers in exchangelib/util.py that
 * the core calls: create_element, add_xml_child, get_xml_attr and the
 * string case of set_xml_value. util.py is not part of this model; the
 * helpers are stated here as the core relies on them.
 */
module Xml {
  import opened Common

  /** The EWS types namespace (TNS) and messages namespace (MNS). */
  const TNS: string := "http://schemas.microsoft.com/exchange/services/2006/types"
  const MNS: string := "http://schemas.microsoft.com/exchange/services/2006/messages"

  datatype Attr = Attr(name: string, value: string)

  /** A node: its tag in Clark notation (`{uri}local`), attributes in order, text, children. */
  datatype Element = Element(tag: string, attrs: seq<Attr>, text: Option<string>, children: seq<Element>)

  /** A tag in Clark notation: `{uri}local`. */
  function Clark(uri: string, local: string): string
  {
    "{" + uri + "}" + local
  }

  /** Two Clark tags in one namespace are equal exactly when their local names are. */
  lemma ClarkInjective(uri: string, a: string, b: string)
    ensures Clark(uri, a) == Clark(uri, b) <==> a == b
  {
    if Clark(uri, a) == Clark(uri, b) {
      assert a == Clark(uri, a)[|uri| + 2..];
      assert b == Clark(uri, b)[|uri| + 2..];
    }
  }

  /**
   * create_element's name translation: a `t:` or `m:` prefix becomes the
   * namespace URI in braces; any other name is used as it is.
   */
  function Expand(name: string): string
  {
    if |name| >= 2 && name[..2] == "t:" then Clark(TNS, name[2..])
    else if |name| >= 2 && name[..2] == "m:" then Clark(MNS, name[2..])
    else name
  }

  lemma ExpandPrefixed(local: string)
    ensures Expand("t:" + local) == Clark(TNS, local)
    ensures Expand("m:" + local) == Clark(MNS, local)
  {
    assert ("t:" + local)[..2] == "t:" && ("t:" + local)[2..] == local;
    assert ("m:" + local)[..2] == "m:" && ("m:" + local)[2..] == local;
  }

  /** `elem.get(name)`: the value of the first attribute with that name. */
  function GetAttr(attrs: seq<Attr>, name: string): (r: Option<string>)
    ensures r.None? <==> forall i :: 0 <= i < |attrs| ==> attrs[i].name != name
    ensures r.Some? ==> exists i :: 0 <= i < |attrs| && attrs[i] == Attr(name, r.value)
  {
    if attrs == [] then None
    else if attrs[0].name == name then Some(attrs[0].value)
    else GetAttr(attrs[1..], name)
  }

  /** `elem.set(name, value)`: overwrite the attribute in place, or append it. */
  function SetAttr(attrs: seq<Attr>, name: string, value: string): (r: seq<Attr>)
    ensures GetAttr(r, name) == Some(value)
    ensures forall other :: other != name ==> GetAttr(r, other) == GetAttr(attrs, other)
  {
    if attrs == [] then [Attr(name, value)]
    else if attrs[0].name == name then [Attr(name, value)] + attrs[1..]
    else [attrs[0]] + SetAttr(attrs[1..], name, value)
  }

  /** Two set calls with different names on a fresh element leave both attributes, in call order. */
  lemma SetTwoAttrs(a: string, va: string, b: string, vb: string)
    requires a != b
    ensures SetAttr(SetAttr([], a, va), b, vb) == [Attr(a, va), Attr(b, vb)]
  {
    var first := [Attr(a, va)];
    assert SetAttr([], a, va) == first;
    assert first[1..] == [];
    assert SetAttr(first, b, vb) == first + SetAttr([], b, vb);
  }

  /** `elem.find(tag)`: the first child with that tag. */
  function FindChild(children: seq<Element>, tag: string): (r: Option<Element>)
    ensures r.None? <==> forall i :: 0 <= i < |children| ==> children[i].tag != tag
    ensures r.Some? ==> r.value in children && r.value.tag == tag
  {
    if children == [] then None
    else if children[0].tag == tag then Some(children[0])
    else FindChild(children[1..], tag)
  }

  /** Searching a concatenation searches the first part, then the second. */
  lemma {:induction false} FindChildConcat(a: seq<Element>, b: seq<Element>, tag: string)
    ensures FindChild(a + b, tag) == if FindChild(a, tag).Some? then FindChild(a, tag) else FindChild(b, tag)
  {
    if a == [] {
      assert a + b == b;
    } else {
      assert (a + b)[0] == a[0] && (a + b)[1..] == a[1..] + b;
      FindChildConcat(a[1..], b, tag);
    }
  }

  /** The position of the first child with that tag. */
  function FirstIndex(children: seq<Element>, tag: string): (i: nat)
    requires FindChild(children, tag).Some?
    ensures i < |children| && children[i] == FindChild(children, tag).value
    ensures forall j :: 0 <= j < i ==> children[j].tag != tag
  {
    if children[0].tag == tag then 0 else 1 + FirstIndex(children[1..], tag)
  }

  /**
   * The children after the first child with that tag has been changed in
   * place into `repl` (a `find` followed by a call that mutates the found node).
   */
  function ReplaceFirst(children: seq<Element>, tag: string, repl: Element): seq<Element>
  {
    match FindChild(children, tag)
    case None => children
    case Some(_) => children[FirstIndex(children, tag) := repl]
  }

  /** Changing one child into a node with the same tag leaves the first child of every other tag as it was. */
  lemma {:induction false} FindAfterUpdate(children: seq<Element>, i: nat, repl: Element, other: string)
    requires i < |children| && repl.tag == children[i].tag && other != repl.tag
    ensures FindChild(children[i := repl], other) == FindChild(children, other)
  {
    if i > 0 {
      FindAfterUpdate(children[1..], i - 1, repl, other);
      assert children[i := repl][1..] == children[1..][i - 1 := repl];
    } else {
      assert children[i := repl][1..] == children[1..];
    }
  }

  /** `find(other)` after the first child with tag was changed in place, keeping its tag. */
  lemma FindAfterReplaceFirst(children: seq<Element>, tag: string, repl: Element, other: string)
    requires repl.tag == tag && other != tag
    ensures FindChild(ReplaceFirst(children, tag, repl), other) == FindChild(children, other)
  {
    if FindChild(children, tag).Some? {
      FindAfterUpdate(children, FirstIndex(children, tag), repl, other);
    }
  }

  /** get_xml_attr: the text of the first child with that tag; an empty text reads as None. */
  function ChildText(e: Element, tag: string): Option<string>
  {
    match FindChild(e.children, tag)
    case None => None
    case Some(c) => if Truthy(c.text) then c.text else None
  }

  /** get_xml_attr(other) after the first child with tag was changed in place, keeping its tag. */
  lemma ChildTextAfterReplaceFirst(e: Element, tag: string, repl: Element, other: string)
    requires repl.tag == tag && other != tag
    ensures ChildText(e.(children := ReplaceFirst(e.children, tag, repl)), other) == ChildText(e, other)
  {
    FindAfterReplaceFirst(e.children, tag, repl, other);
  }

  /** add_xml_child(tree, 't:' + local, text): a new types-namespace child holding that text. */
  function TextElement(local: string, text: string): (e: Element)
    ensures e.tag == Clark(TNS, local) && e.text == Some(text)
  {
    ExpandPrefixed(local);
    Element(Expand("t:" + local), [], Some(text), [])
  }

  /** What `elem.clear()` leaves of a node: its tag only. */
  function Emptied(e: Element): Element
  {
    Element(e.tag, [], None, [])
  }

  /** A mutable node under construction or being parsed. */
  class XmlNode {
    var tag: string
    var attrs: seq<Attr>
    var text: Option<string>
    var children: seq<Element>

    function Value(): Element
      reads this
    {
      Element(tag, attrs, text, children)
    }

    /** create_element(name) without attributes. */
    constructor (name: string)
      ensures Value() == Element(Expand(name), [], None, [])
    {
      tag := Expand(name);
      attrs := [];
      text := None;
      children := [];
    }

    /** A node holding a parsed element, as handed to a from_xml method. */
    constructor Of(e: Element)
      ensures Value() == e
    {
      tag, attrs, text, children := e.tag, e.attrs, e.text, e.children;
    }

    method Set(name: string, value: string)
      modifies this
      ensures Value() == old(Value()).(attrs := SetAttr(old(attrs), name, value))
    {
      attrs := SetAttr(attrs, name, value);
    }

    /** set_xml_value with a string value. */
    method SetText(value: string)
      modifies this
      ensures Value() == old(Value()).(text := Some(value))
    {
      text := Some(value);
    }

    method Append(child: Element)
      modifies this
      ensures Value() == old(Value()).(children := old(children) + [child])
    {
      children := children + [child];
    }

    /** The first child with that tag, found and changed in place into `repl`. */
    method ReplaceChild(tag: string, repl: Element)
      modifies this
      ensures Value() == old(Value()).(children := ReplaceFirst(old(children), tag, repl))
    {
      children := ReplaceFirst(children, tag, repl);
    }

    method Clear()
      modifies this
      ensures Value() == Emptied(old(Value()))
    {
      attrs, text, children := [], None, [];
    }
  }
}
