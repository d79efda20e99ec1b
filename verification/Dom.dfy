/** The part of the DOM the reconciler touches: nodes with live child, attribute and style lists. */
module Dom {
  import opened Basics

  const ELEMENT_NODE := 1
  const TEXT_NODE := 3
  const STYLE := "style"
  const EV_PROPS := 10

  datatype Attr = Attr(name: string, value: string)
  datatype Decl = Decl(prop: string, value: string, priority: string)

  ghost predicate UniqueNames(s: seq<Attr>) {
    forall i, j | 0 <= i < |s| && 0 <= j < |s| && s[i].name == s[j].name :: i == j
  }

  ghost predicate UniqueProps(s: seq<Decl>) {
    forall i, j | 0 <= i < |s| && 0 <= j < |s| && s[i].prop == s[j].prop :: i == j
  }

  predicate HasName(s: seq<Attr>, name: string) {
    exists i | 0 <= i < |s| :: s[i].name == name
  }

  predicate HasProp(s: seq<Decl>, prop: string) {
    exists i | 0 <= i < |s| :: s[i].prop == prop
  }

  /** An event handler property holds a closure, or nothing. */
  type Handler = Option<nat>

  /** What a node is, apart from its place in a tree. */
  datatype Label = Label(
    nodeType: int, tagName: string, namespaceURI: string, nodeValue: string,
    attrs: set<Attr>, style: set<Decl>, handlers: seq<Handler>)

  class Node {
    const nodeType: int
    const tagName: string
    const namespaceURI: string
    var nodeValue: string
    var attrs: seq<Attr>
    var style: seq<Decl>
    var handlers: seq<Handler>
    var childNodes: seq<Node>
    var parent: Node?

    /** `document.createTextNode`. */
    constructor Text(value: string)
      ensures nodeType == TEXT_NODE && nodeValue == value && WellFormed()
      ensures childNodes == [] && parent == null
    {
      nodeType, tagName, namespaceURI, nodeValue := TEXT_NODE, "", "", value;
      attrs, style, handlers := [], [], seq(EV_PROPS, _ => None);
      childNodes, parent := [], null;
    }

    /** A text node has only text; an element has none, and its style shows in its attribute list. */
    ghost predicate WellFormed()
      reads this
    {
      && UniqueNames(attrs) && UniqueProps(style) && |handlers| == EV_PROPS
      && (style != [] ==> HasName(attrs, STYLE))
      && (nodeType == TEXT_NODE ==> tagName == "" && namespaceURI == "" && attrs == [] && style == []
                                    && childNodes == []
                                    && forall i | 0 <= i < EV_PROPS :: handlers[i] == None)
      && (nodeType == ELEMENT_NODE ==> nodeValue == "")
    }

    ghost function LabelNow(): Label
      reads this
    {
      Label(nodeType, tagName, namespaceURI, nodeValue,
            (set a | a in attrs && a.name != STYLE), (set d | d in style), handlers)
    }

    // ------------------------------------------------------- attributes

    method SetAttribute(a: Attr)
      requires UniqueNames(attrs)
      modifies this`attrs
      ensures UniqueNames(attrs) && a in attrs
      ensures forall b: Attr | b.name != a.name :: b in attrs <==> b in old(attrs)
    {
      var i := 0;
      while i < |attrs|
        invariant 0 <= i <= |attrs| && attrs == old(attrs)
        invariant forall k | 0 <= k < i :: attrs[k].name != a.name
      {
        if attrs[i].name == a.name {
          attrs := attrs[i := a];
          assert attrs[i] == a;
          Replaced(old(attrs), i, a);
          return;
        }
        i := i + 1;
      }
      attrs := attrs + [a];
      assert attrs[|attrs| - 1] == a;
    }

    lemma Replaced(s: seq<Attr>, i: nat, a: Attr)
      requires UniqueNames(s) && i < |s| && s[i].name == a.name
      ensures forall b: Attr | b.name != a.name :: b in s[i := a] <==> b in s
    {
      forall b: Attr | b.name != a.name && b in s ensures b in s[i := a] {
        var k :| 0 <= k < |s| && s[k] == b;
        assert s[i := a][k] == b;
      }
    }

    method RemoveAttributeAt(i: nat)
      requires UniqueNames(attrs) && i < |attrs|
      modifies this`attrs
      ensures attrs == old(attrs)[..i] + old(attrs)[i + 1..]
      ensures UniqueNames(attrs)
      ensures forall b: Attr | b.name != old(attrs)[i].name :: b in attrs <==> b in old(attrs)
    {
      attrs := attrs[..i] + attrs[i + 1..];
      CutOut(old(attrs), i);
    }

    lemma CutOut(s: seq<Attr>, i: nat)
      requires UniqueNames(s) && i < |s|
      ensures UniqueNames(s[..i] + s[i + 1..])
      ensures forall b: Attr | b.name != s[i].name :: b in s[..i] + s[i + 1..] <==> b in s
    {
      var t := s[..i] + s[i + 1..];
      forall k | 0 <= k < |t| ensures t[k] == s[if k < i then k else k + 1] {}
      forall b: Attr | b.name != s[i].name && b in s ensures b in t {
        var k :| 0 <= k < |s| && s[k] == b;
        assert t[if k < i then k else k - 1] == b;
      }
    }

    // ------------------------------------------------------------ style

    /** Writing a property through the CSSOM makes the style attribute appear. */
    method SetProperty(d: Decl)
      requires UniqueNames(attrs) && UniqueProps(style)
      modifies this`style, this`attrs
      ensures UniqueProps(style) && d in style
      ensures forall b: Decl | b.prop != d.prop :: b in style <==> b in old(style)
      ensures UniqueNames(attrs) && HasName(attrs, STYLE)
      ensures attrs == old(attrs) || (!HasName(old(attrs), STYLE) && attrs == old(attrs) + [Attr(STYLE, "")])
    {
      if !HasName(attrs, STYLE) {
        attrs := attrs + [Attr(STYLE, "")];
        assert attrs[|attrs| - 1].name == STYLE;
      }
      var i := 0;
      while i < |style|
        invariant 0 <= i <= |style| && style == old(style)
        invariant UniqueNames(attrs) && HasName(attrs, STYLE)
        invariant attrs == old(attrs) || (!HasName(old(attrs), STYLE) && attrs == old(attrs) + [Attr(STYLE, "")])
        invariant forall k | 0 <= k < i :: style[k].prop != d.prop
      {
        if style[i].prop == d.prop {
          style := style[i := d];
          assert style[i] == d;
          ReplacedDecl(old(style), i, d);
          return;
        }
        i := i + 1;
      }
      style := style + [d];
      assert style[|style| - 1] == d;
    }

    lemma ReplacedDecl(s: seq<Decl>, i: nat, d: Decl)
      requires UniqueProps(s) && i < |s| && s[i].prop == d.prop
      ensures forall b: Decl | b.prop != d.prop :: b in s[i := d] <==> b in s
    {
      forall b: Decl | b.prop != d.prop && b in s ensures b in s[i := d] {
        var k :| 0 <= k < |s| && s[k] == b;
        assert s[i := d][k] == b;
      }
    }

    method RemovePropertyAt(i: nat)
      requires UniqueProps(style) && i < |style|
      modifies this`style
      ensures style == old(style)[..i] + old(style)[i + 1..]
      ensures UniqueProps(style)
    {
      style := style[..i] + style[i + 1..];
      ghost var s := old(style);
      assert forall k | 0 <= k < |style| :: style[k] == s[if k < i then k else k + 1];
    }
  }
}
