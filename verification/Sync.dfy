/** Bringing one node's attributes, style and handlers in line with another's, in place. */
module Sync {
  import opened Basics
  import opened Dom

  function StyleSet(n: Node): set<Decl>
    reads n
  {
    set d | d in n.style
  }

  /** Everything a node carries besides its text and children is in order. */
  ghost predicate Tidy(n: Node)
    reads n
  {
    UniqueNames(n.attrs) && UniqueProps(n.style) && (n.style != [] ==> HasName(n.attrs, STYLE))
  }

  /** The attribute list is untouched, or has only gained the style marker it lacked. */
  ghost predicate MarkedAtMost(before: seq<Attr>, after: seq<Attr>) {
    after == before || (!HasName(before, STYLE) && after == before + [Attr(STYLE, "")])
  }

  lemma MarkedKeeps(before: seq<Attr>, mid: seq<Attr>, after: seq<Attr>)
    requires MarkedAtMost(before, mid) && MarkedAtMost(mid, after)
    ensures MarkedAtMost(before, after)
  {
    if mid != before {
      assert mid[|before|].name == STYLE;
    }
  }

  /** Downward over the live list: a property the fresh style does not have goes. */
  method DropStyles(o: Node, n: Node)
    requires o != n && Tidy(o) && Tidy(n)
    modifies o`style
    ensures Tidy(o) && forall d | d in o.style :: HasProp(n.style, d.prop)
  {
    hide HasProp, HasName, UniqueNames;
    var i := |o.style| - 1;
    while i >= 0
      invariant -1 <= i < |o.style| && UniqueProps(o.style)
      invariant o.style != [] ==> HasName(o.attrs, STYLE)
      invariant forall k | i < k < |o.style| :: HasProp(n.style, o.style[k].prop)
    {
      if !HasProp(n.style, o.style[i].prop) {
        o.RemovePropertyAt(i);
      }
      i := i - 1;
    }
  }

  /** Every property of the fresh style is set. */
  method CopyStyles(o: Node, n: Node)
    requires o != n && Tidy(o) && Tidy(n) && forall d | d in o.style :: HasProp(n.style, d.prop)
    modifies o`style, o`attrs
    ensures Tidy(o) && MarkedAtMost(old(o.attrs), o.attrs)
    ensures forall d | d in o.style :: HasProp(n.style, d.prop)
    ensures forall k | 0 <= k < |n.style| :: n.style[k] in o.style
  {
    hide MarkedAtMost, HasName, UniqueNames;
    MarkedNot(o.attrs);
    var i := 0;
    while i < |n.style|
      invariant 0 <= i <= |n.style| && Tidy(o)
      invariant MarkedAtMost(old(o.attrs), o.attrs)
      invariant forall d | d in o.style :: HasProp(n.style, d.prop)
      invariant forall k | 0 <= k < i :: n.style[k] in o.style
    {
      ghost var mid := o.attrs;
      o.SetProperty(n.style[i]);
      MarkedOne(mid, o.attrs);
      MarkedKeeps(old(o.attrs), mid, o.attrs);
      i := i + 1;
    }
  }

  lemma MarkedNot(s: seq<Attr>)
    ensures MarkedAtMost(s, s)
  {}

  lemma MarkedOne(a: seq<Attr>, b: seq<Attr>)
    requires b == a || (!HasName(a, STYLE) && b == a + [Attr(STYLE, "")])
    ensures MarkedAtMost(a, b)
  {}

  method SyncStyle(o: Node, n: Node)
    requires o != n && Tidy(o) && Tidy(n)
    modifies o`style, o`attrs
    ensures Tidy(o) && StyleSet(o) == StyleSet(n)
    ensures MarkedAtMost(old(o.attrs), o.attrs)
  {
    if o.style == n.style { return; }
    DropStyles(o, n);
    CopyStyles(o, n);
    SameStyles(o.style, n.style);
  }

  lemma SameStyles(s: seq<Decl>, t: seq<Decl>)
    requires UniqueProps(s) && (forall d | d in s :: HasProp(t, d.prop)) && forall k | 0 <= k < |t| :: t[k] in s
    ensures (set d | d in s) == (set d | d in t)
  {
    forall d | d in s ensures d in t {
      var k :| 0 <= k < |t| && t[k].prop == d.prop;
      SameDecl(s, d, t[k]);
    }
  }

  lemma SameDecl(s: seq<Decl>, a: Decl, b: Decl)
    requires UniqueProps(s) && a in s && b in s && a.prop == b.prop
    ensures a == b
  {}

  lemma SameAttr(s: seq<Attr>, a: Attr, b: Attr)
    requires UniqueNames(s) && a in s && b in s && a.name == b.name
    ensures a == b
  {}

  function Plain(s: seq<Attr>): set<Attr> { set a | a in s && a.name != STYLE }

  lemma NameIn(s: seq<Attr>, name: string)
    ensures HasName(s, name) <==> exists a: Attr :: a in s && a.name == name
  {
    if a: Attr :| a in s && a.name == name {
      var k :| 0 <= k < |s| && s[k] == a;
    }
    if HasName(s, name) {
      var k :| 0 <= k < |s| && s[k].name == name;
      assert s[k] in s;
    }
  }

  /** First pass: every attribute of `n` is written to `o`. */
  method CopyAttrs(o: Node, n: Node)
    requires o != n && Tidy(o) && Tidy(n)
    modifies o`style, o`attrs
    ensures Tidy(o) && Plain(n.attrs) <= Plain(o.attrs)
    ensures HasName(n.attrs, STYLE) ==> StyleSet(o) == StyleSet(n)
  {
    var i := 0;
    while i < |n.attrs|
      invariant 0 <= i <= |n.attrs| && Tidy(o)
      invariant forall k | 0 <= k < i && n.attrs[k].name != STYLE :: n.attrs[k] in o.attrs
      invariant (exists k | 0 <= k < i :: n.attrs[k].name == STYLE) ==> StyleSet(o) == StyleSet(n)
    {
      var a := n.attrs[i];
      if a.name == STYLE {
        SyncStyle(o, n);
      } else if a !in o.attrs {
        NameIn(o.attrs, STYLE);
        o.SetAttribute(a);
        NameIn(o.attrs, STYLE);
      }
      i := i + 1;
    }
  }

  /** Past `i`, every attribute is the style marker or has its name in the fresh list. */
  ghost predicate WantedPast(s: seq<Attr>, wanted: seq<Attr>, i: int) {
    forall k | 0 <= k < |s| && i < k :: s[k].name == STYLE || HasName(wanted, s[k].name)
  }

  /** The style marker is at `i` or before it. */
  ghost predicate StyleAhead(s: seq<Attr>, i: int) {
    exists k | 0 <= k < |s| && k <= i :: s[k].name == STYLE
  }

  lemma NothingPassed(s: seq<Attr>, wanted: seq<Attr>)
    ensures WantedPast(s, wanted, |s| - 1) && !StyleAhead(s, -1)
    ensures HasName(s, STYLE) ==> StyleAhead(s, |s| - 1)
  {}

  lemma Passed(s: seq<Attr>, wanted: seq<Attr>, i: nat)
    requires i < |s| && WantedPast(s, wanted, i) && (s[i].name == STYLE || HasName(wanted, s[i].name))
    ensures WantedPast(s, wanted, i - 1) && !StyleAhead(s, -1)
    ensures StyleAhead(s, i) && s[i].name != STYLE ==> StyleAhead(s, i - 1)
  {
    hide HasName;
  }

  /** Where entry `k` goes when entry `i` is taken out. */
  lemma GoesTo(s: seq<Attr>, i: nat, k: nat)
    requires i < |s| && k < |s| && k != i
    ensures (s[..i] + s[i + 1..])[if k < i then k else k - 1] == s[k]
  {}

  /** Taking out an attribute that is not wanted keeps all that the loop knows. */
  lemma TakenOut(s: seq<Attr>, wanted: seq<Attr>, i: nat)
    requires i < |s| && WantedPast(s, wanted, i) && s[i].name != STYLE
    ensures var t := s[..i] + s[i + 1..];
      && WantedPast(t, wanted, i - 1) && !StyleAhead(t, -1)
      && (StyleAhead(s, i) ==> StyleAhead(t, i - 1))
  {
    hide HasName;
    var t := s[..i] + s[i + 1..];
    forall k | 0 <= k < |t| && i - 1 < k ensures t[k].name == STYLE || HasName(wanted, t[k].name) {
      GoesTo(s, i, k + 1);
    }
    if StyleAhead(s, i) {
      var k :| 0 <= k < |s| && k <= i && s[k].name == STYLE;
      GoesTo(s, i, k);
    }
  }

  lemma OthersStay(s: seq<Attr>, wanted: seq<Attr>, i: nat)
    requires i < |s| && s[i].name != STYLE && !HasName(wanted, s[i].name)
    ensures var t := s[..i] + s[i + 1..];
      && (HasName(s, STYLE) ==> HasName(t, STYLE))
      && (Plain(wanted) <= Plain(s) ==> Plain(wanted) <= Plain(t))
  {
    hide HasName;
    NameIn(wanted, s[i].name);
    NameIn(s, STYLE);
    var t := s[..i] + s[i + 1..];
    NameIn(t, STYLE);
    forall a | a in s && a != s[i] ensures a in t {
      var k :| 0 <= k < |s| && s[k] == a;
      GoesTo(s, i, k);
    }
  }

  lemma MarkedSame(s: seq<Attr>, i: nat, t: seq<Attr>)
    requires i < |s| && s[i].name == STYLE && MarkedAtMost(s, t)
    ensures t == s
  {}

  lemma PlainsMeet(s: seq<Attr>, wanted: seq<Attr>)
    requires UniqueNames(s) && WantedPast(s, wanted, -1) && Plain(wanted) <= Plain(s)
    ensures Plain(s) == Plain(wanted)
  {
    forall a | a in Plain(s) ensures a in Plain(wanted) {
      var k :| 0 <= k < |s| && s[k] == a;
      var j :| 0 <= j < |wanted| && wanted[j].name == a.name;
      assert wanted[j] in Plain(wanted);
      SameAttr(s, a, wanted[j]);
    }
  }

  /** Second pass, downward over the live list: what `n` does not have goes. */
  method PruneAttrs(o: Node, n: Node)
    requires o != n && Tidy(o) && Tidy(n) && Plain(n.attrs) <= Plain(o.attrs)
    requires HasName(n.attrs, STYLE) ==> StyleSet(o) == StyleSet(n)
    modifies o`style, o`attrs
    ensures Tidy(o) && Plain(o.attrs) == Plain(n.attrs) && StyleSet(o) == StyleSet(n)
  {
    hide HasName, UniqueNames, UniqueProps, Plain, WantedPast, StyleAhead, MarkedAtMost;
    var i := |o.attrs| - 1;
    NothingPassed(o.attrs, n.attrs);
    while i >= 0
      invariant -1 <= i < |o.attrs| && Tidy(o) && Plain(n.attrs) <= Plain(o.attrs)
      invariant HasName(n.attrs, STYLE) ==> StyleSet(o) == StyleSet(n)
      invariant !HasName(n.attrs, STYLE) ==> o.style == [] || StyleAhead(o.attrs, i)
      invariant WantedPast(o.attrs, n.attrs, i) && !StyleAhead(o.attrs, -1)
    {
      ghost var s := o.attrs;
      var a := o.attrs[i];
      if HasName(n.attrs, a.name) {
        Passed(s, n.attrs, i);
      } else if a.name == STYLE {
        SyncStyle(o, n);
        MarkedSame(s, i, o.attrs);
        Emptied(o, n);
        Passed(s, n.attrs, i);
      } else {
        o.RemoveAttributeAt(i);
        TakenOut(s, n.attrs, i);
        OthersStay(s, n.attrs, i);
      }
      i := i - 1;
    }
    PlainsMeet(o.attrs, n.attrs);
  }

  lemma SomeDecl(s: seq<Decl>)
    requires s != []
    ensures exists d :: d in s
  {
    assert s[0] in s;
  }

  lemma Emptied(o: Node, n: Node)
    requires Tidy(n) && !HasName(n.attrs, STYLE) && StyleSet(o) == StyleSet(n)
    ensures o.style == [] && n.style == []
  {
    assert n.style == [] && StyleSet(n) == {};
    assert forall d | d in o.style :: d in StyleSet(o);
    if o.style != [] { SomeDecl(o.style); }
  }

  method SyncAttrs(o: Node, n: Node)
    requires o != n && Tidy(o) && Tidy(n)
    modifies o`style, o`attrs
    ensures Tidy(o) && Plain(o.attrs) == Plain(n.attrs) && StyleSet(o) == StyleSet(n)
  {
    CopyAttrs(o, n);
    PruneAttrs(o, n);
  }

  method SyncHandlers(o: Node, n: Node)
    requires o != n && |o.handlers| == EV_PROPS && |n.handlers| == EV_PROPS
    modifies o`handlers
    ensures o.handlers == n.handlers
  {
    var i := 0;
    while i < EV_PROPS
      invariant 0 <= i <= EV_PROPS && |o.handlers| == EV_PROPS
      invariant o.handlers[..i] == n.handlers[..i]
    {
      if o.handlers[i] != n.handlers[i] {
        o.handlers := o.handlers[i := n.handlers[i]];
      }
      i := i + 1;
    }
  }

  // ---------------------------------------------- what can be read off a node

  /** `getAttribute`. */
  ghost function GetAttribute(n: Node, name: string): (v: Option<string>)
    requires UniqueNames(n.attrs)
    reads n
    ensures v.Some? ==> Attr(name, v.value) in n.attrs
    ensures v.None? ==> forall a | a in n.attrs :: a.name != name
  {
    if exists a :: a in n.attrs && a.name == name then
      var a :| a in n.attrs && a.name == name;
      Some(a.value)
    else None
  }

  /** `getPropertyValue` and `getPropertyPriority` of the inline style. */
  ghost function GetProperty(n: Node, prop: string): (v: Option<(string, string)>)
    requires UniqueProps(n.style)
    reads n
    ensures v.Some? ==> Decl(prop, v.value.0, v.value.1) in n.style
    ensures v.None? ==> forall d | d in n.style :: d.prop != prop
  {
    if exists d :: d in n.style && d.prop == prop then
      var d :| d in n.style && d.prop == prop;
      Some((d.value, d.priority))
    else None
  }

  /**
   * Two nodes have the same label exactly when nothing that can be read off
   * them differs: type, name, namespace, text, every attribute but the style
   * text, every property of the style, every handler.
   */
  lemma LabelIsWhatIsRead(m: Node, n: Node)
    requires Tidy(m) && Tidy(n)
    ensures m.LabelNow() == n.LabelNow() <==>
      && m.nodeType == n.nodeType && m.tagName == n.tagName && m.namespaceURI == n.namespaceURI
      && m.nodeValue == n.nodeValue && m.handlers == n.handlers
      && (forall name: string | name != "style" :: GetAttribute(m, name) == GetAttribute(n, name))
      && (forall prop: string :: GetProperty(m, prop) == GetProperty(n, prop))
  {
    hide UniqueNames, UniqueProps, HasName;
    if m.LabelNow() == n.LabelNow() {
      forall name: string | name != "style" ensures GetAttribute(m, name) == GetAttribute(n, name) {
        SameAttributes(m, n, name);
      }
      forall prop: string ensures GetProperty(m, prop) == GetProperty(n, prop) {
        SameProperties(m, n, prop);
      }
    }
    if (forall name: string | name != "style" :: GetAttribute(m, name) == GetAttribute(n, name))
       && forall prop: string :: GetProperty(m, prop) == GetProperty(n, prop)
    {
      AttributesAsRead(m, n);
      AttributesAsRead(n, m);
      StyleAsRead(m, n);
      StyleAsRead(n, m);
    }
  }

  lemma SameAttributes(m: Node, n: Node, name: string)
    requires UniqueNames(m.attrs) && UniqueNames(n.attrs) && m.LabelNow().attrs == n.LabelNow().attrs && name != STYLE
    ensures GetAttribute(m, name) == GetAttribute(n, name)
  {
    var v, w := GetAttribute(m, name), GetAttribute(n, name);
    if v.Some? { assert Attr(name, v.value) in m.LabelNow().attrs; }
    if w.Some? { assert Attr(name, w.value) in n.LabelNow().attrs; }
    if v.Some? && w.Some? { SameAttr(m.attrs, Attr(name, v.value), Attr(name, w.value)); }
  }

  lemma SameProperties(m: Node, n: Node, prop: string)
    requires UniqueProps(m.style) && UniqueProps(n.style) && m.LabelNow().style == n.LabelNow().style
    ensures GetProperty(m, prop) == GetProperty(n, prop)
  {
    var v, w := GetProperty(m, prop), GetProperty(n, prop);
    if v.Some? { assert Decl(prop, v.value.0, v.value.1) in m.LabelNow().style; }
    if w.Some? { assert Decl(prop, w.value.0, w.value.1) in n.LabelNow().style; }
    if v.Some? && w.Some? { SameDecl(m.style, Decl(prop, v.value.0, v.value.1), Decl(prop, w.value.0, w.value.1)); }
  }

  lemma AttributesAsRead(m: Node, n: Node)
    requires UniqueNames(m.attrs) && UniqueNames(n.attrs)
    requires forall name: string | name != "style" :: GetAttribute(m, name) == GetAttribute(n, name)
    ensures m.LabelNow().attrs <= n.LabelNow().attrs
  {
    forall a | a in m.LabelNow().attrs ensures a in n.LabelNow().attrs {
      var v := GetAttribute(m, a.name);
      SameAttr(m.attrs, a, Attr(a.name, v.value));
      assert GetAttribute(n, a.name) == v;
    }
  }

  lemma StyleAsRead(m: Node, n: Node)
    requires UniqueProps(m.style) && UniqueProps(n.style)
    requires forall prop: string :: GetProperty(m, prop) == GetProperty(n, prop)
    ensures m.LabelNow().style <= n.LabelNow().style
  {
    forall d | d in m.LabelNow().style ensures d in n.LabelNow().style {
      var v := GetProperty(m, d.prop);
      SameDecl(m.style, d, Decl(d.prop, v.value.0, v.value.1));
      assert GetProperty(n, d.prop) == v;
    }
  }
}
