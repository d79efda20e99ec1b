/** The incremental reconcile: one tree turned into another in place, keeping every node that can be kept. */
module Reconcile {
  import opened Basics
  import opened Dom
  import opened Sync
  import opened Shapes

  /** A node list without one of its nodes. */
  function Without(s: seq<Node>, n: Node): seq<Node> {
    if s == [] then [] else if s[0] == n then s[1..] else [s[0]] + Without(s[1..], n)
  }

  /** It is cut out once, where it first stands, and the others keep their order. */
  lemma {:induction false} WithoutCutsOnce(s: seq<Node>, n: Node) returns (i: nat)
    ensures if n in s then i < |s| && s[i] == n && n !in s[..i] && Without(s, n) == s[..i] + s[i + 1..]
            else Without(s, n) == s
    decreases |s|
  {
    if s == [] || s[0] == n {
      i := 0;
    } else {
      var rest := s[1..];
      var j := WithoutCutsOnce(rest, n);
      assert s == [s[0]] + rest;
      i := j + 1;
      if n in rest {
        assert s[..i] == [s[0]] + rest[..j] && s[i + 1..] == rest[j + 1..];
        assert [s[0]] + (rest[..j] + rest[j + 1..]) == [s[0]] + rest[..j] + rest[j + 1..];
      }
    }
  }

  /** The node itself, if there is one. */
  ghost function Just(n: Node?): set<Node> {
    if n == null then {} else {n}
  }

  ghost function ChildrenOf(n: Node?): seq<Node>
    reads Just(n)
  {
    if n == null then [] else n.childNodes
  }

  /** The child list that a node was taken from is the one it was, without that node. */
  ghost predicate LeftBehind(n: Node, from: Node?, children: seq<Node>)
    reads Just(from)
  {
    from != null ==> from.childNodes == Without(children, n)
  }

  /** Moving a node takes it out of the child list it was in. */
  method Detach(n: Node)
    requires n.parent != null ==> n.parent != n
    modifies n`parent, Just(n.parent)`childNodes
    ensures n.parent == null && LeftBehind(n, old(n.parent), old(ChildrenOf(n.parent)))
  {
    if n.parent != null {
      var p := n.parent;
      p.childNodes := Without(p.childNodes, n);
      n.parent := null;
    }
  }

  method AppendChild(p: Node, n: Node)
    requires n != p && n.parent != p && n.parent != n
    modifies p`childNodes, n`parent, Just(n.parent)`childNodes
    ensures n.parent == p && p.childNodes == old(p.childNodes) + [n]
    ensures LeftBehind(n, old(n.parent), old(ChildrenOf(n.parent)))
  {
    Detach(n);
    p.childNodes := p.childNodes + [n];
    n.parent := p;
  }

  method ReplaceChild(p: Node, m: Node, on: Node, i: nat)
    requires i < |p.childNodes| && p.childNodes[i] == on
    requires m != p && m.parent != p && m.parent != m && on != m
    modifies p`childNodes, m`parent, Just(m.parent)`childNodes, on`parent
    ensures m.parent == p && p.childNodes == old(p.childNodes)[i := m] && on.parent == null
    ensures LeftBehind(m, old(m.parent), old(ChildrenOf(m.parent)))
  {
    Detach(m);
    on.parent := null;
    p.childNodes := p.childNodes[i := m];
    m.parent := p;
  }

  method RemoveLast(p: Node, n: Node)
    requires p.childNodes != [] && p.childNodes[|p.childNodes| - 1] == n
    modifies p`childNodes, n`parent
    ensures p.childNodes == old(p.childNodes)[..|old(p.childNodes)| - 1]
  {
    p.childNodes := p.childNodes[..|p.childNodes| - 1];
    n.parent := null;
  }

  // ------------------------------------------- the same moves, on whole trees

  /** Appending a tree keeps it whole. */
  method AppendShape(p: Node, n: Node, ghost r: Shape, ghost foot: set<Node>)
    requires r.node == n && foot == Nodes(r) && Holds(r) && Proper(r)
    requires p !in foot && n.parent != p && Just(n.parent) !! foot
    modifies p`childNodes, n`parent, Just(n.parent)`childNodes
    ensures n.parent == p && p.childNodes == old(p.childNodes) + [n]
    ensures Holds(r) && View(r) == old(View(r))
  {
    assert n in foot && NodesOf(r.kids) <= foot;
    assert HoldsAll(r.kids, n);
    ghost var v := ViewAll(r.kids);
    AppendChild(p, n);
    assert HoldsAll(r.kids, n) && ViewAll(r.kids) == v;
  }

  method ReplaceShape(p: Node, m: Node, on: Node, i: nat, ghost r: Shape, ghost foot: set<Node>)
    requires i < |p.childNodes| && p.childNodes[i] == on
    requires r.node == m && foot == Nodes(r) && Holds(r) && Proper(r)
    requires p !in foot && on !in foot && m.parent != p && Just(m.parent) !! foot
    modifies p`childNodes, m`parent, Just(m.parent)`childNodes, on`parent
    ensures m.parent == p && p.childNodes == old(p.childNodes)[i := m]
    ensures Holds(r) && View(r) == old(View(r))
  {
    assert m in foot && NodesOf(r.kids) <= foot;
    assert HoldsAll(r.kids, m);
    ghost var v := ViewAll(r.kids);
    ReplaceChild(p, m, on, i);
    assert HoldsAll(r.kids, m) && ViewAll(r.kids) == v;
  }

  // ------------------------------------------------------------- the morph

  /** One position of the lists: the old node morphed or replaced, or the fresh one appended. */
  method ReconcileOne(parent: Node, next: Node, i: nat, ghost from: Node?, ghost os: seq<Shape>, ghost n: Shape,
                      ghost fo: set<Node>, ghost fn: set<Node>)
    requires |os| <= 1 && fo == NodesOf(os) && fn == Nodes(n) && next == n.node
    requires parent != from && parent !in fo + fn && Just(from) !! fo + fn && fo !! fn
    requires if os == [] then i == |parent.childNodes|
             else i < |parent.childNodes| && parent.childNodes[i] == os[0].node
    requires HoldsAll(os, parent) && ProperAll(os) && Holds(n) && Proper(n) && n.node.parent == from
    modifies fo + fn, parent`childNodes, Just(from)`childNodes
    ensures var r := if os == [] then n else Morphed(os[0], n);
      && Holds(r) && r.node.parent == parent && View(r) == old(View(n))
      && parent.childNodes ==
         if os == [] then old(parent.childNodes) + [r.node] else old(parent.childNodes)[i := r.node]
    decreases n, 2
  {
    if i >= |parent.childNodes| {
      AppendShape(parent, next, n, fn);
    } else {
      ghost var o := os[0];
      assert fo == Nodes(o) && Holds(o);
      var on := parent.childNodes[i];
      var m := MorphNode(on, next, o, n, fo, fn);
      if m != on {
        assert Morphed(o, n) == n;
        ReplaceShape(parent, m, on, i, n, fn);
      }
    }
  }

  method MorphNode(o: Node, n: Node, ghost so: Shape, ghost sn: Shape, ghost fo: set<Node>, ghost fn: set<Node>)
    returns (m: Node)
    requires so.node == o && sn.node == n && Holds(so) && Holds(sn)
    requires fo == Nodes(so) && fn == Nodes(sn) && Proper(so) && Proper(sn) && fo !! fn
    modifies fo + fn
    ensures m == Morphed(so, sn).node
    ensures Holds(Morphed(so, sn)) && View(Morphed(so, sn)) == old(View(sn))
    ensures o.parent == old(o.parent) && n.parent == old(n.parent)
    decreases sn, 1
  {
    hide UniqueNames, UniqueProps, HasName;
    if o.nodeType != n.nodeType { return n; }
    if o.nodeType == TEXT_NODE {
      assert Roots(so.kids) == [] && Roots(sn.kids) == [] && o.handlers == n.handlers;
      if o.nodeValue != n.nodeValue { o.nodeValue := n.nodeValue; }
      assert o.LabelNow() == old(n.LabelNow());
      return o;
    }
    if o.nodeType != ELEMENT_NODE || o.tagName != n.tagName || o.namespaceURI != n.namespaceURI { return n; }
    assert HoldsAll(so.kids, o) && HoldsAll(sn.kids, n);
    assert o !in NodesOf(so.kids) && n !in NodesOf(sn.kids);
    SyncElement(o, n);
    assert HoldsAll(so.kids, o) && HoldsAll(sn.kids, n);
    assert ViewAll(sn.kids) == old(ViewAll(sn.kids));
    ReconcileList(o, n.childNodes, n, so.kids, sn.kids, NodesOf(so.kids), NodesOf(sn.kids));
    return o;
  }

  /** An element brought in line with a fresh one of the same name, children aside. */
  method SyncElement(o: Node, n: Node)
    requires o != n && o.WellFormed() && n.WellFormed() && o.nodeType == ELEMENT_NODE && Compatible(o, n)
    modifies o`attrs, o`style, o`handlers
    ensures o.WellFormed() && o.LabelNow() == n.LabelNow()
  {
    SyncAttrs(o, n);
    SyncHandlers(o, n);
  }

  /** Part of the way through: `done` is in place, `ro` is still to be met, `rn` still to be taken. */
  ghost predicate Midway(parent: Node, from: Node?, done: seq<Shape>, ro: seq<Shape>, rn: seq<Shape>,
                         fo: set<Node>, fn: set<Node>)
    reads fo + fn, parent
  {
    && NodesOf(done) <= fo + fn && NodesOf(ro) <= fo && NodesOf(rn) <= fn
    && NodesOf(done) !! NodesOf(ro) && NodesOf(done) !! NodesOf(rn)
    && ProperAll(ro) && ProperAll(rn)
    && HoldsAll(done, parent) && HoldsAll(ro, parent) && HoldsAll(rn, from)
    && parent.childNodes == Roots(done + ro)
  }

  /** What is held of the old list's next position, or of the lack of one. */
  lemma OldOpens(parent: Node, os: seq<Shape>, ro: seq<Shape>)
    requires ProperAll(os + ro) && HoldsAll(os + ro, parent)
    ensures NodesOf(os + ro) == NodesOf(os) + NodesOf(ro) && NodesOf(os) !! NodesOf(ro)
    ensures ProperAll(os) && ProperAll(ro) && HoldsAll(os, parent) && HoldsAll(ro, parent)
  {
    hide HoldsAll, ProperAll, NodesOf;
    NodesJoin(os, ro);
    HoldsJoin(os, ro, parent);
    ProperJoin(os, ro);
  }

  /** What is held of the fresh list's next position. */
  lemma NewOpens(from: Node?, n: Shape, rn: seq<Shape>)
    requires ProperAll([n] + rn) && HoldsAll([n] + rn, from)
    ensures NodesOf([n] + rn) == Nodes(n) + NodesOf(rn) && Nodes(n) !! NodesOf(rn)
    ensures Proper(n) && ProperAll(rn) && Holds(n) && n.node.parent == from && HoldsAll(rn, from)
    ensures ViewAll([n] + rn) == [View(n)] + ViewAll(rn)
  {
    hide Proper, Holds, View, Nodes, HoldsAll, ProperAll, ViewAll, NodesOf;
    NodesJoin([n], rn);
    HoldsJoin([n], rn, from);
    ProperJoin([n], rn);
    ViewJoin([n], rn);
    SingleShape(n, from);
  }

  lemma RootsJoin(a: seq<Shape>, b: seq<Shape>)
    ensures Roots(a + b) == Roots(a) + Roots(b)
  {}

  /** The pieces of the next position, one by one. */
  lemma MidwayOpens(parent: Node, from: Node?, done: seq<Shape>, os: seq<Shape>, ro: seq<Shape>, n: Shape,
                    rn: seq<Shape>, fo: set<Node>, fn: set<Node>)
    requires Midway(parent, from, done, os + ro, [n] + rn, fo, fn)
    ensures NodesOf(done) <= fo + fn && NodesOf(os) <= fo && NodesOf(ro) <= fo && Nodes(n) <= fn && NodesOf(rn) <= fn
    ensures NodesOf(done) !! NodesOf(os) && NodesOf(done) !! NodesOf(ro)
    ensures NodesOf(done) !! Nodes(n) && NodesOf(done) !! NodesOf(rn)
    ensures NodesOf(os) !! NodesOf(ro) && Nodes(n) !! NodesOf(rn)
    ensures ProperAll(os) && ProperAll(ro) && Proper(n) && ProperAll(rn)
    ensures HoldsAll(done, parent) && HoldsAll(os, parent) && HoldsAll(ro, parent)
    ensures Holds(n) && n.node.parent == from && HoldsAll(rn, from)
    ensures parent.childNodes == Roots(done) + Roots(os) + Roots(ro)
    ensures ViewAll([n] + rn) == [View(n)] + ViewAll(rn)
  {
    hide Proper, Holds, View, Nodes, HoldsAll, ProperAll, ViewAll, NodesOf, Roots;
    OldOpens(parent, os, ro);
    NewOpens(from, n, rn);
    RootsJoin(done, os + ro);
    RootsJoin(os, ro);
  }

  lemma MidwayCloses(parent: Node, from: Node?, done: seq<Shape>, r: Shape, ro: seq<Shape>, rn: seq<Shape>,
                     fo: set<Node>, fn: set<Node>)
    requires NodesOf(done) <= fo + fn && Nodes(r) <= fo + fn && NodesOf(ro) <= fo && NodesOf(rn) <= fn
    requires NodesOf(done) !! NodesOf(ro) && Nodes(r) !! NodesOf(ro)
    requires NodesOf(done) !! NodesOf(rn) && Nodes(r) !! NodesOf(rn)
    requires ProperAll(ro) && ProperAll(rn)
    requires HoldsAll(done, parent) && Holds(r) && r.node.parent == parent && HoldsAll(ro, parent) && HoldsAll(rn, from)
    requires parent.childNodes == Roots(done) + [r.node] + Roots(ro)
    ensures Midway(parent, from, done + [r], ro, rn, fo, fn)
    ensures ViewAll(done + [r]) == ViewAll(done) + [View(r)]
  {
    hide Proper, Holds, View, Nodes, HoldsAll, ProperAll, ViewAll, NodesOf;
    SingleShape(r, parent);
    HoldsJoin(done, [r], parent);
    ViewJoin(done, [r]);
    NodesJoin(done, [r]);
    assert parent.childNodes == Roots(done + [r] + ro);
  }

  lemma Spliced(all: seq<Node>, a: seq<Node>, here: seq<Node>, b: seq<Node>, x: Node)
    requires all == a + here + b && |here| <= 1 && (here == [] ==> b == [])
    ensures if here == [] then |a| == |all| && all + [x] == a + [x] + b
            else |a| < |all| && all[|a|] == here[0] && all[|a| := x] == a + [x] + b
  {}

  /** The next position, and what it adds. */
  method ReconcileStep(parent: Node, next: Node, i: nat, ghost from: Node?, ghost done: seq<Shape>,
                       ghost os: seq<Shape>, ghost ro: seq<Shape>, ghost n: Shape, ghost rn: seq<Shape>,
                       ghost fo: set<Node>, ghost fn: set<Node>)
    requires parent != from && parent !in fo + fn && Just(from) !! fo + fn && fo !! fn
    requires Midway(parent, from, done, os + ro, [n] + rn, fo, fn)
    requires |os| <= 1 && (os == [] ==> ro == []) && i == |done| && next == n.node
    modifies fo + fn, parent`childNodes, Just(from)`childNodes
    ensures var r := if os == [] then n else Morphed(os[0], n);
      && Midway(parent, from, done + [r], ro, rn, fo, fn)
      && ViewAll(done + [r]) + ViewAll(rn) == old(ViewAll(done) + ViewAll([n] + rn))
    decreases n, 3
  {
    hide Morphed, Proper, Holds, View, Nodes, Midway, NodesOf, HoldsAll, ProperAll, ViewAll;
    MidwayOpens(parent, from, done, os, ro, n, rn, fo, fn);
    ghost var r := if os == [] then n else Morphed(os[0], n);
    ghost var kept, left := ViewAll(done), ViewAll(rn);
    Spliced(parent.childNodes, Roots(done), Roots(os), Roots(ro), r.node);
    ReconcileOne(parent, next, i, from, os, n, NodesOf(os), Nodes(n));
    UsesBoth(os, n, r);
    assert ViewAll(done) == kept && ViewAll(rn) == left;
    assert HoldsAll(ro, parent) && HoldsAll(rn, from) && HoldsAll(done, parent);
    MidwayCloses(parent, from, done, r, ro, rn, fo, fn);
    assert kept + [View(r)] + left == kept + ([View(r)] + left);
  }

  lemma SingleShape(s: Shape, parent: Node?)
    ensures NodesOf([s]) == Nodes(s) && ViewAll([s]) == [View(s)]
    ensures HoldsAll([s], parent) <==> Holds(s) && s.node.parent == parent
    ensures ProperAll([s]) <==> Proper(s)
  {
    assert [s][1..] == [];
  }

  lemma UsesBoth(os: seq<Shape>, n: Shape, r: Shape)
    requires |os| <= 1 && r == if os == [] then n else Morphed(os[0], n)
    ensures Nodes(r) <= NodesOf(os) + Nodes(n)
  {
    if os != [] { MorphedUses(os[0], n); }
  }

  /** Children past the end of the fresh list go, last first. */
  method TrimChildren(parent: Node, size: nat, ghost done: seq<Shape>, ghost rest: seq<Shape>, ghost foot: set<Node>)
    requires parent !in foot && NodesOf(done) <= foot && NodesOf(rest) <= foot && NodesOf(done) !! NodesOf(rest)
    requires HoldsAll(done, parent) && parent.childNodes == Roots(done + rest) && size == |done|
    modifies foot, parent`childNodes
    ensures HoldsAll(done, parent) && parent.childNodes == Roots(done) && ViewAll(done) == old(ViewAll(done))
  {
    hide Holds, View, Nodes;
    ghost var ro := rest;
    while |parent.childNodes| > size
      invariant parent.childNodes == Roots(done + ro) && HoldsAll(done, parent) && ViewAll(done) == old(ViewAll(done))
      invariant NodesOf(ro) <= foot && NodesOf(done) !! NodesOf(ro)
    {
      ghost var ro', x := ro[..|ro| - 1], ro[|ro| - 1];
      NodesJoin(ro', [x]);
      assert ro == ro' + [x];
      RootIn(ro, |ro| - 1);
      RemoveLast(parent, parent.childNodes[|parent.childNodes| - 1]);
      assert parent.childNodes == Roots(done + ro');
      ro := ro';
    }
    assert done + ro == done;
  }

  /**
   * Brings the children of `parent` in line with the list `next`, whose nodes
   * still belong to `from` (or to no parent). `olds` and `news` are the shapes
   * of the two lists.
   */
  method ReconcileList(parent: Node, next: seq<Node>, ghost from: Node?, ghost olds: seq<Shape>, ghost news: seq<Shape>,
                       ghost fo: set<Node>, ghost fn: set<Node>)
    requires parent != from && parent.childNodes == Roots(olds) && next == Roots(news)
    requires HoldsAll(olds, parent) && HoldsAll(news, from)
    requires fo == NodesOf(olds) && fn == NodesOf(news)
    requires ProperAll(olds) && ProperAll(news) && fo !! fn
    requires parent !in fo + fn && Just(from) !! fo + fn
    modifies fo + fn, parent`childNodes, Just(from)`childNodes
    ensures parent.childNodes == Roots(MorphedAll(olds, news))
    ensures HoldsAll(MorphedAll(olds, news), parent)
    ensures ViewAll(MorphedAll(olds, news)) == old(ViewAll(news))
    decreases news, 0
  {
    hide Morphed, MorphedAll, Midway, Proper, ProperAll, Holds, HoldsAll, View, ViewAll, Nodes, NodesOf;
    ghost var all := MorphedAll(olds, news);
    ghost var want := ViewAll(news);
    ghost var done: seq<Shape> := [];
    ghost var ro, rn := olds, news;
    var i := 0;
    MidwayStarts(parent, from, olds, news, fo, fn);
    while i < |next|
      invariant 0 <= i <= |next| && |done| == i && rn == news[i..]
      invariant all == done + MorphedAll(ro, rn) && want == ViewAll(done) + ViewAll(rn)
      invariant Midway(parent, from, done, ro, rn, fo, fn)
    {
      ghost var n, rn' := rn[0], rn[1..];
      ghost var os, ro' := if ro == [] then [] else [ro[0]], if ro == [] then [] else ro[1..];
      assert rn == [n] + rn' && ro == os + ro';
      ghost var r := if os == [] then n else Morphed(os[0], n);
      MorphedHead(ro, rn, r);
      ReconcileStep(parent, next[i], i, from, done, os, ro', n, rn', fo, fn);
      assert done + ([r] + MorphedAll(ro', rn')) == done + [r] + MorphedAll(ro', rn');
      done, ro, rn := done + [r], ro', rn';
      i := i + 1;
    }
    MidwayEnds(parent, from, done, ro, rn, fo, fn);
    TrimChildren(parent, |next|, done, ro, fo + fn);
  }

  lemma MidwayStarts(parent: Node, from: Node?, olds: seq<Shape>, news: seq<Shape>, fo: set<Node>, fn: set<Node>)
    requires parent.childNodes == Roots(olds) && HoldsAll(olds, parent) && HoldsAll(news, from)
    requires fo == NodesOf(olds) && fn == NodesOf(news) && ProperAll(olds) && ProperAll(news)
    ensures Midway(parent, from, [], olds, news, fo, fn)
    ensures MorphedAll(olds, news) == [] + MorphedAll(olds, news) && ViewAll(news) == ViewAll([]) + ViewAll(news)
  {
    hide MorphedAll, HoldsAll, ProperAll, ViewAll, NodesOf;
    EmptyList(parent);
    assert [] + olds == olds;
  }

  lemma EmptyList(parent: Node?)
    ensures NodesOf([]) == {} && ViewAll([]) == [] && HoldsAll([], parent)
  {}

  lemma MorphedHead(ro: seq<Shape>, rn: seq<Shape>, r: Shape)
    requires rn != [] && r == if ro == [] then rn[0] else Morphed(ro[0], rn[0])
    ensures MorphedAll(ro, rn) == [r] + MorphedAll(if ro == [] then [] else ro[1..], rn[1..])
  {
    hide Morphed;
  }

  lemma MidwayEnds(parent: Node, from: Node?, done: seq<Shape>, ro: seq<Shape>, rn: seq<Shape>,
                   fo: set<Node>, fn: set<Node>)
    requires Midway(parent, from, done, ro, rn, fo, fn) && rn == []
    ensures done + MorphedAll(ro, rn) == done && ViewAll(done) + ViewAll(rn) == ViewAll(done)
    ensures NodesOf(done) <= fo + fn && NodesOf(ro) <= fo && NodesOf(done) !! NodesOf(ro)
    ensures HoldsAll(done, parent) && parent.childNodes == Roots(done + ro)
  {}

  // ---------------------------------------------------------- the entry point

  /** What a view hands over: nothing, a list of such things, a built tree, or a value to show as text. */
  datatype Item = Nothing | Many(items: seq<Item>) | Built(tree: Shape) | Words(text: string)

  /** The built trees, in order. */
  ghost function Trees(c: Item): seq<Shape>
    decreases c
  {
    match c
    case Nothing => []
    case Many(items) => TreesAll(items)
    case Built(tree) => [tree]
    case Words(_) => []
  }

  ghost function TreesAll(items: seq<Item>): seq<Shape>
    decreases items
  {
    if items == [] then [] else Trees(items[0]) + TreesAll(items[1..])
  }

  ghost function TextTree(value: string): Tree {
    Tree(Label(TEXT_NODE, "", "", value, {}, {}, seq(EV_PROPS, _ => None)), [])
  }

  /** Nested lists taken apart: the built trees and the texts, in order. */
  function Leaves(c: Item): seq<Item>
    decreases c
  {
    match c
    case Nothing => []
    case Many(items) => LeavesAll(items)
    case Built(_) => [c]
    case Words(_) => [c]
  }

  function LeavesAll(items: seq<Item>): seq<Item>
    decreases items
  {
    if items == [] then [] else Leaves(items[0]) + LeavesAll(items[1..])
  }

  /** The shape a leaf becomes: its own tree, or a text node with nothing below it. */
  ghost predicate Stands(leaf: Item, s: Shape) {
    if leaf.Built? then s == leaf.tree else s.kids == [] && s.node.nodeType == TEXT_NODE
  }

  ghost predicate StandsAll(leaves: seq<Item>, ss: seq<Shape>) {
    |ss| == |leaves| && forall k | 0 <= k < |ss| :: Stands(leaves[k], ss[k])
  }

  /** A list of trees and texts is its own flattening, in order; what is nothing leaves nothing. */
  lemma {:induction false} FlatListStands(items: seq<Item>)
    requires forall k | 0 <= k < |items| :: items[k].Built? || items[k].Words?
    ensures LeavesAll(items) == items && Leaves(Nothing) == []
    decreases |items|
  {
    if items == [] {
    } else {
      FlatListStands(items[1..]);
      assert Leaves(items[0]) == [items[0]];
      assert items == [items[0]] + items[1..];
    }
  }

  /** Nesting a list in another makes no difference. */
  lemma NestingIsFlattened(a: seq<Item>, inner: seq<Item>, b: seq<Item>)
    ensures LeavesAll(a + [Many(inner)] + b) == LeavesAll(a + inner + b)
  {
    LeavesJoin(a + [Many(inner)], b);
    LeavesJoin(a, [Many(inner)]);
    LeavesJoin(a + inner, b);
    LeavesJoin(a, inner);
    assert [Many(inner)][1..] == [];
  }

  lemma {:induction false} LeavesJoin(a: seq<Item>, b: seq<Item>)
    ensures LeavesAll(a + b) == LeavesAll(a) + LeavesAll(b)
    decreases |a|
  {
    if a == [] {
      assert a + b == b;
    } else {
      assert (a + b)[0] == a[0] && (a + b)[1..] == a[1..] + b;
      LeavesJoin(a[1..], b);
    }
  }

  /** What the list says, flattened. */
  ghost function FlatView(c: Item): seq<Tree>
    reads NodesOf(Trees(c))
    decreases c
  {
    match c
    case Nothing => []
    case Many(items) => FlatViewAll(items)
    case Built(tree) => assert tree in [tree]; [View(tree)]
    case Words(text) => [TextTree(text)]
  }

  ghost function FlatViewAll(items: seq<Item>): seq<Tree>
    reads NodesOf(TreesAll(items))
    decreases items
  {
    if items == [] then []
    else
      NodesJoin(Trees(items[0]), TreesAll(items[1..]));
      FlatView(items[0]) + FlatViewAll(items[1..])
  }

  /** The flattened list so far: whole trees that belong to nobody. */
  ghost predicate Loose(next: seq<Node>, ss: seq<Shape>)
    reads NodesOf(ss)
  {
    next == Roots(ss) && HoldsAll(ss, null) && ProperAll(ss)
  }

  lemma LooseJoin(next: seq<Node>, ss: seq<Shape>, n: Node, s: Shape)
    requires Loose(next, ss) && s.node == n && n.parent == null && Holds(s) && Proper(s) && Nodes(s) !! NodesOf(ss)
    ensures Loose(next + [n], ss + [s])
    ensures NodesOf(ss + [s]) == NodesOf(ss) + Nodes(s) && ViewAll(ss + [s]) == ViewAll(ss) + [View(s)]
  {
    hide Proper, Holds, View, Nodes, HoldsAll, ProperAll, ViewAll, NodesOf;
    SingleShape(s, null);
    HoldsJoin(ss, [s], null);
    ProperJoin(ss, [s]);
    NodesJoin(ss, [s]);
    ViewJoin(ss, [s]);
  }

  method NewText(value: string) returns (n: Node)
    ensures fresh(n) && n.parent == null
    ensures var s := Shape(n, []); Holds(s) && Proper(s) && Nodes(s) == {n} && View(s) == TextTree(value)
  {
    n := new Node.Text(value);
    assert Roots([]) == [];
    assert n.handlers == seq(EV_PROPS, _ => None);
  }

  /**
   * Flattens what a view hands over onto `out`, in order; each text becomes a
   * text node of its own. `outS` is the shapes of `out`, and `made` those of
   * what is added.
   */
  method FlattenNodes(c: Item, out: seq<Node>, ghost outS: seq<Shape>, ghost foot: set<Node>)
    returns (next: seq<Node>, ghost made: seq<Shape>)
    requires foot == NodesOf(outS) + NodesOf(Trees(c)) && NodesOf(outS) !! NodesOf(Trees(c))
    requires Loose(out, outS) && HoldsAll(Trees(c), null) && ProperAll(Trees(c))
    ensures Loose(next, outS + made) && StandsAll(Leaves(c), made)
    ensures forall m | m in NodesOf(made) && m !in NodesOf(Trees(c)) :: fresh(m)
    ensures forall k | 0 <= k < |made| && Leaves(c)[k].Words? :: fresh(made[k].node)
    ensures ViewAll(made) == FlatView(c)
    decreases c, 0
  {
    match c {
      case Nothing =>
        next, made := out, [];
        assert outS + [] == outS;
      case Built(tree) =>
        SingleShape(tree, null);
        LooseJoin(out, outS, tree.node, tree);
        next, made := out + [tree.node], [tree];
      case Words(text) =>
        var n := NewText(text);
        ghost var s := Shape(n, []);
        SingleShape(s, null);
        LooseJoin(out, outS, n, s);
        next, made := out + [n], [s];
      case Many(items) =>
        next, made := FlattenAll(items, out, outS, foot);
    }
  }

  method FlattenAll(items: seq<Item>, out: seq<Node>, ghost outS: seq<Shape>, ghost foot: set<Node>)
    returns (next: seq<Node>, ghost made: seq<Shape>)
    requires foot == NodesOf(outS) + NodesOf(TreesAll(items)) && NodesOf(outS) !! NodesOf(TreesAll(items))
    requires Loose(out, outS) && HoldsAll(TreesAll(items), null) && ProperAll(TreesAll(items))
    ensures Loose(next, outS + made) && StandsAll(LeavesAll(items), made)
    ensures forall m | m in NodesOf(made) && m !in NodesOf(TreesAll(items)) :: fresh(m)
    ensures forall k | 0 <= k < |made| && LeavesAll(items)[k].Words? :: fresh(made[k].node)
    ensures ViewAll(made) == FlatViewAll(items)
    decreases items
  {
    hide Loose, HoldsAll, ProperAll, Trees, TreesAll, FlatView, FlatViewAll, NodesOf, ViewAll, Leaves, LeavesAll, Stands;
    next, made := out, [];
    var j := 0;
    ghost var all, want := NodesOf(TreesAll(items)), FlatViewAll(items);
    ghost var leaves: seq<Item> := [];
    ghost var have: set<Node> := {};
    FlatNone();
    assert outS + [] == outS && items[0..] == items;
    assert [] + FlatViewAll(items) == want && [] + LeavesAll(items) == LeavesAll(items);
    while j < |items|
      invariant 0 <= j <= |items| && Loose(next, outS + made) && have == NodesOf(made)
      invariant LeavesAll(items) == leaves + LeavesAll(items[j..]) && StandsAll(leaves, made)
      invariant forall m | m in have && m !in all :: fresh(m)
      invariant forall k | 0 <= k < |made| && leaves[k].Words? :: fresh(made[k].node)
      invariant NodesOf(TreesAll(items[j..])) <= all && NodesOf(outS + made) !! NodesOf(TreesAll(items[j..]))
      invariant HoldsAll(TreesAll(items[j..]), null) && ProperAll(TreesAll(items[j..]))
      invariant ViewAll(made) + FlatViewAll(items[j..]) == want && FlatViewAll(items) == want
    {
      ghost var x, rest := items[j], items[j + 1..];
      assert items[j..] == [x] + rest && items[j..][1..] == rest;
      FlatHead(x, rest);
      ghost var more: seq<Shape>;
      NodesJoin(outS, made);
      ghost var was, said, left := ViewAll(made), FlatView(x), FlatViewAll(rest);
      ghost var prev, here := NodesOf(outS + made), NodesOf(Trees(x));
      next, more := FlattenNodes(items[j], next, outS + made, prev + here);
      assert ViewAll(made) == was && FlatViewAll(rest) == left && FlatViewAll(items) == want;
      NodesJoin(outS + made, more);
      NodesJoin(made, more);
      ViewJoin(made, more);
      assert outS + made + more == outS + (made + more);
      assert was + (said + left) == was + said + left;
      assert leaves + (Leaves(x) + LeavesAll(rest)) == leaves + Leaves(x) + LeavesAll(rest);
      ghost var now := NodesOf(more);
      forall m | m in have + now && m !in all ensures fresh(m) {
        if m in now { assert m !in here; }
      }
      have := have + now;
      leaves := leaves + Leaves(x);
      made := made + more;
      j := j + 1;
    }
    assert items[j..] == [];
  }

  lemma FlatNone()
    ensures FlatViewAll([]) == [] && LeavesAll([]) == [] && NodesOf([]) == {} && ViewAll([]) == []
  {}

  /** The first item's trees and leaves and the rest's, apart. */
  lemma FlatHead(x: Item, rest: seq<Item>)
    requires HoldsAll(TreesAll([x] + rest), null) && ProperAll(TreesAll([x] + rest))
    ensures NodesOf(TreesAll([x] + rest)) == NodesOf(Trees(x)) + NodesOf(TreesAll(rest))
    ensures NodesOf(Trees(x)) !! NodesOf(TreesAll(rest))
    ensures HoldsAll(Trees(x), null) && ProperAll(Trees(x))
    ensures HoldsAll(TreesAll(rest), null) && ProperAll(TreesAll(rest))
    ensures FlatViewAll([x] + rest) == FlatView(x) + FlatViewAll(rest)
    ensures LeavesAll([x] + rest) == Leaves(x) + LeavesAll(rest)
  {
    hide Trees, FlatView, HoldsAll, ProperAll, NodesOf, Leaves;
    assert ([x] + rest)[0] == x && ([x] + rest)[1..] == rest;
    NodesJoin(Trees(x), TreesAll(rest));
    HoldsJoin(Trees(x), TreesAll(rest), null);
    ProperJoin(Trees(x), TreesAll(rest));
  }

  /**
   * The whole reconcile. Flattening `children` gives `made`: the built trees as
   * they stand and one new text node for each text, no node twice and none of
   * the old tree. Afterwards the parent's tree, still without a repeated node,
   * is the old children morphed with those, and shows exactly what was handed
   * over.
   */
  method ReconcileInto(parent: Node, children: Item, ghost sp: Shape, ghost foot: set<Node>)
    returns (ghost made: seq<Shape>)
    requires sp.node == parent && foot == Nodes(sp) + NodesOf(Trees(children))
    requires parent.nodeType != TEXT_NODE && Holds(sp) && Proper(sp)
    requires HoldsAll(Trees(children), null) && ProperAll(Trees(children)) && Nodes(sp) !! NodesOf(Trees(children))
    modifies foot
    ensures StandsAll(Leaves(children), made) && ProperAll(made) && NodesOf(made) !! Nodes(sp)
    ensures forall m | m in NodesOf(made) && m !in NodesOf(Trees(children)) :: fresh(m)
    ensures forall k | 0 <= k < |made| && Leaves(children)[k].Words? :: fresh(made[k].node)
    ensures var r := Shape(parent, MorphedAll(sp.kids, made));
      && Holds(r) && Proper(r) && parent.LabelNow() == old(parent.LabelNow())
      && ViewAll(r.kids) == old(FlatView(children))
  {
    hide Morphed, MorphedAll, Proper, ProperAll, Holds, HoldsAll, ViewAll, Nodes, NodesOf, Trees, Leaves, FlatView,
         StandsAll, UniqueNames, UniqueProps, HasName;
    Opens(sp);
    EmptyList(null);
    assert Roots([]) == [] && ProperAll([]) by { NothingProper(); }
    var next: seq<Node>;
    ghost var kids, mine, given := sp.kids, NodesOf(sp.kids), NodesOf(Trees(children));
    assert mine <= foot && parent in foot;
    next, made := FlattenNodes(children, [], [], given);
    assert [] + made == made && HoldsAll(kids, parent);
    ghost var fn := NodesOf(made);
    assert fn !! Nodes(sp) by {
      forall m | m in fn ensures m !in Nodes(sp) {
        if m in given { assert m !in Nodes(sp); } else { assert fresh(m) && m !in foot; }
      }
    }
    MorphedAllProper(kids, made);
    MorphedAllUses(kids, made);
    ReconcileList(parent, next, null, kids, made, mine, fn);
    Closes(Shape(parent, MorphedAll(kids, made)));
  }

  lemma Opens(s: Shape)
    requires Holds(s) && Proper(s)
    ensures HoldsAll(s.kids, s.node) && ProperAll(s.kids) && s.node.childNodes == Roots(s.kids) && s.node.WellFormed()
    ensures s.node !in NodesOf(s.kids) && Nodes(s) == {s.node} + NodesOf(s.kids)
  {}

  lemma Closes(s: Shape)
    requires HoldsAll(s.kids, s.node) && ProperAll(s.kids) && s.node.childNodes == Roots(s.kids) && s.node.WellFormed()
    requires s.node !in NodesOf(s.kids)
    ensures Holds(s) && Proper(s)
  {}

  lemma NothingProper()
    ensures ProperAll([]) && Roots([]) == []
  {}

  // -------------------------------------------------- which node sits where

  /** The old node on a path below child `i` has the kind of what the leaf wants there, all the way down. */
  ghost predicate LeafAgrees(o: Shape, leaf: Item, path: seq<nat>) {
    if leaf.Built? then AgreesAlong(o, leaf.tree, path)
    else path == [] && o.node.nodeType == TEXT_NODE
  }

  /**
   * After a reconcile with `children`, the node at position `[i] + path` below
   * the parent is the old node of that position if the kinds agree along the
   * whole path; otherwise it is the node the view built for it, or the new
   * text node.
   */
  lemma WhichNodeWhere(sp: Shape, children: Item, made: seq<Shape>, i: nat, path: seq<nat>)
    requires StandsAll(Leaves(children), made) && i < |made|
    ensures var leaf := Leaves(children)[i];
      At(Shape(sp.node, MorphedAll(sp.kids, made)), [i] + path) ==
        if i < |sp.kids| && LeafAgrees(sp.kids[i], leaf, path) then At(sp.kids[i], path)
        else if leaf.Built? then At(leaf.tree, path)
        else if path == [] then Some(made[i].node) else None
  {
    hide MorphedAll;
    PositionsAreKept(sp.node, sp.kids, made, i, path);
    assert Stands(Leaves(children)[i], made[i]);
  }

  /** The leaves ask for exactly the kinds of nodes that are there. */
  ghost predicate SameKindsLeaves(olds: seq<Shape>, leaves: seq<Item>) {
    |olds| == |leaves| && forall k | 0 <= k < |olds| ::
      if leaves[k].Built? then SameKinds(olds[k], leaves[k].tree)
      else olds[k].kids == [] && olds[k].node.nodeType == TEXT_NODE
  }

  /** A re-render keeps every node of the page exactly when it asks for the kinds that are there. */
  lemma RerenderKeepsAll(sp: Shape, children: Item, made: seq<Shape>)
    requires StandsAll(Leaves(children), made) && NodesOf(made) !! Nodes(sp)
    ensures Shape(sp.node, MorphedAll(sp.kids, made)) == sp <==> SameKindsLeaves(sp.kids, Leaves(children))
  {
    hide MorphedAll, SameKinds, Leaves;
    SameKindsKeepAllKids(sp.kids, made);
    SameKindsEach(sp.kids, made);
    forall k | 0 <= k < |made| && k < |sp.kids|
      ensures SameKinds(sp.kids[k], made[k]) <==>
              if Leaves(children)[k].Built? then SameKinds(sp.kids[k], Leaves(children)[k].tree)
              else sp.kids[k].kids == [] && sp.kids[k].node.nodeType == TEXT_NODE
    {
      assert Stands(Leaves(children)[k], made[k]);
      if !Leaves(children)[k].Built? { SameKindsText(sp.kids[k], made[k]); }
    }
  }

  lemma SameKindsText(o: Shape, n: Shape)
    requires n.kids == [] && n.node.nodeType == TEXT_NODE
    ensures SameKinds(o, n) <==> o.kids == [] && o.node.nodeType == TEXT_NODE
  {}
}
