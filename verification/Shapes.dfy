/** Trees of nodes, their contents as values, and what a reconciliation should leave behind. */
module Shapes {
  import opened Basics
  import opened Dom

  /** The nodes of a tree, frozen: which node sits where. */
  datatype Shape = Shape(node: Node, kids: seq<Shape>)

  ghost function Nodes(s: Shape): set<Node>
    decreases s
  {
    {s.node} + NodesOf(s.kids)
  }

  ghost function NodesOf(ss: seq<Shape>): set<Node>
    decreases ss
  {
    if ss == [] then {} else Nodes(ss[0]) + NodesOf(ss[1..])
  }

  ghost function Roots(ss: seq<Shape>): (r: seq<Node>)
    ensures |r| == |ss| && forall i | 0 <= i < |r| :: r[i] == ss[i].node
  {
    seq(|ss|, i requires 0 <= i < |ss| => ss[i].node)
  }

  /** No node occurs twice. */
  ghost predicate Proper(s: Shape)
    decreases s
  {
    s.node !in NodesOf(s.kids) && ProperAll(s.kids)
  }

  ghost predicate ProperAll(ss: seq<Shape>)
    decreases ss
  {
    ss == [] || (Proper(ss[0]) && Nodes(ss[0]) !! NodesOf(ss[1..]) && ProperAll(ss[1..]))
  }

  /** The heap has this shape. */
  ghost predicate Holds(s: Shape)
    reads Nodes(s)
    decreases s
  {
    s.node.WellFormed() && s.node.childNodes == Roots(s.kids) && HoldsAll(s.kids, s.node)
  }

  ghost predicate HoldsAll(ss: seq<Shape>, parent: Node?)
    reads NodesOf(ss)
    decreases ss
  {
    ss == [] || (Holds(ss[0]) && ss[0].node.parent == parent && HoldsAll(ss[1..], parent))
  }

  /** What a tree says, with no node identities in it. */
  datatype Tree = Tree(self: Label, kids: seq<Tree>)

  ghost function View(s: Shape): Tree
    reads Nodes(s)
    decreases s
  {
    Tree(s.node.LabelNow(), ViewAll(s.kids))
  }

  ghost function ViewAll(ss: seq<Shape>): (v: seq<Tree>)
    reads NodesOf(ss)
    ensures |v| == |ss|
    decreases ss
  {
    if ss == [] then [] else [View(ss[0])] + ViewAll(ss[1..])
  }

  // ------------------------------------------------------------ joining lists

  lemma {:induction false} NodesJoin(a: seq<Shape>, b: seq<Shape>)
    ensures NodesOf(a + b) == NodesOf(a) + NodesOf(b)
  {
    if a == [] {
      assert a + b == b;
    } else {
      assert (a + b)[0] == a[0] && (a + b)[1..] == a[1..] + b;
      NodesJoin(a[1..], b);
    }
  }

  lemma {:induction false} HoldsJoin(a: seq<Shape>, b: seq<Shape>, parent: Node?)
    ensures HoldsAll(a + b, parent) <==> HoldsAll(a, parent) && HoldsAll(b, parent)
  {
    if a == [] {
      assert a + b == b;
    } else {
      assert (a + b)[0] == a[0] && (a + b)[1..] == a[1..] + b;
      HoldsJoin(a[1..], b, parent);
    }
  }

  lemma {:induction false} ViewJoin(a: seq<Shape>, b: seq<Shape>)
    ensures ViewAll(a + b) == ViewAll(a) + ViewAll(b)
  {
    if a == [] {
      assert a + b == b;
    } else {
      assert (a + b)[0] == a[0] && (a + b)[1..] == a[1..] + b;
      ViewJoin(a[1..], b);
    }
  }

  lemma {:induction false} ProperJoin(a: seq<Shape>, b: seq<Shape>)
    ensures ProperAll(a + b) <==> ProperAll(a) && ProperAll(b) && NodesOf(a) !! NodesOf(b)
  {
    if a == [] {
      assert a + b == b;
    } else {
      assert (a + b)[0] == a[0] && (a + b)[1..] == a[1..] + b;
      ProperJoin(a[1..], b);
      NodesJoin(a[1..], b);
    }
  }

  lemma {:induction false} RootIn(ss: seq<Shape>, i: nat)
    requires i < |ss|
    ensures ss[i].node in NodesOf(ss)
  {
    if i == 0 {
    } else {
      RootIn(ss[1..], i - 1);
    }
  }

  // ------------------------------------------------ the shape that is left

  /** The old node can be kept: both text, or both elements of the same name. */
  predicate Compatible(a: Node, b: Node) {
    && a.nodeType == b.nodeType
    && (a.nodeType == TEXT_NODE
        || (a.nodeType == ELEMENT_NODE && a.tagName == b.tagName && a.namespaceURI == b.namespaceURI))
  }

  /** Old nodes wherever the kinds agree from the root down, fresh nodes everywhere else. */
  ghost function Morphed(old_: Shape, fresh_: Shape): Shape
    decreases fresh_
  {
    if Compatible(old_.node, fresh_.node) then Shape(old_.node, MorphedAll(old_.kids, fresh_.kids)) else fresh_
  }

  ghost function MorphedAll(olds: seq<Shape>, news: seq<Shape>): (r: seq<Shape>)
    ensures |r| == |news|
    decreases news
  {
    if news == [] then []
    else if olds == [] then news
    else [Morphed(olds[0], news[0])] + MorphedAll(olds[1..], news[1..])
  }

  lemma {:induction false} MorphedUses(o: Shape, n: Shape)
    ensures Nodes(Morphed(o, n)) <= Nodes(o) + Nodes(n)
    decreases n
  {
    if Compatible(o.node, n.node) {
      MorphedAllUses(o.kids, n.kids);
    }
  }

  lemma {:induction false} MorphedAllUses(olds: seq<Shape>, news: seq<Shape>)
    ensures NodesOf(MorphedAll(olds, news)) <= NodesOf(olds) + NodesOf(news)
    decreases news
  {
    if news == [] || olds == [] {
    } else {
      MorphedUses(olds[0], news[0]);
      MorphedAllUses(olds[1..], news[1..]);
    }
  }

  lemma {:induction false} MorphedIsProper(o: Shape, n: Shape)
    requires Proper(o) && Proper(n) && Nodes(o) !! Nodes(n)
    ensures Proper(Morphed(o, n))
    decreases n
  {
    if Compatible(o.node, n.node) {
      MorphedAllProper(o.kids, n.kids);
      MorphedAllUses(o.kids, n.kids);
    }
  }

  lemma {:induction false} MorphedAllProper(olds: seq<Shape>, news: seq<Shape>)
    requires ProperAll(olds) && ProperAll(news) && NodesOf(olds) !! NodesOf(news)
    ensures ProperAll(MorphedAll(olds, news))
    decreases news
  {
    if news == [] || olds == [] {
    } else {
      MorphedIsProper(olds[0], news[0]);
      MorphedAllProper(olds[1..], news[1..]);
      MorphedUses(olds[0], news[0]);
      MorphedAllUses(olds[1..], news[1..]);
    }
  }

  // ----------------------------------------------------------- positions

  /** The node at a path of child indices, if the shape is that deep and wide. */
  ghost function At(s: Shape, path: seq<nat>): Option<Node>
    decreases |path|
  {
    if path == [] then Some(s.node)
    else if path[0] < |s.kids| then At(s.kids[path[0]], path[1..])
    else None
  }

  /** The kinds agree at every position from the root down to the end of the path. */
  ghost predicate AgreesAlong(o: Shape, n: Shape, path: seq<nat>)
    decreases |path|
  {
    && Compatible(o.node, n.node)
    && (path == [] || (path[0] < |o.kids| && path[0] < |n.kids|
                       && AgreesAlong(o.kids[path[0]], n.kids[path[0]], path[1..])))
  }

  lemma {:induction false} MorphedAt(olds: seq<Shape>, news: seq<Shape>, i: nat)
    requires i < |news|
    ensures MorphedAll(olds, news)[i] == if i < |olds| then Morphed(olds[i], news[i]) else news[i]
    decreases i
  {
    if i == 0 || olds == [] {
    } else {
      MorphedAt(olds[1..], news[1..], i - 1);
    }
  }

  /**
   * A morph keeps the old node exactly when both are text, or both are elements
   * of the same tag in the same namespace; otherwise the fresh tree takes its
   * place whole.
   */
  lemma KeptNode(o: Shape, n: Shape)
    requires o.node != n.node
    ensures Morphed(o, n).node == o.node <==>
      || (o.node.nodeType == 3 && n.node.nodeType == 3)
      || (o.node.nodeType == 1 && n.node.nodeType == 1
          && o.node.tagName == n.node.tagName && o.node.namespaceURI == n.node.namespaceURI)
    ensures Morphed(o, n).node != o.node ==> Morphed(o, n) == n
  {}

  /** Every position of the fresh tree is kept, and holds the old node exactly where the kinds agree all the way down. */
  lemma {:induction false} IdentityIsKept(o: Shape, n: Shape, path: seq<nat>)
    ensures At(Morphed(o, n), path) ==
            if AgreesAlong(o, n, path) then At(o, path) else At(n, path)
    decreases |path|
  {
    if !Compatible(o.node, n.node) || path == [] || path[0] >= |n.kids| {
    } else {
      MorphedAt(o.kids, n.kids, path[0]);
      if path[0] < |o.kids| {
        IdentityIsKept(o.kids[path[0]], n.kids[path[0]], path[1..]);
      }
    }
  }

  /** The same for the positions below a parent whose own children were reconciled. */
  lemma PositionsAreKept(parent: Node, olds: seq<Shape>, news: seq<Shape>, i: nat, path: seq<nat>)
    requires i < |news|
    ensures At(Shape(parent, MorphedAll(olds, news)), [i] + path) ==
            if i < |olds| && AgreesAlong(olds[i], news[i], path) then At(olds[i], path) else At(news[i], path)
  {
    MorphedAt(olds, news, i);
    assert ([i] + path)[1..] == path;
    if i < |olds| { IdentityIsKept(olds[i], news[i], path); }
  }

  /** The same kinds in the same places, all the way down. */
  ghost predicate SameKinds(o: Shape, n: Shape)
    decreases n
  {
    Compatible(o.node, n.node) && SameKindsAll(o.kids, n.kids)
  }

  ghost predicate SameKindsAll(olds: seq<Shape>, news: seq<Shape>)
    decreases news
  {
    if news == [] then olds == []
    else olds != [] && SameKinds(olds[0], news[0]) && SameKindsAll(olds[1..], news[1..])
  }

  lemma {:induction false} SameKindsEach(olds: seq<Shape>, news: seq<Shape>)
    ensures SameKindsAll(olds, news) <==>
            |olds| == |news| && forall k | 0 <= k < |olds| :: SameKinds(olds[k], news[k])
    decreases news
  {
    if news == [] || olds == [] {
    } else {
      SameKindsEach(olds[1..], news[1..]);
      if |olds| == |news| && forall k | 0 <= k < |olds| :: SameKinds(olds[k], news[k]) {
        forall k | 0 <= k < |olds[1..]| ensures SameKinds(olds[1..][k], news[1..][k]) {
          assert SameKinds(olds[k + 1], news[k + 1]);
        }
      }
      if SameKindsAll(olds, news) {
        forall k | 0 <= k < |olds| ensures SameKinds(olds[k], news[k]) {
          if k > 0 { assert SameKinds(olds[1..][k - 1], news[1..][k - 1]); }
        }
      }
    }
  }

  /** A re-render replaces no node at all exactly when the structure is the same. */
  lemma {:induction false} SameKindsKeepAll(o: Shape, n: Shape)
    requires Nodes(o) !! Nodes(n)
    ensures Morphed(o, n) == o <==> SameKinds(o, n)
    decreases n
  {
    assert n.node in Nodes(n) && o.node in Nodes(o);
    SameKindsKeepAllKids(o.kids, n.kids);
  }

  lemma {:induction false} SameKindsKeepAllKids(olds: seq<Shape>, news: seq<Shape>)
    requires NodesOf(olds) !! NodesOf(news)
    ensures MorphedAll(olds, news) == olds <==> SameKindsAll(olds, news)
    decreases news
  {
    if news == [] || olds == [] {
    } else {
      SameKindsKeepAll(olds[0], news[0]);
      SameKindsKeepAllKids(olds[1..], news[1..]);
      assert MorphedAll(olds, news) == olds <==>
             Morphed(olds[0], news[0]) == olds[0] && MorphedAll(olds[1..], news[1..]) == olds[1..] by {
        var all := MorphedAll(olds, news);
        assert all[0] == Morphed(olds[0], news[0]) && all[1..] == MorphedAll(olds[1..], news[1..]);
        assert olds == [olds[0]] + olds[1..] && all == [all[0]] + all[1..];
      }
    }
  }
}
