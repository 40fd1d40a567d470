/** What creating and destroying nodes deep in a tree does to the whole tree. */
module FsShape {
  import opened Seqs
  import opened FsNode
  import opened FsTree

  // ----- the tree under creation and destruction

  /** `f` with the nodes of `g` behind it. */
  ghost function Append(f: Forest, g: Forest): Forest {
    match f
    case Nil => g
    case Cons(n, k, s) => Cons(n, k, Append(s, g))
  }

  /** `f` with `leaf` as the last child of `p`. */
  ghost function AddLeaf(f: Forest, p: Node?, leaf: Node): Forest {
    if p == null then Append(f, Cons(leaf, Nil, Nil)) else AddBelow(f, p, leaf)
  }

  ghost function AddBelow(f: Forest, p: Node, leaf: Node): Forest {
    match f
    case Nil => Nil
    case Cons(n, k, s) =>
      if n == p then Cons(n, Append(k, Cons(leaf, Nil, Nil)), s)
      else Cons(n, AddBelow(k, p, leaf), AddBelow(s, p, leaf))
  }

  /** `f` after `fs_node_destroy(node)`. */
  ghost function Cut(f: Forest, node: Node, pins: set<Node>): Forest {
    match f
    case Nil => Nil
    case Cons(n, k, s) =>
      if n == node then Append(Destroyed(Cons(n, k, Nil), pins).left, s)
      else Cons(n, Cut(k, node, pins), Cut(s, node, pins))
  }

  /** The forest below `node`. */
  ghost function KidsOf(f: Forest, node: Node): Forest
    requires node in Nodes(f)
  {
    var Cons(n, k, s) := f;
    if n == node then k else if node in Nodes(k) then KidsOf(k, node) else KidsOf(s, node)
  }

  /** The links of the nodes of `ns` at one moment. */
  datatype Links = Links(childs: map<Node, seq<Node>>, parent: map<Node, Node?>)

  ghost function LinksOf(ns: set<Node>): Links
    reads ns`childs, ns`parent
  {
    Links(map n | n in ns :: n.childs, map n | n in ns :: n.parent)
  }

  /** `Rep`, on recorded links. */
  ghost predicate Shaped(f: Forest, ns: seq<Node>, parent: Node?, l: Links) {
    match f
    case Nil => ns == []
    case Cons(n, k, s) =>
      && ns != [] && ns[0] == n && n in l.parent && l.parent[n] == parent
      && n in l.childs && Shaped(k, l.childs[n], n, l) && Shaped(s, ns[1..], parent, l)
  }

  lemma {:induction false} ShapedIsRep(f: Forest, ns: seq<Node>, parent: Node?, all: set<Node>)
    requires Nodes(f) <= all
    ensures Rep(f, ns, parent) <==> Shaped(f, ns, parent, LinksOf(all))
  {
    match f
    case Nil =>
    case Cons(n, k, s) =>
      ShapedIsRep(k, n.childs, n, all);
      if ns != [] { ShapedIsRep(s, ns[1..], parent, all); }
  }

  /** Links of other nodes do not matter. */
  lemma {:induction false} ShapedElsewhere(f: Forest, ns: seq<Node>, parent: Node?, l: Links, m: Links)
    requires Shaped(f, ns, parent, l)
    requires forall n | n in Nodes(f) :: n in l.childs && n in l.parent && n in m.childs && n in m.parent
                                      && l.childs[n] == m.childs[n] && l.parent[n] == m.parent[n]
    ensures Shaped(f, ns, parent, m)
  {
    match f
    case Nil =>
    case Cons(n, k, s) =>
      ShapedElsewhere(k, l.childs[n], n, l, m);
      ShapedElsewhere(s, ns[1..], parent, l, m);
  }

  lemma {:induction false} AppendShaped(f: Forest, g: Forest, ns: seq<Node>, more: seq<Node>, parent: Node?, l: Links)
    requires Shaped(f, ns, parent, l) && Shaped(g, more, parent, l)
    ensures Shaped(Append(f, g), ns + more, parent, l)
    ensures Nodes(Append(f, g)) == Nodes(f) + Nodes(g)
  {
    match f
    case Nil => assert ns + more == more;
    case Cons(n, k, s) =>
      AppendShaped(s, g, ns[1..], more, parent, l);
      assert (ns + more)[1..] == ns[1..] + more;
  }

  lemma {:induction false} AppendDistinct(f: Forest, g: Forest)
    requires Distinct(f) && Distinct(g) && Nodes(f) !! Nodes(g)
    ensures Distinct(Append(f, g)) && Nodes(Append(f, g)) == Nodes(f) + Nodes(g)
  {
    match f
    case Nil =>
    case Cons(n, k, s) => AppendDistinct(s, g);
  }

  lemma {:induction false} AddNodes(f: Forest, p: Node, leaf: Node)
    requires Distinct(f) && leaf !in Nodes(f)
    ensures Distinct(AddBelow(f, p, leaf))
    ensures Nodes(AddBelow(f, p, leaf)) == Nodes(f) + if p in Nodes(f) then {leaf} else {}
  {
    match f
    case Nil =>
    case Cons(n, k, s) =>
      if n == p {
        AppendDistinct(k, Cons(leaf, Nil, Nil));
      } else {
        AddNodes(k, p, leaf);
        AddNodes(s, p, leaf);
      }
  }

  /** From `l` to `m` the children of `p` gained `leaf` and nothing else changed. */
  ghost predicate Grown(ns: set<Node>, p: Node, leaf: Node, l: Links, m: Links) {
    && (forall n | n in ns ::
          n in l.childs && n in l.parent && n in m.childs && n in m.parent && m.parent[n] == l.parent[n])
    && (forall n | n in ns :: m.childs[n] == if n == p then l.childs[n] + [leaf] else l.childs[n])
    && leaf in m.childs && leaf in m.parent && m.childs[leaf] == [] && m.parent[leaf] == p
  }

  /** Appending a new leaf to the children of `p` adds it to the tree there. */
  lemma {:induction false} AddShaped(f: Forest, ns: seq<Node>, parent: Node?, p: Node, leaf: Node, l: Links, m: Links)
    requires Shaped(f, ns, parent, l) && Distinct(f) && Grown(Nodes(f), p, leaf, l, m)
    ensures Shaped(AddBelow(f, p, leaf), ns, parent, m)
  {
    match f
    case Nil =>
    case Cons(n, k, s) =>
      if n == p {
        ShapedElsewhere(k, l.childs[n], n, l, m);
        ShapedElsewhere(s, ns[1..], parent, l, m);
        assert [leaf][1..] == [] && Shaped(Nil, [], n, m) && Shaped(Nil, [], leaf, m);
        assert Shaped(Cons(leaf, Nil, Nil), [leaf], n, m);
        AppendShaped(k, Cons(leaf, Nil, Nil), l.childs[n], [leaf], n, m);
      } else {
        AddShaped(k, l.childs[n], n, p, leaf, l, m);
        AddShaped(s, ns[1..], parent, p, leaf, l, m);
      }
  }

  /** `leaf`, linked below `parent` since `l` was recorded, has joined the tree. */
  lemma LeafJoins(f: Forest, roots: seq<Node>, parent: Node, leaf: Node, l: Links)
    requires Shaped(f, roots, null, l) && Distinct(f) && leaf !in Nodes(f) && parent in Nodes(f)
    requires Grown(Nodes(f), parent, leaf, l, LinksOf(Nodes(f) + {leaf}))
    ensures Rep(AddLeaf(f, parent, leaf), roots, null) && Distinct(AddLeaf(f, parent, leaf))
    ensures Nodes(AddLeaf(f, parent, leaf)) == Nodes(f) + {leaf}
  {
    AddNodes(f, parent, leaf);
    AddShaped(f, roots, null, parent, leaf, l, LinksOf(Nodes(f) + {leaf}));
    ShapedIsRep(AddLeaf(f, parent, leaf), roots, null, Nodes(f) + {leaf});
  }

  /** A new root has joined the forest. */
  lemma RootJoins(f: Forest, roots: seq<Node>, leaf: Node)
    requires Rep(f, roots, null) && Distinct(f) && leaf !in Nodes(f)
    requires leaf.childs == [] && leaf.parent == null
    ensures Rep(AddLeaf(f, null, leaf), roots + [leaf], null) && Distinct(AddLeaf(f, null, leaf))
    ensures Nodes(AddLeaf(f, null, leaf)) == Nodes(f) + {leaf}
  {
    var all := Nodes(f) + {leaf};
    var t, m := Cons(leaf, Nil, Nil), LinksOf(all);
    ShapedIsRep(f, roots, null, all);
    assert [leaf][1..] == [] && Shaped(Nil, [], leaf, m) && Shaped(t, [leaf], null, m);
    AppendShaped(f, t, roots, [leaf], null, m);
    AppendDistinct(f, t);
    ShapedIsRep(Append(f, t), roots + [leaf], null, all);
  }

  // ----- cutting

  lemma {:induction false} CutAbsent(f: Forest, node: Node, pins: set<Node>)
    requires node !in Nodes(f)
    ensures Cut(f, node, pins) == f
  {
    match f
    case Nil =>
    case Cons(n, k, s) =>
      CutAbsent(k, node, pins);
      CutAbsent(s, node, pins);
  }

  /** The nodes that `fs_node_destroy(node)` frees. */
  ghost function Freed(f: Forest, node: Node, pins: set<Node>): set<Node>
    requires node in Nodes(f)
  {
    var t := Cons(node, KidsOf(f, node), Nil);
    Nodes(t) - Nodes(Destroyed(t, pins).left)
  }

  lemma {:induction false} KidsNodes(f: Forest, node: Node)
    requires Distinct(f) && node in Nodes(f)
    ensures Nodes(KidsOf(f, node)) <= Nodes(f) && Distinct(KidsOf(f, node)) && node !in Nodes(KidsOf(f, node))
    ensures Nodes(KidsOf(f, node)) == Below(f, node)
  {
    var Cons(n, k, s) := f;
    BelowNodes(k, node);
    BelowNodes(s, node);
    if n == node {
    } else if node in Nodes(k) {
      KidsNodes(k, node);
    } else {
      KidsNodes(s, node);
    }
  }

  lemma FreedWithin(f: Forest, node: Node, pins: set<Node>)
    requires Distinct(f) && node in Nodes(f)
    ensures Freed(f, node, pins) <= Nodes(f)
  {
    KidsNodes(f, node);
  }

  lemma CutRoot(n: Node, k: Forest, s: Forest, pins: set<Node>)
    requires Distinct(Cons(n, k, s))
    ensures var f := Cons(n, k, s);
            Distinct(Cut(f, n, pins)) && Nodes(Cut(f, n, pins)) == Nodes(f) - Freed(f, n, pins)
  {
    hide Destroyed;
    var f, t := Cons(n, k, s), Cons(n, k, Nil);
    LeftIsPart(t, pins);
    AppendDistinct(Destroyed(t, pins).left, s);
    assert Nodes(f) == Nodes(t) + Nodes(s) && Nodes(t) !! Nodes(s);
  }

  lemma {:induction false} CutNodes(f: Forest, node: Node, pins: set<Node>)
    requires Distinct(f) && node in Nodes(f)
    ensures Distinct(Cut(f, node, pins))
    ensures Nodes(Cut(f, node, pins)) == Nodes(f) - Freed(f, node, pins)
  {
    hide Destroyed, Freed;
    var Cons(n, k, s) := f;
    if n == node {
      CutRoot(n, k, s, pins);
    } else if node in Nodes(k) {
      assert Freed(f, node, pins) == Freed(k, node, pins) by { FreedAlike(f, k, node, pins); }
      CutAbsent(s, node, pins);
      CutNodes(k, node, pins);
      FreedWithin(k, node, pins);
    } else {
      assert Freed(f, node, pins) == Freed(s, node, pins) by { FreedAlike(f, s, node, pins); }
      CutAbsent(k, node, pins);
      CutNodes(s, node, pins);
      FreedWithin(s, node, pins);
    }
  }

  lemma FreedAlike(f: Forest, g: Forest, node: Node, pins: set<Node>)
    requires node in Nodes(f) && node in Nodes(g) && KidsOf(f, node) == KidsOf(g, node)
    ensures Freed(f, node, pins) == Freed(g, node, pins)
  {
  }

  lemma {:induction false} RemoveAbsent<T>(s: seq<T>, x: T)
    requires x !in s
    ensures Remove(s, x) == s
  {
    if s != [] { RemoveAbsent(s[1..], x); }
  }

  lemma {:induction false} ShapedMembers(f: Forest, ns: seq<Node>, parent: Node?, l: Links)
    requires Shaped(f, ns, parent, l)
    ensures forall n | n in ns :: n in Nodes(f)
    ensures forall n | n in Nodes(f) :: n in l.childs && n in l.parent
  {
    match f
    case Nil =>
    case Cons(n, k, s) =>
      ShapedMembers(k, l.childs[n], n, l);
      ShapedMembers(s, ns[1..], parent, l);
      assert ns == [n] + ns[1..];
  }

  function Drop(ns: seq<Node>, node: Node, ok: bool): (r: seq<Node>)
    ensures r == if ok then Remove(ns, node) else ns
  {
    if ok then Remove(ns, node) else ns
  }

  /** From `l` to `m` the nodes of `ns` lost `node` as a child if `ok`, no more. */
  ghost predicate Shrunk(ns: set<Node>, node: Node, ok: bool, l: Links, m: Links) {
    && (forall n | n in ns ::
          n in l.childs && n in l.parent && n in m.childs && n in m.parent && m.parent[n] == l.parent[n])
    && (forall n | n in ns :: m.childs[n] == Drop(l.childs[n], node, ok))
  }

  lemma {:induction false} CutElsewhere(f: Forest, ns: seq<Node>, parent: Node?, node: Node, ok: bool, l: Links,
                                        m: Links)
    requires Shaped(f, ns, parent, l) && node !in Nodes(f) && Shrunk(Nodes(f), node, ok, l, m)
    ensures Shaped(f, ns, parent, m) && Drop(ns, node, ok) == ns
  {
    ShapedMembers(f, ns, parent, l);
    RemoveAbsent(ns, node);
    match f
    case Nil =>
    case Cons(n, k, s) =>
      CutElsewhere(k, l.childs[n], n, node, ok, l, m);
      CutElsewhere(s, ns[1..], parent, node, ok, l, m);
  }

  /** `node` is gone, or its children are what the failed destruction left. */
  ghost predicate Handled(node: Node, d: Outcome, l: Links, m: Links) {
    d.ok || (&& node in m.parent && node in l.parent && m.parent[node] == l.parent[node]
             && node in m.childs && d.left.Cons? && d.left.node == node && d.left.sibs == Nil
             && Shaped(d.left.kids, m.childs[node], node, m))
  }

  lemma CutShapedRoot(n: Node, k: Forest, s: Forest, ns: seq<Node>, parent: Node?, pins: set<Node>, l: Links, m: Links)
    requires Shaped(Cons(n, k, s), ns, parent, l) && Shaped(s, ns[1..], parent, m)
    requires Handled(n, Destroyed(Cons(n, k, Nil), pins), l, m)
    ensures Shaped(Cut(Cons(n, k, s), n, pins), Drop(ns, n, Destroyed(Cons(n, k, Nil), pins).ok), parent, m)
  {
    var d := Destroyed(Cons(n, k, Nil), pins);
    SucceedsIffUnpinned(Cons(n, k, Nil), pins);
    assert Cut(Cons(n, k, s), n, pins) == Append(d.left, s);
    if !d.ok {
      assert Append(d.left, s) == Cons(n, d.left.kids, Append(Nil, s));
    }
  }

  /** The heap after `fs_node_destroy(node)` has the shape `Cut` describes. */
  lemma {:induction false} CutShaped(f: Forest, ns: seq<Node>, parent: Node?, node: Node, pins: set<Node>, l: Links,
                                     m: Links)
    requires Shaped(f, ns, parent, l) && Distinct(f) && node in Nodes(f)
    requires Shrunk(Nodes(f) - Nodes(Cons(node, KidsOf(f, node), Nil)), node,
                    Destroyed(Cons(node, KidsOf(f, node), Nil), pins).ok, l, m)
    requires Handled(node, Destroyed(Cons(node, KidsOf(f, node), Nil), pins), l, m)
    ensures Shaped(Cut(f, node, pins), Drop(ns, node, Destroyed(Cons(node, KidsOf(f, node), Nil), pins).ok), parent, m)
  {
    hide Destroyed, Handled;
    var ok := Destroyed(Cons(node, KidsOf(f, node), Nil), pins).ok;
    var Cons(n, k, s) := f;
    assert ns == [n] + ns[1..];
    if n == node {
      CutElsewhere(s, ns[1..], parent, node, ok, l, m);
      CutShapedRoot(n, k, s, ns, parent, pins, l, m);
    } else if node in Nodes(k) {
      KidsNodes(k, node);
      CutElsewhere(s, ns[1..], parent, node, ok, l, m);
      CutAbsent(s, node, pins);
      CutShaped(k, l.childs[n], n, node, pins, l, m);
    } else {
      KidsNodes(s, node);
      CutElsewhere(k, l.childs[n], n, node, ok, l, m);
      CutAbsent(k, node, pins);
      CutShaped(s, ns[1..], parent, node, pins, l, m);
    }
  }

  /** The heap after the destruction, seen as a whole. */
  lemma TreeAfter(f: Forest, roots: seq<Node>, node: Node, pins: set<Node>, l: Links)
    requires Shaped(f, roots, null, l) && Distinct(f) && node in Nodes(f) && node !in roots
    requires var d := Destroyed(Cons(node, KidsOf(f, node), Nil), pins);
             && Shrunk(Nodes(f) - Nodes(Cons(node, KidsOf(f, node), Nil)), node, d.ok, l, LinksOf(Nodes(f)))
             && Handled(node, d, l, LinksOf(Nodes(f)))
    ensures Rep(Cut(f, node, pins), roots, null) && Distinct(Cut(f, node, pins))
    ensures Nodes(Cut(f, node, pins)) == Nodes(f) - Freed(f, node, pins)
  {
    hide Destroyed, Handled, Shrunk, Freed;
    CutShaped(f, roots, null, node, pins, l, LinksOf(Nodes(f)));
    RemoveAbsent(roots, node);
    CutNodes(f, node, pins);
    ShapedIsRep(Cut(f, node, pins), roots, null, Nodes(f));
  }

  // ----- what a tree on the heap says about single nodes

  /** A node is where its parent says, and the tree below it is its own. */
  lemma {:induction false} RepNode(f: Forest, ns: seq<Node>, parent: Node?, node: Node)
    requires Rep(f, ns, parent) && Distinct(f) && node in Nodes(f)
    ensures Nodes(KidsOf(f, node)) <= Nodes(f) && Rep(KidsOf(f, node), node.childs, node)
    ensures node in ns ==> node.parent == parent
    ensures node !in ns ==> node.parent != null && node.parent in Nodes(f) && node.parent != node
    ensures node !in ns ==> node.parent !in Nodes(KidsOf(f, node))
    ensures node !in ns ==> node in node.parent.childs && NoDup(node.parent.childs)
  {
    var Cons(n, k, s) := f;
    RepLength(f, ns, parent);
    assert ns == [n] + ns[1..];
    if n == node {
    } else if node in Nodes(k) {
      RepLength(k, n.childs, n);
      KidsNodes(k, node);
      RepLength(s, ns[1..], parent);
      RepNode(k, n.childs, n, node);
    } else {
      KidsNodes(s, node);
      RepNode(s, ns[1..], parent, node);
    }
  }

  lemma {:induction false} ChildParents(f: Forest, ns: seq<Node>, parent: Node?, n: Node, c: Node)
    requires Rep(f, ns, parent) && Distinct(f) && n in Nodes(f) && c in n.childs
    ensures c.parent == n && c in Nodes(f)
  {
    var Cons(m, k, s) := f;
    if n == m {
      RepLength(k, m.childs, m);
    } else if n in Nodes(k) {
      ChildParents(k, m.childs, m, n, c);
    } else {
      ChildParents(s, ns[1..], parent, n, c);
    }
  }

  /** Nothing happens to a tree when the node to destroy has a descriptor. */
  lemma {:induction false} CutPinned(f: Forest, node: Node, pins: set<Node>)
    requires Distinct(f) && node in Nodes(f) && node in pins
    ensures Cut(f, node, pins) == f
  {
    var Cons(n, k, s) := f;
    if n == node {
      assert Append(Cons(n, k, Nil), s) == Cons(n, k, Append(Nil, s));
    } else if node in Nodes(k) {
      CutPinned(k, node, pins);
      CutAbsent(s, node, pins);
    } else {
      CutPinned(s, node, pins);
      CutAbsent(k, node, pins);
    }
  }

  lemma FreedIs(f: Forest, node: Node, pins: set<Node>)
    requires node in Nodes(f)
    ensures var t := Cons(node, KidsOf(f, node), Nil); Freed(f, node, pins) == Nodes(t) - Nodes(Destroyed(t, pins).left)
  {
  }

  lemma FreedUnpinned(f: Forest, node: Node, pins: set<Node>)
    requires Distinct(f) && node in Nodes(f)
    ensures Freed(f, node, pins) !! pins
    ensures Destroyed(Cons(node, KidsOf(f, node), Nil), pins).ok ==>
              Freed(f, node, pins) == {node} + Below(f, node)
  {
    KidsNodes(f, node);
    var t := Cons(node, KidsOf(f, node), Nil);
    LeftIsPart(t, pins);
    SucceedsIffUnpinned(t, pins);
  }
}
