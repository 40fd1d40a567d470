/** The tree that the nodes of the file system form, and what `fs_node_destroy` makes
    of it. */
module FsTree {
  import opened Seqs
  import opened FsNode

  /** An ordered forest: the first node, the forest below it, and its siblings. */
  datatype Forest = Nil | Cons(node: Node, kids: Forest, sibs: Forest)

  ghost function Nodes(f: Forest): set<Node> {
    match f
    case Nil => {}
    case Cons(n, k, s) => {n} + Nodes(k) + Nodes(s)
  }

  ghost predicate Distinct(f: Forest) {
    match f
    case Nil => true
    case Cons(n, k, s) =>
      && n !in Nodes(k) && n !in Nodes(s) && Nodes(k) !! Nodes(s)
      && Distinct(k) && Distinct(s)
  }

  /** On the heap, the list `ns` of children of `parent` and all below it form `f`. */
  ghost predicate Rep(f: Forest, ns: seq<Node>, parent: Node?)
    reads Nodes(f)`childs, Nodes(f)`parent
  {
    match f
    case Nil => ns == []
    case Cons(n, k, s) =>
      && ns != [] && ns[0] == n && n.parent == parent
      && Rep(k, n.childs, n) && Rep(s, ns[1..], parent)
  }

  /** The nodes in the order the destruction meets them. */
  ghost function Preorder(f: Forest): seq<Node> {
    match f
    case Nil => []
    case Cons(n, k, s) => [n] + Preorder(k) + Preorder(s)
  }

  /** The nodes strictly below `a`. */
  ghost function Below(f: Forest, a: Node): set<Node> {
    match f
    case Nil => {}
    case Cons(n, k, s) => if n == a then Nodes(k) else Below(k, a) + Below(s, a)
  }

  // ----- destruction on trees

  datatype Outcome = Outcome(ok: bool, left: Forest)

  /** Destroying the nodes of `f` from left to right, stopping at the first
      failure; `pins` are the nodes with descriptors. */
  ghost function Destroyed(f: Forest, pins: set<Node>): Outcome {
    match f
    case Nil => Outcome(true, Nil)
    case Cons(n, k, s) =>
      if n in pins then Outcome(false, f)
      else
        var below := Destroyed(k, pins);
        if below.ok then Destroyed(s, pins) else Outcome(false, Cons(n, below.left, s))
  }

  /** `ns` from its first pinned node on. */
  ghost function FromPin(ns: seq<Node>, pins: set<Node>): (r: seq<Node>)
    ensures r != [] ==> r[0] in pins
    ensures r == [] <==> forall n | n in ns :: n !in pins
  {
    if ns == [] || ns[0] in pins then ns else FromPin(ns[1..], pins)
  }

  /** The ancestors of the first pinned node, outermost first. */
  ghost function PathToPin(f: Forest, pins: set<Node>): seq<Node> {
    match f
    case Nil => []
    case Cons(n, k, s) =>
      if n in pins then []
      else if Nodes(k) !! pins then PathToPin(s, pins)
      else [n] + PathToPin(k, pins)
  }

  lemma {:induction false} PreorderNodes(f: Forest)
    ensures forall n :: n in Preorder(f) <==> n in Nodes(f)
  {
    match f
    case Nil =>
    case Cons(n, k, s) =>
      PreorderNodes(k);
      PreorderNodes(s);
  }

  /** Destruction succeeds exactly when no node carries a descriptor, and then
      nothing is left. */
  lemma {:induction false} SucceedsIffUnpinned(f: Forest, pins: set<Node>)
    ensures Destroyed(f, pins).ok <==> Nodes(f) !! pins
    ensures Destroyed(f, pins).ok ==> Destroyed(f, pins).left == Nil
  {
    match f
    case Nil =>
    case Cons(n, k, s) =>
      SucceedsIffUnpinned(k, pins);
      SucceedsIffUnpinned(s, pins);
  }

  lemma {:induction false} FromPinAppend(a: seq<Node>, b: seq<Node>, pins: set<Node>)
    ensures FromPin(a + b, pins) == if FromPin(a, pins) != [] then FromPin(a, pins) + b else FromPin(b, pins)
  {
    if a == [] {
      assert a + b == b;
    } else {
      assert (a + b)[1..] == a[1..] + b;
      FromPinAppend(a[1..], b, pins);
    }
  }

  /** Where the first pinned node is found: at the root, below it, or beside it. */
  lemma FromPinCons(n: Node, k: Forest, s: Forest, pins: set<Node>)
    ensures FromPin(Preorder(Cons(n, k, s)), pins)
         == if n in pins then Preorder(Cons(n, k, s))
            else if Nodes(k) !! pins then FromPin(Preorder(s), pins)
            else FromPin(Preorder(k), pins) + Preorder(s)
    ensures FromPin(Preorder(k), pins) != [] <==> !(Nodes(k) !! pins)
  {
    var pk, ps := Preorder(k), Preorder(s);
    PreorderNodes(k);
    assert [n] + pk + ps == [n] + (pk + ps);
    assert ([n] + (pk + ps))[1..] == pk + ps;
    FromPinAppend(pk, ps, pins);
  }

  /** A failing destruction removes, of the nodes before the first pinned one,
      exactly those that are not its ancestors, and nothing after it. */
  lemma {:induction false} FailureLeaves(f: Forest, pins: set<Node>)
    requires !Destroyed(f, pins).ok
    ensures FromPin(Preorder(f), pins) != []
    ensures Preorder(Destroyed(f, pins).left) == PathToPin(f, pins) + FromPin(Preorder(f), pins)
  {
    hide FromPin;
    var Cons(n, k, s) := f;
    SucceedsIffUnpinned(k, pins);
    FromPinCons(n, k, s, pins);
    if n in pins {
    } else if Destroyed(k, pins).ok {
      FailureLeaves(s, pins);
    } else {
      FailureLeaves(k, pins);
    }
  }

  /** The path consists of the nodes that have the first pinned node below them. */
  lemma {:induction false} PathIsAncestors(f: Forest, pins: set<Node>, a: Node)
    requires Distinct(f) && !(Nodes(f) !! pins)
    ensures FromPin(Preorder(f), pins) != []
    ensures FromPin(Preorder(f), pins)[0] in Nodes(f)
    ensures a in PathToPin(f, pins) <==> FromPin(Preorder(f), pins)[0] in Below(f, a)
  {
    hide FromPin;
    var Cons(n, k, s) := f;
    FromPinCons(n, k, s, pins);
    BelowNodes(k, a);
    BelowNodes(s, a);
    if n in pins {
      assert Preorder(f)[0] == n;
    } else if Nodes(k) !! pins {
      PathIsAncestors(s, pins, a);
    } else {
      PathIsAncestors(k, pins, a);
    }
  }

  lemma {:induction false} BelowNodes(f: Forest, a: Node)
    ensures Below(f, a) <= Nodes(f)
    ensures a !in Nodes(f) ==> Below(f, a) == {}
    ensures Distinct(f) ==> a !in Below(f, a)
  {
    match f
    case Nil =>
    case Cons(n, k, s) =>
      BelowNodes(k, a);
      BelowNodes(s, a);
  }

  /** What is left is part of what was there, still a forest, and keeps every
      pinned node. */
  lemma {:induction false} LeftIsPart(f: Forest, pins: set<Node>)
    requires Distinct(f)
    ensures Nodes(Destroyed(f, pins).left) <= Nodes(f) && Distinct(Destroyed(f, pins).left)
    ensures Nodes(f) * pins <= Nodes(Destroyed(f, pins).left)
  {
    match f
    case Nil =>
    case Cons(n, k, s) =>
      SucceedsIffUnpinned(k, pins);
      LeftIsPart(k, pins);
      LeftIsPart(s, pins);
  }

  /** The nodes that are left stand above and below each other as before. */
  lemma {:induction false} LeftKeepsShape(f: Forest, pins: set<Node>, a: Node)
    requires Distinct(f) && a in Nodes(Destroyed(f, pins).left)
    ensures Below(Destroyed(f, pins).left, a) == Below(f, a) * Nodes(Destroyed(f, pins).left)
  {
    var Cons(n, k, s) := f;
    SucceedsIffUnpinned(k, pins);
    SucceedsIffUnpinned(s, pins);
    LeftIsPart(f, pins);
    LeftIsPart(k, pins);
    LeftIsPart(s, pins);
    BelowNodes(k, a);
    BelowNodes(s, a);
    BelowNodes(f, a);
    if n in pins {
    } else if Destroyed(k, pins).ok {
      LeftKeepsShape(s, pins, a);
    } else {
      BelowNodes(Destroyed(k, pins).left, a);
      if a in Nodes(Destroyed(k, pins).left) { LeftKeepsShape(k, pins, a); }
    }
  }

  // ----- destruction on the heap

  /** A tree in hand consists of allocated nodes, so frames speak about them. */
  lemma {:induction false} NodesAllocated(f: Forest)
    ensures forall n | n in Nodes(f) :: allocated(n)
  {
    match f
    case Nil =>
    case Cons(n, k, s) =>
      NodesAllocated(k);
      NodesAllocated(s);
      assert allocated(n);
  }

  /** `pins` are the nodes of `ns` that descriptors refer to. */
  ghost predicate Pinned(ns: set<Node>, pins: set<Node>)
    reads ns`refCnt
  {
    forall n | n in ns :: n in pins <==> n.refCnt > 0
  }

  lemma {:induction false} RepLength(f: Forest, ns: seq<Node>, parent: Node?)
    requires Rep(f, ns, parent) && Distinct(f)
    ensures forall n | n in ns :: n in Nodes(f) && n.parent == parent
    ensures NoDup(ns) && (f == Nil <==> ns == [])
  {
    match f
    case Nil =>
    case Cons(n, k, s) =>
      RepLength(s, ns[1..], parent);
      assert ns == [n] + ns[1..];
  }

  /** Children lie in the same forest and point back. */
  lemma {:induction false} KidsInside(f: Forest, ns: seq<Node>, parent: Node?)
    requires Rep(f, ns, parent)
    ensures forall m, c | m in Nodes(f) && c in m.childs :: c in Nodes(f) && c.parent == m
    ensures forall c | c in ns :: c in Nodes(f) && c.parent == parent
  {
    match f
    case Nil =>
    case Cons(n, k, s) =>
      KidsInside(k, n.childs, n);
      KidsInside(s, ns[1..], parent);
      assert ns == [n] + ns[1..];
  }

  lemma {:induction false} ParentsInside(f: Forest, ns: seq<Node>, parent: Node?)
    requires Rep(f, ns, parent)
    ensures forall c | c in Nodes(f) :: c.parent == parent || c.parent in Nodes(f)
  {
    match f
    case Nil =>
    case Cons(n, k, s) =>
      ParentsInside(k, n.childs, n);
      ParentsInside(s, ns[1..], parent);
  }

  /** `fs_node_destroy` on a node that has a parent. */
  method Destroy(node: Node, ghost k: Forest, ghost pins: set<Node>) returns (r: int)
    requires Rep(k, node.childs, node) && Distinct(k) && node !in Nodes(k)
    requires node.parent != null && node.parent !in Nodes(k) && node.parent != node
    requires node in node.parent.childs && forall c | c in node.parent.childs :: c !in Nodes(k)
    requires Strung(node.parent) && forall n | n in Nodes(k) + {node} :: Strung(n)
    requires Pinned(Nodes(k) + {node}, pins)
    modifies Nodes(k)`childs, Nodes(k)`parent, Nodes(k)`first, Nodes(k)`prev, Nodes(k)`next
    modifies node`childs, node`parent, node`first
    modifies node.parent`childs, node.parent`first, node.parent.childs`prev, node.parent.childs`next
    ensures r == if Destroyed(Cons(node, k, Nil), pins).ok then 0 else -1
    ensures node.refCnt > 0 ==> unchanged(Nodes(k)`childs, Nodes(k)`parent, node`childs, node`parent,
                                          old(node.parent)`childs)
    ensures Strung(old(node.parent))
    ensures r == 0 ==> old(node.parent).childs == Remove(old(node.parent.childs), node)
    ensures r != 0 ==> node.parent == old(node.parent) && node.parent.childs == old(node.parent.childs)
    ensures r != 0 ==> var left := Destroyed(Cons(node, k, Nil), pins).left;
                       && left.Cons? && left.node == node && left.sibs == Nil && Rep(left.kids, node.childs, node)
                       && forall n | n in Nodes(left) :: Strung(n)
    decreases k, 2
  {
    hide Rep, Distinct, Strung;
    if node.refCnt > 0 {
      return -1;
    }
    NodesAllocated(k);
    r := DestroyChildren(node, k, pins);
    if r == 0 {
      ghost var i :| 0 <= i < |node.parent.childs| && node.parent.childs[i] == node;
      StrungDiffer(node.parent);
      RemoveFacts(node.parent.childs, node);
      Unlink(node.parent, node, i);
      node.parent, node.childs, node.first, node.prev, node.next := *, *, *, *, *;  // free(node)
    }
  }

  /** The loop over the children; `next` is read before the child it follows is freed. */
  method DestroyChildren(node: Node, ghost k: Forest, ghost pins: set<Node>) returns (q: int)
    requires Rep(k, node.childs, node) && Distinct(k) && node !in Nodes(k)
    requires Strung(node) && (forall n | n in Nodes(k) :: Strung(n)) && Pinned(Nodes(k), pins)
    modifies Nodes(k)`childs, Nodes(k)`parent, Nodes(k)`first, Nodes(k)`prev, Nodes(k)`next
    modifies node`childs, node`first
    ensures q == if Destroyed(k, pins).ok then 0 else -1
    ensures Strung(node)
    ensures q != 0 ==> Rep(Destroyed(k, pins).left, node.childs, node)
    ensures q != 0 ==> forall n | n in Nodes(Destroyed(k, pins).left) :: Strung(n)
    decreases k, 1
  {
    NodesAllocated(k);
    var child := node.first;
    var next := if child == null then null else child.next;
    ghost var rest := k;
    q := 0;
    while child != null
      invariant Rep(rest, node.childs, node) && Distinct(rest) && Nodes(rest) <= Nodes(k) && Pinned(Nodes(rest), pins)
      invariant child == if node.childs == [] then null else node.childs[0]
      invariant next == if |node.childs| < 2 then null else node.childs[1]
      invariant rest == k || rest < k
      invariant Destroyed(rest, pins) == Destroyed(k, pins)
      invariant Strung(node) && forall n | n in Nodes(rest) :: Strung(n)
      decreases rest
    {
      q := DestroyChild(node, child, rest, pins);
      if q != 0 {
        return;
      }
      rest := rest.sibs;
      child := next;
      next := if next == null then null else next.next;
    }
  }

  /** The loop body: destroys the first remaining child. */
  method DestroyChild(node: Node, child: Node, ghost rest: Forest, ghost pins: set<Node>) returns (q: int)
    requires rest.Cons? && rest.node == child
    requires Rep(rest, node.childs, node) && Distinct(rest) && node !in Nodes(rest)
    requires Strung(node) && forall n | n in Nodes(rest) :: Strung(n)
    requires Pinned(Nodes(rest), pins)
    modifies Nodes(rest)`childs, Nodes(rest)`parent, Nodes(rest)`first, Nodes(rest)`prev, Nodes(rest)`next
    modifies node`childs, node`first
    ensures q == 0 || q == -1
    ensures Strung(node)
    ensures q == 0 ==> node.childs == old(node.childs)[1..] && Rep(rest.sibs, node.childs, node)
    ensures q == 0 ==>
              Distinct(rest.sibs) && Pinned(Nodes(rest.sibs), pins) && forall n | n in Nodes(rest.sibs) :: Strung(n)
    ensures q == 0 ==> Destroyed(rest, pins) == Destroyed(rest.sibs, pins)
    ensures q != 0 ==> !Destroyed(rest, pins).ok && Rep(Destroyed(rest, pins).left, node.childs, node)
    ensures q != 0 ==> forall n | n in Nodes(Destroyed(rest, pins).left) :: Strung(n)
    decreases rest, 0
  {
    hide Rep, Distinct, Destroyed, Pinned, Nodes, Strung;
    ghost var below, sibs := rest.kids, rest.sibs;
    Rest(node, rest, pins);
    NodesAllocated(rest);
    q := Destroy(child, below, pins);
    forall n | n in Nodes(sibs) ensures Strung(n) {
      assert n.childs == old(n.childs) && n.first == old(n.first);
      assert forall c | c in n.childs :: c in Nodes(sibs) && c !in Nodes(below) && c !in old(node.childs);
      assert forall c | c in n.childs :: c.prev == old(c.prev) && c.next == old(c.next);
    }
    DestroyedRest(rest, pins);
    if q != 0 { Fails(node, rest, pins); }
  }

  /** Destroying the first tree of a forest, and then the others. */
  lemma DestroyedRest(rest: Forest, pins: set<Node>)
    requires rest.Cons?
    ensures var d := Destroyed(Cons(rest.node, rest.kids, Nil), pins);
            if d.ok then Destroyed(rest, pins) == Destroyed(rest.sibs, pins)
            else !Destroyed(rest, pins).ok && d.left.Cons?
                 && Destroyed(rest, pins).left == Cons(rest.node, d.left.kids, rest.sibs)
                 && Nodes(Destroyed(rest, pins).left) == Nodes(d.left) + Nodes(rest.sibs)
  {
    SucceedsIffUnpinned(rest.kids, pins);
  }

  lemma Fails(node: Node, rest: Forest, pins: set<Node>)
    requires rest.Cons? && !Destroyed(Cons(rest.node, rest.kids, Nil), pins).ok
    requires node.childs != [] && node.childs[0] == rest.node && rest.node.parent == node
    requires var left := Destroyed(Cons(rest.node, rest.kids, Nil), pins).left;
             left.Cons? && Rep(left.kids, rest.node.childs, rest.node)
    requires Rep(rest.sibs, node.childs[1..], node)
    ensures Rep(Destroyed(rest, pins).left, node.childs, node)
  {
    hide Destroyed;
    DestroyedRest(rest, pins);
  }

  /** What the first remaining child, the forest below it and its siblings have to do
      with each other. */
  lemma Rest(node: Node, rest: Forest, pins: set<Node>)
    requires rest.Cons? && Rep(rest, node.childs, node) && Distinct(rest) && node !in Nodes(rest) && Strung(node)
    requires Pinned(Nodes(rest), pins)
    ensures var child, below, sibs := rest.node, rest.kids, rest.sibs;
            && Nodes(rest) == {child} + Nodes(below) + Nodes(sibs)
            && Rep(below, child.childs, child) && Distinct(below) && Rep(sibs, node.childs[1..], node) && Distinct(sibs)
            && child !in Nodes(below) && child !in Nodes(sibs) && Nodes(below) !! Nodes(sibs) && child.parent == node
            && Pinned(Nodes(below) + {child}, pins) && Pinned(Nodes(sibs), pins)
            && node.childs != [] && node.childs[0] == child && Remove(node.childs, child) == node.childs[1..]
            && (forall c | c in node.childs :: c !in Nodes(below) && c in Nodes(rest))
            && (forall n, c | n in Nodes(sibs) && c in n.childs :: c in Nodes(sibs) && c !in node.childs)
  {
    var child, below, sibs := rest.node, rest.kids, rest.sibs;
    KidsInside(sibs, node.childs[1..], node);
    assert node.childs == [child] + node.childs[1..];
  }
}
