/** The file system: registered file systems, the node tree, and the list of
    descriptors that keep nodes alive. */
module Fs {
  import opened Seqs
  import opened FsNode
  import opened FsTree
  import opened FsShape

  /** Which callbacks a file system brings. */
  datatype Ops = Ops(hasOpen: bool, hasClose: bool)

  datatype FsType = FsType(id: int, ops: Ops)

  const O_NONBLOCK: bv32 := 0x10
  const FMODE_DEFAULT: bv32 := O_NONBLOCK
  const NAME_MAX: nat := 32

  class Desc {
    const id: int
    const node: Node
    var fp: nat
    var mode: bv32
    var modeMask: bv32

    constructor (id: int, node: Node, mode: bv32, modeMask: bv32)
      ensures this.id == id && this.node == node && fp == 0
      ensures this.mode == mode && this.modeMask == modeMask
    {
      this.id, this.node, this.mode, this.modeMask, fp := id, node, mode, modeMask, 0;
    }
  }

  /** How many descriptors refer to `n`. */
  ghost function Refs(fds: seq<Desc>, n: Node): nat {
    if fds == [] then 0 else (if fds[0].node == n then 1 else 0) + Refs(fds[1..], n)
  }

  lemma {:induction false} RefsAppend(fds: seq<Desc>, d: Desc, n: Node)
    ensures Refs(fds + [d], n) == Refs(fds, n) + if d.node == n then 1 else 0
  {
    if fds == [] {
      assert [d][1..] == [];
    } else {
      assert (fds + [d])[1..] == fds[1..] + [d];
      RefsAppend(fds[1..], d, n);
    }
  }

  lemma {:induction false} RefsRemove(fds: seq<Desc>, d: Desc, n: Node)
    requires d in fds
    ensures Refs(Remove(fds, d), n) == Refs(fds, n) - if d.node == n then 1 else 0
    ensures Refs(fds, d.node) > 0
  {
    if fds[0] != d {
      RefsRemove(fds[1..], d, n);
      assert ([fds[0]] + Remove(fds[1..], d))[1..] == Remove(fds[1..], d);
    }
  }

  lemma {:induction false} RefsZero(fds: seq<Desc>, n: Node)
    ensures Refs(fds, n) == 0 <==> forall d | d in fds :: d.node != n
  {
    if fds != [] {
      RefsZero(fds[1..], n);
      assert fds == [fds[0]] + fds[1..];
    }
  }

  /** Ids rise along the list and stay between 1 and `last`. */
  ghost predicate Increasing(fds: seq<Desc>, last: int) {
    && (forall i, j | 0 <= i < j < |fds| :: fds[i].id < fds[j].id)
    && (forall i | 0 <= i < |fds| :: 0 < fds[i].id <= last)
  }

  lemma IncreasingRemove(fds: seq<Desc>, d: Desc, last: int)
    requires Increasing(fds, last) && d in fds
    ensures Increasing(Remove(fds, d), last) && NoDup(fds)
    ensures forall e :: e in Remove(fds, d) <==> e in fds && e != d
  {
    var k :| 0 <= k < |fds| && fds[k] == d;
    RemoveIndex(fds, k);
    RemoveFacts(fds, d);
  }

  /** The descriptor list in order: every descriptor refers to a live node, ids
      rise, and `issued` remembers whom each id was given to. */
  ghost predicate Descs(fds: seq<Desc>, last: int, issued: map<int, Desc>, nodes: set<Node>) {
    && 0 <= last && Increasing(fds, last)
    && (forall d | d in fds :: d.node in nodes && d.id in issued && issued[d.id] == d)
    && (forall id | id in issued :: 0 < id <= last && issued[id].id == id)
  }

  lemma DescsAppend(fds: seq<Desc>, last: int, issued: map<int, Desc>, nodes: set<Node>, d: Desc)
    requires Descs(fds, last, issued, nodes) && d.id == last + 1 && d.node in nodes
    ensures Descs(fds + [d], last + 1, issued[d.id := d], nodes) && d.id !in issued
  {
  }

  lemma DescsRemove(fds: seq<Desc>, last: int, issued: map<int, Desc>, nodes: set<Node>, d: Desc)
    requires Descs(fds, last, issued, nodes) && d in fds
    ensures Descs(Remove(fds, d), last, issued, nodes) && d !in Remove(fds, d)
  {
    IncreasingRemove(fds, d, last);
  }

  lemma DescsMore(fds: seq<Desc>, last: int, issued: map<int, Desc>, nodes: set<Node>, n: Node)
    requires Descs(fds, last, issued, nodes) && n !in nodes
    ensures Descs(fds, last, issued, nodes + {n}) && Refs(fds, n) == 0
  {
    RefsZero(fds, n);
  }

  /** Nodes without descriptors may go. */
  lemma DescsFewer(fds: seq<Desc>, last: int, issued: map<int, Desc>, nodes: set<Node>, gone: set<Node>)
    requires Descs(fds, last, issued, nodes)
    requires forall n | n in gone :: Refs(fds, n) == 0
    ensures Descs(fds, last, issued, nodes - gone)
  {
    forall d | d in fds ensures d.node !in gone {
      RefsZero(fds, d.node);
    }
  }

  class FileSystem {
    var fsLst: seq<FsType>
    var fdLst: seq<Desc>
    var lastId: int                  // the counter inside fs_fd_alloc
    ghost var roots: seq<Node>       // the nodes without a parent
    ghost var forest: Forest         // all nodes that are not freed
    ghost var issued: map<int, Desc> // every descriptor ever handed out

    ghost predicate TreeOk()
      reads this, Nodes(forest)`childs, Nodes(forest)`parent
    {
      Rep(forest, roots, null) && Distinct(forest)
    }

    /** Every node's counter is the number of descriptors that refer to it. */
    ghost predicate CountsOk()
      reads this, Nodes(forest)`refCnt
    {
      forall n | n in Nodes(forest) :: n.refCnt == Refs(fdLst, n)
    }

    ghost predicate DescsOk()
      reads this
    {
      Descs(fdLst, lastId, issued, Nodes(forest))
    }

    ghost predicate TypesOk()
      reads this, Nodes(forest)`fsId
    {
      && (forall i | 0 <= i < |fsLst| :: fsLst[i].id == i)
      && (forall n | n in Nodes(forest) :: 0 <= n.fsId < |fsLst|)
    }

    /** Every list of children is well linked, and its elements are nodes. */
    ghost predicate ListsOk()
      reads `forest, Nodes(forest)`childs, Nodes(forest)`first, Nodes(forest)`prev, Nodes(forest)`next
    {
      forall n | n in Nodes(forest) :: (forall c | c in n.childs :: c in Nodes(forest)) && Strung(n)
    }

    ghost predicate Valid()
      reads this, Nodes(forest)`childs, Nodes(forest)`parent, Nodes(forest)`refCnt, Nodes(forest)`fsId
      reads Nodes(forest)`first, Nodes(forest)`prev, Nodes(forest)`next
    {
      TreeOk() && CountsOk() && DescsOk() && TypesOk() && ListsOk()
    }

    constructor ()
      ensures Valid() && forest == Nil && roots == [] && fdLst == [] && fsLst == [] && issued == map[] && lastId == 0
    {
      fsLst, fdLst, lastId := [], [], 0;
      roots, forest, issued := [], Nil, map[];
    }

    method Register(ops: Ops, isNull: bool) returns (id: int)
      requires Valid()
      modifies `fsLst
      ensures Valid()
      ensures if isNull || !ops.hasOpen || !ops.hasClose then id == -1 && fsLst == old(fsLst)
              else id == |old(fsLst)| && fsLst == old(fsLst) + [FsType(id, ops)]
    {
      id := 0;
      if fsLst != [] {
        id := fsLst[|fsLst| - 1].id + 1;
      }
      if id < 0 || isNull || !ops.hasOpen || !ops.hasClose {
        return -1;
      }
      fsLst := fsLst + [FsType(id, ops)];
    }

    method FdAlloc(node: Node, mode: bv32, modeMask: bv32) returns (fd: Desc)
      requires Valid() && node in Nodes(forest)
      modifies `fdLst, `lastId, `issued, node`refCnt
      ensures Valid()
      ensures fresh(fd) && fd.node == node && fd.id == old(lastId) + 1 && lastId == fd.id
      ensures fd.mode == (mode & !modeMask) | (FMODE_DEFAULT & modeMask) && fd.modeMask == modeMask && fd.fp == 0
      ensures fdLst == old(fdLst) + [fd] && fd.id !in old(issued) && issued == old(issued)[fd.id := fd]
      ensures node.refCnt == old(node.refCnt) + 1
    {
      hide Rep, Distinct, Descs, Refs, ListsOk;
      NodesAllocated(forest);
      lastId := lastId + 1;
      fd := new Desc(lastId, node, (mode & !modeMask) | (FMODE_DEFAULT & modeMask), modeMask);
      forall n | n in Nodes(forest) ensures Refs(fdLst + [fd], n) == Refs(fdLst, n) + if n == node then 1 else 0 {
        RefsAppend(fdLst, fd, n);
      }
      DescsAppend(fdLst, fd.id - 1, issued, Nodes(forest), fd);
      fdLst := fdLst + [fd];
      issued := issued[fd.id := fd];
      node.refCnt := node.refCnt + 1;
    }

    method FdFree(fd: Desc)
      requires Valid() && fd in fdLst
      modifies `fdLst, fd.node`refCnt
      ensures Valid()
      ensures fdLst == Remove(old(fdLst), fd) && fd !in fdLst
      ensures fd.node.refCnt == old(fd.node.refCnt) - 1
    {
      hide Rep, Distinct, Refs, ListsOk;
      NodesAllocated(forest);
      DescsRemove(fdLst, lastId, issued, Nodes(forest), fd);
      forall n | n in Nodes(forest)
        ensures Refs(Remove(fdLst, fd), n) == Refs(fdLst, n) - if n == fd.node then 1 else 0
        ensures Refs(fdLst, fd.node) > 0
      {
        RefsRemove(fdLst, fd, n);
      }
      fdLst := Remove(fdLst, fd);
      fd.node.refCnt := fd.node.refCnt - 1;
    }

    /** The descriptor that was handed out under `id`, until it is freed. */
    method FdAcquire(id: int) returns (fd: Desc?)
      requires Valid()
      ensures fd == if id in issued && issued[id] in fdLst then issued[id] else null
      ensures fd != null ==> fd.id == id && fd in fdLst
    {
      var i := 0;
      while i < |fdLst|
        invariant i <= |fdLst| && forall j | 0 <= j < i :: fdLst[j].id != id
      {
        if fdLst[i].id == id {
          return fdLst[i];
        }
        i := i + 1;
      }
      return null;
    }

    /** Whether a file system of that id is registered. */
    predicate Registered(fsId: int)
      reads this
    {
      exists t :: t in fsLst && t.id == fsId
    }

    /** `list_add_tail` for a node that is not in the tree yet. */
    method StringLeaf(parent: Node, leaf: Node)
      requires Valid() && parent in Nodes(forest) && leaf !in Nodes(forest) && leaf.childs == [] && leaf.first == null
      modifies parent`childs, parent`first, parent.childs`prev, parent.childs`next, leaf`prev, leaf`next
      ensures parent.childs == old(parent.childs) + [leaf]
      ensures forall n | n in Nodes(forest) + {leaf} ::
                (forall c | c in n.childs :: c in Nodes(forest) + {leaf}) && Strung(n)
    {
      hide CountsOk, DescsOk, TypesOk, Rep, Distinct, Nodes;
      KidsInside(forest, roots, null);
      NodesAllocated(forest);
      AddTail(parent, leaf);
      forall n | n in Nodes(forest) && n != parent ensures Strung(n) {
        assert n.childs == old(n.childs) && n.first == old(n.first);
        assert forall c | c in n.childs :: c != leaf && c !in old(parent.childs);
        assert forall c | c in n.childs :: c.prev == old(c.prev) && c.next == old(c.next);
      }
    }

    lemma LeafStrung(leaf: Node)
      requires ListsOk() && leaf.childs == [] && leaf.first == null
      ensures Strung(leaf)
      ensures forall n | n in Nodes(forest) :: (forall c | c in n.childs :: c in Nodes(forest)) && Strung(n)
    {
    }

    /** A new node counts from now on; `g` is the forest with it. */
    ghost method Join(g: Forest, leaf: Node)
      requires CountsOk() && DescsOk() && TypesOk() && leaf !in Nodes(forest) && leaf.refCnt == 0
               && 0 <= leaf.fsId < |fsLst|
      requires Rep(g, roots, null) && Distinct(g) && Nodes(g) == Nodes(forest) + {leaf}
      requires forall n | n in Nodes(g) :: (forall c | c in n.childs :: c in Nodes(g)) && Strung(n)
      modifies `forest
      ensures Valid() && forest == g
    {
      hide Rep, Distinct, Descs, Refs, Nodes, Strung;
      DescsMore(fdLst, lastId, issued, Nodes(forest), leaf);
      forest := g;
    }

    /** `leaf` joins the children of `parent`. */
    method LinkChild(parent: Node, leaf: Node)
      requires Valid() && leaf !in Nodes(forest) && leaf.childs == [] && leaf.first == null
      requires leaf.refCnt == 0 && leaf.parent == parent && 0 <= leaf.fsId < |fsLst| && parent in Nodes(forest)
      modifies `forest, parent`childs, parent`first, parent.childs`prev, parent.childs`next, leaf`prev, leaf`next
      ensures Valid() && forest == AddLeaf(old(forest), parent, leaf) && Nodes(forest) == old(Nodes(forest)) + {leaf}
      ensures parent.childs == old(parent.childs) + [leaf]
    {
      hide Rep, Distinct, Shaped, AddLeaf, Nodes, Strung, ListsOk, CountsOk, DescsOk, TypesOk;
      ghost var f := forest;
      ghost var l := LinksOf(Nodes(f));
      NodesAllocated(f);
      ShapedIsRep(f, roots, null, Nodes(f));
      StringLeaf(parent, leaf);
      LeafJoins(f, roots, parent, leaf, l);
      Join(AddLeaf(f, parent, leaf), leaf);
    }

    /** `leaf` becomes a root. */
    ghost method LinkRoot(leaf: Node)
      requires Valid() && leaf !in Nodes(forest) && leaf.childs == [] && leaf.first == null
      requires leaf.refCnt == 0 && leaf.parent == null && 0 <= leaf.fsId < |fsLst|
      modifies `forest, `roots
      ensures Valid() && forest == AddLeaf(old(forest), null, leaf) && Nodes(forest) == old(Nodes(forest)) + {leaf}
      ensures roots == old(roots) + [leaf]
    {
      hide Rep, Distinct, Shaped, AddLeaf, Nodes, Strung, ListsOk;
      ghost var f := forest;
      NodesAllocated(f);
      ShapedIsRep(f, roots, null, Nodes(f));
      LeafStrung(leaf);
      RootJoins(f, roots, leaf);
      roots := roots + [leaf];
      Join(AddLeaf(f, null, leaf), leaf);
    }

    /** `fs_node_create`.  A directory gets a "." link and, unless it is a root,
        a ".." link; once the name and the file system are accepted nothing fails. */
    method NodeCreate(parent: Node?, name: seq<char>, kind: Kind, data: object?, fsId: int) returns (r: Node?)
      requires Valid() && (parent != null ==> parent in Nodes(forest))
      modifies `forest, `roots, Own(parent)`childs, Own(parent)`first, Kids(parent)`prev, Kids(parent)`next
      ensures Valid()
      ensures r == null <==> |name| + 1 > NAME_MAX || !Registered(fsId)
      ensures r == null ==> forest == old(forest) && roots == old(roots)
      ensures r == null && parent != null ==> parent.childs == old(parent.childs)
      ensures r != null ==> fresh(r) && r.fsId == fsId && r.kind == kind && r.name == name && r.data == data
      ensures r != null ==> r.parent == parent && r.refCnt == 0
      ensures r != null && parent == null ==> roots == old(roots) + [r]
      ensures r != null && parent != null ==> roots == old(roots) && parent.childs == old(parent.childs) + [r]
      ensures r != null ==> Nodes(forest) == old(Nodes(forest)) + {r} + set c | c in r.childs
      ensures r != null ==> forall c | c in r.childs :: fresh(c)
      ensures r != null ==> |r.childs| == if kind != Dir then 0 else if parent == null then 1 else 2
      ensures r != null && kind != Dir ==> forest == AddLeaf(old(forest), parent, r)
      ensures r != null && kind == Dir ==> IsLink(r.childs[0], r, ".", r)
      ensures r != null && kind == Dir && parent == null ==>
                forest == AddLeaf(AddLeaf(old(forest), parent, r), r, r.childs[0])
      ensures r != null && kind == Dir && parent != null ==>
                && IsLink(r.childs[1], r, "..", parent)
                && forest == AddLeaf(AddLeaf(AddLeaf(old(forest), parent, r), r, r.childs[0]), r, r.childs[1])
      decreases kind == Dir, 1
    {
      hide AddLeaf, Nodes, TreeOk, CountsOk, DescsOk, TypesOk, ListsOk;
      IdsArePlaces(parent);
      if |name| + 1 > NAME_MAX {
        return null;
      }
      var i := 0;
      while i < |fsLst|
        invariant i <= |fsLst| && forall j | 0 <= j < i :: fsLst[j].id != fsId
      {
        if fsLst[i].id == fsId {
          break;
        }
        i := i + 1;
      }
      if i == |fsLst| {
        return null;
      }
      NodesAllocated(forest);
      r := new Node(fsId, kind, parent, name, data);
      if parent != null {
        LinkChild(parent, r);
      } else {
        LinkRoot(r);
      }
      if kind == Dir {
        AddDots(r, parent);
      }
    }

    /** The "." link of a new directory, and its ".." link unless it is a root. */
    method AddDots(r: Node, parent: Node?)
      requires Valid() && r in Nodes(forest) && r.childs == [] && r.parent == parent && r != parent
      requires parent != null ==> parent in Nodes(forest)
      modifies `forest, `roots, r`childs, r`first
      ensures Valid() && roots == old(roots) && |r.childs| == (if parent == null then 1 else 2)
      ensures Nodes(forest) == old(Nodes(forest)) + set c | c in r.childs
      ensures forall c | c in r.childs :: fresh(c)
      ensures IsLink(r.childs[0], r, ".", r)
      ensures parent == null ==> forest == AddLeaf(old(forest), r, r.childs[0])
      ensures parent != null ==>
                && IsLink(r.childs[1], r, "..", parent)
                && forest == AddLeaf(AddLeaf(old(forest), r, r.childs[0]), r, r.childs[1])
      decreases true, 0
    {
      hide AddLeaf, Nodes, TreeOk, CountsOk, DescsOk, TypesOk, ListsOk;
      IdsArePlaces(r);
      IdsArePlaces(parent);
      NodesAllocated(forest);
      var dot := NodeCreate(r, ".", Lnk, r, r.fsId);
      if dot == null {
        assert false;
      }
      if parent != null {
        var up := NodeCreate(r, "..", Lnk, parent, parent.fsId);
        if up == null {
          assert false;
        }
      }
    }

    /** A file system's id is its place in the list, and nodes have such an id. */
    lemma IdsArePlaces(node: Node?)
      requires Valid() && (node != null ==> node in Nodes(forest))
      ensures forall i | 0 <= i < |fsLst| :: fsLst[i].id == i
      ensures node != null ==> 0 <= node.fsId < |fsLst| && fsLst[node.fsId].id == node.fsId
    {
    }

    /** A link node as `fs_node_create` makes them for directories. */
    ghost predicate IsLink(n: Node, parent: Node, name: seq<char>, target: Node)
      reads n
    {
      n.kind == Lnk && n.parent == parent && n.name == name && n.data == target && n.childs == [] && n.refCnt == 0
    }

    /** `fs_node_destroy` on a node with a parent. */
    method NodeDestroy(node: Node) returns (r: int)
      requires Valid() && node in Nodes(forest) && node.parent != null
      modifies `forest, Nodes(forest)`childs, Nodes(forest)`parent, Nodes(forest)`first, Nodes(forest)`prev,
               Nodes(forest)`next
      ensures Valid()
      ensures r == 0 || r == -1
      ensures r == 0 <==> forall n | n in {node} + old(Below(forest, node)) :: n.refCnt == 0
      ensures forest == Cut(old(forest), node, old(PinnedNodes()))
      ensures Nodes(forest) == old(Nodes(forest)) - if r == 0 then {node} + old(Below(forest, node))
                                                    else Freed(old(forest), node, old(PinnedNodes()))
      ensures node.refCnt > 0 ==>
                r == -1 && forest == old(forest) && LinksOf(Nodes(forest)) == old(LinksOf(Nodes(forest)))
    {
      hide Rep, Distinct, Cut, Destroyed, Freed, Refs, Below, KidsOf, PinnedNodes, ListsOk, Strung, CountsOk, TypesOk,
           Descs;
      ghost var f, pins := forest, PinnedNodes();
      DestroyFacts(node);
      NodesAllocated(f);
      r := DestroyInTree(node, pins);
      KidsInside(Cut(f, node, pins), roots, null);
      Part(Cut(f, node, pins), Freed(f, node, pins));
    }

    /** The nodes of `gone` do not count any more; `g` is the forest without them. */
    ghost method Part(g: Forest, gone: set<Node>)
      requires CountsOk() && TypesOk() && Descs(fdLst, lastId, issued, Nodes(forest) - gone)
      requires Rep(g, roots, null) && Distinct(g) && Nodes(g) == Nodes(forest) - gone
      requires forall n | n in Nodes(g) :: (forall c | c in n.childs :: c in Nodes(g)) && Strung(n)
      modifies `forest
      ensures Valid() && forest == g
    {
      hide Rep, Distinct, Descs, Refs, Nodes, Strung;
      forest := g;
    }

    lemma DestroyFacts(node: Node)
      requires Valid() && node in Nodes(forest)
      ensures var t, all := Cons(node, KidsOf(forest, node), Nil), {node} + Below(forest, node);
              && all <= Nodes(forest)
              && (Destroyed(t, PinnedNodes()).ok <==> forall n | n in all :: n.refCnt == 0)
              && (Destroyed(t, PinnedNodes()).ok ==> Freed(forest, node, PinnedNodes()) == all)
      ensures Descs(fdLst, lastId, issued, Nodes(forest) - Freed(forest, node, PinnedNodes()))
      ensures node.refCnt > 0 ==> Cut(forest, node, PinnedNodes()) == forest
    {
      ghost var f, pins := forest, PinnedNodes();
      ghost var t := Cons(node, KidsOf(f, node), Nil);
      KidsNodes(f, node);
      SucceedsIffUnpinned(t, pins);
      FreedUnpinned(f, node, pins);
      DescsFewer(fdLst, lastId, issued, Nodes(f), Freed(f, node, pins));
      if node in pins { CutPinned(f, node, pins); }
    }

    ghost function PinnedNodes(): set<Node>
      reads this, Nodes(forest)`refCnt
    {
      set n | n in Nodes(forest) && n.refCnt > 0
    }

    method DestroyInTree(node: Node, ghost pins: set<Node>) returns (r: int)
      requires Valid() && node in Nodes(forest) && node.parent != null && pins == PinnedNodes()
      modifies Nodes(forest)`childs, Nodes(forest)`parent, Nodes(forest)`first, Nodes(forest)`prev, Nodes(forest)`next
      ensures r == if Destroyed(Cons(node, KidsOf(forest, node), Nil), pins).ok then 0 else -1
      ensures node.refCnt > 0 ==> LinksOf(Nodes(forest)) == old(LinksOf(Nodes(forest)))
      ensures Rep(Cut(forest, node, pins), roots, null) && Distinct(Cut(forest, node, pins))
      ensures Nodes(Cut(forest, node, pins)) == Nodes(forest) - Freed(forest, node, pins)
      ensures forall n | n in Nodes(forest) - Freed(forest, node, pins) :: Strung(n)
    {
      hide Shaped, Cut, Destroyed, Freed, KidsOf, Nodes, Shrunk, Handled, CountsOk, DescsOk, TypesOk, ListsOk, Strung;
      ghost var f, l := forest, LinksOf(Nodes(forest));
      DestroyReady(node);
      ShapedIsRep(f, roots, null, Nodes(f));
      NodesAllocated(f);
      r := DestroyLinks(node, pins);
      TreeAfter(f, roots, node, pins, l);
      FreedIs(f, node, pins);
    }

    /** What happens to the links of all nodes. */
    method DestroyLinks(node: Node, ghost pins: set<Node>) returns (r: int)
      requires Valid() && node in Nodes(forest) && node.parent != null && pins == PinnedNodes()
      modifies Nodes(forest)`childs, Nodes(forest)`parent, Nodes(forest)`first, Nodes(forest)`prev, Nodes(forest)`next
      ensures var k := KidsOf(forest, node);
              var d, l := Destroyed(Cons(node, k, Nil), pins), old(LinksOf(Nodes(forest)));
              && r == (if d.ok then 0 else -1)
              && (node.refCnt > 0 ==> LinksOf(Nodes(forest)) == l)
              && Shrunk(Nodes(forest) - Nodes(Cons(node, k, Nil)), node, d.ok, l, LinksOf(Nodes(forest)))
              && Handled(node, d, l, LinksOf(Nodes(forest)))
              && Nodes(d.left) <= Nodes(Cons(node, k, Nil)) <= Nodes(forest)
              && forall n | n in Nodes(forest) - Nodes(Cons(node, k, Nil)) + Nodes(d.left) :: Strung(n)
    {
      hide Rep, Distinct, Shaped, Destroyed, KidsOf, Valid, TreeOk, CountsOk, DescsOk, TypesOk, PinnedNodes, Cut,
           Freed, Strung;
      ghost var f, l := forest, LinksOf(Nodes(forest));
      ghost var k := KidsOf(f, node);
      ghost var up, t := node.parent, Cons(node, k, Nil);
      ghost var d := Destroyed(t, pins);
      DestroyReady(node);
      NodesAllocated(f);
      LeftIsPart(t, pins);
      r := DestroyLists(node, pins);
      forall n | n in Nodes(f) - Nodes(t)
        ensures n.parent == l.parent[n] && n.childs == Drop(l.childs[n], node, d.ok)
      {
        if n != up { RemoveAbsent(l.childs[n], node); }
      }
      assert Shrunk(Nodes(f) - Nodes(t), node, d.ok, l, LinksOf(Nodes(f)));
      if !d.ok {
        assert Nodes(d.left) == {node} + Nodes(d.left.kids) + Nodes(d.left.sibs);
        ShapedIsRep(d.left.kids, node.childs, node, Nodes(f));
      }
    }

    /** Which links stay, and that all lists remain well linked. */
    method DestroyLists(node: Node, ghost pins: set<Node>) returns (r: int)
      requires Valid() && node in Nodes(forest) && node.parent != null && pins == PinnedNodes()
      modifies Nodes(forest)`childs, Nodes(forest)`parent, Nodes(forest)`first, Nodes(forest)`prev, Nodes(forest)`next
      ensures var k := KidsOf(forest, node);
              var t, l, up := Cons(node, k, Nil), old(LinksOf(Nodes(forest))), old(node.parent);
              var d := Destroyed(t, pins);
              && r == (if d.ok then 0 else -1) && up in Nodes(forest)
              && (node.refCnt > 0 ==> LinksOf(Nodes(forest)) == l)
              && (forall n | n in Nodes(forest) - Nodes(t) ::
                  n.parent == l.parent[n] && (n != up ==> n.childs == l.childs[n]))
              && up.childs == Drop(l.childs[up], node, d.ok)
              && (!d.ok ==> node.parent == up && d.left.Cons? && d.left.node == node && d.left.sibs == Nil
                            && Rep(d.left.kids, node.childs, node))
              && forall n | n in Nodes(forest) - Nodes(t) + Nodes(d.left) :: Strung(n)
    {
      hide Rep, Distinct, Destroyed, KidsOf, Valid, TreeOk, CountsOk, DescsOk, TypesOk, PinnedNodes, Strung;
      ghost var f, l := forest, LinksOf(Nodes(forest));
      ghost var k := KidsOf(f, node);
      ghost var up, t := node.parent, Cons(node, k, Nil);
      DestroyReady(node);
      NodesAllocated(f);
      ListsApart(node);
      SucceedsIffUnpinned(t, pins);
      r := FsTree.Destroy(node, k, pins);
      assert node.refCnt > 0 ==> LinksOf(Nodes(f)) == l;
      forall n | n in Nodes(f) - Nodes(t) && n != up ensures Strung(n) {
        assert n.childs == l.childs[n];
        assert n.first == old(n.first);
        assert forall c | c in n.childs :: c in Nodes(f) && c !in Nodes(t) && c !in l.childs[up];
        assert forall c | c in n.childs :: c.prev == old(c.prev) && c.next == old(c.next);
      }
    }

    /** What the tree around `node` offers to its destruction. */
    lemma DestroyReady(node: Node)
      requires Valid() && node in Nodes(forest) && node.parent != null
      ensures var k := KidsOf(forest, node);
              && Rep(k, node.childs, node) && Distinct(k) && node !in Nodes(k) && Nodes(k) <= Nodes(forest)
              && Distinct(Cons(node, k, Nil)) && Pinned(Nodes(k) + {node}, PinnedNodes())
      ensures node.parent !in Nodes(KidsOf(forest, node)) && node.parent != node && node.parent in Nodes(forest)
      ensures NoDup(node.parent.childs) && node in node.parent.childs && node !in roots
      ensures forall n | n in Nodes(forest) && n != node.parent :: node !in n.childs
      ensures forall n | n in Nodes(forest) :: Strung(n)
    {
      hide CountsOk, DescsOk, TypesOk;
      RepNode(forest, roots, null, node);
      KidsNodes(forest, node);
      forall n | n in Nodes(forest) && node in n.childs ensures n == node.parent {
        ChildParents(forest, roots, null, n, node);
      }
    }

    /** Other lists share nothing with the parent's list or with the tree below. */
    lemma ListsApart(node: Node)
      requires Valid() && node in Nodes(forest) && node.parent != null
      ensures forall n, c | n in Nodes(forest) && c in n.childs :: c in Nodes(forest)
      ensures forall c | c in node.parent.childs :: c !in Nodes(KidsOf(forest, node))
      ensures forall n, c | n in Nodes(forest) && n !in Nodes(Cons(node, KidsOf(forest, node), Nil))
                             && n != node.parent && c in n.childs ::
                c !in Nodes(Cons(node, KidsOf(forest, node), Nil)) && c !in node.parent.childs
    {
      hide CountsOk, DescsOk, TypesOk, ListsOk;
      RepNode(forest, roots, null, node);
      KidsNodes(forest, node);
      KidsInside(forest, roots, null);
      ParentsInside(KidsOf(forest, node), node.childs, node);
    }
  }
}
