/** Any series of calls on the file system, by callers that name nodes by descriptors. */
module FsSession {
  import opened Seqs
  import opened FsNode
  import opened FsTree
  import opened FsShape
  import opened Fs

  /** What a caller asks for; nodes are named by the id of a descriptor. */
  datatype Op =
    | Create(id: int, name: seq<char>, kind: Kind, data: object?, fsId: int, mode: bv32)
    | Again(id: int, mode: bv32, modeMask: bv32)
    | Free(id: int)
    | Release(id: int)
    | Destroy(id: int)

  /** The ids in use, in order, and the last one given. */
  datatype Table = Table(ids: seq<int>, last: int)

  /** What a call makes of the table when `types` file systems are registered, and
      what it returns. */
  function Turn(t: Table, op: Op, types: nat): (Table, int) {
    if op.id !in t.ids then (t, -1) else
    match op
    case Create(_, name, _, _, fsId, _) => if |name| + 1 > NAME_MAX || !(0 <= fsId < types) then (t, -1) else NextId(t)
    case Again(_, _, _) => NextId(t)
    case Free(id) => (t.(ids := Remove(t.ids, id)), 0)
    case Release(id) => (t.(ids := Remove(t.ids, id)), 0)
    case Destroy(_) => (t, -1)
  }

  function NextId(t: Table): (Table, int) {
    (Table(t.ids + [t.last + 1], t.last + 1), t.last + 1)
  }

  function Turns(t: Table, ops: seq<Op>, types: nat): (Table, seq<int>)
    decreases |ops|
  {
    if ops == [] then (t, [])
    else
      var (t1, r) := Turn(t, ops[0], types);
      var (t2, rs) := Turns(t1, ops[1..], types);
      (t2, [r] + rs)
  }

  // ----- what the table keeps over any series

  ghost predicate Rising(t: Table) {
    && (forall i, j | 0 <= i < j < |t.ids| :: t.ids[i] < t.ids[j])
    && (forall i | 0 <= i < |t.ids| :: 0 < t.ids[i] <= t.last)
  }

  /** The call gives the descriptor back. */
  predicate GivesBack(op: Op, id: int) {
    op == Free(id) || op == Release(id)
  }

  lemma TurnKeeps(t: Table, op: Op, types: nat, id: int)
    requires Rising(t) && 0 <= t.last
    ensures var t1 := Turn(t, op, types).0;
            && Rising(t1) && t.last <= t1.last
            && (id <= t.last ==> (id in t1.ids <==> id in t.ids && !GivesBack(op, id)))
  {
    hide Remove;
    if op.id in t.ids && (op.Free? || op.Release?) {
      GoneRising(t, op.id, id);
    }
  }

  lemma GoneRising(t: Table, gone: int, id: int)
    requires Rising(t) && gone in t.ids
    ensures Rising(t.(ids := Remove(t.ids, gone)))
    ensures id in Remove(t.ids, gone) <==> id in t.ids && id != gone
  {
    hide Remove;
    var k :| 0 <= k < |t.ids| && t.ids[k] == gone;
    RemoveIndex(t.ids, k);
    RemoveFacts(t.ids, gone);
    RemoveMembers(t.ids, gone, id);
  }

  /** A new id is given exactly for a descriptor in use, and, with a node, for a name of
      less than 32 characters and a registered type; it is larger than all before. */
  lemma NewIds(t: Table, op: Op, types: nat)
    requires Rising(t) && 0 <= t.last
    ensures var (t1, r) := Turn(t, op, types);
            && (r in t1.ids && r !in t.ids <==>
                  op.id in t.ids && (op.Again? || (op.Create? && |op.name| < 32 && 0 <= op.fsId < types)))
            && (r in t1.ids && r !in t.ids ==> r == t.last + 1 && t1 == Table(t.ids + [r], r))
            && (r !in t1.ids || r in t.ids ==>
                  (r == 0 || r == -1) && (r == 0 <==> op.id in t.ids && (op.Free? || op.Release?)))
  {
    hide Remove;
    RemoveMembers(t.ids, op.id, 0);
  }

  /** An id that was given out is in use after any series exactly if it was before and
      no call gave it back; so an id given back never comes again. */
  lemma {:induction false} InUseIffKept(t: Table, ops: seq<Op>, types: nat, id: int)
    requires Rising(t) && 0 <= t.last
    ensures var t1 := Turns(t, ops, types).0;
            && Rising(t1) && t.last <= t1.last
            && (id <= t.last ==> (id in t1.ids <==> id in t.ids && forall i | 0 <= i < |ops| :: !GivesBack(ops[i], id)))
    decreases |ops|
  {
    hide Turn, GivesBack, Rising;
    if ops != [] {
      TurnKeeps(t, ops[0], types, id);
      InUseIffKept(Turn(t, ops[0], types).0, ops[1..], types, id);
      assert forall i | 0 < i < |ops| :: ops[i] == ops[1..][i - 1];
    }
  }

  // ----- the calls themselves

  function Ids(fds: seq<Desc>): seq<int> {
    if fds == [] then [] else [fds[0].id] + Ids(fds[1..])
  }

  lemma {:induction false} IdsAre(fds: seq<Desc>)
    ensures |Ids(fds)| == |fds| && forall i | 0 <= i < |fds| :: Ids(fds)[i] == fds[i].id
  {
    if fds != [] { IdsAre(fds[1..]); }
  }

  lemma IdsAppend(fds: seq<Desc>, d: Desc)
    ensures Ids(fds + [d]) == Ids(fds) + [d.id]
  {
    IdsAre(fds);
    IdsAre(fds + [d]);
  }

  lemma {:induction false} IdsRemove(fds: seq<Desc>, d: Desc)
    requires d in fds && forall i, j | 0 <= i < j < |fds| :: fds[i].id < fds[j].id
    ensures Ids(Remove(fds, d)) == Remove(Ids(fds), d.id)
  {
    if fds[0] != d {
      IdsRemove(fds[1..], d);
      assert ([fds[0]] + Remove(fds[1..], d))[1..] == Remove(fds[1..], d);
    }
  }

  ghost function TableOf(fs: FileSystem): Table
    reads fs
  {
    Table(Ids(fs.fdLst), fs.lastId)
  }

  /** The descriptors that were given out keep their ids. */
  ghost predicate Keeps(before: map<int, Desc>, after: map<int, Desc>) {
    forall id | id in before :: id in after && after[id] == before[id]
  }

  lemma AcquireInTable(fs: FileSystem, id: int)
    requires fs.DescsOk()
    ensures id in TableOf(fs).ids <==> id in fs.issued && fs.issued[id] in fs.fdLst
  {
    IdsAre(fs.fdLst);
    if id in TableOf(fs).ids {
      var i :| 0 <= i < |fs.fdLst| && fs.fdLst[i].id == id;
      assert fs.fdLst[i] in fs.fdLst;
    }
    if id in fs.issued && fs.issued[id] in fs.fdLst {
      var i :| 0 <= i < |fs.fdLst| && fs.fdLst[i] == fs.issued[id];
      assert Ids(fs.fdLst)[i] == id;
    }
  }

  lemma Registered(fs: FileSystem, fsId: int)
    requires fs.TypesOk()
    ensures fs.Registered(fsId) <==> 0 <= fsId < |fs.fsLst|
  {
    if 0 <= fsId < |fs.fsLst| { assert fs.fsLst[fsId] in fs.fsLst; }
  }

  lemma KidsInTree(fs: FileSystem, n: Node)
    requires fs.Valid() && n in Nodes(fs.forest)
    ensures forall c | c in n.childs :: c in Nodes(fs.forest)
  {
  }

  /** A node of its own with a first descriptor, under the node of `fd`. */
  method Make(fs: FileSystem, fd: Desc, name: seq<char>, kind: Kind, data: object?, fsId: int, mode: bv32)
      returns (r: int)
    requires fs.Valid() && fd in fs.fdLst && fd.node in Nodes(fs.forest)
    modifies fs, Nodes(fs.forest)
    ensures fs.Valid() && fs.fsLst == old(fs.fsLst) && Keeps(old(fs.issued), fs.issued)
    ensures if |name| + 1 > NAME_MAX || !(0 <= fsId < |fs.fsLst|) then r == -1 && TableOf(fs) == old(TableOf(fs))
            else (TableOf(fs), r) == NextId(old(TableOf(fs)))
    ensures forall n | n in Nodes(fs.forest) :: n in old(Nodes(fs.forest)) || fresh(n)
  {
    hide Nodes, AddLeaf, Ids, fs.TreeOk, fs.CountsOk, fs.DescsOk, fs.TypesOk, fs.ListsOk;
    NodesAllocated(fs.forest);
    KidsInTree(fs, fd.node);
    Registered(fs, fsId);
    var n := fs.NodeCreate(fd.node, name, kind, data, fsId);
    if n == null {
      return -1;
    }
    r := Another(fs, n, mode, 0);
  }

  /** One more descriptor for a node. */
  method Another(fs: FileSystem, n: Node, mode: bv32, modeMask: bv32) returns (r: int)
    requires fs.Valid() && n in Nodes(fs.forest)
    modifies fs`fdLst, fs`lastId, fs`issued, n`refCnt
    ensures fs.Valid() && Keeps(old(fs.issued), fs.issued)
    ensures (TableOf(fs), r) == NextId(old(TableOf(fs)))
  {
    hide Rep, Distinct, Nodes, Descs, Refs, Ids;
    var d := fs.FdAlloc(n, mode, modeMask);
    IdsAppend(old(fs.fdLst), d);
    return d.id;
  }

  method FreeIt(fs: FileSystem, fd: Desc)
    requires fs.Valid() && fd in fs.fdLst
    modifies fs`fdLst, fd.node`refCnt
    ensures fs.Valid() && fd !in fs.fdLst
    ensures TableOf(fs) == old(TableOf(fs)).(ids := Remove(old(TableOf(fs)).ids, fd.id))
  {
    hide Rep, Distinct, Nodes, Refs, Ids, Remove;
    IdsRemove(fs.fdLst, fd);
    fs.FdFree(fd);
  }

  /** `fs_fd_free`, then `fs_node_destroy`: the descriptor goes in any case, the node with
      its last descriptor.  A root stays, for it is in no list of children. */
  method GiveBack(fs: FileSystem, fd: Desc)
    requires fs.Valid() && fd in fs.fdLst && fd.node in Nodes(fs.forest)
    modifies fs, Nodes(fs.forest)
    ensures fs.Valid() && fs.fsLst == old(fs.fsLst) && fs.issued == old(fs.issued)
    ensures TableOf(fs) == old(TableOf(fs)).(ids := Remove(old(TableOf(fs)).ids, fd.id))
    ensures Nodes(fs.forest) <= old(Nodes(fs.forest))
  {
    hide Rep, Distinct, Nodes, Descs, Refs, Ids, Remove, Strung, Cut, Freed, Below;
    FreeIt(fs, fd);
    if fd.node.refCnt == 0 && fd.node.parent != null {
      var r := fs.NodeDestroy(fd.node);
      assert TableOf(fs) == Table(Ids(fs.fdLst), fs.lastId);
    }
  }

  /** `fs_node_destroy` on a node that has a descriptor. */
  method TryDestroy(fs: FileSystem, fd: Desc) returns (r: int)
    requires fs.Valid() && fd in fs.fdLst && fd.node in Nodes(fs.forest) && fd.node.refCnt > 0
    modifies fs, Nodes(fs.forest)
    ensures fs.Valid() && fs.fsLst == old(fs.fsLst) && fs.issued == old(fs.issued) && r == -1
    ensures TableOf(fs) == old(TableOf(fs)) && fs.forest == old(fs.forest)
  {
    hide Rep, Distinct, Nodes, Descs, Refs, Ids, Strung, Cut, Freed, Below;
    if fd.node.parent == null {
      return -1;
    }
    r := fs.NodeDestroy(fd.node);
  }

  /** A descriptor's node is in the tree and counts it. */
  lemma HeldNodes(fs: FileSystem)
    requires fs.Valid()
    ensures forall d | d in fs.fdLst :: d.node in Nodes(fs.forest) && d.node.refCnt > 0
  {
    hide Rep, Distinct, Nodes, Refs, fs.ListsOk;
    forall d | d in fs.fdLst ensures d.node in Nodes(fs.forest) && d.node.refCnt > 0 {
      RefsZero(fs.fdLst, d.node);
    }
  }

  /** One call, whatever it is, ends as the table says. */
  method Perform(fs: FileSystem, op: Op) returns (r: int)
    requires fs.Valid()
    modifies fs, Nodes(fs.forest)
    ensures fs.Valid() && fs.fsLst == old(fs.fsLst)
    ensures (TableOf(fs), r) == Turn(old(TableOf(fs)), op, |fs.fsLst|)
    ensures Keeps(old(fs.issued), fs.issued)
    ensures forall n | n in Nodes(fs.forest) :: n in old(Nodes(fs.forest)) || fresh(n)
  {
    hide Rep, Distinct, Nodes, Descs, Refs, fs.ListsOk, Ids, Remove;
    NodesAllocated(fs.forest);
    AcquireInTable(fs, op.id);
    HeldNodes(fs);
    var fd := fs.FdAcquire(op.id);
    if fd == null {
      return -1;
    }
    match op
    case Create(_, name, kind, data, fsId, mode) => r := Make(fs, fd, name, kind, data, fsId, mode);
    case Again(_, mode, modeMask) => r := Another(fs, fd.node, mode, modeMask);
    case Free(_) =>
      FreeIt(fs, fd);
      r := 0;
    case Release(_) =>
      GiveBack(fs, fd);
      r := 0;
    case Destroy(_) => r := TryDestroy(fs, fd);
  }

  /** Descriptors that no call gives back are in the list at the end. */
  lemma HeldOn(fds: seq<Desc>, last: int, issued: map<int, Desc>, ops: seq<Op>, types: nat,
               fds1: seq<Desc>, last1: int, issued1: map<int, Desc>, nodes: set<Node>, nodes1: set<Node>)
    requires Descs(fds, last, issued, nodes) && Descs(fds1, last1, issued1, nodes1) && Keeps(issued, issued1)
    requires Ids(fds1) == Turns(Table(Ids(fds), last), ops, types).0.ids
    ensures forall d | d in fds && (forall i | 0 <= i < |ops| :: !GivesBack(ops[i], d.id)) :: d in fds1
  {
    hide Turns;
    IdsAre(fds);
    IdsAre(fds1);
    forall d | d in fds && (forall i | 0 <= i < |ops| :: !GivesBack(ops[i], d.id)) ensures d in fds1 {
      var i :| 0 <= i < |fds| && fds[i] == d;
      assert Ids(fds)[i] == d.id;
      InUseIffKept(Table(Ids(fds), last), ops, types, d.id);
      var j :| 0 <= j < |fds1| && Ids(fds1)[j] == d.id;
      assert fds1[j] in fds1;
    }
  }

  /** Any series of calls: the ids in use and the results are those of the table, ids
      once given keep their descriptors, and every counter is right at the end. */
  method Session(fs: FileSystem, ops: seq<Op>) returns (rs: seq<int>)
    requires fs.Valid()
    modifies fs, Nodes(fs.forest)
    ensures fs.Valid() && fs.fsLst == old(fs.fsLst) && Keeps(old(fs.issued), fs.issued)
    ensures (TableOf(fs), rs) == Turns(old(TableOf(fs)), ops, |fs.fsLst|)
    ensures forall n | n in Nodes(fs.forest) ::
              n.refCnt == Refs(fs.fdLst, n) && (n in old(Nodes(fs.forest)) || fresh(n))
    ensures forall d | d in old(fs.fdLst) && (forall i | 0 <= i < |ops| :: !GivesBack(ops[i], d.id)) ::
              d in fs.fdLst && d.node in Nodes(fs.forest)
    decreases |ops|
  {
    hide Rep, Distinct, Nodes, Descs, Refs, Ids, fs.ListsOk, Turn, GivesBack;
    if ops == [] {
      rs := [];
    } else {
      var r := Perform(fs, ops[0]);
      var more := Session(fs, ops[1..]);
      rs := [r] + more;
    }
    HeldOn(old(fs.fdLst), old(fs.lastId), old(fs.issued), ops, |fs.fsLst|,
           fs.fdLst, fs.lastId, fs.issued, old(Nodes(fs.forest)), Nodes(fs.forest));
    HeldNodes(fs);
  }

  /** From the start: a file system with one root directory, held by descriptor 1. */
  method FromStart(ops: Ops, calls: seq<Op>) returns (fs: FileSystem, rs: seq<int>)
    requires ops.hasOpen && ops.hasClose
    ensures fresh(fs) && fs.Valid() && (TableOf(fs), rs) == Turns(Table([1], 1), calls, 1)
    ensures forall n | n in Nodes(fs.forest) :: n.refCnt == Refs(fs.fdLst, n)
  {
    hide AddLeaf, GivesBack, Turns, Refs, FileSystem.TreeOk, FileSystem.CountsOk, FileSystem.DescsOk,
         FileSystem.TypesOk, FileSystem.ListsOk;
    fs := new FileSystem();
    var id := fs.Register(ops, false);
    Registered(fs, 0);
    var root := fs.NodeCreate(null, "/", Dir, null, 0);
    var one := Another(fs, root, 0, 0);
    assert TableOf(fs).ids == [1];
    rs := Session(fs, calls);
  }
}
