/** The nodes of the file system on the heap.  `first` is the head of the list of
    children and `prev` and `next` link a node into its parent's list, which has the
    form of `List2`; the ghost field `childs` is the sequence the list stands for. */
module FsNode {
  import opened Seqs

  datatype Kind = Blk | Chr | Dir | Reg | Lnk

  class Node {
    var fsId: int
    var refCnt: nat
    var kind: Kind
    var parent: Node?
    var first: Node?
    var prev: Node?
    var next: Node?
    ghost var childs: seq<Node>
    var name: seq<char>
    var data: object?

    constructor (fsId: int, kind: Kind, parent: Node?, name: seq<char>, data: object?)
      ensures this.fsId == fsId && this.kind == kind && this.parent == parent && this.name == name
      ensures this.data == data && refCnt == 0 && childs == [] && first == null
    {
      this.fsId, this.kind, this.parent, this.name, this.data := fsId, kind, parent, name, data;
      refCnt, first, prev, next := 0, null, null, null;
      childs := [];
    }
  }

  /** The list of children stands for `p.childs`. */
  ghost predicate Strung(p: Node)
    reads p`first, p`childs, p.childs`prev, p.childs`next
  {
    && (p.childs == [] <==> p.first == null)
    && (p.childs != [] ==> p.childs[0] == p.first && p.first.prev == p.childs[|p.childs| - 1]
                           && p.childs[|p.childs| - 1].next == null)
    && (forall i {:trigger p.childs[i].next} | 0 <= i < |p.childs| - 1 :: p.childs[i].next == p.childs[i + 1])
    && (forall i {:trigger p.childs[i].prev} | 0 < i < |p.childs| :: p.childs[i].prev == p.childs[i - 1])
    && NoDup(p.childs)
  }

  /** `p` and its children, if there is a `p`. */
  ghost function Own(p: Node?): set<Node> {
    if p == null then {} else {p}
  }

  ghost function Kids(p: Node?): set<Node>
    reads Own(p)`childs
  {
    if p == null then {} else set c | c in p.childs
  }

  lemma StrungDiffer(p: Node)
    requires Strung(p)
    ensures NoDup(p.childs)
  {
  }

  /** `list_add_tail(p->childs, el)`. */
  method AddTail(p: Node, el: Node)
    requires Strung(p) && el !in p.childs
    modifies p`first, p`childs, el`prev, el`next, p.childs`prev, p.childs`next
    ensures Strung(p) && p.childs == old(p.childs) + [el]
  {
    el.next := null;
    if p.first == null {
      p.first := el;
      el.prev := el;
    } else {
      el.prev := p.first.prev;
      p.first.prev.next := el;
      p.first.prev := el;
    }
    p.childs := p.childs + [el];
  }

  /** The links around a removed position `k` of `s` make up the shorter list. */
  lemma Closed(p: Node, s: seq<Node>, k: nat)
    requires NoDup(s) && k < |s| && p.childs == Remove(s, s[k])
    requires p.first == if |s| == 1 then null else if k == 0 then s[1] else s[0]
    requires |s| > 1 ==> p.first.prev == s[if k + 1 == |s| then k - 1 else |s| - 1]
    requires |s| > 1 ==> s[if k + 1 == |s| then k - 1 else |s| - 1].next == null
    requires forall i {:trigger s[i].next} | 0 <= i < |s| - 1 && i != k && i != k - 1 :: s[i].next == s[i + 1]
    requires forall i {:trigger s[i].prev} | 0 < i < |s| && i != k && i != k + 1 :: s[i].prev == s[i - 1]
    requires 0 < k < |s| - 1 ==> s[k - 1].next == s[k + 1] && s[k + 1].prev == s[k - 1]
    ensures Strung(p)
  {
    hide Remove, NoDup;
    RemoveIndex(s, k);
    var r := p.childs;
    forall i | 0 <= i < |r| - 1 ensures r[i].next == r[i + 1] {
      assert r[i] == s[if i < k then i else i + 1];
    }
    forall i | 0 < i < |r| ensures r[i].prev == r[i - 1] {
      assert r[i] == s[if i < k then i else i + 1];
    }
  }

  /** `list_rm(p->childs, el)`. */
  method Unlink(p: Node, el: Node, ghost k: nat)
    requires Strung(p) && k < |p.childs| && p.childs[k] == el
    modifies p`first, p`childs, p.childs`prev, p.childs`next
    ensures Strung(p) && p.childs == Remove(old(p.childs), el)
  {
    hide Remove;
    if el != p.first {
      el.prev.next := el.next;
    }
    if el.next != null {
      el.next.prev := el.prev;
    } else {
      p.first.prev := el.prev;
    }
    if el == p.first {
      p.first := el.next;
    }
    ghost var s := p.childs;
    p.childs := Remove(s, el);
    Closed(p, s, k);
  }
}
