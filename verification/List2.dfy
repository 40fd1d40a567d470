/** The doubly linked list whose head element carries data.  `head.prev` is the
    tail and the `next` of the tail is null; the list is nothing but these
    pointers.  Each operation moves the pointers in the order of the macros and
    is proved to act on the ghost sequence `els`. */
module List2 {
  import opened Seqs

  /** A list element: the links, and the rest of the embedding struct. */
  class Elem<T> {
    var prev: Elem?<T>
    var next: Elem?<T>
    var value: T

    constructor (v: T)
      ensures value == v
    {
      value := v;
      prev, next := null, null;
    }
  }

  /** The elements an operation at position `k` may touch besides its own: the
      neighbours of that position and the head. */
  ghost function Near<T>(s: seq<Elem<T>>, k: nat): set<Elem<T>>
    requires k < |s|
  {
    {s[0]} + (if k > 0 then {s[k - 1]} else {}) + (if k + 1 < |s| then {s[k + 1]} else {})
  }

  ghost predicate Linked<T>(head: Elem?<T>, s: seq<Elem<T>>)
    reads s`prev, s`next
  {
    && (s == [] <==> head == null)
    && (s != [] ==> s[0] == head && s[0].prev == s[|s| - 1] && s[|s| - 1].next == null)
    && (forall i {:trigger s[i].next} | 0 <= i < |s| - 1 :: s[i].next == s[i + 1])
    && (forall i {:trigger s[i].prev} | 0 < i < |s| :: s[i].prev == s[i - 1])
    && NoDup(s)
  }

  /** What is left of `s` when the positions marked in `drop` go. */
  ghost function Kept<T>(s: seq<T>, drop: seq<bool>): seq<T>
    requires |s| == |drop|
  {
    if s == [] then [] else (if drop[0] then [] else [s[0]]) + Kept(s[1..], drop[1..])
  }

  lemma {:induction false} KeptSnoc<T>(s: seq<T>, drop: seq<bool>, x: T, d: bool)
    requires |s| == |drop|
    ensures Kept(s + [x], drop + [d]) == Kept(s, drop) + if d then [] else [x]
  {
    if s != [] {
      assert (s + [x])[1..] == s[1..] + [x] && (drop + [d])[1..] == drop[1..] + [d];
      KeptSnoc(s[1..], drop[1..], x, d);
    }
  }

  /** A sweep of `s` has come past `visited`, kept `kept` of it and has `rest` to go. */
  ghost predicate Swept<T>(s: seq<T>, drop: seq<bool>, visited: seq<T>, kept: seq<T>, rest: seq<T>) {
    && |s| == |drop| && visited + rest == s && kept == Kept(visited, drop[..|visited|])
    && Within(kept, set e | e in s) && Within(rest, set e | e in s)
  }

  lemma SweptStart<T>(s: seq<T>, drop: seq<bool>)
    requires |s| == |drop|
    ensures Swept(s, drop, [], [], s)
  {
  }

  lemma SweptNext<T>(s: seq<T>, drop: seq<bool>, visited: seq<T>, kept: seq<T>, rest: seq<T>)
    requires Swept(s, drop, visited, kept, rest) && rest != []
    ensures |visited| < |drop| && kept + rest == kept + [rest[0]] + rest[1..]
    ensures Within(kept, set e | e in s) && Within(rest[1..], set e | e in s) && rest[0] in s
    ensures var d := drop[|visited|];
            Swept(s, drop, visited + [rest[0]], if d then kept else kept + [rest[0]], rest[1..])
  {
    KeptSnoc(visited, drop[..|visited|], rest[0], drop[|visited|]);
    assert drop[..|visited|] + [drop[|visited|]] == drop[..|visited| + 1];
    assert visited + [rest[0]] + rest[1..] == visited + rest;
  }

  lemma SweptEnd<T>(s: seq<T>, drop: seq<bool>, visited: seq<T>, kept: seq<T>, rest: seq<T>)
    requires Swept(s, drop, visited, kept, rest) && rest == []
    ensures visited == s && kept + rest == Kept(s, drop)
  {
    assert visited + rest == visited && kept + rest == kept && drop[..|visited|] == drop;
  }

  class List<T> {
    var head: Elem?<T>
    ghost var els: seq<Elem<T>>

    ghost predicate Valid()
      reads this, els`prev, els`next
    {
      Linked(head, els)
    }

    constructor ()
      ensures Valid() && els == []
    {
      head := null;
      els := [];
    }

    method Init(el: Elem<T>)
      modifies this, el`prev, el`next
      ensures Valid() && els == [el]
    {
      head := el;
      el.prev := el;
      el.next := null;
      els := [el];
    }

    method AddHead(el: Elem<T>)
      requires Valid() && el !in els
      modifies this, el`prev, el`next, (if head == null then {} else {head})`prev
      ensures Valid() && els == [el] + old(els)
    {
      el.next := head;
      el.prev := if head == null then el else head.prev;
      if head != null {
        head.prev := el;
      }
      head := el;
      els := [el] + els;
    }

    method AddTail(el: Elem<T>)
      requires Valid() && el !in els
      modifies this, el`prev, el`next, (if head == null then {} else {head})`prev,
               (if head == null then {} else {els[|els| - 1]})`next
      ensures Valid() && els == old(els) + [el]
    {
      el.next := null;
      if head == null {
        head := el;
        el.prev := el;
      } else {
        el.prev := head.prev;
        head.prev.next := el;
        head.prev := el;
      }
      els := els + [el];
    }

    /** `front` and `back` are neighbours; `k` is the position of `back`. */
    method AddIn(el: Elem<T>, front: Elem<T>, back: Elem<T>, ghost k: nat)
      requires Valid() && el !in els
      requires 0 < k < |els| && els[k - 1] == front && els[k] == back
      modifies this`els, el`prev, el`next, front`next, back`prev
      ensures Valid() && els == Insert(old(els), k, el)
    {
      el.prev := front;
      el.next := back;
      front.next := el;
      back.prev := el;
      els := Insert(els, k, el);
    }

    /** On the empty list there is nothing to replace and `new` becomes the only element. */
    method Replace(prior: Elem<T>, repl: Elem<T>, ghost k: nat)
      requires Valid() && repl !in els
      requires els != [] ==> k < |els| && els[k] == prior
      modifies this, repl`prev, repl`next
      modifies (if els == [] then {} else Near(els, k))`prev, (if els == [] then {} else Near(els, k))`next
      ensures Valid() && els == if old(els) == [] then [repl] else old(els)[k := repl]
    {
      if head == null {
        head := repl;
        repl.prev := repl;
        repl.next := null;
        els := [repl];
      } else {
        repl.prev := if head.next == null then repl else prior.prev;
        repl.next := prior.next;
        if prior.next != null {
          prior.next.prev := repl;
        } else {
          head.prev := repl;
        }
        if prior != head {
          prior.prev.next := repl;
        } else {
          head := repl;
        }
        els := els[k := repl];
      }
    }

    method Rm(el: Elem<T>, ghost k: nat)
      requires Valid() && k < |els| && els[k] == el
      modifies this, Near(els, k)`prev, Near(els, k)`next
      ensures Valid() && els == Remove(old(els), el)
      ensures el.next == old(el.next)
    {
      ghost var s, rest, n := els, Remove(els, el), |els|;
      RemoveIndex(els, k);
      if el != head {
        el.prev.next := el.next;
      }
      if el.next != null {
        el.next.prev := el.prev;
      } else {
        head.prev := el.prev;
      }
      if el == head {
        head := el.next;
      }
      assert k == 0 && n > 1 ==> s[1].prev == s[n - 1];
      assert k > 0 ==> s[0].prev == if k + 1 < n then s[n - 1] else s[k - 1];
      assert n > 1 ==> (if k + 1 < n then s[n - 1] else s[k - 1]).next == null;
      forall i | 0 <= i < |rest| - 1 ensures rest[i].next == rest[i + 1] {
        if i < k - 1 {
          assert s[i].next == s[i + 1];
        } else if i == k - 1 {
          assert s[i].next == s[k + 1];
        } else {
          assert s[i + 1].next == s[i + 2];
        }
      }
      forall i | 0 < i < |rest| ensures rest[i].prev == rest[i - 1] {
        if i < k {
          assert s[i].prev == s[i - 1];
        } else if i == k {
          assert s[k + 1].prev == s[k - 1];
        } else {
          assert s[i + 1].prev == s[i];
        }
      }
      els := rest;
    }

    /** The null element counts as contained: the walk ends on it. */
    method Contains(el: Elem?<T>) returns (r: bool)
      requires Valid()
      ensures r <==> el == null || el in els
    {
      var cur := head;
      ghost var i := 0;
      while cur != null
        invariant 0 <= i <= |els|
        invariant cur == if i < |els| then els[i] else null
        invariant el !in els[..i]
        decreases |els| - i
      {
        if cur == el {
          break;
        }
        cur := cur.next;
        i := i + 1;
      }
      r := cur == el;
    }

    /** The first element whose value satisfies `p`, or null when none does. */
    method Find(p: T -> bool) returns (r: Elem?<T>)
      requires Valid()
      ensures r == null <==> forall e | e in els :: !p(e.value)
      ensures r != null ==>
                exists i :: 0 <= i < |els| && els[i] == r && p(r.value) && forall j | 0 <= j < i :: !p(els[j].value)
    {
      var el := head;
      var next := if head == null then null else head.next;
      ghost var i := 0;
      while el != null
        invariant 0 <= i <= |els|
        invariant el == if i < |els| then els[i] else null
        invariant next == if i + 1 < |els| then els[i + 1] else null
        invariant forall j | 0 <= j < i :: !p(els[j].value)
        decreases |els| - i
      {
        if p(el.value) {
          return el;
        }
        el := next;
        next := if next == null then null else next.next;
        i := i + 1;
      }
      return null;
    }

    /** What the links say about the element in front of `back`. */
    lemma LinksAt(front: seq<Elem<T>>, back: seq<Elem<T>>)
      requires Valid() && els == front + back
      ensures NoDup(els) && head == if els == [] then null else els[0]
      ensures back != [] ==> back[0].next == if |back| == 1 then null else back[1]
      ensures back != [] ==> back[0] !in front
    {
      if back != [] {
        var k := |front|;
        assert els[k] == back[0] && els[k].next == if k + 1 < |els| then els[k + 1] else null;
        assert forall j | 0 <= j < k :: els[j] == front[j];
      }
    }

    /** The loop body: unlinks `el` and frees it when `drop` says so.  A freed
        element has arbitrary links from then on. */
    method Visit(el: Elem<T>, drop: bool, ghost front: seq<Elem<T>>, ghost back: seq<Elem<T>>, ghost all: set<Elem<T>>)
      requires Valid() && els == front + [el] + back
      requires el in all && Within(front, all) && Within(back, all)
      modifies this, all`prev, all`next
      ensures Valid() && els == (if drop then front else front + [el]) + back
      ensures back != [] ==> back[0].next == if |back| == 1 then null else back[1]
    {
      if drop {
        RemoveMid(front, el, back);
        RemoveFacts(els, el);
        assert els[|front|] == el;
        Rm(el, |front|);
        el.prev, el.next := *, *;
      }
      LinksAt(if drop then front else front + [el], back);
    }

    /** A `list_for_each` loop whose body unlinks and frees the current element
        whenever `drop` says so for its position.  The loop goes on because
        `next` was read before the body ran: it never leads to a freed element. */
    method Sweep(drop: seq<bool>) returns (visited: seq<Elem<T>>)
      requires Valid() && |drop| == |els|
      modifies this, els`prev, els`next
      ensures visited == old(els)
      ensures Valid() && els == Kept(old(els), drop)
    {
      hide Linked, NoDup, Swept;
      LinksAt([], els);
      visited := [];
      var el := head;
      var next := if head == null then null else head.next;
      ghost var s, all := els, set e | e in els;
      ghost var kept: seq<Elem<T>>, rest := [], s;
      SweptStart(s, drop);
      while el != null
        invariant Swept(s, drop, visited, kept, rest)
        invariant el == if rest == [] then null else rest[0]
        invariant next == if |rest| < 2 then null else rest[1]
        invariant Valid() && els == kept + rest
        decreases |rest|
      {
        SweptNext(s, drop, visited, kept, rest);
        var cur: Elem<T>, d := el, drop[|visited|];
        Visit(cur, d, kept, rest[1..], all);
        kept := if d then kept else kept + [cur];
        visited, rest := visited + [cur], rest[1..];
        el := next;
        assert next != null ==> els[|kept|] == next;  // still linked, so never freed
        next := if next == null then null else next.next;
      }
      SweptEnd(s, drop, visited, kept, rest);
    }
  }
}
