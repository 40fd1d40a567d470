/** Sequence operations that the linked lists refine and the layers above reuse. */
module Seqs {

  ghost predicate NoDup<T>(s: seq<T>) {
    forall i, j | 0 <= i < j < |s| :: s[i] != s[j]
  }

  ghost predicate Within<T>(s: seq<T>, all: set<T>) {
    forall i | 0 <= i < |s| :: s[i] in all
  }

  /** `s` without the first occurrence of `x`. */
  function Remove<T(==)>(s: seq<T>, x: T): seq<T> {
    if s == [] then [] else if s[0] == x then s[1..] else [s[0]] + Remove(s[1..], x)
  }

  /** All parts, one after the other. */
  function Flatten<T>(parts: seq<seq<T>>): seq<T> {
    if parts == [] then [] else parts[0] + Flatten(parts[1..])
  }

  ghost function Insert<T>(s: seq<T>, k: nat, x: T): (r: seq<T>)
    requires k <= |s|
    ensures |r| == |s| + 1
    ensures forall i {:trigger r[i]} | 0 <= i < |r| :: r[i] == if i < k then s[i] else if i == k then x else s[i - 1]
  {
    s[..k] + [x] + s[k..]
  }

  lemma {:induction false} RemoveAt<T>(s: seq<T>, k: nat)
    requires NoDup(s) && k < |s|
    ensures Remove(s, s[k]) == s[..k] + s[k + 1..]
  {
    if k > 0 {
      RemoveAt(s[1..], k - 1);
      assert s[0] != s[k];
      assert s[..k] + s[k + 1..] == [s[0]] + (s[1..][..k - 1] + s[1..][k..]);
    }
  }

  /** Position `i` of the shorter sequence is position `i` or `i + 1` of `s`. */
  lemma RemoveIndex<T>(s: seq<T>, k: nat)
    requires NoDup(s) && k < |s|
    ensures NoDup(Remove(s, s[k])) && |Remove(s, s[k])| == |s| - 1
    ensures forall i {:trigger Remove(s, s[k])[i]} | 0 <= i < |s| - 1 ::
              Remove(s, s[k])[i] == s[if i < k then i else i + 1]
  {
    RemoveAt(s, k);
  }

  lemma {:induction false} RemoveMembers<T>(s: seq<T>, x: T, y: T)
    ensures y in Remove(s, x) ==> y in s
    ensures y != x && y in s ==> y in Remove(s, x)
  {
    if s != [] { RemoveMembers(s[1..], x, y); }
  }

  lemma {:induction false} RemoveFacts<T>(s: seq<T>, x: T)
    requires NoDup(s) && x in s
    ensures NoDup(Remove(s, x)) && x !in Remove(s, x) && |Remove(s, x)| == |s| - 1
    ensures forall y :: y in Remove(s, x) <==> y in s && y != x
  {
    var k :| 0 <= k < |s| && s[k] == x;
    RemoveIndex(s, k);
    forall y ensures y in Remove(s, x) ==> y in s
             ensures y != x && y in s ==> y in Remove(s, x) {
      RemoveMembers(s, x, y);
    }
  }

  lemma RemoveMid<T>(front: seq<T>, x: T, back: seq<T>)
    requires NoDup(front + [x] + back)
    ensures Remove(front + [x] + back, x) == front + back
  {
    RemoveAt(front + [x] + back, |front|);
  }

  lemma {:induction false} FlattenSnoc<T>(parts: seq<seq<T>>, last: seq<T>)
    ensures Flatten(parts + [last]) == Flatten(parts) + last
  {
    if parts == [] {
      assert Flatten([last]) == last + Flatten([]);
    } else {
      assert (parts + [last])[1..] == parts[1..] + [last];
      FlattenSnoc(parts[1..], last);
    }
  }
}
