/** list.c: the intrusive doubly linked list between two sentinels, refined to a sequence of its elements. */
module Lists {

  class Elem {
    var prev: Elem?
    var next: Elem?
    constructor () {}
  }

  ghost predicate LinkAt(s: seq<Elem>, i: nat)
    requires i + 1 < |s|
    reads s
  {
    s[i].next == s[i + 1] && s[i + 1].prev == s[i]
  }

  /** Consecutive elements point at each other. */
  ghost predicate Linked(s: seq<Elem>)
    reads s
  {
    forall i: nat :: i + 1 < |s| ==> LinkAt(s, i)
  }

  predicate Distinct(s: seq<Elem>) { forall i, j :: 0 <= i < j < |s| ==> s[i] != s[j] }

  lemma DistinctInsert(a: seq<Elem>, e: Elem, b: seq<Elem>)
    requires Distinct(a + b) && e !in a + b
    ensures Distinct(a + [e] + b)
  {
    var s, r := a + b, a + [e] + b;
    forall i, j | 0 <= i < j < |r| ensures r[i] != r[j] {
      assert r[i] == e || r[i] == s[if i < |a| then i else i - 1];
      assert r[j] == e || r[j] == s[if j < |a| then j else j - 1];
    }
  }

  lemma DistinctRemove(a: seq<Elem>, e: Elem, b: seq<Elem>)
    requires Distinct(a + [e] + b)
    ensures Distinct(a + b)
  {
    var s, r := a + [e] + b, a + b;
    forall i, j | 0 <= i < j < |r| ensures r[i] != r[j] {
      assert r[i] == s[if i < |a| then i else i + 1];
      assert r[j] == s[if j < |a| then j else j + 1];
    }
  }

  /** In distinct `a + b` the last of `a` and the first of `b` occur nowhere else. */
  lemma DistinctInner(a: seq<Elem>, b: seq<Elem>)
    requires Distinct(a + b) && a != [] && b != []
    ensures forall i :: 0 <= i < |a| - 1 ==> a[i] != a[|a| - 1]
    ensures forall i :: 0 <= i < |a| ==> a[i] != b[0]
    ensures forall i :: 0 <= i < |b| ==> b[i] != a[|a| - 1]
    ensures forall i :: 1 <= i < |b| ==> b[i] != b[0]
    ensures Distinct(a) && Distinct(b)
  {
    var s := a + b;
    assert forall i :: 0 <= i < |a| ==> s[i] == a[i];
    assert forall i :: 0 <= i < |b| ==> s[|a| + i] == b[i];
  }

  lemma LinkedParts(a: seq<Elem>, b: seq<Elem>)
    requires Linked(a + b)
    ensures Linked(a) && Linked(b)
    ensures a != [] && b != [] ==> a[|a| - 1].next == b[0] && b[0].prev == a[|a| - 1]
  {
    forall i: nat | i + 1 < |a| ensures LinkAt(a, i) { assert LinkAt(a + b, i); }
    forall i: nat | i + 1 < |b| ensures LinkAt(b, i) { assert LinkAt(a + b, |a| + i); }
    if a != [] && b != [] { assert LinkAt(a + b, |a| - 1); }
  }

  lemma LinkedJoin(a: seq<Elem>, b: seq<Elem>)
    requires Linked(a) && Linked(b) && a != [] && b != [] && a[|a| - 1].next == b[0] && b[0].prev == a[|a| - 1]
    ensures Linked(a + b)
  {
    var r := a + b;
    forall i: nat | i + 1 < |r| ensures LinkAt(r, i) {
      if i + 1 < |a| {
        assert LinkAt(a, i);
      } else if i >= |a| {
        assert LinkAt(b, i - |a|);
      }
    }
  }

  class List {
    const head: Elem
    const tail: Elem
    /** The elements between the sentinels. */
    ghost var elems: seq<Elem>

    ghost function Chain(): seq<Elem>
      reads this
    {
      [head] + elems + [tail]
    }

    ghost predicate Valid()
      reads this, head, tail, Chain()
    {
      Distinct(Chain()) && Linked(Chain()) && head.prev == null && tail.next == null
    }

    /** The neighbours of the element at position `i` of the chain. */
    lemma At(i: nat)
      requires Valid() && i <= |elems|
      ensures Chain()[i].next == Chain()[i + 1] && Chain()[i + 1].prev == Chain()[i]
      ensures Chain()[0] == head && Chain()[|elems| + 1] == tail && (i < |elems| ==> Chain()[i + 1] == elems[i])
      ensures Chain()[i] == tail <==> i == |elems| + 1
      ensures Chain()[i + 1] == tail <==> i == |elems|
    {
      assert LinkAt(Chain(), i);
    }

    /** `list_init`. */
    constructor ()
      ensures Valid() && elems == [] && fresh(head) && fresh(tail)
    {
      head := new Elem();
      tail := new Elem();
      elems := [];
      new;
      head.prev, head.next := null, tail;
      tail.prev, tail.next := head, null;
      assert LinkAt(Chain(), 0);
    }

    /** `list_insert_before`: `before` is the element at position `k`, or the tail when `k` is the length. */
    method InsertBefore(before: Elem, elem: Elem, ghost k: nat)
      requires Valid() && k <= |elems| && before == (elems + [tail])[k] && elem !in Chain()
      modifies this`elems, elem, Chain()
      ensures Valid() && elems == old(elems)[..k] + [elem] + old(elems)[k..]
    {
      ghost var a, b := [head] + elems[..k], elems[k..] + [tail];
      assert Chain() == a + b && b[0] == before;
      LinkedParts(a, b);
      DistinctInsert(a, elem, b);
      DistinctInner(a, b);
      assert Chain()[k] == a[k] && Chain()[k + 1] == before;
      elem.prev := before.prev;
      elem.next := before;
      before.prev.next := elem;
      before.prev := elem;
      assert Linked(a) by { forall i: nat | i + 1 < |a| ensures LinkAt(a, i) { assert old(LinkAt(a, i)); } }
      assert Linked(b) by { forall i: nat | i + 1 < |b| ensures LinkAt(b, i) { assert old(LinkAt(b, i)); } }
      LinkedJoin([elem], b);
      LinkedJoin(a, [elem] + b);
      elems := elems[..k] + [elem] + elems[k..];
      assert Chain() == a + [elem] + b == a + ([elem] + b);
    }

    /** `list_push`. */
    method Push(elem: Elem)
      requires Valid() && elem !in Chain()
      modifies this`elems, elem, Chain()
      ensures Valid() && elems == [elem] + old(elems)
    {
      At(0);
      InsertBefore(head.next, elem, 0);
    }

    /** `list_append`. */
    method Append(elem: Elem)
      requires Valid() && elem !in Chain()
      modifies this`elems, elem, Chain()
      ensures Valid() && elems == old(elems) + [elem]
    {
      At(|elems|);
      InsertBefore(tail, elem, |elems|);
    }

    /** `list_remove`: the element keeps its own pointers. */
    method Remove(elem: Elem, ghost k: nat)
      requires Valid() && k < |elems| && elems[k] == elem
      modifies this`elems, Chain()
      ensures Valid() && elems == old(elems)[..k] + old(elems)[k + 1..]
      ensures elem.prev == old(elem.prev) && elem.next == old(elem.next)
    {
      ghost var a, b := [head] + elems[..k], elems[k + 1..] + [tail];
      assert Chain() == a + [elem] + b == a + ([elem] + b);
      LinkedParts(a, [elem] + b);
      LinkedParts([elem], b);
      DistinctRemove(a, elem, b);
      DistinctInner(a, [elem] + b);
      DistinctInner([elem], b);
      assert Chain()[k] == a[k] && Chain()[k + 2] == b[0];
      elem.prev.next := elem.next;
      elem.next.prev := elem.prev;
      assert Linked(a) by { forall i: nat | i + 1 < |a| ensures LinkAt(a, i) { assert old(LinkAt(a, i)); } }
      assert Linked(b) by { forall i: nat | i + 1 < |b| ensures LinkAt(b, i) { assert old(LinkAt(b, i)); } }
      LinkedJoin(a, b);
      elems := elems[..k] + elems[k + 1..];
      assert Chain() == a + b;
    }

    /** `list_pop`. On an empty list it would unlink the tail and write through its null pointer. */
    method Pop() returns (ok: bool, elem: Elem)
      requires Valid()
      modifies this`elems, Chain()
      ensures ok <==> old(elems) != []
      ensures ok ==> Valid() && elem == old(elems)[0] && elems == old(elems)[1..]
    {
      At(0);
      if elems != [] { At(1); }
      elem := head.next;
      if elem.next == null { return false, elem; }
      Remove(elem, 0);
      ok := true;
    }

    /** `elem_find`. */
    method Find(obj: Elem) returns (found: bool)
      requires Valid()
      ensures found <==> obj in elems
    {
      ghost var k := 0;
      At(0);
      var elem := head.next;
      while elem != tail
        invariant k <= |elems| && elem == Chain()[k + 1] && obj !in elems[..k]
        decreases |elems| - k
      {
        At(k);
        if elem == obj { return true; }
        At(k + 1);
        elem := elem.next;
        k := k + 1;
      }
      At(k);
      assert elems[..k] == elems;
      return false;
    }

    /** `list_len`. */
    method Len() returns (n: nat)
      requires Valid()
      ensures n == |elems|
    {
      n := 0;
      At(0);
      var elem := head.next;
      while elem != tail
        invariant n <= |elems| && elem == Chain()[n + 1]
        decreases |elems| - n
      {
        At(n);
        At(n + 1);
        elem := elem.next;
        n := n + 1;
      }
      At(n);
    }

    /** `list_empty`. */
    method Empty() returns (b: bool)
      requires Valid()
      ensures b <==> elems == []
    {
      At(0);
      b := head.next == tail;
    }
  }
}
