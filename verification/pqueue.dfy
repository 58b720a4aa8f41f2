/** A priority queue: a binary heap in an array that grows. */
module PriorityQueue {
  import opened Options

  /** `cmp` orders the elements, though it may hold different ones for equal. */
  ghost predicate Preorder<T(!new)>(cmp: (T, T) -> int) {
    && (forall a, b :: cmp(a, b) > 0 <==> cmp(b, a) < 0)
    && (forall a, b, c :: cmp(a, b) >= 0 && cmp(b, c) >= 0 ==> cmp(a, c) >= 0)
  }

  function Parent(i: nat): (p: nat)
    requires i > 0
    ensures p < i
  {
    (1 + i) / 2 - 1
  }

  function Left(i: nat): nat { (1 + i) * 2 - 1 }

  function Right(i: nat): nat { (1 + i) * 2 }

  predicate Holds<T>(cmp: (T, T) -> int, s: seq<T>, i: nat)
    requires 0 < i < |s|
  {
    cmp(s[Parent(i)], s[i]) >= 0
  }

  /** No element is greater than its parent. */
  ghost predicate Heap<T>(cmp: (T, T) -> int, s: seq<T>) {
    forall i :: 0 < i < |s| ==> Holds(cmp, s, i)
  }

  /** Only the element at `k` may be smaller than its children, and these are not greater than its parent. */
  ghost predicate HeapButDown<T>(cmp: (T, T) -> int, s: seq<T>, k: nat) {
    && (forall i :: 0 < i < |s| && Parent(i) != k ==> Holds(cmp, s, i))
    && (forall i :: 0 < i < |s| && Parent(i) == k && k > 0 ==> cmp(s[Parent(k)], s[i]) >= 0)
  }

  /** Only the element at `k` may be greater than its parent, which is not smaller than its children. */
  ghost predicate HeapButUp<T>(cmp: (T, T) -> int, s: seq<T>, k: nat) {
    && (forall i :: 0 < i < |s| && i != k ==> Holds(cmp, s, i))
    && (forall i :: 0 < i < |s| && Parent(i) == k && 0 < k ==> cmp(s[Parent(k)], s[i]) >= 0)
  }

  function Exchange<T>(s: seq<T>, i: nat, j: nat): seq<T>
    requires i < |s| && j < |s|
  {
    s[i := s[j]][j := s[i]]
  }

  lemma ExchangeKeeps<T>(s: seq<T>, i: nat, j: nat)
    requires i < |s| && j < |s|
    ensures multiset(Exchange(s, i, j)) == multiset(s)
  {
  }

  lemma {:induction false} RootIsGreatest<T(!new)>(cmp: (T, T) -> int, s: seq<T>, i: nat)
    requires Preorder(cmp) && Heap(cmp, s) && i < |s|
    ensures cmp(s[0], s[i]) >= 0
  {
    if i == 0 {
      assert !(cmp(s[0], s[0]) < 0);
    } else {
      RootIsGreatest(cmp, s, Parent(i));
      assert Holds(cmp, s, i);
    }
  }

  /** Moving the greater child up leaves only its place in doubt. */
  lemma SiftDown<T(!new)>(cmp: (T, T) -> int, s: seq<T>, k: nat, m: nat)
    requires Preorder(cmp) && HeapButDown(cmp, s, k)
    requires k < m < |s| && Parent(m) == k && cmp(s[m], s[k]) >= 0
    requires forall i :: 0 < i < |s| && Parent(i) == k ==> cmp(s[m], s[i]) >= 0
    ensures HeapButDown(cmp, Exchange(s, k, m), m)
  {
    var t := Exchange(s, k, m);
    forall i | 0 < i < |t| && Parent(i) != m
      ensures Holds(cmp, t, i)
    {
      assert Parent(i) != k ==> Holds(cmp, s, i);
    }
    forall i | 0 < i < |t| && Parent(i) == m
      ensures cmp(t[Parent(m)], t[i]) >= 0
    {
      assert Holds(cmp, s, i);
    }
  }

  /** Moving the parent down leaves only its place in doubt. */
  lemma SiftUp<T(!new)>(cmp: (T, T) -> int, s: seq<T>, k: nat)
    requires Preorder(cmp) && HeapButUp(cmp, s, k) && 0 < k < |s| && cmp(s[Parent(k)], s[k]) < 0
    ensures HeapButUp(cmp, Exchange(s, k, Parent(k)), Parent(k))
  {
    var p := Parent(k);
    var t := Exchange(s, k, p);
    assert cmp(s[k], s[p]) >= 0;
    forall i | 0 < i < |t| && i != p
      ensures Holds(cmp, t, i)
    {
      if i != k { assert Holds(cmp, s, i); }
    }
    forall i | 0 < i < |t| && Parent(i) == p && 0 < p
      ensures cmp(t[Parent(p)], t[i]) >= 0
    {
      assert Holds(cmp, s, p);
      if i != k { assert Holds(cmp, s, i); }
    }
  }

  class PQueue<T(!new)> {
    const cmp: (T, T) -> int
    var len: nat
    var data: array<T>

    constructor (max: nat, cmp: (T, T) -> int, blank: T)
      requires max > 0 && Preorder(cmp)
      ensures this.cmp == cmp && Valid() && fresh(data) && Contents() == []
    {
      this.cmp, len := cmp, 0;
      data := new T[max](_ => blank);
    }

    ghost predicate Shaped()
      reads this
    {
      len <= data.Length && data.Length > 0 && Preorder(cmp)
    }

    ghost function Contents(): seq<T>
      requires Shaped()
      reads this, data
    {
      data[..len]
    }

    ghost predicate Valid()
      reads this, data
    {
      Shaped() && Heap(cmp, Contents())
    }

    /** Restores the order below `index`. */
    method Heapify(index: nat)
      requires Shaped() && index <= len && HeapButDown(cmp, Contents(), index)
      modifies data
      ensures Valid() && multiset(Contents()) == old(multiset(Contents()))
      decreases len - index
    {
      hide Heap, HeapButDown, Holds;
      var max := index;
      var left, right := Left(index), Right(index);
      if left < len && cmp(data[left], data[max]) > 0 {
        max := left;
      }
      if right < len && cmp(data[right], data[max]) > 0 {
        max := right;
      }
      ghost var s := Contents();
      GreaterChild(cmp, s, index, max);
      if max != index {
        data[index], data[max] := data[max], data[index];
        assert Contents() == Exchange(s, index, max);
        ExchangeKeeps(s, index, max);
        SiftDown(cmp, s, index, max);
        Heapify(max);
      }
    }

    /** Takes out a greatest element. */
    method Extract() returns (r: Option<T>)
      requires Valid()
      modifies `len, data
      ensures Valid()
      ensures old(len) == 0 ==> r.None? && Contents() == old(Contents())
      ensures old(len) > 0 ==>
                && r.Some? && multiset(Contents()) + multiset{r.value} == old(multiset(Contents()))
                && forall x :: x in old(Contents()) ==> cmp(r.value, x) >= 0
    {
      if len == 0 {
        return None;
      }
      ghost var s := Contents();
      forall i | 0 <= i < |s| ensures cmp(s[0], s[i]) >= 0 { RootIsGreatest(cmp, s, i); }
      r := Some(data[0]);
      data[0] := data[len - 1];
      len := len - 1;
      LastToFront(cmp, s, Contents());
      Heapify(0);
    }

    /** Puts an element in, after moving to twice the memory if need be. */
    method Insert(d: T)
      requires Valid()
      modifies this, data
      ensures Valid() && multiset(Contents()) == old(multiset(Contents())) + multiset{d}
      ensures len == old(len) + 1 && (data == old(data) || fresh(data))
    {
      hide Heap, HeapButUp, Preorder;
      if len >= data.Length {
        Grow();
      }
      AddLast(cmp, Contents(), d);
      ghost var s := Contents() + [d];
      len := len + 1;
      assert Contents()[len - 1 := d] == s;
      Place(d);
    }

    /** Moves smaller parents down until the place for `d` is found. */
    method Place(d: T)
      requires Shaped() && len > 0 && HeapButUp(cmp, Contents()[len - 1 := d], len - 1)
      modifies data
      ensures Valid() && multiset(Contents()) == old(multiset(Contents()[len - 1 := d]))
    {
      hide Heap, HeapButUp, Preorder, Holds, Exchange;
      var index: nat := len - 1;
      ghost var t := Contents()[index := d];
      while index > 0 && cmp(data[Parent(index)], d) < 0
        invariant index < len && t == Contents()[index := d]
        invariant HeapButUp(cmp, t, index) && multiset(t) == old(multiset(Contents()[len - 1 := d]))
      {
        SiftUp(cmp, t, index);
        ExchangeKeeps(t, index, Parent(index));
        HoleMoves(Contents(), index, Parent(index), d);
        t := Exchange(t, index, Parent(index));
        data[index] := data[Parent(index)];
        index := Parent(index);
      }
      Settled(cmp, t, index);
      data[index] := d;
      assert Contents() == t;
    }

    method Grow()
      requires Valid()
      modifies `data
      ensures Valid() && fresh(data) && data.Length == 2 * old(data.Length) && Contents() == old(Contents())
    {
      var from := data;
      var blank := data[0];
      var buf := new T[2 * from.Length](i => blank);
      for i := 0 to from.Length
        invariant buf[..i] == from[..i]
      {
        buf[i] := from[i];
      }
      assert buf[..len] == buf[..from.Length][..len] == from[..len];
      data := buf;
    }

    /** A greatest element, left where it is. */
    method Peek() returns (r: Option<T>)
      requires Valid()
      ensures r.None? <==> len == 0
      ensures r.Some? ==> r.value in Contents() && forall x :: x in Contents() ==> cmp(r.value, x) >= 0
    {
      if len == 0 {
        return None;
      }
      ghost var s := Contents();
      forall i | 0 <= i < |s| ensures cmp(s[0], s[i]) >= 0 { RootIsGreatest(cmp, s, i); }
      r := Some(data[0]);
    }
  }

  lemma GreaterChild<T(!new)>(cmp: (T, T) -> int, s: seq<T>, k: nat, m: nat)
    requires Preorder(cmp) && HeapButDown(cmp, s, k) && (k < |s| || k == m == |s|)
    requires m == k || (m < |s| && (m == Left(k) || m == Right(k)) && cmp(s[m], s[k]) > 0)
    requires Left(k) < |s| ==> !(cmp(s[Left(k)], s[m]) > 0)
    requires Right(k) < |s| ==> !(cmp(s[Right(k)], s[m]) > 0)
    ensures m == k ==> Heap(cmp, s)
    ensures m != k ==> Parent(m) == k && forall i :: 0 < i < |s| && Parent(i) == k ==> cmp(s[m], s[i]) >= 0
  {
    forall i | 0 < i < |s| && Parent(i) == k
      ensures cmp(s[m], s[i]) >= 0 && (m == k ==> Holds(cmp, s, i))
    {
      assert i == Left(k) || i == Right(k);
    }
  }

  lemma LastToFront<T>(cmp: (T, T) -> int, s: seq<T>, t: seq<T>)
    requires Heap(cmp, s) && |s| > 0 && t == s[0 := s[|s| - 1]][..|s| - 1]
    ensures HeapButDown(cmp, t, 0) && multiset(t) + multiset{s[0]} == multiset(s)
  {
    forall i | 0 < i < |t| && Parent(i) != 0
      ensures Holds(cmp, t, i)
    {
      assert Holds(cmp, s, i);
    }
    ExchangeKeeps(s, 0, |s| - 1);
    assert Exchange(s, 0, |s| - 1) == t + [s[0]];
  }

  /** Moving an element into the hole at `i` moves the hole. */
  lemma HoleMoves<T>(s: seq<T>, i: nat, p: nat, d: T)
    requires i < |s| && p < |s| && i != p
    ensures s[i := s[p]][p := d] == Exchange(s[i := d], i, p)
  {
  }

  lemma Settled<T>(cmp: (T, T) -> int, s: seq<T>, k: nat)
    requires HeapButUp(cmp, s, k) && k < |s| && (k > 0 ==> cmp(s[Parent(k)], s[k]) >= 0)
    ensures Heap(cmp, s)
  {
    assert k > 0 ==> Holds(cmp, s, k);
  }

  lemma AddLast<T>(cmp: (T, T) -> int, s: seq<T>, d: T)
    requires Heap(cmp, s)
    ensures HeapButUp(cmp, s + [d], |s|)
  {
    forall i | 0 < i < |s| + 1 && i != |s|
      ensures Holds(cmp, s + [d], i)
    {
      assert Holds(cmp, s, i);
    }
  }
}
