/** The moving median of time values, kept with an array of slots ordered by value. */
module FilterMedian {

  /** Division as the program does it, towards zero. */
  function Quotient(a: int, b: int): int
    requires b > 0
  {
    if a < 0 then -(-a / b) else a / b
  }

  ghost predicate Ascending(s: seq<int>) {
    forall i, j :: 0 <= i < j < |s| ==> s[i] <= s[j]
  }

  /** The middle of ascending values: the middle one, or the mean of the middle two. */
  function Middle(s: seq<int>): int
    requires s != []
  {
    if |s| % 2 == 1 then s[|s| / 2] else Quotient(s[|s| / 2 - 1] + s[|s| / 2], 2)
  }

  /** Division towards zero: what is left over is less than the divisor, and on the side of the dividend. */
  lemma QuotientIs(a: int, b: int)
    requires b > 0
    ensures var rest := a - b * Quotient(a, b);
            if a < 0 then -b < rest <= 0 else 0 <= rest < b
  {
    if a < 0 {
      assert -a == b * (-a / b) + -a % b;
      assert b * -(-a / b) == -(b * (-a / b));
    } else {
      assert a == b * (a / b) + a % b;
    }
  }

  /** The middle is a median: at least half of the values are no greater, and at least half are no less.  Of an even
      number of values it is half the sum of the middle two, but for rounding. */
  lemma MiddleIsMedian(s: seq<int>)
    requires s != [] && Ascending(s)
    ensures forall i :: 0 <= i <= (|s| - 1) / 2 ==> s[i] <= Middle(s)
    ensures forall i :: |s| / 2 <= i < |s| ==> s[i] >= Middle(s)
    ensures |s| % 2 == 0 ==> -1 <= s[|s| / 2 - 1] + s[|s| / 2] - 2 * Middle(s) <= 1
  {
    hide Quotient;
    var n := |s|;
    if n % 2 == 0 {
      QuotientIs(s[n / 2 - 1] + s[n / 2], 2);
      assert s[n / 2 - 1] <= s[n / 2];
      assert s[n / 2 - 1] <= Middle(s) <= s[n / 2];
    }
    forall i | 0 <= i <= (n - 1) / 2 ensures s[i] <= Middle(s) {
      assert i < (n - 1) / 2 ==> s[i] <= s[(n - 1) / 2];
    }
    forall i | n / 2 <= i < n ensures s[i] >= Middle(s) {
      assert i > n / 2 ==> s[n / 2] <= s[i];
    }
  }

  lemma FirstIsLeast(s: seq<int>, x: int)
    requires Ascending(s) && x in multiset(s)
    ensures s != [] && s[0] <= x && Ascending(s[1..])
    ensures multiset(s[1..]) == multiset(s) - multiset{s[0]}
  {
    assert s == [s[0]] + s[1..];
  }

  lemma SameLength(a: seq<int>, b: seq<int>)
    requires multiset(a) == multiset(b)
    ensures |a| == |b|
  {
    assert |a| == |multiset(a)| == |multiset(b)| == |b|;
  }

  lemma SplitFirst(a: seq<int>, b: seq<int>)
    requires a != [] && b != [] && a[0] == b[0] && a[1..] == b[1..]
    ensures a == b
  {
    assert a == [a[0]] + a[1..] && b == [b[0]] + b[1..];
  }

  /** The same values in ascending order are the same sequence. */
  lemma {:induction false} AscendingUnique(a: seq<int>, b: seq<int>)
    requires Ascending(a) && Ascending(b) && multiset(a) == multiset(b)
    ensures a == b
  {
    hide Ascending;
    SameLength(a, b);
    if a != [] {
      assert a[0] in multiset(a) && b[0] in multiset(b);
      FirstIsLeast(a, b[0]);
      FirstIsLeast(b, a[0]);
      AscendingUnique(a[1..], b[1..]);
      SplitFirst(a, b);
    }
  }

  /** The values in some slots. */
  function Values(order: seq<nat>, samples: seq<int>): seq<int>
    requires forall i :: 0 <= i < |order| ==> order[i] < |samples|
  {
    seq(|order|, i requires 0 <= i < |order| => samples[order[i]])
  }

  /** `order` holds each of the first `n` slots once. */
  ghost predicate Permutes(order: seq<nat>, n: nat) {
    && |order| == n
    && (forall i :: 0 <= i < n ==> order[i] < n)
    && (forall i, j :: 0 <= i < j < n ==> order[i] != order[j])
    && (forall k :: 0 <= k < n ==> k in order)
  }

  function Without(s: seq<nat>, i: nat): seq<nat>
    requires i < |s|
  {
    s[..i] + s[i + 1..]
  }

  function With(s: seq<nat>, i: nat, x: nat): seq<nat>
    requires i <= |s|
  {
    s[..i] + [x] + s[i..]
  }

  /** A slot that is missing from the order of the others, put in where it keeps them ascending. */
  lemma PutSlot(order: seq<nat>, samples: seq<int>, slot: nat, p: nat)
    requires p <= |order| < |samples| && slot < |samples|
    requires forall i :: 0 <= i < |order| ==> order[i] < |samples|
    requires Ascending(Values(order, samples))
    requires forall i :: 0 <= i < p ==> samples[order[i]] <= samples[slot]
    requires forall i :: p <= i < |order| ==> samples[order[i]] > samples[slot]
    ensures var o := With(order, p, slot);
            && (forall i :: 0 <= i < |o| ==> o[i] < |samples|)
            && Ascending(Values(o, samples))
            && multiset(Values(o, samples)) == multiset(Values(order, samples)) + multiset{samples[slot]}
  {
    var v, o := Values(order, samples), With(order, p, slot);
    assert forall i :: 0 <= i < |v| ==> v[i] == samples[order[i]];
    PutValue(v, p, samples[slot]);
    hide Ascending;
    assert Values(o, samples) == v[..p] + [samples[slot]] + v[p..];
  }

  lemma PutValue(v: seq<int>, p: nat, x: int)
    requires p <= |v| && Ascending(v)
    requires (forall i :: 0 <= i < p ==> v[i] <= x) && (forall i :: p <= i < |v| ==> v[i] > x)
    ensures var t := v[..p] + [x] + v[p..];
            Ascending(t) && multiset(t) == multiset(v) + multiset{x}
  {
    assert v == v[..p] + v[p..];
  }

  lemma DropSlot(order: seq<nat>, samples: seq<int>, i: nat)
    requires i < |order| && forall j :: 0 <= j < |order| ==> order[j] < |samples|
    requires Ascending(Values(order, samples))
    ensures var o := Without(order, i);
            && (forall j :: 0 <= j < |o| ==> o[j] < |samples|)
            && Ascending(Values(o, samples))
            && multiset(Values(order, samples)) == multiset(Values(o, samples)) + multiset{samples[order[i]]}
  {
    var v, o := Values(order, samples), Without(order, i);
    assert Values(o, samples) == v[..i] + v[i + 1..];
    assert v == v[..i] + [v[i]] + v[i + 1..];
  }

  /** `order` holds each of the first `n` slots once, but for one. */
  ghost predicate PermutesBut(order: seq<nat>, n: nat, slot: nat) {
    && |order| + 1 == n && slot < n
    && (forall i :: 0 <= i < |order| ==> order[i] < n && order[i] != slot)
    && (forall i, j :: 0 <= i < j < |order| ==> order[i] != order[j])
    && (forall k :: 0 <= k < n && k != slot ==> k in order)
  }

  lemma PermutesPut(order: seq<nat>, n: nat, slot: nat, p: nat)
    requires PermutesBut(order, n, slot) && p <= |order|
    ensures Permutes(With(order, p, slot), n)
  {
    var o := With(order, p, slot);
    forall k | 0 <= k < n
      ensures k in o
    {
      if k != slot {
        assert k in order;
        var i :| 0 <= i < |order| && order[i] == k;
        assert o[if i < p then i else i + 1] == k;
      } else {
        assert o[p] == k;
      }
    }
  }

  lemma PermutesDrop(order: seq<nat>, n: nat, at: nat)
    requires Permutes(order, n) && at < n
    ensures PermutesBut(Without(order, at), n, order[at])
  {
    var o := Without(order, at);
    forall k | 0 <= k < n && k != order[at]
      ensures k in o
    {
      assert k in order;
      var i :| 0 <= i < |order| && order[i] == k;
      assert o[if i < at then i else i - 1] == k;
    }
  }

  /** The next place in a ring of `n`. */
  function Next(i: nat, n: nat): (r: nat)
    requires i < n
    ensures r == if i + 1 == n then 0 else i + 1
  {
    (1 + i) % n
  }

  /** The samples from the oldest on. */
  function Rotated(samples: seq<int>, index: nat): seq<int>
    requires index <= |samples|
  {
    samples[index..] + samples[..index]
  }

  /** Overwriting the oldest sample moves the window on. */
  lemma WindowMoves(samples: seq<int>, index: nat, x: int)
    requires index < |samples|
    ensures Rotated(samples, index)[0] == samples[index]
    ensures Rotated(samples[index := x], Next(index, |samples|)) == Rotated(samples, index)[1..] + [x]
  {
    var next := Next(index, |samples|);
    var s := samples[index := x];
    if index + 1 == |samples| {
      assert next == 0 && s[0..] + s[..0] == s;
      assert Rotated(samples, index) == [samples[index]] + samples[..index];
      assert s == samples[..index] + [x];
    } else {
      assert next == index + 1;
      assert Rotated(samples, index) == [samples[index]] + (samples[next..] + samples[..index]);
      assert s[next..] == samples[next..] && s[..next] == samples[..index] + [x];
    }
  }

  /** Values that do not look at a slot do not change with it. */
  lemma ValuesKept(order: seq<nat>, samples: seq<int>, slot: nat, x: int)
    requires slot < |samples| && forall i :: 0 <= i < |order| ==> order[i] < |samples| && order[i] != slot
    ensures Values(order, samples[slot := x]) == Values(order, samples)
  {
  }

  /** The samples in a buffer, oldest first. */
  function Window(samples: seq<int>, cnt: nat, index: nat): seq<int>
    requires cnt <= |samples| && index <= |samples|
  {
    if cnt < |samples| then samples[..cnt] else Rotated(samples, index)
  }

  /** The buffer holds the last samples, and the order of its slots is that of their values. */
  ghost predicate Consistent(order: seq<nat>, samples: seq<int>, cnt: nat, index: nat, history: seq<int>) {
    && cnt <= |samples| && index < |samples| && (cnt < |samples| ==> index == cnt)
    && cnt == (if |history| < |samples| then |history| else |samples|)
    && history[|history| - cnt..] == Window(samples, cnt, index)
    && Permutes(order, cnt)
    && Ascending(Values(order, samples))
    && multiset(Values(order, samples)) == multiset(Window(samples, cnt, index))
  }

  lemma Unfold(order: seq<nat>, samples: seq<int>, cnt: nat, index: nat, history: seq<int>)
    requires Consistent(order, samples, cnt, index, history)
    ensures index < |samples| && cnt <= |samples| && (cnt < |samples| ==> index == cnt) && Permutes(order, cnt)
    ensures Ascending(Values(order, samples))
    ensures cnt == if |history| < |samples| then |history| else |samples|
  {
  }

  /** A new sample in a slot not used yet. */
  lemma ConsistentMore(order: seq<nat>, samples: seq<int>, n: nat, history: seq<int>, x: int, p: nat)
    requires Consistent(order, samples, n, n, history) && n < |samples| && p <= n
    requires forall i :: 0 <= i < n ==> order[i] < n
    requires forall i :: 0 <= i < p ==> samples[n := x][order[i]] <= x
    requires forall i :: p <= i < n ==> samples[n := x][order[i]] > x
    ensures Consistent(With(order, p, n), samples[n := x], n + 1, Next(n, |samples|), history + [x])
  {
    hide Ascending, With, Permutes, PermutesBut, Rotated, Next, Window, Values;
    var s := samples[n := x];
    NextSlot(order, samples, n, x);
    PermutesSize(order, n);
    PutSlot(order, s, n, p);
    PermutesPut(order, n + 1, n, p);
    WindowMore(samples, n, x);
    LastMore(history, n, x);
  }

  lemma LastMore(h: seq<int>, n: nat, x: int)
    requires n <= |h|
    ensures (h + [x])[|h + [x]| - (n + 1)..] == h[|h| - n..] + [x]
  {
  }

  lemma PermutesSize(order: seq<nat>, n: nat)
    requires Permutes(order, n)
    ensures |order| == n && forall i :: 0 <= i < n ==> order[i] < n
  {
  }

  lemma WindowMore(samples: seq<int>, n: nat, x: int)
    requires n < |samples|
    ensures n + 1 < |samples| ==> Next(n, |samples|) == n + 1
    ensures Window(samples[n := x], n + 1, Next(n, |samples|)) == Window(samples, n, n) + [x]
  {
    var s := samples[n := x];
    if n + 1 == |samples| {
      assert s[0..] + s[..0] == s == samples[..n] + [x];
    } else {
      assert s[..n + 1] == samples[..n] + [x];
    }
  }

  /** A new sample in the slot of the oldest. */
  lemma ConsistentOn(order: seq<nat>, samples: seq<int>, index: nat, history: seq<int>, x: int, at: nat, p: nat)
    requires Consistent(order, samples, |samples|, index, history)
    requires p < |samples| && at < |order| && order[at] == index
    requires var o := Without(order, at);
             && |o| + 1 == |samples|
             && (forall i :: 0 <= i < |o| ==> o[i] < |samples|)
             && (forall i :: 0 <= i < p ==> samples[index := x][o[i]] <= x)
             && (forall i :: p <= i < |o| ==> samples[index := x][o[i]] > x)
    ensures Consistent(With(Without(order, at), p, index), samples[index := x], |samples|, Next(index, |samples|),
                       history + [x])
  {
    hide Ascending, With, Without, Permutes, PermutesBut, Rotated, Values, Next;
    var s, o, n := samples[index := x], Without(order, at), |samples|;
    PermutesSize(order, n);
    OldSlot(order, samples, n, at, x);
    PutSlot(o, s, index, p);
    PermutesPut(o, n, index, p);
    WindowMoves(samples, index, x);
    var w := Rotated(samples, index);
    LastOn(history, n, x, w);
    Cancel(multiset(Values(o, s)), multiset(w[1..]), samples[index]);
  }

  lemma Cancel(a: multiset<int>, b: multiset<int>, x: int)
    requires a + multiset{x} == b + multiset{x}
    ensures a == b
  {
    assert a == a + multiset{x} - multiset{x} == b;
  }

  lemma LastOn(h: seq<int>, n: nat, x: int, w: seq<int>)
    requires 0 < n <= |h| && w == h[|h| - n..]
    ensures (h + [x])[|h + [x]| - n..] == w[1..] + [x]
    ensures multiset(w) == multiset(w[1..]) + multiset{w[0]}
    ensures multiset(w[1..] + [x]) == multiset(w[1..]) + multiset{x}
  {
    assert w == [w[0]] + w[1..];
  }

  class Mmedian {
    const len: nat
    var cnt: nat
    var index: nat
    const order: array<nat>
    const samples: array<int>
    /** The samples since the last reset. */
    ghost var history: seq<int>

    constructor (length: nat)
      requires length >= 1
      ensures len == length && Valid() && fresh(order) && fresh(samples) && history == []
    {
      len, cnt, index, history := length, 0, 0, [];
      order := new nat[length](_ => 0);
      samples := new int[length](_ => 0);
    }

    ghost predicate Valid()
      reads this, order, samples
    {
      && len == order.Length == samples.Length && len > 0 && cnt <= len
      && Consistent(order[..cnt], samples[..], cnt, index, history)
    }

    method Reset()
      requires Valid()
      modifies `cnt, `index, `history
      ensures Valid() && history == []
    {
      cnt, index, history := 0, 0, [];
    }

    /** Takes in a sample, and answers the median of the samples in the buffer: the last `len`, or all since the last
        reset if there are fewer. */
    method Sample(x: int) returns (r: int)
      requires Valid()
      modifies this, order, samples
      ensures Valid() && history == old(history) + [x]
      ensures 0 < cnt == if |history| < len then |history| else len
      ensures forall s :: Ascending(s) && multiset(s) == multiset(history[|history| - cnt..]) ==>
        s != [] && r == Middle(s)
    {
      hide Ascending, Middle, Window, Consistent, Values, Permutes;
      ReplaceOldest(x);
      Unfold(order[..cnt], samples[..], cnt, index, history);
      PermutesSize(order[..cnt], cnt);
      var m := cnt / 2;
      MiddleIs(order[..cnt], samples[..]);
      if cnt % 2 == 1 {
        r := samples[order[m]];
      } else {
        r := Quotient(samples[order[m - 1]] + samples[order[m]], 2);
      }
      MedianIs(order[..cnt], samples[..], cnt, index, history);
    }

    /** The buffer and its order, with a new sample. */
    method ReplaceOldest(x: int)
      requires Valid()
      modifies this, order, samples
      ensures Valid() && cnt > 0 && history == old(history) + [x]
    {
      hide Consistent;
      ghost var o, sm, n := order[..cnt], samples[..], cnt;
      Unfold(o, sm, n, index, history);
      samples[index] := x;
      assert samples[..] == sm[index := x];
      if cnt < len {
        MakeRoom(o, sm, x);
      } else {
        ghost var at := Remove();
        UseOldSlot(o, sm, x, at);
      }
      index := Next(index, len);
      history := history + [x];
    }

    method MakeRoom(ghost o: seq<nat>, ghost sm: seq<int>, x: int)
      requires len == order.Length == samples.Length == |sm| && cnt == index < len && o == order[..cnt]
      requires samples[..] == sm[index := x] && Consistent(o, sm, cnt, index, history)
      modifies `cnt, order
      ensures cnt == old(cnt) + 1
      ensures Consistent(order[..cnt], samples[..], cnt, Next(index, len), history + [x])
    {
      hide Ascending, With, Window, Values, Permutes, PermutesBut, Consistent;
      Unfold(o, sm, cnt, index, history);
      NextSlot(o, sm, cnt, x);
      PermutesSize(o, cnt);
      cnt := cnt + 1;
      assert order[..cnt - 1] == o;
      assert forall i :: 0 <= i < cnt - 1 ==> order[i] == o[i];
      ghost var p := Place();
      ConsistentMore(o, sm, cnt - 1, history, x, p);
    }

    method UseOldSlot(ghost o: seq<nat>, ghost sm: seq<int>, x: int, ghost at: nat)
      requires len == order.Length == samples.Length == |sm| == cnt == |o| && index < len && at < cnt && o[at] == index
      requires samples[..] == sm[index := x] && Consistent(o, sm, cnt, index, history)
      requires order[..cnt - 1] == Without(o, at)
      modifies order
      ensures Consistent(order[..cnt], samples[..], cnt, Next(index, len), history + [x])
    {
      hide Ascending, With, Without, Window, Values, Permutes, PermutesBut;
      OldSlot(o, sm, cnt, at, x);
      ghost var o1 := order[..cnt - 1];
      assert forall i :: 0 <= i < cnt - 1 ==> order[i] == o1[i];
      ghost var p := Place();
      ConsistentOn(o, sm, index, history, x, at, p);
    }

    /** Closes the gap that the slot to be replaced leaves in the order. */
    method Remove() returns (ghost at: nat)
      requires len == order.Length && 0 < cnt <= len && Permutes(order[..cnt], cnt) && index < cnt
      modifies order
      ensures at < cnt && old(order[at]) == index && order[..cnt - 1] == Without(old(order[..cnt]), at)
    {
      var i := 0;
      assert index in order[..cnt];
      while i < cnt && order[i] != index
        invariant i <= cnt && index in order[i..cnt]
      {
        i := i + 1;
      }
      at := i;
      Close(i);
    }

    method Close(start: nat)
      requires start < cnt <= order.Length
      modifies order
      ensures order[..cnt - 1] == Without(old(order[..cnt]), start)
    {
      ghost var was := order[..cnt];
      var i := start;
      while i + 1 < cnt
        invariant start <= i < cnt
        invariant forall k :: 0 <= k < i ==> order[k] == was[if k < start then k else k + 1]
        invariant forall k :: i <= k < cnt ==> order[k] == was[k]
      {
        order[i] := order[i + 1];
        i := i + 1;
      }
    }

    /** Puts the slot of the new sample where it keeps the values ascending. */
    method Place() returns (ghost at: nat)
      requires len == order.Length == samples.Length && 0 < cnt <= len && index < len
      requires forall i :: 0 <= i < cnt - 1 ==> order[i] < len
      requires Ascending(Values(order[..cnt - 1], samples[..]))
      modifies order
      ensures at < cnt && order[..cnt] == With(old(order[..cnt - 1]), at, index)
      ensures forall i :: 0 <= i < cnt - 1 ==> if i < at then samples[old(order[i])] <= samples[index]
                                               else samples[old(order[i])] > samples[index]
    {
      hide Ascending, With;
      ghost var was := order[..cnt - 1];
      var i := cnt - 1;
      while i > 0 && samples[order[i - 1]] > samples[index]
        invariant 0 <= i < cnt && order[..i] == was[..i] && order[i + 1..cnt] == was[i..]
        invariant forall j :: i <= j < cnt - 1 ==> samples[was[j]] > samples[index]
      {
        order[i] := order[i - 1];
        i := i - 1;
      }
      order[i] := index;
      at := i;
      Below(was, samples[..], i, samples[index]);
      WithParts(was, i, index, order[..cnt]);
    }
  }

  /** A new filter, if its length is at least one. */
  method Create(length: int) returns (m: Mmedian?)
    ensures m == null <==> length < 1
    ensures m != null ==> fresh(m) && m.Valid() && m.len == length && m.history == []
  {
    if length < 1 {
      return null;
    }
    m := new Mmedian(length);
  }

  /** A slot not used yet, for a new sample. */
  lemma NextSlot(order: seq<nat>, samples: seq<int>, n: nat, x: int)
    requires Permutes(order, n) && n < |samples| && Ascending(Values(order, samples))
    ensures PermutesBut(order, n + 1, n) && (forall i :: 0 <= i < |order| ==> order[i] < |samples|)
    ensures Ascending(Values(order, samples[n := x])) && Values(order, samples[n := x]) == Values(order, samples)
  {
    ValuesKept(order, samples, n, x);
  }

  /** The slot of the oldest sample, for a new one. */
  lemma OldSlot(order: seq<nat>, samples: seq<int>, n: nat, at: nat, x: int)
    requires Permutes(order, n) && n == |samples| && at < n && Ascending(Values(order, samples))
    ensures var o := Without(order, at);
            && PermutesBut(o, n, order[at]) && (forall i :: 0 <= i < |o| ==> o[i] < |samples|)
            && Ascending(Values(o, samples[order[at] := x]))
            && multiset(Values(o, samples[order[at] := x])) + multiset{samples[order[at]]}
               == multiset(Values(order, samples))
  {
    PermutesDrop(order, n, at);
    DropSlot(order, samples, at);
    ValuesKept(Without(order, at), samples, order[at], x);
  }

  /** Any way of ordering the samples in the buffer has the same middle. */
  lemma MedianIs(order: seq<nat>, samples: seq<int>, cnt: nat, index: nat, history: seq<int>)
    requires Consistent(order, samples, cnt, index, history) && cnt > 0
    ensures forall s :: Ascending(s) && multiset(s) == multiset(history[|history| - cnt..]) ==>
      s != [] && Middle(s) == Middle(Values(order, samples))
  {
    hide Middle, Ascending, Window;
    forall s | Ascending(s) && multiset(s) == multiset(history[|history| - cnt..])
      ensures s == Values(order, samples)
    {
      AscendingUnique(s, Values(order, samples));
    }
  }

  lemma MiddleIs(order: seq<nat>, samples: seq<int>)
    requires order != [] && forall i :: 0 <= i < |order| ==> order[i] < |samples|
    ensures var m := |order| / 2;
            Middle(Values(order, samples)) == if |order| % 2 == 1 then samples[order[m]]
                                              else Quotient(samples[order[m - 1]] + samples[order[m]], 2)
  {
  }

  lemma Below(order: seq<nat>, samples: seq<int>, i: nat, x: int)
    requires i <= |order| && (forall j :: 0 <= j < |order| ==> order[j] < |samples|)
    requires Ascending(Values(order, samples)) && (i > 0 ==> samples[order[i - 1]] <= x)
    ensures forall j :: 0 <= j < i ==> samples[order[j]] <= x
  {
    forall j | 0 <= j < i
      ensures samples[order[j]] <= x
    {
      assert Values(order, samples)[j] <= Values(order, samples)[i - 1];
    }
  }

  lemma WithParts(s: seq<nat>, i: nat, x: nat, t: seq<nat>)
    requires i <= |s| && |t| == |s| + 1 && t[..i] == s[..i] && t[i] == x && t[i + 1..] == s[i..]
    ensures t == With(s, i, x)
  {
    assert t == t[..i] + [t[i]] + t[i + 1..];
  }
}
