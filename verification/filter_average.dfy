/** The moving average of time values, kept with a running sum. */
module FilterAverage {
  import opened FilterMedian

  function Sum(s: seq<int>): int {
    if s == [] then 0 else Sum(s[..|s| - 1]) + s[|s| - 1]
  }

  lemma {:induction false} SumConcat(a: seq<int>, b: seq<int>)
    ensures Sum(a + b) == Sum(a) + Sum(b)
  {
    if b == [] {
      assert a + b == a;
    } else {
      var t := a + b;
      assert t[..|t| - 1] == a + b[..|b| - 1];
      SumConcat(a, b[..|b| - 1]);
    }
  }

  lemma SumOne(x: int)
    ensures Sum([x]) == x
  {
    assert [x][..0] == [];
  }

  /** The buffer holds the last values, the unused part of it zeros, and the sum is theirs. */
  ghost predicate Summed(val: seq<int>, cnt: nat, index: nat, sum: int, history: seq<int>) {
    && cnt <= |val| && index < |val| && (cnt < |val| ==> index == cnt)
    && cnt == (if |history| < |val| then |history| else |val|)
    && history[|history| - cnt..] == Window(val, cnt, index)
    && (forall i :: cnt <= i < |val| ==> val[i] == 0)
    && sum == Sum(history[|history| - cnt..])
  }

  lemma UnfoldSummed(val: seq<int>, cnt: nat, index: nat, sum: int, history: seq<int>)
    requires Summed(val, cnt, index, sum, history)
    ensures cnt <= |val| && cnt <= |history| && index < |val|
    ensures cnt == if |history| < |val| then |history| else |val|
    ensures sum == Sum(history[|history| - cnt..])
  {
  }

  /** Taking the old value out of the sum and the new one in. */
  lemma SummedOn(val: seq<int>, cnt: nat, index: nat, sum: int, history: seq<int>, x: int)
    requires Summed(val, cnt, index, sum, history)
    ensures Summed(val[index := x], if cnt < |val| then cnt + 1 else cnt, Next(index, |val|), sum - val[index] + x,
                   history + [x])
  {
    hide Window, Next, Sum;
    var last := history[|history| - cnt..];
    if cnt < |val| {
      WindowMore(val, cnt, x);
      LastMore(history, cnt, x);
      SumMore(last, x);
    } else {
      RingMoves(val, index, x);
      LastOn(history, cnt, x, last);
      SumOn(last, x);
    }
  }

  lemma RingMoves(val: seq<int>, index: nat, x: int)
    requires index < |val|
    ensures Window(val, |val|, index)[0] == val[index]
    ensures Window(val[index := x], |val|, Next(index, |val|)) == Window(val, |val|, index)[1..] + [x]
  {
    hide Rotated, Next;
    WindowMoves(val, index, x);
  }

  lemma SumMore(s: seq<int>, x: int)
    ensures Sum(s + [x]) == Sum(s) + x
  {
    SumOne(x);
    SumConcat(s, [x]);
  }

  lemma SumOn(s: seq<int>, x: int)
    requires s != []
    ensures Sum(s[1..] + [x]) == Sum(s) - s[0] + x
  {
    assert s == [s[0]] + s[1..];
    SumConcat([s[0]], s[1..]);
    SumOne(s[0]);
    SumMore(s[1..], x);
  }

  class Mave {
    const len: nat
    var cnt: nat
    var index: nat
    var sum: int
    const val: array<int>
    /** The values since the last reset. */
    ghost var history: seq<int>

    constructor (length: nat)
      requires length >= 1
      ensures len == length && Valid() && fresh(val) && history == []
    {
      len, cnt, index, sum, history := length, 0, 0, 0, [];
      val := new int[length](_ => 0);
    }

    ghost predicate Valid()
      reads this, val
    {
      len == val.Length && len > 0 && Summed(val[..], cnt, index, sum, history)
    }

    /** Takes in a value, and answers the mean of the values in the buffer: the last `len`, or all since the last reset
        if there are fewer. */
    method Accumulate(x: int) returns (r: int)
      requires Valid()
      modifies this, val
      ensures Valid() && history == old(history) + [x]
      ensures 0 < cnt == if |history| < len then |history| else len
      ensures r == Quotient(Sum(history[|history| - cnt..]), cnt)
    {
      hide Window, Next, Sum, Summed, Quotient;
      ghost var was := val[..];
      UnfoldSummed(was, cnt, index, sum, history);
      SummedOn(was, cnt, index, sum, history, x);
      sum := sum - val[index];
      val[index] := x;
      assert val[..] == was[index := x];
      index := Next(index, len);
      sum := sum + x;
      if cnt < len {
        cnt := cnt + 1;
      }
      history := history + [x];
      UnfoldSummed(val[..], cnt, index, sum, history);
      r := Quotient(sum, cnt);
    }

    method Reset()
      requires Valid()
      modifies this, val
      ensures Valid() && history == []
    {
      cnt, index, sum, history := 0, 0, 0, [];
      for i := 0 to len
        invariant forall j :: 0 <= j < i ==> val[j] == 0
        invariant cnt == index == sum == 0 && history == []
      {
        val[i] := 0;
      }
    }
  }
}
