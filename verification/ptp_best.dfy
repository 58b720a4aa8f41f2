/** Folding a comparison over candidates: the best one, whatever the order. */
module PtpBest {
  import opened Options
  import opened PtpDataset

  /** The candidate a left-to-right pass ends with: a later one replaces the best so far only when it is better. */
  function BestOf(c: Comparison, host: Host, cands: seq<Option<Dataset>>, n: nat): (b: Option<nat>)
    requires n <= |cands|
    ensures b.Some? ==> b.value < n && cands[b.value].Some?
  {
    if n == 0 then None
    else
      var b := BestOf(c, host, cands, n - 1);
      if cands[n - 1].None? then b
      else if b.None? || Cmp(c, host, cands[n - 1].value, cands[b.value].value) > 0 then Some(n - 1)
      else b
  }

  /** There is no best one only when there is none at all. */
  lemma {:induction false} BestOfNone(c: Comparison, host: Host, cands: seq<Option<Dataset>>, n: nat)
    requires n <= |cands|
    ensures BestOf(c, host, cands, n).None? <==> forall i :: 0 <= i < n ==> cands[i].None?
  {
    if n > 0 {
      BestOfNone(c, host, cands, n - 1);
    }
  }

  lemma BestOfStep(c: Comparison, host: Host, cands: seq<Option<Dataset>>, n: nat)
    requires n < |cands|
    ensures var b := BestOf(c, host, cands, n);
      BestOf(c, host, cands, n + 1) ==
        if cands[n].Some? && (b.None? || Cmp(c, host, cands[n].value, cands[b.value].value) > 0) then Some(n) else b
    ensures BestOf(c, host, cands, 0) == None
  {
  }

  ghost predicate AllComparable(c: Comparison, host: Host, cands: seq<Option<Dataset>>) {
    forall i, j :: 0 <= i < |cands| && 0 <= j < |cands| && cands[i].Some? && cands[j].Some? ==>
      Comparable(c, host, cands[i].value, cands[j].value)
  }

  /** No two candidates came from the same sender on the same port. */
  ghost predicate DistinctSources(cands: seq<Option<Dataset>>) {
    forall i, j :: 0 <= i < j < |cands| && cands[i].Some? && cands[j].Some? ==>
      cands[i].value.sender != cands[j].value.sender
      || cands[i].value.receiver.portNumber != cands[j].value.receiver.portNumber
  }

  /** The result of the pass is at least as good as every candidate. */
  lemma {:induction false} BestOfIsBest(c: Comparison, host: Host, cands: seq<Option<Dataset>>, n: nat, i: nat)
    requires n <= |cands| && AllComparable(c, host, cands) && i < n && cands[i].Some?
    ensures var b := BestOf(c, host, cands, n);
      b.Some? && Cmp(c, host, cands[b.value].value, cands[i].value) >= 0
  {
    hide Cmp, Comparable;
    var b := BestOf(c, host, cands, n - 1);
    if i == n - 1 {
      CmpAntisymmetric(c, host, cands[i].value, cands[i].value);
      if b.Some? {
        CmpAntisymmetric(c, host, cands[b.value].value, cands[i].value);
      }
    } else {
      BestOfIsBest(c, host, cands, n - 1, i);
      var b' := BestOf(c, host, cands, n);
      if b' != b {
        CmpTransitive(c, host, cands[b'.value].value, cands[b.value].value, cands[i].value);
      }
    }
  }

  /** It is the only one: it beats every other candidate. */
  lemma BestOfBeatsAll(c: Comparison, host: Host, cands: seq<Option<Dataset>>, i: nat)
    requires AllComparable(c, host, cands) && DistinctSources(cands) && i < |cands| && cands[i].Some?
    ensures var b := BestOf(c, host, cands, |cands|);
      b.Some? && (i != b.value ==> Cmp(c, host, cands[b.value].value, cands[i].value) > 0)
  {
    hide Cmp, Comparable;
    BestOfIsBest(c, host, cands, |cands|, i);
    var b := BestOf(c, host, cands, |cands|).value;
    assert Comparable(c, host, cands[b].value, cands[i].value);
    if i != b && Cmp(c, host, cands[b].value, cands[i].value) == 0 {
      CmpTie(c, host, cands[b].value, cands[i].value);
    }
  }

  /** A candidate that beats every other is found, whatever else holds of the comparison. */
  lemma {:induction false} BestOfFinds(c: Comparison, host: Host, cands: seq<Option<Dataset>>, n: nat, i: nat)
    requires i < n <= |cands| && cands[i].Some?
    requires forall j :: 0 <= j < n && j != i && cands[j].Some? ==> Cmp(c, host, cands[i].value, cands[j].value) > 0
    ensures BestOf(c, host, cands, n) == Some(i)
  {
    hide Cmp;
    if i < n - 1 {
      BestOfFinds(c, host, cands, n - 1, i);
      if cands[n - 1].Some? {
        CmpAntisymmetric(c, host, cands[i].value, cands[n - 1].value);
      }
    }
  }

  /** One grandmaster described in two ways, the better way by the longer route: three candidates of one port, from
      three other clocks, each better than the next.  The pass ends with the last of them, although the second is
      better. */
  lemma DiscordCircle(host: Host, me: ClockIdentity) returns (x: Dataset, y: Dataset, z: Dataset)
    ensures x.receiver == y.receiver == z.receiver && x.receiver.clockIdentity == me
    ensures var i, j, k := x.sender.clockIdentity, y.sender.clockIdentity, z.sender.clockIdentity;
      me !in {i, j, k} && i != j && j != k && k != i
    ensures !Harmonious(host, x, z) && Harmonious(host, x, y) && Harmonious(host, y, z)
    ensures Cmp(Ieee1588, host, x, y) > 0 && Cmp(Ieee1588, host, y, z) > 0 && Cmp(Ieee1588, host, z, x) > 0
    ensures BestOf(Ieee1588, host, [Some(x), Some(y), Some(z)], 3) == Some(2)
  {
    var i, j, k := OtherClock(me, 0), OtherClock(me, 1), OtherClock(me, 2);
    var g: ClockIdentity := [1, 0, 0, 0, 0, 0, 0, 0];
    var port, quality := PortIdentity(me, 1), ClockQuality(248, 0, 0);
    x := Dataset(100, g, quality, 128, 128, 5, PortIdentity(i, 1), port);
    z := Dataset(120, g, quality, 128, 128, 1, PortIdentity(k, 1), port);
    y := DiscordBreaks(host, x, z, 1, PortIdentity(j, 1), port);
    MemcmpAntisymmetric(g, g);
    LastOfThree(Ieee1588, host, x, y, z);
  }

  lemma LastOfThree(c: Comparison, host: Host, x: Dataset, y: Dataset, z: Dataset)
    requires Cmp(c, host, x, y) > 0 && Cmp(c, host, z, x) > 0
    ensures BestOf(c, host, [Some(x), Some(y), Some(z)], 3) == Some(2)
  {
    hide Cmp, BestOf;
    var cands := [Some(x), Some(y), Some(z)];
    CmpAntisymmetric(c, host, x, y);
    BestOfStep(c, host, cands, 0);
    BestOfStep(c, host, cands, 1);
    BestOfStep(c, host, cands, 2);
  }

  /** Three clocks that are not this one, all different. */
  function OtherClock(me: ClockIdentity, n: Byte): (id: ClockIdentity)
    requires n < 3
    ensures id != me && id[7] == n
  {
    [if me[0] == 0 then 1 else 0, 0, 0, 0, 0, 0, 0, n]
  }

  /** The winners of several lists, as candidates of an outer pass. */
  function Winners(c: Comparison, host: Host, lists: seq<seq<Option<Dataset>>>): (w: seq<Option<Dataset>>)
    ensures |w| == |lists|
  {
    seq(|lists|, k requires 0 <= k < |lists| =>
      var b := BestOf(c, host, lists[k], |lists[k]|); if b.None? then None else lists[k][b.value])
  }

  /** A candidate in one of several lists. */
  predicate Offers(lists: seq<seq<Option<Dataset>>>, k: nat, i: nat) {
    k < |lists| && i < |lists[k]| && lists[k][i].Some?
  }

  ghost predicate AllListsComparable(c: Comparison, host: Host, lists: seq<seq<Option<Dataset>>>) {
    forall k: nat, l: nat, i: nat, j: nat :: Offers(lists, k, i) && Offers(lists, l, j) ==>
      Comparable(c, host, lists[k][i].value, lists[l][j].value)
  }

  /** No two candidates in the lists came from the same sender on the same port. */
  ghost predicate AllListsDistinct(lists: seq<seq<Option<Dataset>>>) {
    forall k: nat, l: nat, i: nat, j: nat :: Offers(lists, k, i) && Offers(lists, l, j) && (k != l || i != j) ==>
      lists[k][i].value.sender != lists[l][j].value.sender
      || lists[k][i].value.receiver.portNumber != lists[l][j].value.receiver.portNumber
  }

  /** The nested pass, over ports and over the foreign masters of each: the list it chooses, and the place in it. */
  function NestedBest(c: Comparison, host: Host, lists: seq<seq<Option<Dataset>>>): (b: Option<(nat, nat)>)
    ensures b.Some? ==> Offers(lists, b.value.0, b.value.1)
  {
    var w := Winners(c, host, lists);
    var b := BestOf(c, host, w, |w|);
    if b.None? then None else Some((b.value, BestOf(c, host, lists[b.value], |lists[b.value]|).value))
  }

  /** What it chooses is at least as good as every candidate. */
  lemma NestedIsBest(c: Comparison, host: Host, lists: seq<seq<Option<Dataset>>>, k: nat, i: nat)
    requires AllListsComparable(c, host, lists) && Offers(lists, k, i)
    ensures var b := NestedBest(c, host, lists);
      b.Some? && Cmp(c, host, lists[b.value.0][b.value.1].value, lists[k][i].value) >= 0
  {
    hide Cmp, Comparable;
    var w := Winners(c, host, lists);
    ListComparable(c, host, lists, k);
    BestOfIsBest(c, host, lists[k], |lists[k]|, i);
    WinnersComparable(c, host, lists);
    BestOfIsBest(c, host, w, |w|, k);
    var b := BestOf(c, host, w, |w|).value;
    var m := BestOf(c, host, lists[b], |lists[b]|).value;
    var j := BestOf(c, host, lists[k], |lists[k]|).value;
    assert Offers(lists, b, m) && Offers(lists, k, j) && w[b] == lists[b][m] && w[k] == lists[k][j];
    CmpTransitive(c, host, w[b].value, w[k].value, lists[k][i].value);
  }

  lemma ListComparable(c: Comparison, host: Host, lists: seq<seq<Option<Dataset>>>, k: nat)
    requires AllListsComparable(c, host, lists) && k < |lists|
    ensures AllComparable(c, host, lists[k])
  {
    hide Comparable;
    assert forall i: nat :: i < |lists[k]| && lists[k][i].Some? ==> Offers(lists, k, i);
  }

  lemma WinnersComparable(c: Comparison, host: Host, lists: seq<seq<Option<Dataset>>>)
    requires AllListsComparable(c, host, lists)
    ensures AllComparable(c, host, Winners(c, host, lists))
  {
    hide Comparable, BestOf;
    var w := Winners(c, host, lists);
    forall k, l | 0 <= k < |w| && 0 <= l < |w| && w[k].Some? && w[l].Some?
      ensures Comparable(c, host, w[k].value, w[l].value)
    {
      var i, j := BestOf(c, host, lists[k], |lists[k]|).value, BestOf(c, host, lists[l], |lists[l]|).value;
      assert Offers(lists, k, i) && Offers(lists, l, j);
    }
  }

  /** It is the only one: it beats every other candidate of every list. */
  lemma NestedBeatsAll(c: Comparison, host: Host, lists: seq<seq<Option<Dataset>>>, k: nat, i: nat)
    requires AllListsComparable(c, host, lists) && AllListsDistinct(lists) && Offers(lists, k, i)
    ensures var b := NestedBest(c, host, lists);
      && b.Some?
      && ((k, i) != b.value ==> Cmp(c, host, lists[b.value.0][b.value.1].value, lists[k][i].value) > 0)
  {
    hide Cmp, Comparable, NestedBest;
    NestedIsBest(c, host, lists, k, i);
    var (l, j) := NestedBest(c, host, lists).value;
    if (k, i) != (l, j) && Cmp(c, host, lists[l][j].value, lists[k][i].value) == 0 {
      assert Comparable(c, host, lists[l][j].value, lists[k][i].value);
      CmpTie(c, host, lists[l][j].value, lists[k][i].value);
    }
  }

  /** Whether a data set is a candidate in one of several lists. */
  ghost predicate Offered(lists: seq<seq<Option<Dataset>>>, d: Dataset) {
    exists k: nat, i: nat :: Offers(lists, k, i) && lists[k][i].value == d
  }

  /** Neither the order of the lists nor that of the candidates in them makes a difference: the same candidates, however
      arranged, have the same winner. */
  lemma NestedOrderIndependent(c: Comparison, host: Host, s: seq<seq<Option<Dataset>>>, t: seq<seq<Option<Dataset>>>)
    requires AllListsComparable(c, host, s) && AllListsDistinct(s)
    requires AllListsComparable(c, host, t) && AllListsDistinct(t)
    requires forall d :: Offered(s, d) <==> Offered(t, d)
    ensures var b, d := NestedBest(c, host, s), NestedBest(c, host, t);
      (b.None? <==> d.None?) && (b.Some? ==> s[b.value.0][b.value.1] == t[d.value.0][d.value.1])
  {
    hide Cmp, Comparable, NestedBest;
    var b, d := NestedBest(c, host, s), NestedBest(c, host, t);
    if b.Some? {
      var x := s[b.value.0][b.value.1].value;
      assert Offered(s, x) && Offered(t, x);
      var l: nat, j: nat :| Offers(t, l, j) && t[l][j].value == x;
      NestedBeatsAll(c, host, t, l, j);
    }
    if d.Some? {
      var y := t[d.value.0][d.value.1].value;
      assert Offered(t, y) && Offered(s, y);
      var k: nat, i: nat :| Offers(s, k, i) && s[k][i].value == y;
      NestedBeatsAll(c, host, s, k, i);
      var x := s[b.value.0][b.value.1].value;
      CmpAntisymmetric(c, host, x, y);
    }
  }

  /** One candidate beats every other of every list. */
  ghost predicate Beats(c: Comparison, host: Host, lists: seq<seq<Option<Dataset>>>, k: nat, i: nat) {
    && Offers(lists, k, i)
    && forall l: nat, j: nat :: Offers(lists, l, j) && (l, j) != (k, i) ==>
      Cmp(c, host, lists[k][i].value, lists[l][j].value) > 0
  }

  /** The nested pass finds such a candidate if there is one, whatever else holds of the comparison. */
  lemma NestedFinds(c: Comparison, host: Host, lists: seq<seq<Option<Dataset>>>, k: nat, i: nat)
    requires Beats(c, host, lists, k, i)
    ensures NestedBest(c, host, lists) == Some((k, i))
  {
    hide Cmp, BestOf;
    assert forall j: nat :: j < |lists[k]| && lists[k][j].Some? ==> Offers(lists, k, j);
    BestOfFinds(c, host, lists[k], |lists[k]|, i);
    var w := Winners(c, host, lists);
    forall l | 0 <= l < |w| && l != k && w[l].Some?
      ensures Cmp(c, host, w[k].value, w[l].value) > 0
    {
      var j := BestOf(c, host, lists[l], |lists[l]|).value;
      assert Offers(lists, l, j) && w[l] == lists[l][j];
    }
    BestOfFinds(c, host, w, |w|, k);
  }

  /** Exactly when the chosen candidate beats all others: when some candidate does. */
  lemma NestedBeatsIff(c: Comparison, host: Host, lists: seq<seq<Option<Dataset>>>)
    ensures var b := NestedBest(c, host, lists);
      (b.Some? && Beats(c, host, lists, b.value.0, b.value.1)) <==> exists k, i :: Beats(c, host, lists, k, i)
  {
    hide NestedBest, Beats;
    if k: nat, i: nat :| Beats(c, host, lists, k, i) {
      NestedFinds(c, host, lists, k, i);
    }
  }

  /** If the candidates are comparable and came apart, one does. */
  lemma ComparableBeats(c: Comparison, host: Host, lists: seq<seq<Option<Dataset>>>)
    requires AllListsComparable(c, host, lists) && AllListsDistinct(lists)
    requires exists k: nat, i: nat :: Offers(lists, k, i)
    ensures exists k, i :: Beats(c, host, lists, k, i)
  {
    hide NestedBest, Cmp, AllListsComparable, AllListsDistinct;
    var k: nat, i: nat :| Offers(lists, k, i);
    NestedBeatsAll(c, host, lists, k, i);
    var (l, j) := NestedBest(c, host, lists).value;
    forall m: nat, n: nat | Offers(lists, m, n) && (m, n) != (l, j)
      ensures Cmp(c, host, lists[l][j].value, lists[m][n].value) > 0
    {
      NestedBeatsAll(c, host, lists, m, n);
    }
    assert Beats(c, host, lists, l, j);
  }
}
