/** Data sets and their comparison: the default algorithm and the telecom profile's. */
module PtpDataset {
  import opened Options

  type Byte = x: int | 0 <= x < 0x100

  type UInt16 = x: int | 0 <= x < 0x1_0000

  /** The order in which the host stores a two-byte integer. */
  datatype Host = LittleEndian | BigEndian

  type ClockIdentity = s: seq<Byte> | |s| == 8 witness [0, 0, 0, 0, 0, 0, 0, 0]

  datatype PortIdentity = PortIdentity(clockIdentity: ClockIdentity, portNumber: UInt16)

  datatype ClockQuality = ClockQuality(clockClass: Byte, clockAccuracy: Byte, offsetScaledLogVariance: UInt16)

  datatype Dataset = Dataset(
    priority1: Byte, identity: ClockIdentity, quality: ClockQuality, priority2: Byte, localPriority: Byte,
    stepsRemoved: UInt16, sender: PortIdentity, receiver: PortIdentity)

  const A_BETTER_TOPO := 2
  const A_BETTER := 1
  const B_BETTER := -1
  const B_BETTER_TOPO := -2

  /** Compare two stretches of memory of the same length: the first differing byte decides. */
  function Memcmp(a: seq<Byte>, b: seq<Byte>): int
    requires |a| == |b|
  {
    if a == [] then 0
    else if a[0] < b[0] then -1
    else if a[0] > b[0] then 1
    else Memcmp(a[1..], b[1..])
  }

  /** The bytes of a two-byte integer in the host's memory. */
  function Bytes16(host: Host, n: UInt16): (s: seq<Byte>)
    ensures |s| == 2
  {
    if host.LittleEndian? then [n % 0x100, n / 0x100] else [n / 0x100, n % 0x100]
  }

  /** A port identity as it lies in memory. */
  function PidBytes(host: Host, p: PortIdentity): (s: seq<Byte>)
    ensures |s| == 10
  {
    p.clockIdentity + Bytes16(host, p.portNumber)
  }

  function PidCmp(host: Host, p: PortIdentity, q: PortIdentity): int {
    Memcmp(PidBytes(host, p), PidBytes(host, q))
  }

  /** The second part of the comparison: topology. */
  function Dscmp2(host: Host, a: Dataset, b: Dataset): int {
    if a.stepsRemoved + 1 < b.stepsRemoved then A_BETTER
    else if b.stepsRemoved + 1 < a.stepsRemoved then B_BETTER
    else if a.stepsRemoved < b.stepsRemoved then
      var diff := PidCmp(host, b.receiver, b.sender);
      if diff < 0 then A_BETTER else if diff > 0 then A_BETTER_TOPO else 0
    else if a.stepsRemoved > b.stepsRemoved then
      var diff := PidCmp(host, a.receiver, a.sender);
      if diff < 0 then B_BETTER else if diff > 0 then B_BETTER_TOPO else 0
    else
      var diff := PidCmp(host, a.sender, b.sender);
      if diff < 0 then A_BETTER_TOPO
      else if diff > 0 then B_BETTER_TOPO
      else if a.receiver.portNumber < b.receiver.portNumber then A_BETTER_TOPO
      else if a.receiver.portNumber > b.receiver.portNumber then B_BETTER_TOPO
      else 0
  }

  /** The IEEE 1588 comparison of two data sets that are present. */
  function DscmpSome(host: Host, a: Dataset, b: Dataset): int {
    var diff := Memcmp(a.identity, b.identity);
    if diff == 0 then Dscmp2(host, a, b)
    else if a.priority1 < b.priority1 then A_BETTER
    else if a.priority1 > b.priority1 then B_BETTER
    else if a.quality.clockClass < b.quality.clockClass then A_BETTER
    else if a.quality.clockClass > b.quality.clockClass then B_BETTER
    else if a.quality.clockAccuracy < b.quality.clockAccuracy then A_BETTER
    else if a.quality.clockAccuracy > b.quality.clockAccuracy then B_BETTER
    else if a.quality.offsetScaledLogVariance < b.quality.offsetScaledLogVariance then A_BETTER
    else if a.quality.offsetScaledLogVariance > b.quality.offsetScaledLogVariance then B_BETTER
    else if a.priority2 < b.priority2 then A_BETTER
    else if a.priority2 > b.priority2 then B_BETTER
    else if diff < 0 then A_BETTER else B_BETTER
  }

  /** The telecom profile's comparison of two data sets that are present. */
  function TelecomSome(host: Host, a: Dataset, b: Dataset): int {
    if a.quality.clockClass < b.quality.clockClass then A_BETTER
    else if a.quality.clockClass > b.quality.clockClass then B_BETTER
    else if a.quality.clockAccuracy < b.quality.clockAccuracy then A_BETTER
    else if a.quality.clockAccuracy > b.quality.clockAccuracy then B_BETTER
    else if a.quality.offsetScaledLogVariance < b.quality.offsetScaledLogVariance then A_BETTER
    else if a.quality.offsetScaledLogVariance > b.quality.offsetScaledLogVariance then B_BETTER
    else if a.priority2 < b.priority2 then A_BETTER
    else if a.priority2 > b.priority2 then B_BETTER
    else if a.localPriority < b.localPriority then A_BETTER
    else if a.localPriority > b.localPriority then B_BETTER
    else if a.quality.clockClass <= 127 then Dscmp2(host, a, b)
    else
      var diff := Memcmp(a.identity, b.identity);
      if diff == 0 then Dscmp2(host, a, b)
      else if diff < 0 then A_BETTER else B_BETTER
  }

  /** Which of the two comparisons a clock is configured with. */
  datatype Comparison = Ieee1588 | G8275

  function Cmp(c: Comparison, host: Host, a: Dataset, b: Dataset): int {
    match c
    case Ieee1588 => DscmpSome(host, a, b)
    case G8275 => TelecomSome(host, a, b)
  }

  /** Either comparison, with data sets that may be absent. */
  function Dscmp(c: Comparison, host: Host, a: Option<Dataset>, b: Option<Dataset>): int {
    match (a, b)
    case (None, None) => 0
    case (Some(_), None) => A_BETTER
    case (None, Some(_)) => B_BETTER
    case (Some(x), Some(y)) => Cmp(c, host, x, y)
  }

  // ---- memcmp is a total order ----

  lemma {:induction false} MemcmpAntisymmetric(a: seq<Byte>, b: seq<Byte>)
    requires |a| == |b|
    ensures Memcmp(b, a) == -Memcmp(a, b) && (Memcmp(a, b) == 0 <==> a == b)
  {
    if a != [] {
      MemcmpAntisymmetric(a[1..], b[1..]);
      assert a == [a[0]] + a[1..] && b == [b[0]] + b[1..];
    }
  }

  /** The first byte that differs decides: the memory with the lower one comes first. */
  lemma {:induction false} MemcmpDecides(a: seq<Byte>, b: seq<Byte>, k: nat)
    requires k < |a| == |b| && a[..k] == b[..k] && a[k] != b[k]
    ensures Memcmp(a, b) < 0 <==> a[k] < b[k]
    ensures Memcmp(a, b) > 0 <==> a[k] > b[k]
  {
    if k > 0 {
      assert a[0] == a[..k][0] == b[..k][0] == b[0];
      assert a[1..][..k - 1] == a[..k][1..] == b[..k][1..] == b[1..][..k - 1];
      MemcmpDecides(a[1..], b[1..], k - 1);
    }
  }

  lemma {:induction false} MemcmpTransitive(a: seq<Byte>, b: seq<Byte>, c: seq<Byte>)
    requires |a| == |b| == |c| && Memcmp(a, b) <= 0 && Memcmp(b, c) <= 0
    ensures Memcmp(a, c) <= 0
    ensures Memcmp(a, b) < 0 || Memcmp(b, c) < 0 ==> Memcmp(a, c) < 0
  {
    if a != [] && a[0] == b[0] == c[0] {
      MemcmpTransitive(a[1..], b[1..], c[1..]);
    }
  }

  lemma PidCmpOrder(host: Host, p: PortIdentity, q: PortIdentity)
    ensures PidCmp(host, q, p) == -PidCmp(host, p, q) && (PidCmp(host, p, q) == 0 <==> p == q)
  {
    var x, y := PidBytes(host, p), PidBytes(host, q);
    MemcmpAntisymmetric(x, y);
    if x == y {
      assert x[..8] == p.clockIdentity && y[..8] == q.clockIdentity;
      assert x[8..] == Bytes16(host, p.portNumber) && y[8..] == Bytes16(host, q.portNumber);
      assert x[8..][0] == y[8..][0] && x[8..][1] == y[8..][1];
    }
  }

  lemma PidCmpTransitive(host: Host, p: PortIdentity, q: PortIdentity, r: PortIdentity)
    requires PidCmp(host, p, q) <= 0 && PidCmp(host, q, r) <= 0
    ensures PidCmp(host, p, r) <= 0
    ensures PidCmp(host, p, q) < 0 || PidCmp(host, q, r) < 0 ==> PidCmp(host, p, r) < 0
  {
    MemcmpTransitive(PidBytes(host, p), PidBytes(host, q), PidBytes(host, r));
  }

  // ---- the comparisons are total preorders, on data sets that make sense ----

  /** A data set that did not start here came from somewhere else. */
  predicate Travelled(d: Dataset) {
    d.stepsRemoved > 0 ==> d.sender != d.receiver
  }

  /** Compares what two grandmasters advertise, leaving their identities aside. */
  function Attributes(a: Dataset, b: Dataset): int {
    if a.priority1 != b.priority1 then b.priority1 - a.priority1
    else if a.quality.clockClass != b.quality.clockClass then b.quality.clockClass - a.quality.clockClass
    else if a.quality.clockAccuracy != b.quality.clockAccuracy then b.quality.clockAccuracy - a.quality.clockAccuracy
    else if a.quality.offsetScaledLogVariance != b.quality.offsetScaledLogVariance then
      b.quality.offsetScaledLogVariance - a.quality.offsetScaledLogVariance
    else b.priority2 - a.priority2
  }

  /** One data set came a better way than another: over fewer steps, else from a lower sender, else on a lower port. */
  predicate Nearer(host: Host, a: Dataset, b: Dataset) {
    || a.stepsRemoved < b.stepsRemoved
    || (a.stepsRemoved == b.stepsRemoved && PidCmp(host, a.sender, b.sender) < 0)
    || (a.stepsRemoved == b.stepsRemoved && a.sender == b.sender && a.receiver.portNumber < b.receiver.portNumber)
  }

  /** If two data sets describe one grandmaster differently, the better description came the better way. */
  predicate Harmonious(host: Host, a: Dataset, b: Dataset) {
    a.identity == b.identity ==>
      && (Attributes(a, b) > 0 ==> Nearer(host, a, b))
      && (Attributes(a, b) < 0 ==> Nearer(host, b, a))
  }

  /** What makes data sets comparable: for the telecom profile, descriptions do not matter. */
  predicate Comparable(c: Comparison, host: Host, a: Dataset, b: Dataset) {
    Travelled(a) && Travelled(b) && (c.Ieee1588? ==> Harmonious(host, a, b))
  }

  lemma Dscmp2Antisymmetric(host: Host, a: Dataset, b: Dataset)
    ensures Dscmp2(host, b, a) == -Dscmp2(host, a, b)
  {
    PidCmpOrder(host, a.sender, b.sender);
  }

  /** Swapping the arguments negates the result, for every pair of data sets. */
  lemma CmpAntisymmetric(c: Comparison, host: Host, a: Dataset, b: Dataset)
    ensures Cmp(c, host, b, a) == -Cmp(c, host, a, b)
  {
    Dscmp2Antisymmetric(host, a, b);
    MemcmpAntisymmetric(a.identity, b.identity);
  }

  lemma DscmpAntisymmetric(c: Comparison, host: Host, a: Option<Dataset>, b: Option<Dataset>)
    ensures Dscmp(c, host, b, a) == -Dscmp(c, host, a, b)
  {
    if a.Some? && b.Some? {
      CmpAntisymmetric(c, host, a.value, b.value);
    }
  }

  /** The topological part ranks by steps removed, then by sender, then by receiving port. */
  lemma Dscmp2Rank(host: Host, a: Dataset, b: Dataset)
    requires Travelled(a) && Travelled(b)
    ensures Dscmp2(host, a, b) > 0 <==> Nearer(host, a, b)
    ensures Dscmp2(host, a, b) == 0 <==>
      a.stepsRemoved == b.stepsRemoved && a.sender == b.sender && a.receiver.portNumber == b.receiver.portNumber
  {
    PidCmpOrder(host, a.sender, b.sender);
    PidCmpOrder(host, a.receiver, a.sender);
    PidCmpOrder(host, b.receiver, b.sender);
  }

  lemma Dscmp2Transitive(host: Host, x: Dataset, y: Dataset, z: Dataset)
    requires Travelled(x) && Travelled(y) && Travelled(z)
    requires Dscmp2(host, x, y) >= 0 && Dscmp2(host, y, z) >= 0
    ensures Dscmp2(host, x, z) >= 0
    ensures Dscmp2(host, x, y) > 0 || Dscmp2(host, y, z) > 0 ==> Dscmp2(host, x, z) > 0
  {
    hide Dscmp2, PidCmp;
    Dscmp2Rank(host, x, y);
    Dscmp2Rank(host, y, z);
    Dscmp2Rank(host, x, z);
    PidCmpOrder(host, x.sender, y.sender);
    PidCmpOrder(host, y.sender, z.sender);
    if PidCmp(host, x.sender, y.sender) <= 0 && PidCmp(host, y.sender, z.sender) <= 0 {
      PidCmpTransitive(host, x.sender, y.sender, z.sender);
    }
  }

  /** "At least as good as" is transitive, and strictly so when either step is strict. */
  lemma CmpTransitive(c: Comparison, host: Host, x: Dataset, y: Dataset, z: Dataset)
    requires Comparable(c, host, x, y) && Comparable(c, host, y, z) && Comparable(c, host, x, z)
    requires Cmp(c, host, x, y) >= 0 && Cmp(c, host, y, z) >= 0
    ensures Cmp(c, host, x, z) >= 0
    ensures Cmp(c, host, x, y) > 0 || Cmp(c, host, y, z) > 0 ==> Cmp(c, host, x, z) > 0
  {
    hide Dscmp2, Memcmp, Nearer;
    Dscmp2Antisymmetric(host, x, z);
    Dscmp2Rank(host, x, y);
    Dscmp2Rank(host, y, z);
    Dscmp2Rank(host, x, z);
    Dscmp2Rank(host, y, x);
    Dscmp2Rank(host, z, y);
    Dscmp2Rank(host, z, x);
    Dscmp2Antisymmetric(host, x, y);
    Dscmp2Antisymmetric(host, y, z);
    if Dscmp2(host, x, y) >= 0 && Dscmp2(host, y, z) >= 0 {
      Dscmp2Transitive(host, x, y, z);
    }
    MemcmpAntisymmetric(x.identity, y.identity);
    MemcmpAntisymmetric(y.identity, z.identity);
    MemcmpAntisymmetric(x.identity, z.identity);
    if Memcmp(x.identity, y.identity) <= 0 && Memcmp(y.identity, z.identity) <= 0 {
      MemcmpTransitive(x.identity, y.identity, z.identity);
    }
  }

  /** Ties happen only between data sets received from the same sender on the same port. */
  lemma CmpTie(c: Comparison, host: Host, a: Dataset, b: Dataset)
    requires Comparable(c, host, a, b) && Cmp(c, host, a, b) == 0
    ensures a.sender == b.sender && a.receiver.portNumber == b.receiver.portNumber && a.stepsRemoved == b.stepsRemoved
  {
    Dscmp2Rank(host, a, b);
  }

  /** The default comparison, for data sets of two grandmasters: what they advertise, then their identities. */
  lemma DscmpOfTwo(host: Host, a: Dataset, b: Dataset)
    requires a.identity != b.identity
    ensures DscmpSome(host, a, b) > 0 <==>
      Attributes(a, b) > 0 || (Attributes(a, b) == 0 && Memcmp(a.identity, b.identity) < 0)
    ensures DscmpSome(host, a, b) != 0
  {
    MemcmpAntisymmetric(a.identity, b.identity);
  }

  /** What a data set advertises under either comparison, in the order in which it is compared. */
  function Advertised(c: Comparison, d: Dataset): (s: seq<int>)
    ensures |s| == 5
  {
    match c
    case Ieee1588 =>
      [d.priority1, d.quality.clockClass, d.quality.clockAccuracy, d.quality.offsetScaledLogVariance, d.priority2]
    case G8275 =>
      [d.quality.clockClass, d.quality.clockAccuracy, d.quality.offsetScaledLogVariance, d.priority2, d.localPriority]
  }

  /** `k` is the first place where two sequences differ. */
  predicate FirstApart(s: seq<int>, t: seq<int>, k: nat) {
    k < |s| == |t| && s[k] != t[k] && forall i :: 0 <= i < k ==> s[i] == t[i]
  }

  /** At the first place where two sequences differ, the first one is smaller. */
  ghost predicate Smaller(s: seq<int>, t: seq<int>) {
    exists k: nat :: FirstApart(s, t, k) && s[k] < t[k]
  }

  lemma SmallerAt(s: seq<int>, t: seq<int>, k: nat)
    requires FirstApart(s, t, k)
    ensures Smaller(s, t) <==> s[k] < t[k]
    ensures Smaller(t, s) <==> s[k] > t[k]
  {
    assert FirstApart(t, s, k);
  }

  lemma {:induction false} SomewhereApart(s: seq<int>, t: seq<int>) returns (k: nat)
    requires |s| == |t| && s != t
    ensures FirstApart(s, t, k)
  {
    k := 0;
    while s[k] == t[k]
      invariant k < |s| && forall i :: 0 <= i < k ==> s[i] == t[i]
      decreases |s| - k
    {
      k := k + 1;
      assert k == |s| ==> s == t;
    }
  }

  /** Whether the grandmasters' identities decide between data sets that advertise the same: always under the default
      comparison, but under the telecom profile's only above class 127. */
  predicate ByIdentity(c: Comparison, a: Dataset, b: Dataset) {
    a.identity != b.identity && (c.G8275? ==> a.quality.clockClass > 127)
  }

  /** Either comparison, in full.  What is advertised decides, smaller numbers first; then the grandmasters' identities;
      then the way the data sets came.  Under the default comparison data sets of one grandmaster are compared by the
      way they came alone. */
  lemma CmpRanks(c: Comparison, host: Host, a: Dataset, b: Dataset)
    ensures var s, t := Advertised(c, a), Advertised(c, b);
      Cmp(c, host, a, b) > 0 <==>
        if s != t && (c.Ieee1588? ==> a.identity != b.identity) then Smaller(s, t)
        else if ByIdentity(c, a, b) then Memcmp(a.identity, b.identity) < 0
        else Dscmp2(host, a, b) > 0
  {
    hide Dscmp2, Memcmp;
    var s, t := Advertised(c, a), Advertised(c, b);
    MemcmpAntisymmetric(a.identity, b.identity);
    if s != t {
      var k := SomewhereApart(s, t);
      SmallerAt(s, t, k);
      FiveApart(s, t, k);
    }
  }

  lemma FiveApart(s: seq<int>, t: seq<int>, k: nat)
    requires |s| == 5 && FirstApart(s, t, k)
    ensures k <= 4
    ensures k > 0 ==> s[0] == t[0]
    ensures k > 1 ==> s[1] == t[1]
    ensures k > 2 ==> s[2] == t[2]
    ensures k > 3 ==> s[3] == t[3]
  {
  }

  /** The difference in what is advertised under the default comparison. */
  lemma AttributesRank(a: Dataset, b: Dataset)
    ensures Attributes(a, b) > 0 <==> Smaller(Advertised(Ieee1588, a), Advertised(Ieee1588, b))
    ensures Attributes(a, b) == 0 <==> Advertised(Ieee1588, a) == Advertised(Ieee1588, b)
  {
    var s, t := Advertised(Ieee1588, a), Advertised(Ieee1588, b);
    assert s == t <==> s[0] == t[0] && s[1] == t[1] && s[2] == t[2] && s[3] == t[3] && s[4] == t[4];
    if s != t {
      var k := SomewhereApart(s, t);
      SmallerAt(s, t, k);
      FiveApart(s, t, k);
    }
  }

  /** So a data set that is no worse than another is not outdone by it in what is advertised. */
  lemma NotOutdone(c: Comparison, host: Host, a: Dataset, b: Dataset)
    requires Comparable(c, host, a, b) && Cmp(c, host, a, b) >= 0
    ensures !Smaller(Advertised(c, b), Advertised(c, a))
    ensures c.G8275? ==> a.quality.clockClass <= b.quality.clockClass
  {
    hide Cmp, Dscmp2, Nearer, Attributes;
    CmpRanks(c, host, b, a);
    CmpAntisymmetric(c, host, a, b);
    AttributesRank(b, a);
    AttributesAntisymmetric(a, b);
    Dscmp2Rank(host, b, a);
    if b.quality.clockClass != a.quality.clockClass {
      SmallerAt(Advertised(G8275, b), Advertised(G8275, a), 0);
    }
  }

  /** Data set `b` came a worse way than `a`: one step further to a port that is higher than its sender, or just as far
      but from a higher sender, or from the same sender to a higher port. */
  predicate WorseWay(host: Host, a: Dataset, b: Dataset) {
    || (b.stepsRemoved == a.stepsRemoved + 1 && PidCmp(host, b.receiver, b.sender) > 0)
    || (b.stepsRemoved == a.stepsRemoved && PidCmp(host, a.sender, b.sender) < 0)
    || (b.stepsRemoved == a.stepsRemoved && a.sender == b.sender && a.receiver.portNumber < b.receiver.portNumber)
  }

  /** One data set has nothing over another but the way it came. */
  predicate OnlyBetterWay(c: Comparison, host: Host, a: Dataset, b: Dataset) {
    && WorseWay(host, a, b)
    && if c.Ieee1588? then a.identity == b.identity
       else Advertised(c, a) == Advertised(c, b) && (a.identity == b.identity || a.quality.clockClass <= 127)
  }

  /** Exactly then the comparison says that topology made the difference. */
  lemma BetterByTopology(c: Comparison, host: Host, a: Dataset, b: Dataset)
    ensures Cmp(c, host, a, b) == A_BETTER_TOPO <==> OnlyBetterWay(c, host, a, b)
  {
    hide Memcmp;
    MemcmpAntisymmetric(a.identity, b.identity);
    PidCmpOrder(host, a.sender, b.sender);
    var s, t := Advertised(c, a), Advertised(c, b);
    assert s == t <==> s[0] == t[0] && s[1] == t[1] && s[2] == t[2] && s[3] == t[3] && s[4] == t[4];
  }

  /** "At least as good as" carries over from `x` to `z` by way of `y`. */
  predicate Carries(c: Comparison, host: Host, x: Dataset, y: Dataset, z: Dataset) {
    Cmp(c, host, x, y) >= 0 && Cmp(c, host, y, z) >= 0 ==>
      && Cmp(c, host, x, z) >= 0
      && (Cmp(c, host, x, y) > 0 || Cmp(c, host, y, z) > 0 ==> Cmp(c, host, x, z) > 0)
  }

  /** Between two data sets that break harmony, the better described one first, there is one of another grandmaster,
      which may have come any way: worse than the first, better than the second, although the first is not better than
      the second. */
  lemma DiscordBreaks(host: Host, x: Dataset, z: Dataset, steps: UInt16, from: PortIdentity, to: PortIdentity)
    returns (y: Dataset)
    requires Travelled(x) && Travelled(z) && !Harmonious(host, x, z) && Attributes(x, z) > 0
    ensures y.identity != x.identity && y.stepsRemoved == steps && y.sender == from && y.receiver == to
    ensures Cmp(Ieee1588, host, x, y) > 0 && Cmp(Ieee1588, host, y, z) > 0 && Cmp(Ieee1588, host, x, z) <= 0
  {
    var g := x.identity;
    MemcmpAntisymmetric(g, g);
    Dscmp2Rank(host, x, z);
    if g[0] < 255 {
      y := x.(identity := [g[0] + 1] + g[1..], stepsRemoved := steps, sender := from, receiver := to);
    } else {
      y := z.(identity := [g[0] - 1] + g[1..], stepsRemoved := steps, sender := from, receiver := to);
    }
    DscmpOfTwo(host, x, y);
    DscmpOfTwo(host, y, z);
  }

  /** Harmony is exact: two data sets that travelled are in harmony if and only if the default comparison carries over
      between them, either way, by way of every third that is in harmony with both. */
  lemma HarmonyIsExact(host: Host, x: Dataset, z: Dataset)
    requires Travelled(x) && Travelled(z)
    ensures Harmonious(host, x, z) <==>
      forall y :: Travelled(y) && Harmonious(host, x, y) && Harmonious(host, y, z) ==>
        Carries(Ieee1588, host, x, y, z) && Carries(Ieee1588, host, z, y, x)
  {
    hide Nearer, Attributes;
    AttributesAntisymmetric(x, z);
    if Harmonious(host, x, z) {
      forall y | Travelled(y) && Harmonious(host, x, y) && Harmonious(host, y, z)
        ensures Carries(Ieee1588, host, x, y, z) && Carries(Ieee1588, host, z, y, x)
      {
        HarmonySuffices(host, x, y, z);
        HarmonyBack(host, x, y);
        HarmonyBack(host, y, z);
        HarmonySuffices(host, z, y, x);
      }
    } else if Attributes(x, z) > 0 {
      var y := DiscordBreaks(host, x, z, 0, x.sender, x.receiver);
      assert Harmonious(host, x, y) && Harmonious(host, y, z) && !Carries(Ieee1588, host, x, y, z);
    } else {
      var y := DiscordBreaks(host, z, x, 0, x.sender, x.receiver);
      assert Harmonious(host, x, y) && Harmonious(host, y, z) && !Carries(Ieee1588, host, z, y, x);
    }
  }

  lemma AttributesAntisymmetric(a: Dataset, b: Dataset)
    ensures Attributes(b, a) == -Attributes(a, b)
  {
  }

  lemma HarmonyBack(host: Host, a: Dataset, b: Dataset)
    requires Harmonious(host, a, b)
    ensures Harmonious(host, b, a)
  {
    hide Nearer, Attributes;
    AttributesAntisymmetric(a, b);
  }

  lemma HarmonySuffices(host: Host, x: Dataset, y: Dataset, z: Dataset)
    requires Travelled(x) && Travelled(y) && Travelled(z)
    requires Harmonious(host, x, y) && Harmonious(host, y, z) && Harmonious(host, x, z)
    ensures Carries(Ieee1588, host, x, y, z)
  {
    hide Cmp;
    if Cmp(Ieee1588, host, x, y) >= 0 && Cmp(Ieee1588, host, y, z) >= 0 {
      CmpTransitive(Ieee1588, host, x, y, z);
    }
  }

  /** As far as the functions go, the condition on senders cannot be dropped: any data set that breaks it ties with two
      others of which one is better, under either comparison. */
  lemma TravelledIsNecessary(c: Comparison, host: Host, d: Dataset) returns (x: Dataset, y: Dataset)
    requires !Travelled(d)
    ensures Travelled(x) && Travelled(y) && Harmonious(host, x, y) && Harmonious(host, x, d) && Harmonious(host, d, y)
    ensures Cmp(c, host, x, d) == 0 && Cmp(c, host, d, y) == 0 && Cmp(c, host, x, y) > 0
  {
    var from := PortIdentity(d.sender.clockIdentity, 0);
    x := d.(stepsRemoved := d.stepsRemoved - 1, sender := from, receiver := from.(portNumber := 1));
    y := x.(receiver := from.(portNumber := 2));
    PidCmpOrder(host, d.receiver, d.sender);
    PidCmpOrder(host, from, from);
    MemcmpAntisymmetric(d.identity, d.identity);
  }
}
