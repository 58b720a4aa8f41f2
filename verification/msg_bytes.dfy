/** Integers in a packed message: the order of their bytes in the host's memory, and on the network. */
module MsgBytes {
  import opened PtpDataset

  type Bytes = seq<Byte>

  /** A field: its offset and its width. */
  datatype Field = Field(at: nat, width: nat)

  predicate Within(f: Field, lo: nat, hi: nat) {
    lo <= f.at && f.at + f.width <= hi
  }

  /** The fields lie between `lo` and `hi`, one behind the other. */
  predicate Ordered(fs: seq<Field>, lo: nat, hi: nat) {
    if fs == [] then lo <= hi
    else lo <= fs[0].at && Ordered(fs[1..], fs[0].at + fs[0].width, hi)
  }

  /** The bytes of one field the other way round. */
  function Flip(b: Bytes, f: Field): Bytes
    requires Within(f, 0, |b|)
  {
    seq(|b|, k requires 0 <= k < |b| => if f.at <= k < f.at + f.width then b[2 * f.at + f.width - 1 - k] else b[k])
  }

  /** Conversion between host order and network order, either way: a little-endian host turns the bytes round. */
  function Convert(h: Host, b: Bytes, f: Field): (r: Bytes)
    requires Within(f, 0, |b|)
    ensures |r| == |b|
  {
    if h.LittleEndian? then Flip(b, f) else b
  }

  /** The byte that byte `k` changes places with when all the fields are turned round. */
  function Mirror(fs: seq<Field>, k: nat): nat {
    if fs == [] then k
    else if fs[0].at <= k < fs[0].at + fs[0].width then 2 * fs[0].at + fs[0].width - 1 - k
    else Mirror(fs[1..], k)
  }

  /** Turning fields round moves no byte out of their region, and doing it twice moves none at all. */
  lemma {:induction false} MirrorStays(fs: seq<Field>, lo: nat, hi: nat, k: nat)
    requires Ordered(fs, lo, hi)
    ensures lo <= hi && Mirror(fs, Mirror(fs, k)) == k
    ensures lo <= k < hi ==> lo <= Mirror(fs, k) < hi
    ensures !(lo <= k < hi) ==> Mirror(fs, k) == k
  {
    if fs != [] {
      MirrorStays(fs[1..], fs[0].at + fs[0].width, hi, k);
    }
  }

  /** Conversion of several fields. */
  function ConvertAll(h: Host, b: Bytes, fs: seq<Field>): (r: Bytes)
    requires Ordered(fs, 0, |b|)
    ensures |r| == |b|
  {
    assert forall k :: 0 <= k < |b| ==> Mirror(fs, k) < |b| by {
      forall k | 0 <= k < |b| ensures Mirror(fs, k) < |b| { MirrorStays(fs, 0, |b|, k); }
    }
    if h.LittleEndian? then seq(|b|, k requires 0 <= k < |b| => b[Mirror(fs, k)]) else b
  }

  /** The value of bytes, most significant first. */
  function Value(b: Bytes): (v: nat)
    ensures v < Power(|b|)
  {
    if b == [] then 0 else Value(b[..|b| - 1]) * 0x100 + b[|b| - 1]
  }

  function Power(n: nat): (p: nat)
    ensures p > 0
  {
    if n == 0 then 1 else 0x100 * Power(n - 1)
  }

  function Reverse(b: Bytes): Bytes {
    seq(|b|, k requires 0 <= k < |b| => b[|b| - 1 - k])
  }

  /** The value the host reads from a field. */
  function Get(h: Host, b: Bytes, f: Field): (v: nat)
    requires Within(f, 0, |b|)
    ensures v < Power(f.width)
  {
    var s := b[f.at..f.at + f.width];
    if h.LittleEndian? then Value(Reverse(s)) else Value(s)
  }

  /** What one host converts, any host reads after its own conversion: the network order does not depend on hosts. */
  lemma ReadElsewhere(sender: Host, receiver: Host, b: Bytes, f: Field)
    requires Within(f, 0, |b|)
    ensures Get(BigEndian, Convert(sender, b, f), f) == Get(sender, b, f)
    ensures Get(receiver, Convert(receiver, Convert(sender, b, f), f), f) == Get(sender, b, f)
  {
    var s := b[f.at..f.at + f.width];
    assert Flip(b, f)[f.at..f.at + f.width] == Reverse(s);
    assert Flip(Flip(b, f), f) == b;
    assert Reverse(Reverse(s)) == s;
  }

  lemma SameDigits(x: nat, i: Byte, y: nat, j: Byte)
    requires x * 0x100 + i == y * 0x100 + j
    ensures x == y && i == j
  {
  }

  lemma {:induction false} ValueInjective(a: Bytes, b: Bytes)
    requires |a| == |b| && Value(a) == Value(b)
    ensures a == b
  {
    if a != [] {
      SameDigits(Value(a[..|a| - 1]), a[|a| - 1], Value(b[..|b| - 1]), b[|b| - 1]);
      ValueInjective(a[..|a| - 1], b[..|b| - 1]);
      assert a == a[..|a| - 1] + [a[|a| - 1]] && b == b[..|b| - 1] + [b[|b| - 1]];
    }
  }

  /** A field from which one host reads the same holds the same bytes. */
  lemma GetInjective(h: Host, a: Bytes, b: Bytes, f: Field)
    requires Within(f, 0, |a|) && Within(f, 0, |b|) && Get(h, a, f) == Get(h, b, f)
    ensures Agree(a, b, f.at, f.at + f.width)
  {
    hide Value;
    var s, t := a[f.at..f.at + f.width], b[f.at..f.at + f.width];
    if h.LittleEndian? {
      ValueInjective(Reverse(s), Reverse(t));
      assert s == Reverse(Reverse(s)) && t == Reverse(Reverse(t));
    } else {
      ValueInjective(s, t);
    }
    assert forall k :: f.at <= k < f.at + f.width ==> a[k] == s[k - f.at] && b[k] == t[k - f.at];
  }

  lemma GetSame(h: Host, a: Bytes, b: Bytes, f: Field)
    requires Agree(a, b, f.at, f.at + f.width)
    ensures Get(h, a, f) == Get(h, b, f)
  {
    assert a[f.at..f.at + f.width] == b[f.at..f.at + f.width];
  }

  // ---- conversions touch only their own region ----

  /** Two messages agree between `lo` and `hi`. */
  predicate Agree(a: Bytes, b: Bytes, lo: nat, hi: nat) {
    lo <= hi <= |a| && hi <= |b| && forall k :: lo <= k < hi ==> a[k] == b[k]
  }

  lemma {:induction false} OrderedWider(fs: seq<Field>, lo: nat, lo': nat, hi: nat, hi': nat)
    requires Ordered(fs, lo, hi) && lo' <= lo && hi <= hi'
    ensures Ordered(fs, lo', hi')
  {
    if fs != [] {
      OrderedWider(fs[1..], fs[0].at + fs[0].width, fs[0].at + fs[0].width, hi, hi');
    }
  }

  lemma MirrorFirst(fs: seq<Field>, hi: nat, k: nat)
    requires fs != [] && Ordered(fs, 0, hi) && k < hi
    ensures Within(fs[0], 0, hi) && Ordered(fs[1..], 0, hi)
    ensures var m := Mirror(fs[1..], k);
            m < hi && Mirror(fs, k) == Mirror([fs[0]], m)
  {
    var f := fs[0];
    MirrorStays(fs[1..], f.at + f.width, hi, k);
    OrderedWider(fs[1..], f.at + f.width, 0, hi, hi);
    assert [f][1..] == [];
  }

  /** Converting the first field and then the others converts them all. */
  lemma ConvertOneMore(h: Host, b: Bytes, fs: seq<Field>)
    requires fs != [] && Ordered(fs, 0, |b|)
    ensures Within(fs[0], 0, |b|) && Ordered(fs[1..], 0, |b|)
    ensures ConvertAll(h, b, fs) == ConvertAll(h, Convert(h, b, fs[0]), fs[1..])
  {
    MirrorStays(fs[1..], fs[0].at + fs[0].width, |b|, 0);
    OrderedWider(fs[1..], fs[0].at + fs[0].width, 0, |b|, |b|);
    var c := Convert(h, b, fs[0]);
    if h.LittleEndian? {
      hide Mirror, Ordered;
      forall k | 0 <= k < |b|
        ensures ConvertAll(h, b, fs)[k] == ConvertAll(h, c, fs[1..])[k]
      {
        MirrorFirst(fs, |b|, k);
        FlipAt(b, fs[0], Mirror(fs[1..], k));
      }
    }
  }

  lemma FlipAt(b: Bytes, f: Field, k: nat)
    requires Within(f, 0, |b|) && k < |b|
    ensures Mirror([f], k) < |b| && Flip(b, f)[k] == b[Mirror([f], k)]
  {
    assert [f][1..] == [];
  }

  lemma ConvertNone(h: Host, b: Bytes)
    ensures ConvertAll(h, b, []) == b
  {
  }

  lemma ConvertAllTwice(h: Host, b: Bytes, fs: seq<Field>)
    requires Ordered(fs, 0, |b|)
    ensures ConvertAll(h, ConvertAll(h, b, fs), fs) == b
  {
    forall k | 0 <= k < |b|
      ensures ConvertAll(h, ConvertAll(h, b, fs), fs)[k] == b[k]
    {
      MirrorStays(fs, 0, |b|, k);
    }
  }

  /** Conversion leaves the rest of the message alone, and does not look at it. */
  lemma ConvertAllLocal(h: Host, a: Bytes, b: Bytes, fs: seq<Field>, lo: nat, hi: nat)
    requires Ordered(fs, lo, hi) && Agree(a, b, lo, hi)
    ensures Ordered(fs, 0, |a|) && Ordered(fs, 0, |b|)
    ensures Agree(ConvertAll(h, a, fs), a, 0, lo) && Agree(ConvertAll(h, a, fs), a, hi, |a|)
    ensures Agree(ConvertAll(h, a, fs), ConvertAll(h, b, fs), lo, hi)
  {
    OrderedWider(fs, lo, 0, hi, |a|);
    OrderedWider(fs, lo, 0, hi, |b|);
    forall k | 0 <= k < |a|
      ensures lo <= k < hi ==> lo <= Mirror(fs, k) < hi
      ensures !(lo <= k < hi) ==> Mirror(fs, k) == k
    {
      MirrorStays(fs, lo, hi, k);
    }
  }

  lemma {:induction false} MirrorConcat(fs: seq<Field>, gs: seq<Field>, lo: nat, hi: nat, k: nat)
    requires Ordered(fs + gs, lo, hi)
    ensures Ordered(gs, lo, hi)
    ensures Mirror(fs + gs, Mirror(gs, k)) == Mirror(fs, k)
  {
    if fs == [] {
      assert fs + gs == gs;
      MirrorStays(gs, lo, hi, k);
    } else {
      var mid := fs[0].at + fs[0].width;
      assert (fs + gs)[1..] == fs[1..] + gs;
      MirrorConcat(fs[1..], gs, mid, hi, k);
      MirrorStays(gs, mid, hi, k);
      OrderedWider(gs, mid, lo, hi, hi);
    }
  }

  lemma ConvertAllAt(h: Host, b: Bytes, fs: seq<Field>, k: nat)
    requires Ordered(fs, 0, |b|) && k < |b|
    ensures Mirror(fs, k) < |b| && ConvertAll(h, b, fs)[k] == b[if h.LittleEndian? then Mirror(fs, k) else k]
  {
    MirrorStays(fs, 0, |b|, k);
  }

  /** Converting some of the fields back leaves the others converted. */
  lemma ConvertSomeBack(h: Host, b: Bytes, fs: seq<Field>, gs: seq<Field>)
    requires Ordered(fs + gs, 0, |b|) && Ordered(gs, 0, |b|) && Ordered(fs, 0, |b|)
    ensures ConvertAll(h, ConvertAll(h, b, fs + gs), gs) == ConvertAll(h, b, fs)
  {
    hide Mirror, Ordered, ConvertAll;
    var x := ConvertAll(h, b, fs + gs);
    forall k | 0 <= k < |b|
      ensures ConvertAll(h, x, gs)[k] == ConvertAll(h, b, fs)[k]
    {
      MirrorConcat(fs, gs, 0, |b|, k);
      ConvertAllAt(h, x, gs, k);
      ConvertAllAt(h, b, fs, k);
      ConvertAllAt(h, b, fs + gs, if h.LittleEndian? then Mirror(gs, k) else k);
    }
  }
}
