/** The TLVs behind a message: the loop that prepares them for sending, and the walk that finds them again. */
module MsgTlv {
  import opened Options
  import opened PtpDataset
  import opened MsgBytes

  /** How the values of TLVs are converted, by type: by the sender to network order, and by the receiver back, which may
      be refused.  `means` gives the bytes with which the receiver's memory says what a value says in the sender's.  The
      length of a value does not change. */
  datatype Conversion = Conversion(
    pre: (nat, Bytes) -> Bytes, post: (nat, Bytes) -> Option<Bytes>, means: (nat, Bytes) -> Bytes)
  {
    function Means(t: nat, v: Bytes): (r: Bytes)
      ensures |r| == |v|
    {
      if |means(t, v)| == |v| then means(t, v) else v
    }

    function Pre(t: nat, v: Bytes): (r: Bytes)
      ensures |r| == |v|
    {
      if |pre(t, v)| == |v| then pre(t, v) else v
    }

    function Post(t: nat, v: Bytes): (r: Option<Bytes>)
      ensures r.Some? ==> |r.value| == |v|
    {
      var r := post(t, v);
      if r.Some? && |r.value| == |v| then r else None
    }
  }

  const TLV_SIZE := 4

  function TypeField(off: nat): Field { Field(off, 2) }

  function LengthField(off: nat): Field { Field(off + 2, 2) }

  function TypeAt(h: Host, b: Bytes, off: nat): nat
    requires off + TLV_SIZE <= |b|
  {
    Get(h, b, TypeField(off))
  }

  function LengthAt(h: Host, b: Bytes, off: nat): nat
    requires off + TLV_SIZE <= |b|
  {
    Get(h, b, LengthField(off))
  }

  function ValueAt(b: Bytes, off: nat, len: nat): (v: Bytes)
    requires off + TLV_SIZE + len <= |b|
    ensures |v| == len
  {
    b[off + TLV_SIZE..off + TLV_SIZE + len]
  }

  function Put(b: Bytes, at: nat, v: Bytes): (r: Bytes)
    requires at + |v| <= |b|
    ensures |r| == |b|
  {
    b[..at] + v + b[at + |v|..]
  }

  /** The type and the length of the TLV, converted. */
  function ConvertHead(h: Host, b: Bytes, off: nat): (r: Bytes)
    requires off + TLV_SIZE <= |b|
    ensures |r| == |b|
  {
    Convert(h, Convert(h, b, TypeField(off)), LengthField(off))
  }

  predicate Fits(h: Host, b: Bytes, off: nat, end: nat) {
    off + TLV_SIZE <= end <= |b| && off + TLV_SIZE + LengthAt(h, b, off) <= end
  }

  /** Sends one TLV: first its value is converted, then its type and length. */
  function SendTlv(h: Host, c: Conversion, b: Bytes, off: nat): (r: Bytes)
    requires Fits(h, b, off, |b|)
    ensures |r| == |b|
  {
    var v := ValueAt(b, off, LengthAt(h, b, off));
    ConvertHead(h, Put(b, off + TLV_SIZE, c.Pre(TypeAt(h, b, off), v)), off)
  }

  /** TLVs that follow each other from `off` to `end`, of even length, whose values survive their conversions. */
  predicate Chain(h: Host, c: Conversion, b: Bytes, tlvs: seq<nat>, off: nat, end: nat) {
    if tlvs == [] then off == end <= |b|
    else
      && tlvs[0] == off && Fits(h, b, off, end)
      && var len := LengthAt(h, b, off);
      && len % 2 == 0
      && Recovers(c, TypeAt(h, b, off), ValueAt(b, off, len))
      && Chain(h, c, b, tlvs[1..], off + TLV_SIZE + len, end)
  }

  predicate Recovers(c: Conversion, t: nat, v: Bytes) {
    c.Post(t, c.Pre(t, v)) == Some(c.Means(t, v))
  }

  /** Whether each TLV is in the message when its turn comes. */
  predicate Sendable(h: Host, c: Conversion, b: Bytes, tlvs: seq<nat>)
    decreases |tlvs|
  {
    tlvs == [] || (Fits(h, b, tlvs[0], |b|) && Sendable(h, c, SendTlv(h, c, b, tlvs[0]), tlvs[1..]))
  }

  function SendTlvs(h: Host, c: Conversion, b: Bytes, tlvs: seq<nat>): (r: Bytes)
    requires Sendable(h, c, b, tlvs)
    ensures |r| == |b|
    decreases |tlvs|
  {
    if tlvs == [] then b else SendTlvs(h, c, SendTlv(h, c, b, tlvs[0]), tlvs[1..])
  }

  datatype Error = BadMessage | BadProtocol | BadValue

  /** What a walk leaves: an error if there was one, the TLVs found, and the message. */
  datatype Walked = Walked(error: Option<Error>, tlvs: seq<nat>, b: Bytes)

  /** Walks over the TLVs between `off` and `end`, converting each. */
  function Walk(h: Host, c: Conversion, b: Bytes, off: nat, end: nat): (w: Walked)
    requires off <= end <= |b|
    ensures |w.b| == |b|
    decreases end - off
  {
    if end - off < TLV_SIZE then Walked(None, [], b)
    else
      var b1 := ConvertHead(h, b, off);
      var len := LengthAt(h, b1, off);
      if len % 2 == 1 || len > end - off - TLV_SIZE then Walked(Some(BadMessage), [], b1)
      else
        var v := c.Post(TypeAt(h, b1, off), ValueAt(b1, off, len));
        if v.None? then Walked(Some(BadValue), [], b1)
        else
          var w := Walk(h, c, Put(b1, off + TLV_SIZE, v.value), off + TLV_SIZE + len, end);
          Walked(w.error, [off] + w.tlvs, w.b)
  }

  lemma ConvertHeadLocal(h: Host, b: Bytes, off: nat)
    requires off + TLV_SIZE <= |b|
    ensures Agree(ConvertHead(h, b, off), b, 0, off) && Agree(ConvertHead(h, b, off), b, off + TLV_SIZE, |b|)
  {
  }

  lemma PutLocal(b: Bytes, at: nat, v: Bytes)
    requires at + |v| <= |b|
    ensures Agree(Put(b, at, v), b, 0, at) && Agree(Put(b, at, v), b, at + |v|, |b|)
    ensures Put(b, at, v)[at..at + |v|] == v
  {
  }

  /** The walk stays between `off` and `end`, whatever was received; what it finds there without error is a sequence of
      TLVs of even length, one behind the other, with less than a TLV left over. */
  lemma {:induction false} WalkStays(h: Host, c: Conversion, b: Bytes, off: nat, end: nat)
    requires off <= end <= |b|
    ensures var w := Walk(h, c, b, off, end);
            && Agree(w.b, b, 0, off) && Agree(w.b, b, end, |b|)
            && (w.error.None? ==> Spans(h, w.b, w.tlvs, off, end))
    decreases end - off
  {
    hide ConvertHead, Put, LengthAt, TypeAt, ValueAt, Fits, Agree, Spans;
    SpansNone(h, b, off, end);
    if end - off >= TLV_SIZE {
      var b1 := ConvertHead(h, b, off);
      var len := LengthAt(h, b1, off);
      ConvertHeadLocal(h, b, off);
      AgreeParts(b1, b, b1, off, off + TLV_SIZE, end);
      if len % 2 == 0 && len <= end - off - TLV_SIZE {
        var v := c.Post(TypeAt(h, b1, off), ValueAt(b1, off, len));
        if v.Some? {
          var b2, next := Put(b1, off + TLV_SIZE, v.value), off + TLV_SIZE + len;
          PutLocal(b1, off + TLV_SIZE, v.value);
          WalkStays(h, c, b2, next, end);
          var w := Walk(h, c, b2, next, end);
          AgreeParts(b2, b1, w.b, off + TLV_SIZE, next, end);
          AgreeParts(b1, b, w.b, off, off + TLV_SIZE, end);
          FitsHere(h, b1, off, end);
          AgreePart(w.b, b1, off, off + TLV_SIZE);
          SpansMore(h, b1, w, off, end);
        }
      }
    }
  }

  lemma FitsHere(h: Host, b: Bytes, off: nat, end: nat)
    requires off + TLV_SIZE <= end <= |b| && LengthAt(h, b, off) <= end - off - TLV_SIZE
    ensures Fits(h, b, off, end)
  {
  }

  lemma SpansNone(h: Host, b: Bytes, off: nat, end: nat)
    requires off <= end <= |b|
    ensures end - off < TLV_SIZE ==> Spans(h, b, [], off, end)
    ensures Agree(b, b, 0, off) && Agree(b, b, end, |b|)
  {
  }

  lemma AgreePart(a: Bytes, b: Bytes, lo: nat, hi: nat)
    requires lo <= hi && Agree(a, b, 0, hi)
    ensures Agree(a, b, lo, hi)
  {
  }

  /** Where `a` agrees with `b` outside a stretch, what agrees with `a` from its start or behind it agrees with `b`. */
  lemma AgreeParts(a: Bytes, b: Bytes, w: Bytes, lo: nat, hi: nat, end: nat)
    requires |a| == |b| == |w| && lo <= hi <= end <= |b| && Agree(a, b, 0, lo) && Agree(a, b, hi, |b|)
    ensures Agree(w, a, 0, lo) || Agree(w, a, 0, hi) ==> Agree(w, b, 0, lo)
    ensures Agree(a, b, end, |b|) && (Agree(w, a, end, |b|) ==> Agree(w, b, end, |b|))
  {
  }

  lemma SpansMore(h: Host, b: Bytes, w: Walked, off: nat, end: nat)
    requires Fits(h, b, off, end) && LengthAt(h, b, off) % 2 == 0 && Agree(w.b, b, off, off + TLV_SIZE) && end <= |w.b|
    ensures Spans(h, w.b, w.tlvs, off + TLV_SIZE + LengthAt(h, b, off), end) ==> Spans(h, w.b, [off] + w.tlvs, off, end)
  {
    LengthSame(h, b, w.b, off);
    assert ([off] + w.tlvs)[1..] == w.tlvs;
  }

  /** TLVs of even length that follow each other from `off`, up to less than a TLV before `end`. */
  predicate Spans(h: Host, b: Bytes, tlvs: seq<nat>, off: nat, end: nat) {
    if tlvs == [] then off <= end < off + TLV_SIZE
    else
      && tlvs[0] == off && Fits(h, b, off, end) && LengthAt(h, b, off) % 2 == 0
      && Spans(h, b, tlvs[1..], off + TLV_SIZE + LengthAt(h, b, off), end)
  }

  lemma LengthSame(h: Host, a: Bytes, b: Bytes, off: nat)
    requires Agree(a, b, off, off + TLV_SIZE)
    ensures TypeAt(h, a, off) == TypeAt(h, b, off) && LengthAt(h, a, off) == LengthAt(h, b, off)
  {
    assert a[off..off + 2] == b[off..off + 2] && a[off + 2..off + 4] == b[off + 2..off + 4];
  }

  lemma ValueSame(a: Bytes, b: Bytes, off: nat, len: nat)
    requires Agree(a, b, off + TLV_SIZE, off + TLV_SIZE + len)
    ensures ValueAt(a, off, len) == ValueAt(b, off, len)
  {
  }

  lemma {:induction false} ChainSame(h: Host, c: Conversion, a: Bytes, b: Bytes, tlvs: seq<nat>, off: nat, end: nat)
    requires Chain(h, c, a, tlvs, off, end) && off <= end && Agree(a, b, off, end)
    ensures Chain(h, c, b, tlvs, off, end)
  {
    hide LengthAt, TypeAt, ValueAt, Recovers;
    if tlvs != [] {
      var len := LengthAt(h, a, off);
      LengthSame(h, a, b, off);
      ValueSame(a, b, off, len);
      ChainSame(h, c, a, b, tlvs[1..], off + TLV_SIZE + len, end);
    }
  }

  lemma {:induction false} ChainOrder(h: Host, c: Conversion, b: Bytes, tlvs: seq<nat>, off: nat, end: nat)
    requires Chain(h, c, b, tlvs, off, end)
    ensures off <= end <= |b|
  {
  }

  /** The receiver reads the type and length that the sender wrote. */
  lemma HeadReads(h: Host, g: Host, a: Bytes, b: Bytes, off: nat)
    requires off + TLV_SIZE <= |b| && Agree(a, ConvertHead(h, b, off), off, off + TLV_SIZE)
    ensures TypeAt(g, ConvertHead(g, a, off), off) == TypeAt(h, b, off)
    ensures LengthAt(g, ConvertHead(g, a, off), off) == LengthAt(h, b, off)
  {
    HeadFieldReads(h, g, a, b, off, TypeField(off));
    HeadFieldReads(h, g, a, b, off, LengthField(off));
  }

  lemma HeadFieldReads(h: Host, g: Host, a: Bytes, b: Bytes, off: nat, f: Field)
    requires off + TLV_SIZE <= |b| && Agree(a, ConvertHead(h, b, off), off, off + TLV_SIZE)
    requires f == TypeField(off) || f == LengthField(off)
    ensures Get(g, ConvertHead(g, a, off), f) == Get(h, b, f)
  {
    hide Get;
    ReadElsewhere(h, g, b, f);
    GetSame(g, ConvertHead(g, a, off), Convert(g, Convert(h, b, f), f), f);
  }

  /** Sending a TLV leaves the rest of the message alone, and its own value converted. */
  lemma SendTlvLocal(h: Host, c: Conversion, b: Bytes, off: nat)
    requires Fits(h, b, off, |b|)
    ensures var len, s := LengthAt(h, b, off), SendTlv(h, c, b, off);
            && Agree(s, b, 0, off) && Agree(s, b, off + TLV_SIZE + len, |b|)
            && Agree(s, ConvertHead(h, b, off), off, off + TLV_SIZE)
            && ValueAt(s, off, len) == c.Pre(TypeAt(h, b, off), ValueAt(b, off, len))
  {
    hide LengthAt, TypeAt;
    var len := LengthAt(h, b, off);
    var v := c.Pre(TypeAt(h, b, off), ValueAt(b, off, len));
    var p := Put(b, off + TLV_SIZE, v);
    PutLocal(b, off + TLV_SIZE, v);
    ConvertHeadLocal(h, p, off);
    ValueSame(p, ConvertHead(h, p, off), off, len);
  }

  lemma {:induction false} SendTlvsLocal(h: Host, c: Conversion, b: Bytes, tlvs: seq<nat>, off: nat, end: nat)
    requires Chain(h, c, b, tlvs, off, end)
    ensures off <= end && Sendable(h, c, b, tlvs)
    ensures Agree(SendTlvs(h, c, b, tlvs), b, 0, off) && Agree(SendTlvs(h, c, b, tlvs), b, end, |b|)
    decreases |tlvs|
  {
    hide LengthAt, TypeAt, ValueAt, Recovers, SendTlv, ConvertHead;
    if tlvs != [] {
      var next := off + TLV_SIZE + LengthAt(h, b, off);
      SendTlvLocal(h, c, b, off);
      ChainOrder(h, c, b, tlvs[1..], next, end);
      ChainSame(h, c, b, SendTlv(h, c, b, off), tlvs[1..], next, end);
      SendTlvsLocal(h, c, SendTlv(h, c, b, off), tlvs[1..], next, end);
    }
  }

  /** TLVs in the memory of host `g` that say what TLVs in the memory of host `h` say, at the same places. */
  predicate Carried(h: Host, g: Host, c: Conversion, b: Bytes, w: Bytes, tlvs: seq<nat>, off: nat, end: nat)
    requires Chain(h, c, b, tlvs, off, end) && end <= |w|
  {
    tlvs == []
    || (var t, len := TypeAt(h, b, off), LengthAt(h, b, off);
        && TypeAt(g, w, off) == t && LengthAt(g, w, off) == len
        && ValueAt(w, off, len) == c.Means(t, ValueAt(b, off, len))
        && Carried(h, g, c, b, w, tlvs[1..], off + TLV_SIZE + len, end))
  }

  lemma {:induction false} CarriedSame(h: Host, g: Host, c: Conversion, a: Bytes, b: Bytes, w: Bytes, tlvs: seq<nat>,
                                       off: nat, end: nat)
    requires Chain(h, c, a, tlvs, off, end) && Chain(h, c, b, tlvs, off, end) && end <= |w|
    requires off <= end && Agree(a, b, off, end) && Carried(h, g, c, a, w, tlvs, off, end)
    ensures Carried(h, g, c, b, w, tlvs, off, end)
  {
    hide LengthAt, TypeAt, ValueAt, Recovers;
    if tlvs != [] {
      var len := LengthAt(h, a, off);
      LengthSame(h, a, b, off);
      ValueSame(a, b, off, len);
      ChainOrder(h, c, a, tlvs[1..], off + TLV_SIZE + len, end);
      CarriedSame(h, g, c, a, b, w, tlvs[1..], off + TLV_SIZE + len, end);
    }
  }

  /** A TLV that was carried, by its place: two bytes of type, two bytes of length, and as many bytes of value, behind
      which the next one begins. */
  predicate Placed(h: Host, g: Host, c: Conversion, b: Bytes, w: Bytes, at: nat, next: nat) {
    && at + 4 <= next <= |b| && next <= |w|
    && var t, n := Get(h, b, Field(at, 2)), Get(h, b, Field(at + 2, 2));
    && at + 4 + n == next && n % 2 == 0
    && Get(g, w, Field(at, 2)) == t && Get(g, w, Field(at + 2, 2)) == n
    && w[at + 4..next] == c.Means(t, b[at + 4..next])
  }

  /** All TLVs that were carried are placed so, from `off` to `end`. */
  lemma {:induction false} TlvsPlaced(h: Host, g: Host, c: Conversion, b: Bytes, w: Bytes, tlvs: seq<nat>, off: nat,
                                      end: nat, i: nat)
    requires Chain(h, c, b, tlvs, off, end) && end <= |w| && Carried(h, g, c, b, w, tlvs, off, end) && i < |tlvs|
    ensures tlvs[0] == off && Placed(h, g, c, b, w, tlvs[i], if i + 1 < |tlvs| then tlvs[i + 1] else end)
  {
    hide Placed, Chain, Carried, LengthAt;
    FirstPlaced(h, g, c, b, w, tlvs, off, end);
    if i > 0 {
      TlvsPlaced(h, g, c, b, w, tlvs[1..], tlvs[1], end, i - 1);
    }
  }

  lemma FirstPlaced(h: Host, g: Host, c: Conversion, b: Bytes, w: Bytes, tlvs: seq<nat>, off: nat, end: nat)
    requires Chain(h, c, b, tlvs, off, end) && end <= |w| && Carried(h, g, c, b, w, tlvs, off, end) && tlvs != []
    ensures tlvs[0] == off && Placed(h, g, c, b, w, off, if 1 < |tlvs| then tlvs[1] else end)
    ensures 1 < |tlvs| ==>
      Chain(h, c, b, tlvs[1..], tlvs[1], end) && Carried(h, g, c, b, w, tlvs[1..], tlvs[1], end)
  {
    hide Chain, Carried, LengthAt, TypeAt, ValueAt, Placed;
    ChainFirst(h, c, b, tlvs, off, end);
    CarriedFirst(h, g, c, b, w, tlvs, off, end);
    PlacedIf(h, g, c, b, w, off, LengthAt(h, b, off));
  }

  lemma PlacedIf(h: Host, g: Host, c: Conversion, b: Bytes, w: Bytes, off: nat, len: nat)
    requires off + TLV_SIZE + len <= |b| && off + TLV_SIZE + len <= |w| && len % 2 == 0
    requires TypeAt(g, w, off) == TypeAt(h, b, off) && LengthAt(g, w, off) == LengthAt(h, b, off) == len
    requires ValueAt(w, off, len) == c.Means(TypeAt(h, b, off), ValueAt(b, off, len))
    ensures Placed(h, g, c, b, w, off, off + TLV_SIZE + len)
  {
    hide Get;
  }

  lemma ChainFirst(h: Host, c: Conversion, b: Bytes, tlvs: seq<nat>, off: nat, end: nat)
    requires Chain(h, c, b, tlvs, off, end) && tlvs != []
    ensures tlvs[0] == off && Fits(h, b, off, end) && LengthAt(h, b, off) % 2 == 0
    ensures off + TLV_SIZE + LengthAt(h, b, off) == if 1 < |tlvs| then tlvs[1] else end
    ensures Chain(h, c, b, tlvs[1..], off + TLV_SIZE + LengthAt(h, b, off), end)
  {
    hide LengthAt, Recovers;
  }

  lemma CarriedFirst(h: Host, g: Host, c: Conversion, b: Bytes, w: Bytes, tlvs: seq<nat>, off: nat, end: nat)
    requires Chain(h, c, b, tlvs, off, end) && end <= |w| && Carried(h, g, c, b, w, tlvs, off, end) && tlvs != []
    ensures Fits(h, b, off, end)
    ensures var t, len := TypeAt(h, b, off), LengthAt(h, b, off);
            && TypeAt(g, w, off) == t && LengthAt(g, w, off) == len
            && ValueAt(w, off, len) == c.Means(t, ValueAt(b, off, len))
            && Chain(h, c, b, tlvs[1..], off + TLV_SIZE + len, end)
            && Carried(h, g, c, b, w, tlvs[1..], off + TLV_SIZE + len, end)
  {
    hide LengthAt, TypeAt, ValueAt, Recovers;
  }

  /** Between hosts of one byte order, and values that mean themselves, the bytes are the same. */
  lemma {:induction false} CarriedBack(h: Host, c: Conversion, b: Bytes, w: Bytes, tlvs: seq<nat>, off: nat, end: nat)
    requires Chain(h, c, b, tlvs, off, end) && end <= |w| && Carried(h, h, c, b, w, tlvs, off, end)
    requires forall t, v :: c.Means(t, v) == v
    ensures Agree(w, b, off, end)
  {
    hide Recovers, LengthAt, TypeAt, ValueAt;
    if tlvs != [] {
      var len := LengthAt(h, b, off);
      CarriedBack(h, c, b, w, tlvs[1..], off + TLV_SIZE + len, end);
      HeadBytes(h, w, b, off);
      ValueBytes(w, b, off, len);
    }
  }

  lemma HeadBytes(h: Host, a: Bytes, b: Bytes, off: nat)
    requires off + TLV_SIZE <= |a| && off + TLV_SIZE <= |b|
    requires TypeAt(h, a, off) == TypeAt(h, b, off) && LengthAt(h, a, off) == LengthAt(h, b, off)
    ensures Agree(a, b, off, off + TLV_SIZE)
  {
    hide Get;
    GetInjective(h, a, b, TypeField(off));
    GetInjective(h, a, b, LengthField(off));
  }

  lemma ValueBytes(a: Bytes, b: Bytes, off: nat, len: nat)
    requires off + TLV_SIZE + len <= |a| && off + TLV_SIZE + len <= |b| && ValueAt(a, off, len) == ValueAt(b, off, len)
    ensures Agree(a, b, off + TLV_SIZE, off + TLV_SIZE + len)
  {
    var at := off + TLV_SIZE;
    forall k | at <= k < at + len
      ensures a[k] == b[k]
    {
      assert a[k] == ValueAt(a, off, len)[k - at] && b[k] == ValueAt(b, off, len)[k - at];
    }
  }

  /** What the receiver's walk makes of one TLV that was sent. */
  ghost function TakenIn(h: Host, g: Host, c: Conversion, b: Bytes, r: Bytes, off: nat): (b2: Bytes)
    requires Fits(h, b, off, |b|) && off + TLV_SIZE + LengthAt(h, b, off) <= |r|
    ensures |b2| == |r|
  {
    Put(ConvertHead(g, r, off), off + TLV_SIZE, c.Means(TypeAt(h, b, off), ValueAt(b, off, LengthAt(h, b, off))))
  }

  /** One step of the walk over TLVs that were sent. */
  lemma WalkOne(h: Host, g: Host, c: Conversion, b: Bytes, r: Bytes, off: nat, end: nat)
    requires Fits(h, b, off, end) && end <= |r|
    requires LengthAt(h, b, off) % 2 == 0
    requires Recovers(c, TypeAt(h, b, off), ValueAt(b, off, LengthAt(h, b, off)))
    requires Agree(r, SendTlv(h, c, b, off), off, off + TLV_SIZE + LengthAt(h, b, off))
    ensures var t, len := TypeAt(h, b, off), LengthAt(h, b, off);
            var next := off + TLV_SIZE + len;
            var b2 := TakenIn(h, g, c, b, r, off);
            && Agree(b2, r, 0, off) && Agree(b2, r, next, |r|)
            && TypeAt(g, b2, off) == t && LengthAt(g, b2, off) == len
            && ValueAt(b2, off, len) == c.Means(t, ValueAt(b, off, len))
            && var w := Walk(g, c, b2, next, end);
            && Walk(g, c, r, off, end) == Walked(w.error, [off] + w.tlvs, w.b)
  {
    hide LengthAt, TypeAt, ValueAt, SendTlv, ConvertHead, Put;
    var len, t := LengthAt(h, b, off), TypeAt(h, b, off);
    var v := c.Means(t, ValueAt(b, off, len));
    SendTlvLocal(h, c, b, off);
    HeadReads(h, g, r, b, off);
    ConvertHeadLocal(g, r, off);
    var b1 := ConvertHead(g, r, off);
    ValueSame(b1, SendTlv(h, c, b, off), off, len);
    PutLocal(b1, off + TLV_SIZE, v);
    PutValue(b1, off, v);
    LengthSame(g, Put(b1, off + TLV_SIZE, v), b1, off);
  }

  lemma PutValue(b: Bytes, off: nat, v: Bytes)
    requires off + TLV_SIZE + |v| <= |b|
    ensures ValueAt(Put(b, off + TLV_SIZE, v), off, |v|) == v
  {
  }

  /** Walking over TLVs that were sent, by a host of either byte order, finds exactly them, with the same types, lengths
      and meanings. */
  lemma {:induction false} WalkSent(h: Host, g: Host, c: Conversion, b: Bytes, tlvs: seq<nat>, r: Bytes, off: nat,
                                    end: nat)
    requires Chain(h, c, b, tlvs, off, end) && Sendable(h, c, b, tlvs)
    requires off <= end && Agree(r, SendTlvs(h, c, b, tlvs), off, end)
    ensures var w := Walk(g, c, r, off, end);
            && w.error.None? && w.tlvs == tlvs && Carried(h, g, c, b, w.b, tlvs, off, end)
            && Agree(w.b, r, 0, off) && Agree(w.b, r, end, |r|)
    decreases |tlvs|
  {
    hide LengthAt, TypeAt, ValueAt, Recovers, SendTlv, ConvertHead, Put, TakenIn;
    if tlvs != [] {
      var len := LengthAt(h, b, off);
      var next := off + TLV_SIZE + len;
      var s := SendTlv(h, c, b, off);
      SendTlvLocal(h, c, b, off);
      ChainOrder(h, c, b, tlvs[1..], next, end);
      ChainSame(h, c, b, s, tlvs[1..], next, end);
      SendTlvsLocal(h, c, s, tlvs[1..], next, end);
      WalkOne(h, g, c, b, r, off, end);
      var b2 := TakenIn(h, g, c, b, r, off);
      WalkSent(h, g, c, s, tlvs[1..], b2, next, end);
      var w := Walk(g, c, b2, next, end).b;
      CarriedSame(h, g, c, s, b, w, tlvs[1..], next, end);
      LengthSame(g, w, b2, off);
      ValueSame(w, b2, off, len);
      assert tlvs == [off] + tlvs[1..];
    }
  }
}
