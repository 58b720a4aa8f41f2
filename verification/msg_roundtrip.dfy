/** What is sent is received. */
module MsgRoundTrip {
  import opened Options
  import opened PtpDataset
  import opened MsgBytes
  import opened MsgTlv
  import opened MsgLayout

  /** The fields of a message that is sent, region by region. */
  lemma SentRegions(h: Host, c: Conversion, b: Bytes, kind: Kind, tlvs: seq<nat>, len: nat)
    requires Built(h, c, b, kind, tlvs, len)
    ensures Ordered(HEADER, 0, BUFFER) && Ordered(kind.TimeFields() + kind.Fields(), 0, BUFFER)
    ensures SentFields(h, b).Some?
    ensures var s := SentFields(h, b).value;
            && Agree(s, ConvertAll(h, b, HEADER), 0, HEADER_SIZE)
            && Agree(s, ConvertAll(h, b, kind.TimeFields() + kind.Fields()), HEADER_SIZE, kind.Size())
            && Agree(s, b, kind.Size(), BUFFER)
            && Chain(h, c, s, tlvs, kind.Size(), len)
  {
    hide ConvertAll, Chain;
    LayoutFits(kind);
    LayoutOrdered(kind);
    var b1, fs := ConvertAll(h, b, HEADER), kind.TimeFields() + kind.Fields();
    ConvertAllLocal(h, b, b, HEADER, 0, HEADER_SIZE);
    ConvertAllLocal(h, b1, b, fs, HEADER_SIZE, kind.Size());
    var s := ConvertAll(h, b1, fs);
    ChainOrder(h, c, b, tlvs, kind.Size(), len);
    ChainSame(h, c, b, s, tlvs, kind.Size(), len);
  }

  /** The bytes on the network, region by region. */
  ghost predicate OnWire(h: Host, c: Conversion, b: Bytes, kind: Kind, tlvs: seq<nat>, len: nat, r: Bytes)
    requires Built(h, c, b, kind, tlvs, len)
  {
    SentRegions(h, c, b, kind, tlvs, len);
    var s := SentFields(h, b).value;
    SendTlvsLocal(h, c, s, tlvs, kind.Size(), len);
    |r| == BUFFER && Agree(r, SendTlvs(h, c, s, tlvs), 0, len)
  }

  lemma WireRegions(h: Host, c: Conversion, b: Bytes, kind: Kind, tlvs: seq<nat>, len: nat, r: Bytes)
    requires Built(h, c, b, kind, tlvs, len) && OnWire(h, c, b, kind, tlvs, len, r)
    ensures Ordered(HEADER, 0, BUFFER) && Ordered(kind.TimeFields() + kind.Fields(), 0, BUFFER)
    ensures kind.Size() <= len && |r| == BUFFER
    ensures Agree(r, ConvertAll(h, b, HEADER), 0, HEADER_SIZE)
    ensures Agree(r, ConvertAll(h, b, kind.TimeFields() + kind.Fields()), HEADER_SIZE, kind.Size())
    ensures var s := SentFields(h, b);
            && s.Some? && Chain(h, c, s.value, tlvs, kind.Size(), len) && Sendable(h, c, s.value, tlvs)
            && Agree(r, SendTlvs(h, c, s.value, tlvs), kind.Size(), len)
            && Agree(s.value, b, kind.Size(), BUFFER)
  {
    hide ConvertAll, Chain, SendTlvs, Sendable;
    SentRegions(h, c, b, kind, tlvs, len);
    SendTlvsLocal(h, c, SentFields(h, b).value, tlvs, kind.Size(), len);
  }

  lemma {:induction false} MirrorIn(fs: seq<Field>, i: nat, lo: nat, hi: nat, k: nat)
    requires Ordered(fs, lo, hi) && i < |fs| && fs[i].at <= k < fs[i].at + fs[i].width
    ensures lo <= fs[i].at && fs[i].at + fs[i].width <= hi && Mirror(fs, k) == 2 * fs[i].at + fs[i].width - 1 - k
  {
    MirrorStays(fs[1..], fs[0].at + fs[0].width, hi, k);
    if i > 0 {
      MirrorIn(fs[1..], i - 1, fs[0].at + fs[0].width, hi, k);
    }
  }

  lemma {:induction false} OrderedAt(fs: seq<Field>, i: nat, lo: nat, hi: nat)
    requires Ordered(fs, lo, hi) && i < |fs|
    ensures Within(fs[i], lo, hi)
  {
    if i > 0 {
      OrderedAt(fs[1..], i - 1, fs[0].at + fs[0].width, hi);
    } else {
      MirrorStays(fs[1..], fs[0].at + fs[0].width, hi, 0);
    }
  }

  /** Whether a byte belongs to no field. */
  ghost predicate Outside(fs: seq<Field>, k: nat) {
    forall i :: 0 <= i < |fs| ==> !(fs[i].at <= k < fs[i].at + fs[i].width)
  }

  lemma {:induction false} MirrorOutside(fs: seq<Field>, k: nat)
    requires Outside(fs, k)
    ensures Mirror(fs, k) == k
  {
    if fs != [] {
      assert forall i :: 0 <= i < |fs[1..]| ==> fs[1..][i] == fs[i + 1];
      MirrorOutside(fs[1..], k);
    }
  }

  /** Converting several fields converts each. */
  lemma EachConverted(h: Host, b: Bytes, fs: seq<Field>, i: nat)
    requires Ordered(fs, 0, |b|) && i < |fs| && Within(fs[i], 0, |b|)
    ensures Agree(ConvertAll(h, b, fs), Convert(h, b, fs[i]), fs[i].at, fs[i].at + fs[i].width)
  {
    hide Mirror, Ordered, ConvertAll;
    var f := fs[i];
    forall k | f.at <= k < f.at + f.width
      ensures ConvertAll(h, b, fs)[k] == Convert(h, b, f)[k]
    {
      MirrorIn(fs, i, 0, |b|, k);
      ConvertAllAt(h, b, fs, k);
    }
  }

  /** A host of either byte order reads from a converted field, after its own conversion, what the sender put there; and
      the converted field is big-endian. */
  lemma GetConverted(h: Host, g: Host, b: Bytes, fs: seq<Field>, i: nat, r: Bytes)
    requires Ordered(fs, 0, |b|) && Ordered(fs, 0, |r|) && i < |fs| && Within(fs[i], 0, |b|) && Within(fs[i], 0, |r|)
    requires Agree(r, ConvertAll(h, b, fs), fs[i].at, fs[i].at + fs[i].width)
    ensures Get(BigEndian, r, fs[i]) == Get(h, b, fs[i])
    ensures Get(g, ConvertAll(g, r, fs), fs[i]) == Get(h, b, fs[i])
  {
    hide ConvertAll, Flip, Ordered, Get;
    var f := fs[i];
    EachConverted(h, b, fs, i);
    EachConverted(g, r, fs, i);
    ReadElsewhere(h, BigEndian, b, f);
    GetSame(BigEndian, r, Convert(h, b, f), f);
    ReadElsewhere(BigEndian, g, r, f);
    GetSame(g, ConvertAll(g, r, fs), Convert(g, r, f), f);
  }

  /** Between `lo` and `hi`, message `w` says in the memory of host `g` what `b` says in the memory of host `h`: each
      field reads the same, and the other bytes are the same. */
  ghost predicate Alike(h: Host, g: Host, b: Bytes, w: Bytes, fs: seq<Field>, lo: nat, hi: nat) {
    && hi <= |b| && hi <= |w|
    && (forall i :: 0 <= i < |fs| ==> Within(fs[i], lo, hi) && Get(h, b, fs[i]) == Get(g, w, fs[i]))
    && (forall k :: lo <= k < hi && Outside(fs, k) ==> w[k] == b[k])
  }

  /** What is converted by both ends says the same. */
  lemma ConvertedAlike(h: Host, g: Host, b: Bytes, fs: seq<Field>, r: Bytes, lo: nat, hi: nat)
    requires Ordered(fs, lo, hi) && Ordered(fs, 0, |b|) && Ordered(fs, 0, |r|)
    requires Agree(r, ConvertAll(h, b, fs), lo, hi) && hi <= |b|
    ensures Alike(h, g, b, ConvertAll(g, r, fs), fs, lo, hi)
  {
    hide ConvertAll, Get, Ordered, Outside;
    forall i | 0 <= i < |fs|
      ensures Within(fs[i], lo, hi) && Get(h, b, fs[i]) == Get(g, ConvertAll(g, r, fs), fs[i])
    {
      OrderedAt(fs, i, lo, hi);
      GetConverted(h, g, b, fs, i, r);
    }
    forall k | lo <= k < hi && Outside(fs, k)
      ensures ConvertAll(g, r, fs)[k] == b[k]
    {
      MirrorOutside(fs, k);
      ConvertAllAt(g, r, fs, k);
      ConvertAllAt(h, b, fs, k);
    }
  }

  lemma AlikeSame(h: Host, g: Host, b: Bytes, w: Bytes, w': Bytes, fs: seq<Field>, lo: nat, hi: nat)
    requires Alike(h, g, b, w, fs, lo, hi) && Agree(w', w, lo, hi)
    ensures Alike(h, g, b, w', fs, lo, hi)
  {
    hide Get, Outside;
    forall i | 0 <= i < |fs|
      ensures Get(g, w', fs[i]) == Get(g, w, fs[i])
    {
      GetSame(g, w', w, fs[i]);
    }
  }

  /** Between hosts of one byte order the bytes are the same. */
  lemma AlikeHere(h: Host, b: Bytes, w: Bytes, fs: seq<Field>, lo: nat, hi: nat)
    requires lo <= hi && Alike(h, h, b, w, fs, lo, hi)
    ensures Agree(w, b, lo, hi)
  {
    hide Get;
    forall k | lo <= k < hi
      ensures w[k] == b[k]
    {
      if i :| 0 <= i < |fs| && fs[i].at <= k < fs[i].at + fs[i].width {
        GetInjective(h, w, b, fs[i]);
      }
    }
  }

  /** What follows the header, as it was sent: the fields converted, behind the time stamp. */
  lemma BodySent(h: Host, b: Bytes, kind: Kind)
    requires |b| == BUFFER && Ordered(kind.TimeFields() + kind.Fields(), 0, BUFFER)
    ensures Ordered(kind.Fields(), 0, BUFFER) && Ordered(kind.TimeFields(), 0, BUFFER)
    ensures var x := ConvertAll(h, b, kind.TimeFields() + kind.Fields());
            && Agree(x, ConvertAll(h, b, kind.TimeFields()), HEADER_SIZE, kind.Start())
            && Agree(x, ConvertAll(h, b, kind.Fields()), kind.Start(), kind.Size())
  {
    hide ConvertAll, Ordered;
    LayoutFits(kind);
    LayoutOrdered(kind);
    var t, f := kind.TimeFields(), kind.Fields();
    var x, y := ConvertAll(h, b, t + f), ConvertAll(h, b, t);
    ConvertSomeBack(h, b, t, f);
    ConvertAllTwice(h, x, f);
    ConvertAllLocal(h, b, b, t, HEADER_SIZE, kind.Start());
    ConvertAllLocal(h, y, b, f, kind.Start(), kind.Size());
  }

  lemma StartKept(h: Host, b: Bytes, r: Bytes)
    requires |b| == |r| == BUFFER && Ordered(HEADER, 0, BUFFER) && Agree(r, ConvertAll(h, b, HEADER), 0, HEADER_SIZE)
    ensures r[0] == b[0] && r[1] == b[1]
  {
    hide ConvertAll, Ordered;
    KindKept(h, b);
  }

  /** The header and the fields behind it, as the receiver converts them. */
  lemma FieldsBack(h: Host, g: Host, b: Bytes, kind: Kind, r: Bytes)
    requires |b| == |r| == BUFFER && Ordered(HEADER, 0, BUFFER)
    requires Ordered(kind.TimeFields() + kind.Fields(), 0, BUFFER)
    requires Agree(r, ConvertAll(h, b, HEADER), 0, HEADER_SIZE)
    requires Agree(r, ConvertAll(h, b, kind.TimeFields() + kind.Fields()), HEADER_SIZE, kind.Size())
    ensures r[0] == b[0] && r[1] == b[1]
    ensures Ordered(kind.Fields(), 0, BUFFER) && Ordered(kind.TimeFields(), 0, BUFFER)
    ensures var r1 := ConvertAll(g, r, HEADER);
            var r2 := ConvertAll(g, r1, kind.Fields());
            && Agree(r1, r, HEADER_SIZE, BUFFER) && Agree(r2, r, kind.Size(), BUFFER)
            && Alike(h, g, b, r2, HEADER, 0, HEADER_SIZE)
            && Agree(r2, ConvertAll(h, b, kind.TimeFields()), HEADER_SIZE, kind.Start())
            && Alike(h, g, b, r2, kind.Fields(), kind.Start(), kind.Size())
  {
    hide ConvertAll, Alike, Ordered;
    StartKept(h, b, r);
    LayoutFits(kind);
    LayoutOrdered(kind);
    BodySent(h, b, kind);
    ConvertedAlike(h, g, b, HEADER, r, 0, HEADER_SIZE);
    ConvertAllLocal(g, r, r, HEADER, 0, HEADER_SIZE);
    var r1 := ConvertAll(g, r, HEADER);
    ConvertedAlike(h, g, b, kind.Fields(), r1, kind.Start(), kind.Size());
    ConvertAllLocal(g, r1, r1, kind.Fields(), kind.Start(), kind.Size());
    AlikeSame(h, g, b, r1, ConvertAll(g, r1, kind.Fields()), HEADER, 0, HEADER_SIZE);
  }

  lemma TimeBack(h: Host, b: Bytes, kind: Kind, r: Bytes)
    requires |b| == |r| == BUFFER && Ordered(kind.TimeFields() + kind.Fields(), 0, BUFFER) && kind.SendsTime()
    requires Agree(r, ConvertAll(h, b, kind.TimeFields() + kind.Fields()), HEADER_SIZE, kind.Size())
    ensures TimeAt(BigEndian, r) == TimeAt(h, b)
  {
    hide ConvertAll, Get;
    var fs := kind.TimeFields() + kind.Fields();
    assert fs[0] == SECONDS_MSB && fs[1] == SECONDS_LSB && fs[2] == NANOSECONDS;
    GetConverted(h, h, b, fs, 0, r);
    GetConverted(h, h, b, fs, 1, r);
    GetConverted(h, h, b, fs, 2, r);
  }

  /** The bytes of a field read the same forwards and backwards. */
  predicate Symmetric(b: Bytes, f: Field)
    requires Within(f, 0, |b|)
  {
    b[f.at..f.at + f.width] == Reverse(b[f.at..f.at + f.width])
  }

  lemma ReadAlike(b: Bytes, f: Field)
    requires Within(f, 0, |b|)
    ensures Get(BigEndian, b, f) == Get(LittleEndian, b, f) <==> Symmetric(b, f)
  {
    var s := b[f.at..f.at + f.width];
    if Value(s) == Value(Reverse(s)) {
      ValueInjective(s, Reverse(s));
    }
  }

  lemma FourBytes()
    ensures Power(4) == 0x1_0000_0000
  {
    assert Power(1) == 0x100 && Power(2) == 0x1_0000 && Power(3) == 0x100_0000;
  }

  /** Hosts of both byte orders read a time stamp alike exactly if the bytes of its three fields are symmetric. */
  lemma TimeReadAlike(b: Bytes)
    requires |b| >= 44
    ensures TimeAt(BigEndian, b) == TimeAt(LittleEndian, b) <==> TimeSymmetric(b)
  {
    hide Get, Symmetric;
    ReadAlike(b, SECONDS_MSB);
    ReadAlike(b, SECONDS_LSB);
    ReadAlike(b, NANOSECONDS);
    FourBytes();
  }

  predicate TimeSymmetric(b: Bytes)
    requires |b| >= 44
  {
    Symmetric(b, SECONDS_MSB) && Symmetric(b, SECONDS_LSB) && Symmetric(b, NANOSECONDS)
  }

  /** A time stamp that is not converted for sending is read as it lies in the sender's memory. */
  lemma TimeUnconverted(h: Host, b: Bytes, kind: Kind, r: Bytes)
    requires |b| == |r| == BUFFER && Ordered(kind.TimeFields() + kind.Fields(), 0, BUFFER)
    requires kind.ReadsTime() && !kind.SendsTime()
    requires Agree(r, ConvertAll(h, b, kind.TimeFields() + kind.Fields()), HEADER_SIZE, kind.Size())
    ensures TimeAt(BigEndian, r) == TimeAt(BigEndian, b)
  {
    hide ConvertAll, Get;
    var fs := kind.TimeFields() + kind.Fields();
    assert fs == kind.Fields();
    if kind.Announce? {
      OrderedThree(Field(44, 2), Field(50, 2), Field(61, 2), 44, 64);
      ConvertAllLocal(h, b, b, fs, 44, 64);
    } else {
      ConvertNone(h, b);
    }
    GetSame(BigEndian, r, b, SECONDS_MSB);
    GetSame(BigEndian, r, b, SECONDS_LSB);
    GetSame(BigEndian, r, b, NANOSECONDS);
  }

  /** Time stamps of zero are symmetric. */
  lemma ZeroIsSymmetric(b: Bytes)
    requires |b| >= 44 && forall k :: 34 <= k < 44 ==> b[k] == 0
    ensures TimeSymmetric(b)
  {
  }

  /** The time stamp that the receiver reads. */
  lemma TimeRead(h: Host, b: Bytes, kind: Kind, r: Bytes)
    requires |b| == |r| == BUFFER && Ordered(kind.TimeFields() + kind.Fields(), 0, BUFFER) && kind.ReadsTime()
    requires Agree(r, ConvertAll(h, b, kind.TimeFields() + kind.Fields()), HEADER_SIZE, kind.Size())
    ensures TimeAt(BigEndian, r) == TimeAt(if kind.SendsTime() then h else BigEndian, b)
    ensures TimeAt(BigEndian, r) == TimeAt(h, b) <==> kind.SendsTime() || h.BigEndian? || TimeSymmetric(b)
  {
    hide ConvertAll, TimeAt, TimeSymmetric;
    TimeReadAlike(b);
    if kind.SendsTime() {
      TimeBack(h, b, kind, r);
    } else {
      TimeUnconverted(h, b, kind, r);
    }
  }

  /** A message of any type, with any TLVs of even length behind it, sent by a host `h` and received by a host `g` of
      either byte order, says there what it said: its header, its port identities, its integers and its TLVs, at the
      same places.  Its time stamp is read as it was written exactly if it was converted for sending, or the sender's
      byte order is that of the network, or the bytes of its fields are symmetric. */
  lemma RoundTrip(h: Host, g: Host, c: Conversion, b: Bytes, kind: Kind, tlvs: seq<nat>, len: nat, r: Bytes)
    requires Built(h, c, b, kind, tlvs, len) && OnWire(h, c, b, kind, tlvs, len, r)
    ensures kind.Size() <= len && Ordered(kind.TimeFields(), 0, BUFFER)
    ensures var receipt := Received(g, c, r, len);
            && receipt.error.None? && receipt.tlvs == tlvs && |receipt.b| == BUFFER
            && Alike(h, g, b, receipt.b, HEADER, 0, HEADER_SIZE)
            && Agree(receipt.b, ConvertAll(h, b, kind.TimeFields()), HEADER_SIZE, kind.Start())
            && Alike(h, g, b, receipt.b, kind.Fields(), kind.Start(), kind.Size())
            && Carried(h, g, c, b, receipt.b, tlvs, kind.Size(), len)
            && (receipt.time.Some? <==> kind.ReadsTime())
            && (kind.ReadsTime() ==>
                  (receipt.time == Some(TimeAt(h, b)) <==> kind.SendsTime() || h.BigEndian? || TimeSymmetric(b)))
  {
    hide ConvertAll, TimeSymmetric, Symmetric, Chain, SendTlvs, Sendable, TimeAt, Walk, Alike, Carried;
    hide Received, SentFields, OnWire, KindOf, Ordered;
    WireRegions(h, c, b, kind, tlvs, len, r);
    FieldsBack(h, g, b, kind, r);
    ReceivedIs(g, c, r, len, kind);
    var r1 := ConvertAll(g, r, HEADER);
    var r2 := ConvertAll(g, r1, kind.Fields());
    if kind.ReadsTime() {
      TimeRead(h, b, kind, r1);
    }
    if kind.HasSuffix() {
      AfterWalk(h, g, c, b, SentFields(h, b).value, kind, tlvs, len, r, r2);
      var w := Walk(g, c, r2, kind.Size(), len).b;
      AlikeSame(h, g, b, r2, w, HEADER, 0, HEADER_SIZE);
      AlikeSame(h, g, b, r2, w, kind.Fields(), kind.Start(), kind.Size());
    } else {
      NoneCarried(h, g, c, b, r2, kind.Size(), len);
    }
  }

  /** An integer is big-endian on the network, and read by the receiver as the sender wrote it. */
  ghost predicate Arrives(h: Host, g: Host, b: Bytes, r: Bytes, w: Bytes, f: Field) {
    && Within(f, 0, |b|) && Within(f, 0, |r|) && Within(f, 0, |w|)
    && Get(BigEndian, r, f) == Get(h, b, f) && Get(g, w, f) == Get(h, b, f)
  }

  lemma FieldArrives(h: Host, g: Host, b: Bytes, r: Bytes, w: Bytes, sent: seq<Field>, fs: seq<Field>, i: nat, j: nat,
                     lo: nat, hi: nat)
    requires |b| == |r| == |w| == BUFFER && hi <= BUFFER && Ordered(sent, 0, BUFFER)
    requires i < |fs| && j < |sent| && sent[j] == fs[i]
    requires Agree(r, ConvertAll(h, b, sent), lo, hi) && Alike(h, g, b, w, fs, lo, hi)
    ensures Arrives(h, g, b, r, w, fs[i])
  {
    hide ConvertAll, Get, Ordered, Outside;
    GetConverted(h, g, b, sent, j, r);
  }

  /** The integers of a message, by their places: those of the header, and those of each type behind it. */
  lemma IntegersArrive(h: Host, g: Host, c: Conversion, b: Bytes, kind: Kind, tlvs: seq<nat>, len: nat, r: Bytes)
    requires Built(h, c, b, kind, tlvs, len) && OnWire(h, c, b, kind, tlvs, len, r)
    ensures len <= BUFFER == |r|
    ensures var w := Received(g, c, r, len).b;
            && Arrives(h, g, b, r, w, Field(2, 2)) && Arrives(h, g, b, r, w, Field(8, 8))
            && Arrives(h, g, b, r, w, Field(28, 2)) && Arrives(h, g, b, r, w, Field(30, 2))
            && (b[0] % 16 == 11 ==>
                  && Arrives(h, g, b, r, w, Field(44, 2)) && Arrives(h, g, b, r, w, Field(50, 2))
                  && Arrives(h, g, b, r, w, Field(61, 2)))
            && (b[0] % 16 in {3, 9, 10} ==> Arrives(h, g, b, r, w, Field(52, 2)))
            && (b[0] % 16 in {12, 13} ==> Arrives(h, g, b, r, w, Field(42, 2)))
  {
    hide ConvertAll, Alike, Arrives, Carried, TimeAt, TimeSymmetric, Received, OnWire, Ordered, SentFields, Chain;
    RoundTrip(h, g, c, b, kind, tlvs, len, r);
    WireRegions(h, c, b, kind, tlvs, len, r);
    var w, sent, n := Received(g, c, r, len).b, kind.TimeFields() + kind.Fields(), |kind.TimeFields()|;
    forall i | 0 <= i < 4
      ensures Arrives(h, g, b, r, w, HEADER[i])
    {
      FieldArrives(h, g, b, r, w, HEADER, HEADER, i, i, 0, HEADER_SIZE);
    }
    assert HEADER[0] == Field(2, 2) && HEADER[1] == Field(8, 8);
    assert HEADER[2] == Field(28, 2) && HEADER[3] == Field(30, 2);
    forall i | 0 <= i < |kind.Fields()|
      ensures Arrives(h, g, b, r, w, kind.Fields()[i])
    {
      FieldArrives(h, g, b, r, w, sent, kind.Fields(), i, n + i, kind.Start(), kind.Size());
    }
    FieldsByType(b[0], kind);
  }

  lemma FieldsByType(tsmt: Byte, kind: Kind)
    requires KindOf(tsmt) == Some(kind)
    ensures var fs := kind.Fields();
            && (tsmt % 16 == 11 ==>
                  |fs| == 3 && fs[0] == Field(44, 2) && fs[1] == Field(50, 2) && fs[2] == Field(61, 2))
            && (tsmt % 16 in {3, 9, 10} ==> |fs| == 1 && fs[0] == Field(52, 2))
            && (tsmt % 16 in {12, 13} ==> |fs| == 1 && fs[0] == Field(42, 2))
  {
  }

  /** The time stamp that is received.  Of a path delay response, a Follow_Up, a Delay_Resp and a path delay response
      follow-up it is the 48 bits of seconds and the nanoseconds that the sender wrote.  A Sync and an Announce have one
      as well, other types none. */
  lemma TimeArrives(h: Host, g: Host, c: Conversion, b: Bytes, kind: Kind, tlvs: seq<nat>, len: nat, r: Bytes)
    requires Built(h, c, b, kind, tlvs, len) && OnWire(h, c, b, kind, tlvs, len, r)
    ensures len <= BUFFER == |r| == |b|
    ensures var time := Received(g, c, r, len).time;
            && (b[0] % 16 in {3, 8, 9, 10} ==>
                  time == Some(Time(Get(h, b, Field(36, 4)) + 0x1_0000_0000 * Get(h, b, Field(34, 2)),
                                    Get(h, b, Field(40, 4)))))
            && (time.Some? <==> b[0] % 16 in {0, 3, 8, 9, 10, 11})
  {
    hide ConvertAll, Alike, Carried, TimeSymmetric, Received, OnWire, Ordered, SentFields, Chain, Get;
    RoundTrip(h, g, c, b, kind, tlvs, len, r);
    WireRegions(h, c, b, kind, tlvs, len, r);
  }

  /** The TLVs of a message, by their places: the first one behind the message, each one behind the one before. */
  lemma TlvsArrive(h: Host, g: Host, c: Conversion, b: Bytes, kind: Kind, tlvs: seq<nat>, len: nat, r: Bytes, i: nat)
    requires Built(h, c, b, kind, tlvs, len) && OnWire(h, c, b, kind, tlvs, len, r) && i < |tlvs|
    ensures len <= BUFFER == |r| && tlvs[0] == kind.Size()
    ensures var receipt := Received(g, c, r, len);
            && receipt.tlvs == tlvs
            && Placed(h, g, c, b, receipt.b, tlvs[i], if i + 1 < |tlvs| then tlvs[i + 1] else len)
  {
    hide ConvertAll, Alike, TimeSymmetric, Received, OnWire, Ordered, SentFields, Chain, Carried, Placed, TimeAt;
    RoundTrip(h, g, c, b, kind, tlvs, len, r);
    WireRegions(h, c, b, kind, tlvs, len, r);
    TlvsPlaced(h, g, c, b, Received(g, c, r, len).b, tlvs, kind.Size(), len, i);
  }

  /** Between hosts of one byte order, the bytes themselves come back, but for a time stamp that stays converted. */
  lemma RoundTripHere(h: Host, c: Conversion, b: Bytes, kind: Kind, tlvs: seq<nat>, len: nat, r: Bytes)
    requires Built(h, c, b, kind, tlvs, len) && OnWire(h, c, b, kind, tlvs, len, r)
    requires forall t, v :: c.Means(t, v) == v
    ensures kind.Size() <= len
    ensures var receipt := Received(h, c, r, len);
            && receipt.error.None? && receipt.tlvs == tlvs
            && Agree(receipt.b, b, 0, HEADER_SIZE) && Agree(receipt.b, b, kind.Start(), len)
  {
    hide ConvertAll, Chain, TimeAt, Alike, Carried, Received, KindOf, TimeSymmetric;
    RoundTrip(h, h, c, b, kind, tlvs, len, r);
    var w := Received(h, c, r, len).b;
    AlikeHere(h, b, w, HEADER, 0, HEADER_SIZE);
    AlikeHere(h, b, w, kind.Fields(), kind.Start(), kind.Size());
    CarriedBack(h, c, b, w, tlvs, kind.Size(), len);
  }

  lemma AfterWalk(h: Host, g: Host, c: Conversion, b: Bytes, s: Bytes, kind: Kind, tlvs: seq<nat>, len: nat, r: Bytes,
                  r2: Bytes)
    requires kind.Size() <= len <= BUFFER && |b| == |s| == |r| == |r2| == BUFFER
    requires Chain(h, c, s, tlvs, kind.Size(), len) && Sendable(h, c, s, tlvs) && Chain(h, c, b, tlvs, kind.Size(), len)
    requires Agree(r2, r, kind.Size(), BUFFER) && Agree(r, SendTlvs(h, c, s, tlvs), kind.Size(), len)
    requires Agree(s, b, kind.Size(), BUFFER)
    ensures var w := Walk(g, c, r2, kind.Size(), len);
            && w.error.None? && w.tlvs == tlvs && Agree(w.b, r2, 0, kind.Size())
            && Carried(h, g, c, b, w.b, tlvs, kind.Size(), len)
  {
    hide Chain, SendTlvs, Sendable, Walk, Carried;
    WalkSent(h, g, c, s, tlvs, r2, kind.Size(), len);
    CarriedSame(h, g, c, s, b, Walk(g, c, r2, kind.Size(), len).b, tlvs, kind.Size(), len);
  }

  lemma ReceivedIs(h: Host, c: Conversion, r: Bytes, cnt: nat, kind: Kind)
    requires |r| == BUFFER && kind.Size() <= cnt <= BUFFER && r[1] % 16 == 2 && KindOf(r[0]) == Some(kind)
    ensures Ordered(HEADER, 0, BUFFER) && Ordered(kind.Fields(), 0, BUFFER)
    ensures var r1 := ConvertAll(h, r, HEADER);
            var r2 := ConvertAll(h, r1, kind.Fields());
            var time := if kind.ReadsTime() then Some(TimeAt(BigEndian, r1)) else None;
            var w := Walk(h, c, r2, kind.Size(), cnt);
            Received(h, c, r, cnt) ==
            if kind.HasSuffix() then Receipt(w.error, w.tlvs, w.b, time) else Receipt(None, [], r2, time)
  {
    KindKept(h, r);
    LayoutFits(kind);
  }

  lemma NoneCarried(h: Host, g: Host, c: Conversion, b: Bytes, w: Bytes, off: nat, end: nat)
    requires Chain(h, c, b, [], off, end) && end <= |w|
    ensures off == end && Carried(h, g, c, b, w, [], off, end)
  {
  }

  /** A Sync whose time stamp holds one nanosecond, in the memory of a little-endian host. */
  const SYNC_AT_ONE: Bytes := seq(BUFFER, i => if i == 1 then 2 else if i == 40 then 1 else 0)

  lemma SyncBuilt(c: Conversion)
    ensures Built(LittleEndian, c, SYNC_AT_ONE, Sync, [], 44)
  {
  }

  lemma SyncTimes()
    ensures TimeAt(LittleEndian, SYNC_AT_ONE) == Time(0, 1)
    ensures TimeAt(BigEndian, SYNC_AT_ONE) == Time(0, 0x100_0000)
  {
    hide Value;
    var b := SYNC_AT_ONE;
    assert b[34..36] == [0, 0] && b[36..40] == [0, 0, 0, 0] && b[40..44] == [1, 0, 0, 0];
    ValueOfFour(1, 0, 0, 0);
    ValueOfFour(0, 0, 0, 1);
    ValueOfFour(0, 0, 0, 0);
    ValueOfTwo(0, 0);
    assert Reverse([1, 0, 0, 0]) == [0, 0, 0, 1] && Reverse([0, 0, 0, 0]) == [0, 0, 0, 0];
    assert Reverse([0, 0]) == [0, 0];
  }

  /** Any host reads it as 2 to the power of 24 nanoseconds. */
  lemma SyncMisread(c: Conversion, g: Host, r: Bytes)
    requires (SyncBuilt(c); OnWire(LittleEndian, c, SYNC_AT_ONE, Sync, [], 44, r))
    ensures TimeAt(LittleEndian, SYNC_AT_ONE) == Time(0, 1)
    ensures Received(g, c, r, 44).time == Some(Time(0, 0x100_0000))
  {
    hide TimeAt, Built, OnWire, SentFields, Alike;
    SyncBuilt(c);
    SyncTimes();
    WireRegions(LittleEndian, c, SYNC_AT_ONE, Sync, [], 44, r);
    FieldsBack(LittleEndian, g, SYNC_AT_ONE, Sync, r);
    TimeRead(LittleEndian, SYNC_AT_ONE, Sync, ConvertAll(g, r, HEADER));
    ReceivedIs(g, c, r, 44, Sync);
  }

  lemma ValueOfTwo(i: Byte, j: Byte)
    ensures Value([i, j]) == i * 0x100 + j
  {
    assert [i, j][..1] == [i] && [i][..0] == [];
  }

  lemma ValueOfFour(i: Byte, j: Byte, k: Byte, l: Byte)
    ensures Value([i, j, k, l]) == ((i * 0x100 + j) * 0x100 + k) * 0x100 + l
  {
    assert [i, j, k, l][..3] == [i, j, k] && [i, j, k][..2] == [i, j] && [i, j][..1] == [i] && [i][..0] == [];
    assert Value([i]) == i && Value([i, j]) == i * 0x100 + j;
  }
}
