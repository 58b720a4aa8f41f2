/** The messages of section 13 of IEEE 1588-2008 as they lie in memory, and their conversion. */
module MsgLayout {
  import opened Options
  import opened PtpDataset
  import opened MsgBytes
  import opened MsgTlv

  /** The size of a message buffer. */
  const BUFFER := 1500

  const HEADER_SIZE := 34
  const LENGTH := Field(2, 2)
  const HEADER := [LENGTH, Field(8, 8), Field(28, 2), Field(30, 2)]

  const SECONDS_MSB := Field(34, 2)
  const SECONDS_LSB := Field(36, 4)
  const NANOSECONDS := Field(40, 4)
  const TIMESTAMP := [SECONDS_MSB, SECONDS_LSB, NANOSECONDS]

  datatype Kind =
    | Sync | DelayReq | PdelayReq | PdelayResp | FollowUp | DelayResp | PdelayRespFollowUp | Announce | Signaling
    | Management
  {
    function Size(): nat {
      match this
      case Sync | DelayReq | FollowUp | Signaling => 44
      case PdelayReq | PdelayResp | DelayResp | PdelayRespFollowUp => 54
      case Announce => 64
      case Management => 48
    }

    /** Whether TLVs may follow. */
    predicate HasSuffix() {
      !Sync? && !PdelayReq? && !PdelayResp?
    }

    /** Whether the sender converts the time stamp. */
    predicate SendsTime() {
      PdelayResp? || FollowUp? || DelayResp? || PdelayRespFollowUp?
    }

    /** Whether the receiver reads the time stamp. */
    predicate ReadsTime() {
      SendsTime() || Sync? || Announce?
    }

    /** The fields converted on the way out and on the way in, apart from the time stamp: port numbers, and the integers
        of an Announce. */
    function Fields(): seq<Field> {
      match this
      case PdelayResp | DelayResp | PdelayRespFollowUp => [Field(52, 2)]
      case Announce => [Field(44, 2), Field(50, 2), Field(61, 2)]
      case Signaling | Management => [Field(42, 2)]
      case Sync | DelayReq | PdelayReq | FollowUp => []
    }

    /** Where what follows the header and a converted time stamp starts. */
    function Start(): nat {
      if SendsTime() then 44 else HEADER_SIZE
    }

    function TimeFields(): seq<Field> {
      if SendsTime() then TIMESTAMP else []
    }
  }

  /** The type of a message, from the low half of its first byte. */
  function KindOf(tsmt: Byte): Option<Kind> {
    match tsmt % 16
    case 0 => Some(Sync)
    case 1 => Some(DelayReq)
    case 2 => Some(PdelayReq)
    case 3 => Some(PdelayResp)
    case 8 => Some(FollowUp)
    case 9 => Some(DelayResp)
    case 10 => Some(PdelayRespFollowUp)
    case 11 => Some(Announce)
    case 12 => Some(Signaling)
    case 13 => Some(Management)
    case _ => None
  }

  lemma LayoutOrdered(kind: Kind)
    ensures Ordered(HEADER, 0, HEADER_SIZE)
    ensures Ordered(kind.TimeFields() + kind.Fields(), HEADER_SIZE, kind.Size())
    ensures Ordered(kind.TimeFields(), HEADER_SIZE, kind.Size())
    ensures Ordered(kind.Fields(), HEADER_SIZE, kind.Size())
    ensures Ordered(kind.TimeFields(), HEADER_SIZE, kind.Start()) && Ordered(kind.Fields(), kind.Start(), kind.Size())
  {
    OrderedOne(LENGTH, 0, 4);
    OrderedThree(Field(8, 8), Field(28, 2), Field(30, 2), 4, HEADER_SIZE);
    OrderedConcat([LENGTH], [Field(8, 8), Field(28, 2), Field(30, 2)], 0, 4, HEADER_SIZE);
    assert HEADER == [LENGTH] + [Field(8, 8), Field(28, 2), Field(30, 2)];
    OrderedThree(SECONDS_MSB, SECONDS_LSB, NANOSECONDS, HEADER_SIZE, 44);
    OrderedThree(Field(44, 2), Field(50, 2), Field(61, 2), 44, 64);
    OrderedOne(Field(52, 2), 44, 54);
    OrderedOne(Field(42, 2), HEADER_SIZE, 44);
    var mid := if kind.Signaling? || kind.Management? then HEADER_SIZE else 44;
    OrderedWider(kind.TimeFields(), HEADER_SIZE, HEADER_SIZE, mid, kind.Size());
    if kind.Signaling? || kind.Management? {
      OrderedWider(kind.Fields(), HEADER_SIZE, HEADER_SIZE, 44, kind.Size());
    }
    OrderedWider(kind.Fields(), mid, HEADER_SIZE, kind.Size(), kind.Size());
    OrderedConcat(kind.TimeFields(), kind.Fields(), HEADER_SIZE, mid, kind.Size());
  }

  lemma OrderedOne(f: Field, lo: nat, hi: nat)
    requires lo <= f.at && f.at + f.width <= hi
    ensures Ordered([f], lo, hi)
  {
    assert [f][1..] == [];
  }

  lemma OrderedThree(f: Field, g: Field, h: Field, lo: nat, hi: nat)
    requires lo <= f.at && f.at + f.width <= g.at && g.at + g.width <= h.at && h.at + h.width <= hi
    ensures Ordered([f, g, h], lo, hi)
  {
    OrderedOne(h, g.at + g.width, hi);
    assert [f, g, h][1..] == [g, h] && [g, h][1..] == [h];
  }

  lemma {:induction false} OrderedConcat(fs: seq<Field>, gs: seq<Field>, lo: nat, mid: nat, hi: nat)
    requires Ordered(fs, lo, mid) && Ordered(gs, mid, hi)
    ensures Ordered(fs + gs, lo, hi)
  {
    if fs == [] {
      OrderedWider(gs, mid, lo, hi, hi);
      assert fs + gs == gs;
    } else {
      OrderedConcat(fs[1..], gs, fs[0].at + fs[0].width, mid, hi);
      assert (fs + gs)[1..] == fs[1..] + gs;
    }
  }

  // ---- sending and receiving ----

  /** Time stamps are 48 bits of seconds, and nanoseconds. */
  datatype Time = Time(sec: nat, nsec: nat)

  /** The time stamp as the host reads its fields. */
  function TimeAt(h: Host, b: Bytes): Time
    requires |b| >= 44
  {
    Time(Get(h, b, SECONDS_LSB) + 0x1_0000_0000 * Get(h, b, SECONDS_MSB), Get(h, b, NANOSECONDS))
  }

  /** A message whose fields have been converted for sending: none if its type is unknown. */
  function SentFields(h: Host, b: Bytes): (r: Option<Bytes>)
    requires |b| == BUFFER
    ensures r.Some? ==> |r.value| == |b|
  {
    var kind := KindOf(b[0]);
    if kind.None? then None
    else
      LayoutFits(kind.value);
      Some(ConvertAll(h, ConvertAll(h, b, HEADER), kind.value.TimeFields() + kind.value.Fields()))
  }

  lemma LayoutFits(kind: Kind)
    ensures Ordered(HEADER, 0, BUFFER) && Ordered(kind.TimeFields() + kind.Fields(), 0, BUFFER)
    ensures Ordered(kind.TimeFields(), 0, BUFFER) && Ordered(kind.Fields(), 0, BUFFER)
  {
    LayoutOrdered(kind);
    OrderedWider(HEADER, 0, 0, HEADER_SIZE, BUFFER);
    OrderedWider(kind.TimeFields() + kind.Fields(), HEADER_SIZE, 0, kind.Size(), BUFFER);
    OrderedWider(kind.TimeFields(), HEADER_SIZE, 0, kind.Size(), BUFFER);
    OrderedWider(kind.Fields(), HEADER_SIZE, 0, kind.Size(), BUFFER);
  }

  datatype Receipt = Receipt(error: Option<Error>, tlvs: seq<nat>, b: Bytes, time: Option<Time>)

  /** What becomes of `cnt` received bytes. */
  function Received(h: Host, c: Conversion, b: Bytes, cnt: nat): Receipt
    requires |b| == BUFFER && cnt <= BUFFER
  {
    if cnt < HEADER_SIZE then Receipt(Some(BadMessage), [], b, None)
    else if b[1] % 16 != 2 then Receipt(Some(BadProtocol), [], b, None)
    else
      LayoutFits(Sync);
      var b1 := ConvertAll(h, b, HEADER);
      var kind := KindOf(b1[0]);
      if kind.None? || cnt < kind.value.Size() then Receipt(Some(BadMessage), [], b1, None)
      else
        LayoutFits(kind.value);
        var time := if kind.value.ReadsTime() then Some(TimeAt(BigEndian, b1)) else None;
        var b2 := ConvertAll(h, b1, kind.value.Fields());
        if !kind.value.HasSuffix() then Receipt(None, [], b2, time)
        else
          var w := Walk(h, c, b2, kind.value.Size(), cnt);
          Receipt(w.error, w.tlvs, w.b, time)
  }

  /** A message as a sender builds it: of version 2, with the given type and TLVs, `len` bytes long. */
  predicate Built(h: Host, c: Conversion, b: Bytes, kind: Kind, tlvs: seq<nat>, len: nat) {
    && |b| == BUFFER && len <= BUFFER
    && b[1] % 16 == 2 && KindOf(b[0]) == Some(kind)
    && (tlvs != [] ==> kind.HasSuffix())
    && Chain(h, c, b, tlvs, kind.Size(), len)
  }

  lemma KindKept(h: Host, b: Bytes)
    requires |b| == BUFFER
    ensures Ordered(HEADER, 0, BUFFER)
    ensures ConvertAll(h, b, HEADER)[0] == b[0] && ConvertAll(h, b, HEADER)[1] == b[1]
  {
    LayoutFits(Sync);
    MirrorHeader();
  }

  lemma MirrorHeader()
    ensures Mirror(HEADER, 0) == 0 && Mirror(HEADER, 1) == 1
  {
    LayoutOrdered(Sync);
    OrderedThree(Field(8, 8), Field(28, 2), Field(30, 2), 4, HEADER_SIZE);
    assert HEADER[1..] == [Field(8, 8), Field(28, 2), Field(30, 2)];
    MirrorStays(HEADER[1..], 4, HEADER_SIZE, 0);
    MirrorStays(HEADER[1..], 4, HEADER_SIZE, 1);
  }
}
