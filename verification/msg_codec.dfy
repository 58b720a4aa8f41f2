/** Message buffers, converted in place. */
module MsgCodec {
  import opened Options
  import opened PtpDataset
  import opened MsgBytes
  import opened MsgTlv
  import opened MsgLayout

  lemma Get16(h: Host, b: Bytes, at: nat, v: UInt16)
    requires at + 2 <= |b| && b[at..at + 2] == Bytes16(h, v)
    ensures Get(h, b, Field(at, 2)) == v
  {
    var s := if h.LittleEndian? then Reverse(Bytes16(h, v)) else Bytes16(h, v);
    assert s == [v / 0x100, v % 0x100];
    assert s[..1] == [v / 0x100] && [v / 0x100][..0] == [];
    assert Value([v / 0x100]) == v / 0x100;
    assert Value(s) == v / 0x100 * 0x100 + v % 0x100;
  }

  /** A TLV behind a chain lengthens it. */
  lemma {:induction false} ChainMore(h: Host, c: Conversion, b: Bytes, tlvs: seq<nat>, off: nat, end: nat)
    requires Chain(h, c, b, tlvs, off, end) && Fits(h, b, end, |b|) && LengthAt(h, b, end) % 2 == 0
    requires Recovers(c, TypeAt(h, b, end), ValueAt(b, end, LengthAt(h, b, end)))
    ensures Chain(h, c, b, tlvs + [end], off, end + TLV_SIZE + LengthAt(h, b, end))
  {
    hide LengthAt, TypeAt, ValueAt, Recovers;
    if tlvs == [] {
      assert tlvs + [end] == [end] && [end][1..] == [];
    } else {
      ChainMore(h, c, b, tlvs[1..], off + TLV_SIZE + LengthAt(h, b, off), end);
      assert (tlvs + [end])[1..] == tlvs[1..] + [end];
    }
  }

  /** A message with one more TLV filled in, and its length adjusted. */
  lemma Filled(h: Host, c: Conversion, b: Bytes, b': Bytes, kind: Kind, tlvs: seq<nat>, len: nat, t: UInt16, v: Bytes)
    requires Built(h, c, b, kind, tlvs, len) && kind.HasSuffix() && len + TLV_SIZE + |v| <= BUFFER
    requires |v| % 2 == 0 && Recovers(c, t, v) && kind.Size() <= len
    requires var b1 := Put(b, 2, Bytes16(h, len + TLV_SIZE + |v|));
             b' == Put(b1, len, Bytes16(h, t) + Bytes16(h, |v|) + v)
    ensures var len' := len + TLV_SIZE + |v|;
            && Built(h, c, b', kind, tlvs + [len], len') && Get(h, b', LENGTH) == len'
            && TypeAt(h, b', len) == t && LengthAt(h, b', len) == |v| && ValueAt(b', len, |v|) == v
            && Agree(b', b, 4, len)
  {
    hide Chain, Recovers, Get, Bytes16;
    var b1 := Put(b, 2, Bytes16(h, len + TLV_SIZE + |v|));
    PutLocal(b, 2, Bytes16(h, len + TLV_SIZE + |v|));
    var tlv := Bytes16(h, t) + Bytes16(h, |v|) + v;
    PutLocal(b1, len, tlv);
    assert b'[2..4] == b1[2..4];
    Get16(h, b', 2, len + TLV_SIZE + |v|);
    assert b'[len..len + 2] == tlv[0..2] == Bytes16(h, t);
    Get16(h, b', len, t);
    assert b'[len + 2..len + 4] == tlv[2..4] == Bytes16(h, |v|);
    Get16(h, b', len + 2, |v|);
    assert b'[len + 4..len + 4 + |v|] == tlv[4..] == v;
    ChainSame(h, c, b, b', tlvs, kind.Size(), len);
    ChainMore(h, c, b', tlvs, kind.Size(), len);
  }

  /** Where the last TLV of a chain ends. */
  lemma {:induction false} ChainEnd(h: Host, c: Conversion, b: Bytes, tlvs: seq<nat>, off: nat, end: nat)
    requires Chain(h, c, b, tlvs, off, end)
    ensures var last := if tlvs == [] then off else tlvs[|tlvs| - 1];
            if tlvs == [] then end == off else Fits(h, b, last, end) && end == last + TLV_SIZE + LengthAt(h, b, last)
  {
    hide LengthAt, TypeAt, ValueAt, Recovers;
    if |tlvs| > 0 {
      ChainEnd(h, c, b, tlvs[1..], off + TLV_SIZE + LengthAt(h, b, off), end);
    }
  }

  /** One step of the walk. */
  lemma UnfoldWalk(h: Host, c: Conversion, b: Bytes, off: nat, end: nat)
    requires off <= end <= |b|
    ensures end - off < TLV_SIZE ==> Walk(h, c, b, off, end) == Walked(None, [], b)
    ensures end - off >= TLV_SIZE ==>
              var b1 := ConvertHead(h, b, off);
              var len := LengthAt(h, b1, off);
              if len % 2 == 1 || len > end - off - TLV_SIZE then
                Walk(h, c, b, off, end) == Walked(Some(BadMessage), [], b1)
              else
                var v := c.Post(TypeAt(h, b1, off), ValueAt(b1, off, len));
                if v.None? then Walk(h, c, b, off, end) == Walked(Some(BadValue), [], b1)
                else
                  var w := Walk(h, c, Put(b1, off + TLV_SIZE, v.value), off + TLV_SIZE + len, end);
                  Walk(h, c, b, off, end) == Walked(w.error, [off] + w.tlvs, w.b)
  {
    hide ConvertHead, LengthAt, TypeAt, ValueAt, Put;
  }

  class Message {
    const data: array<Byte>
    /** The TLVs, by their offsets. */
    var tlvs: seq<nat>
    var time: Option<Time>

    constructor ()
      ensures data.Length == BUFFER && fresh(data) && tlvs == [] && time.None?
    {
      data := new Byte[BUFFER](_ => 0);
      tlvs, time := [], None;
    }

    /** Converts one field in place. */
    method Swap(h: Host, f: Field)
      requires Within(f, 0, data.Length)
      modifies data
      ensures data[..] == Convert(h, old(data[..]), f)
    {
      if h.LittleEndian? {
        ghost var was := data[..];
        var i := 0;
        while i < f.width - 1 - i
          invariant 0 <= i && 2 * i <= f.width + 1
          invariant forall k :: 0 <= k < data.Length && !(f.at <= k < f.at + f.width) ==> data[k] == was[k]
          invariant forall k :: f.at + i <= k < f.at + f.width - i ==> data[k] == was[k]
          invariant forall k :: f.at <= k < f.at + i || f.at + f.width - i <= k < f.at + f.width ==>
            data[k] == was[2 * f.at + f.width - 1 - k]
        {
          var lo, hi := f.at + i, f.at + f.width - 1 - i;
          data[lo], data[hi] := data[hi], data[lo];
          i := i + 1;
        }
      }
    }

    /** Converts several fields, one after the other. */
    method SwapAll(h: Host, fs: seq<Field>)
      requires Ordered(fs, 0, data.Length)
      modifies data
      ensures data[..] == ConvertAll(h, old(data[..]), fs)
    {
      hide ConvertAll, Convert;
      for i := 0 to |fs|
        invariant Ordered(fs[i..], 0, data.Length)
        invariant ConvertAll(h, data[..], fs[i..]) == ConvertAll(h, old(data[..]), fs)
      {
        ConvertOneMore(h, data[..], fs[i..]);
        assert fs[i..][1..] == fs[i + 1..];
        Swap(h, fs[i]);
      }
      ConvertNone(h, data[..]);
    }

    /** Writes bytes at a place. */
    method Store(at: nat, v: Bytes)
      requires at + |v| <= data.Length
      modifies data
      ensures data[..] == Put(old(data[..]), at, v)
    {
      ghost var was := data[..];
      for i := 0 to |v|
        invariant data[..] == was[..at] + v[..i] + was[at + i..]
      {
        data[at + i] := v[i];
      }
      assert v[..|v|] == v;
    }

    /** Converts one TLV for sending. */
    method SendOne(h: Host, c: Conversion, off: nat)
      requires Fits(h, data[..], off, data.Length)
      modifies data
      ensures data[..] == SendTlv(h, c, old(data[..]), off)
    {
      hide LengthAt, TypeAt, ValueAt, Put, ConvertHead;
      var v := ValueAt(data[..], off, LengthAt(h, data[..], off));
      Store(off + TLV_SIZE, c.Pre(TypeAt(h, data[..], off), v));
      SwapHead(h, off);
    }

    /** Where the next TLV goes, if there is room for `length` bytes: behind the last, or behind the message proper. */
    method TlvPrepare(h: Host, kind: Kind, length: nat) returns (at: Option<nat>)
      requires data.Length == BUFFER
      requires tlvs != [] ==> tlvs[|tlvs| - 1] + TLV_SIZE <= BUFFER
      ensures var end := if tlvs == [] then kind.Size()
                         else tlvs[|tlvs| - 1] + TLV_SIZE + LengthAt(h, data[..], tlvs[|tlvs| - 1]);
              at == if kind.HasSuffix() && end + length <= BUFFER then Some(end) else None
    {
      if !kind.HasSuffix() {
        return None;
      }
      var ptr := kind.Size();
      if tlvs != [] {
        ptr := tlvs[|tlvs| - 1] + TLV_SIZE + LengthAt(h, data[..], tlvs[|tlvs| - 1]);
      }
      at := if ptr + length > BUFFER then None else Some(ptr);
    }

    /** Appends a TLV of `length` bytes, still to be filled in, and counts it in the message's length. */
    method TlvAppend(h: Host, kind: Kind, length: nat) returns (at: Option<nat>)
      requires data.Length == BUFFER
      requires tlvs != [] ==> tlvs[|tlvs| - 1] + TLV_SIZE <= BUFFER
      modifies this`tlvs, data
      ensures var b := old(data[..]);
              var end := if old(tlvs) == [] then kind.Size()
                         else old(tlvs)[|old(tlvs)| - 1] + TLV_SIZE + LengthAt(h, b, old(tlvs)[|old(tlvs)| - 1]);
              && at == (if kind.HasSuffix() && end + length <= BUFFER then Some(end) else None)
              && tlvs == old(tlvs) + (if at.Some? then [at.value] else [])
              && data[..] == if at.None? then b else Put(b, 2, Bytes16(h, (Get(h, b, LENGTH) + length) % 0x1_0000))
    {
      hide LengthAt, Get, Put, Bytes16;
      at := TlvPrepare(h, kind, length);
      if at.Some? {
        Store(2, Bytes16(h, (Get(h, data[..], LENGTH) + length) % 0x1_0000));
        tlvs := tlvs + [at.value];
      }
    }

    /** Adds a TLV: appends it, and fills it in.  What the message was built of stays. */
    method AddTlv(h: Host, c: Conversion, kind: Kind, len: nat, t: UInt16, v: Bytes) returns (ok: bool)
      requires Built(h, c, data[..], kind, tlvs, len) && Get(h, data[..], LENGTH) == len
      requires |v| % 2 == 0 && |v| < 0x1_0000 && Recovers(c, t, v)
      modifies this`tlvs, data
      ensures ok <==> kind.HasSuffix() && len + TLV_SIZE + |v| <= BUFFER
      ensures !ok ==> tlvs == old(tlvs) && data[..] == old(data[..])
      ensures ok ==>
                var len' := len + TLV_SIZE + |v|;
                && Built(h, c, data[..], kind, tlvs, len') && Get(h, data[..], LENGTH) == len'
                && tlvs == old(tlvs) + [len]
                && TypeAt(h, data[..], len) == t && LengthAt(h, data[..], len) == |v|
                && ValueAt(data[..], len, |v|) == v
                && Agree(data[..], old(data[..]), 4, len)
    {
      hide Chain, Recovers, Get, Bytes16, Put, LengthAt, TypeAt, ValueAt, Agree, KindOf;
      ghost var was := data[..];
      ChainEnd(h, c, was, tlvs, kind.Size(), len);
      ChainOrder(h, c, was, tlvs, kind.Size(), len);
      var at := TlvAppend(h, kind, TLV_SIZE + |v|);
      if at.None? {
        return false;
      }
      assert at == Some(len);
      Store(len, Bytes16(h, t) + Bytes16(h, |v|) + v);
      ok := true;
      Filled(h, c, was, data[..], kind, old(tlvs), len, t, v);
    }

    /** Prepares a message for sending: converts its fields and its TLVs, and forgets the list of TLVs.  Of a message of
        unknown type only the header is converted. */
    method PreSend(h: Host, c: Conversion) returns (ok: bool)
      requires data.Length == BUFFER
      requires SentFields(h, data[..]).Some? ==> Sendable(h, c, SentFields(h, data[..]).value, tlvs)
      modifies this`tlvs, data
      ensures ok <==> SentFields(h, old(data[..])).Some?
      ensures ok ==> data[..] == SendTlvs(h, c, SentFields(h, old(data[..])).value, old(tlvs)) && tlvs == []
      ensures !ok ==> Ordered(HEADER, 0, BUFFER) && data[..] == ConvertAll(h, old(data[..]), HEADER)
      ensures !ok ==> tlvs == old(tlvs)
    {
      hide ConvertAll, Sendable, SendTlvs;
      KindKept(h, data[..]);
      SwapAll(h, HEADER);
      assert data[0] == data[..][0];
      var kind := KindOf(data[0]);
      if kind.None? {
        return false;
      }
      LayoutFits(kind.value);
      SwapAll(h, kind.value.TimeFields() + kind.value.Fields());
      SendAll(h, c);
      ok := true;
    }

    method SendAll(h: Host, c: Conversion)
      requires Sendable(h, c, data[..], tlvs)
      modifies this`tlvs, data
      ensures data[..] == SendTlvs(h, c, old(data[..]), old(tlvs)) && tlvs == []
    {
      hide SendTlv, Fits;
      for i := 0 to |tlvs|
        invariant tlvs == old(tlvs) && Sendable(h, c, data[..], tlvs[i..])
        invariant SendTlvs(h, c, data[..], tlvs[i..]) == SendTlvs(h, c, old(data[..]), tlvs)
      {
        assert tlvs[i..][0] == tlvs[i] && tlvs[i..][1..] == tlvs[i + 1..];
        SendOne(h, c, tlvs[i]);
      }
      tlvs := [];
    }

    /** The walk over the TLVs of a received message. */
    method WalkTlvs(h: Host, c: Conversion, start: nat, end: nat) returns (error: Option<Error>)
      requires start <= end <= data.Length && tlvs == []
      modifies this`tlvs, data
      ensures Walked(error, tlvs, data[..]) == Walk(h, c, old(data[..]), start, end)
    {
      hide LengthAt, TypeAt, ValueAt, Put, ConvertHead, Walk;
      var off := start;
      while end - off >= TLV_SIZE
        invariant start <= off <= end
        invariant var w := Walk(h, c, data[..], off, end);
                  Walk(h, c, old(data[..]), start, end) == Walked(w.error, tlvs + w.tlvs, w.b)
      {
        UnfoldWalk(h, c, data[..], off, end);
        SwapHead(h, off);
        var len := LengthAt(h, data[..], off);
        if len % 2 == 1 || len > end - off - TLV_SIZE {
          return Some(BadMessage);
        }
        var v := c.Post(TypeAt(h, data[..], off), ValueAt(data[..], off, len));
        if v.None? {
          return Some(BadValue);
        }
        Store(off + TLV_SIZE, v.value);
        tlvs := tlvs + [off];
        off := off + TLV_SIZE + len;
      }
      UnfoldWalk(h, c, data[..], off, end);
      error := None;
    }

    method SwapHead(h: Host, off: nat)
      requires off + TLV_SIZE <= data.Length
      modifies data
      ensures data[..] == ConvertHead(h, old(data[..]), off)
    {
      Swap(h, TypeField(off));
      Swap(h, LengthField(off));
    }

    /** Takes in `cnt` received bytes. */
    method PostRecv(h: Host, c: Conversion, cnt: nat) returns (error: Option<Error>)
      requires data.Length == BUFFER && cnt <= BUFFER && tlvs == [] && time.None?
      modifies this`tlvs, this`time, data
      ensures Receipt(error, tlvs, data[..], time) == Received(h, c, old(data[..]), cnt)
    {
      hide ConvertAll, Walk, TimeAt;
      if cnt < HEADER_SIZE {
        return Some(BadMessage);
      }
      if data[1] % 16 != 2 {
        return Some(BadProtocol);
      }
      LayoutFits(Sync);
      SwapAll(h, HEADER);
      assert data[0] == data[..][0];
      var kind := KindOf(data[0]);
      if kind.None? || cnt < kind.value.Size() {
        return Some(BadMessage);
      }
      LayoutFits(kind.value);
      if kind.value.ReadsTime() {
        time := Some(TimeAt(BigEndian, data[..]));
      }
      SwapAll(h, kind.value.Fields());
      if kind.value.HasSuffix() {
        error := WalkTlvs(h, c, kind.value.Size(), cnt);
      } else {
        error := None;
      }
    }
  }
}
