/** The members of each message, in the order in which they are declared, and what follows from them: where the integers
    lie that both ends convert, and how long each message is. */
module MsgMembers {
  import opened Options
  import opened PtpDataset
  import opened MsgBytes
  import opened MsgLayout

  /** A member of a packed structure: an integer of several bytes, bytes that are copied as they are, bytes that are
      reserved, or the place where TLVs begin. */
  datatype Member = Number(width: nat) | Octets(width: nat) | Reserved(width: nat) | Suffix

  function Width(m: Member): nat {
    if m.Suffix? then 0 else m.width
  }

  function Total(ms: seq<Member>): nat {
    if ms == [] then 0 else Width(ms[0]) + Total(ms[1..])
  }

  function NumberAt(m: Member, at: nat): seq<Field> {
    if m.Number? then [Field(at, m.width)] else []
  }

  /** The integers among some members, which begin at `at`. */
  function Numbers(ms: seq<Member>, at: nat): seq<Field> {
    if ms == [] then [] else NumberAt(ms[0], at) + Numbers(ms[1..], at + Width(ms[0]))
  }

  /** The clock's identity, and the port's number. */
  const PORT_IDENTITY := [Octets(8), Number(2)]
  /** Seconds in two parts, and nanoseconds. */
  const TIME := [Number(2), Number(4), Number(4)]
  /** Class, accuracy and variance. */
  const CLOCK_QUALITY := [Octets(1), Octets(1), Number(2)]

  /** Type, version, length, domain, flags, correction, source port identity, sequence number, control and interval. */
  const HEAD :=
    [Octets(1), Octets(1), Number(2)] + [Octets(1), Reserved(1), Octets(2)] + [Number(8), Reserved(4)] + PORT_IDENTITY
    + [Number(2), Octets(1), Octets(1)]

  /** What follows the header. */
  function Members(kind: Kind): seq<Member> {
    match kind
    case Sync => TIME
    case DelayReq | FollowUp => TIME + [Suffix]
    case PdelayReq => TIME + [Reserved(10)]
    case PdelayResp => TIME + PORT_IDENTITY
    case DelayResp | PdelayRespFollowUp => TIME + PORT_IDENTITY + [Suffix]
    case Announce =>
      TIME + [Number(2), Reserved(1), Octets(1)] + CLOCK_QUALITY + [Octets(1), Octets(8), Number(2)]
      + [Octets(1), Suffix]
    case Signaling => PORT_IDENTITY + [Suffix]
    case Management => PORT_IDENTITY + [Octets(1), Octets(1), Octets(1)] + [Reserved(1), Suffix]
  }

  lemma {:induction false} Concat(a: seq<Member>, b: seq<Member>, at: nat)
    ensures Total(a + b) == Total(a) + Total(b)
    ensures Numbers(a + b, at) == Numbers(a, at) + Numbers(b, at + Total(a))
  {
    hide NumberAt, Width;
    if a == [] {
      assert a + b == b;
    } else {
      assert (a + b)[1..] == a[1..] + b;
      Concat(a[1..], b, at + Width(a[0]));
    }
  }

  lemma One(m: Member, at: nat)
    ensures Total([m]) == Width(m) && Numbers([m], at) == NumberAt(m, at)
  {
    hide NumberAt;
    assert [m][1..] == [] && Numbers([], at + Width(m)) == [];
    assert NumberAt(m, at) + [] == NumberAt(m, at);
  }

  lemma Two(m: Member, n: Member, at: nat)
    ensures Total([m, n]) == Width(m) + Width(n)
    ensures Numbers([m, n], at) == NumberAt(m, at) + NumberAt(n, at + Width(m))
  {
    hide Numbers, Total, NumberAt;
    One(m, at);
    One(n, at + Width(m));
    Concat([m], [n], at);
    assert [m] + [n] == [m, n];
  }

  lemma Three(m: Member, n: Member, o: Member, at: nat)
    ensures Total([m, n, o]) == Width(m) + Width(n) + Width(o)
    ensures Numbers([m, n, o], at)
         == NumberAt(m, at) + NumberAt(n, at + Width(m)) + NumberAt(o, at + Width(m) + Width(n))
  {
    hide Numbers, Total, NumberAt;
    Two(m, n, at);
    One(o, at + Width(m) + Width(n));
    Concat([m, n], [o], at);
    assert [m, n] + [o] == [m, n, o];
  }

  lemma TimeMembers(at: nat)
    ensures Total(TIME) == 10 && Numbers(TIME, at) == [Field(at, 2), Field(at + 2, 4), Field(at + 6, 4)]
  {
    hide Numbers, Total;
    Three(Number(2), Number(4), Number(4), at);
  }

  lemma PortMembers(at: nat)
    ensures Total(PORT_IDENTITY) == 10 && Numbers(PORT_IDENTITY, at) == [Field(at + 8, 2)]
  {
    hide Numbers, Total;
    Two(Octets(8), Number(2), at);
  }

  /** The header that both ends convert is made of all its integers, but for reserved ones. */
  lemma HeaderFromMembers()
    ensures HEADER == Numbers(HEAD, 0) && HEADER_SIZE == Total(HEAD)
  {
    hide Numbers, Total;
    var a, b, c, d := [Octets(1), Octets(1), Number(2)], [Octets(1), Reserved(1), Octets(2)], [Number(8), Reserved(4)],
      [Number(2), Octets(1), Octets(1)];
    Three(Octets(1), Octets(1), Number(2), 0);
    Three(Octets(1), Reserved(1), Octets(2), 4);
    Two(Number(8), Reserved(4), 8);
    PortMembers(20);
    Three(Number(2), Octets(1), Octets(1), 30);
    Concat(a, b, 0);
    Concat(a + b, c, 0);
    Concat(a + b + c, PORT_IDENTITY, 0);
    Concat(a + b + c + PORT_IDENTITY, d, 0);
  }

  lemma AnnounceMembers()
    ensures Total(Members(Announce)) == 30
    ensures Numbers(Members(Announce), 34) == TIMESTAMP + [Field(44, 2), Field(50, 2), Field(61, 2)]
  {
    hide Numbers, Total;
    var b, d, e := [Number(2), Reserved(1), Octets(1)], [Octets(1), Octets(8), Number(2)], [Octets(1), Suffix];
    TimeMembers(34);
    Three(Number(2), Reserved(1), Octets(1), 44);
    Three(Octets(1), Octets(1), Number(2), 48);
    Three(Octets(1), Octets(8), Number(2), 52);
    Two(Octets(1), Suffix, 63);
    Concat(TIME, b, 34);
    Concat(TIME + b, CLOCK_QUALITY, 34);
    Concat(TIME + b + CLOCK_QUALITY, d, 34);
    Concat(TIME + b + CLOCK_QUALITY + d, e, 34);
  }

  lemma TimedMembers(rest: seq<Member>)
    ensures Total(TIME + rest) == 10 + Total(rest)
    ensures Numbers(TIME + rest, 34) == TIMESTAMP + Numbers(rest, 44)
  {
    hide Numbers, Total;
    TimeMembers(34);
    Concat(TIME, rest, 34);
  }

  lemma TargetMembers(rest: seq<Member>)
    ensures Total(PORT_IDENTITY + rest) == 10 + Total(rest)
    ensures Numbers(PORT_IDENTITY + rest, 34) == [Field(42, 2)] + Numbers(rest, 44)
  {
    hide Numbers, Total;
    PortMembers(34);
    Concat(PORT_IDENTITY, rest, 34);
  }

  lemma ResponseMembers()
    ensures Total(PORT_IDENTITY + [Suffix]) == 10 && Numbers(PORT_IDENTITY + [Suffix], 44) == [Field(52, 2)]
  {
    hide Numbers, Total;
    PortMembers(44);
    One(Suffix, 54);
    Concat(PORT_IDENTITY, [Suffix], 44);
  }

  lemma TargetedMembers(kind: Kind)
    requires kind.Signaling? || kind.Management?
    ensures kind.Size() == HEADER_SIZE + Total(Members(kind))
    ensures Numbers(Members(kind), HEADER_SIZE) == [Field(42, 2)] && !(TIME <= Members(kind))
  {
    hide Numbers, Total;
    var flags, end := [Octets(1), Octets(1), Octets(1)], [Reserved(1), Suffix];
    var rest := if kind.Signaling? then [Suffix] else flags + end;
    One(Suffix, 44);
    Three(Octets(1), Octets(1), Octets(1), 44);
    Two(Reserved(1), Suffix, 47);
    Concat(flags, end, 44);
    TargetMembers(rest);
    assert Members(kind) == PORT_IDENTITY + rest;
    assert Members(kind)[0] == Octets(8);
  }

  /** Every message is as long as its members together.  The integers behind its header, but for reserved ones, are its
      time stamp, if it has one, and the fields that both ends convert: none is missing.  TLVs may follow exactly if the
      message is declared with a suffix. */
  lemma LayoutFromMembers(kind: Kind)
    ensures kind.Size() == HEADER_SIZE + Total(Members(kind))
    ensures Numbers(Members(kind), HEADER_SIZE) == (if TIME <= Members(kind) then TIMESTAMP else []) + kind.Fields()
    ensures kind.HasSuffix() <==> Suffix in Members(kind)
  {
    hide Numbers, Total;
    match kind
    case Announce =>
      AnnounceMembers();
    case Signaling | Management =>
      TargetedMembers(kind);
    case Sync =>
      TimeMembers(34);
    case DelayReq | FollowUp =>
      One(Suffix, 44);
      TimedMembers([Suffix]);
    case PdelayReq =>
      One(Reserved(10), 44);
      TimedMembers([Reserved(10)]);
    case PdelayResp =>
      PortMembers(44);
      TimedMembers(PORT_IDENTITY);
    case DelayResp | PdelayRespFollowUp =>
      ResponseMembers();
      TimedMembers(PORT_IDENTITY + [Suffix]);
      assert TIME + (PORT_IDENTITY + [Suffix]) == Members(kind);
  }

  /** The number of each message type, from table 19 of IEEE 1588-2008. */
  function TypeNumber(kind: Kind): Byte {
    match kind
    case Sync => 0x0
    case DelayReq => 0x1
    case PdelayReq => 0x2
    case PdelayResp => 0x3
    case FollowUp => 0x8
    case DelayResp => 0x9
    case PdelayRespFollowUp => 0xA
    case Announce => 0xB
    case Signaling => 0xC
    case Management => 0xD
  }

  /** The low half of the first byte names the type of a message; the high half does not matter. */
  lemma TypeIsNumbered(tsmt: Byte, kind: Kind)
    ensures KindOf(tsmt) == Some(kind) <==> tsmt % 16 == TypeNumber(kind)
  {
  }
}
