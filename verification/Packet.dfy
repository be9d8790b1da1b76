/** The packets carried by the pin link: what the cache interface builds, and how it routes what arrives. */
module Packet {
  import opened SerialLink

  datatype Kind = CmdOnly | Short | Medium | Large

  /** Message lengths in bits. */
  function Length(kind: Kind): nat {
    match kind
    case CmdOnly => 4
    case Short => 12
    case Medium => 36
    case Large => 68
  }

  const MAX_UP := 68
  const MAX_DOWN := 36

  // Command codes, the same in both directions.
  const BUS_RD := 1
  const BUS_RDX := 2
  const BUS_UPGR := 3
  const EVICT_CLEAN := 5
  const EVICT_DIRTY := 6
  const SNOOP_RD := 9
  const SNOOP_RDX := 10
  const SNOOP_UPGR := 11
  const WHO_AM_I := 14
  const RESET_DONE := 15

  type Code = c: nat | c < 16

  function CodeBits(code: Code): (b: Bits)
    ensures |b| == 4
  {
    [code % 2 == 1, (code / 2) % 2 == 1, (code / 4) % 2 == 1, (code / 8) % 2 == 1]
  }

  function CodeOf(bits: Bits): Code
    requires |bits| == 4
  {
    (if bits[0] then 1 else 0) + (if bits[1] then 2 else 0) + (if bits[2] then 4 else 0) + (if bits[3] then 8 else 0)
  }

  lemma CodeRoundTrip(code: Code)
    ensures CodeOf(CodeBits(code)) == code
  {}

  function Zeros(n: nat): (z: Bits)
    ensures |z| == n && forall i | 0 <= i < n :: !z[i]
  {
    seq(n, i => false)
  }

  type Field = b: Bits | |b| == 32 witness seq(32, i => false)

  datatype Packet = Packet(kind: Kind, bits: Bits)

  /** {kind, data, address, command}, low bits first in `bits`. */
  function Build(code: Code, addr: Field, data: Field): (p: Packet)
    ensures |p.bits| == MAX_UP
  {
    if code in {BUS_RD, BUS_RDX, BUS_UPGR, EVICT_CLEAN} then Packet(Medium, CodeBits(code) + addr + Zeros(32))
    else if code == EVICT_DIRTY then Packet(Large, CodeBits(code) + addr + data)
    else if code in {SNOOP_RD, SNOOP_RDX} then Packet(Medium, CodeBits(code) + data + Zeros(32))
    else if code in {SNOOP_UPGR, RESET_DONE} then Packet(CmdOnly, CodeBits(code) + Zeros(32) + Zeros(32))
    else Packet(CmdOnly, Zeros(MAX_UP))
  }

  /** The chunks a serializer for messages of at most `max` bits is given, and how many of them it sends. */
  function Offered(p: Packet, pins: nat, max: nat): Offer
    requires pins > 0
  {
    Offer(true, Split(p.bits, pins, CeilDiv(max, pins)), CeilDiv(Length(p.kind), pins))
  }

  /** What is sent of a packet: the chunks its length class covers. */
  function Body(p: Packet, pins: nat, max: nat): Chunks
    requires pins > 0 && Length(p.kind) <= max
  {
    CeilMonotone(Length(p.kind), max, pins);
    Offered(p, pins, max).chunks[..Offered(p, pins, max).len]
  }

  predicate Fit(ps: seq<Packet>, max: nat) {
    forall k | 0 <= k < |ps| :: Length(ps[k].kind) <= max
  }

  function Bodies(ps: seq<Packet>, pins: nat, max: nat): (bodies: seq<Chunks>)
    requires pins > 0 && Fit(ps, max)
    ensures |bodies| == |ps|
  {
    if ps == [] then [] else [Body(ps[0], pins, max)] + Bodies(ps[1..], pins, max)
  }

  lemma {:induction false} BodyAt(ps: seq<Packet>, pins: nat, max: nat, k: nat)
    requires pins > 0 && Fit(ps, max) && k < |ps|
    ensures Bodies(ps, pins, max)[k] == Body(ps[k], pins, max)
  {
    if k > 0 {
      BodyAt(ps[1..], pins, max, k - 1);
    }
  }

  lemma {:induction false} BodiesAppend(a: seq<Packet>, b: seq<Packet>, pins: nat, max: nat)
    requires pins > 0 && Fit(a, max) && Fit(b, max)
    ensures Bodies(a + b, pins, max) == Bodies(a, pins, max) + Bodies(b, pins, max)
  {
    if a == [] {
      assert a + b == b;
    } else {
      assert (a + b)[0] == a[0] && (a + b)[1..] == a[1..] + b;
      BodiesAppend(a[1..], b, pins, max);
    }
  }

  /** What a transmitter has sent, one cycle on. */
  lemma BodySent(l: Link, p: Packet, valid: bool, pins: nat, max: nat)
    requires pins > 0 && Length(p.kind) <= max
    ensures LinkNext(l, Offered(p, pins, max).(valid := valid)).sent
         == l.sent + if !l.tx.sending && valid then Bodies([p], pins, max) else []
  {
    CeilMonotone(Length(p.kind), max, pins);
  }

  lemma OfferLegal(p: Packet, pins: nat, max: nat)
    requires pins > 0 && Length(p.kind) <= max
    ensures Legal(Offered(p, pins, max), CeilDiv(max, pins), CeilDiv(max, pins))
    ensures |Join(Body(p, pins, max))| >= Length(p.kind)
  {
    CeilMonotone(Length(p.kind), max, pins);
    CeilCovers(Length(p.kind), pins);
    JoinSplit(p.bits, pins, CeilDiv(max, pins), CeilDiv(Length(p.kind), pins));
    WidthIsProduct(CeilDiv(Length(p.kind), pins), pins);
  }

  predicate Covers(kind: Kind, p: Packet) {
    forall i | Length(kind) <= i < |p.bits| :: !p.bits[i]
  }

  /** The length class of a packet covers every bit of it that is not zero. */
  lemma LengthCovers(code: Code, addr: Field, data: Field)
    ensures Covers(Build(code, addr, data).kind, Build(code, addr, data))
  {}

  /** How many 32-bit fields a message carries besides its command. */
  function Fields(code: Code): nat {
    if code == 6 then 2 else if code in {1, 2, 3, 5, 9, 10} then 1 else 0
  }

  /**
   * The class is the least: the command and its fields, and no shorter class covers every packet of the
   * command. The serializer is given just the chunks that many bits take.
   */
  lemma ClassIsLeast(code: Code, addr: Field, data: Field, kind: Kind, pins: nat)
    requires pins > 0
    ensures Length(CmdOnly) == 4 && Length(Short) == 4 + 8 && Length(Medium) == 4 + 32 == MAX_DOWN
    ensures Length(Large) == 4 + 32 + 32 == MAX_UP
    ensures Length(Build(code, addr, data).kind) == 4 + 32 * Fields(code)
    ensures Length(kind) >= 4 + 32 * Fields(code) <==> forall a: Field, d: Field :: Covers(kind, Build(code, a, d))
    ensures Offered(Build(code, addr, data), pins, MAX_UP).len == CeilDiv(4 + 32 * Fields(code), pins)
    ensures |Body(Build(code, addr, data), pins, MAX_UP)| == CeilDiv(4 + 32 * Fields(code), pins)
  {
    CeilMonotone(Length(Build(code, addr, data).kind), MAX_UP, pins);
    var ones: Field := seq(32, i => true);
    if Length(kind) < 4 + 32 * Fields(code) {
      var p := Build(code, ones, ones);
      assert p.bits[4 + 32 * Fields(code) - 1];
      assert !Covers(kind, p);
    }
  }

  /** Dropping high chunks does not change the low bits. */
  lemma {:induction false} JoinPrefix(c: Chunks, k: nat)
    requires k <= |c|
    ensures |Join(c[..k])| <= |Join(c)| && Join(c)[..|Join(c[..k])|] == Join(c[..k])
    decreases k
  {
    if k > 0 {
      JoinPrefix(c[1..], k - 1);
      assert c[..k][1..] == c[1..][..k - 1];
    }
  }

  /** The commands that reach the wire as themselves. */
  predicate Sendable(code: Code) {
    code in {0, BUS_RD, BUS_RDX, BUS_UPGR, EVICT_CLEAN, EVICT_DIRTY, SNOOP_RD, SNOOP_RDX, SNOOP_UPGR, RESET_DONE}
  }

  /** When the low chunks of a vector arrive, so do its low bits, as many as the message length. */
  lemma LowArrives(bits: Bits, length: nat, pins: nat, depth: nat, arrived: Chunks)
    requires pins > 0
    requires var len := CeilDiv(length, pins);
             len <= |arrived| && len <= depth && arrived[..len] == Split(bits, pins, depth)[..len]
    ensures |Join(arrived)| >= length
    ensures forall i | 0 <= i < length && i < |bits| :: Join(arrived)[i] == bits[i]
  {
    var len := CeilDiv(length, pins);
    JoinPrefix(arrived, len);
    JoinSplit(bits, pins, depth, len);
    CeilCovers(length, pins);
    WidthIsProduct(len, pins);
    var low := Low(bits, Width(len, pins));
    forall i | 0 <= i < length && i < |bits| ensures Join(arrived)[i] == bits[i] {
      assert Join(arrived)[i] == Join(arrived)[..|low|][i] == low[i];
    }
  }

  lemma SameSlice(a: Bits, b: Bits, i: nat, j: nat, n: nat)
    requires i <= j <= n <= |a| && n <= |b| && forall k | 0 <= k < n && k < |b| :: a[k] == b[k]
    ensures a[i..j] == b[i..j]
  {}

  /** The fields of a packet, where the far side looks for them. */
  lemma PacketFields(code: Code, addr: Field, data: Field)
    ensures var b := Build(code, addr, data).bits;
            && b[..4] == CodeBits(if Sendable(code) then code else 0)
            && (code in {BUS_RD, BUS_RDX, BUS_UPGR, EVICT_CLEAN, EVICT_DIRTY} ==> b[4..36] == addr)
            && (code in {SNOOP_RD, SNOOP_RDX} ==> b[4..36] == data)
            && (code == EVICT_DIRTY ==> b[36..68] == data)
  {}

  /** What the far side makes of the bits that arrived for a request. */
  predicate Recovered(code: Code, addr: Field, data: Field, arrived: Chunks) {
    var bits := Join(arrived);
    && |bits| >= 4 && CodeOf(bits[..4]) == (if code in {1, 2, 3, 5, 6, 9, 10, 11, 15} then code else 0)
    && (code in {BUS_RD, BUS_RDX, BUS_UPGR, EVICT_CLEAN, EVICT_DIRTY} ==> |bits| >= 36 && bits[4..36] == addr)
    && (code in {SNOOP_RD, SNOOP_RDX} ==> |bits| >= 36 && bits[4..36] == data)
    && (code == EVICT_DIRTY ==> |bits| >= 68 && bits[36..68] == data)
  }

  /**
   * Packet round trip through the link: from the message that arrived, the far side recovers the
   * command exactly for the commands the interface knows, and with it the address, the data, or both.
   */
  lemma PacketRoundTrip(code: Code, addr: Field, data: Field, pins: nat, arrived: Chunks)
    requires pins > 0
    requires var o := Offered(Build(code, addr, data), pins, MAX_UP);
             o.len <= |arrived| && o.len <= |o.chunks| && arrived[..o.len] == o.chunks[..o.len]
    ensures Recovered(code, addr, data, arrived)
    ensures Sendable(code) <==> code in {0, 1, 2, 3, 5, 6, 9, 10, 11, 15}
  {
    var p := Build(code, addr, data);
    var bits := Join(arrived);
    LowArrives(p.bits, Length(p.kind), pins, CeilDiv(MAX_UP, pins), arrived);
    PacketFields(code, addr, data);
    SameSlice(bits, p.bits, 0, 4, Length(p.kind));
    CodeRoundTrip(if Sendable(code) then code else 0);
    if p.kind != CmdOnly {
      SameSlice(bits, p.bits, 4, 36, Length(p.kind));
    }
    if p.kind == Large {
      SameSlice(bits, p.bits, 36, 68, Length(p.kind));
    }
  }

  // ---- Receiving ----

  datatype Route = ToBus | ToSnoop | ToId | Nowhere

  function RouteOf(code: Code): Route {
    if code in {BUS_RD, BUS_RDX, BUS_UPGR, EVICT_DIRTY} then ToBus
    else if code in {SNOOP_RD, SNOOP_RDX, SNOOP_UPGR} then ToSnoop
    else if code == WHO_AM_I then ToId
    else Nowhere
  }

  /** What the interface sees when the receiver raises valid. */
  datatype Incoming = Incoming(code: Code, field: Field, id: Bits)

  function Decode(shift: Chunks): Incoming {
    var bits := Low(Join(shift), MAX_DOWN);
    Incoming(CodeOf(bits[..4]), bits[4..36], bits[4..12])
  }

  /** A message from the directory: a code, and above it as much of a field as its length class carries. */
  function Message(code: Code, field: Field): Bits {
    CodeBits(code) + field
  }

  /**
   * A received message goes to the pipe its code names; its 32-bit field is intact when the length
   * class carries it, and the 8-bit core number when that much is carried. Stale bits of an earlier
   * message lie above.
   */
  lemma Received(code: Code, field: Field, kind: Kind, pins: nat, arrived: Chunks)
    requires pins > 0 && Length(kind) <= MAX_DOWN
    requires var len := CeilDiv(Length(kind), pins);
             && len <= |arrived| && len <= CeilDiv(MAX_DOWN, pins)
             && arrived[..len] == Split(Message(code, field), pins, CeilDiv(MAX_DOWN, pins))[..len]
    ensures Decode(arrived).code == code && RouteOf(Decode(arrived).code) == RouteOf(code)
    ensures kind == Medium ==> Decode(arrived).field == field
    ensures kind != CmdOnly ==> Decode(arrived).id == field[..8]
  {
    var bits := Message(code, field);
    LowArrives(bits, Length(kind), pins, CeilDiv(MAX_DOWN, pins), arrived);
    CodeRoundTrip(code);
    var low := Low(Join(arrived), MAX_DOWN);
    assert low[..4] == CodeBits(code);
    if kind == Medium {
      assert low[4..36] == bits[4..36] == field;
    }
    if kind != CmdOnly {
      assert low[4..12] == bits[4..12] == field[..8];
    }
  }
}
