/** How the controller's words, addresses and commands stand on the 32-bit fields and 4-bit codes of the link. */
module Wire {
  import opened Words
  import opened Msi
  import opened SerialLink
  import opened Packet
  import opened Outbound

  // ---- Fields ----

  /** A number from its bits, low bit first. */
  function NatOf(bits: Bits): nat {
    if bits == [] then 0 else (if bits[0] then 1 else 0) + 2 * NatOf(bits[1..])
  }

  function BitsOf(n: nat, width: nat): (bits: Bits)
    ensures |bits| == width
  {
    if width == 0 then [] else [n % 2 == 1] + BitsOf(n / 2, width - 1)
  }

  function TwoTo(width: nat): nat {
    if width == 0 then 1 else 2 * TwoTo(width - 1)
  }

  /** A field carries an address, or the low 32 bits of one. */
  lemma {:induction false} BitsRoundTrip(n: nat, width: nat)
    ensures NatOf(BitsOf(n, width)) == n <==> n < TwoTo(width)
  {
    if width > 0 {
      BitsRoundTrip(n / 2, width - 1);
      assert BitsOf(n, width)[1..] == BitsOf(n / 2, width - 1);
    }
  }

  function ByteOf(bits: Bits): bv8
    requires |bits| == 8
  {
    (if bits[0] then 0x01 else 0) | (if bits[1] then 0x02 else 0) | (if bits[2] then 0x04 else 0)
    | (if bits[3] then 0x08 else 0) | (if bits[4] then 0x10 else 0) | (if bits[5] then 0x20 else 0)
    | (if bits[6] then 0x40 else 0) | (if bits[7] then 0x80 else 0)
  }

  function ByteBits(b: bv8): (bits: Bits)
    ensures |bits| == 8
  {
    [b & 0x01 != 0, b & 0x02 != 0, b & 0x04 != 0, b & 0x08 != 0,
     b & 0x10 != 0, b & 0x20 != 0, b & 0x40 != 0, b & 0x80 != 0]
  }

  lemma ByteRoundTrip(b: bv8)
    ensures ByteOf(ByteBits(b)) == b
  {}

  function WordOf(f: Field): Word {
    Word(ByteOf(f[..8]), ByteOf(f[8..16]), ByteOf(f[16..24]), ByteOf(f[24..]))
  }

  function FieldOf(w: Word): Field {
    ByteBits(w.b0) + ByteBits(w.b1) + ByteBits(w.b2) + ByteBits(w.b3)
  }

  /** A field carries a word. */
  lemma WordRoundTrip(w: Word)
    ensures WordOf(FieldOf(w)) == w
  {
    Slices(ByteBits(w.b0), ByteBits(w.b1), ByteBits(w.b2), ByteBits(w.b3));
    ByteRoundTrip(w.b0);
    ByteRoundTrip(w.b1);
    ByteRoundTrip(w.b2);
    ByteRoundTrip(w.b3);
  }

  lemma Slices(a: Bits, b: Bits, c: Bits, d: Bits)
    requires |a| == |b| == |c| == |d| == 8
    ensures var f := a + b + c + d; f[..8] == a && f[8..16] == b && f[16..24] == c && f[24..] == d
  {}

  // ---- Codes ----

  /** Acknowledgements echo the code of the request; only these four are routed to the bus pipe. */
  function CmdOf(code: Code): Cmd {
    if code == BUS_RD then BusRd
    else if code == BUS_RDX then BusRdx
    else if code == BUS_UPGR then BusUpgr
    else if code == EVICT_DIRTY then EvictDirty
    else EvictClean
  }

  function EventOf(code: Code): SnoopEvent {
    if code == SNOOP_RD then SnoopRd else if code == SNOOP_RDX then SnoopRdx else SnoopUpgr
  }

  function CodeOfCmd(cmd: Cmd): Code {
    match cmd
    case BusRd => BUS_RD
    case BusRdx => BUS_RDX
    case BusUpgr => BUS_UPGR
    case EvictClean => EVICT_CLEAN
    case EvictDirty => EVICT_DIRTY
  }

  function CodeOfEvent(event: SnoopEvent): Code {
    match event
    case SnoopRd => SNOOP_RD
    case SnoopRdx => SNOOP_RDX
    case SnoopUpgr => SNOOP_UPGR
  }

  function CodeOfOut(o: OutCmd): Code {
    match o
    case Null => 0
    case Bus(cmd) => CodeOfCmd(cmd)
    case Ack(event) => CodeOfEvent(event)
  }

  /** The codes, in both directions. */
  lemma CodesAre()
    ensures CodeOfCmd(BusRd) == 1 && CodeOfCmd(BusRdx) == 2 && CodeOfCmd(BusUpgr) == 3
    ensures CodeOfCmd(EvictClean) == 5 && CodeOfCmd(EvictDirty) == 6
    ensures CodeOfEvent(SnoopRd) == 9 && CodeOfEvent(SnoopRdx) == 10 && CodeOfEvent(SnoopUpgr) == 11
    ensures WHO_AM_I == 14 && RESET_DONE == 15 && CodeOfOut(Null) == 0
  {}

  /** Every command the controller sends is one the interface packs, and reads back as itself. */
  lemma CodesRoundTrip(o: OutCmd)
    ensures Sendable(CodeOfOut(o))
    ensures o.Bus? ==> CmdOf(CodeOfOut(o)) == o.cmd
    ensures o.Ack? ==> EventOf(CodeOfOut(o)) == o.event
  {}

  // ---- Where the bits stand ----

  /** A field has the low bit of its number first, and above it the bits of the half. */
  lemma LowBitFirst(n: nat, width: nat)
    requires width > 0
    ensures BitsOf(n, width)[0] <==> n % 2 == 1
    ensures BitsOf(n, width)[1..] == BitsOf(n / 2, width - 1)
  {}

  /** Lane l of a word stands on bits 8l to 8l + 7 of its field. */
  lemma LanesInOrder(w: Word)
    ensures FieldOf(w)[..8] == ByteBits(w.b0) && FieldOf(w)[8..16] == ByteBits(w.b1)
    ensures FieldOf(w)[16..24] == ByteBits(w.b2) && FieldOf(w)[24..] == ByteBits(w.b3)
  {
    Slices(ByteBits(w.b0), ByteBits(w.b1), ByteBits(w.b2), ByteBits(w.b3));
  }

  /** Its low bit first. */
  lemma ByteInOrder(b: bv8)
    ensures var bits := ByteBits(b);
            && (bits[0] <==> b % 2 == 1) && (bits[1] <==> (b >> 1) % 2 == 1) && (bits[2] <==> (b >> 2) % 2 == 1)
            && (bits[3] <==> (b >> 3) % 2 == 1) && (bits[4] <==> (b >> 4) % 2 == 1) && (bits[5] <==> (b >> 5) % 2 == 1)
            && (bits[6] <==> (b >> 6) % 2 == 1) && (bits[7] <==> (b >> 7) % 2 == 1)
  {}
}
