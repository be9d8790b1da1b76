/**
 * Bus acknowledgements on the chip, over the real link: with a directory that acknowledges each request at
 * most once, the overwriting pipe loses none. Which cells the two machines are on does not matter.
 */
module TileAcks {
  import opened Sram
  import opened PortedArray
  import opened Transactions
  import opened AckPipe
  import opened Downlink
  import opened Tile
  import L = LinkRtl
  import P = Packet

  ghost predicate AcksOk(t: Tile, l: Linked, pins: L.Pins) {
    pins.Ok() && Mirrors(t, l, pins) && AckInv(l)
  }

  /** One edge keeps the discipline; an acknowledgement that comes out of the receiver finds the pipe empty. */
  lemma AcksStep(t: Tile, l: Linked, i: TileIn, pins: L.Pins)
    requires AcksOk(t, l, pins) && Disciplined(t, l, i)
    ensures InputOk(l, Seen(t, l, i)) && AcksOk(TileNext(t, i, pins), LinkedNext(l, Seen(t, l, i)), pins)
    ensures Presented(t.feed.face, P.ToBus) != [] ==> !t.feed.face.bus.valid
    ensures Wired(l, TileEnv(t, i)) == TileEnv(t, i) && ReplyEchoes(l.chip.cpu, TileEnv(t, i))
  {
    TileStep(t, l, i, pins);
    AckStep(l, Seen(t, l, i));
  }

  /**
   * As long as the directory acknowledges only what it owes: no acknowledgement comes out of the receiver
   * onto an occupied pipe, and each request that wants a reply is followed by its acknowledgement before
   * the processor's machine sends anything else.
   */
  ghost predicate AcksKept(t: Tile, l: Linked, ins: seq<TileIn>, pins: L.Pins)
    requires pins.Ok() && StackOk(t.chip.mem) && PortedOk(l.chip.mem)
    decreases |ins|
  {
    && Alternates(l.log)
    && (ins != [] && Disciplined(t, l, ins[0]) ==>
          && (Presented(t.feed.face, P.ToBus) != [] ==> !t.feed.face.bus.valid)
          && InputOk(l, Seen(t, l, ins[0]))
          && var l' := LinkedNext(l, Seen(t, l, ins[0]));
             PortedOk(l'.chip.mem) && AcksKept(TileNext(t, ins[0], pins), l', ins[1..], pins))
  }

  /** Over the real link, for any processor, any snoops and any directory that answers at most once, nothing is lost. */
  lemma {:induction false} NoAckLost(t: Tile, l: Linked, ins: seq<TileIn>, pins: L.Pins)
    requires AcksOk(t, l, pins)
    ensures AcksKept(t, l, ins, pins)
    decreases |ins|
  {
    if ins != [] && Disciplined(t, l, ins[0]) {
      AcksStep(t, l, ins[0], pins);
      NoAckLost(TileNext(t, ins[0], pins), LinkedNext(l, Seen(t, l, ins[0])), ins[1..], pins);
    }
  }
}
