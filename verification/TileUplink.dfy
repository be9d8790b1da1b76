/**
 * The chip's own wire to the far end: whatever the controller hands to the interface, for the processor or
 * for a snoop, the far end recovers, in order.
 */
module TileUplink {
  import opened Sram
  import opened Outbound
  import opened SerialLink
  import opened Packet
  import opened PacketStream
  import opened Wire
  import opened Tile
  import opened TileSnoops
  import L = LinkRtl

  function TileRun(t: Tile, ins: seq<TileIn>, pins: L.Pins): Tile
    requires pins.Ok() && StackOk(t.chip.mem)
    decreases |ins|
  {
    if ins == [] then t
    else TileRun(TileNext(t, ins[0], pins), ins[1..], pins)
  }

  /** Everything the controller hands to the interface in a run. */
  function HandedIn(t: Tile, ins: seq<TileIn>, pins: L.Pins): seq<Out>
    requires pins.Ok() && StackOk(t.chip.mem)
    decreases |ins|
  {
    if ins == [] then []
    else Handed(t, ins[0]) + HandedIn(TileNext(t, ins[0], pins), ins[1..], pins)
  }

  /** What the interface is asked to send, cycle by cycle. */
  function RequestOf(o: Out, valid: bool): Request {
    Request(valid, CodeOfOut(o.cmd), BitsOf(o.addr, 32), FieldOf(o.data))
  }

  function UpRequests(t: Tile, ins: seq<TileIn>, pins: L.Pins): seq<Request>
    requires pins.Ok() && StackOk(t.chip.mem)
    decreases |ins|
  {
    if ins == [] then []
    else [RequestOf(t.chip.arb.msg, t.chip.arb.valid)] + UpRequests(TileNext(t, ins[0], pins), ins[1..], pins)
  }

  function Requests(outs: seq<Out>): (rs: seq<Request>)
    ensures |rs| == |outs| && forall k | 0 <= k < |outs| :: rs[k] == RequestOf(outs[k], true)
  {
    if outs == [] then [] else [RequestOf(outs[0], true)] + Requests(outs[1..])
  }

  /** The interface takes what the arbiter hands over, and its serializer is the link's transmitter. */
  lemma UpStep(t: Tile, l: Link, i: TileIn, pins: L.Pins)
    requires pins.Ok() && StackOk(t.chip.mem) && l.tx == t.feed.face.tx
    ensures var r := RequestOf(t.chip.arb.msg, t.chip.arb.valid);
            && LinkNext(l, OfferOf(r, pins.up)).tx == TileNext(t, i, pins).feed.face.tx
            && AcceptedNow(l, r) == Requests(Handed(t, i))
  {}

  lemma {:induction false} UpFollows(t: Tile, l: Link, ins: seq<TileIn>, pins: L.Pins)
    requires pins.Ok() && StackOk(t.chip.mem) && l.tx == t.feed.face.tx
    ensures Accepted(l, UpRequests(t, ins, pins), pins.up) == Requests(HandedIn(t, ins, pins))
    ensures LinkRun(l, Offers(UpRequests(t, ins, pins), pins.up)).tx == TileRun(t, ins, pins).feed.face.tx
    decreases |ins|
  {
    if ins != [] {
      var r := RequestOf(t.chip.arb.msg, t.chip.arb.valid);
      UpStep(t, l, ins[0], pins);
      UpFollows(TileNext(t, ins[0], pins), LinkNext(l, OfferOf(r, pins.up)), ins[1..], pins);
      assert UpRequests(t, ins, pins)[1..] == UpRequests(TileNext(t, ins[0], pins), ins[1..], pins);
      RunSplits(l, UpRequests(t, ins, pins), pins.up);
      RequestsAppend(Handed(t, ins[0]), HandedIn(TileNext(t, ins[0], pins), ins[1..], pins));
    }
  }

  lemma RequestsAppend(a: seq<Out>, b: seq<Out>)
    ensures Requests(a + b) == Requests(a) + Requests(b)
  {}

  /**
   * From a transmitter as reset leaves it, for any inputs: the k-th message the far end receives is the
   * k-th request the controller handed over, with its command and what its packet carries of address and
   * data; at most two are on their way.
   */
  lemma UplinkCarries(t: Tile, ins: seq<TileIn>, pins: L.Pins)
    requires pins.Ok() && StackOk(t.chip.mem) && t.feed.face.tx == Reset(UpDepth(pins), UpDepth(pins)).tx
    ensures var end, outs := Sending(UpRequests(t, ins, pins), pins.up), HandedIn(t, ins, pins);
            && end.tx == TileRun(t, ins, pins).feed.face.tx
            && |end.received| <= |outs| <= |end.received| + 2
            && forall k | 0 <= k < |end.received| ::
                 var r := RequestOf(outs[k], true); Recovered(r.code, r.addr, r.data, end.received[k])
  {
    UpFollows(t, Reset(UpDepth(pins), UpDepth(pins)), ins, pins);
    StreamRecovered(UpRequests(t, ins, pins), pins.up);
  }
}
