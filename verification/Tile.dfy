/**
 * One chip as it stands: the controller over its memory stack, wired to the interface, wired to the
 * transmitter at the far end of the link. The interface's own serializer is what makes the controller
 * wait for the link, and the pipe's output is what the controller sees of the directory.
 */
module Tile {
  import opened Words
  import opened Msi
  import opened Sram
  import opened PortedArray
  import opened Outbound
  import opened Controller
  import opened AckPipe
  import opened Downlink
  import opened Wire
  import opened SerialLink
  import P = Packet
  import L = LinkRtl

  datatype Tile = Tile(chip: Chip<Stack>, feed: Feed)

  /** One cycle's inputs: the processor's, and what the far end offers to send. */
  datatype TileIn = TileIn(memValid: bool, memAddr: nat, memWdata: Word, memWstrb: Strobe,
                           flushValid: bool, flushAddr: nat, offer: Option<Down>)

  /** The controller's inputs: what the interface drives, and the processor. */
  function EnvOf(bus: L.Pipe<L.Ack>, snoop: L.Pipe<L.Ack>, sending: bool, i: TileIn): Env {
    Env(i.memValid, i.memAddr, i.memWdata, i.memWstrb, i.flushValid, i.flushAddr,
        bus.valid, CmdOf(bus.data.code), WordOf(bus.data.field),
        snoop.valid, NatOf(snoop.data.field), EventOf(snoop.data.code),
        !sending)
  }

  /** The interface's inputs from the controller. */
  function FaceOf(arb: Arb, cpu: Cpu, snp: Snp, e: Env): L.Inputs {
    L.Inputs(arb.valid, CodeOfOut(arb.msg.cmd), BitsOf(arb.msg.addr, 32), FieldOf(arb.msg.data),
             BusTaken(cpu, e), SnoopTaken(snp, e), false, [])
  }

  function TileEnv(t: Tile, i: TileIn): Env {
    EnvOf(t.feed.face.bus, t.feed.face.snoop, t.feed.face.tx.sending, i)
  }

  function FaceInputs(t: Tile, i: TileIn): L.Inputs {
    FaceOf(t.chip.arb, t.chip.cpu, t.chip.snp, TileEnv(t, i))
  }

  function TileNext(t: Tile, i: TileIn, pins: L.Pins): (t': Tile)
    requires pins.Ok() && StackOk(t.chip.mem)
    ensures StackOk(t'.chip.mem)
  {
    RawStackOk(t.chip, TileEnv(t, i));
    Tile(RawNext(t.chip, TileEnv(t, i)), FeedNext(t.feed, FaceInputs(t, i), i.offer, pins))
  }

  /**
   * What waits in the pipes is taken by the machine it is for, when that machine can take it, and otherwise stays,
   * whether or not the directory keeps any discipline.
   */
  lemma PipesWait(t: Tile, i: TileIn, pins: L.Pins)
    requires pins.Ok() && StackOk(t.chip.mem) && !t.feed.face.rx.valid
    ensures var face, face' := t.feed.face, TileNext(t, i, pins).feed.face;
            var snp' := TileNext(t, i, pins).chip.snp;
            && face'.snoop.data == face.snoop.data && face'.bus.data == face.bus.data
            && (face'.snoop.valid <==> face.snoop.valid && t.chip.snp.st != SnpIdle)
            && (face.snoop.valid && t.chip.snp.st == SnpIdle ==>
                  snp'.st != SnpIdle && snp'.addr == NatOf(face.snoop.data.field)
                  && snp'.event == EventOf(face.snoop.data.code))
            && (face'.bus.valid <==>
                  face.bus.valid && !(t.chip.cpu.st in {ReadMissAck, WriteMissAck}
                                      || (t.chip.cpu.st in {EvictDirtyAck, FlushEvictAck}
                                          && CmdOf(face.bus.data.code) == EvictDirty)))
  {}

  // ---- The acknowledgement path of the tile is the one of the specification ----

  function BusPipe(p: L.Pipe<L.Ack>): L.Pipe<BusAck> {
    L.Pipe(p.valid, BusAck(CmdOf(p.data.code), WordOf(p.data.field)))
  }

  function Cmds(ms: seq<Down>): (cmds: seq<Cmd>)
    ensures |cmds| == |ms|
  {
    seq(|ms|, k requires 0 <= k < |ms| => CmdOf(ms[k].code))
  }

  ghost predicate Mirrors(t: Tile, l: Linked, pins: L.Pins)
    requires pins.Ok()
  {
    && Abstracts(t.chip, l.chip) && FeedInv(t.feed, pins)
    && l.pipe == BusPipe(t.feed.face.bus)
    && l.transit == Cmds(Routed(UnderWay(t.feed), P.ToBus))
  }

  /**
   * The acknowledgement of a command goes to the bus pipe exactly if the command wants a reply, a snoop to
   * the snoop pipe, code 14 alone to the identity register, and any other code nowhere.
   */
  lemma RoutesByMeaning()
    ensures forall cmd :: P.RouteOf(CodeOfCmd(cmd)) == if WantsReply(Out(Bus(cmd), 0, ZERO)) then P.ToBus else P.Nowhere
    ensures forall event :: P.RouteOf(CodeOfEvent(event)) == P.ToSnoop
    ensures forall code: P.Code ::
              code != 14 && (forall cmd :: code != CodeOfCmd(cmd)) && (forall event :: code != CodeOfEvent(event)) ==>
                P.RouteOf(code) == P.Nowhere
    ensures P.RouteOf(14) == P.ToId
  {
    forall code: P.Code | code != 14
                          && (forall cmd :: code != CodeOfCmd(cmd)) && (forall event :: code != CodeOfEvent(event))
      ensures P.RouteOf(code) == P.Nowhere
    {
      assert code != CodeOfCmd(BusRd) && code != CodeOfCmd(BusRdx) && code != CodeOfCmd(BusUpgr);
      assert code != CodeOfCmd(EvictDirty) && code != CodeOfEvent(SnoopRd) && code != CodeOfEvent(SnoopRdx);
      assert code != CodeOfEvent(SnoopUpgr);
    }
  }

  /** The acknowledgement the far end starts to send this cycle, if any. */
  function Answers(t: Tile, i: TileIn): Option<Cmd> {
    if i.offer.Some? && !t.feed.link.tx.sending && P.RouteOf(i.offer.value.code) == P.ToBus
    then Some(CmdOf(i.offer.value.code)) else None
  }

  /** The place of a command among those owed. */
  function PlaceOf(owed: seq<Cmd>, cmd: Cmd): (k: nat)
    ensures k <= |owed| && (k < |owed| ==> owed[k] == cmd)
  {
    if owed == [] || owed[0] == cmd then 0 else 1 + PlaceOf(owed[1..], cmd)
  }

  /** The directory acknowledges only what it owes, and sends no message longer than the receiver. */
  predicate Disciplined(t: Tile, l: Linked, i: TileIn) {
    && (i.offer.Some? ==> DownOk(i.offer.value))
    && (Answers(t, i).Some? ==> PlaceOf(l.owed, Answers(t, i).value) < |l.owed|)
  }

  /** Whatever is owed, the directory has a message to answer it with, whenever the far transmitter is free. */
  lemma AnswerExists(t: Tile, l: Linked, i: TileIn, field: P.Field)
    requires AckInv(l) && l.owed != [] && !t.feed.link.tx.sending
    requires i.offer == Some(Down(CodeOfCmd(l.owed[0]), field, P.Medium))
    ensures Answers(t, i) == Some(l.owed[0]) && Disciplined(t, l, i)
  {}

  /** The tile's cycle as the specification sees it. */
  function Seen(t: Tile, l: Linked, i: TileIn): Input {
    var presented := Presented(t.feed.face, P.ToBus);
    Input(TileEnv(t, i),
          if Answers(t, i).Some? then Some(PlaceOf(l.owed, Answers(t, i).value)) else None,
          if presented != [] then Some(WordOf(presented[0].field)) else None)
  }

  lemma CmdsAppend(a: seq<Down>, b: seq<Down>)
    ensures Cmds(a + b) == Cmds(a) + Cmds(b)
  {}

  /** The oldest message under way is the one that arrives, if it is for the bus pipe. */
  lemma ArrivesFirst(t: Tile, l: Linked, pins: L.Pins)
    requires pins.Ok() && Mirrors(t, l, pins)
    ensures var presented, rest := Presented(t.feed.face, P.ToBus), UnderWay(t.feed)[|Arrives(t.feed)|..];
            && Cmds(Routed(rest, P.ToBus)) == (if presented != [] && l.transit != [] then l.transit[1..] else l.transit)
            && (presented != [] ==> l.transit != [] && l.transit[0] == CmdOf(presented[0].code))
  {
    ArrivesOldest(t.feed, pins, P.ToBus);
    CmdsAppend(Routed(Arrives(t.feed), P.ToBus), Routed(UnderWay(t.feed)[|Arrives(t.feed)|..], P.ToBus));
  }

  lemma StartsLast(t: Tile, i: TileIn)
    ensures Cmds(Routed(Starts(t.feed, i.offer), P.ToBus)) == if Answers(t, i).Some? then [Answers(t, i).value] else []
  {
    if Starts(t.feed, i.offer) != [] {
      RoutedOne(i.offer.value, P.ToBus);
    }
  }

  lemma SeenOk(t: Tile, l: Linked, i: TileIn, pins: L.Pins)
    requires pins.Ok() && Mirrors(t, l, pins) && Disciplined(t, l, i)
    ensures InputOk(l, Seen(t, l, i))
  {
    ArrivesFirst(t, l, pins);
  }

  lemma TransitStep(t: Tile, l: Linked, i: TileIn, pins: L.Pins)
    requires pins.Ok() && Mirrors(t, l, pins) && Disciplined(t, l, i) && InputOk(l, Seen(t, l, i))
    ensures FeedInv(FeedNext(t.feed, FaceInputs(t, i), i.offer, pins), pins)
    ensures TransitNext(l, Seen(t, l, i))
         == Cmds(Routed(UnderWay(FeedNext(t.feed, FaceInputs(t, i), i.offer, pins)), P.ToBus))
  {
    var rest := UnderWay(t.feed)[|Arrives(t.feed)|..];
    ArrivesFirst(t, l, pins);
    StartsLast(t, i);
    RoutedNext(t.feed, FaceInputs(t, i), i.offer, pins, P.ToBus);
    CmdsAppend(Routed(rest, P.ToBus), Routed(Starts(t.feed, i.offer), P.ToBus));
  }

  lemma PipeStep(t: Tile, l: Linked, i: TileIn, pins: L.Pins)
    requires pins.Ok() && Mirrors(t, l, pins) && Disciplined(t, l, i) && InputOk(l, Seen(t, l, i))
    requires PortedOk(l.chip.mem)
    ensures Wired(l, TileEnv(t, i)) == TileEnv(t, i)
    ensures LinkedNext(l, Seen(t, l, i)).pipe == BusPipe(FeedNext(t.feed, FaceInputs(t, i), i.offer, pins).face.bus)
  {
    ArrivesFirst(t, l, pins);
  }

  /** One edge of the tile is one edge of the specification. */
  lemma TileStep(t: Tile, l: Linked, i: TileIn, pins: L.Pins)
    requires pins.Ok() && Mirrors(t, l, pins) && Disciplined(t, l, i) && Coordinated(l.chip)
    ensures InputOk(l, Seen(t, l, i)) && Wired(l, TileEnv(t, i)) == TileEnv(t, i)
    ensures Mirrors(TileNext(t, i, pins), LinkedNext(l, Seen(t, l, i)), pins)
  {
    SeenOk(t, l, i, pins);
    TransitStep(t, l, i, pins);
    PipeStep(t, l, i, pins);
    RawStep(t.chip, l.chip, TileEnv(t, i));
  }

  // ---- The interface's serializer takes every request in time ----

  function UpDepth(pins: L.Pins): nat
    requires pins.Ok()
  {
    CeilDiv(P.MAX_UP, pins.up)
  }

  /** The interface's serializer is a link that takes a request within this many edges. */
  function LinkBound(pins: L.Pins): nat
    requires pins.Ok()
  {
    UpDepth(pins) + 1
  }

  /** `stalled` edges of waiting and the chunks still to send never exceed the longest message. */
  predicate UpClock(t: Tile, stalled: nat, pins: L.Pins)
    requires pins.Ok()
  {
    var tx := t.feed.face.tx;
    if tx.sending then tx.count < tx.msgLen && stalled + (tx.msgLen - tx.count) <= UpDepth(pins)
    else stalled <= UpDepth(pins)
  }

  /** What the controller is wired to is a fair link: it takes a request within the longest message and one edge. */
  lemma UpClockStep(t: Tile, stalled: nat, i: TileIn, pins: L.Pins)
    requires pins.Ok() && UpClock(t, stalled, pins) && StackOk(t.chip.mem)
    ensures stalled < UpDepth(pins) + 1
    ensures t.chip.arb.valid && stalled + 1 == UpDepth(pins) + 1 ==> TileEnv(t, i).cacheReady
    ensures var stalled' := if t.chip.arb.valid && !TileEnv(t, i).cacheReady then stalled + 1 else 0;
            UpClock(TileNext(t, i, pins), stalled', pins)
  {
    var f := FaceInputs(t, i);
    P.OfferLegal(P.Build(f.cmd, f.addr, f.data), pins.up, P.MAX_UP);
  }
}
