/**
 * The downstream direction of the pin link: the far end's transmitter wired to the interface's
 * receiver, message after message, and what enters the bus pipe and the snoop pipe.
 */
module Downlink {
  import opened Words
  import opened SerialLink
  import opened Packet
  import opened LinkRtl

  /** A message of the far end: a code and as much of a field as its length class carries. */
  datatype Down = Down(code: Code, field: Field, kind: Kind)

  predicate DownOk(m: Down) {
    m.kind != Large
  }

  predicate AllOk(ms: seq<Down>) {
    forall k | 0 <= k < |ms| :: DownOk(ms[k])
  }

  function Depth(pins: Pins): nat
    requires pins.Ok()
  {
    CeilDiv(MAX_DOWN, pins.down)
  }

  function PacketOf(m: Down): Packet {
    Packet(m.kind, Message(m.code, m.field))
  }

  function Packets(ms: seq<Down>): (ps: seq<Packet>)
    ensures |ps| == |ms| && forall k | 0 <= k < |ms| :: ps[k] == PacketOf(ms[k])
  {
    if ms == [] then [] else [PacketOf(ms[0])] + Packets(ms[1..])
  }

  /** What is sent for the messages. */
  function SentFor(ms: seq<Down>, pins: Pins): (bodies: seq<Chunks>)
    requires pins.Ok() && AllOk(ms)
    ensures |bodies| == |ms|
  {
    Bodies(Packets(ms), pins.down, MAX_DOWN)
  }

  lemma {:induction false} PacketsAppend(a: seq<Down>, b: seq<Down>)
    ensures Packets(a + b) == Packets(a) + Packets(b)
  {
    if a == [] {
      assert a + b == b;
    } else {
      assert (a + b)[0] == a[0] && (a + b)[1..] == a[1..] + b;
      PacketsAppend(a[1..], b);
    }
  }

  lemma SentForAppend(a: seq<Down>, b: seq<Down>, pins: Pins)
    requires pins.Ok() && AllOk(a) && AllOk(b)
    ensures SentFor(a + b, pins) == SentFor(a, pins) + SentFor(b, pins)
  {
    PacketsAppend(a, b);
    BodiesAppend(Packets(a), Packets(b), pins.down, MAX_DOWN);
  }

  /** What the far end's serializer is given: nothing is offered without a message. */
  function FarOffer(m: Option<Down>, pins: Pins): Offer
    requires pins.Ok()
  {
    match m
    case None => Offered(Packet(CmdOnly, Zeros(MAX_DOWN)), pins.down, MAX_DOWN).(valid := false)
    case Some(d) => Offered(PacketOf(d), pins.down, MAX_DOWN)
  }

  lemma FarOfferLegal(m: Option<Down>, pins: Pins)
    requires pins.Ok() && (m.Some? ==> DownOk(m.value))
    ensures Legal(FarOffer(m, pins), Depth(pins), Depth(pins))
  {
    OfferLegal(if m.Some? then PacketOf(m.value) else Packet(CmdOnly, Zeros(MAX_DOWN)), pins.down, MAX_DOWN);
  }

  /**
   * The interface fed by the far transmitter. `link` is both serializers with their history, `msgs`
   * the messages the far end has sent, `bus` and `snoop` everything that has entered the two pipes.
   */
  datatype Feed = Feed(face: Interface, link: Link, msgs: seq<Down>, bus: seq<Ack>, snoop: seq<Ack>)

  /** The interface's serial inputs are the far transmitter's outputs. */
  function Fed(f: Feed, i: Inputs): Inputs {
    i.(req := f.link.tx.sending, serial := Serial(f.link.tx))
  }

  /** What the receiver presents this cycle, for the pipe of a route. */
  function Presented(s: Interface, route: Route): seq<Ack> {
    var incoming := Decode(s.rx.shift);
    if s.rx.valid && RouteOf(incoming.code) == route then [Ack(incoming.code, incoming.field)] else []
  }

  /** The message the far end starts to send this cycle. */
  function Starts(f: Feed, m: Option<Down>): seq<Down> {
    if m.Some? && !f.link.tx.sending then [m.value] else []
  }

  function FeedNext(f: Feed, i: Inputs, m: Option<Down>, pins: Pins): Feed
    requires pins.Ok()
  {
    Feed(InterfaceNext(f.face, Fed(f, i), pins.up),
         LinkNext(f.link, FarOffer(m, pins)),
         f.msgs + Starts(f, m),
         f.bus + Presented(f.face, ToBus), f.snoop + Presented(f.face, ToSnoop))
  }

  // ---- What enters the pipes is what was sent, route by route ----

  /** The messages of one route, in order. */
  function Routed(ms: seq<Down>, route: Route): seq<Down> {
    if ms == [] then []
    else IfRouted(ms[0], route) + Routed(ms[1..], route)
  }

  function IfRouted(m: Down, route: Route): seq<Down> {
    if RouteOf(m.code) == route then [m] else []
  }

  lemma {:induction false} RoutedAppend(a: seq<Down>, b: seq<Down>, route: Route)
    ensures Routed(a + b, route) == Routed(a, route) + Routed(b, route)
  {
    if a == [] {
      assert a + b == b;
    } else {
      assert (a + b)[1..] == a[1..] + b && (a + b)[0] == a[0];
      RoutedAppend(a[1..], b, route);
      Associates(IfRouted(a[0], route), Routed(a[1..], route), Routed(b, route));
    }
  }

  lemma Associates(x: seq<Down>, y: seq<Down>, z: seq<Down>)
    ensures x + (y + z) == (x + y) + z
  {}

  lemma RoutedOne(m: Down, route: Route)
    ensures Routed([m], route) == IfRouted(m, route)
  {}

  /** The code arrives always, the field when the message was long enough to carry it. */
  predicate Matches(a: Ack, m: Down) {
    a.code == m.code && (m.kind == Medium ==> a.field == m.field)
  }

  predicate AllMatch(acks: seq<Ack>, ms: seq<Down>) {
    |acks| == |ms| && forall k | 0 <= k < |acks| :: Matches(acks[k], ms[k])
  }

  ghost predicate FeedInv(f: Feed, pins: Pins)
    requires pins.Ok()
  {
    && f.face.rx == f.link.rx
    && LinkInv(f.link, Depth(pins), Depth(pins))
    && AllOk(f.msgs)
    && f.link.sent == SentFor(f.msgs, pins)
    && AllMatch(f.bus, Routed(CameOut(f), ToBus)) && AllMatch(f.snoop, Routed(CameOut(f), ToSnoop))
  }

  /** The messages that have come out of the receiver, and those still under way. */
  function CameOut(f: Feed): seq<Down> {
    if |f.link.received| <= |f.msgs| then f.msgs[..|f.link.received|] else f.msgs
  }

  function UnderWay(f: Feed): seq<Down> {
    if |f.link.received| <= |f.msgs| then f.msgs[|f.link.received|..] else []
  }

  function FeedReset(pins: Pins): Feed
    requires pins.Ok()
  {
    var link := Reset(Depth(pins), Depth(pins));
    Feed(Interface(Tx(false, 0, 0, seq(CeilDiv(MAX_UP, pins.up), i => [])), link.rx,
                   Pipe(false, Ack(0, Zeros(32))), Pipe(false, Ack(0, Zeros(32))), Zeros(8)),
         link, [], [], [])
  }

  lemma ResetFed(pins: Pins)
    requires pins.Ok()
    ensures FeedInv(FeedReset(pins), pins)
  {
    ResetInv(Depth(pins), Depth(pins));
  }

  /** On valid, the receiver presents the oldest message under way. */
  lemma PresentsOldest(f: Feed, pins: Pins)
    requires pins.Ok() && FeedInv(f, pins) && f.face.rx.valid
    ensures UnderWay(f) != []
    ensures forall route: Route ::
              && |Presented(f.face, route)| == |Routed([UnderWay(f)[0]], route)|
              && (Presented(f.face, route) != [] ==> Matches(Presented(f.face, route)[0], UnderWay(f)[0]))
  {
    var m := UnderWay(f)[0];
    CeilMonotone(Length(m.kind), MAX_DOWN, pins.down);
    BodyAt(Packets(f.msgs), pins.down, MAX_DOWN, |f.link.received|);
    Received(m.code, m.field, m.kind, pins.down, f.face.rx.shift);
    forall route: Route ensures Routed([m], route) == IfRouted(m, route) {
      RoutedOne(m, route);
    }
  }

  lemma MatchAppend(acks: seq<Ack>, ms: seq<Down>, a: seq<Ack>, b: seq<Down>)
    requires AllMatch(acks, ms) && AllMatch(a, b)
    ensures AllMatch(acks + a, ms + b)
  {}

  /** One edge keeps every history: both links', and both pipes'. */
  lemma FeedStep(f: Feed, i: Inputs, m: Option<Down>, pins: Pins)
    requires pins.Ok() && FeedInv(f, pins) && (m.Some? ==> DownOk(m.value))
    ensures FeedInv(FeedNext(f, i, m, pins), pins)
  {
    var f' := FeedNext(f, i, m, pins);
    FarOfferLegal(m, pins);
    LinkStep(f.link, FarOffer(m, pins), Depth(pins), Depth(pins));
    SentStep(f, i, m, pins);
    assert |f.msgs| == |f.link.sent|;
    CameOutStep(f, i, m, pins);
    RouteStep(f, pins, ToBus, f.bus);
    RouteStep(f, pins, ToSnoop, f.snoop);
  }

  /** What is presented for a route is what arrives of it. */
  lemma PresentsArriving(f: Feed, pins: Pins, route: Route)
    requires pins.Ok() && FeedInv(f, pins)
    ensures AllMatch(Presented(f.face, route), Routed(Arrives(f), route))
  {
    if f.face.rx.valid {
      PresentsOldest(f, pins);
      RoutedOne(UnderWay(f)[0], route);
    }
  }

  /** One pipe's history over one edge. */
  lemma RouteStep(f: Feed, pins: Pins, route: Route, acks: seq<Ack>)
    requires pins.Ok() && FeedInv(f, pins) && AllMatch(acks, Routed(CameOut(f), route))
    ensures AllMatch(acks + Presented(f.face, route), Routed(CameOut(f) + Arrives(f), route))
  {
    PresentsArriving(f, pins, route);
    RoutedAppend(CameOut(f), Arrives(f), route);
    MatchAppend(acks, Routed(CameOut(f), route), Presented(f.face, route), Routed(Arrives(f), route));
  }

  /** What comes out of the receiver this cycle. */
  function Arrives(f: Feed): seq<Down> {
    if f.face.rx.valid && UnderWay(f) != [] then [UnderWay(f)[0]] else []
  }

  lemma SentStep(f: Feed, i: Inputs, m: Option<Down>, pins: Pins)
    requires pins.Ok() && AllOk(f.msgs) && f.link.sent == SentFor(f.msgs, pins) && (m.Some? ==> DownOk(m.value))
    ensures var f' := FeedNext(f, i, m, pins); AllOk(f'.msgs) && f'.link.sent == SentFor(f'.msgs, pins)
  {
    FarSent(f.link, m, pins);
    SentForAppend(f.msgs, Starts(f, m), pins);
  }

  lemma FarSent(l: Link, m: Option<Down>, pins: Pins)
    requires pins.Ok() && (m.Some? ==> DownOk(m.value))
    ensures LinkNext(l, FarOffer(m, pins)).sent
         == l.sent + SentFor(if m.Some? && !l.tx.sending then [m.value] else [], pins)
  {
    if m.Some? {
      BodySent(l, PacketOf(m.value), true, pins.down, MAX_DOWN);
    }
  }

  /** A message leaves the list of those under way as it arrives, and joins it as it is sent. */
  lemma CameOutStep(f: Feed, i: Inputs, m: Option<Down>, pins: Pins)
    requires pins.Ok() && f.face.rx == f.link.rx && |f.link.received| <= |f.msgs|
    requires f.face.rx.valid ==> |f.link.received| < |f.msgs|
    ensures var f' := FeedNext(f, i, m, pins);
            && CameOut(f') == CameOut(f) + Arrives(f)
            && UnderWay(f') == UnderWay(f)[|Arrives(f)|..] + Starts(f, m)
  {
    var f', n := FeedNext(f, i, m, pins), |f.link.received|;
    if f.face.rx.valid {
      TakeOne(f.msgs, Starts(f, m), n);
      assert f.msgs[n..][1..] == f.msgs[n + 1..];
    } else {
      assert f'.msgs[n..] == f.msgs[n..] + Starts(f, m);
    }
  }

  lemma TakeOne(ms: seq<Down>, more: seq<Down>, n: nat)
    requires n < |ms|
    ensures (ms + more)[..n + 1] == ms[..n] + [ms[n]]
    ensures (ms + more)[n + 1..] == ms[n + 1..] + more
  {}

  // ---- How long a message is under way ----

  /** Edges until the last message under way comes out of the receiver. */
  function Arrival(l: Link): nat {
    if l.tx.sending then (if l.tx.count < l.tx.msgLen then l.tx.msgLen - l.tx.count else 0) + 1
    else if l.rx.receiving then 1
    else 0
  }

  /** Edges until a message of this route comes out of the receiver, when there is one under way. */
  function DownWait(f: Feed, route: Route): nat {
    if Presented(f.face, route) != [] then 0 else Arrival(f.link)
  }

  /** The longest message, and the edge on which the receiver sees its end. */
  function DownBound(pins: Pins): nat
    requires pins.Ok()
  {
    Depth(pins) + 1
  }

  lemma DownWaitBound(f: Feed, pins: Pins, route: Route)
    requires pins.Ok() && FeedInv(f, pins)
    ensures DownWait(f, route) <= DownBound(pins)
  {}

  /** One message under way, and not yet out: it is in the transmitter, or the receiver is about to see its end. */
  lemma LastFalls(f: Feed, i: Inputs, m: Option<Down>, pins: Pins)
    requires pins.Ok() && FeedInv(f, pins) && UnderWay(f) != [] && !(f.face.rx.valid && !f.link.tx.sending)
    ensures f.link.tx.sending ==> Arrival(FeedNext(f, i, m, pins).link) < Arrival(f.link)
    ensures !f.link.tx.sending ==> FeedNext(f, i, m, pins).face.rx.valid && Arrival(f.link) == 1
  {
    assert |f.msgs| == |f.link.sent|;
  }

  /** What arrives of a route is the oldest of it under way. */
  lemma ArrivesOldest(f: Feed, pins: Pins, route: Route)
    requires pins.Ok() && FeedInv(f, pins)
    ensures var arrived := Routed(Arrives(f), route);
            && Routed(UnderWay(f), route) == arrived + Routed(UnderWay(f)[|Arrives(f)|..], route)
            && AllMatch(Presented(f.face, route), arrived) && |arrived| <= 1
  {
    var ms := UnderWay(f);
    PresentsArriving(f, pins, route);
    assert ms == Arrives(f) + ms[|Arrives(f)|..];
    RoutedAppend(Arrives(f), ms[|Arrives(f)|..], route);
  }

  /** The route's messages under way stay under way, but for the one that comes out. */
  lemma StillRouted(f: Feed, i: Inputs, m: Option<Down>, pins: Pins, route: Route)
    requires pins.Ok() && FeedInv(f, pins)
    requires Routed(UnderWay(f), route) != [] && Presented(f.face, route) == []
    ensures Routed(UnderWay(f)[|Arrives(f)|..], route) == Routed(UnderWay(f), route)
  {
    ArrivesOldest(f, pins, route);
  }

  lemma RoutedNext(f: Feed, i: Inputs, m: Option<Down>, pins: Pins, route: Route)
    requires pins.Ok() && FeedInv(f, pins) && (m.Some? ==> DownOk(m.value))
    ensures FeedInv(FeedNext(f, i, m, pins), pins)
    ensures Routed(UnderWay(FeedNext(f, i, m, pins)), route)
         == Routed(UnderWay(f)[|Arrives(f)|..], route) + Routed(Starts(f, m), route)
  {
    assert |f.msgs| == |f.link.sent|;
    FeedStep(f, i, m, pins);
    CameOutStep(f, i, m, pins);
    RoutedAppend(UnderWay(f)[|Arrives(f)|..], Starts(f, m), route);
  }

  /** A message that waits while the transmitter is idle is the only one, and not yet out of the receiver. */
  lemma NotJustOut(f: Feed, pins: Pins, route: Route)
    requires pins.Ok() && FeedInv(f, pins)
    requires Routed(UnderWay(f), route) != [] && Presented(f.face, route) == []
    ensures !f.link.tx.sending ==> !f.face.rx.valid && |UnderWay(f)| == 1
  {
    assert |f.msgs| == |f.link.sent|;
    assert |UnderWay(f)| == 1 ==> UnderWay(f) == [UnderWay(f)[0]];
    if !f.link.tx.sending && f.face.rx.valid {
      PresentsOldest(f, pins);
    }
  }

  lemma JustOut(f: Feed, i: Inputs, m: Option<Down>, pins: Pins, route: Route)
    requires pins.Ok() && FeedInv(f, pins) && FeedInv(FeedNext(f, i, m, pins), pins)
    requires |UnderWay(f)| == 1 && Routed(UnderWay(f), route) != []
    requires !f.face.rx.valid && FeedNext(f, i, m, pins).face.rx.valid
    ensures Presented(FeedNext(f, i, m, pins).face, route) != []
  {
    CameOutStep(f, i, m, pins);
    PresentsOldest(FeedNext(f, i, m, pins), pins);
    assert UnderWay(f) == [UnderWay(f)[0]];
  }

  /** Whatever else the far end sends, a message under way comes nearer at every edge, until it comes out. */
  lemma DownWaitFalls(f: Feed, i: Inputs, m: Option<Down>, pins: Pins, route: Route)
    requires pins.Ok() && FeedInv(f, pins) && (m.Some? ==> DownOk(m.value))
    requires Routed(UnderWay(f), route) != [] && Presented(f.face, route) == []
    ensures FeedInv(FeedNext(f, i, m, pins), pins)
    ensures Routed(UnderWay(FeedNext(f, i, m, pins)), route) != []
    ensures DownWait(FeedNext(f, i, m, pins), route) < DownWait(f, route)
  {
    StillRouted(f, i, m, pins, route);
    RoutedNext(f, i, m, pins, route);
    NotJustOut(f, pins, route);
    LastFalls(f, i, m, pins);
    if !f.link.tx.sending {
      JustOut(f, i, m, pins, route);
    }
  }

  // ---- Whole runs ----

  datatype FeedIn = FeedIn(inputs: Inputs, offer: Option<Down>)

  function FeedRun(f: Feed, ins: seq<FeedIn>, pins: Pins): Feed
    requires pins.Ok()
    decreases |ins|
  {
    if ins == [] then f else FeedRun(FeedNext(f, ins[0].inputs, ins[0].offer, pins), ins[1..], pins)
  }

  predicate OffersOk(ins: seq<FeedIn>) {
    forall k | 0 <= k < |ins| && ins[k].offer.Some? :: DownOk(ins[k].offer.value)
  }

  lemma {:induction false} FeedRunInv(f: Feed, ins: seq<FeedIn>, pins: Pins)
    requires pins.Ok() && FeedInv(f, pins) && OffersOk(ins)
    ensures FeedInv(FeedRun(f, ins, pins), pins)
    decreases |ins|
  {
    if ins != [] {
      FeedStep(f, ins[0].inputs, ins[0].offer, pins);
      FeedRunInv(FeedNext(f, ins[0].inputs, ins[0].offer, pins), ins[1..], pins);
    }
  }

  /**
   * From reset, for any number of pins, any messages of the far end and any behaviour of the pipes'
   * readers: what enters the bus pipe is the acknowledgements sent, what enters the snoop pipe is the
   * snoops sent, each in order with its code and its field; at most two messages are still under way.
   */
  lemma DownstreamRouted(ins: seq<FeedIn>, pins: Pins)
    requires pins.Ok() && OffersOk(ins)
    ensures var f := FeedRun(FeedReset(pins), ins, pins);
            && f.msgs == CameOut(f) + UnderWay(f) && |UnderWay(f)| <= 2
            && AllMatch(f.bus, Routed(CameOut(f), ToBus))
            && AllMatch(f.snoop, Routed(CameOut(f), ToSnoop))
  {
    ResetFed(pins);
    FeedRunInv(FeedReset(pins), ins, pins);
    InOrderSoFar(FeedRun(FeedReset(pins), ins, pins), pins);
  }

  lemma InOrderSoFar(f: Feed, pins: Pins)
    requires pins.Ok() && FeedInv(f, pins)
    ensures f.msgs == CameOut(f) + UnderWay(f) && |UnderWay(f)| <= 2
    ensures AllMatch(f.bus, Routed(CameOut(f), ToBus)) && AllMatch(f.snoop, Routed(CameOut(f), ToSnoop))
  {
    AtMostTwo(f.link, Depth(pins));
    assert |f.msgs| == |f.link.sent|;
    SplitsAt(f);
  }

  lemma SplitsAt(f: Feed)
    requires |f.link.received| <= |f.msgs|
    ensures f.msgs == CameOut(f) + UnderWay(f) && |CameOut(f)| == |f.link.received|
  {}

  lemma AtMostTwo(l: Link, depth: nat)
    requires LinkInv(l, depth, depth)
    ensures |l.received| <= |l.sent| <= |l.received| + 2
  {}
}
