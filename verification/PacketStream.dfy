/** Whole streams of packets over the pin link: what the interface accepts is what the far side recovers, in order. */
module PacketStream {
  import opened SerialLink
  import opened Packet

  /** One cycle's request to the interface. */
  datatype Request = Request(valid: bool, code: Code, addr: Field, data: Field)

  function PacketOf(r: Request): Packet {
    Build(r.code, r.addr, r.data)
  }

  function OfferOf(r: Request, pins: nat): Offer
    requires pins > 0
  {
    Offered(PacketOf(r), pins, MAX_UP).(valid := r.valid)
  }

  function Packets(rs: seq<Request>): (ps: seq<Packet>)
    ensures |ps| == |rs| && forall k | 0 <= k < |rs| :: ps[k] == PacketOf(rs[k])
  {
    if rs == [] then [] else [PacketOf(rs[0])] + Packets(rs[1..])
  }

  function Offers(rs: seq<Request>, pins: nat): (offers: seq<Offer>)
    requires pins > 0
    ensures |offers| == |rs| && forall k | 0 <= k < |rs| :: offers[k] == OfferOf(rs[k], pins)
  {
    if rs == [] then [] else [OfferOf(rs[0], pins)] + Offers(rs[1..], pins)
  }

  function AcceptedNow(l: Link, r: Request): seq<Request> {
    if !l.tx.sending && r.valid then [r] else []
  }

  /** The requests taken: those offered while the transmitter was idle. */
  function Accepted(l: Link, rs: seq<Request>, pins: nat): seq<Request>
    requires pins > 0
    decreases |rs|
  {
    if rs == [] then []
    else
      AcceptedNow(l, rs[0]) + Accepted(LinkNext(l, OfferOf(rs[0], pins)), rs[1..], pins)
  }

  /** What is sent for the requests. */
  function SentFor(rs: seq<Request>, pins: nat): (bodies: seq<Chunks>)
    requires pins > 0
    ensures |bodies| == |rs|
  {
    Bodies(Packets(rs), pins, MAX_UP)
  }

  lemma {:induction false} PacketsAppend(a: seq<Request>, b: seq<Request>)
    ensures Packets(a + b) == Packets(a) + Packets(b)
  {
    if a == [] {
      assert a + b == b;
    } else {
      assert (a + b)[0] == a[0] && (a + b)[1..] == a[1..] + b;
      PacketsAppend(a[1..], b);
    }
  }

  lemma SentForAppend(a: seq<Request>, b: seq<Request>, pins: nat)
    requires pins > 0
    ensures SentFor(a + b, pins) == SentFor(a, pins) + SentFor(b, pins)
  {
    PacketsAppend(a, b);
    BodiesAppend(Packets(a), Packets(b), pins, MAX_UP);
  }

  lemma SentNow(l: Link, r: Request, pins: nat)
    requires pins > 0
    ensures LinkNext(l, OfferOf(r, pins)).sent == l.sent + SentFor(AcceptedNow(l, r), pins)
  {
    BodySent(l, PacketOf(r), r.valid, pins, MAX_UP);
    assert Packets([r]) == [PacketOf(r)];
  }

  lemma {:induction false} SentBodies(l: Link, rs: seq<Request>, pins: nat)
    requires pins > 0
    ensures LinkRun(l, Offers(rs, pins)).sent == l.sent + SentFor(Accepted(l, rs, pins), pins)
    decreases |rs|
  {
    if rs != [] {
      var l' := LinkNext(l, OfferOf(rs[0], pins));
      RunSplits(l, rs, pins);
      SentNow(l, rs[0], pins);
      SentBodies(l', rs[1..], pins);
      var now, later := AcceptedNow(l, rs[0]), Accepted(l', rs[1..], pins);
      SentForAppend(now, later, pins);
      Associates(l.sent, SentFor(now, pins), SentFor(later, pins));
    }
  }

  lemma Associates(a: seq<Chunks>, b: seq<Chunks>, c: seq<Chunks>)
    ensures (a + b) + c == a + (b + c)
  {}

  lemma RunSplits(l: Link, rs: seq<Request>, pins: nat)
    requires pins > 0 && rs != []
    ensures var l' := LinkNext(l, OfferOf(rs[0], pins));
            && LinkRun(l, Offers(rs, pins)) == LinkRun(l', Offers(rs[1..], pins))
            && Accepted(l, rs, pins) == AcceptedNow(l, rs[0]) + Accepted(l', rs[1..], pins)
  {
    TailOffers(rs, pins);
  }

  lemma TailOffers(rs: seq<Request>, pins: nat)
    requires pins > 0 && rs != []
    ensures Offers(rs, pins) != [] && Offers(rs, pins)[0] == OfferOf(rs[0], pins)
    ensures Offers(rs, pins)[1..] == Offers(rs[1..], pins)
  {}

  lemma BodyRecovered(r: Request, pins: nat, arrived: Chunks)
    requires pins > 0
    requires var body := Body(PacketOf(r), pins, MAX_UP); |body| <= |arrived| && arrived[..|body|] == body
    ensures Recovered(r.code, r.addr, r.data, arrived)
  {
    CeilMonotone(Length(PacketOf(r).kind), MAX_UP, pins);
    PacketRoundTrip(r.code, r.addr, r.data, pins, arrived);
  }

  lemma OffersLegal(rs: seq<Request>, pins: nat)
    requires pins > 0
    ensures var depth := CeilDiv(MAX_UP, pins);
            forall k | 0 <= k < |rs| :: Legal(Offers(rs, pins)[k], depth, depth)
  {
    forall k | 0 <= k < |rs| ensures Legal(Offers(rs, pins)[k], CeilDiv(MAX_UP, pins), CeilDiv(MAX_UP, pins)) {
      OfferLegal(PacketOf(rs[k]), pins, MAX_UP);
    }
  }

  /** The link after the requests, from reset, and the requests it took. */
  function Sending(rs: seq<Request>, pins: nat): Link
    requires pins > 0
  {
    LinkRun(Reset(CeilDiv(MAX_UP, pins), CeilDiv(MAX_UP, pins)), Offers(rs, pins))
  }

  function Taken(rs: seq<Request>, pins: nat): seq<Request>
    requires pins > 0
  {
    Accepted(Reset(CeilDiv(MAX_UP, pins), CeilDiv(MAX_UP, pins)), rs, pins)
  }

  lemma SendingDelivers(rs: seq<Request>, pins: nat)
    requires pins > 0
    ensures var end := Sending(rs, pins);
            && |end.received| <= |end.sent| <= |end.received| + 2
            && end.sent == SentFor(Taken(rs, pins), pins)
            && forall k: nat | k < |end.received| :: Arrived(end, k)
  {
    var depth := CeilDiv(MAX_UP, pins);
    OffersLegal(rs, pins);
    ResetInv(depth, depth);
    StreamRoundTrip(Reset(depth, depth), Offers(rs, pins), depth, depth);
    SentBodies(Reset(depth, depth), rs, pins);
    assert [] + SentFor(Taken(rs, pins), pins) == SentFor(Taken(rs, pins), pins);
  }

  /**
   * From reset, for any number of pins and any requests cycle by cycle: message k received is the
   * k-th request accepted, with its command, its address and its data, and at most two are on their way.
   */
  lemma StreamRecovered(rs: seq<Request>, pins: nat)
    requires pins > 0
    ensures |Sending(rs, pins).received| <= |Taken(rs, pins)| <= |Sending(rs, pins).received| + 2
    ensures forall k: nat | k < |Sending(rs, pins).received| ::
              var r := Taken(rs, pins)[k]; Recovered(r.code, r.addr, r.data, Sending(rs, pins).received[k])
  {
    SendingDelivers(rs, pins);
    var end := Sending(rs, pins);
    forall k: nat | k < |end.received|
      ensures var r := Taken(rs, pins)[k]; Recovered(r.code, r.addr, r.data, end.received[k])
    {
      assert Arrived(end, k);
      BodyAt(Packets(Taken(rs, pins)), pins, MAX_UP, k);
      BodyRecovered(Taken(rs, pins)[k], pins, end.received[k]);
    }
  }
}
