/** The two-master arbiter in front of the directory link: one registered request at a time, round-robin. */
module Outbound {
  import opened Words
  import opened Msi
  import opened Sram

  datatype OutCmd = Null | Bus(cmd: Cmd) | Ack(event: SnoopEvent)

  datatype Out = Out(cmd: OutCmd, addr: nat, data: Word)

  datatype ArbState = ArbIdle | Granted(port: Port)

  /** `prefer` is the master that wins the next contention. */
  datatype Arb = Arb(state: ArbState, prefer: Port, valid: bool, msg: Out)

  const ARB_RESET := Arb(ArbIdle, P0, false, Out(Null, 0, ZERO))

  function Other(p: Port): Port {
    if p == P0 then P1 else P0
  }

  /** What one master requests in a cycle. */
  datatype Masters = Masters(m0: Option<Out>, m1: Option<Out>, ready: bool) {
    function Of(p: Port): Option<Out> { if p == P0 then m0 else m1 }
  }

  predicate ReadyTo(a: Arb, p: Port, ready: bool) {
    a.state == Granted(p) && a.valid && ready
  }

  function Pick(a: Arb, i: Masters): Option<Port> {
    if i.m0.Some? && i.m1.Some? then Some(a.prefer)
    else if i.m0.Some? then Some(P0)
    else if i.m1.Some? then Some(P1)
    else None
  }

  function ArbNext(a: Arb, i: Masters): Arb {
    match a.state
    case ArbIdle =>
      (match Pick(a, i)
       case None => a.(valid := false)
       case Some(p) => Arb(Granted(p), Other(p), true, i.Of(p).value))
    case Granted(p) =>
      if a.valid && i.ready then a.(state := ArbIdle, valid := false) else a
  }

  // ---- The registered request is the granted master's, as long as masters hold ----

  predicate ArbOk(a: Arb, m0: Option<Out>, m1: Option<Out>) {
    match a.state
    case ArbIdle => !a.valid
    case Granted(p) => a.valid && (if p == P0 then m0 else m1) == Some(a.msg) && a.prefer == Other(p)
  }

  /** A master holds its request until it is ready. */
  predicate MastersHold(a: Arb, i: Masters, m0: Option<Out>, m1: Option<Out>) {
    && (i.m0.Some? && !ReadyTo(a, P0, i.ready) ==> m0 == i.m0)
    && (i.m1.Some? && !ReadyTo(a, P1, i.ready) ==> m1 == i.m1)
  }

  lemma ArbStep(a: Arb, i: Masters, m0: Option<Out>, m1: Option<Out>)
    requires ArbOk(a, i.m0, i.m1) && MastersHold(a, i, m0, m1)
    ensures ArbOk(ArbNext(a, i), m0, m1)
  {}

  /**
   * Whose request is registered. Idle, the one that asks, and of two the one whose turn it is; the next turn is
   * then the other's. Registered, it stays as it is until the link takes it.
   */
  lemma TakesTurns(a: Arb, i: Masters)
    ensures var a' := ArbNext(a, i);
            && (a.state == ArbIdle && i.m0.Some? && (i.m1 == None || a.prefer == P0) ==>
                  a' == Arb(Granted(P0), P1, true, i.m0.value))
            && (a.state == ArbIdle && i.m1.Some? && (i.m0 == None || a.prefer == P1) ==>
                  a' == Arb(Granted(P1), P0, true, i.m1.value))
            && (a.state == ArbIdle && i.m0 == None && i.m1 == None ==>
                  a'.state == ArbIdle && !a'.valid && a'.prefer == a.prefer)
            && (a.state != ArbIdle && a.valid && i.ready ==>
                  a'.state == ArbIdle && !a'.valid && a'.prefer == a.prefer)
            && (a.state != ArbIdle && !(a.valid && i.ready) ==> a' == a)
  {}

  // ---- Runs ----

  datatype Delivery = Delivery(port: Port, msg: Out)

  /** What crosses the link in a cycle: the registered request, whoever's it is. */
  function DeliveredNow(a: Arb, i: Masters): seq<Out> {
    if a.valid && i.ready then [a.msg] else []
  }

  /** What a master sees taken in a cycle: its own request, when it is told ready. */
  function TakenNow(a: Arb, i: Masters, p: Port): seq<Out> {
    if i.Of(p).Some? && ReadyTo(a, p, i.ready) then [i.Of(p).value] else []
  }

  function Delivered(a: Arb, inputs: seq<Masters>): seq<Out>
    decreases |inputs|
  {
    if inputs == [] then [] else DeliveredNow(a, inputs[0]) + Delivered(ArbNext(a, inputs[0]), inputs[1..])
  }

  function Taken(a: Arb, inputs: seq<Masters>, p: Port): seq<Out>
    decreases |inputs|
  {
    if inputs == [] then [] else TakenNow(a, inputs[0], p) + Taken(ArbNext(a, inputs[0]), inputs[1..], p)
  }

  predicate HoldThroughout(a: Arb, inputs: seq<Masters>)
    decreases |inputs|
  {
    if |inputs| < 2 then true
    else MastersHold(a, inputs[0], inputs[1].m0, inputs[1].m1) && HoldThroughout(ArbNext(a, inputs[0]), inputs[1..])
  }

  /** `s` is a shuffle of `x` and `y`, keeping the order of each. */
  ghost predicate Interleaving(s: seq<Out>, x: seq<Out>, y: seq<Out>)
    decreases |s|
  {
    if s == [] then x == [] && y == []
    else
      || (x != [] && s[0] == x[0] && Interleaving(s[1..], x[1..], y))
      || (y != [] && s[0] == y[0] && Interleaving(s[1..], x, y[1..]))
  }

  /** A card more on the deck, from either hand. */
  lemma Deal(s: seq<Out>, x: seq<Out>, y: seq<Out>, m: Out)
    requires Interleaving(s, x, y)
    ensures Interleaving([m] + s, [m] + x, y) && Interleaving([m] + s, x, [m] + y)
  {
    assert ([m] + s)[1..] == s && ([m] + x)[1..] == x && ([m] + y)[1..] == y;
  }

  /** The delivered stream is an interleaving of what the two masters saw taken: nothing lost, repeated or reordered. */
  lemma {:induction false} DeliveredInterleaves(a: Arb, inputs: seq<Masters>)
    requires inputs != [] ==> ArbOk(a, inputs[0].m0, inputs[0].m1)
    requires HoldThroughout(a, inputs)
    ensures Interleaving(Delivered(a, inputs), Taken(a, inputs, P0), Taken(a, inputs, P1))
    decreases |inputs|
  {
    if inputs != [] {
      var i, rest, a' := inputs[0], inputs[1..], ArbNext(a, inputs[0]);
      if rest != [] {
        ArbStep(a, i, rest[0].m0, rest[0].m1);
      }
      DeliveredInterleaves(a', rest);
      var d, x, y := Delivered(a', rest), Taken(a', rest, P0), Taken(a', rest, P1);
      if a.valid && i.ready {
        Deal(d, x, y, a.msg);
      }
      assert [] + d == d && [] + x == x && [] + y == y;
    }
  }

  /** Foreign deliveries a waiting master may still see. */
  function Bypasses(a: Arb, p: Port): nat {
    match a.state
    case ArbIdle => if a.prefer == p then 0 else 1
    case Granted(q) => if q == p then 0 else 1
  }

  /** A master that waits through a run is bypassed by at most one foreign delivery. */
  lemma {:induction false} BypassedOnce(a: Arb, inputs: seq<Masters>, p: Port)
    requires inputs != [] ==> ArbOk(a, inputs[0].m0, inputs[0].m1)
    requires HoldThroughout(a, inputs)
    requires (forall k | 0 <= k < |inputs| :: inputs[k].Of(p).Some?) && Taken(a, inputs, p) == []
    ensures |Taken(a, inputs, Other(p))| <= Bypasses(a, p) <= 1
    decreases |inputs|
  {
    if inputs != [] {
      var i, rest := inputs[0], inputs[1..];
      if rest != [] {
        ArbStep(a, i, rest[0].m0, rest[0].m1);
      }
      assert i.Of(p).Some?;
      BypassedOnce(ArbNext(a, i), rest, p);
    }
  }

  class OutboundArbiter {
    var stateQ: ArbState
    var rrQ: Port
    var cacheValidQ: bool
    var cacheMsgQ: Out

    function State(): Arb
      reads this
    {
      Arb(stateQ, rrQ, cacheValidQ, cacheMsgQ)
    }

    constructor ()
      ensures State() == ARB_RESET
    {
      stateQ, rrQ, cacheValidQ, cacheMsgQ := ArbIdle, P0, false, Out(Null, 0, ZERO);
    }

    method Posedge(m0: Option<Out>, m1: Option<Out>, cacheReady: bool)
      modifies this
      ensures State() == ArbNext(old(State()), Masters(m0, m1, cacheReady))
    {
      match stateQ
      case ArbIdle =>
        cacheValidQ := false;
        if m0.Some? && (m1 == None || rrQ == P0) {
          stateQ, rrQ := Granted(P0), P1;
          cacheValidQ, cacheMsgQ := true, m0.value;
        } else if m1.Some? {
          stateQ, rrQ := Granted(P1), P0;
          cacheValidQ, cacheMsgQ := true, m1.value;
        }
      case Granted(_) =>
        if cacheValidQ && cacheReady {
          stateQ, cacheValidQ := ArbIdle, false;
        }
    }
  }
}
