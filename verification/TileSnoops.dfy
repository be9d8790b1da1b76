/**
 * Snoops on the chip: each one under way is acknowledged in time, whatever processor and directory do;
 * and a directory that waits for each acknowledgement before its next snoop has every snoop answered.
 */
module TileSnoops {
  import opened Words
  import opened Sram
  import opened PortedArray
  import opened Outbound
  import opened Controller
  import opened SnoopProgress
  import opened Downlink
  import opened SnoopPipe
  import opened Tile
  import L = LinkRtl
  import P = Packet

  // ---- A snoop under way is acknowledged in time ----

  /** The hardware hands the snoop's acknowledgement to the link at this edge. */
  predicate SnoopAnswered(t: Tile, i: TileIn) {
    SnpSent(t.chip, TileEnv(t, i)) && SnpOut(t.chip.snp) == Some(t.chip.arb.msg)
  }

  /** Some edge of the run does. */
  ghost predicate AnsweredWithin(t: Tile, ins: seq<TileIn>, pins: L.Pins)
    requires pins.Ok() && StackOk(t.chip.mem)
    decreases |ins|
  {
    if ins == [] then false
    else
      SnoopAnswered(t, ins[0]) || AnsweredWithin(TileNext(t, ins[0], pins), ins[1..], pins)
  }

  /** The interface's serializer makes the link a fair one. */
  lemma LinkIsFair(t: Tile, c: Timed, i: TileIn, pins: L.Pins)
    requires pins.Ok() && Abstracts(t.chip, c.chip) && UpClock(t, c.stalled, pins)
    ensures LinkFair(c, TileEnv(t, i), LinkBound(pins))
    ensures PortedOk(c.chip.mem) ==> UpClock(TileNext(t, i, pins), TimedNext(c, TileEnv(t, i)).stalled, pins)
  {
    UpClockStep(t, c.stalled, i, pins);
  }

  lemma {:induction false} AnsweredInRank(t: Tile, c: Timed, ins: seq<TileIn>, pins: L.Pins)
    requires pins.Ok() && Coordinated(c.chip) && Abstracts(t.chip, c.chip) && UpClock(t, c.stalled, pins)
    requires c.chip.snp.st != SnpIdle && |ins| >= Rank(c, LinkBound(pins))
    ensures AnsweredWithin(t, ins, pins)
    decreases |ins|
  {
    RankBound(c, LinkBound(pins));
    LinkIsFair(t, c, ins[0], pins);
    var e := TileEnv(t, ins[0]);
    RankFalls(c, e, LinkBound(pins));
    RawStep(t.chip, c.chip, e);
    CoordinatedStep(c.chip, e);
    if !SnpSent(t.chip, e) {
      AnsweredInRank(TileNext(t, ins[0], pins), TimedNext(c, e), ins[1..], pins);
    }
  }

  /**
   * A snoop under way is acknowledged within 2 * (chunks of the longest message + 1) + 31 edges, from
   * every coordinated chip and for all inputs: no assumption on the link, the processor, its cell, or
   * what the directory sends.
   */
  lemma SnoopServed(t: Tile, c: Timed, ins: seq<TileIn>, pins: L.Pins)
    requires pins.Ok() && Coordinated(c.chip) && Abstracts(t.chip, c.chip) && UpClock(t, c.stalled, pins)
    requires c.chip.snp.st != SnpIdle && |ins| >= 2 * LinkBound(pins) + 31
    ensures AnsweredWithin(t, ins, pins)
  {
    LinkIsFair(t, c, ins[0], pins);
    RankBound(c, LinkBound(pins));
    AnsweredInRank(t, c, ins, pins);
  }

  // ---- Every snoop asked is answered, once and in order ----

  /** The tile, and everything its controller has handed to the link. */
  datatype Watch = Watch(t: Tile, c: Timed, outs: seq<Out>)

  function Handed(t: Tile, i: TileIn): seq<Out> {
    DeliveredNow(t.chip.arb, ChipMasters(t.chip, TileEnv(t, i)))
  }

  function WatchNext(w: Watch, i: TileIn, pins: L.Pins): Watch
    requires pins.Ok() && StackOk(w.t.chip.mem) && PortedOk(w.c.chip.mem)
  {
    Watch(TileNext(w.t, i, pins), TimedNext(w.c, TileEnv(w.t, i)), w.outs + Handed(w.t, i))
  }

  function PathOf(w: Watch): Path {
    Path(Routed(w.t.feed.msgs, P.ToSnoop), Acks(w.outs), Routed(UnderWay(w.t.feed), P.ToSnoop),
         w.t.feed.face.snoop, w.t.chip.snp)
  }

  function NowAt(w: Watch, i: TileIn): Now {
    Now(Routed(Starts(w.t.feed, i.offer), P.ToSnoop), Routed(Arrives(w.t.feed), P.ToSnoop),
        Presented(w.t.feed.face, P.ToSnoop), Acks(Handed(w.t, i)))
  }

  /** The directory sends a snoop, with its address, only when every earlier one has been acknowledged. */
  predicate Waits(w: Watch, i: TileIn) {
    && (i.offer.Some? ==> DownOk(i.offer.value))
    && (NowAt(w, i).asked != [] ==> i.offer.value.kind == P.Medium && |PathOf(w).asked| == |PathOf(w).acks|)
  }

  ghost predicate WatchOk(w: Watch, pins: L.Pins) {
    && pins.Ok() && Coordinated(w.c.chip) && Abstracts(w.t.chip, w.c.chip)
    && FeedInv(w.t.feed, pins) && UpClock(w.t, w.c.stalled, pins) && PathOk(PathOf(w))
  }

  lemma StartsOne(f: Feed, m: Option<Down>)
    ensures |Routed(Starts(f, m), P.ToSnoop)| <= 1
    ensures Routed(Starts(f, m), P.ToSnoop) != [] ==> m.Some? && Routed(Starts(f, m), P.ToSnoop) == [m.value]
  {
    if Starts(f, m) != [] {
      RoutedOne(m.value, P.ToSnoop);
    }
  }

  lemma NowIsOk(w: Watch, i: TileIn, pins: L.Pins)
    requires WatchOk(w, pins) && Waits(w, i)
    ensures NowOk(PathOf(w), NowAt(w, i))
  {
    StartsOne(w.t.feed, i.offer);
    ArrivesOldest(w.t.feed, pins, P.ToSnoop);
  }

  lemma HistoriesGrow(w: Watch, i: TileIn, pins: L.Pins)
    requires pins.Ok() && FeedInv(w.t.feed, pins) && Waits(w, i) && StackOk(w.t.chip.mem) && PortedOk(w.c.chip.mem)
    ensures var p, n, p' := PathOf(w), NowAt(w, i), PathOf(WatchNext(w, i, pins));
            && p'.asked == p.asked + n.asked && p'.acks == p.acks + n.acked
            && |n.arrived| <= |p.coming| && p'.coming == p.coming[|n.arrived|..] + n.asked
  {
    var f := w.t.feed;
    RoutedAppend(f.msgs, Starts(f, i.offer), P.ToSnoop);
    AcksAppend(w.outs, Handed(w.t, i));
    RoutedNext(f, FaceInputs(w.t, i), i.offer, pins, P.ToSnoop);
    ArrivesOldest(f, pins, P.ToSnoop);
  }

  lemma MachineFollows(w: Watch, i: TileIn, pins: L.Pins)
    requires pins.Ok() && Abstracts(w.t.chip, w.c.chip) && Coordinated(w.c.chip)
    ensures var s, n, s', pipe := w.t.chip.snp, NowAt(w, i), TileNext(w.t, i, pins).chip.snp, w.t.feed.face.snoop;
            && (s.st == SnpIdle && pipe.valid ==>
                  s'.st != SnpIdle && WorksOn(s', Down(pipe.data.code, pipe.data.field, P.Medium)))
            && (s.st == SnpIdle ==> n.acked == [] && (!pipe.valid ==> s'.st == SnpIdle))
            && (s.st != SnpIdle && n.acked == [] ==> s'.st != SnpIdle && s'.addr == s.addr && s'.event == s.event)
            && (n.acked != [] ==>
                  |n.acked| == 1 && s'.st == SnpIdle && n.acked[0].cmd == Ack(s.event) && n.acked[0].addr == s.addr)
  {
    var e := TileEnv(w.t, i);
    AckNow(w.t.chip, e);
    SnoopMachineStep(w.t.chip.snp, e, RawOut(w.t.chip.mem, P1, CpuPort(w.t.chip.cpu), SnpPort(w.t.chip.snp)),
                     SnpSent(w.t.chip, e));
  }

  lemma PathFollows(w: Watch, i: TileIn, pins: L.Pins)
    requires WatchOk(w, pins) && Waits(w, i) && NowOk(PathOf(w), NowAt(w, i))
    ensures Follows(PathOf(w), NowAt(w, i), PathOf(WatchNext(w, i, pins)))
  {
    HistoriesGrow(w, i, pins);
    MachineFollows(w, i, pins);
  }

  /** One edge keeps the record, and a snoop that comes out of the receiver finds the pipe and the machine free. */
  lemma WatchStep(w: Watch, i: TileIn, pins: L.Pins)
    requires WatchOk(w, pins) && Waits(w, i)
    ensures WatchOk(WatchNext(w, i, pins), pins)
    ensures Presented(w.t.feed.face, P.ToSnoop) != [] ==> !w.t.feed.face.snoop.valid && w.t.chip.snp.st == SnpIdle
  {
    NowIsOk(w, i, pins);
    PathFollows(w, i, pins);
    PathStep(PathOf(w), NowAt(w, i), PathOf(WatchNext(w, i, pins)));
    RawStep(w.t.chip, w.c.chip, TileEnv(w.t, i));
    CoordinatedStep(w.c.chip, TileEnv(w.t, i));
    LinkIsFair(w.t, w.c, i, pins);
    FeedStep(w.t.feed, FaceInputs(w.t, i), i.offer, pins);
  }

  // ---- Whole runs of a directory that waits ----

  /**
   * As long as the directory waits: the k-th acknowledgement answers the k-th snoop, at most one is
   * open, and no snoop comes out of the receiver onto an occupied pipe or a busy machine.
   */
  ghost predicate SnoopsKept(w: Watch, ins: seq<TileIn>, pins: L.Pins)
    requires pins.Ok() && StackOk(w.t.chip.mem) && PortedOk(w.c.chip.mem)
    decreases |ins|
  {
    && PathOk(PathOf(w))
    && (ins != [] && Waits(w, ins[0]) ==>
          var w' := WatchNext(w, ins[0], pins);
          && (Presented(w.t.feed.face, P.ToSnoop) != [] ==> !w.t.feed.face.snoop.valid && w.t.chip.snp.st == SnpIdle)
          && PortedOk(w'.c.chip.mem) && SnoopsKept(w', ins[1..], pins))
  }

  lemma {:induction false} NoSnoopLost(w: Watch, ins: seq<TileIn>, pins: L.Pins)
    requires WatchOk(w, pins)
    ensures SnoopsKept(w, ins, pins)
    decreases |ins|
  {
    if ins != [] && Waits(w, ins[0]) {
      WatchStep(w, ins[0], pins);
      NoSnoopLost(WatchNext(w, ins[0], pins), ins[1..], pins);
    }
  }

  /** As long as the directory waits, the run comes to n acknowledgements. */
  ghost predicate AcksReach(w: Watch, ins: seq<TileIn>, n: nat, pins: L.Pins)
    requires pins.Ok() && StackOk(w.t.chip.mem) && PortedOk(w.c.chip.mem)
    decreases |ins|
  {
    || |Acks(w.outs)| >= n
    || (ins != []
        && (Waits(w, ins[0]) ==>
              var w' := WatchNext(w, ins[0], pins);
              PortedOk(w'.c.chip.mem) && AcksReach(w', ins[1..], n, pins)))
  }

  /** Edges until the open snoop is acknowledged: on the link, in the pipe, in the machine. */
  function OpenRank(w: Watch, pins: L.Pins): int
    requires pins.Ok() && PortedOk(w.c.chip.mem)
  {
    var machine := 2 * LinkBound(pins) + 31;
    if PathOf(w).coming != [] then DownWait(w.t.feed, P.ToSnoop) + 2 + machine
    else if w.t.feed.face.snoop.valid then 1 + machine
    else Rank(w.c, LinkBound(pins))
  }

  function AnswerBound(pins: L.Pins): nat
    requires pins.Ok()
  {
    DownBound(pins) + 2 * LinkBound(pins) + 33
  }

  lemma OpenRankBound(w: Watch, pins: L.Pins)
    requires WatchOk(w, pins) && Waiting(PathOf(w)) == 1
    ensures 0 < OpenRank(w, pins) <= AnswerBound(pins)
  {
    DownWaitBound(w.t.feed, pins, P.ToSnoop);
    if w.t.chip.snp.st != SnpIdle {
      RankBound(w.c, LinkBound(pins));
    }
  }

  /** While a snoop is open the directory asks nothing, and every edge brings the acknowledgement nearer. */
  lemma OpenFalls(w: Watch, i: TileIn, pins: L.Pins)
    requires WatchOk(w, pins) && Waits(w, i) && Waiting(PathOf(w)) == 1
    requires WatchOk(WatchNext(w, i, pins), pins)
    ensures var w' := WatchNext(w, i, pins);
            || |Acks(w'.outs)| > |Acks(w.outs)|
            || (Waiting(PathOf(w')) == 1 && OpenRank(w', pins) < OpenRank(w, pins))
  {
    NowIsOk(w, i, pins);
    PathFollows(w, i, pins);
    if PathOf(w).coming != [] {
      ComingFalls(w, i, pins);
    } else if w.t.feed.face.snoop.valid {
      PipeFalls(w, i, pins);
    } else {
      MachineFalls(w, i, pins);
    }
  }

  lemma ComingFalls(w: Watch, i: TileIn, pins: L.Pins)
    requires WatchOk(w, pins) && Waits(w, i) && Waiting(PathOf(w)) == 1 && PathOf(w).coming != []
    requires WatchOk(WatchNext(w, i, pins), pins)
    requires NowOk(PathOf(w), NowAt(w, i)) && Follows(PathOf(w), NowAt(w, i), PathOf(WatchNext(w, i, pins)))
    ensures var w' := WatchNext(w, i, pins);
            Waiting(PathOf(w')) == 1 && OpenRank(w', pins) < OpenRank(w, pins)
  {
    if Presented(w.t.feed.face, P.ToSnoop) == [] {
      DownWaitFalls(w.t.feed, FaceInputs(w.t, i), i.offer, pins, P.ToSnoop);
    }
  }

  lemma PipeFalls(w: Watch, i: TileIn, pins: L.Pins)
    requires WatchOk(w, pins) && Waits(w, i) && Waiting(PathOf(w)) == 1 && w.t.feed.face.snoop.valid
    requires WatchOk(WatchNext(w, i, pins), pins)
    requires NowOk(PathOf(w), NowAt(w, i)) && Follows(PathOf(w), NowAt(w, i), PathOf(WatchNext(w, i, pins)))
    ensures var w' := WatchNext(w, i, pins);
            Waiting(PathOf(w')) == 1 && OpenRank(w', pins) < OpenRank(w, pins)
  {
    RankBound(WatchNext(w, i, pins).c, LinkBound(pins));
  }

  lemma MachineFalls(w: Watch, i: TileIn, pins: L.Pins)
    requires WatchOk(w, pins) && Waits(w, i) && Waiting(PathOf(w)) == 1
    requires PathOf(w).coming == [] && !w.t.feed.face.snoop.valid
    requires WatchOk(WatchNext(w, i, pins), pins)
    requires NowOk(PathOf(w), NowAt(w, i)) && Follows(PathOf(w), NowAt(w, i), PathOf(WatchNext(w, i, pins)))
    ensures var w' := WatchNext(w, i, pins);
            || |Acks(w'.outs)| > |Acks(w.outs)|
            || (Waiting(PathOf(w')) == 1 && OpenRank(w', pins) < OpenRank(w, pins))
  {
    LinkIsFair(w.t, w.c, i, pins);
    RankFalls(w.c, TileEnv(w.t, i), LinkBound(pins));
    AckNow(w.t.chip, TileEnv(w.t, i));
  }

  /** The acknowledgement of the open snoop, the n-th, comes or comes nearer. */
  lemma OpenNext(w: Watch, i: TileIn, n: nat, pins: L.Pins)
    requires WatchOk(w, pins) && Waits(w, i) && Waiting(PathOf(w)) == 1 && n == |Acks(w.outs)| + 1
    ensures var w' := WatchNext(w, i, pins);
            && WatchOk(w', pins)
            && (|Acks(w'.outs)| >= n
                || (n == |Acks(w'.outs)| + 1 && Waiting(PathOf(w')) == 1 && OpenRank(w', pins) < OpenRank(w, pins)))
  {
    WatchStep(w, i, pins);
    OpenFalls(w, i, pins);
    AcksAppend(w.outs, Handed(w.t, i));
  }

  lemma {:induction false} AckedInRank(w: Watch, ins: seq<TileIn>, n: nat, pins: L.Pins)
    requires WatchOk(w, pins) && Waiting(PathOf(w)) == 1 && n == |Acks(w.outs)| + 1
    requires |ins| >= OpenRank(w, pins)
    ensures AcksReach(w, ins, n, pins)
    decreases |ins|
  {
    OpenRankBound(w, pins);
    if Waits(w, ins[0]) {
      var w' := WatchNext(w, ins[0], pins);
      OpenNext(w, ins[0], n, pins);
      if |Acks(w'.outs)| < n {
        AckedInRank(w', ins[1..], n, pins);
      }
    }
  }

  /**
   * With a directory that waits for each acknowledgement before its next snoop, every snoop asked is
   * acknowledged within a bound in the two pin counts, whatever else it sends and the processor does.
   */
  lemma EverySnoopAnswered(w: Watch, ins: seq<TileIn>, pins: L.Pins)
    requires WatchOk(w, pins) && |ins| >= AnswerBound(pins)
    ensures AcksReach(w, ins, |PathOf(w).asked|, pins)
  {
    if Waiting(PathOf(w)) == 1 {
      OpenRankBound(w, pins);
      AckedInRank(w, ins, |PathOf(w).asked|, pins);
    }
  }
}
