/** From reset to the first good state of the whole chip: what its run theorems start from. */
module TileBoot {
  import opened Words
  import opened Sram
  import opened StackRuns
  import opened Outbound
  import opened Controller
  import opened Downlink
  import opened SnoopPipe
  import opened Tile
  import opened TileAcks
  import opened TileRuns
  import P = Packet
  import L = LinkRtl
  import A = AckPipe
  import C = CpuProgress
  import G = InitGate
  import N = TileSnoops
  import S = Serialised
  import T = Transactions
  import V = SnoopProgress

  ghost predicate AtReset(t: Tile, pins: L.Pins)
    requires pins.Ok()
  {
    && t.chip.cpu == CPU_RESET && t.chip.snp == SNP_RESET && t.chip.arb == ARB_RESET && OutOfReset(t.chip.mem)
    && t.feed == FeedReset(pins)
  }

  /** The processor is in reset, and the far end sends nothing for the two pipes. */
  predicate Idle(m: Down) {
    P.RouteOf(m.code) !in {P.ToBus, P.ToSnoop}
  }

  predicate Quiet(i: TileIn) {
    !i.memValid && !i.flushValid && (i.offer.Some? ==> DownOk(i.offer.value) && Idle(i.offer.value))
  }

  ghost predicate Boots(ts: seq<Tile>, ins: seq<TileIn>, pins: L.Pins) {
    && pins.Ok() && |ts| == |ins| + 1 && |ins| == CLEAR_EDGES && AtReset(ts[0], pins)
    && forall k | 0 <= k < |ins| :: BootStep(ts, ins, k, pins)
  }

  ghost predicate BootStep(ts: seq<Tile>, ins: seq<TileIn>, k: nat, pins: L.Pins)
    requires pins.Ok() && |ts| == |ins| + 1 && k < |ins|
  {
    Quiet(ins[k]) && StackOk(ts[k].chip.mem) && ts[k + 1] == TileNext(ts[k], ins[k], pins)
  }

  // ---- The pipes stay empty ----

  ghost predicate QuietFeed(f: Feed, pins: L.Pins)
    requires pins.Ok()
  {
    FeedInv(f, pins) && Still(f)
  }

  predicate Still(f: Feed) {
    !f.face.bus.valid && !f.face.snoop.valid && AllIdle(f.msgs)
  }

  predicate AllIdle(ms: seq<Down>) {
    forall k | 0 <= k < |ms| :: Idle(ms[k])
  }

  lemma AllIdleAppend(a: seq<Down>, b: seq<Down>)
    requires AllIdle(a) && AllIdle(b)
    ensures AllIdle(a + b)
  {}

  lemma NothingPresented(f: Feed, pins: L.Pins)
    requires pins.Ok() && QuietFeed(f, pins)
    ensures Presented(f.face, P.ToBus) == [] && Presented(f.face, P.ToSnoop) == []
  {
    if f.face.rx.valid {
      PresentsOldest(f, pins);
      RoutedOne(UnderWay(f)[0], P.ToBus);
      RoutedOne(UnderWay(f)[0], P.ToSnoop);
      assert Idle(f.msgs[|f.link.received|]);
    }
  }

  lemma PipesStayEmpty(s: L.Interface, i: L.Inputs, up: nat)
    requires up > 0 && !s.bus.valid && !s.snoop.valid
    requires Presented(s, P.ToBus) == [] && Presented(s, P.ToSnoop) == []
    ensures !L.InterfaceNext(s, i, up).bus.valid && !L.InterfaceNext(s, i, up).snoop.valid
  {}

  lemma StaysStill(f: Feed, i: L.Inputs, m: Option<Down>, pins: L.Pins)
    requires pins.Ok() && QuietFeed(f, pins) && (m.Some? ==> Idle(m.value))
    ensures Still(FeedNext(f, i, m, pins))
  {
    NothingPresented(f, pins);
    PipesStayEmpty(f.face, Fed(f, i), pins.up);
    AllIdleAppend(f.msgs, Starts(f, m));
  }

  lemma QuietFeedStep(f: Feed, i: L.Inputs, m: Option<Down>, pins: L.Pins)
    requires pins.Ok() && QuietFeed(f, pins) && (m.Some? ==> DownOk(m.value) && Idle(m.value))
    ensures QuietFeed(FeedNext(f, i, m, pins), pins)
  {
    FeedStep(f, i, m, pins);
    StaysStill(f, i, m, pins);
  }

  lemma {:induction false} NoneRouted(ms: seq<Down>)
    requires AllIdle(ms)
    ensures Routed(ms, P.ToBus) == [] && Routed(ms, P.ToSnoop) == []
  {
    if ms != [] {
      assert Idle(ms[0]);
      NoneRouted(ms[1..]);
    }
  }

  lemma QuietNext(ts: seq<Tile>, ins: seq<TileIn>, pins: L.Pins, k: nat)
    requires Boots(ts, ins, pins) && k < |ins| && QuietFeed(ts[k].feed, pins)
    ensures QuietFeed(ts[k + 1].feed, pins)
  {
    assert BootStep(ts, ins, k, pins);
    QuietFeedStep(ts[k].feed, FaceInputs(ts[k], ins[k]), ins[k].offer, pins);
  }

  lemma FeedsQuiet(ts: seq<Tile>, ins: seq<TileIn>, pins: L.Pins, k: nat)
    requires Boots(ts, ins, pins) && k <= |ins|
    ensures QuietFeed(ts[k].feed, pins)
  {
    ResetFed(pins);
    forall j | 0 <= j < |ins| && QuietFeed(ts[j].feed, pins) ensures QuietFeed(ts[j + 1].feed, pins) {
      QuietNext(ts, ins, pins, j);
    }
    AlongRun(ts, (t: Tile) => QuietFeed(t.feed, pins), k);
  }

  // ---- The controller boots as the board does ----

  /** The reset gate, boot-done held low: it stays shut. */
  function GateAfter(k: nat): (g: G.Gate)
    ensures !g.meta && !g.sync
  {
    if k == 0 then G.GATE_RESET else G.GateNext(GateAfter(k - 1), false)
  }

  function BoardsFrom(ts: seq<Tile>, n: nat): (bs: seq<G.Board>)
    ensures |bs| == |ts| && forall k | 0 <= k < |ts| :: bs[k] == G.Board(ts[k].chip, GateAfter(n + k))
  {
    if ts == [] then [] else [G.Board(ts[0].chip, GateAfter(n))] + BoardsFrom(ts[1..], n + 1)
  }

  function BoardInputs(ts: seq<Tile>, ins: seq<TileIn>): (bs: seq<G.Input>)
    requires |ts| >= |ins|
    ensures |bs| == |ins| && forall k | 0 <= k < |ins| :: bs[k] == G.Input(TileEnv(ts[k], ins[k]), false)
  {
    if ins == [] then [] else [G.Input(TileEnv(ts[0], ins[0]), false)] + BoardInputs(ts[1..], ins[1..])
  }

  lemma BoardEdge(ts: seq<Tile>, ins: seq<TileIn>, pins: L.Pins, k: nat)
    requires Boots(ts, ins, pins) && k < |ins|
    ensures G.StepAt(BoardsFrom(ts, 0), BoardInputs(ts, ins), k)
  {
    assert BootStep(ts, ins, k, pins);
    assert G.Gated(GateAfter(k), TileEnv(ts[k], ins[k])) == TileEnv(ts[k], ins[k]);
  }

  lemma BoardsEvolve(ts: seq<Tile>, ins: seq<TileIn>, pins: L.Pins)
    requires Boots(ts, ins, pins)
    ensures G.Evolves(BoardsFrom(ts, 0), BoardInputs(ts, ins)) && G.AtReset(BoardsFrom(ts, 0)[0])
    ensures G.QuietUntil(BoardInputs(ts, ins), CLEAR_EDGES)
  {
    forall k | 0 <= k < |ins| ensures G.StepAt(BoardsFrom(ts, 0), BoardInputs(ts, ins), k) {
      BoardEdge(ts, ins, pins, k);
    }
    forall k | 0 <= k < CLEAR_EDGES && k < CLEAR_EDGES - 1 ensures !BoardInputs(ts, ins)[k].env.snoopValid {
      FeedsQuiet(ts, ins, pins, k);
    }
  }

  /** The arbiter offers nothing while the memory clears. */
  lemma NothingOffered(ts: seq<Tile>, ins: seq<TileIn>, pins: L.Pins, k: nat)
    requires Boots(ts, ins, pins) && k < |ins|
    ensures ts[k].chip.arb == ARB_RESET
  {
    var bs, inputs := BoardsFrom(ts, 0), BoardInputs(ts, ins);
    BoardsEvolve(ts, ins, pins);
    forall j | 0 <= j < k ensures !G.Released(bs[j].gate) {}
    G.BootingAt(bs, inputs, k);
    assert G.QuietUntil(inputs, k) by {
      forall j | 0 <= j < k && j < CLEAR_EDGES - 1 ensures !inputs[j].env.snoopValid {}
    }
  }

  lemma {:induction false} TxIdle(ts: seq<Tile>, ins: seq<TileIn>, pins: L.Pins, k: nat)
    requires Boots(ts, ins, pins) && k <= |ins|
    ensures !ts[k].feed.face.tx.sending
  {
    if k > 0 {
      var j := k - 1;
      TxIdle(ts, ins, pins, j);
      NothingOffered(ts, ins, pins, j);
      assert BootStep(ts, ins, j, pins);
    }
  }

  /** The chip as the specification sees it when memory_ready rises. */
  function BootedLink(t: Tile): A.Linked {
    A.Linked(G.Booted(t.chip), BusPipe(t.feed.face.bus), [], [], [])
  }

  function BootedTwin(t: Tile, tx: T.CpuTx): Twin {
    Twin(t, C.Paced(BootedLink(t), 0, 0), tx, [])
  }

  lemma BootsClear(ts: seq<Tile>, ins: seq<TileIn>, pins: L.Pins)
    requires Boots(ts, ins, pins)
    ensures var r := ts[CLEAR_EDGES].chip;
            && Abstracts(r, G.Booted(r)) && StackOk(r.mem)
            && r.cpu == CPU_RESET && r.arb == ARB_RESET && r.snp.st in {SnpIdle, SnpFetchReq}
  {
    BoardsEvolve(ts, ins, pins);
    G.BootedClear(BoardsFrom(ts, 0), BoardInputs(ts, ins));
  }

  lemma BootsAcks(ts: seq<Tile>, ins: seq<TileIn>, pins: L.Pins, tx: T.CpuTx)
    requires Boots(ts, ins, pins)
    ensures var t := ts[CLEAR_EDGES];
            && AcksOk(t, BootedLink(t), pins) && t.chip.cpu == CPU_RESET
            && S.InOrder(ZeroArray().cells, S.Tracked(G.Booted(t.chip), tx, []))
  {
    var t := ts[CLEAR_EDGES];
    BootsClear(ts, ins, pins);
    G.BootedInOrder(t.chip, tx, BusPipe(t.feed.face.bus).data);
    FeedsQuiet(ts, ins, pins, CLEAR_EDGES);
    BootedMirrors(t, pins);
  }

  /**
   * From reset, with the processor in reset and nothing for the pipes on the link while the memory clears:
   * after 513 edges the chip is where the run theorems start, with every cell zero and INVALID.
   */
  lemma BootsGood(ts: seq<Tile>, ins: seq<TileIn>, pins: L.Pins, tx: T.CpuTx)
    requires Boots(ts, ins, pins)
    ensures var x := BootedTwin(ts[CLEAR_EDGES], tx);
            TwinOk(ZeroArray().cells, x, pins) && !C.Busy(x.p)
  {
    var t := ts[CLEAR_EDGES];
    BootsAcks(ts, ins, pins, tx);
    TxIdle(ts, ins, pins, CLEAR_EDGES);
  }

  lemma {:induction false} SnoopIdle(ts: seq<Tile>, ins: seq<TileIn>, pins: L.Pins, k: nat)
    requires Boots(ts, ins, pins) && k <= |ins|
    ensures ts[k].chip.snp.st == SnpIdle
  {
    if k > 0 {
      var j := k - 1;
      SnoopIdle(ts, ins, pins, j);
      FeedsQuiet(ts, ins, pins, j);
      assert BootStep(ts, ins, j, pins);
    }
  }

  lemma NothingAsked(t: Tile, pins: L.Pins)
    requires pins.Ok() && QuietFeed(t.feed, pins) && t.chip.snp.st == SnpIdle
    ensures PathOk(N.PathOf(N.Watch(t, V.Timed(G.Booted(t.chip), 0), [])))
  {
    NoneRouted(t.feed.msgs);
    NoneRouted(UnderWay(t.feed));
    EmptyPath(N.PathOf(N.Watch(t, V.Timed(G.Booted(t.chip), 0), [])));
  }

  lemma EmptyPath(p: Path)
    requires p.asked == [] && p.acks == [] && p.coming == [] && !p.pipe.valid && p.snp.st == SnpIdle
    ensures PathOk(p)
  {}

  /** And with no snoop asked yet, it is where the theorems about snoops start. */
  lemma BootsWatched(ts: seq<Tile>, ins: seq<TileIn>, pins: L.Pins, tx: T.CpuTx)
    requires Boots(ts, ins, pins)
    ensures var t := ts[CLEAR_EDGES]; N.WatchOk(N.Watch(t, V.Timed(G.Booted(t.chip), 0), []), pins)
  {
    BootsGood(ts, ins, pins, tx);
    FeedsQuiet(ts, ins, pins, CLEAR_EDGES);
    SnoopIdle(ts, ins, pins, CLEAR_EDGES);
    NothingAsked(ts[CLEAR_EDGES], pins);
  }

  /** Nothing for the bus pipe is on its way. */
  lemma NothingComing(f: Feed, pins: L.Pins)
    requires pins.Ok() && QuietFeed(f, pins)
    ensures Cmds(Routed(UnderWay(f), P.ToBus)) == []
  {
    NoneRouted(UnderWay(f));
  }

  lemma BootedMirrors(t: Tile, pins: L.Pins)
    requires pins.Ok() && QuietFeed(t.feed, pins) && Abstracts(t.chip, G.Booted(t.chip))
    ensures Mirrors(t, BootedLink(t), pins)
  {
    NothingComing(t.feed, pins);
  }
}
