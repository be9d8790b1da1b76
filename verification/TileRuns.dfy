/**
 * Whole runs of one chip with its link: the hardware itself, over its byte-serial memory, its
 * overwriting pipes and its serializers. Everything proved of the specification is proved of it here.
 */
module TileRuns {
  import opened Words
  import opened Msi
  import opened CacheLine
  import opened Sram
  import opened PortedArray
  import opened Outbound
  import opened Controller
  import opened Transactions
  import opened AckPipe
  import opened SnoopProgress
  import opened Downlink
  import opened Tile
  import opened TileAcks
  import L = LinkRtl
  import C = CpuProgress
  import P = Packet
  import S = Serialised
  import H = HandlerSteps
  import D = Directory
  import N = TileSnoops

  /** The tile, and beside it what the specification makes of it and the record of what it does. */
  datatype Twin = Twin(t: Tile, p: C.Paced, tx: CpuTx, jobs: seq<S.Event>)

  function TrackedOf(x: Twin): S.Tracked {
    S.Tracked(x.p.l.chip, x.tx, x.jobs)
  }

  ghost predicate TwinOk(start: seq<Cell>, x: Twin, pins: L.Pins) {
    && AcksOk(x.t, x.p.l, pins) && S.InOrder(start, TrackedOf(x)) && UpClock(x.t, x.p.stalled, pins)
    && (!C.OnItsWay(x.p.l) ==> x.p.owing == 0)
  }

  /** The directory acknowledges only what it owes, and no new request brings both machines to the same cell. */
  predicate Allowed(x: Twin, i: TileIn)
    requires PortedOk(x.p.l.chip.mem)
  {
    Disciplined(x.t, x.p.l, i) && S.Apart(Next(x.p.l.chip, TileEnv(x.t, i)))
  }

  /** The edge: the hardware's, the specification's, and the record's. */
  ghost predicate Edge(x: Twin, i: TileIn, x': Twin, pins: L.Pins) {
    && pins.Ok() && StackOk(x.t.chip.mem) && PortedOk(x.p.l.chip.mem) && InputOk(x.p.l, Seen(x.t, x.p.l, i))
    && x'.t == TileNext(x.t, i, pins)
    && x'.p == C.PacedNext(x.p, Seen(x.t, x.p.l, i))
    && TrackedOf(x') == S.TrackNext(TrackedOf(x), TileEnv(x.t, i))
  }

  /** From every good state there is an edge for every allowed input. */
  lemma EdgeExists(start: seq<Cell>, x: Twin, i: TileIn, pins: L.Pins) returns (x': Twin)
    requires TwinOk(start, x, pins) && Allowed(x, i)
    ensures Edge(x, i, x', pins)
  {
    AcksStep(x.t, x.p.l, i, pins);
    var tracked := S.TrackNext(TrackedOf(x), TileEnv(x.t, i));
    x' := Twin(TileNext(x.t, i, pins), C.PacedNext(x.p, Seen(x.t, x.p.l, i)), tracked.tx, tracked.log);
  }

  lemma AcksOkKept(start: seq<Cell>, x: Twin, i: TileIn, x': Twin, pins: L.Pins)
    requires TwinOk(start, x, pins) && Allowed(x, i) && Edge(x, i, x', pins)
    ensures AcksOk(x'.t, x'.p.l, pins) && ReplyEchoes(x.p.l.chip.cpu, TileEnv(x.t, i))
    ensures Wired(x.p.l, TileEnv(x.t, i)) == TileEnv(x.t, i)
    ensures !C.OnItsWay(x'.p.l) ==> x'.p.owing == 0
  {
    AcksStep(x.t, x.p.l, i, pins);
  }

  lemma OrderKept(start: seq<Cell>, x: Twin, i: TileIn, x': Twin, pins: L.Pins)
    requires S.InOrder(start, TrackedOf(x)) && Allowed(x, i) && Edge(x, i, x', pins)
    requires ReplyEchoes(x.p.l.chip.cpu, TileEnv(x.t, i))
    ensures S.InOrder(start, TrackedOf(x'))
  {
    S.InOrderStep(start, TrackedOf(x), TileEnv(x.t, i));
  }

  lemma ClockKept(x: Twin, i: TileIn, x': Twin, pins: L.Pins)
    requires pins.Ok() && UpClock(x.t, x.p.stalled, pins) && Edge(x, i, x', pins) && x.t.chip.arb == x.p.l.chip.arb
    ensures UpClock(x'.t, x'.p.stalled, pins)
  {
    UpClockStep(x.t, x.p.stalled, i, pins);
  }

  /** One edge keeps everything: the memory, the pipes, the discipline, the order of transactions, the link's clock. */
  lemma TwinStep(start: seq<Cell>, x: Twin, i: TileIn, x': Twin, pins: L.Pins)
    requires TwinOk(start, x, pins) && Allowed(x, i) && Edge(x, i, x', pins)
    ensures TwinOk(start, x', pins)
  {
    AcksOkKept(start, x, i, x', pins);
    OrderKept(start, x, i, x', pins);
    ClockKept(x, i, x', pins);
  }

  // ---- Runs ----

  /** A run: every state good, every edge allowed. Good states stay good, by RunKeeps. */
  ghost predicate Evolves(start: seq<Cell>, xs: seq<Twin>, ins: seq<TileIn>, pins: L.Pins) {
    && |xs| == |ins| + 1 && pins.Ok()
    && (forall k | 0 <= k <= |ins| :: GoodAt(start, xs, k, pins))
    && (forall k | 0 <= k < |ins| :: StepAt(xs, ins, k, pins))
  }

  ghost predicate GoodAt(start: seq<Cell>, xs: seq<Twin>, k: nat, pins: L.Pins)
    requires k < |xs|
  {
    TwinOk(start, xs[k], pins)
  }

  ghost predicate StepAt(xs: seq<Twin>, ins: seq<TileIn>, k: nat, pins: L.Pins)
    requires |xs| == |ins| + 1 && k < |ins| && pins.Ok()
  {
    PortedOk(xs[k].p.l.chip.mem) && Allowed(xs[k], ins[k]) && Edge(xs[k], ins[k], xs[k + 1], pins)
  }

  lemma GoodNext(start: seq<Cell>, xs: seq<Twin>, ins: seq<TileIn>, pins: L.Pins, k: nat)
    requires |xs| == |ins| + 1 && pins.Ok() && k < |ins| && TwinOk(start, xs[k], pins) && StepAt(xs, ins, k, pins)
    ensures TwinOk(start, xs[k + 1], pins)
  {
    TwinStep(start, xs[k], ins[k], xs[k + 1], pins);
  }

  /** What holds at the start of a run and is kept by each edge holds all along. */
  lemma {:induction false} AlongRun<X>(xs: seq<X>, good: X -> bool, k: nat)
    requires k < |xs| && good(xs[0]) && forall j | 0 <= j < |xs| - 1 && good(xs[j]) :: good(xs[j + 1])
    ensures forall j | 0 <= j <= k :: good(xs[j])
  {
    if k > 0 {
      AlongRun(xs, good, k - 1);
      var j := k - 1;
      assert good(xs[j]) && good(xs[j + 1]);
    }
  }

  lemma GoodThroughout(start: seq<Cell>, xs: seq<Twin>, ins: seq<TileIn>, pins: L.Pins)
    requires |xs| == |ins| + 1 && pins.Ok() && TwinOk(start, xs[0], pins)
    requires forall k | 0 <= k < |ins| :: StepAt(xs, ins, k, pins)
    ensures forall k | 0 <= k <= |ins| :: TwinOk(start, xs[k], pins)
  {
    forall j | 0 <= j < |ins| && TwinOk(start, xs[j], pins) ensures TwinOk(start, xs[j + 1], pins) {
      assert StepAt(xs, ins, j, pins);
      GoodNext(start, xs, ins, pins, j);
    }
    AlongRun(xs, x => TwinOk(start, x, pins), |ins|);
  }

  /** Everything proved of one edge holds all along: from a good state, allowed edges make a run. */
  lemma RunKeeps(start: seq<Cell>, xs: seq<Twin>, ins: seq<TileIn>, pins: L.Pins)
    requires |xs| == |ins| + 1 && pins.Ok() && TwinOk(start, xs[0], pins)
    requires forall k | 0 <= k < |ins| :: StepAt(xs, ins, k, pins)
    ensures Evolves(start, xs, ins, pins)
  {
    GoodThroughout(start, xs, ins, pins);
  }

  // ---- How long a reply takes ----

  /** The directory starts to send an owed reply within `latency` edges. */
  predicate AnswersInTime(x: Twin, i: TileIn, latency: nat) {
    x.p.l.owed != [] ==> x.p.owing < latency && (x.p.owing + 1 == latency ==> Answers(x.t, i).Some?)
  }

  /** What the reply takes in all: the directory's latency, the link, and the edge on which it shows. */
  function ReplyBound(latency: nat, pins: L.Pins): nat
    requires pins.Ok()
  {
    latency + DownBound(pins) + 1
  }

  /** A reply on the link comes out of the receiver in what is left of the bound. */
  predicate DownClock(x: Twin, latency: nat, pins: L.Pins)
    requires pins.Ok()
  {
    x.p.l.transit != [] ==> x.p.owing + DownWait(x.t.feed, P.ToBus) <= latency + DownBound(pins)
  }

  /** An owed reply comes out of the receiver within `reply` edges. */
  predicate ReplyInTime(x: Twin, i: TileIn, reply: nat) {
    x.p.owing < reply && (C.OnItsWay(x.p.l) && x.p.owing + 1 == reply ==> Seen(x.t, x.p.l, i).arrives.Some?)
  }

  lemma DownClockStep(start: seq<Cell>, x: Twin, i: TileIn, x': Twin, latency: nat, pins: L.Pins)
    requires TwinOk(start, x, pins) && Allowed(x, i) && Edge(x, i, x', pins) && TwinOk(start, x', pins)
    requires DownClock(x, latency, pins) && AnswersInTime(x, i, latency)
    ensures DownClock(x', latency, pins)
  {
    DownWaitBound(x'.t.feed, pins, P.ToBus);
    if x.p.l.transit != [] && Presented(x.t.feed.face, P.ToBus) == [] {
      DownWaitFalls(x.t.feed, FaceInputs(x.t, i), i.offer, pins, P.ToBus);
    }
  }

  lemma ArrivesInTime(start: seq<Cell>, x: Twin, i: TileIn, latency: nat, pins: L.Pins)
    requires TwinOk(start, x, pins) && Allowed(x, i)
    requires DownClock(x, latency, pins) && AnswersInTime(x, i, latency)
    ensures ReplyInTime(x, i, ReplyBound(latency, pins))
  {
    if x.p.l.transit != [] && Presented(x.t.feed.face, P.ToBus) == [] {
      DownWaitFalls(x.t.feed, FaceInputs(x.t, i), i.offer, pins, P.ToBus);
    }
  }

  predicate Prompt(xs: seq<Twin>, ins: seq<TileIn>, latency: nat)
    requires |xs| >= |ins|
  {
    forall k | 0 <= k < |ins| :: AnswersInTime(xs[k], ins[k], latency)
  }

  lemma DownClockNext(start: seq<Cell>, xs: seq<Twin>, ins: seq<TileIn>, latency: nat, pins: L.Pins, k: nat)
    requires Evolves(start, xs, ins, pins) && k < |ins|
    requires AnswersInTime(xs[k], ins[k], latency) && DownClock(xs[k], latency, pins)
    ensures DownClock(xs[k + 1], latency, pins) && ReplyInTime(xs[k], ins[k], ReplyBound(latency, pins))
  {
    assert GoodAt(start, xs, k, pins);
    assert GoodAt(start, xs, k + 1, pins);
    assert StepAt(xs, ins, k, pins);
    DownClockStep(start, xs[k], ins[k], xs[k + 1], latency, pins);
    ArrivesInTime(start, xs[k], ins[k], latency, pins);
  }

  lemma NothingOwed(start: seq<Cell>, x: Twin, latency: nat, pins: L.Pins)
    requires TwinOk(start, x, pins) && !C.Busy(x.p)
    ensures DownClock(x, latency, pins)
  {}

  /** A directory that answers in time makes replies that come in time. */
  lemma RepliesInTime(start: seq<Cell>, xs: seq<Twin>, ins: seq<TileIn>, latency: nat, pins: L.Pins)
    requires Evolves(start, xs, ins, pins) && Prompt(xs, ins, latency) && !C.Busy(xs[0].p)
    ensures forall k | 0 <= k < |ins| :: ReplyInTime(xs[k], ins[k], ReplyBound(latency, pins))
  {
    assert GoodAt(start, xs, 0, pins);
    NothingOwed(start, xs[0], latency, pins);
    forall k | 0 <= k < |ins| && DownClock(xs[k], latency, pins) ensures DownClock(xs[k + 1], latency, pins) {
      DownClockNext(start, xs, ins, latency, pins, k);
    }
    AlongRun(xs, x => DownClock(x, latency, pins), |ins|);
    forall k | 0 <= k < |ins| ensures ReplyInTime(xs[k], ins[k], ReplyBound(latency, pins)) {
      DownClockNext(start, xs, ins, latency, pins, k);
    }
  }

  function PacedOf(xs: seq<Twin>): (ps: seq<C.Paced>)
    ensures |ps| == |xs| && forall k | 0 <= k < |xs| :: ps[k] == xs[k].p
  {
    if xs == [] then [] else [xs[0].p] + PacedOf(xs[1..])
  }

  function SeenAll(xs: seq<Twin>, ins: seq<TileIn>): (seen: seq<Input>)
    requires |xs| >= |ins|
    ensures |seen| == |ins| && forall k | 0 <= k < |ins| :: seen[k] == Seen(xs[k].t, xs[k].p.l, ins[k])
  {
    if ins == [] then [] else [Seen(xs[0].t, xs[0].p.l, ins[0])] + SeenAll(xs[1..], ins[1..])
  }

  lemma PacedEdge(start: seq<Cell>, xs: seq<Twin>, ins: seq<TileIn>, pins: L.Pins, k: nat)
    requires Evolves(start, xs, ins, pins) && k < |ins|
    ensures C.StepAt(PacedOf(xs), SeenAll(xs, ins), k)
  {
    assert StepAt(xs, ins, k, pins);
  }

  lemma FairEdge(start: seq<Cell>, xs: seq<Twin>, ins: seq<TileIn>, pins: L.Pins, reply: nat, k: nat)
    requires Evolves(start, xs, ins, pins) && k < |ins| && ReplyInTime(xs[k], ins[k], reply)
    ensures C.FairAt(PacedOf(xs), SeenAll(xs, ins), k, LinkBound(pins), reply)
  {
    assert GoodAt(start, xs, k, pins);
    N.LinkIsFair(xs[k].t, Timed(xs[k].p.l.chip, xs[k].p.stalled), ins[k], pins);
  }

  /** A run of the tile is a fair run of the specification, if replies come in time. */
  lemma RunIsFair(start: seq<Cell>, xs: seq<Twin>, ins: seq<TileIn>, pins: L.Pins, reply: nat)
    requires Evolves(start, xs, ins, pins) && forall k | 0 <= k < |ins| :: ReplyInTime(xs[k], ins[k], reply)
    ensures C.Evolves(PacedOf(xs), SeenAll(xs, ins))
    ensures forall k | 0 <= k < |ins| :: C.FairAt(PacedOf(xs), SeenAll(xs, ins), k, LinkBound(pins), reply)
  {
    assert GoodAt(start, xs, 0, pins);
    forall k | 0 <= k < |ins| ensures C.StepAt(PacedOf(xs), SeenAll(xs, ins), k) {
      PacedEdge(start, xs, ins, pins, k);
    }
    C.RunKeeps(PacedOf(xs), SeenAll(xs, ins));
    forall k | 0 <= k < |ins| ensures C.FairAt(PacedOf(xs), SeenAll(xs, ins), k, LinkBound(pins), reply) {
      assert ReplyInTime(xs[k], ins[k], reply);
      FairEdge(start, xs, ins, pins, reply, k);
    }
  }

  /** What the CPU machine sees of the hardware's memory. */
  function CpuOutput(t: Tile): MemOut {
    RawOut(t.chip.mem, P0, CpuPort(t.chip.cpu), SnpPort(t.chip.snp))
  }

  lemma SameOutput(start: seq<Cell>, x: Twin, pins: L.Pins)
    requires TwinOk(start, x, pins)
    ensures var m, n := CpuOutput(x.t), CpuMem(x.p.l.chip);
            m.ready == n.ready && m.valid == n.valid && (m.valid ==> m.cell == n.cell)
  {
    OutputsAgree(x.t.chip.mem, x.p.l.chip.mem, CpuPort(x.t.chip.cpu), SnpPort(x.t.chip.snp), P0);
  }

  /** The transaction of an access finished at this edge: what was sent, what came, what is returned. */
  function EventOf(x: Twin, job: Job): S.Event {
    S.JobDone(job, x.tx.word, x.tx.sent, if S.IsRead(job) then CpuOutput(x.t).cell.data else ZERO)
  }

  /**
   * The hardware raises mem_ready for an access, or flush_ready for a flush; its messages and the word on its
   * read port are the cell handler's, on the cell as the transactions before it left it; the memory holds
   * the handler's result.
   */
  ghost predicate Finished(start: seq<Cell>, x: Twin, x': Twin, job: Job) {
    && |start| == LINES && StackOk(x'.t.chip.mem)
    && var cells, ev := S.After(start, x.jobs), EventOf(x, job);
       && S.Legal(cells, ev)
       && (if job.Access? then MemDone(x.t.chip.cpu, CpuOutput(x.t)) else FlushDone(x.t.chip.cpu, CpuOutput(x.t)))
       && |x'.jobs| > |x.jobs| && x'.jobs[|x.jobs|] == ev
       && CellAt(x'.t.chip.mem.mem, S.Index(ev)) == S.EffectOn(cells[S.Index(ev)], ev)
  }

  /** Under way, the job the machine is on is the one on record. */
  lemma JobOnRecord(start: seq<Cell>, x: Twin)
    requires S.InOrder(start, TrackedOf(x)) && C.Busy(x.p)
    ensures x.tx.job == C.JobAt(x.p)
  {
    var c := x.p.l.chip;
    var slot := IndexOf(c.cpu.addr);
    assert S.CellInv(c, x.tx, slot, S.After(start, x.jobs)[slot], c.mem.cells[slot]);
  }

  /** The last edge of a job, on the specification. */
  lemma LastRecord(start: seq<Cell>, x: Twin, e: Env, x': Twin)
    requires S.InOrder(start, TrackedOf(x)) && TrackedOf(x') == S.TrackNext(TrackedOf(x), e)
    requires C.Busy(x.p) && C.Done(x.p) && x.tx.job == C.JobAt(x.p)
    ensures var c, cells := x.p.l.chip, S.After(start, x.jobs);
            var rdata := if c.cpu.st == ReadResp then CpuMem(c).cell.data else ZERO;
            var ev := S.JobDone(x.tx.job, x.tx.word, x.tx.sent, rdata);
            && (if x.tx.job.Access? then MemDone(c.cpu, CpuMem(c)) else FlushDone(c.cpu, CpuMem(c)))
            && (c.cpu.st == ReadResp <==> S.IsRead(x.tx.job))
            && S.Legal(cells, ev) && |x'.jobs| > |x.jobs| && x'.jobs[|x.jobs|] == ev
            && PortedOk(x'.p.l.chip.mem) && x'.p.l.chip.mem.txn == None
            && x'.p.l.chip.mem.cells[S.Index(ev)] == S.EffectOn(cells[S.Index(ev)], ev)
  {
    var c, slot := x.p.l.chip, IndexOf(x.p.l.chip.cpu.addr);
    var cell := S.After(start, x.jobs)[slot];
    assert S.CellInv(c, x.tx, slot, cell, c.mem.cells[slot]);
    S.CellsStep(c, e);
    CpuInvDone(c.cpu, x.tx, cell, c.mem.cells[slot], e, CpuMem(c), CpuSent(c, e));
    S.JobLegal(start, TrackedOf(x), e);
    assert S.CellAfter(c, slot) == x'.p.l.chip.mem.cells[slot];
  }

  lemma ReadsBack(s: Stack, a: Ported, slot: nat)
    requires Simulates(s, a) && a.txn == None && slot < LINES
    ensures CellAt(s.mem, slot) == a.cells[slot]
  {}

  /** The last edge of a job, on the hardware. */
  lemma LastEdge(start: seq<Cell>, x: Twin, i: TileIn, x': Twin, pins: L.Pins)
    requires TwinOk(start, x, pins) && TwinOk(start, x', pins) && Edge(x, i, x', pins)
    requires C.Busy(x.p) && C.Done(x.p) && x.tx.job == C.JobAt(x.p)
    ensures Finished(start, x, x', x.tx.job)
  {
    SameOutput(start, x, pins);
    LastRecord(start, x, TileEnv(x.t, i), x');
    ReadsBack(x'.t.chip.mem, x'.p.l.chip.mem, IndexOf(x.tx.job.addr));
  }

  /** The longest a job can take. */
  function ServiceBound(latency: nat, pins: L.Pins): nat
    requires pins.Ok()
  {
    C.JobBound(LinkBound(pins), ReplyBound(latency, pins))
  }

  /** What the processor asks of the controller this cycle. */
  function Asked(i: TileIn): Job {
    if i.memValid then Access(i.memAddr, i.memWdata, i.memWstrb) else Flush(i.flushAddr)
  }

  lemma DoneInTime(start: seq<Cell>, xs: seq<Twin>, ins: seq<TileIn>, pins: L.Pins, latency: nat) returns (k: nat)
    requires Evolves(start, xs, ins, pins) && Prompt(xs, ins, latency)
    requires |ins| >= ServiceBound(latency, pins) + 1 && !C.Busy(xs[0].p) && (ins[0].memValid || ins[0].flushValid)
    ensures 1 <= k <= ServiceBound(latency, pins) && C.Busy(xs[k].p) && C.JobAt(xs[k].p) == Asked(ins[0])
    ensures PortedOk(xs[k].p.l.chip.mem) && C.Done(xs[k].p)
  {
    RepliesInTime(start, xs, ins, latency, pins);
    RunIsFair(start, xs, ins, pins, ReplyBound(latency, pins));
    k := C.JobServed(PacedOf(xs), SeenAll(xs, ins), LinkBound(pins), ReplyBound(latency, pins));
  }

  lemma FinishedAtLast(start: seq<Cell>, xs: seq<Twin>, ins: seq<TileIn>, pins: L.Pins, k: nat)
    requires Evolves(start, xs, ins, pins) && k < |ins| && C.Busy(xs[k].p)
    requires PortedOk(xs[k].p.l.chip.mem) && C.Done(xs[k].p)
    ensures Finished(start, xs[k], xs[k + 1], C.JobAt(xs[k].p))
  {
    assert GoodAt(start, xs, k, pins);
    assert GoodAt(start, xs, k + 1, pins);
    assert StepAt(xs, ins, k, pins);
    JobOnRecord(start, xs[k]);
    LastEdge(start, xs[k], ins[k], xs[k + 1], pins);
  }

  /**
   * A job offered to an idle controller, an access or a flush, is finished by the hardware within
   * 4K + 2D + 49 edges, under any stream of snoops for other cells. K is one more than the chunks of the
   * longest message up; D is the time the directory takes to start its reply, and two more than the chunks
   * of the longest message down.
   */
  lemma JobServed(start: seq<Cell>, xs: seq<Twin>, ins: seq<TileIn>, pins: L.Pins, latency: nat) returns (k: nat)
    requires Evolves(start, xs, ins, pins) && Prompt(xs, ins, latency)
    requires |ins| >= ServiceBound(latency, pins) + 1 && !C.Busy(xs[0].p) && (ins[0].memValid || ins[0].flushValid)
    ensures 1 <= k <= ServiceBound(latency, pins)
    ensures ins[0].memValid ==>
              Finished(start, xs[k], xs[k + 1], Access(ins[0].memAddr, ins[0].memWdata, ins[0].memWstrb))
    ensures !ins[0].memValid ==> Finished(start, xs[k], xs[k + 1], Flush(ins[0].flushAddr))
  {
    k := DoneInTime(start, xs, ins, pins, latency);
    FinishedAtLast(start, xs, ins, pins, k);
  }

  /** A flush finished leaves the SRAM without the address it was asked to flush. */
  lemma FlushLeavesNothing(start: seq<Cell>, x: Twin, x': Twin, a: nat)
    requires Finished(start, x, x', Flush(a))
    ensures StackOk(x'.t.chip.mem) && !HoldsCell(CellAt(x'.t.chip.mem.mem, IndexOf(a)), a)
  {}

  /**
   * A flush offered to an idle controller finishes in time: the SRAM no longer holds the address asked for,
   * and the eviction sent is the emulated one.
   */
  lemma FlushServed(start: seq<Cell>, xs: seq<Twin>, ins: seq<TileIn>, pins: L.Pins, latency: nat) returns (k: nat)
    requires Evolves(start, xs, ins, pins) && Prompt(xs, ins, latency) && |ins| >= ServiceBound(latency, pins) + 1
    requires !C.Busy(xs[0].p) && !ins[0].memValid && ins[0].flushValid
    ensures 1 <= k <= ServiceBound(latency, pins)
    ensures var a := ins[0].flushAddr;
            && Finished(start, xs[k], xs[k + 1], Flush(a))
            && StackOk(xs[k + 1].t.chip.mem) && !HoldsCell(CellAt(xs[k + 1].t.chip.mem.mem, IndexOf(a)), a)
            && var cell := S.After(start, xs[k].jobs)[IndexOf(a)];
               xs[k].tx.sent
               == if HoldsCell(cell, a)
                  then [Out(Bus(if cell.row.state == Shared then EvictClean else EvictDirty), a % WORDS, cell.data)]
                  else []
  {
    k := JobServed(start, xs, ins, pins, latency);
    FlushLeavesNothing(start, xs[k], xs[k + 1], ins[0].flushAddr);
    AddrSplit(ins[0].flushAddr);
  }

  /**
   * The chip is the emulator. From any good state, an access offered to an idle controller is finished in
   * time, and its messages, the word it returns and the line it leaves are those of the emulated step, in
   * any emulated system whose line and whose directory's reply are the ones the access met.
   */
  lemma ChipIsEmulator(start: seq<Cell>, xs: seq<Twin>, ins: seq<TileIn>, pins: L.Pins, latency: nat) returns (k: nat)
    requires Evolves(start, xs, ins, pins) && Prompt(xs, ins, latency)
    requires |ins| >= ServiceBound(latency, pins) + 1 && !C.Busy(xs[0].p) && ins[0].memValid
    ensures 1 <= k <= ServiceBound(latency, pins)
    ensures var job := Access(ins[0].memAddr, ins[0].memWdata, ins[0].memWstrb);
            && Finished(start, xs[k], xs[k + 1], job)
            && var ev, cells := EventOf(xs[k], job), S.After(start, xs[k].jobs);
               forall s: D.System, core: nat | H.Comparable(s, core, job, cells[S.Index(ev)], ev.word) ::
                 H.SameAsStep(s, core, ev, cells[S.Index(ev)])
  {
    k := JobServed(start, xs, ins, pins, latency);
    var job := Access(ins[0].memAddr, ins[0].memWdata, ins[0].memWstrb);
    var ev, cells := EventOf(xs[k], job), S.After(start, xs[k].jobs);
    forall s: D.System, core: nat | H.Comparable(s, core, job, cells[S.Index(ev)], ev.word)
      ensures H.SameAsStep(s, core, ev, cells[S.Index(ev)])
    {
      H.EventIsStep(cells, ev, s, core);
    }
  }
}
