/**
 * Every accepted processor job finishes within a fixed number of cycles of the link's and the
 * directory's own latencies, whatever stream of snoops comes in meanwhile.
 */
module CpuProgress {
  import opened Words
  import opened Sram
  import opened PortedArray
  import opened Outbound
  import opened Controller
  import opened Transactions
  import opened AckPipe
  import opened SnoopProgress

  /** `owing` counts the edges a reply has been outstanding without reaching the pipe. */
  datatype Paced = Paced(l: Linked, stalled: nat, owing: nat)

  predicate OnItsWay(l: Linked) {
    l.owed != [] || l.transit != []
  }

  /** The link takes a request within `link` edges; an owed reply is in the pipe within `reply` edges. */
  predicate Fair(p: Paced, i: Input, link: nat, reply: nat) {
    && LinkFair(Timed(p.l.chip, p.stalled), i.env, link)
    && p.owing < reply && (OnItsWay(p.l) && p.owing + 1 == reply ==> i.arrives.Some?)
  }

  function PacedNext(p: Paced, i: Input): Paced
    requires PortedOk(p.l.chip.mem) && InputOk(p.l, i)
  {
    Paced(LinkedNext(p.l, i),
          if p.l.chip.arb.valid && !i.env.cacheReady then p.stalled + 1 else 0,
          if OnItsWay(p.l) && i.arrives == None then p.owing + 1 else 0)
  }

  // ---- The ranking ----

  /** Edges until the CPU port is free to be granted. */
  function CpuPortWait(c: Chip<Ported>): nat
    requires PortedOk(c.mem)
  {
    match c.mem.txn
    case Some(t) => ACCESS - t.age
    case None => if c.mem.last == P0 && SnpPort(c.snp).valid then 1 + ACCESS else 0
  }

  /** Edges until the CPU machine's request crosses the link. */
  function CpuLinkWait(p: Paced, link: nat): int {
    match p.l.chip.arb.state
    case ArbIdle =>
      if SnpOut(p.l.chip.snp).Some? && p.l.chip.arb.prefer == P1 then 2 * link + 2 else link + 1
    case Granted(q) =>
      if q == P0 then link - p.stalled else 2 * link + 1 - p.stalled
  }

  /** Edges until the awaited reply is consumed. */
  function ReplyWait(p: Paced, reply: nat): int {
    if p.l.pipe.valid then 1 else reply - p.owing + 1
  }

  /** The most a memory access, a request over the link, or the wait for a reply can take. */
  const MEMORY := 2 * (1 + ACCESS)

  function Crossing(link: nat): nat { 2 * link + 2 }

  function Answering(reply: nat): nat { reply + 1 }

  /** Edges until the CPU machine leaves its present phase: asked or answered by the memory, the link, the directory. */
  function Wait(p: Paced, link: nat, reply: nat): int
    requires PortedOk(p.l.chip.mem)
  {
    var c := p.l.chip;
    if CpuAsks(c.cpu) then CpuPortWait(c) + 1 + ACCESS
    else if CpuTakes(c.cpu) then ACCESS - (if c.mem.txn.Some? then c.mem.txn.value.age else 0)
    else if CpuOut(c.cpu).Some? then CpuLinkWait(p, link)
    else if Waiting(c.cpu) then ReplyWait(p, reply)
    else 1
  }

  /** The longest such wait. */
  function Longest(c: Cpu, link: nat, reply: nat): nat {
    if CpuAsks(c) || CpuTakes(c) then MEMORY
    else if CpuOut(c).Some? then Crossing(link)
    else if Waiting(c) then Answering(reply)
    else 1
  }

  /** What is still to come after the present phase, at its longest. */
  function Rest(st: CpuState, link: nat, reply: nat): nat {
    var crossed := Crossing(link) + Answering(reply);
    match st
    case FetchLineReq | FetchLineResp => 2 * crossed + 2 * MEMORY + 1
    case TagMiss => Answering(reply) + crossed + 2 * MEMORY + 1
    case EvictDirtyAck => crossed + 2 * MEMORY + 1
    case TagMatch => crossed + 2 * MEMORY
    case ReadMiss | WriteMiss => Answering(reply) + 2 * MEMORY
    case ReadMissAck | WriteMissAck => 2 * MEMORY
    case ReadMissUpdateReq | ReadMissUpdateResp => MEMORY
    case FlushLookupReq | FlushLookupResp => crossed + MEMORY
    case FlushEvict => Answering(reply) + MEMORY
    case FlushEvictAck => MEMORY
    case _ => 0
  }

  /** The ranking: the phase of the job, then the wait within it. */
  function CpuRank(p: Paced, link: nat, reply: nat): int
    requires PortedOk(p.l.chip.mem)
  {
    Wait(p, link, reply) + Rest(p.l.chip.cpu.st, link, reply)
  }

  /** Two requests over the link, two replies and three memory accesses at most. */
  function JobBound(link: nat, reply: nat): nat {
    4 * link + 2 * reply + 49
  }

  predicate Busy(p: Paced) {
    p.l.chip.cpu.st != CpuIdle
  }

  predicate Done(p: Paced)
    requires PortedOk(p.l.chip.mem)
  {
    CpuDone(p.l.chip.cpu, CpuMem(p.l.chip))
  }

  lemma WaitBound(p: Paced, link: nat, reply: nat)
    requires AckInv(p.l) && p.stalled < link && p.owing < reply
    ensures 0 < Wait(p, link, reply) <= Longest(p.l.chip.cpu, link, reply)
  {}

  lemma CpuRankBound(p: Paced, link: nat, reply: nat)
    requires AckInv(p.l) && p.stalled < link && p.owing < reply
    ensures 0 < CpuRank(p, link, reply) <= JobBound(link, reply)
  {
    WaitBound(p, link, reply);
  }

  /** The machine stays where it is, or has just been accepted by the memory. */
  predicate SamePhase(c: Cpu, c': Cpu) {
    c' == c || (CpuAsks(c) && CpuTakes(c'))
  }

  /** A new phase leaves no more to come than the old one did. */
  predicate Falls(c: Cpu, c': Cpu, link: nat, reply: nat) {
    && c'.st != CpuIdle
    && (if SamePhase(c, c') then Rest(c'.st, link, reply) == Rest(c.st, link, reply)
        else Longest(c', link, reply) + Rest(c'.st, link, reply) <= Rest(c.st, link, reply))
  }

  lemma PhaseFalls(c: Cpu, e: Env, m: MemOut, sent: bool, link: nat, reply: nat)
    requires c.st != CpuIdle && !CpuDone(c, m)
    ensures Falls(c, CpuNext(c, e, m, sent), link, reply)
  {
    if CpuAsks(c) || CpuTakes(c) {
      AccessPhaseFalls(c, e, m, sent, link, reply);
    } else {
      BusPhaseFalls(c, e, m, sent, link, reply);
    }
  }

  lemma AccessPhaseFalls(c: Cpu, e: Env, m: MemOut, sent: bool, link: nat, reply: nat)
    requires (CpuAsks(c) || CpuTakes(c)) && !CpuDone(c, m)
    ensures Falls(c, CpuNext(c, e, m, sent), link, reply)
  {}

  lemma BusPhaseFalls(c: Cpu, e: Env, m: MemOut, sent: bool, link: nat, reply: nat)
    requires c.st != CpuIdle && !CpuAsks(c) && !CpuTakes(c)
    ensures Falls(c, CpuNext(c, e, m, sent), link, reply)
  {}

  /** Within a phase the wait shortens. */
  lemma WaitFalls(p: Paced, i: Input, link: nat, reply: nat)
    requires AckInv(p.l) && InputOk(p.l, i) && Fair(p, i, link, reply) && Busy(p)
    requires PortedOk(PacedNext(p, i).l.chip.mem) && SamePhase(p.l.chip.cpu, PacedNext(p, i).l.chip.cpu)
    ensures Wait(PacedNext(p, i), link, reply) < Wait(p, link, reply)
  {
    var c := p.l.chip.cpu;
    if CpuTakes(c) {
      AnswerWaitFalls(p, i, link, reply);
    } else if CpuAsks(c) {
      PortWaitFalls(p, i, link, reply);
    } else {
      BusWaitFalls(p, i, link, reply);
    }
  }

  lemma BusWaitFalls(p: Paced, i: Input, link: nat, reply: nat)
    requires AckInv(p.l) && InputOk(p.l, i) && Fair(p, i, link, reply) && Busy(p)
    requires PortedOk(PacedNext(p, i).l.chip.mem) && PacedNext(p, i).l.chip.cpu == p.l.chip.cpu
    requires !CpuTakes(p.l.chip.cpu) && !CpuAsks(p.l.chip.cpu)
    ensures Wait(PacedNext(p, i), link, reply) < Wait(p, link, reply)
  {
    if CpuOut(p.l.chip.cpu).Some? {
      LinkWaitFalls(p, i, link, reply);
    } else if Waiting(p.l.chip.cpu) {
      ReplyWaitFalls(p, i, link, reply);
    } else {
      assert false;
    }
  }

  lemma LinkWaitFalls(p: Paced, i: Input, link: nat, reply: nat)
    requires PortedOk(p.l.chip.mem) && ArbOk(p.l.chip.arb, CpuOut(p.l.chip.cpu), SnpOut(p.l.chip.snp))
    requires InputOk(p.l, i) && Fair(p, i, link, reply) && CpuOut(p.l.chip.cpu).Some?
    requires PortedOk(PacedNext(p, i).l.chip.mem) && PacedNext(p, i).l.chip.cpu == p.l.chip.cpu
    ensures CpuLinkWait(PacedNext(p, i), link) < CpuLinkWait(p, link)
  {
    var c, wired := p.l.chip, Wired(p.l, i.env);
    SnpHandshakes(c.snp, wired, SnpMem(c), SnpSent(c, wired));
  }

  lemma ReplyWaitFalls(p: Paced, i: Input, link: nat, reply: nat)
    requires PortedOk(p.l.chip.mem) && Issues(p.l.chip.cpu)
    requires Outstanding(Awaited(p.l.chip.cpu), p.l.pipe, p.l.owed, p.l.transit)
    requires InputOk(p.l, i) && Fair(p, i, link, reply) && Waiting(p.l.chip.cpu)
    requires PacedNext(p, i).l.chip.cpu == p.l.chip.cpu
    ensures ReplyWait(PacedNext(p, i), reply) < ReplyWait(p, reply)
  {
    var c, wired := p.l.chip, Wired(p.l, i.env);
    WaitStep(c.cpu, wired, CpuMem(c), CpuSent(c, wired));
  }

  lemma AnswerWaitFalls(p: Paced, i: Input, link: nat, reply: nat)
    requires Coordinated(p.l.chip) && InputOk(p.l, i) && CpuTakes(p.l.chip.cpu)
    requires PortedOk(PacedNext(p, i).l.chip.mem) && PacedNext(p, i).l.chip.cpu == p.l.chip.cpu
    ensures Wait(PacedNext(p, i), link, reply) < Wait(p, link, reply)
  {
    var c, wired := p.l.chip, Wired(p.l, i.env);
    CpuTakesNext(c.cpu, wired, CpuMem(c), CpuSent(c, wired));
  }

  lemma PortWaitFalls(p: Paced, i: Input, link: nat, reply: nat)
    requires Coordinated(p.l.chip) && InputOk(p.l, i) && CpuAsks(p.l.chip.cpu)
    requires PortedOk(PacedNext(p, i).l.chip.mem) && SamePhase(p.l.chip.cpu, PacedNext(p, i).l.chip.cpu)
    ensures Wait(PacedNext(p, i), link, reply) < Wait(p, link, reply)
  {
    CpuPortFalls(p.l.chip, Wired(p.l, i.env));
  }

  /** Asking, the machine is accepted, or its port is nearer to being free. */
  lemma CpuPortFalls(c: Chip<Ported>, e: Env)
    requires Coordinated(c) && CpuAsks(c.cpu)
    ensures var c' := Next(c, e);
            && PortedOk(c'.mem)
            && (CpuMem(c).ready ==>
                  c'.mem.txn.Some? && c'.mem.txn.value.age == 0 && CpuTakes(c'.cpu) && !CpuAsks(c'.cpu))
            && (!CpuMem(c).ready ==> c'.cpu == c.cpu && CpuPortWait(c') < CpuPortWait(c))
  {
    CpuHandshakes(c.cpu, e, CpuMem(c), CpuSent(c, e));
    SnpHandshakes(c.snp, e, SnpMem(c), SnpSent(c, e));
    MemoryInStep(c, e);
  }

  /** Every edge with a fair link and a fair directory brings the job nearer its end. */
  lemma CpuRankFalls(p: Paced, i: Input, link: nat, reply: nat)
    requires AckInv(p.l) && InputOk(p.l, i) && Fair(p, i, link, reply) && Busy(p) && !Done(p)
    requires AckInv(PacedNext(p, i).l)
    ensures Busy(PacedNext(p, i)) && CpuRank(PacedNext(p, i), link, reply) < CpuRank(p, link, reply)
  {
    var c, wired, p' := p.l.chip, Wired(p.l, i.env), PacedNext(p, i);
    PhaseFalls(c.cpu, wired, CpuMem(c), CpuSent(c, wired), link, reply);
    if SamePhase(c.cpu, p'.l.chip.cpu) {
      WaitFalls(p, i, link, reply);
    } else {
      PacedInTime(p, i, link, reply);
      WaitBound(p', link, reply);
      WaitBound(p, link, reply);
    }
  }

  /** Fairness keeps the two clocks below their limits. */
  lemma PacedInTime(p: Paced, i: Input, link: nat, reply: nat)
    requires AckInv(p.l) && InputOk(p.l, i) && Fair(p, i, link, reply)
    ensures PacedNext(p, i).stalled < link && PacedNext(p, i).owing < reply
  {}

  // ---- Whole runs ----

  /** A run: every state in the discipline, each following from the one before. The discipline is kept, by RunKeeps. */
  ghost predicate Evolves(ps: seq<Paced>, ins: seq<Input>) {
    && |ps| == |ins| + 1
    && (forall k | 0 <= k <= |ins| :: InvAt(ps, k))
    && (forall k | 0 <= k < |ins| :: StepAt(ps, ins, k))
  }

  ghost predicate InvAt(ps: seq<Paced>, k: nat)
    requires k < |ps|
  {
    AckInv(ps[k].l)
  }

  ghost predicate StepAt(ps: seq<Paced>, ins: seq<Input>, k: nat)
    requires |ps| == |ins| + 1 && k < |ins|
  {
    PortedOk(ps[k].l.chip.mem) && InputOk(ps[k].l, ins[k]) && ps[k + 1] == PacedNext(ps[k], ins[k])
  }

  lemma {:induction false} InvKept(ps: seq<Paced>, ins: seq<Input>, k: nat)
    requires |ps| == |ins| + 1 && k <= |ins| && InvAt(ps, 0) && forall j | 0 <= j < |ins| :: StepAt(ps, ins, j)
    ensures InvAt(ps, k)
  {
    if k > 0 {
      InvKept(ps, ins, k - 1);
      assert StepAt(ps, ins, k - 1);
      AckStep(ps[k - 1].l, ins[k - 1]);
    }
  }

  lemma RunKeeps(ps: seq<Paced>, ins: seq<Input>)
    requires |ps| == |ins| + 1 && InvAt(ps, 0) && forall j | 0 <= j < |ins| :: StepAt(ps, ins, j)
    ensures Evolves(ps, ins)
  {
    forall k | 0 <= k <= |ins| ensures InvAt(ps, k) {
      InvKept(ps, ins, k);
    }
  }

  predicate FairAt(ps: seq<Paced>, ins: seq<Input>, k: nat, link: nat, reply: nat)
    requires k < |ins| && k < |ps|
  {
    Fair(ps[k], ins[k], link, reply)
  }

  function JobAt(p: Paced): Job {
    JobOf(p.l.chip.cpu)
  }

  /** What an idle machine takes on: the processor's access, or else the flush, at its own address. */
  lemma TakesJob(c: Cpu, e: Env, m: MemOut, sent: bool)
    requires c.st == CpuIdle
    ensures CpuNext(c, e, m, sent).st != CpuIdle <==> e.memValid || e.flushValid
    ensures e.memValid ==> JobOf(CpuNext(c, e, m, sent)) == Access(e.memAddr, e.memWdata, e.memWstrb)
    ensures !e.memValid && e.flushValid ==> JobOf(CpuNext(c, e, m, sent)) == Flush(e.flushAddr)
  {}

  lemma JobStays(c: Cpu, e: Env, m: MemOut, sent: bool)
    requires c.st != CpuIdle && !CpuDone(c, m)
    ensures JobOf(CpuNext(c, e, m, sent)) == JobOf(c)
  {}

  /** A machine at its last edge says so to the one who asked. */
  lemma DoneToAsker(c: Cpu, m: MemOut)
    requires CpuDone(c, m)
    ensures MemDone(c, m) <==> JobOf(c).Access?
    ensures FlushDone(c, m) <==> JobOf(c).Flush?
  {}

  /** One edge of a run, as far as the job under way is concerned. */
  lemma JobEdge(ps: seq<Paced>, ins: seq<Input>, k: nat, link: nat, reply: nat)
    requires Evolves(ps, ins) && k < |ins| && FairAt(ps, ins, k, link, reply) && Busy(ps[k])
    ensures AckInv(ps[k].l) && 0 < CpuRank(ps[k], link, reply) <= JobBound(link, reply)
    ensures AckInv(ps[k + 1].l)
    ensures !Done(ps[k]) ==>
              && JobAt(ps[k + 1]) == JobAt(ps[k])
              && Busy(ps[k + 1]) && CpuRank(ps[k + 1], link, reply) < CpuRank(ps[k], link, reply)
              && 0 < CpuRank(ps[k + 1], link, reply)
  {
    assert InvAt(ps, k) && InvAt(ps, k + 1) && StepAt(ps, ins, k);
    CpuRankBound(ps[k], link, reply);
    if !Done(ps[k]) {
      PacedInTime(ps[k], ins[k], link, reply);
      CpuRankFalls(ps[k], ins[k], link, reply);
      CpuRankBound(ps[k + 1], link, reply);
      var c, e := ps[k].l.chip, Wired(ps[k].l, ins[k].env);
      JobStays(c.cpu, e, CpuMem(c), CpuSent(c, e));
    }
  }

  /** Under way from one edge to another, the same job all along, and not done before. */
  ghost predicate UnderWay(ps: seq<Paced>, from: nat, k: nat)
    requires k < |ps|
  {
    && (forall j | from <= j <= k :: Busy(ps[j]) && PortedOk(ps[j].l.chip.mem) && JobAt(ps[j]) == JobAt(ps[k]))
    && (forall j | from <= j < k :: !Done(ps[j]))
  }

  lemma OneMoreEdge(ps: seq<Paced>, from: nat, k: nat)
    requires from <= k < |ps| - 1 && UnderWay(ps, from, k) && !Done(ps[k])
    requires Busy(ps[k + 1]) && PortedOk(ps[k + 1].l.chip.mem) && JobAt(ps[k + 1]) == JobAt(ps[k])
    ensures UnderWay(ps, from, k + 1)
  {}

  lemma DoneInRank(ps: seq<Paced>, ins: seq<Input>, link: nat, reply: nat, from: nat) returns (k: nat)
    requires Evolves(ps, ins) && forall j | 0 <= j < |ins| :: FairAt(ps, ins, j, link, reply)
    requires from < |ins| && Busy(ps[from])
    requires PortedOk(ps[from].l.chip.mem) && |ins| - from >= CpuRank(ps[from], link, reply)
    ensures from <= k < |ins| && k < from + CpuRank(ps[from], link, reply)
    ensures UnderWay(ps, from, k) && Done(ps[k])
  {
    k := from;
    assert FairAt(ps, ins, k, link, reply);
    JobEdge(ps, ins, k, link, reply);
    while !Done(ps[k])
      invariant from <= k < |ins| && UnderWay(ps, from, k)
      invariant 0 < CpuRank(ps[k], link, reply)
      invariant k + CpuRank(ps[k], link, reply) <= from + CpuRank(ps[from], link, reply)
      decreases |ins| - k
    {
      assert FairAt(ps, ins, k, link, reply);
      JobEdge(ps, ins, k, link, reply);
      OneMoreEdge(ps, from, k);
      k := k + 1;
    }
  }

  /**
   * A job under way is done within 4K + 2D + 49 edges, if the link takes each request within K and each
   * owed reply is in the pipe within D, under any stream of snoops.
   */
  lemma JobDone(ps: seq<Paced>, ins: seq<Input>, link: nat, reply: nat, from: nat) returns (k: nat)
    requires Evolves(ps, ins) && forall j | 0 <= j < |ins| :: FairAt(ps, ins, j, link, reply)
    requires from < |ins| && Busy(ps[from]) && |ins| - from >= JobBound(link, reply)
    ensures from <= k < from + JobBound(link, reply) && k < |ins| && UnderWay(ps, from, k) && Done(ps[k])
  {
    assert FairAt(ps, ins, from, link, reply);
    JobEdge(ps, ins, from, link, reply);
    k := DoneInRank(ps, ins, link, reply, from);
  }

  /** A job offered to an idle machine is taken at once, and that job is done within one edge more. */
  lemma JobServed(ps: seq<Paced>, ins: seq<Input>, link: nat, reply: nat) returns (k: nat)
    requires Evolves(ps, ins) && forall j | 0 <= j < |ins| :: FairAt(ps, ins, j, link, reply)
    requires |ins| >= JobBound(link, reply) + 1 && !Busy(ps[0])
    requires ins[0].env.memValid || ins[0].env.flushValid
    ensures 1 <= k <= JobBound(link, reply) && UnderWay(ps, 1, k) && Done(ps[k])
    ensures var e, c := ins[0].env, ps[k].l.chip;
            if e.memValid then JobAt(ps[k]) == Access(e.memAddr, e.memWdata, e.memWstrb) && MemDone(c.cpu, CpuMem(c))
            else JobAt(ps[k]) == Flush(e.flushAddr) && FlushDone(c.cpu, CpuMem(c))
  {
    assert InvAt(ps, 0) && StepAt(ps, ins, 0);
    var c, e := ps[0].l.chip, Wired(ps[0].l, ins[0].env);
    TakesJob(c.cpu, e, CpuMem(c), CpuSent(c, e));
    k := JobDone(ps, ins, link, reply, 1);
    DoneToAsker(ps[k].l.chip.cpu, CpuMem(ps[k].l.chip));
  }
}
