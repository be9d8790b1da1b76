/**
 * Power-up: a counter and a synchroniser hold the processor in reset while the cache memory clears
 * itself. The gate counts edges and looks at nothing else, so what it guarantees depends on the
 * snoop port staying quiet meanwhile.
 */
module InitGate {
  import opened Words
  import opened Msi
  import opened CacheLine
  import opened Sram
  import opened PortedArray
  import opened StackRuns
  import opened Outbound
  import opened Controller
  import T = Transactions
  import S = Serialised
  import A = AckPipe
  import L = LinkRtl

  const MEM_INIT_CYCLES := CLEAR_EDGES

  datatype Gate = Gate(count: nat, meta: bool, sync: bool)

  const GATE_RESET := Gate(0, false, false)

  predicate MemoryReady(g: Gate) {
    g.count == MEM_INIT_CYCLES
  }

  /** The processor's reset is released. */
  predicate Released(g: Gate) {
    MemoryReady(g) && g.sync
  }

  function GateNext(g: Gate, bootDone: bool): Gate {
    Gate(if MemoryReady(g) then g.count else g.count + 1, bootDone, g.meta)
  }

  class ResetGate {
    var memInitCount: nat
    var bootDoneMeta: bool
    var bootDoneSync: bool

    function State(): Gate
      reads this
    {
      Gate(memInitCount, bootDoneMeta, bootDoneSync)
    }

    constructor ()
      ensures State() == GATE_RESET
    {
      memInitCount, bootDoneMeta, bootDoneSync := 0, false, false;
    }

    method Posedge(bootDone: bool)
      modifies this
      ensures State() == GateNext(old(State()), bootDone)
    {
      bootDoneSync := bootDoneMeta;
      bootDoneMeta := bootDone;
      if memInitCount != MEM_INIT_CYCLES {
        memInitCount := memInitCount + 1;
      }
    }
  }

  // ---- Controller and gate together ----

  datatype Board = Board(chip: Chip<Stack>, gate: Gate)

  datatype Input = Input(env: Env, bootDone: bool)

  /** In reset the processor asks for nothing. */
  function Gated(g: Gate, e: Env): Env {
    e.(memValid := e.memValid && Released(g), flushValid := e.flushValid && Released(g))
  }

  /** The gate holds back what the processor asks, and nothing else; open, it holds back nothing. */
  lemma HoldsBack(g: Gate, e: Env)
    ensures var seen := Gated(g, e);
            && (seen.memValid <==> e.memValid && g.count == 513 && g.sync)
            && (seen.flushValid <==> e.flushValid && g.count == 513 && g.sync)
            && seen == e.(memValid := seen.memValid, flushValid := seen.flushValid)
  {}

  function BoardNext(b: Board, i: Input): Board
    requires StackOk(b.chip.mem)
  {
    Board(RawNext(b.chip, Gated(b.gate, i.env)), GateNext(b.gate, i.bootDone))
  }

  /** A run: each board follows from the one before. Well-formed memories stay so, by RawStackOk. */
  predicate Evolves(trace: seq<Board>, inputs: seq<Input>) {
    |trace| == |inputs| + 1 && forall k | 0 <= k < |inputs| :: StepAt(trace, inputs, k)
  }

  predicate StepAt(trace: seq<Board>, inputs: seq<Input>, k: nat)
    requires |trace| == |inputs| + 1 && k < |inputs|
  {
    StackOk(trace[k].chip.mem) && trace[k + 1] == BoardNext(trace[k], inputs[k])
  }

  ghost predicate AtReset(b: Board) {
    b.chip.cpu == CPU_RESET && b.chip.snp == SNP_RESET && b.chip.arb == ARB_RESET && OutOfReset(b.chip.mem)
    && b.gate == GATE_RESET
  }

  // ---- When the gate opens ----

  lemma {:induction false} CountAt(trace: seq<Board>, inputs: seq<Input>, k: nat)
    requires Evolves(trace, inputs) && trace[0].gate == GATE_RESET && k <= |inputs|
    ensures trace[k].gate.count == if k < MEM_INIT_CYCLES then k else MEM_INIT_CYCLES
    ensures trace[k].gate.meta <==> k >= 1 && inputs[k - 1].bootDone
    ensures trace[k].gate.sync <==> k >= 2 && inputs[k - 2].bootDone
  {
    if k > 0 {
      CountAt(trace, inputs, k - 1);
      assert StepAt(trace, inputs, k - 1);
    }
  }

  /** The processor is out of reset exactly from edge 513 on, while boot-done was high two edges before. */
  lemma ReleasedWhen(trace: seq<Board>, inputs: seq<Input>, k: nat)
    requires Evolves(trace, inputs) && trace[0].gate == GATE_RESET && k <= |inputs|
    ensures MemoryReady(trace[k].gate) <==> k >= 513
    ensures Released(trace[k].gate) <==> k >= 513 && inputs[k - 2].bootDone
  {
    CountAt(trace, inputs, k);
  }

  // ---- What the memory is when it opens ----

  /** The array with every line INVALID and nothing under way that would make one valid. */
  ghost predicate AllInvalid(c: Chip<Ported>) {
    && Coordinated(c) && c.cpu == CPU_RESET
    && (forall i | 0 <= i < LINES :: c.mem.cells[i].row.state == Invalid)
    && (c.snp.st == SnpEvent ==> c.snp.lineState == Invalid)
    && (c.snp.st in {SnpUpdateReq, SnpUpdateResp} ==> c.snp.nextState == Invalid)
  }

  ghost predicate Clean(r: Chip<Stack>) {
    exists c: Chip<Ported> :: Abstracts(r, c) && AllInvalid(c)
  }

  /** In a clean chip every row of the tag SRAM itself is INVALID. */
  lemma CleanRows(r: Chip<Stack>)
    requires Clean(r)
    ensures StackOk(r.mem) && forall i | 0 <= i < LINES :: r.mem.mem.tag.rows[i].state == Invalid
  {
    var c: Chip<Ported> :| Abstracts(r, c) && AllInvalid(c);
    forall i | 0 <= i < LINES ensures r.mem.mem.tag.rows[i].state == Invalid {
      if c.mem.txn == None || c.mem.txn.value.req.index != i {
        assert CellAt(r.mem.mem, i) == c.mem.cells[i];
      }
    }
  }

  lemma InvalidStep(c: Chip<Ported>, e: Env)
    requires AllInvalid(c) && !e.memValid && !e.flushValid
    ensures AllInvalid(Next(c, e))
  {
    CoordinatedStep(c, e);
    S.CellsStep(c, e);
    forall i | 0 <= i < LINES ensures Next(c, e).mem.cells[i].row.state == Invalid {
      assert Next(c, e).mem.cells[i] == S.CellAfter(c, i);
    }
  }

  /**
   * n edges after reset. Quiet so far, the memory is clearing and then clean. Once a snoop has come
   * in before edge 512, its machine asks, and goes on asking, a memory that will never answer.
   */
  ghost predicate Booting(b: Board, n: nat, snooped: bool) {
    && StackOk(b.chip.mem)
    && if snooped then
         && b.chip.snp.st == SnpFetchReq && b.chip.cpu == CPU_RESET && b.chip.arb == ARB_RESET
         && ((n < CLEAR_EDGES && Clearing(b.chip.mem, n)) || Wedged(b.chip.mem))
       else if n < CLEAR_EDGES then
         b.chip.snp == SNP_RESET && b.chip.cpu == CPU_RESET && b.chip.arb == ARB_RESET && Clearing(b.chip.mem, n)
       else Clean(b.chip)
  }

  lemma BootingStep(b: Board, n: nat, snooped: bool, i: Input)
    requires Booting(b, n, snooped) && !Released(b.gate)
    ensures Booting(BoardNext(b, i), n + 1, snooped || (n < CLEAR_EDGES - 1 && i.env.snoopValid))
  {
    var e := Gated(b.gate, i.env);
    RawStackOk(b.chip, e);
    if snooped {
      SnoopedStep(b.chip, n, e);
    } else if n < CLEAR_EDGES {
      QuietStep(b.chip, n, e);
    } else {
      CleanStep(b.chip, e);
    }
  }

  /** The inputs of the stack in a chip whose processor is in reset. */
  function PortsOf(r: Chip<Stack>): Ports {
    var p0, p1 := CpuPort(r.cpu), SnpPort(r.snp);
    Ports(p0, p1,
          CpuTakes(r.cpu) && RawOut(r.mem, P0, p0, p1).valid, SnpTakes(r.snp) && RawOut(r.mem, P1, p0, p1).valid)
  }

  lemma SnoopedStep(r: Chip<Stack>, n: nat, e: Env)
    requires StackOk(r.mem) && r.snp.st == SnpFetchReq && r.cpu == CPU_RESET && r.arb == ARB_RESET
    requires (n < CLEAR_EDGES && Clearing(r.mem, n)) || Wedged(r.mem)
    requires !e.memValid && !e.flushValid
    ensures var r' := RawNext(r, e);
            && StackOk(r'.mem) && r'.snp == r.snp && r'.cpu == CPU_RESET && r'.arb == ARB_RESET
            && ((n + 1 < CLEAR_EDGES && Clearing(r'.mem, n + 1)) || Wedged(r'.mem))
  {
    var i := PortsOf(r);
    assert Asking(i);
    if Wedged(r.mem) {
      WedgedStep(r.mem, i);
    } else {
      ClearStep(r.mem, n, i);
      assert !MemReady(r.mem.mem);
    }
  }

  lemma QuietStep(r: Chip<Stack>, n: nat, e: Env)
    requires StackOk(r.mem) && r.snp == SNP_RESET && r.cpu == CPU_RESET && r.arb == ARB_RESET
    requires n < CLEAR_EDGES && Clearing(r.mem, n) && !e.memValid && !e.flushValid
    ensures var r' := RawNext(r, e);
            && StackOk(r'.mem) && r'.cpu == CPU_RESET && r'.arb == ARB_RESET && Clearing(r'.mem, n + 1)
            && (if e.snoopValid then r'.snp.st == SnpFetchReq else r'.snp == SNP_RESET)
            && (n + 1 == CLEAR_EDGES ==> Clean(r'))
  {
    var i := PortsOf(r);
    assert !Asking(i);
    ClearStep(r.mem, n, i);
    if n + 1 == CLEAR_EDGES {
      ClearedIsClean(RawNext(r, e));
    }
  }

  lemma ClearedIsClean(r: Chip<Stack>)
    requires StackOk(r.mem) && r.snp.st in {SnpIdle, SnpFetchReq} && r.cpu == CPU_RESET && r.arb == ARB_RESET
    requires Clearing(r.mem, CLEAR_EDGES)
    ensures Clean(r) && Abstracts(r, Chip(r.cpu, r.snp, r.arb, ZeroArray()))
  {
    var c := Chip(r.cpu, r.snp, r.arb, ZeroArray());
    forall i | 0 <= i < LINES ensures CellAt(r.mem.mem, i) == ZeroArray().cells[i] {
      assert r.mem.mem.data.bytes[4 * i] == 0 && r.mem.mem.data.bytes[4 * i + 1] == 0;
      assert r.mem.mem.data.bytes[4 * i + 2] == 0 && r.mem.mem.data.bytes[4 * i + 3] == 0;
    }
    assert Abstracts(r, c) && AllInvalid(c);
  }

  lemma CleanStep(r: Chip<Stack>, e: Env)
    requires Clean(r) && !e.memValid && !e.flushValid && StackOk(r.mem)
    ensures Clean(RawNext(r, e))
  {
    var c: Chip<Ported> :| Abstracts(r, c) && AllInvalid(c);
    RawStep(r, c, e);
    InvalidStep(c, e);
    assert Abstracts(RawNext(r, e), Next(c, e)) && AllInvalid(Next(c, e));
  }

  /** No snoop at the first 512 edges, as far as the first k. */
  predicate QuietUntil(inputs: seq<Input>, k: nat)
    requires k <= |inputs|
  {
    forall j | 0 <= j < k && j < CLEAR_EDGES - 1 :: !inputs[j].env.snoopValid
  }

  /** The processor is in reset at every edge before the k-th. */
  predicate HeldUntil(trace: seq<Board>, k: nat)
    requires k <= |trace|
  {
    forall j | 0 <= j < k :: !Released(trace[j].gate)
  }

  lemma {:induction false} BootingAt(trace: seq<Board>, inputs: seq<Input>, k: nat)
    requires Evolves(trace, inputs) && AtReset(trace[0]) && k <= |inputs| && HeldUntil(trace, k)
    ensures Booting(trace[k], k, !QuietUntil(inputs, k))
  {
    if k == 0 {
      assert Clearing(trace[0].chip.mem, 0);
    } else {
      BootingAt(trace, inputs, k - 1);
      assert StepAt(trace, inputs, k - 1);
      BootingStep(trace[k - 1], k - 1, !QuietUntil(inputs, k - 1), inputs[k - 1]);
    }
  }

  /**
   * When memory_ready rises, and for as long as the processor is still held, every line is INVALID
   * and the memory serves as the array of the specification, exactly when no snoop came in at the
   * first 512 edges; a snoop at any one of them leaves the memory wedged, and the gate opens all the
   * same.
   */
  lemma LeavesResetClean(trace: seq<Board>, inputs: seq<Input>, k: nat)
    requires Evolves(trace, inputs) && AtReset(trace[0]) && MEM_INIT_CYCLES <= k <= |inputs| && HeldUntil(trace, k)
    ensures MemoryReady(trace[k].gate)
    ensures Clean(trace[k].chip) <==> QuietUntil(inputs, k)
    ensures !QuietUntil(inputs, k) ==> Wedged(trace[k].chip.mem)
  {
    BootingAt(trace, inputs, k);
    ReleasedWhen(trace, inputs, k);
  }

  /** The chip as the specification sees it when memory_ready rises: everything zero, perhaps a snoop just taken. */
  function Booted(r: Chip<Stack>): Chip<Ported> {
    Chip(r.cpu, r.snp, r.arb, ZeroArray())
  }

  /**
   * The edge on which memory_ready rises: out of reset, with no snoop at the first 512 edges, every
   * data byte is zero, every tag row cleared, both machines and the arbiter as reset left them (or a
   * snoop just taken), and the chip is the specification's over the all-zero array. With one, it is not.
   */
  lemma BootedClear(trace: seq<Board>, inputs: seq<Input>)
    requires Evolves(trace, inputs) && AtReset(trace[0]) && |inputs| >= MEM_INIT_CYCLES
    ensures var r := trace[MEM_INIT_CYCLES].chip;
            && (Abstracts(r, Booted(r)) <==> QuietUntil(inputs, MEM_INIT_CYCLES))
            && (QuietUntil(inputs, MEM_INIT_CYCLES) ==>
                  && r.cpu == CPU_RESET && r.arb == ARB_RESET && r.snp.st in {SnpIdle, SnpFetchReq}
                  && StackOk(r.mem)
                  && (forall j | 0 <= j < BYTES :: r.mem.mem.data.bytes[j] == 0)
                  && (forall i | 0 <= i < LINES :: r.mem.mem.tag.rows[i] == CLEARED))
  {
    var last := MEM_INIT_CYCLES - 1;
    forall j | 0 <= j < MEM_INIT_CYCLES ensures !Released(trace[j].gate) {
      ReleasedWhen(trace, inputs, j);
    }
    BootingAt(trace, inputs, last);
    BootingAt(trace, inputs, MEM_INIT_CYCLES);
    if QuietUntil(inputs, MEM_INIT_CYCLES) {
      assert StepAt(trace, inputs, last);
      QuietStep(trace[last].chip, last, Gated(trace[last].gate, inputs[last].env));
      ClearedIsClean(trace[MEM_INIT_CYCLES].chip);
    }
  }

  /** Out of reset and quiet, the chip is where the run theorems start: serialisation and acknowledgement. */
  lemma BootEstablishes(trace: seq<Board>, inputs: seq<Input>, tx: T.CpuTx, ack: A.BusAck)
    requires Evolves(trace, inputs) && AtReset(trace[0]) && |inputs| >= MEM_INIT_CYCLES
    requires QuietUntil(inputs, MEM_INIT_CYCLES)
    ensures var r := trace[MEM_INIT_CYCLES].chip;
            && Abstracts(r, Booted(r))
            && S.InOrder(ZeroArray().cells, S.Tracked(Booted(r), tx, []))
            && A.AckInv(A.Linked(Booted(r), L.Pipe(false, ack), [], [], []))
  {
    BootedClear(trace, inputs);
    BootedInOrder(trace[MEM_INIT_CYCLES].chip, tx, ack);
  }

  lemma BootedInOrder(r: Chip<Stack>, tx: T.CpuTx, ack: A.BusAck)
    requires r.snp.st in {SnpIdle, SnpFetchReq} && r.cpu == CPU_RESET && r.arb == ARB_RESET
    ensures S.InOrder(ZeroArray().cells, S.Tracked(Booted(r), tx, []))
    ensures A.AckInv(A.Linked(Booted(r), L.Pipe(false, ack), [], [], []))
  {}
}
