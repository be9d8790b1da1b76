/**
 * The cache controller: a CPU machine and a snoop machine over the shared memory stack and the
 * shared outbound arbiter. Next functions are one rising clock edge with reset released and scan off.
 */
module Controller {
  import opened Words
  import opened Msi
  import opened CacheLine
  import opened Sram
  import opened PortedArray
  import opened Outbound

  // ---- Inputs from outside ----

  /** One cycle's inputs: processor, flush request, bus acknowledgement, snoop request, link ready. */
  datatype Env = Env(memValid: bool, memAddr: nat, memWdata: Word, memWstrb: Strobe,
                     flushValid: bool, flushAddr: nat,
                     busValid: bool, busCmd: Cmd, busData: Word,
                     snoopValid: bool, snoopAddr: nat, snoopEvent: SnoopEvent,
                     cacheReady: bool)

  /** What a machine sees of its memory port: ready, valid, and the answer. */
  datatype MemOut = MemOut(ready: bool, valid: bool, cell: Cell)

  // ---- CPU machine ----

  datatype CpuState =
    | CpuIdle | FetchLineReq | FetchLineResp | TagMiss | TagMatch
    | ReadMiss | ReadMissAck | ReadMissUpdateReq | ReadMissUpdateResp | ReadReq | ReadResp
    | WriteMiss | WriteMissAck | WriteReq | WriteResp
    | FlushLookupReq | FlushLookupResp | FlushEvict | FlushInvalidateReq | FlushInvalidateResp
    | EvictDirtyAck | FlushEvictAck

  datatype Cpu = Cpu(st: CpuState, addr: nat, wdata: Word, wstrb: Strobe, nextState: State, issueCmd: Option<Cmd>,
                     line: Cell, tagMatch: bool)

  const CPU_RESET := Cpu(CpuIdle, 0, ZERO, NONE, Invalid, None, Cell(CLEARED, ZERO), true)

  /** The line's state as the processor table sees it: a mismatched tag counts as INVALID. */
  function SeenState(c: Cpu): State {
    if c.tagMatch then c.line.row.state else Invalid
  }

  function CpuTransition(c: Cpu): Transition {
    OnProcessorEvent(SeenState(c), c.wstrb != NONE)
  }

  function ReadOf(addr: nat): PortReq {
    PortReq(true, IndexOf(addr), ZERO, NONE, CLEARED)
  }

  /** The CPU machine's memory port. */
  function CpuPort(c: Cpu): PortReq {
    match c.st
    case FetchLineReq | FetchLineResp | ReadReq | ReadResp | FlushLookupReq | FlushLookupResp => ReadOf(c.addr)
    case ReadMissUpdateReq | ReadMissUpdateResp =>
      PortReq(true, IndexOf(c.addr), c.line.data, ALL, Row(TagOf(c.addr), c.nextState))
    case WriteReq | WriteResp =>
      PortReq(true, IndexOf(c.addr), Merge(c.line.data, c.wdata, c.wstrb), c.wstrb, Row(TagOf(c.addr), c.nextState))
    case FlushInvalidateReq | FlushInvalidateResp =>
      PortReq(true, IndexOf(c.addr), c.line.data, ALL, Row(c.line.row.tag, Invalid))
    case _ => NO_REQUEST
  }

  /** The response states take the answer as soon as it is valid. */
  predicate CpuTakes(c: Cpu) {
    c.st in {FetchLineResp, ReadMissUpdateResp, ReadResp, WriteResp, FlushLookupResp, FlushInvalidateResp}
  }

  function EvictCmd(state: State): OutCmd {
    match state
    case Shared => Bus(EvictClean)
    case Modified => Bus(EvictDirty)
    case Invalid => Null
  }

  /** The CPU machine's outbound request. */
  function CpuOut(c: Cpu): Option<Out> {
    match c.st
    case TagMiss | FlushEvict =>
      Some(Out(EvictCmd(c.line.row.state), AddrOf(c.line.row.tag, IndexOf(c.addr)), c.line.data))
    case ReadMiss | WriteMiss =>
      Some(Out(if c.issueCmd.Some? then Bus(c.issueCmd.value) else Null, c.addr, c.line.data))
    case _ => None
  }

  /** The bus acknowledgement is consumed this cycle. */
  predicate BusTaken(c: Cpu, e: Env) {
    || (c.st in {EvictDirtyAck, FlushEvictAck} && e.busValid && e.busCmd == EvictDirty)
    || (c.st in {ReadMissAck, WriteMissAck} && e.busValid)
  }

  predicate MemDone(c: Cpu, m: MemOut) {
    c.st in {ReadResp, WriteResp} && m.valid
  }

  predicate FlushDone(c: Cpu, m: MemOut) {
    || (c.st == FlushInvalidateResp && m.valid)
    || (c.st == FlushLookupResp && m.valid && !HoldsCell(m.cell, c.addr))
  }

  /** A cell as a cache line: its slot's index is not stored. */
  function LineOf(cell: Cell, addr: nat): Line {
    Line(cell.row.tag, IndexOf(addr), cell.row.state, cell.data)
  }

  predicate HoldsCell(cell: Cell, addr: nat) {
    Holds(LineOf(cell, addr), addr)
  }

  predicate MismatchCell(cell: Cell, addr: nat) {
    Mismatch(LineOf(cell, addr), addr)
  }

  function CpuNext(c: Cpu, e: Env, m: MemOut, sent: bool): Cpu {
    match c.st
    case CpuIdle =>
      if e.memValid then c.(st := FetchLineReq, addr := e.memAddr, wdata := e.memWdata, wstrb := e.memWstrb)
      else if e.flushValid then c.(st := FlushLookupReq, addr := e.flushAddr)
      else c
    case FetchLineReq => if m.ready then c.(st := FetchLineResp) else c
    case FetchLineResp =>
      if !m.valid then c
      else if MismatchCell(m.cell, c.addr) then c.(st := TagMiss, line := m.cell, tagMatch := false)
      else c.(st := TagMatch, line := m.cell)
    case TagMiss =>
      if !sent then c
      else if c.line.row.state == Modified then c.(st := EvictDirtyAck)
      else c.(st := TagMatch)
    case EvictDirtyAck => if BusTaken(c, e) then c.(st := TagMatch) else c
    case TagMatch =>
      var tr := CpuTransition(c);
      c.(nextState := tr.next, issueCmd := tr.cmd,
         st := if c.wstrb == NONE then (if tr.cmd.Some? then ReadMiss else ReadReq)
               else (if tr.cmd.Some? then WriteMiss else WriteReq))
    case ReadMiss => if sent then c.(st := ReadMissAck) else c
    case ReadMissAck =>
      if e.busValid then c.(st := ReadMissUpdateReq, line := c.line.(data := AckedWord(c, e))) else c
    case ReadMissUpdateReq => if m.ready then c.(st := ReadMissUpdateResp) else c
    case ReadMissUpdateResp => if m.valid then c.(st := ReadReq) else c
    case ReadReq => if m.ready then c.(st := ReadResp) else c
    case ReadResp => if m.valid then c.(st := CpuIdle, tagMatch := true) else c
    case WriteMiss => if sent then c.(st := WriteMissAck) else c
    case WriteMissAck =>
      if e.busValid then c.(st := WriteReq, line := c.line.(data := AckedWord(c, e))) else c
    case WriteReq => if m.ready then c.(st := WriteResp) else c
    case WriteResp => if m.valid then c.(st := CpuIdle, tagMatch := true) else c
    case FlushLookupReq => if m.ready then c.(st := FlushLookupResp) else c
    case FlushLookupResp =>
      if !m.valid then c
      else c.(line := m.cell, st := if HoldsCell(m.cell, c.addr) then FlushEvict else CpuIdle)
    case FlushEvict =>
      if !sent then c
      else if c.line.row.state == Modified then c.(st := FlushEvictAck)
      else c.(st := FlushInvalidateReq)
    case FlushEvictAck => if BusTaken(c, e) then c.(st := FlushInvalidateReq) else c
    case FlushInvalidateReq => if m.ready then c.(st := FlushInvalidateResp) else c
    case FlushInvalidateResp => if m.valid then c.(st := CpuIdle) else c
  }

  /** Only read and read-exclusive acknowledgements carry a word; an upgrade keeps the word held. */
  function AckedWord(c: Cpu, e: Env): Word {
    if e.busCmd == BusRd || e.busCmd == BusRdx then e.busData else c.line.data
  }

  // ---- Snoop machine ----

  datatype SnpState = SnpIdle | SnpFetchReq | SnpFetchResp | SnpEvent | SnpUpdateReq | SnpUpdateResp | SnpDone

  datatype Snp = Snp(st: SnpState, addr: nat, event: SnoopEvent, nextState: State, tag: nat, flush: bool,
                     flushData: Word, lineState: State)

  const SNP_RESET := Snp(SnpIdle, 0, SnoopRd, Invalid, 0, false, ZERO, Invalid)

  function SnpPort(s: Snp): PortReq {
    match s.st
    case SnpFetchReq | SnpFetchResp => ReadOf(s.addr)
    case SnpUpdateReq | SnpUpdateResp =>
      PortReq(true, IndexOf(s.addr), s.flushData, ALL, Row(s.tag, s.nextState))
    case _ => NO_REQUEST
  }

  predicate SnpTakes(s: Snp) {
    s.st in {SnpFetchResp, SnpUpdateResp}
  }

  /** The acknowledgement, with the flushed word if there is one. */
  function SnpOut(s: Snp): Option<Out> {
    if s.st == SnpDone then Some(Out(Ack(s.event), s.addr, if s.flush then s.flushData else ZERO)) else None
  }

  predicate SnoopTaken(s: Snp, e: Env) {
    s.st == SnpIdle && e.snoopValid
  }

  function SnpNext(s: Snp, e: Env, m: MemOut, sent: bool): Snp {
    match s.st
    case SnpIdle =>
      if e.snoopValid then s.(st := SnpFetchReq, addr := e.snoopAddr, event := e.snoopEvent) else s
    case SnpFetchReq => if m.ready then s.(st := SnpFetchResp) else s
    case SnpFetchResp =>
      if !m.valid then s
      else if m.cell.row.tag != TagOf(s.addr) then s.(st := SnpDone, flush := false)
      else s.(st := SnpEvent, flushData := m.cell.data, tag := m.cell.row.tag, lineState := m.cell.row.state)
    case SnpEvent =>
      var tr := OnSnoopEvent(s.lineState, s.event);
      s.(st := SnpUpdateReq, nextState := tr.next, flush := tr.flush)
    case SnpUpdateReq => if m.ready then s.(st := SnpUpdateResp) else s
    case SnpUpdateResp => if m.valid then s.(st := SnpDone) else s
    case SnpDone => if sent then s.(st := SnpIdle) else s
  }

  // ---- The chip: both machines over a memory M ----

  datatype Chip<M> = Chip(cpu: Cpu, snp: Snp, arb: Arb, mem: M)

  function ChipMasters<M>(c: Chip<M>, e: Env): Masters {
    Masters(CpuOut(c.cpu), SnpOut(c.snp), e.cacheReady)
  }

  predicate CpuSent<M>(c: Chip<M>, e: Env) {
    ReadyTo(c.arb, P0, e.cacheReady)
  }

  predicate SnpSent<M>(c: Chip<M>, e: Env) {
    ReadyTo(c.arb, P1, e.cacheReady)
  }

  /** The memory port outputs of the raw stack. */
  function RawOut(s: Stack, p: Port, p0: PortReq, p1: PortReq): MemOut {
    MemOut(ReadyOut(s, p, p0, p1), ValidOut(s, p), Cell(s.mem.tag.read, s.mem.data.read))
  }

  /** The memory port outputs of the specification array. */
  function ArrayOut(a: Ported, p: Port, p0: PortReq, p1: PortReq): MemOut
    requires PortedOk(a)
  {
    MemOut(Accepts(a, p, p0.valid, p1.valid), Responds(a, p),
           if Responds(a, p) then Answer(a.cells, a.txn.value.req) else Cell(CLEARED, ZERO))
  }

  /** One edge of the controller over the real memory stack. */
  function RawNext(c: Chip<Stack>, e: Env): Chip<Stack>
    requires StackOk(c.mem)
  {
    var p0, p1 := CpuPort(c.cpu), SnpPort(c.snp);
    var m0, m1 := RawOut(c.mem, P0, p0, p1), RawOut(c.mem, P1, p0, p1);
    Chip(CpuNext(c.cpu, e, m0, CpuSent(c, e)),
         SnpNext(c.snp, e, m1, SnpSent(c, e)),
         ArbNext(c.arb, ChipMasters(c, e)),
         StackNext(c.mem, p0, p1, CpuTakes(c.cpu) && m0.valid, SnpTakes(c.snp) && m1.valid))
  }

  function CpuMem(c: Chip<Ported>): MemOut
    requires PortedOk(c.mem)
  {
    ArrayOut(c.mem, P0, CpuPort(c.cpu), SnpPort(c.snp))
  }

  function SnpMem(c: Chip<Ported>): MemOut
    requires PortedOk(c.mem)
  {
    ArrayOut(c.mem, P1, CpuPort(c.cpu), SnpPort(c.snp))
  }

  /** One edge of the controller over the specification array. */
  function Next(c: Chip<Ported>, e: Env): Chip<Ported>
    requires PortedOk(c.mem)
  {
    Chip(CpuNext(c.cpu, e, CpuMem(c), CpuSent(c, e)),
         SnpNext(c.snp, e, SnpMem(c), SnpSent(c, e)),
         ArbNext(c.arb, ChipMasters(c, e)),
         PortedNext(c.mem, CpuPort(c.cpu), SnpPort(c.snp),
                    CpuTakes(c.cpu) && CpuMem(c).valid, SnpTakes(c.snp) && SnpMem(c).valid))
  }

  // ---- What holds of each machine's handshakes ----

  predicate CpuAsks(c: Cpu) {
    c.st in {FetchLineReq, ReadMissUpdateReq, ReadReq, WriteReq, FlushLookupReq, FlushInvalidateReq}
  }

  predicate SnpAsks(s: Snp) {
    s.st in {SnpFetchReq, SnpUpdateReq}
  }

  /** The response states are entered on acceptance and left on the answer. */
  lemma CpuTakesNext(c: Cpu, e: Env, m: MemOut, sent: bool)
    ensures CpuTakes(CpuNext(c, e, m, sent)) <==> (CpuAsks(c) && m.ready) || (CpuTakes(c) && !m.valid)
    ensures CpuTakes(c) && !m.valid ==> CpuNext(c, e, m, sent) == c
  {}

  /** An accepted request stays as it is until it is answered. */
  lemma CpuKeepsRequest(c: Cpu, e: Env, m: MemOut, sent: bool)
    ensures CpuAsks(c) && m.ready ==> CpuPort(CpuNext(c, e, m, sent)) == CpuPort(c)
  {}

  lemma CpuHandshakes(c: Cpu, e: Env, m: MemOut, sent: bool)
    ensures var c' := CpuNext(c, e, m, sent);
            && (CpuPort(c).valid <==> CpuAsks(c) || CpuTakes(c))
            && (CpuTakes(c') <==> (CpuAsks(c) && m.ready) || (CpuTakes(c) && !m.valid))
            && (CpuTakes(c') ==> CpuPort(c') == CpuPort(c))
            && (CpuOut(c).Some? && !sent ==> c' == c)
            && (CpuAsks(c) && !m.ready ==> c' == c)
    ensures CpuPort(c).index < LINES
  {
    CpuTakesNext(c, e, m, sent);
    CpuKeepsRequest(c, e, m, sent);
  }

  lemma SnpHandshakes(s: Snp, e: Env, m: MemOut, sent: bool)
    ensures var s' := SnpNext(s, e, m, sent);
            && (SnpPort(s).valid <==> SnpAsks(s) || SnpTakes(s))
            && (SnpTakes(s') <==> (SnpAsks(s) && m.ready) || (SnpTakes(s) && !m.valid))
            && (SnpTakes(s') ==> SnpPort(s') == SnpPort(s))
            && (SnpOut(s).Some? && !sent ==> s' == s)
            && (SnpAsks(s) && !m.ready ==> s' == s)
    ensures SnpPort(s).index < LINES
  {}

  /**
   * The machines, the memory and the arbiter in step: a transaction is under way on a port exactly
   * while its machine is in one of its memory-response states, which keep driving its request.
   */
  ghost predicate Coordinated(c: Chip<Ported>) {
    && PortedOk(c.mem)
    && (CpuTakes(c.cpu) <==> c.mem.txn.Some? && c.mem.txn.value.port == P0)
    && (SnpTakes(c.snp) <==> c.mem.txn.Some? && c.mem.txn.value.port == P1)
    && Held(c.mem, CpuPort(c.cpu), SnpPort(c.snp))
    && ArbOk(c.arb, CpuOut(c.cpu), SnpOut(c.snp))
  }

  lemma CoordinatedStep(c: Chip<Ported>, e: Env)
    requires Coordinated(c)
    ensures Coordinated(Next(c, e))
  {
    CpuHandshakes(c.cpu, e, CpuMem(c), CpuSent(c, e));
    SnpHandshakes(c.snp, e, SnpMem(c), SnpSent(c, e));
    ArbStep(c.arb, ChipMasters(c, e), CpuOut(Next(c, e).cpu), SnpOut(Next(c, e).snp));
    MemoryInStep(c, e);
  }

  lemma MemoryInStep(c: Chip<Ported>, e: Env)
    requires Coordinated(c)
    ensures var c' := Next(c, e);
            && PortedOk(c'.mem)
            && (CpuTakes(c'.cpu) <==> c'.mem.txn.Some? && c'.mem.txn.value.port == P0)
            && (SnpTakes(c'.snp) <==> c'.mem.txn.Some? && c'.mem.txn.value.port == P1)
            && Held(c'.mem, CpuPort(c'.cpu), SnpPort(c'.snp))
  {
    CpuHandshakes(c.cpu, e, CpuMem(c), CpuSent(c, e));
    SnpHandshakes(c.snp, e, SnpMem(c), SnpSent(c, e));
  }

  // ---- The controller over the real stack simulates the controller over the array ----

  ghost predicate Abstracts(r: Chip<Stack>, c: Chip<Ported>) {
    r.cpu == c.cpu && r.snp == c.snp && r.arb == c.arb && Simulates(r.mem, c.mem)
  }

  lemma RawStep(r: Chip<Stack>, c: Chip<Ported>, e: Env)
    requires Abstracts(r, c) && Coordinated(c)
    ensures Abstracts(RawNext(r, e), Next(c, e))
  {
    var p0, p1 := CpuPort(c.cpu), SnpPort(c.snp);
    CpuHandshakes(c.cpu, e, CpuMem(c), CpuSent(c, e));
    SnpHandshakes(c.snp, e, SnpMem(c), SnpSent(c, e));
    OutputsAgree(r.mem, c.mem, p0, p1, P0);
    OutputsAgree(r.mem, c.mem, p0, p1, P1);
    StackStep(r.mem, c.mem, p0, p1, CpuTakes(c.cpu) && CpuMem(c).valid, SnpTakes(c.snp) && SnpMem(c).valid);
    CellUnused(c.cpu, e, RawOut(r.mem, P0, p0, p1), CpuMem(c), CpuSent(c, e));
    SnpCellUnused(c.snp, e, RawOut(r.mem, P1, p0, p1), SnpMem(c), SnpSent(c, e));
  }

  /** The answer is looked at only when it is valid. */
  lemma CellUnused(c: Cpu, e: Env, m: MemOut, n: MemOut, sent: bool)
    requires m.ready == n.ready && m.valid == n.valid && (m.valid ==> m.cell == n.cell)
    ensures CpuNext(c, e, m, sent) == CpuNext(c, e, n, sent)
  {}

  lemma SnpCellUnused(s: Snp, e: Env, m: MemOut, n: MemOut, sent: bool)
    requires m.ready == n.ready && m.valid == n.valid && (m.valid ==> m.cell == n.cell)
    ensures SnpNext(s, e, m, sent) == SnpNext(s, e, n, sent)
  {}

  // ---- Runs ----

  lemma RawStackOk(r: Chip<Stack>, e: Env)
    requires StackOk(r.mem)
    ensures StackOk(RawNext(r, e).mem)
  {
    var p0, p1 := CpuPort(r.cpu), SnpPort(r.snp);
    var m0, m1 := RawOut(r.mem, P0, p0, p1), RawOut(r.mem, P1, p0, p1);
    CpuHandshakes(r.cpu, e, m0, CpuSent(r, e));
    SnpHandshakes(r.snp, e, m1, SnpSent(r, e));
    StackOkKept(r.mem, p0, p1, CpuTakes(r.cpu) && m0.valid, SnpTakes(r.snp) && m1.valid);
  }

  function RawRun(r: Chip<Stack>, envs: seq<Env>): (final: Chip<Stack>)
    requires StackOk(r.mem)
    ensures StackOk(final.mem)
    decreases |envs|
  {
    if envs == [] then r
    else
      RawStackOk(r, envs[0]);
      RawRun(RawNext(r, envs[0]), envs[1..])
  }

  function Run(c: Chip<Ported>, envs: seq<Env>): (final: Chip<Ported>)
    requires PortedOk(c.mem) && Coordinated(c)
    ensures PortedOk(final.mem) && Coordinated(final)
    decreases |envs|
  {
    if envs == [] then c
    else
      CoordinatedStep(c, envs[0]);
      Run(Next(c, envs[0]), envs[1..])
  }

  /** In every run, edge by edge, the controller over the byte-serial stack is the controller over the atomic array. */
  lemma {:induction false} RawRuns(r: Chip<Stack>, c: Chip<Ported>, envs: seq<Env>)
    requires Abstracts(r, c) && Coordinated(c)
    ensures Abstracts(RawRun(r, envs), Run(c, envs))
    decreases |envs|
  {
    if envs != [] {
      RawStep(r, c, envs[0]);
      CoordinatedStep(c, envs[0]);
      RawRuns(RawNext(r, envs[0]), Next(c, envs[0]), envs[1..]);
    }
  }

  /**
   * In every run from a coordinated chip: the port is locked exactly while both memories are out of
   * IDLE, the tag memory waits in its response whenever the data memory is in its own (so both accept
   * and both retire together), and the lock is held for a port exactly while that port's machine is
   * in one of its memory-response states.
   */
  lemma AlwaysInStep(r: Chip<Stack>, c: Chip<Ported>, envs: seq<Env>)
    requires Abstracts(r, c) && Coordinated(c)
    ensures var f := RawRun(r, envs);
            && (f.mem.busy <==> f.mem.mem.tag.phase != TagIdle)
            && (f.mem.busy <==> f.mem.mem.data.phase != DataIdle)
            && (f.mem.mem.data.phase == DataResp ==> f.mem.mem.tag.phase == TagResp)
            && (f.mem.busy && f.mem.active == P0 <==> CpuTakes(f.cpu))
            && (f.mem.busy && f.mem.active == P1 <==> SnpTakes(f.snp))
  {
    RawRuns(r, c, envs);
  }

  // ---- Acknowledgements, awaited or stray ----

  /**
   * A write-back waits for its own acknowledgement and lets any other pass it by; a fetch takes the first that
   * comes, with its word if it answers a read, and otherwise keeps the word held.
   */
  lemma WaitsFor(c: Cpu, e: Env, m: MemOut, sent: bool)
    ensures var c' := CpuNext(c, e, m, sent);
            && (c.st in {EvictDirtyAck, FlushEvictAck} ==>
                  if e.busValid && e.busCmd == EvictDirty
                  then c' == c.(st := if c.st == EvictDirtyAck then TagMatch else FlushInvalidateReq) && BusTaken(c, e)
                  else c' == c && !BusTaken(c, e))
            && (c.st in {ReadMissAck, WriteMissAck} ==>
                  if e.busValid
                  then c' == c.(st := if c.st == ReadMissAck then ReadMissUpdateReq else WriteReq,
                                line := c.line.(data := if e.busCmd in {BusRd, BusRdx} then e.busData else c.line.data))
                       && BusTaken(c, e)
                  else c' == c && !BusTaken(c, e))
            && (c.st !in {EvictDirtyAck, FlushEvictAck, ReadMissAck, WriteMissAck} ==> !BusTaken(c, e))
  {}
}
