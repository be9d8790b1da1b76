/**
 * What the controller's machines amount to: each processor access and each snoop is one atomic
 * handler call on one cell of the array, for any reply delays and any interleaving of the two
 * machines on different cells.
 */
module Transactions {
  import opened Words
  import opened Msi
  import opened CacheLine
  import opened Sram
  import opened PortedArray
  import opened Outbound
  import opened Controller

  // ---- The atomic handlers, on one cell ----

  datatype Job = Access(addr: nat, wdata: Word, wstrb: Strobe) | Flush(addr: nat)

  function CellOf(line: Line): Cell {
    Cell(Row(line.tag, line.state), line.data)
  }

  /** The bus command an access needs after its tag check. */
  function Command(job: Job, cell: Cell): Option<Cmd> {
    match job
    case Access(addr, _, wstrb) => BusCommand(AfterEvict(LineOf(cell, addr), addr), wstrb != NONE)
    case Flush(_) => None
  }

  /** The eviction an access or a flush starts with. */
  function Eviction(job: Job, cell: Cell): Option<Message> {
    match job
    case Access(addr, _, _) => EvictMessage(LineOf(cell, addr), addr)
    case Flush(addr) =>
      if HoldsCell(cell, addr) then
        Some(Message(if cell.row.state == Shared then EvictClean else EvictDirty,
                     AddrOf(cell.row.tag, IndexOf(addr)), cell.data))
      else None
  }

  /** The messages the handler sends: the eviction, then the bus command with no data. */
  function HandlerMessages(job: Job, cell: Cell): seq<Message> {
    var command := Command(job, cell);
    (if Eviction(job, cell).Some? then [Eviction(job, cell).value] else [])
    + (if command.Some? then [Message(command.value, job.addr, ZERO)] else [])
  }

  /** The line the handler leaves; `word` is the directory's reply, if any. An upgrade keeps the word held. */
  function HandlerResult(job: Job, cell: Cell, word: Word): Cell {
    match job
    case Access(addr, wdata, wstrb) =>
      var line := AfterEvict(LineOf(cell, addr), addr);
      var command := BusCommand(line, wstrb != NONE);
      var filled := if command == None then line
                    else Fill(line, addr, wstrb != NONE, if command == Some(BusUpgr) then line.data else word);
      CellOf(if wstrb == NONE then filled else Store(filled, wdata, wstrb))
    case Flush(addr) =>
      if HoldsCell(cell, addr) then Cell(Row(cell.row.tag, Invalid), cell.data) else cell
  }

  /** What the hardware leaves: on every write only the strobed lanes reach the SRAM, over whatever the cell held. */
  function RtlResult(job: Job, cell: Cell, word: Word): Cell {
    match job
    case Access(addr, wdata, wstrb) =>
      if wstrb != NONE then Cell(Row(TagOf(addr), Modified), Merge(cell.data, wdata, wstrb))
      else if Command(job, cell).Some? then Cell(Row(TagOf(addr), Shared), word)
      else cell
    case Flush(addr) =>
      if HoldsCell(cell, addr) then Cell(Row(cell.row.tag, Invalid), cell.data) else cell
  }

  /**
   * The hardware leaves what the handler leaves, except on a write miss whose unstrobed lanes in the
   * stale cell differ from the fetched word; in particular always on hits, upgrades and full-word writes.
   */
  lemma RtlMeetsHandler(job: Job, cell: Cell, word: Word)
    ensures RtlResult(job, cell, word) == HandlerResult(job, cell, word)
       <==> (job.Access? && Command(job, cell) == Some(BusRdx) ==> AgreeOutside(cell.data, word, job.wstrb))
  {}

  /** A one-lane write to an untouched slot: the handler merges into the fetched word, the hardware into stale zeros. */
  lemma PartialWriteMiss(word: Word, wdata: Word)
    requires word.b1 != 0
    ensures var job := Access(0, wdata, Strobe(true, false, false, false));
            RtlResult(job, Cell(CLEARED, ZERO), word) != HandlerResult(job, Cell(CLEARED, ZERO), word)
  {}

  function SnoopCell(cell: Cell, addr: nat, event: SnoopEvent): Cell {
    CellOf(SnoopLine(LineOf(cell, addr), addr, event))
  }

  function SnoopAck(cell: Cell, addr: nat, event: SnoopEvent): Out {
    Out(Ack(event), addr, SnoopData(LineOf(cell, addr), addr, event))
  }

  /** The hardware acknowledges with the word of a writable line to a snoop that reads, and otherwise with zero. */
  lemma AckCarries(cell: Cell, addr: nat, event: SnoopEvent)
    ensures var gives := cell.row.state == Modified && cell.row.tag == TagOf(addr) && event in {SnoopRd, SnoopRdx};
            SnoopAck(cell, addr, event) == Out(Ack(event), addr, if gives then cell.data else ZERO)
  {
    HandsOver(LineOf(cell, addr), addr, event);
  }

  // ---- One CPU transaction, followed by what it has sent and received ----

  /** `sent` are the messages that have crossed the link, `word` the reply's word once it has come. */
  datatype CpuTx = CpuTx(job: Job, sent: seq<Out>, word: Word)

  /** What the link carries: the data of a bus command is not transmitted. */
  function OnWire(o: Out): Out {
    match o.cmd
    case Bus(cmd) => if cmd in {BusRd, BusRdx, BusUpgr} then o.(data := ZERO) else o
    case _ => o
  }

  function OutOf(m: Message): Out {
    Out(Bus(m.cmd), m.addr, m.data)
  }

  function Outs(ms: seq<Message>): seq<Out> {
    if ms == [] then [] else [OutOf(ms[0])] + Outs(ms[1..])
  }

  /** The messages expected by the time the eviction, or everything, has been sent. */
  function EvictOuts(job: Job, cell: Cell): seq<Out> {
    if Eviction(job, cell).Some? then [OutOf(Eviction(job, cell).value)] else []
  }

  function AllOuts(job: Job, cell: Cell): seq<Out> {
    EvictOuts(job, cell)
    + (if Command(job, cell).Some? then [Out(Bus(Command(job, cell).value), job.addr, ZERO)] else [])
  }

  lemma AllOutsAreMessages(job: Job, cell: Cell)
    ensures AllOuts(job, cell) == Outs(HandlerMessages(job, cell))
  {
    var ms := HandlerMessages(job, cell);
    assert |ms| == 1 ==> ms[1..] == [];
    assert |ms| == 2 ==> ms[1..] == [ms[1]] && ms[1..][1..] == [];
    assert Outs([]) == [];
    assert |ms| <= 2;
    if |ms| == 2 {
      assert Outs(ms[1..]) == [OutOf(ms[1])] + Outs([]);
    }
  }

  /** The job a busy CPU machine is on. */
  function JobOf(c: Cpu): Job {
    if c.st in {FlushLookupReq, FlushLookupResp, FlushEvict, FlushEvictAck, FlushInvalidateReq, FlushInvalidateResp}
    then Flush(c.addr) else Access(c.addr, c.wdata, c.wstrb)
  }

  /**
   * State by state: `cell` is what the cell held when the transaction began, `now` what it holds. The
   * registers, the messages sent and the reply received are where the handler would be.
   */
  predicate CpuInv(c: Cpu, tx: CpuTx, cell: Cell, now: Cell) {
    var job := tx.job;
    && job == JobOf(c)
    && match c.st
       case CpuIdle => false
       case FetchLineReq | FetchLineResp => tx.sent == [] && now == cell && c.tagMatch
       case TagMiss => tx.sent == [] && now == cell == c.line && !c.tagMatch && MismatchCell(cell, c.addr)
       case EvictDirtyAck =>
         tx.sent == EvictOuts(job, cell) && now == cell == c.line && !c.tagMatch && MismatchCell(cell, c.addr)
       case TagMatch => tx.sent == EvictOuts(job, cell) && now == cell == c.line && TagKnown(c, cell)
       case ReadMiss | WriteMiss =>
         tx.sent == EvictOuts(job, cell) && now == cell == c.line && Decided(c, job, cell) && c.issueCmd.Some?
       case ReadMissAck | WriteMissAck =>
         tx.sent == AllOuts(job, cell) && now == cell == c.line && Decided(c, job, cell) && c.issueCmd.Some?
       case ReadMissUpdateReq | ReadMissUpdateResp =>
         && tx.sent == AllOuts(job, cell) && now == cell && c.line.data == tx.word
         && Decided(c, job, cell) && c.issueCmd.Some?
       case ReadReq | ReadResp =>
         tx.sent == AllOuts(job, cell) && c.wstrb == NONE && now == RtlResult(job, cell, tx.word)
       case WriteReq | WriteResp =>
         tx.sent == AllOuts(job, cell) && now == cell && Decided(c, job, cell)
       case FlushLookupReq | FlushLookupResp => tx.sent == [] && now == cell && c.tagMatch
       case FlushEvict => tx.sent == [] && now == cell == c.line && HoldsCell(cell, c.addr) && c.tagMatch
       case FlushEvictAck | FlushInvalidateReq | FlushInvalidateResp =>
         tx.sent == AllOuts(job, cell) && now == cell == c.line && HoldsCell(cell, c.addr) && c.tagMatch
  }

  predicate TagKnown(c: Cpu, cell: Cell) {
    c.tagMatch <==> !MismatchCell(cell, c.addr)
  }

  predicate Decided(c: Cpu, job: Job, cell: Cell) {
    && c.issueCmd == Command(job, cell)
    && c.nextState == (if c.wstrb == NONE then Shared else Modified)
    && (c.st in {ReadMiss, ReadMissAck, ReadMissUpdateReq, ReadMissUpdateResp} <==> c.wstrb == NONE)
  }

  /** The reply echoes the command it answers. */
  predicate ReplyEchoes(c: Cpu, e: Env) {
    c.st in {ReadMissAck, WriteMissAck} && e.busValid ==> c.issueCmd == Some(e.busCmd)
  }

  function TxNext(c: Cpu, tx: CpuTx, e: Env, sent: bool): CpuTx {
    tx.(sent := if sent && CpuOut(c).Some? then tx.sent + [OnWire(CpuOut(c).value)] else tx.sent,
        word := if c.st in {ReadMissAck, WriteMissAck} && e.busValid then e.busData else tx.word)
  }

  /** The cell after the edge: the CPU machine's own answered request writes it. */
  function CellNext(now: Cell, takes: bool, m: MemOut, port: PortReq): Cell {
    if takes && m.valid then Written(now, port) else now
  }

  predicate CpuDone(c: Cpu, m: MemOut) {
    MemDone(c, m) || FlushDone(c, m)
  }

  /** The memory answers a request from the cell it addresses. */
  predicate AnswersFrom(m: MemOut, port: PortReq, now: Cell) {
    m.valid ==> m.cell == Cell(Written(now, port).row, now.data)
  }

  /** Each edge keeps the CPU machine where its handler would be. */
  lemma CpuInvStep(c: Cpu, tx: CpuTx, cell: Cell, now: Cell, e: Env, m: MemOut, sent: bool)
    requires CpuInv(c, tx, cell, now) && ReplyEchoes(c, e) && AnswersFrom(m, CpuPort(c), now)
    requires !CpuDone(c, m)
    ensures CpuInv(CpuNext(c, e, m, sent), TxNext(c, tx, e, sent), cell, CellNext(now, CpuTakes(c), m, CpuPort(c)))
  {
    if c.st in {FetchLineReq, FetchLineResp, TagMiss, EvictDirtyAck, TagMatch} {
      LookupInvStep(c, tx, cell, now, e, m, sent);
    } else if c.st in {ReadMiss, ReadMissAck, WriteMiss, WriteMissAck} {
      BusInvStep(c, tx, cell, now, e, m, sent);
    } else if JobOf(c).Flush? {
      FlushInvStep(c, tx, cell, now, e, m, sent);
    } else {
      UpdateInvStep(c, tx, cell, now, e, m, sent);
    }
  }

  lemma LookupInvStep(c: Cpu, tx: CpuTx, cell: Cell, now: Cell, e: Env, m: MemOut, sent: bool)
    requires CpuInv(c, tx, cell, now) && AnswersFrom(m, CpuPort(c), now)
    requires c.st in {FetchLineReq, FetchLineResp, TagMiss, EvictDirtyAck, TagMatch}
    ensures CpuInv(CpuNext(c, e, m, sent), TxNext(c, tx, e, sent), cell, CellNext(now, CpuTakes(c), m, CpuPort(c)))
  {
    match c.st
    case TagMiss =>
      assert EvictOuts(tx.job, cell) == [OnWire(CpuOut(c).value)];
    case TagMatch =>
      SeenCommand(c, tx.job, cell);
      assert Command(tx.job, cell) == None ==> AllOuts(tx.job, cell) == EvictOuts(tx.job, cell);
    case _ =>
  }

  lemma BusInvStep(c: Cpu, tx: CpuTx, cell: Cell, now: Cell, e: Env, m: MemOut, sent: bool)
    requires CpuInv(c, tx, cell, now) && ReplyEchoes(c, e)
    requires c.st in {ReadMiss, ReadMissAck, WriteMiss, WriteMissAck}
    ensures CpuInv(CpuNext(c, e, m, sent), TxNext(c, tx, e, sent), cell, now)
  {}

  lemma UpdateInvStep(c: Cpu, tx: CpuTx, cell: Cell, now: Cell, e: Env, m: MemOut, sent: bool)
    requires CpuInv(c, tx, cell, now) && AnswersFrom(m, CpuPort(c), now) && !CpuDone(c, m)
    requires c.st in {ReadMissUpdateReq, ReadMissUpdateResp, ReadReq, ReadResp, WriteReq, WriteResp}
    ensures CpuInv(CpuNext(c, e, m, sent), TxNext(c, tx, e, sent), cell, CellNext(now, CpuTakes(c), m, CpuPort(c)))
  {}

  lemma FlushInvStep(c: Cpu, tx: CpuTx, cell: Cell, now: Cell, e: Env, m: MemOut, sent: bool)
    requires CpuInv(c, tx, cell, now) && AnswersFrom(m, CpuPort(c), now) && !CpuDone(c, m) && JobOf(c).Flush?
    ensures CpuInv(CpuNext(c, e, m, sent), TxNext(c, tx, e, sent), cell, CellNext(now, CpuTakes(c), m, CpuPort(c)))
  {
    if c.st == FlushEvict {
      assert AllOuts(tx.job, cell) == [OnWire(CpuOut(c).value)];
    }
  }

  lemma SeenCommand(c: Cpu, job: Job, cell: Cell)
    requires c.line == cell && TagKnown(c, cell) && job == Access(c.addr, c.wdata, c.wstrb)
    ensures CpuTransition(c).cmd == Command(job, cell)
    ensures CpuTransition(c).next == if c.wstrb != NONE then Modified
                                     else if CpuTransition(c).cmd.Some? then Shared else cell.row.state
  {}

  /** At its last edge the transaction has done what its handler does: the messages, the cell, the word returned. */
  lemma CpuInvDone(c: Cpu, tx: CpuTx, cell: Cell, now: Cell, e: Env, m: MemOut, sent: bool)
    requires CpuInv(c, tx, cell, now) && AnswersFrom(m, CpuPort(c), now) && CpuDone(c, m)
    ensures tx.sent == AllOuts(tx.job, cell)
    ensures CellNext(now, CpuTakes(c), m, CpuPort(c)) == RtlResult(tx.job, cell, tx.word)
    ensures MemDone(c, m) && c.wstrb == NONE ==> m.cell.data == RtlResult(tx.job, cell, tx.word).data
    ensures CpuNext(c, e, m, sent).st == CpuIdle && CpuNext(c, e, m, sent).tagMatch
    ensures MemDone(c, m) <==> tx.job.Access?
  {
    if c.st == WriteResp {
      MergeTwice(cell.data, c.wdata, c.wstrb);
      MergeTwice(c.line.data, c.wdata, c.wstrb);
    }
  }
}
