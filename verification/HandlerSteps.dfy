/** The atomic handler of one cell, against the whole system: the hardware's transaction is the emulator's step. */
module HandlerSteps {
  import opened Words
  import opened Msi
  import opened CacheLine
  import opened Directory
  import opened Steps
  import opened PortedArray
  import opened Transactions
  import S = Serialised

  /** The word the directory replies with to the access's bus command. */
  function ReplyWord(s: System, core: nat, a: nat, isWrite: bool): Word
    requires WellFormed(s) && core < |s.caches|
  {
    EvictStepWellFormed(s, core, a, true);
    var s' := EvictStep(s, core, a, true);
    match BusCommand(LineAt(s', core, a), isWrite)
    case None => ZERO
    case Some(cmd) => Handle(s', core, Message(cmd, a, ZERO), ReadStrobe(AsIntended)).reply.data
  }

  /** The eviction and the bus command of the step are those of the cell's handler. */
  lemma SameMessages(s: System, core: nat, a: nat, data: Word, wstrb: Strobe)
    requires WellFormed(s) && core < |s.caches|
    ensures var job, cell := Access(a, data, wstrb), CellOf(LineAt(s, core, a));
            && EvictMessage(LineAt(s, core, a), a) == Eviction(job, cell)
            && WellFormed(EvictStep(s, core, a, true)) && core < |EvictStep(s, core, a, true).caches|
            && LineAt(EvictStep(s, core, a, true), core, a) == AfterEvict(LineAt(s, core, a), a)
            && BusCommand(LineAt(EvictStep(s, core, a, true), core, a), wstrb != NONE) == Command(job, cell)
  {
    EvictStepWellFormed(s, core, a, true);
    var line := LineAt(s, core, a);
    if EvictMessage(line, a).Some? {
      OwnLineKept(s, core, EvictMessage(line, a).value, ALL);
      HandleWellFormed(s, core, EvictMessage(line, a).value, ALL);
    }
  }

  /**
   * A granted access of the emulated system leaves the requester's line as the cell's handler does
   * with the directory's reply, and a read returns that line's word.
   */
  lemma HandlerIsStep(s: System, core: nat, a: Addr, data: Word, wstrb: Strobe)
    requires WellFormed(s) && core < |s.caches|
    requires Step(AsIntended, s, Request(core, a, data, wstrb)).reply.ready
    ensures var out, cell := Step(AsIntended, s, Request(core, a, data, wstrb)), CellOf(LineAt(s, core, a));
            var result := HandlerResult(Access(a, data, wstrb), cell, ReplyWord(s, core, a, wstrb != NONE));
            && WellFormed(out.next) && core < |out.next.caches|
            && CellOf(LineAt(out.next, core, a)) == result
            && (wstrb == NONE ==> out.reply.data == result.data)
  {
    SameMessages(s, core, a, data, wstrb);
    StepWellFormed(AsIntended, s, Request(core, a, data, wstrb));
    var s' := EvictStep(s, core, a, true);
    var command := BusCommand(LineAt(s', core, a), wstrb != NONE);
    if command.Some? {
      OwnLineKept(s', core, Message(command.value, a, ZERO), ReadStrobe(AsIntended));
      HandleWellFormed(s', core, Message(command.value, a, ZERO), ReadStrobe(AsIntended));
    }
  }

  // ---- A finished transaction of the hardware, against the emulator ----

  /** The messages of the emulated access: its eviction, then its bus command. */
  function StepMessages(s: System, core: nat, a: nat, isWrite: bool): seq<Message>
    requires WellFormed(s) && core < |s.caches|
  {
    var evicted := EvictMessage(LineAt(s, core, a), a);
    var command := BusCommand(LineAt(AfterTagCheck(s, core, a), core, a), isWrite);
    (if evicted.Some? then [evicted.value] else [])
    + (if command.Some? then [Message(command.value, a, ZERO)] else [])
  }

  /**
   * An emulated system with which a finished access can be compared: the requester's line is the cell
   * the access began on, the directory's reply to a fetch is the word that came, and the step is granted.
   */
  ghost predicate Comparable(s: System, core: nat, job: Job, cell: Cell, word: Word) {
    && WellFormed(s) && core < |s.caches| && job.Access? && job.addr < WORDS
    && CellOf(LineAt(s, core, job.addr)) == cell
    && (Command(job, cell) in {Some(BusRd), Some(BusRdx)} ==>
          ReplyWord(s, core, job.addr, job.wstrb != NONE) == word)
    && Step(AsIntended, s, Request(core, job.addr, job.wdata, job.wstrb)).reply.ready
  }

  /**
   * The same messages, the same word returned, and the same line left, except on the partial-word write
   * miss whose stale lanes differ.
   */
  ghost predicate SameAsStep(s: System, core: nat, ev: S.Event, cell: Cell)
    requires ev.JobDone? && Comparable(s, core, ev.job, cell, ev.word)
  {
    var job := ev.job;
    var out := Step(AsIntended, s, Request(core, job.addr, job.wdata, job.wstrb));
    && WellFormed(out.next) && core < |out.next.caches|
    && ev.sent == Outs(StepMessages(s, core, job.addr, job.wstrb != NONE))
    && (job.wstrb == NONE ==> ev.rdata == out.reply.data)
    && (S.EffectOn(cell, ev) == CellOf(LineAt(out.next, core, job.addr))
        <==> (Command(job, cell) == Some(BusRdx) ==> AgreeOutside(cell.data, ev.word, job.wstrb)))
  }

  /** Only a fetch looks at the reply's word. */
  lemma WordIgnored(job: Job, cell: Cell, x: Word, y: Word)
    requires Command(job, cell) !in {Some(BusRd), Some(BusRdx)}
    ensures HandlerResult(job, cell, x) == HandlerResult(job, cell, y)
    ensures RtlResult(job, cell, x) == RtlResult(job, cell, y)
  {}

  /** A legal transaction of the hardware is the emulated step. */
  lemma EventIsStep(cells: seq<Cell>, ev: S.Event, s: System, core: nat)
    requires |cells| == LINES && ev.JobDone? && S.Legal(cells, ev)
    requires Comparable(s, core, ev.job, cells[S.Index(ev)], ev.word)
    ensures SameAsStep(s, core, ev, cells[S.Index(ev)])
  {
    var job, cell, a := ev.job, cells[S.Index(ev)], ev.job.addr;
    var word := ReplyWord(s, core, a, job.wstrb != NONE);
    SameMessages(s, core, a, job.wdata, job.wstrb);
    HandlerIsStep(s, core, a, job.wdata, job.wstrb);
    AllOutsAreMessages(job, cell);
    assert HandlerMessages(job, cell) == StepMessages(s, core, a, job.wstrb != NONE);
    if Command(job, cell) !in {Some(BusRd), Some(BusRdx)} {
      WordIgnored(job, cell, word, ev.word);
    }
    RtlMeetsHandler(job, cell, ev.word);
  }

  // ---- A flush, against the emulator ----

  /**
   * An address whose tag check evicts exactly what a flush of `a` does: one of another tag when the slot
   * holds `a`, and otherwise the line's own.
   */
  function EvictorOf(line: Line, a: nat): Addr
    requires InSlot(line, IndexOf(a))
  {
    if Holds(line, a) then (a + LINES) % WORDS else AddrOf(line.tag, IndexOf(a))
  }

  lemma FlushTags(line: Line, a: nat)
    requires InSlot(line, IndexOf(a))
    ensures IndexOf(EvictorOf(line, a)) == IndexOf(a)
    ensures Mismatch(line, EvictorOf(line, a)) <==> Holds(line, a)
  {}

  /** A flush is an eviction: the same message, and the same line left. */
  lemma FlushIsEvict(s: System, core: nat, a: nat, word: Word)
    requires WellFormed(s) && core < |s.caches|
    ensures var line := LineAt(s, core, a); var b := EvictorOf(line, a);
            && AllOuts(Flush(a), CellOf(line))
               == (if EvictMessage(line, b).Some? then Outs([EvictMessage(line, b).value]) else [])
            && WellFormed(EvictStep(s, core, b, true)) && core < |EvictStep(s, core, b, true).caches|
            && RtlResult(Flush(a), CellOf(line), word) == CellOf(LineAt(EvictStep(s, core, b, true), core, a))
  {
    var line := LineAt(s, core, a);
    var b := EvictorOf(line, a);
    FlushTags(line, a);
    EvictStepWellFormed(s, core, b, true);
    if EvictMessage(line, b).Some? {
      var m := EvictMessage(line, b).value;
      OwnLineKept(s, core, m, ALL);
      HandleWellFormed(s, core, m, ALL);
      assert [m][1..] == [];
    }
  }
}
