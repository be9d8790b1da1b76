/**
 * Every run of the controller, cycle by cycle, is a sequence of atomic handler calls: one event per
 * finished processor job or acknowledged snoop, in the order they finish. Events on different cells
 * can be put in either order.
 */
module Serialised {
  import opened Words
  import opened Msi
  import opened CacheLine
  import opened Sram
  import opened PortedArray
  import opened Outbound
  import opened Controller
  import opened Transactions

  // ---- Finished transactions and what they should have done ----

  /**
   * A finished job with the reply word it received, the messages it sent and the word it returned;
   * an acknowledged snoop with its acknowledgement.
   */
  datatype Event =
    | JobDone(job: Job, word: Word, sent: seq<Out>, rdata: Word)
    | SnoopDone(addr: nat, event: SnoopEvent, ack: Out)

  function Index(ev: Event): (i: nat)
    ensures i < LINES
  {
    IndexOf(if ev.JobDone? then ev.job.addr else ev.addr)
  }

  predicate IsRead(job: Job) {
    job.Access? && job.wstrb == NONE
  }

  /** The event's outputs are the handler's, on the cell as it is when the event's turn comes. */
  predicate Legal(cells: seq<Cell>, ev: Event)
    requires |cells| == LINES
  {
    LegalOn(cells[Index(ev)], ev)
  }

  predicate LegalOn(cell: Cell, ev: Event) {
    match ev
    case JobDone(job, word, sent, rdata) =>
      && sent == AllOuts(job, cell)
      && rdata == (if IsRead(job) then RtlResult(job, cell, word).data else ZERO)
    case SnoopDone(addr, event, ack) => ack == SnoopAck(cell, addr, event)
  }

  function EffectOn(cell: Cell, ev: Event): Cell {
    match ev
    case JobDone(job, word, _, _) => RtlResult(job, cell, word)
    case SnoopDone(addr, event, _) => SnoopCell(cell, addr, event)
  }

  function Effect(cells: seq<Cell>, ev: Event): (r: seq<Cell>)
    requires |cells| == LINES
    ensures |r| == LINES
  {
    cells[Index(ev) := EffectOn(cells[Index(ev)], ev)]
  }

  /** The array when the first k events have had their effect. */
  function Before(cells: seq<Cell>, log: seq<Event>, k: nat): (r: seq<Cell>)
    requires |cells| == LINES && k <= |log|
    ensures |r| == LINES
  {
    if k == 0 then cells else Effect(Before(cells, log, k - 1), log[k - 1])
  }

  function After(cells: seq<Cell>, log: seq<Event>): (r: seq<Cell>)
    requires |cells| == LINES
    ensures |r| == LINES
  {
    Before(cells, log, |log|)
  }

  ghost predicate Serial(cells: seq<Cell>, log: seq<Event>)
    requires |cells| == LINES
  {
    forall k | 0 <= k < |log| :: LegalAt(cells, log, k)
  }

  predicate LegalAt(cells: seq<Cell>, log: seq<Event>, k: nat)
    requires |cells| == LINES && k < |log|
  {
    Legal(Before(cells, log, k), log[k])
  }

  /** What comes before an event does not depend on what comes after. */
  lemma {:induction false} PrefixDecides(cells: seq<Cell>, log: seq<Event>, longer: seq<Event>, k: nat)
    requires |cells| == LINES && k <= |log| <= |longer| && forall j | 0 <= j < k :: log[j] == longer[j]
    ensures Before(cells, log, k) == Before(cells, longer, k)
  {
    if k > 0 {
      PrefixDecides(cells, log, longer, k - 1);
    }
  }

  lemma SerialAppend(cells: seq<Cell>, log: seq<Event>, ev: Event)
    requires |cells| == LINES && Serial(cells, log) && Legal(After(cells, log), ev)
    ensures Serial(cells, log + [ev]) && After(cells, log + [ev]) == Effect(After(cells, log), ev)
  {
    var log' := log + [ev];
    PrefixDecides(cells, log, log', |log|);
    forall k | 0 <= k < |log'| ensures LegalAt(cells, log', k) {
      if k < |log| {
        PrefixDecides(cells, log, log', k);
        assert LegalAt(cells, log, k);
      }
    }
  }

  // ---- The snoop machine, state by state ----

  /** `cell` is what the cell held when the snoop was taken, `now` what it holds. */
  predicate SnpInv(s: Snp, cell: Cell, now: Cell) {
    match s.st
    case SnpIdle => false
    case SnpFetchReq | SnpFetchResp => now == cell
    case SnpEvent => now == cell && Matched(s, cell) && s.lineState == cell.row.state
    case SnpUpdateReq | SnpUpdateResp =>
      && now == cell && Matched(s, cell)
      && s.nextState == OnSnoopEvent(cell.row.state, s.event).next
      && s.flush == OnSnoopEvent(cell.row.state, s.event).flush
    case SnpDone => now == SnoopCell(cell, s.addr, s.event) && SnpOut(s).value == SnoopAck(cell, s.addr, s.event)
  }

  predicate Matched(s: Snp, cell: Cell) {
    cell.row.tag == TagOf(s.addr) && s.tag == cell.row.tag && s.flushData == cell.data
  }

  predicate SnpAcked(s: Snp, sent: bool) {
    s.st == SnpDone && sent
  }

  lemma SnpInvStep(s: Snp, cell: Cell, now: Cell, e: Env, m: MemOut, sent: bool)
    requires SnpInv(s, cell, now) && AnswersFrom(m, SnpPort(s), now) && !SnpAcked(s, sent)
    ensures SnpInv(SnpNext(s, e, m, sent), cell, CellNext(now, SnpTakes(s), m, SnpPort(s)))
  {}

  // ---- The chip with a record of what it does ----

  datatype Tracked = Tracked(chip: Chip<Ported>, tx: CpuTx, log: seq<Event>)

  predicate CpuBusy(c: Cpu) { c.st != CpuIdle }
  predicate SnpBusy(s: Snp) { s.st != SnpIdle }

  function JobEvents(t: Tracked, e: Env): seq<Event>
    requires PortedOk(t.chip.mem)
  {
    var m := CpuMem(t.chip);
    if CpuDone(t.chip.cpu, m) then
      [JobDone(t.tx.job, t.tx.word, t.tx.sent, if t.chip.cpu.st == ReadResp then m.cell.data else ZERO)]
    else []
  }

  function SnoopEvents(t: Tracked, e: Env): seq<Event> {
    if SnpAcked(t.chip.snp, SnpSent(t.chip, e)) then [SnoopDone(t.chip.snp.addr, t.chip.snp.event, t.chip.arb.msg)]
    else []
  }

  function TrackNext(t: Tracked, e: Env): Tracked
    requires PortedOk(t.chip.mem)
  {
    var c' := Next(t.chip, e);
    Tracked(c',
            if CpuBusy(t.chip.cpu) then TxNext(t.chip.cpu, t.tx, e, CpuSent(t.chip, e))
            else CpuTx(JobOf(c'.cpu), [], ZERO),
            t.log + JobEvents(t, e) + SnoopEvents(t, e))
  }

  /** The two machines are not on the same cell: the hardware arbitrates single accesses, not whole transactions. */
  predicate Apart(c: Chip<Ported>) {
    CpuBusy(c.cpu) && SnpBusy(c.snp) ==> IndexOf(c.cpu.addr) != IndexOf(c.snp.addr)
  }

  /** What holds of cell i: in the hands of one machine, or as the finished transactions left it. */
  predicate CellInv(c: Chip<Ported>, tx: CpuTx, i: nat, cell: Cell, now: Cell) {
    if CpuBusy(c.cpu) && IndexOf(c.cpu.addr) == i then CpuInv(c.cpu, tx, cell, now)
    else if SnpBusy(c.snp) && IndexOf(c.snp.addr) == i then SnpInv(c.snp, cell, now)
    else now == cell
  }

  ghost predicate InOrder(start: seq<Cell>, t: Tracked) {
    && |start| == LINES && Coordinated(t.chip) && Apart(t.chip)
    && (!CpuBusy(t.chip.cpu) ==> t.chip.cpu.tagMatch)
    && Serial(start, t.log)
    && forall i | 0 <= i < LINES :: CellInv(t.chip, t.tx, i, After(start, t.log)[i], t.chip.mem.cells[i])
  }

  /** The environment: replies echo the command they answer, and new requests keep the machines apart. */
  predicate Admissible(t: Tracked, e: Env)
    requires PortedOk(t.chip.mem)
  {
    ReplyEchoes(t.chip.cpu, e) && Apart(Next(t.chip, e))
  }

  // ---- What the memory does to each cell in one edge ----

  function CellAfter(c: Chip<Ported>, i: nat): Cell
    requires PortedOk(c.mem) && i < LINES
  {
    if CpuTakes(c.cpu) && CpuMem(c).valid && IndexOf(c.cpu.addr) == i then Written(c.mem.cells[i], CpuPort(c.cpu))
    else if SnpTakes(c.snp) && SnpMem(c).valid && IndexOf(c.snp.addr) == i then
      Written(c.mem.cells[i], SnpPort(c.snp))
    else c.mem.cells[i]
  }

  /** A cell changes only when its own machine's request is answered, from that cell. */
  lemma CellsStep(c: Chip<Ported>, e: Env)
    requires Coordinated(c)
    ensures PortedOk(Next(c, e).mem)
    ensures forall i | 0 <= i < LINES :: Next(c, e).mem.cells[i] == CellAfter(c, i)
    ensures AnswersFrom(CpuMem(c), CpuPort(c.cpu), c.mem.cells[IndexOf(c.cpu.addr)])
    ensures AnswersFrom(SnpMem(c), SnpPort(c.snp), c.mem.cells[IndexOf(c.snp.addr)])
    ensures CpuMem(c).valid ==> CpuTakes(c.cpu)
    ensures SnpMem(c).valid ==> SnpTakes(c.snp)
    ensures !(CpuMem(c).valid && SnpMem(c).valid)
  {
    MemoryInStep(c, e);
  }

  // ---- One edge, one cell ----

  /** What the finished transactions make of cell i at this edge. */
  function Settled(t: Tracked, e: Env, i: nat, cell: Cell): Cell
    requires PortedOk(t.chip.mem)
  {
    var c := t.chip;
    if CpuDone(c.cpu, CpuMem(c)) && IndexOf(c.cpu.addr) == i then RtlResult(t.tx.job, cell, t.tx.word)
    else if SnpAcked(c.snp, SnpSent(c, e)) && IndexOf(c.snp.addr) == i then SnoopCell(cell, c.snp.addr, c.snp.event)
    else cell
  }

  lemma CellStep(t: Tracked, e: Env, i: nat, cell: Cell)
    requires Coordinated(t.chip) && Apart(t.chip) && i < LINES && Admissible(t, e)
    requires !CpuBusy(t.chip.cpu) ==> t.chip.cpu.tagMatch
    requires CellInv(t.chip, t.tx, i, cell, t.chip.mem.cells[i])
    ensures PortedOk(TrackNext(t, e).chip.mem)
    ensures var t' := TrackNext(t, e); CellInv(t'.chip, t'.tx, i, Settled(t, e, i, cell), t'.chip.mem.cells[i])
  {
    var c, now := t.chip, t.chip.mem.cells[i];
    CellsStep(c, e);
    assert Next(c, e).mem.cells[i] == CellAfter(c, i);
    if CpuBusy(c.cpu) && IndexOf(c.cpu.addr) == i {
      JobCell(t, e, cell);
    } else if SnpBusy(c.snp) && IndexOf(c.snp.addr) == i {
      SnoopedCell(t, e, cell);
    } else {
      FreeCell(t, e, i, cell);
    }
  }

  lemma JobCell(t: Tracked, e: Env, cell: Cell)
    requires Coordinated(t.chip) && Apart(t.chip) && CpuBusy(t.chip.cpu) && Admissible(t, e)
    requires CpuInv(t.chip.cpu, t.tx, cell, t.chip.mem.cells[IndexOf(t.chip.cpu.addr)])
    ensures PortedOk(TrackNext(t, e).chip.mem)
    ensures var t', i := TrackNext(t, e), IndexOf(t.chip.cpu.addr);
            CellInv(t'.chip, t'.tx, i, Settled(t, e, i, cell), t'.chip.mem.cells[i])
  {
    var c := t.chip;
    var now, m := c.mem.cells[IndexOf(c.cpu.addr)], CpuMem(c);
    CellsStep(c, e);
    if CpuDone(c.cpu, m) {
      CpuInvDone(c.cpu, t.tx, cell, now, e, m, CpuSent(c, e));
      SnpStart(c.snp, e, SnpMem(c), SnpSent(c, e), now);
    } else {
      CpuInvStep(c.cpu, t.tx, cell, now, e, m, CpuSent(c, e));
      CpuStays(c.cpu, e, m, CpuSent(c, e));
    }
  }

  lemma CpuStays(c: Cpu, e: Env, m: MemOut, sent: bool)
    requires CpuBusy(c) && !CpuDone(c, m)
    ensures CpuBusy(CpuNext(c, e, m, sent)) && CpuNext(c, e, m, sent).addr == c.addr
  {}

  /** A snoop machine that was not busy, and now is, has just taken its snoop. */
  lemma SnpStart(s: Snp, e: Env, m: MemOut, sent: bool, now: Cell)
    ensures !SnpBusy(s) && SnpBusy(SnpNext(s, e, m, sent)) ==> SnpInv(SnpNext(s, e, m, sent), now, now)
    ensures SnpBusy(s) && SnpBusy(SnpNext(s, e, m, sent)) ==> SnpNext(s, e, m, sent).addr == s.addr
    ensures SnpBusy(s) && !SnpBusy(SnpNext(s, e, m, sent)) <==> SnpAcked(s, sent)
  {}

  lemma SnoopedCell(t: Tracked, e: Env, cell: Cell)
    requires Coordinated(t.chip) && Apart(t.chip) && SnpBusy(t.chip.snp) && Admissible(t, e)
    requires !CpuBusy(t.chip.cpu) ==> t.chip.cpu.tagMatch
    requires CpuBusy(t.chip.cpu) ==> IndexOf(t.chip.cpu.addr) != IndexOf(t.chip.snp.addr)
    requires SnpInv(t.chip.snp, cell, t.chip.mem.cells[IndexOf(t.chip.snp.addr)])
    ensures PortedOk(TrackNext(t, e).chip.mem)
    ensures var t', i := TrackNext(t, e), IndexOf(t.chip.snp.addr);
            CellInv(t'.chip, t'.tx, i, Settled(t, e, i, cell), t'.chip.mem.cells[i])
  {
    var c := t.chip;
    var now, m := c.mem.cells[IndexOf(c.snp.addr)], SnpMem(c);
    CellsStep(c, e);
    SnpStart(c.snp, e, m, SnpSent(c, e), now);
    CpuStart(c.cpu, e, CpuMem(c), CpuSent(c, e), Settled(t, e, IndexOf(c.snp.addr), cell));
    if !SnpAcked(c.snp, SnpSent(c, e)) {
      SnpInvStep(c.snp, cell, now, e, m, SnpSent(c, e));
    }
  }

  /** A CPU machine that was idle, and now is not, has just taken its job. */
  lemma CpuStart(c: Cpu, e: Env, m: MemOut, sent: bool, now: Cell)
    requires !CpuBusy(c) ==> c.tagMatch
    ensures var c' := CpuNext(c, e, m, sent);
            && (!CpuBusy(c) && CpuBusy(c') ==> CpuInv(c', CpuTx(JobOf(c'), [], ZERO), now, now))
            && (CpuBusy(c) && CpuBusy(c') ==> c'.addr == c.addr)
            && (CpuBusy(c) && !CpuBusy(c') <==> CpuDone(c, m))
            && (!CpuBusy(c) && !CpuBusy(c') ==> c' == c)
  {}

  lemma FreeCell(t: Tracked, e: Env, i: nat, cell: Cell)
    requires Coordinated(t.chip) && Apart(t.chip) && i < LINES && Admissible(t, e)
    requires !CpuBusy(t.chip.cpu) ==> t.chip.cpu.tagMatch
    requires CpuBusy(t.chip.cpu) ==> IndexOf(t.chip.cpu.addr) != i
    requires SnpBusy(t.chip.snp) ==> IndexOf(t.chip.snp.addr) != i
    requires t.chip.mem.cells[i] == cell
    ensures PortedOk(TrackNext(t, e).chip.mem)
    ensures var t' := TrackNext(t, e); CellInv(t'.chip, t'.tx, i, Settled(t, e, i, cell), t'.chip.mem.cells[i])
  {
    var c := t.chip;
    CellsStep(c, e);
    SnpStart(c.snp, e, SnpMem(c), SnpSent(c, e), cell);
    CpuStart(c.cpu, e, CpuMem(c), CpuSent(c, e), cell);
  }

  // ---- One edge, all cells ----

  lemma InOrderStep(start: seq<Cell>, t: Tracked, e: Env)
    requires InOrder(start, t) && Admissible(t, e)
    ensures InOrder(start, TrackNext(t, e))
  {
    var c, t', cells := t.chip, TrackNext(t, e), After(start, t.log);
    CoordinatedStep(c, e);
    LogStep(start, t, e);
    forall i | 0 <= i < LINES ensures CellInv(t'.chip, t'.tx, i, After(start, t'.log)[i], t'.chip.mem.cells[i]) {
      assert CellInv(c, t.tx, i, cells[i], c.mem.cells[i]);
      CellStep(t, e, i, cells[i]);
    }
    IdleKept(start, t, e);
  }

  lemma IdleKept(start: seq<Cell>, t: Tracked, e: Env)
    requires InOrder(start, t)
    ensures !CpuBusy(TrackNext(t, e).chip.cpu) ==> TrackNext(t, e).chip.cpu.tagMatch
  {
    var c := t.chip;
    var i := IndexOf(c.cpu.addr);
    var cell := After(start, t.log)[i];
    CellsStep(c, e);
    CpuStart(c.cpu, e, CpuMem(c), CpuSent(c, e), cell);
    assert CellInv(c, t.tx, i, cell, c.mem.cells[i]);
    if CpuBusy(c.cpu) && CpuDone(c.cpu, CpuMem(c)) {
      CpuInvDone(c.cpu, t.tx, cell, c.mem.cells[i], e, CpuMem(c), CpuSent(c, e));
    }
  }

  /** The events of an edge are legal, and on different cells. */
  lemma EventsLegal(start: seq<Cell>, t: Tracked, e: Env)
    requires InOrder(start, t)
    ensures LegalTogether(After(start, t.log), JobEvents(t, e), SnoopEvents(t, e))
    ensures JobEvents(t, e) != [] ==> Index(JobEvents(t, e)[0]) == IndexOf(t.chip.cpu.addr)
  {
    if JobEvents(t, e) != [] {
      JobLegal(start, t, e);
    }
    if SnoopEvents(t, e) != [] {
      SnoopLegal(start, t, e);
    }
  }

  /** At most one event of each machine, each legal now, on different cells. */
  predicate LegalTogether(cells: seq<Cell>, jobs: seq<Event>, snoops: seq<Event>)
    requires |cells| == LINES
  {
    && |jobs| <= 1 && |snoops| <= 1
    && (jobs != [] ==> Legal(cells, jobs[0]))
    && (snoops != [] ==> Legal(cells, snoops[0]))
    && (jobs != [] && snoops != [] ==> Index(jobs[0]) != Index(snoops[0]))
  }

  function Effects(cells: seq<Cell>, evs: seq<Event>): (r: seq<Cell>)
    requires |cells| == LINES
    ensures |r| == LINES
  {
    if evs == [] then cells else Effect(cells, evs[0])
  }

  lemma AppendEvents(start: seq<Cell>, log: seq<Event>, evs: seq<Event>)
    requires |start| == LINES && Serial(start, log) && |evs| <= 1
    requires evs != [] ==> Legal(After(start, log), evs[0])
    ensures Serial(start, log + evs) && After(start, log + evs) == Effects(After(start, log), evs)
  {
    if evs == [] {
      assert log + evs == log;
    } else {
      assert evs == [evs[0]];
      SerialAppend(start, log, evs[0]);
    }
  }

  /** The events of an edge are legal in their turn, and settle the cells of their own transactions. */
  lemma LogStep(start: seq<Cell>, t: Tracked, e: Env)
    requires InOrder(start, t)
    ensures Serial(start, TrackNext(t, e).log)
    ensures forall i | 0 <= i < LINES ::
              After(start, TrackNext(t, e).log)[i] == Settled(t, e, i, After(start, t.log)[i])
  {
    var cells, jobs, snoops := After(start, t.log), JobEvents(t, e), SnoopEvents(t, e);
    EventsLegal(start, t, e);
    EffectsSettle(t, e, cells);
    AppendEvents(start, t.log, jobs);
    AppendEvents(start, t.log + jobs, snoops);
  }

  lemma EffectsSettle(t: Tracked, e: Env, cells: seq<Cell>)
    requires |cells| == LINES && PortedOk(t.chip.mem)
    requires LegalTogether(cells, JobEvents(t, e), SnoopEvents(t, e))
    requires JobEvents(t, e) != [] ==> Index(JobEvents(t, e)[0]) == IndexOf(t.chip.cpu.addr)
    ensures var mid := Effects(cells, JobEvents(t, e));
            && LegalTogether(mid, [], SnoopEvents(t, e))
            && forall i | 0 <= i < LINES :: Effects(mid, SnoopEvents(t, e))[i] == Settled(t, e, i, cells[i])
  {}

  lemma JobLegal(start: seq<Cell>, t: Tracked, e: Env)
    requires InOrder(start, t) && JobEvents(t, e) != []
    ensures Legal(After(start, t.log), JobEvents(t, e)[0])
    ensures CpuBusy(t.chip.cpu) && Index(JobEvents(t, e)[0]) == IndexOf(t.chip.cpu.addr)
  {
    var c, cells := t.chip, After(start, t.log);
    var i := IndexOf(c.cpu.addr);
    CellsStep(c, e);
    assert CellInv(c, t.tx, i, cells[i], c.mem.cells[i]);
    CpuInvDone(c.cpu, t.tx, cells[i], c.mem.cells[i], e, CpuMem(c), CpuSent(c, e));
  }

  lemma SnoopLegal(start: seq<Cell>, t: Tracked, e: Env)
    requires InOrder(start, t) && SnoopEvents(t, e) != []
    ensures Legal(After(start, t.log), SnoopEvents(t, e)[0])
    ensures SnpBusy(t.chip.snp) && Index(SnoopEvents(t, e)[0]) == IndexOf(t.chip.snp.addr)
  {
    var c, cells := t.chip, After(start, t.log);
    var i := IndexOf(c.snp.addr);
    assert CellInv(c, t.tx, i, cells[i], c.mem.cells[i]);
    assert SnpOut(c.snp) == Some(c.arb.msg);
  }

  // ---- Whole runs ----

  ghost predicate AdmissibleRun(t: Tracked, envs: seq<Env>)
    requires Coordinated(t.chip)
    decreases |envs|
  {
    if envs == [] then true
    else
      CoordinatedStep(t.chip, envs[0]);
      Admissible(t, envs[0]) && AdmissibleRun(TrackNext(t, envs[0]), envs[1..])
  }

  function TrackRun(t: Tracked, envs: seq<Env>): Tracked
    requires Coordinated(t.chip)
    decreases |envs|
  {
    if envs == [] then t
    else
      CoordinatedStep(t.chip, envs[0]);
      TrackRun(TrackNext(t, envs[0]), envs[1..])
  }

  /**
   * Serialisation: after any run of the controller over the real byte-serial stack, with any reply
   * delays and any interleaving of the two machines on different cells, the log is a legal sequence
   * of atomic handler calls, and every cell not in the hands of a machine is what those calls left.
   */
  lemma {:induction false} RunIsSerial(start: seq<Cell>, r: Chip<Stack>, t: Tracked, envs: seq<Env>)
    requires InOrder(start, t) && AdmissibleRun(t, envs) && Abstracts(r, t.chip)
    ensures InOrder(start, TrackRun(t, envs)) && Abstracts(RawRun(r, envs), TrackRun(t, envs).chip)
    ensures Serial(start, TrackRun(t, envs).log)
    ensures var e, f := TrackRun(t, envs), RawRun(r, envs);
            !CpuBusy(f.cpu) && !SnpBusy(f.snp) ==>
              forall i | 0 <= i < LINES :: e.chip.mem.cells[i] == After(start, e.log)[i]
    decreases |envs|
  {
    if envs == [] {
      forall i | 0 <= i < LINES && !CpuBusy(r.cpu) && !SnpBusy(r.snp)
        ensures t.chip.mem.cells[i] == After(start, t.log)[i]
      {
        assert CellInv(t.chip, t.tx, i, After(start, t.log)[i], t.chip.mem.cells[i]);
      }
    } else {
      InOrderStep(start, t, envs[0]);
      RawStep(r, t.chip, envs[0]);
      RunIsSerial(start, RawNext(r, envs[0]), TrackNext(t, envs[0]), envs[1..]);
    }
  }

  // ---- Non-interference ----

  /** Two events on different cells have the same outputs and the same effect in either order. */
  lemma EventsCommute(cells: seq<Cell>, x: Event, y: Event)
    requires |cells| == LINES && Index(x) != Index(y)
    ensures Effect(Effect(cells, x), y) == Effect(Effect(cells, y), x)
    ensures Legal(cells, y) <==> Legal(Effect(cells, x), y)
    ensures Legal(cells, x) <==> Legal(Effect(cells, y), x)
  {}

  function Swapped(log: seq<Event>, k: nat): (r: seq<Event>)
    requires k + 1 < |log|
    ensures |r| == |log|
  {
    log[k := log[k + 1]][k + 1 := log[k]]
  }

  /** Swapping two neighbours on different cells changes the array only between them. */
  lemma {:induction false} SwapBefore(cells: seq<Cell>, log: seq<Event>, k: nat, j: nat)
    requires |cells| == LINES && k + 1 < |log| && Index(log[k]) != Index(log[k + 1])
    requires j <= |log| && j != k + 1
    ensures Before(cells, Swapped(log, k), j) == Before(cells, log, j)
    decreases j
  {
    if j <= k {
      PrefixDecides(cells, log, Swapped(log, k), j);
    } else if j == k + 2 {
      PrefixDecides(cells, log, Swapped(log, k), k);
      EventsCommute(Before(cells, log, k), log[k], log[k + 1]);
    } else {
      SwapBefore(cells, log, k, j - 1);
    }
  }

  /**
   * Non-interference: neighbouring transactions on different cells, such as a job and a snoop that
   * overlap, can be put in either order with the same array, read data and messages throughout.
   */
  lemma EitherOrder(cells: seq<Cell>, log: seq<Event>, k: nat)
    requires |cells| == LINES && k + 1 < |log| && Index(log[k]) != Index(log[k + 1])
    ensures Serial(cells, Swapped(log, k)) <==> Serial(cells, log)
    ensures After(cells, Swapped(log, k)) == After(cells, log)
  {
    assert Swapped(Swapped(log, k), k) == log;
    SwapBefore(cells, log, k, |log|);
    if Serial(cells, log) {
      SwapSerial(cells, log, k);
    }
    if Serial(cells, Swapped(log, k)) {
      SwapSerial(cells, Swapped(log, k), k);
    }
  }

  lemma SwapSerial(cells: seq<Cell>, log: seq<Event>, k: nat)
    requires |cells| == LINES && k + 1 < |log| && Index(log[k]) != Index(log[k + 1]) && Serial(cells, log)
    ensures Serial(cells, Swapped(log, k))
  {
    var swapped, before := Swapped(log, k), Before(cells, log, k);
    EventsCommute(before, log[k], log[k + 1]);
    assert LegalAt(cells, log, k) && LegalAt(cells, log, k + 1);
    forall j | 0 <= j < |log| ensures LegalAt(cells, swapped, j) {
      if j == k + 1 {
        SwapBefore(cells, log, k, k);
      } else {
        SwapBefore(cells, log, k, j);
        assert LegalAt(cells, log, j);
      }
    }
  }
}
