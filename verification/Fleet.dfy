/**
 * Any number of chips and a directory as one system. The chips give the logs of what they did, each legal
 * by itself; the directory serves one transaction at a time, as the emulated one does. Then every chip did
 * what the emulated system does, cell by cell, and together they are one flat memory.
 */
module Fleet {
  import opened Words
  import opened Msi
  import opened CacheLine
  import opened Directory
  import opened Steps
  import opened Coherence
  import opened FlatMemory
  import opened PortedArray
  import opened Transactions
  import opened CellLog
  import H = HandlerSteps
  import S = Serialised

  /** A transaction of one chip, in the order the directory serves them; `word` is the reply its chip received. */
  datatype Round = Round(core: nat, job: Job, word: Word)

  predicate RoundOk(s: System, r: Round) {
    r.core < |s.caches| && (r.job.Access? ==> r.job.addr < WORDS)
  }

  /** The emulated step of a round: an access is a request, a flush an eviction. */
  function OpOf(s: System, r: Round): Op
    requires WellFormed(s) && RoundOk(s, r)
  {
    match r.job
    case Access(addr, wdata, wstrb) => Request(r.core, addr, wdata, wstrb)
    case Flush(addr) => Evict(r.core, H.EvictorOf(LineAt(s, r.core, addr), addr), true)
  }

  function Next(s: System, r: Round): (s': System)
    requires WellFormed(s) && RoundOk(s, r)
    ensures WellFormed(s') && |s'.caches| == |s.caches|
  {
    StepWellFormed(AsIntended, s, OpOf(s, r));
    Step(AsIntended, s, OpOf(s, r)).next
  }

  /** The round's bus command, if it needs one, once its eviction is done. */
  function BusMessage(s: System, r: Round): Option<Message>
    requires WellFormed(s) && RoundOk(s, r)
  {
    match r.job
    case Access(addr, _, wstrb) =>
      var cmd := BusCommand(LineAt(AfterTagCheck(s, r.core, addr), r.core, addr), wstrb != NONE);
      if cmd.Some? then Some(Message(cmd.value, addr, ZERO)) else None
    case Flush(_) => None
  }

  /**
   * The directory's reply to a fetch is the word that came; and a write miss of less than a word finds the
   * stale lanes it does not write as the fetched word has them.
   */
  predicate Served(s: System, r: Round)
    requires WellFormed(s) && RoundOk(s, r)
  {
    var line := LineAt(s, r.core, r.job.addr);
    var cmd := Command(r.job, CellOf(line));
    && (cmd in {Some(BusRd), Some(BusRdx)} ==>
          r.word == H.ReplyWord(s, r.core, r.job.addr, r.job.wstrb != NONE))
    && (cmd == Some(BusRdx) ==> AgreeOutside(line.data, r.word, r.job.wstrb))
  }

  // ---- What each chip should do in a round ----

  /** The messages of the emulated step. */
  function RoundMessages(s: System, r: Round): seq<Message>
    requires WellFormed(s) && RoundOk(s, r)
  {
    match r.job
    case Access(addr, _, wstrb) => H.StepMessages(s, r.core, addr, wstrb != NONE)
    case Flush(addr) =>
      var line := LineAt(s, r.core, addr);
      var m := EvictMessage(line, H.EvictorOf(line, addr));
      if m.Some? then [m.value] else []
  }

  /** Its own transaction: the emulated messages, and the word of the flat memory. */
  function Done(s: System, mem: seq<Word>, r: Round): S.Event
    requires WellFormed(s) && RoundOk(s, r) && |mem| == WORDS
  {
    S.JobDone(r.job, r.word, Outs(RoundMessages(s, r)), if S.IsRead(r.job) then mem[r.job.addr] else ZERO)
  }

  /** The snoop chip d has in a round, if any. */
  function SnoopIn(s: System, r: Round, d: nat): Option<SnoopEvent>
    requires WellFormed(s) && RoundOk(s, r)
  {
    var m := BusMessage(s, r);
    if m == None then None else SnoopFor(AfterTagCheck(s, r.core, r.job.addr), r.core, m.value, d)
  }

  function Part(s: System, mem: seq<Word>, r: Round, d: nat): seq<S.Event>
    requires WellFormed(s) && RoundOk(s, r) && |mem| == WORDS && d < |s.caches|
  {
    if d == r.core then [Done(s, mem, r)]
    else match SnoopIn(s, r, d)
         case None => []
         case Some(event) =>
           [S.SnoopDone(r.job.addr, event, SnoopAck(CellOf(LineAt(s, d, r.job.addr)), r.job.addr, event))]
  }

  // ---- One round, one cell ----

  function CellIn(s: System, d: nat, i: nat): Cell
    requires WellFormed(s) && d < |s.caches| && i < LINES
  {
    CellOf(s.caches[d][i])
  }

  /** The round's own line, for an access. */
  lemma AccessCell(s: System, r: Round)
    requires Consistent(s) && RoundOk(s, r) && Served(s, r) && r.job.Access?
    ensures var cell, done := CellIn(s, r.core, IndexOf(r.job.addr)), Done(s, Flat(s), r);
            && S.LegalOn(cell, done)
            && S.EffectOn(cell, done) == CellIn(Next(s, r), r.core, IndexOf(r.job.addr))
  {
    var job, i := r.job, IndexOf(r.job.addr);
    var cell := CellIn(s, r.core, i);
    var cells := seq(LINES, j => cell);
    var result := RtlResult(job, cell, r.word);
    var ev := S.JobDone(job, r.word, AllOuts(job, cell), if S.IsRead(job) then result.data else ZERO);
    StepRefines(AsIntended, s, OpOf(s, r));
    assert S.Legal(cells, ev);
    H.EventIsStep(cells, ev, s, r.core);
    assert H.SameAsStep(s, r.core, ev, cell);
    assert ev == Done(s, Flat(s), r);
  }

  lemma FlushCell(s: System, r: Round)
    requires Consistent(s) && RoundOk(s, r) && r.job.Flush?
    ensures var cell, done := CellIn(s, r.core, IndexOf(r.job.addr)), Done(s, Flat(s), r);
            && S.LegalOn(cell, done)
            && S.EffectOn(cell, done) == CellIn(Next(s, r), r.core, IndexOf(r.job.addr))
  {
    H.FlushIsEvict(s, r.core, r.job.addr, r.word);
    assert Outs([]) == [];
  }

  /** The requester's other slots are not touched. */
  lemma OwnCache(s: System, r: Round, i: nat)
    requires WellFormed(s) && RoundOk(s, r) && i < LINES && i != IndexOf(r.job.addr)
    ensures CellIn(Next(s, r), r.core, i) == CellIn(s, r.core, i)
  {
    var core, op := r.core, OpOf(s, r);
    H.FlushTags(LineAt(s, core, r.job.addr), r.job.addr);
    EvictedOwn(s, core, op.addr);
    var s' := EvictStep(s, core, op.addr, true);
    var m := BusMessage(s, r);
    if m.Some? {
      OwnLineKept(s', core, m.value, ReadStrobe(AsIntended));
      HandleWellFormed(s', core, m.value, ReadStrobe(AsIntended));
    }
  }

  lemma EvictedOwn(s: System, core: nat, a: nat)
    requires WellFormed(s) && core < |s.caches|
    ensures WellFormed(EvictStep(s, core, a, true)) && |EvictStep(s, core, a, true).caches| == |s.caches|
    ensures forall i | 0 <= i < LINES && i != IndexOf(a) ::
              EvictStep(s, core, a, true).caches[core][i] == s.caches[core][i]
    ensures forall d | 0 <= d < |s.caches| && d != core :: EvictStep(s, core, a, true).caches[d] == s.caches[d]
  {
    EvictStepWellFormed(s, core, a, true);
    var m := EvictMessage(LineAt(s, core, a), a);
    if m.Some? {
      HandleWellFormed(s, core, m.value, ALL);
      OwnLineKept(s, core, m.value, ALL);
      forall d | 0 <= d < |s.caches| && d != core ensures Handle(s, core, m.value, ALL).next.caches[d] == s.caches[d] {
        SnoopsExactly(s, core, m.value, ALL, d);
      }
    }
  }

  /** Another chip's lines: what its snoop does, if it has one. */
  lemma OtherCache(s: System, r: Round, d: nat)
    requires WellFormed(s) && RoundOk(s, r) && d < |s.caches| && d != r.core
    ensures Next(s, r).caches[d]
         == match SnoopIn(s, r, d)
            case None => s.caches[d]
            case Some(event) => SnoopCache(s.caches[d], r.job.addr, event)
  {
    var core, op := r.core, OpOf(s, r);
    EvictedOwn(s, core, op.addr);
    var s' := EvictStep(s, core, op.addr, true);
    var m := BusMessage(s, r);
    if m.Some? {
      SnoopsExactly(s', core, m.value, ReadStrobe(AsIntended), d);
      HandleWellFormed(s', core, m.value, ReadStrobe(AsIntended));
    }
  }

  /** What a chip should do in a round is legal on each of its cells, and leaves it as the emulated step does. */
  lemma RoundCell(s: System, r: Round, d: nat, i: nat)
    requires Consistent(s) && RoundOk(s, r) && Served(s, r) && d < |s.caches| && i < LINES
    ensures var evs := OnCell(Part(s, Flat(s), r, d), i);
            && CellLegal(CellIn(s, d, i), evs)
            && CellEnd(CellIn(s, d, i), evs) == CellIn(Next(s, r), d, i)
  {
    var part := Part(s, Flat(s), r, d);
    if d == r.core {
      if i != IndexOf(r.job.addr) {
        OwnCache(s, r, i);
      } else if r.job.Access? {
        AccessCell(s, r);
      } else {
        FlushCell(s, r);
      }
    } else {
      OtherCache(s, r, d);
    }
    if part != [] {
      assert part == [part[0]];
      assert OnCell(part, i) == IfOn(part[0], i);
    }
  }

  // ---- Whole histories ----

  predicate AllServed(s: System, rounds: seq<Round>)
    requires WellFormed(s)
    decreases |rounds|
  {
    rounds != [] ==>
      RoundOk(s, rounds[0]) && Served(s, rounds[0]) && AllServed(Next(s, rounds[0]), rounds[1..])
  }

  function Final(s: System, rounds: seq<Round>): (s': System)
    requires WellFormed(s) && AllServed(s, rounds)
    ensures WellFormed(s') && |s'.caches| == |s.caches|
    decreases |rounds|
  {
    if rounds == [] then s else Final(Next(s, rounds[0]), rounds[1..])
  }

  /** An access writes its strobed lanes, a flush nothing. */
  function FlatRound(mem: seq<Word>, r: Round): (mem': seq<Word>)
    requires |mem| == WORDS
    ensures |mem'| == WORDS
  {
    if r.job.Access? && r.job.addr < WORDS
    then mem[r.job.addr := Merge(mem[r.job.addr], r.job.wdata, r.job.wstrb)] else mem
  }

  function FlatRounds(mem: seq<Word>, rounds: seq<Round>): (mem': seq<Word>)
    requires |mem| == WORDS
    ensures |mem'| == WORDS
    decreases |rounds|
  {
    if rounds == [] then mem else FlatRounds(FlatRound(mem, rounds[0]), rounds[1..])
  }

  /** All that chip d should do: its own transactions and its snoops, round by round. */
  function Expected(s: System, mem: seq<Word>, rounds: seq<Round>, d: nat): seq<S.Event>
    requires WellFormed(s) && AllServed(s, rounds) && |mem| == WORDS && d < |s.caches|
    decreases |rounds|
  {
    if rounds == [] then []
    else
      Part(s, mem, rounds[0], d) + Expected(Next(s, rounds[0]), FlatRound(mem, rounds[0]), rounds[1..], d)
  }

  lemma RoundRefines(s: System, r: Round)
    requires Consistent(s) && RoundOk(s, r)
    ensures Consistent(Next(s, r)) && Flat(Next(s, r)) == FlatRound(Flat(s), r)
  {
    StepRefines(AsIntended, s, OpOf(s, r));
  }

  lemma {:induction false} RoundsRefine(s: System, rounds: seq<Round>)
    requires Consistent(s) && AllServed(s, rounds)
    ensures Consistent(Final(s, rounds)) && Flat(Final(s, rounds)) == FlatRounds(Flat(s), rounds)
    decreases |rounds|
  {
    if rounds != [] {
      RoundRefines(s, rounds[0]);
      RoundsRefine(Next(s, rounds[0]), rounds[1..]);
    }
  }

  /** What a chip should do is legal on each of its cells, and leaves it as the emulated system does. */
  lemma {:induction false} ExpectedCell(s: System, rounds: seq<Round>, d: nat, i: nat)
    requires Consistent(s) && AllServed(s, rounds) && d < |s.caches| && i < LINES
    ensures var evs := OnCell(Expected(s, Flat(s), rounds, d), i);
            && CellLegal(CellIn(s, d, i), evs)
            && CellEnd(CellIn(s, d, i), evs) == CellIn(Final(s, rounds), d, i)
    decreases |rounds|
  {
    if rounds != [] {
      var s' := Next(s, rounds[0]);
      var now, later := Part(s, Flat(s), rounds[0], d), Expected(s', Flat(s'), rounds[1..], d);
      RoundRefines(s, rounds[0]);
      RoundCell(s, rounds[0], d, i);
      ExpectedCell(s', rounds[1..], d, i);
      OnCellAppend(now, later, i);
      CellLegalAppend(CellIn(s, d, i), OnCell(now, i), OnCell(later, i));
    }
  }

  /** How many events the rounds before k give chip d. */
  function Place(s: System, mem: seq<Word>, rounds: seq<Round>, k: nat, d: nat): nat
    requires WellFormed(s) && AllServed(s, rounds) && |mem| == WORDS && k < |rounds| && d < |s.caches|
    decreases k
  {
    if k == 0 then 0
    else
      |Part(s, mem, rounds[0], d)| + Place(Next(s, rounds[0]), FlatRound(mem, rounds[0]), rounds[1..], k - 1, d)
  }

  /**
   * Round k's own transaction stands at its place in its chip's history, and a read there returns the flat
   * memory's word as round k finds it: the word last written.
   */
  predicate AtItsPlace(s: System, mem: seq<Word>, rounds: seq<Round>, k: nat)
    requires WellFormed(s) && AllServed(s, rounds) && |mem| == WORDS && k < |rounds| && rounds[k].core < |s.caches|
  {
    var r := rounds[k];
    var history, at := Expected(s, mem, rounds, r.core), Place(s, mem, rounds, k, r.core);
    && at < |history| && history[at].JobDone? && history[at].job == r.job && history[at].word == r.word
    && (S.IsRead(r.job) ==>
          r.job.addr < WORDS && history[at].rdata == FlatRounds(mem, rounds[..k])[r.job.addr])
  }

  lemma {:induction false} ReadsLastWritten(s: System, mem: seq<Word>, rounds: seq<Round>, k: nat)
    requires WellFormed(s) && AllServed(s, rounds) && |mem| == WORDS && k < |rounds|
    ensures rounds[k].core < |s.caches| && AtItsPlace(s, mem, rounds, k)
    decreases k
  {
    CoreExists(s, rounds, k);
    if k == 0 {
      assert rounds[..0] == [];
    } else {
      ReadsLastWritten(Next(s, rounds[0]), FlatRound(mem, rounds[0]), rounds[1..], k - 1);
      OnePlaceOn(s, mem, rounds, k);
    }
  }

  lemma OnePlaceOn(s: System, mem: seq<Word>, rounds: seq<Round>, k: nat)
    requires WellFormed(s) && AllServed(s, rounds) && |mem| == WORDS && 0 < k < |rounds|
    requires rounds[k].core < |s.caches|
    requires AtItsPlace(Next(s, rounds[0]), FlatRound(mem, rounds[0]), rounds[1..], k - 1)
    ensures AtItsPlace(s, mem, rounds, k)
  {
    var s', mem', d := Next(s, rounds[0]), FlatRound(mem, rounds[0]), rounds[k].core;
    FlatPrefix(mem, rounds, k);
    FirstRound(s, mem, rounds, k, d);
    PastFirst(Part(s, mem, rounds[0], d), Expected(s', mem', rounds[1..], d), Place(s', mem', rounds[1..], k - 1, d));
  }

  lemma FirstRound(s: System, mem: seq<Word>, rounds: seq<Round>, k: nat, d: nat)
    requires WellFormed(s) && AllServed(s, rounds) && |mem| == WORDS && 0 < k < |rounds| && d < |s.caches|
    ensures var s', mem' := Next(s, rounds[0]), FlatRound(mem, rounds[0]);
            && Expected(s, mem, rounds, d) == Part(s, mem, rounds[0], d) + Expected(s', mem', rounds[1..], d)
            && Place(s, mem, rounds, k, d) == |Part(s, mem, rounds[0], d)| + Place(s', mem', rounds[1..], k - 1, d)
  {}

  lemma FlatPrefix(mem: seq<Word>, rounds: seq<Round>, k: nat)
    requires |mem| == WORDS && 0 < k <= |rounds|
    ensures FlatRounds(mem, rounds[..k]) == FlatRounds(FlatRound(mem, rounds[0]), rounds[1..][..k - 1])
  {
    assert rounds[..k][0] == rounds[0] && rounds[..k][1..] == rounds[1..][..k - 1];
  }

  lemma PastFirst(a: seq<S.Event>, b: seq<S.Event>, at: nat)
    requires at < |b|
    ensures |a| + at < |a + b| && (a + b)[|a| + at] == b[at]
  {}

  lemma {:induction false} CoreExists(s: System, rounds: seq<Round>, k: nat)
    requires WellFormed(s) && AllServed(s, rounds) && k < |rounds|
    ensures rounds[k].core < |s.caches|
    decreases k
  {
    if k > 0 {
      CoreExists(Next(s, rounds[0]), rounds[1..], k - 1);
    }
  }

  /** On each of its cells, the chip has been asked the first of what the rounds ask of it, in their order. */
  ghost predicate InTurn(log: seq<S.Event>, expected: seq<S.Event>) {
    forall i | 0 <= i < LINES :: Calls(OnCell(log, i)) <= Calls(OnCell(expected, i))
  }

  /** The chips' arrays are the emulated caches. */
  ghost predicate ArraysAre(arrays: seq<seq<Cell>>, s: System)
    requires WellFormed(s)
  {
    && |arrays| == |s.caches|
    && forall d | 0 <= d < |arrays| ::
         |arrays[d]| == LINES && forall i | 0 <= i < LINES :: arrays[d][i] == CellIn(s, d, i)
  }

  /**
   * For any number of chips and any history the directory serves: if each chip's own log is legal, and asks
   * of each cell what the rounds ask of it, then what each chip did to each cell is what the emulated
   * system does, its messages, its acknowledgements and the words it returned among it. Reads return the
   * word last written, by ReadsLastWritten; the system stays consistent; a cell that has had all its
   * rounds is the emulated line.
   */
  lemma FleetIsFlat(arrays: seq<seq<Cell>>, s: System, logs: seq<seq<S.Event>>, rounds: seq<Round>)
    requires Consistent(s) && AllServed(s, rounds) && ArraysAre(arrays, s) && |logs| == |arrays|
    requires forall d | 0 <= d < |logs| ::
               S.Serial(arrays[d], logs[d]) && InTurn(logs[d], Expected(s, Flat(s), rounds, d))
    ensures Consistent(Final(s, rounds)) && Flat(Final(s, rounds)) == FlatRounds(Flat(s), rounds)
    ensures forall d, i | 0 <= d < |logs| && 0 <= i < LINES ::
              OnCell(logs[d], i) <= OnCell(Expected(s, Flat(s), rounds, d), i)
    ensures forall d, i | 0 <= d < |logs| && 0 <= i < LINES ::
              |OnCell(logs[d], i)| == |OnCell(Expected(s, Flat(s), rounds, d), i)| ==>
                S.After(arrays[d], logs[d])[i] == CellIn(Final(s, rounds), d, i)
  {
    RoundsRefine(s, rounds);
    forall d, i | 0 <= d < |logs| && 0 <= i < LINES
      ensures OnCell(logs[d], i) <= OnCell(Expected(s, Flat(s), rounds, d), i)
      ensures |OnCell(logs[d], i)| == |OnCell(Expected(s, Flat(s), rounds, d), i)| ==>
                S.After(arrays[d], logs[d])[i] == CellIn(Final(s, rounds), d, i)
    {
      ChipCell(arrays[d], s, logs[d], rounds, d, i);
    }
  }

  lemma ChipCell(cells: seq<Cell>, s: System, log: seq<S.Event>, rounds: seq<Round>, d: nat, i: nat)
    requires Consistent(s) && AllServed(s, rounds) && d < |s.caches| && i < LINES
    requires |cells| == LINES && cells[i] == CellIn(s, d, i)
    requires S.Serial(cells, log) && InTurn(log, Expected(s, Flat(s), rounds, d))
    ensures OnCell(log, i) <= OnCell(Expected(s, Flat(s), rounds, d), i)
    ensures |OnCell(log, i)| == |OnCell(Expected(s, Flat(s), rounds, d), i)| ==>
              S.After(cells, log)[i] == CellIn(Final(s, rounds), d, i)
  {
    ExpectedCell(s, rounds, d, i);
    LogFollows(cells, log, i, OnCell(Expected(s, Flat(s), rounds, d), i));
  }
}
