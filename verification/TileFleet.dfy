/** Any number of chips, as hardware, and a directory that serves one transaction at a time: one flat memory. */
module TileFleet {
  import opened Words
  import opened CacheLine
  import opened Directory
  import opened Coherence
  import opened FlatMemory
  import opened Runs
  import opened Sram
  import opened PortedArray
  import opened StackRuns
  import opened Controller
  import opened CellLog
  import opened Fleet
  import opened TileRuns
  import L = LinkRtl
  import S = Serialised

  /** The chips' memories as boot leaves them, and the emulated caches as they start. */
  lemma StartsAlike(n: nat)
    ensures Consistent(Init(n)) && Flat(Init(n)) == seq(WORDS, a => ZERO)
    ensures ArraysAre(seq(n, d => ZeroArray().cells), Init(n))
  {
    InitConsistent(n);
  }

  predicate Idle(x: Twin) {
    x.t.chip.cpu.st == CpuIdle && x.t.chip.snp.st == SnpIdle
  }

  predicate MemoryHolds(x: Twin, i: nat, cell: Cell)
    requires i < LINES
  {
    StackOk(x.t.chip.mem) && CellAt(x.t.chip.mem.mem, i) == cell
  }

  /** A chip's log is legal; and with neither machine at work, the memory itself holds what the log says. */
  lemma TwinLog(start: seq<Cell>, x: Twin, pins: L.Pins, i: nat)
    requires TwinOk(start, x, pins) && i < LINES
    ensures |start| == LINES && S.Serial(start, x.jobs)
    ensures Idle(x) ==> MemoryHolds(x, i, S.After(start, x.jobs)[i])
  {
    if Idle(x) {
      assert S.CellInv(x.p.l.chip, x.tx, i, S.After(start, x.jobs)[i], x.p.l.chip.mem.cells[i]);
      ReadsBack(x.t.chip.mem, x.p.l.chip.mem, i);
    }
  }

  /** What chip d of n should have done, from the empty system. */
  function History(n: nat, rounds: seq<Round>, d: nat): seq<S.Event>
    requires WellFormed(Init(n)) && AllServed(Init(n), rounds) && d < n
  {
    Expected(Init(n), seq(WORDS, a => ZERO), rounds, d)
  }

  /** The chips, each in a good state of a run from boot, and what the rounds ask of each. */
  ghost predicate Played(chips: seq<Twin>, pins: seq<L.Pins>, rounds: seq<Round>) {
    && |pins| == |chips| && WellFormed(Init(|chips|)) && AllServed(Init(|chips|), rounds)
    && forall d | 0 <= d < |chips| :: PlayedBy(chips[d], pins[d], |chips|, rounds, d)
  }

  ghost predicate PlayedBy(x: Twin, pins: L.Pins, n: nat, rounds: seq<Round>, d: nat)
    requires WellFormed(Init(n)) && AllServed(Init(n), rounds) && d < n
  {
    TwinOk(ZeroArray().cells, x, pins) && InTurn(x.jobs, History(n, rounds, d))
  }

  /**
   * On cell i the chip has done the first of what the emulated system does; all of it, and idle, its SRAM
   * holds the emulated line.
   */
  ghost predicate DidAsEmulated(x: Twin, n: nat, rounds: seq<Round>, d: nat, i: nat)
    requires WellFormed(Init(n)) && AllServed(Init(n), rounds) && d < n && i < LINES
  {
    var done, all := OnCell(x.jobs, i), OnCell(History(n, rounds, d), i);
    && done <= all
    && (|done| == |all| && Idle(x) ==> MemoryHolds(x, i, CellIn(Final(Init(n), rounds), d, i)))
  }

  lemma LogAsEmulated(log: seq<S.Event>, n: nat, rounds: seq<Round>, d: nat, i: nat)
    requires WellFormed(Init(n)) && AllServed(Init(n), rounds) && d < n && i < LINES
    requires S.Serial(ZeroArray().cells, log) && InTurn(log, History(n, rounds, d))
    ensures OnCell(log, i) <= OnCell(History(n, rounds, d), i)
    ensures |OnCell(log, i)| == |OnCell(History(n, rounds, d), i)| ==>
              S.After(ZeroArray().cells, log)[i] == CellIn(Final(Init(n), rounds), d, i)
  {
    StartsAlike(n);
    assert (seq(n, d => ZeroArray().cells))[d] == ZeroArray().cells;
    ChipCell(ZeroArray().cells, Init(n), log, rounds, d, i);
  }

  lemma OneChip(x: Twin, pins: L.Pins, n: nat, rounds: seq<Round>, d: nat, i: nat)
    requires WellFormed(Init(n)) && AllServed(Init(n), rounds) && d < n && i < LINES
    requires PlayedBy(x, pins, n, rounds, d)
    ensures DidAsEmulated(x, n, rounds, d, i)
  {
    TwinLog(ZeroArray().cells, x, pins, i);
    LogAsEmulated(x.jobs, n, rounds, d, i);
  }

  /**
   * For any number of chips, each the hardware itself in any run from boot, and any history served by the
   * directory: every finished transaction of every chip sent, acknowledged and returned what the emulated
   * system does, cell by cell, and its reads return the words of one flat memory (Fleet.ReadsLastWritten).
   */
  lemma ChipsAreFlat(chips: seq<Twin>, pins: seq<L.Pins>, rounds: seq<Round>)
    requires Played(chips, pins, rounds)
    ensures var s := Final(Init(|chips|), rounds);
            Consistent(s) && Flat(s) == FlatRounds(seq(WORDS, a => ZERO), rounds)
    ensures forall d, i | 0 <= d < |chips| && 0 <= i < LINES :: DidAsEmulated(chips[d], |chips|, rounds, d, i)
  {
    StartsAlike(|chips|);
    RoundsRefine(Init(|chips|), rounds);
    forall d, i | 0 <= d < |chips| && 0 <= i < LINES ensures DidAsEmulated(chips[d], |chips|, rounds, d, i) {
      OneChip(chips[d], pins[d], |chips|, rounds, d, i);
    }
  }
}
