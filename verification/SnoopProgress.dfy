/**
 * Every accepted snoop is acknowledged within a fixed number of cycles of the link's own latency,
 * whatever the processor does and even while the CPU machine waits for the directory.
 */
module SnoopProgress {
  import opened Words
  import opened Sram
  import opened PortedArray
  import opened Controller

  /** `stalled` counts the edges the registered request has been waiting for the link. */
  datatype Timed = Timed(chip: Chip<Ported>, stalled: nat)

  /** The link takes a registered request within `bound` edges. */
  predicate LinkFair(t: Timed, e: Env, bound: nat) {
    t.stalled < bound && (t.chip.arb.valid && t.stalled + 1 == bound ==> e.cacheReady)
  }

  function TimedNext(t: Timed, e: Env): Timed
    requires PortedOk(t.chip.mem)
  {
    Timed(Next(t.chip, e), if t.chip.arb.valid && !e.cacheReady then t.stalled + 1 else 0)
  }

  const ACCESS := LATENCY + 1

  /** Edges until the snoop port is free to be granted. */
  function PortWait(c: Chip<Ported>): nat
    requires PortedOk(c.mem)
  {
    match c.mem.txn
    case Some(t) => ACCESS - t.age
    case None => if c.mem.last == P1 && CpuPort(c.cpu).valid then 1 + ACCESS else 0
  }

  /** Edges until the acknowledgement crosses the link. */
  function LinkWait(t: Timed, bound: nat): int {
    match t.chip.arb.state
    case ArbIdle =>
      if CpuOut(t.chip.cpu).Some? && t.chip.arb.prefer == P0 then 2 * bound + 2 else bound + 1
    case Granted(p) =>
      if p == P1 then bound - t.stalled else 2 * bound + 1 - t.stalled
  }

  function AckBound(bound: nat): nat {
    2 * bound + 2
  }

  function UpdateBound(bound: nat): nat {
    (1 + ACCESS) + (1 + ACCESS) + AckBound(bound)
  }

  /** The ranking: phase of the snoop machine, then of the memory port, then of the link. */
  function Rank(t: Timed, bound: nat): int
    requires PortedOk(t.chip.mem)
  {
    var age := if t.chip.mem.txn.Some? then t.chip.mem.txn.value.age else 0;
    match t.chip.snp.st
    case SnpIdle => 0
    case SnpFetchReq => PortWait(t.chip) + 1 + ACCESS + 1 + UpdateBound(bound)
    case SnpFetchResp => ACCESS - age + 1 + UpdateBound(bound)
    case SnpEvent => 1 + UpdateBound(bound)
    case SnpUpdateReq => PortWait(t.chip) + 1 + ACCESS + AckBound(bound)
    case SnpUpdateResp => ACCESS - age + AckBound(bound)
    case SnpDone => LinkWait(t, bound)
  }

  lemma RankBound(t: Timed, bound: nat)
    requires Coordinated(t.chip) && t.stalled < bound && t.chip.snp.st != SnpIdle
    ensures 0 < Rank(t, bound) <= 2 * bound + 31
  {}

  /** Every edge with a fair link brings the acknowledgement nearer, until it is sent. */
  lemma RankFalls(t: Timed, e: Env, bound: nat)
    requires Coordinated(t.chip) && LinkFair(t, e, bound) && t.chip.snp.st != SnpIdle
    ensures PortedOk(Next(t.chip, e).mem)
    ensures !SnpSent(t.chip, e) ==>
              TimedNext(t, e).chip.snp.st != SnpIdle && Rank(TimedNext(t, e), bound) < Rank(t, bound)
  {
    var c := t.chip;
    MemoryInStep(c, e);
    if c.snp.st == SnpDone {
      LinkFalls(t, e, bound);
    } else {
      MemoryFalls(t, e, bound);
    }
  }

  lemma LinkFalls(t: Timed, e: Env, bound: nat)
    requires Coordinated(t.chip) && LinkFair(t, e, bound) && t.chip.snp.st == SnpDone
    ensures !SnpSent(t.chip, e) ==>
              && TimedNext(t, e).chip.snp.st == SnpDone
              && LinkWait(TimedNext(t, e), bound) < LinkWait(t, bound)
  {}

  lemma MemoryFalls(t: Timed, e: Env, bound: nat)
    requires Coordinated(t.chip) && LinkFair(t, e, bound) && t.chip.snp.st !in {SnpIdle, SnpDone}
    requires PortedOk(Next(t.chip, e).mem)
    ensures TimedNext(t, e).chip.snp.st != SnpIdle && Rank(TimedNext(t, e), bound) < Rank(t, bound)
  {
    CpuHandshakes(t.chip.cpu, e, CpuMem(t.chip), CpuSent(t.chip, e));
    SnpHandshakes(t.chip.snp, e, SnpMem(t.chip), SnpSent(t.chip, e));
  }

  ghost predicate FairThroughout(t: Timed, envs: seq<Env>, bound: nat)
    requires Coordinated(t.chip)
    decreases |envs|
  {
    if envs == [] then true
    else
      CoordinatedStep(t.chip, envs[0]);
      LinkFair(t, envs[0], bound) && FairThroughout(TimedNext(t, envs[0]), envs[1..], bound)
  }

  /** The edge of the run on which the snoop's acknowledgement crosses the link, if it does. */
  ghost predicate AckedWithin(t: Timed, envs: seq<Env>)
    requires Coordinated(t.chip)
    decreases |envs|
  {
    if envs == [] then false
    else
      CoordinatedStep(t.chip, envs[0]);
      || (SnpSent(t.chip, envs[0]) && t.chip.arb.msg == SnpOut(t.chip.snp).value)
      || AckedWithin(TimedNext(t, envs[0]), envs[1..])
  }

  lemma {:induction false} AckedInRank(t: Timed, envs: seq<Env>, bound: nat)
    requires Coordinated(t.chip) && t.chip.snp.st != SnpIdle && FairThroughout(t, envs, bound)
    requires t.stalled < bound && |envs| >= Rank(t, bound)
    ensures AckedWithin(t, envs)
    decreases |envs|
  {
    RankBound(t, bound);
    RankFalls(t, envs[0], bound);
    CoordinatedStep(t.chip, envs[0]);
    if !SnpSent(t.chip, envs[0]) {
      AckedInRank(TimedNext(t, envs[0]), envs[1..], bound);
    }
  }

  /** The same, of the controller over the byte-serial stack. */
  ghost predicate RawAckedWithin(r: Chip<Stack>, envs: seq<Env>)
    requires StackOk(r.mem)
    decreases |envs|
  {
    if envs == [] then false
    else
      || (SnpSent(r, envs[0]) && SnpOut(r.snp) == Some(r.arb.msg))
      || (StackOk(RawNext(r, envs[0]).mem) && RawAckedWithin(RawNext(r, envs[0]), envs[1..]))
  }

  lemma {:induction false} AckedInHardware(r: Chip<Stack>, t: Timed, envs: seq<Env>)
    requires Coordinated(t.chip) && Abstracts(r, t.chip) && AckedWithin(t, envs)
    ensures RawAckedWithin(r, envs)
    decreases |envs|
  {
    RawStep(r, t.chip, envs[0]);
    CoordinatedStep(t.chip, envs[0]);
    if !SnpSent(t.chip, envs[0]) {
      AckedInHardware(RawNext(r, envs[0]), TimedNext(t, envs[0]), envs[1..]);
    }
  }

  /**
   * Snoop progress: with a link that takes each request within `bound` edges, a snoop under way is
   * acknowledged within 2 * bound + 31 edges, for every behaviour of processor and directory.
   */
  lemma SnoopAcked(r: Chip<Stack>, t: Timed, envs: seq<Env>, bound: nat)
    requires Coordinated(t.chip) && t.chip.snp.st != SnpIdle && FairThroughout(t, envs, bound)
    requires t.stalled < bound && |envs| >= 2 * bound + 31 && Abstracts(r, t.chip)
    ensures AckedWithin(t, envs) && RawAckedWithin(r, envs)
  {
    RankBound(t, bound);
    AckedInRank(t, envs, bound);
    AckedInHardware(r, t, envs);
  }

  /** A snoop offered to an idle machine is taken at once, and acknowledged within one edge more. */
  lemma SnoopServed(r: Chip<Stack>, t: Timed, envs: seq<Env>, bound: nat)
    requires Coordinated(t.chip) && t.chip.snp.st == SnpIdle && FairThroughout(t, envs, bound)
    requires t.stalled < bound && |envs| >= 2 * bound + 32 && envs[0].snoopValid && Abstracts(r, t.chip)
    ensures SnoopTaken(t.chip.snp, envs[0]) && RawAckedWithin(r, envs)
  {
    CoordinatedStep(t.chip, envs[0]);
    RawStep(r, t.chip, envs[0]);
    SnoopAcked(RawNext(r, envs[0]), TimedNext(t, envs[0]), envs[1..], bound);
  }
}
