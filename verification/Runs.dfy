/** Whole runs of the emulated system, its dead recovery branches, and witnesses of its departures. */
module Runs {
  import opened Words
  import opened Msi
  import opened CacheLine
  import opened Bitmask
  import opened Directory
  import opened Steps
  import opened Coherence
  import opened FlatMemory

  // ---- The initial system ----

  function InitialLine(i: nat): Line {
    Line((i / LINES) % TAGS, i % LINES, Invalid, ZERO)
  }

  function Init(cores: nat): System {
    System(seq(cores, c => seq(LINES, i requires 0 <= i => InitialLine(i))), map[], map[])
  }

  lemma InitConsistent(cores: nat)
    ensures Consistent(Init(cores))
    ensures Flat(Init(cores)) == seq(WORDS, a => ZERO)
  {
    var s := Init(cores);
    assert WellFormed(s);
    forall a: Addr ensures Exact(ViewOf(s, a)) && Clean(ViewOf(s, a)) {
      forall c: nat ensures !Bit(0, c) { BitOfZero(c); }
      assert forall c | 0 <= c < cores :: ViewOf(s, a).copies[c] == Absent;
    }
  }

  // ---- Runs ----

  predicate AllValid(s: System, ops: seq<Op>) {
    forall k | 0 <= k < |ops| :: Valid(s, ops[k])
  }

  predicate AllGranted(ops: seq<Op>) {
    forall k | 0 <= k < |ops| && ops[k].Evict? :: ops[k].granted
  }

  function Run(kind: Variant, s: System, ops: seq<Op>): System
    requires WellFormed(s) && AllValid(s, ops)
    decreases |ops|
  {
    if ops == [] then s
    else
      StepWellFormed(kind, s, ops[0]);
      Run(kind, Step(kind, s, ops[0]).next, ops[1..])
  }

  function Replies(kind: Variant, s: System, ops: seq<Op>): seq<Reply>
    requires WellFormed(s) && AllValid(s, ops)
    decreases |ops|
  {
    if ops == [] then []
    else
      StepWellFormed(kind, s, ops[0]);
      [Step(kind, s, ops[0]).reply] + Replies(kind, Step(kind, s, ops[0]).next, ops[1..])
  }

  /** Every step of the run is granted; as written, every step is also faithful. */
  ghost predicate Good(kind: Variant, s: System, ops: seq<Op>)
    requires WellFormed(s) && AllValid(s, ops)
    decreases |ops|
  {
    if ops == [] then true
    else
      StepWellFormed(kind, s, ops[0]);
      && Granted(s, ops[0])
      && (kind == AsIntended || Faithful(s, ops[0]))
      && Good(kind, Step(kind, s, ops[0]).next, ops[1..])
  }

  function FlatRun(mem: seq<Word>, ops: seq<Op>): (final: seq<Word>)
    requires |mem| == WORDS
    ensures |final| == WORDS
    decreases |ops|
  {
    if ops == [] then mem else FlatRun(FlatStep(mem, ops[0]), ops[1..])
  }

  /** The flat memory as it stands before operation k. */
  function FlatBefore(mem: seq<Word>, ops: seq<Op>, k: nat): (before: seq<Word>)
    requires |mem| == WORDS && k <= |ops|
    ensures |before| == WORDS
  {
    FlatRun(mem, ops[..k])
  }

  /** Operation k of a good run is answered, and a read with the word last written. */
  lemma {:induction false} RunAnswers(kind: Variant, s: System, ops: seq<Op>, k: nat)
    requires Consistent(s) && AllValid(s, ops) && Good(kind, s, ops) && k < |ops| && ops[k].Request?
    ensures |Replies(kind, s, ops)| == |ops|
    ensures Replies(kind, s, ops)[k].ready
    ensures ops[k].wstrb == NONE ==> Replies(kind, s, ops)[k].data == FlatBefore(Flat(s), ops, k)[ops[k].addr]
    decreases |ops|
  {
    StepWellFormed(kind, s, ops[0]);
    StepRefines(kind, s, ops[0]);
    OneReplyEach(kind, s, ops);
    if k > 0 {
      RunAnswers(kind, Step(kind, s, ops[0]).next, ops[1..], k - 1);
      FlatBeforeTail(Flat(s), ops, k);
    }
  }

  lemma {:induction false} OneReplyEach(kind: Variant, s: System, ops: seq<Op>)
    requires WellFormed(s) && AllValid(s, ops)
    ensures |Replies(kind, s, ops)| == |ops|
    decreases |ops|
  {
    if ops != [] {
      StepWellFormed(kind, s, ops[0]);
      OneReplyEach(kind, Step(kind, s, ops[0]).next, ops[1..]);
    }
  }

  /** A good run ends consistent, in the flat memory's final state. */
  lemma {:induction false} RunState(kind: Variant, s: System, ops: seq<Op>)
    requires Consistent(s) && AllValid(s, ops) && Good(kind, s, ops)
    ensures Consistent(Run(kind, s, ops))
    ensures Flat(Run(kind, s, ops)) == FlatRun(Flat(s), ops)
    decreases |ops|
  {
    if ops != [] {
      StepWellFormed(kind, s, ops[0]);
      StepRefines(kind, s, ops[0]);
      RunState(kind, Step(kind, s, ops[0]).next, ops[1..]);
    }
  }

  /**
   * For any number of caches and any interleaving, the system is one flat word memory: every
   * request is answered, every read returns the word last written, and coherence holds throughout.
   */
  lemma RunRefines(kind: Variant, s: System, ops: seq<Op>)
    requires Consistent(s) && AllValid(s, ops) && Good(kind, s, ops)
    ensures Consistent(Run(kind, s, ops))
    ensures Flat(Run(kind, s, ops)) == FlatRun(Flat(s), ops)
    ensures |Replies(kind, s, ops)| == |ops|
    ensures forall k | 0 <= k < |ops| && ops[k].Request? ::
              && Replies(kind, s, ops)[k].ready
              && (ops[k].wstrb == NONE ==> Replies(kind, s, ops)[k].data == FlatBefore(Flat(s), ops, k)[ops[k].addr])
  {
    RunState(kind, s, ops);
    OneReplyEach(kind, s, ops);
    forall k: nat | k < |ops| && ops[k].Request?
      ensures Replies(kind, s, ops)[k].ready
      ensures ops[k].wstrb == NONE ==> Replies(kind, s, ops)[k].data == FlatBefore(Flat(s), ops, k)[ops[k].addr]
    {
      RunAnswers(kind, s, ops, k);
    }
  }

  lemma FlatBeforeTail(mem: seq<Word>, ops: seq<Op>, k: nat)
    requires |mem| == WORDS && 0 < k <= |ops|
    ensures FlatBefore(mem, ops, k) == FlatBefore(FlatStep(mem, ops[0]), ops[1..], k - 1)
  {
    assert ops[..k][0] == ops[0] && ops[..k][1..] == ops[1..][..k - 1];
  }

  /** As intended, granting the evictions is all a run needs. */
  lemma {:induction false} IntendedRuns(s: System, ops: seq<Op>)
    requires Consistent(s) && AllValid(s, ops) && AllGranted(ops)
    ensures Good(AsIntended, s, ops)
    decreases |ops|
  {
    if ops != [] {
      StepWellFormed(AsIntended, s, ops[0]);
      StepRefines(AsIntended, s, ops[0]);
      IntendedRuns(Step(AsIntended, s, ops[0]).next, ops[1..]);
    }
  }

  /** Coherence alone survives every granted run, as written too. */
  lemma {:induction false} RunCoherent(kind: Variant, s: System, ops: seq<Op>)
    requires Coherent(s) && AllValid(s, ops) && AllGranted(ops)
    ensures Coherent(Run(kind, s, ops))
    decreases |ops|
  {
    if ops != [] {
      StepWellFormed(kind, s, ops[0]);
      StepCoherent(kind, s, ops[0]);
      RunCoherent(kind, Step(kind, s, ops[0]).next, ops[1..]);
    }
  }

  // ---- Splitting a request into its evict and its fill ----

  /** No other cache's step can put a wrong-tagged valid line where the tag check has passed. */
  lemma TagCheckStays(kind: Variant, s: System, op: Op, core: nat, a: Addr)
    requires WellFormed(s) && Valid(s, op) && core < |s.caches| && op.core != core
    requires !Mismatch(LineAt(s, core, a), a)
    ensures WellFormed(Step(kind, s, op).next) && |Step(kind, s, op).next.caches| == |s.caches|
    ensures !Mismatch(LineAt(Step(kind, s, op).next, core, a), a)
  {
    StepWellFormed(kind, s, op);
    EvictStepWellFormed(s, op.core, op.addr, true);
    var s1 := EvictStep(s, op.core, op.addr, true);
    if EvictMessage(LineAt(s, op.core, op.addr), op.addr).Some? {
      NeverFilled(s, op.core, EvictMessage(LineAt(s, op.core, op.addr), op.addr).value, ALL, core, a);
    }
    if op.Request? {
      var cmd := BusCommand(LineAt(s1, op.core, op.addr), op.wstrb != NONE);
      if cmd.Some? {
        NeverFilled(s1, op.core, Message(cmd.value, op.addr, ZERO), ReadStrobe(kind), core, a);
      }
    }
  }

  lemma NeverFilled(s: System, requester: nat, m: Message, wstrb: Strobe, core: nat, a: Addr)
    requires WellFormed(s) && requester < |s.caches| && core < |s.caches|
    requires !Mismatch(LineAt(s, core, a), a)
    ensures WellFormed(Handle(s, requester, m, wstrb).next)
    ensures |Handle(s, requester, m, wstrb).next.caches| == |s.caches|
    ensures !Mismatch(LineAt(Handle(s, requester, m, wstrb).next, core, a), a)
  {
    HandleWellFormed(s, requester, m, wstrb);
    HandleLocal(s, requester, m, wstrb);
    assert Snooped(s.caches[core], Handle(s, requester, m, wstrb).next.caches[core], m.addr);
  }

  /** Once the tag check has passed, a request is its fill alone. */
  lemma RequestAfterEvict(kind: Variant, s: System, op: Op)
    requires WellFormed(s) && Valid(s, op) && op.Request? && !Mismatch(LineAt(s, op.core, op.addr), op.addr)
    ensures Step(kind, s, op) == if op.wstrb == NONE then ReadFill(kind, s, op.core, op.addr)
                                 else WriteFill(kind, s, op.core, op.addr, op.data, op.wstrb)
  {}

  // ---- Recovery branches ----

  /** The error branches of the source: which of them handling `m` would enter. */
  ghost predicate Recovers(s: System, core: nat, m: Message)
    requires WellFormed(s)
  {
    var e := EntryAt(s, m.addr);
    var noOwner := e.state == Modified && (Owner(e) == None || Owner(e) == Some(core));
    var snooped := set c | 0 <= c < |s.caches| && c != core && Bit(e.sharers, c);
    match m.cmd
    case BusRd => noOwner || (e.state == Modified && Ghost(s, snooped, m.addr, {Modified}))
    case BusRdx => noOwner || Ghost(s, snooped, m.addr, {Shared, Modified})
    case BusUpgr => e.state != Shared || Ghost(s, snooped, m.addr, {Shared})
    case EvictClean => OrphanedOwner(e, core)
    case EvictDirty => OrphanedOwner(e, core)
  }

  /** Some snooped cache holds another address in the slot, or its line is in no expected state. */
  predicate Ghost(s: System, snooped: set<nat>, a: nat, expected: set<State>)
    requires WellFormed(s) && forall c <- snooped :: c < |s.caches|
  {
    exists c <- snooped :: LineAt(s, c, a).tag != TagOf(a) || LineAt(s, c, a).state !in expected
  }

  /** An entry that stays MODIFIED with sharers but no single owner after a sharer leaves. */
  predicate OrphanedOwner(e: Entry, core: nat) {
    var left := Entry(e.state, AndNot(e.sharers, Single(core)));
    left.sharers != 0 && left.state == Modified && Owner(left) == None
  }

  lemma SnoopedHold(v: View, core: nat, c: nat)
    requires Exact(v) && c < |v.copies| && Bit(v.entry.sharers, c)
    ensures v.copies[c].Present?
    ensures v.entry.state == Shared ==> v.copies[c].state == Shared
    ensures v.entry.state == Modified ==> v.copies[c].state == Modified && c == TheSharer(v.entry)
    ensures v.entry.state != Invalid
  {
    SingleWriter(v);
    if v.entry.state == Modified {
      ModifiedMask(v);
    }
  }

  /** In every coherent state the fill of any request avoids every recovery branch and is answered ready. */
  lemma FillNeverRecovers(kind: Variant, s: System, core: nat, a: Addr, isWrite: bool)
    requires Coherent(s) && core < |s.caches| && !Mismatch(LineAt(s, core, a), a)
    requires BusCommand(LineAt(s, core, a), isWrite).Some?
    ensures var m := Message(BusCommand(LineAt(s, core, a), isWrite).value, a, ZERO);
            !Recovers(s, core, m) && Handle(s, core, m, ReadStrobe(kind)).reply.ready
  {
    var v := ViewOf(s, a);
    assert Exact(v);
    SingleWriter(v);
    if v.entry.state == Modified {
      ModifiedMask(v);
    }
    forall c | 0 <= c < |s.caches| && Bit(v.entry.sharers, c)
      ensures Holds(LineAt(s, c, a), a) && LineAt(s, c, a).state == v.entry.state
    {
      SnoopedHold(v, core, c);
    }
    if LineAt(s, core, a).state == Shared {
      assert v.copies[core].Present?;
    } else {
      assert v.copies[core] == Absent;
    }
  }

  lemma NoOrphan(v: View, core: nat)
    requires Exact(v) && core < |v.copies| && v.copies[core].Present?
    ensures !OrphanedOwner(v.entry, core)
  {
    DropView(v, core);
  }

  /** In every coherent state an eviction names the address its line was filled for and leaves no orphan. */
  lemma EvictNeverRecovers(s: System, core: nat, a: Addr)
    requires Coherent(s) && core < |s.caches| && Mismatch(LineAt(s, core, a), a)
    ensures var m := EvictMessage(LineAt(s, core, a), a).value;
            && m.addr < WORDS && Holds(LineAt(s, core, a), m.addr)
            && !Recovers(s, core, m) && Handle(s, core, m, ALL).reply.ready
  {
    EvictedAddress(LineAt(s, core, a), a);
    var e := Victim(s, core, a);
    assert Exact(ViewOf(s, e)) && ViewOf(s, e).copies[core].Present?;
    NoOrphan(ViewOf(s, e), core);
  }

  // ---- Departures from the intent ----

  /** A refused evict still invalidates the line, and so breaks coherence exactly when there was one to evict. */
  lemma RefusedEvict(kind: Variant, s: System, core: nat, a: Addr)
    requires Coherent(s) && core < |s.caches|
    ensures WellFormed(Step(kind, s, Evict(core, a, false)).next)
    ensures Coherent(Step(kind, s, Evict(core, a, false)).next) <==> !Mismatch(LineAt(s, core, a), a)
  {
    var op := Evict(core, a, false);
    StepWellFormed(kind, s, op);
    if Mismatch(LineAt(s, core, a), a) {
      var s', e := Step(kind, s, op).next, Victim(s, core, a);
      EvictedAddress(LineAt(s, core, a), a);
      assert Exact(ViewOf(s, e)) && ViewOf(s, e).copies[core].Present?;
      assert ViewOf(s', e).entry == ViewOf(s, e).entry;
      assert ViewOf(s', e).copies[core] == Absent;
      assert !Exact(ViewOf(s', e));
    } else {
      StepCoherent(kind, s, op);
    }
  }

  lemma RunFirst(kind: Variant, s: System, op: Op, rest: seq<Op>)
    requires WellFormed(s) && Valid(s, op)
    requires WellFormed(Step(kind, s, op).next) && AllValid(Step(kind, s, op).next, rest)
    requires |Step(kind, s, op).next.caches| == |s.caches|
    ensures AllValid(s, [op] + rest)
    ensures Run(kind, s, [op] + rest) == Run(kind, Step(kind, s, op).next, rest)
  {
    forall k | 0 <= k < 1 + |rest| ensures Valid(s, ([op] + rest)[k]) {
      if k > 0 {
        assert Valid(Step(kind, s, op).next, rest[k - 1]);
      }
    }
    assert ([op] + rest)[1..] == rest;
  }

  /** The state after two requests of the code as written, both faithful. */
  lemma TwoRequests(cores: nat, first: Op, second: Op)
    requires first.Request? && second.Request? && first.core < cores && second.core < cores
    requires var s := Init(cores);
             WellFormed(s) && Faithful(s, first) && WellFormed(Step(AsWritten, s, first).next)
             && Valid(Step(AsWritten, s, first).next, second) && Faithful(Step(AsWritten, s, first).next, second)
    ensures var s, ops := Init(cores), [first, second];
            && WellFormed(s) && AllValid(s, ops) && Consistent(Run(AsWritten, s, ops))
            && Run(AsWritten, s, ops) == Step(AsWritten, Step(AsWritten, s, first).next, second).next
            && |Run(AsWritten, s, ops).caches| == cores
            && Flat(Run(AsWritten, s, ops)) == FlatStep(FlatStep(Flat(s), first), second)
  {
    InitConsistent(cores);
    var s := Init(cores);
    var s1 := Step(AsWritten, s, first).next;
    StepWellFormed(AsWritten, s, first);
    StepWellFormed(AsWritten, s1, second);
    StepRefines(AsWritten, s, first);
    StepRefines(AsWritten, s1, second);
    RunFirst(AsWritten, s1, second, []);
    RunFirst(AsWritten, s, first, [second]);
    assert [second] + [] == [second] && [first] + [second] == [first, second];
  }

  /** A word written, then pushed out to memory by another address in its slot. */
  const FETCH_OTHER := Request(0, 128, ZERO, NONE)
  const READ_ZERO := Request(0, 0, ZERO, NONE)

  /** One core has written a word. */
  lemma WrittenByZero(cores: nat, w: Word)
    requires cores > 0
    ensures var s, op := Init(cores), Request(0, 0, w, ALL);
            && Consistent(s) && Valid(s, op) && Faithful(s, op)
            && var s1 := Step(AsWritten, s, op).next;
               && Consistent(s1) && |s1.caches| == cores && Flat(s1)[0] == w
               && ViewOf(s1, 0).copies == seq(cores, c => if c == 0 then Present(Modified, w) else Absent)
               && ViewOf(s1, 128).mem == ZERO
  {
    var s, write := Init(cores), Request(0, 0, w, ALL);
    InitConsistent(cores);
    assert forall c | 0 <= c < cores :: ViewOf(s, 0).copies[c] == Absent;
    StepView(AsWritten, s, write, 0);
    StepView(AsWritten, s, write, 128);
    StepRefines(AsWritten, s, write);
    StepWellFormed(AsWritten, s, write);
  }

  lemma WrittenBack(s: System, w: Word)
    requires Consistent(s) && |s.caches| == 1 && ViewOf(s, 0).copies == [Present(Modified, w)]
    requires ViewOf(s, 128).mem == ZERO
    ensures Faithful(s, FETCH_OTHER) && Consistent(Step(AsWritten, s, FETCH_OTHER).next)
    ensures ViewOf(Step(AsWritten, s, FETCH_OTHER).next, 0) == View(Entry(Invalid, 0), w, [Absent])
  {
    assert Exact(ViewOf(s, 0)) && ViewOf(s, 0).copies[0] == CopyOf(LineAt(s, 0, 0), 0);
    EvictedAddress(LineAt(s, 0, 128), 128);
    StepRefines(AsWritten, s, FETCH_OTHER);
    StepView(AsWritten, s, FETCH_OTHER, 0);
    DropView(ViewOf(s, 0), 0);
    OwnerAlone(ViewOf(s, 0), 0);
  }

  lemma Erased(s: System, w: Word)
    requires w != ZERO && Consistent(s) && |s.caches| == 1 && ViewOf(s, 0) == View(Entry(Invalid, 0), w, [Absent])
    ensures Flat(s)[0] == w && Valid(s, READ_ZERO) && !Refines(AsWritten, s, READ_ZERO)
    ensures Step(AsWritten, s, READ_ZERO).reply.data == ZERO
    ensures WellFormed(Step(AsWritten, s, READ_ZERO).next) && ViewOf(Step(AsWritten, s, READ_ZERO).next, 0).mem == ZERO
  {
    StepView(AsWritten, s, READ_ZERO, 0);
    assert ViewOf(s, 0).copies[0] == CopyOf(LineAt(s, 0, 0), 0);
    StepRefines(AsWritten, s, READ_ZERO);
  }

  /** As written, a word written, evicted and read again comes back as zero, and is erased from memory. */
  lemma ReadErasesWord(w: Word)
    requires w != ZERO
    ensures var ops := [Request(0, 0, w, ALL), FETCH_OTHER];
            && WellFormed(Init(1)) && AllValid(Init(1), ops)
            && var s := Run(AsWritten, Init(1), ops);
               && Consistent(s) && Flat(s)[0] == w && Valid(s, READ_ZERO) && !Refines(AsWritten, s, READ_ZERO)
               && Step(AsWritten, s, READ_ZERO).reply.data == ZERO
               && WellFormed(Step(AsWritten, s, READ_ZERO).next)
               && ViewOf(Step(AsWritten, s, READ_ZERO).next, 0).mem == ZERO
  {
    WrittenByZero(1, w);
    WrittenBack(Step(AsWritten, Init(1), Request(0, 0, w, ALL)).next, w);
    TwoRequests(1, Request(0, 0, w, ALL), FETCH_OTHER);
    Erased(Run(AsWritten, Init(1), [Request(0, 0, w, ALL), FETCH_OTHER]), w);
  }

  const READ_BY_ONE := Request(1, 0, ZERO, NONE)

  /** The other reads it: both share it. */
  lemma SharedByBoth(s: System, w: Word)
    requires Consistent(s) && |s.caches| == 2 && ViewOf(s, 0).copies == [Present(Modified, w), Absent]
    ensures Faithful(s, READ_BY_ONE) && Consistent(Step(AsWritten, s, READ_BY_ONE).next)
    ensures ViewOf(Step(AsWritten, s, READ_BY_ONE).next, 0).copies == [Present(Shared, w), Present(Shared, w)]
  {
    assert Exact(ViewOf(s, 0));
    SingleWriter(ViewOf(s, 0));
    assert ViewOf(s, 0).copies[0].state == Modified;
    ModifiedMask(ViewOf(s, 0));
    StepRefines(AsWritten, s, READ_BY_ONE);
    StepView(AsWritten, s, READ_BY_ONE, 0);
  }

  /** As written, writing one lane of a word both cores share zeroes its other lanes. */
  lemma UpgradeZeroesLanes(w: Word, data: Word)
    requires w.b1 != 0
    ensures var ops := [Request(0, 0, w, ALL), READ_BY_ONE];
            && WellFormed(Init(2)) && AllValid(Init(2), ops)
            && var s, op := Run(AsWritten, Init(2), ops), Request(1, 0, data, Strobe(true, false, false, false));
               && Consistent(s) && Valid(s, op) && Flat(s)[0] == w
               && Refines(AsIntended, s, op) && !Refines(AsWritten, s, op)
  {
    WrittenByZero(2, w);
    SharedByBoth(Step(AsWritten, Init(2), Request(0, 0, w, ALL)).next, w);
    TwoRequests(2, Request(0, 0, w, ALL), READ_BY_ONE);
    MergeNone(w, ZERO);
    var s := Run(AsWritten, Init(2), [Request(0, 0, w, ALL), READ_BY_ONE]);
    var op := Request(1, 0, data, Strobe(true, false, false, false));
    assert ViewOf(s, 0).copies[1] == Present(Shared, w);
    StepRefines(AsIntended, s, op);
    StepRefines(AsWritten, s, op);
  }
}
