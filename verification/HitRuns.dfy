/**
 * Write hits as the emulator runs them: the hit is decided, every core meets at the arbiter, and only
 * then is the word stored, onto the line as it is by then. Other cores' steps fall in between.
 */
module HitRuns {
  import opened Words
  import opened Msi
  import opened CacheLine
  import opened Directory
  import opened Steps
  import opened Coherence
  import opened FlatMemory
  import Runs

  datatype Write = Write(addr: Addr, data: Word, wstrb: Strobe)

  /** `pending` are the hits decided and not yet stored, by core. */
  datatype Split = Split(sys: System, pending: map<nat, Write>)

  /** A whole step, as far as the core is not waiting; the decision of a hit; its store. */
  datatype Action = Whole(op: Op) | Decide(core: nat, write: Write) | Commit(core: nat)

  function CoreOf(x: Action): nat {
    if x.Whole? then x.op.core else x.core
  }

  predicate HoldsModified(s: System, core: nat, a: nat)
    requires WellFormed(s) && core < |s.caches|
  {
    Holds(LineAt(s, core, a), a) && LineAt(s, core, a).state == Modified
  }

  predicate Enabled(s: Split, x: Action)
    requires WellFormed(s.sys)
  {
    && CoreOf(x) < |s.sys.caches|
    && match x
       case Whole(op) => op.core !in s.pending
       case Decide(core, write) => core !in s.pending && write.wstrb != NONE && HoldsModified(s.sys, core, write.addr)
       case Commit(core) => core in s.pending
  }

  datatype Acted = Acted(next: Split, reply: Option<Reply>)

  function Act(kind: Variant, s: Split, x: Action): Acted
    requires WellFormed(s.sys) && Enabled(s, x)
  {
    match x
    case Whole(op) =>
      var out := Step(kind, s.sys, op);
      Acted(s.(sys := out.next), if op.Request? then Some(out.reply) else None)
    case Decide(core, write) => Acted(s.(pending := s.pending[core := write]), None)
    case Commit(core) =>
      var write := s.pending[core];
      Acted(Split(StoreHit(s.sys, core, write.addr, write.data, write.wstrb), s.pending - {core}),
            Some(Reply(true, ZERO)))
  }

  // ---- What other cores can do to a line meanwhile ----

  /** Same slot, tag and word; the state no higher than it was. */
  predicate OnlyLowered(before: Line, after: Line) {
    && after == before.(state := after.state)
    && (after.state == Modified ==> before.state == Modified)
    && (before.state == Invalid ==> after.state == Invalid)
  }

  lemma HandleLowers(s: System, requester: nat, m: Message, wstrb: Strobe, core: nat, i: nat)
    requires WellFormed(s) && requester < |s.caches| && core < |s.caches| && i < LINES
    ensures WellFormed(Handle(s, requester, m, wstrb).next)
    ensures |Handle(s, requester, m, wstrb).next.caches| == |s.caches|
    ensures OnlyLowered(s.caches[core][i], Handle(s, requester, m, wstrb).next.caches[core][i])
  {
    HandleWellFormed(s, requester, m, wstrb);
    HandleLocal(s, requester, m, wstrb);
    assert Snooped(s.caches[core], Handle(s, requester, m, wstrb).next.caches[core], m.addr);
  }

  /**
   * Another core's step leaves the tag and the word of every line of this one, and never raises its
   * state. So a read hit returns after the wait the word it was decided on.
   */
  lemma OthersOnlyLower(kind: Variant, s: System, op: Op, core: nat, i: nat)
    requires WellFormed(s) && Valid(s, op) && core < |s.caches| && op.core != core && i < LINES
    ensures WellFormed(Step(kind, s, op).next) && |Step(kind, s, op).next.caches| == |s.caches|
    ensures OnlyLowered(s.caches[core][i], Step(kind, s, op).next.caches[core][i])
  {
    StepWellFormed(kind, s, op);
    EvictStepWellFormed(s, op.core, op.addr, true);
    var s1 := EvictStep(s, op.core, op.addr, true);
    var evicted := EvictMessage(LineAt(s, op.core, op.addr), op.addr);
    if evicted.Some? {
      HandleLowers(s, op.core, evicted.value, ALL, core, i);
    }
    if op.Request? {
      var cmd := BusCommand(LineAt(s1, op.core, op.addr), op.wstrb != NONE);
      if cmd.Some? {
        HandleLowers(s1, op.core, Message(cmd.value, op.addr, ZERO), ReadStrobe(kind), core, i);
      }
    }
  }

  /** Another core's granted step takes a MODIFIED line's state exactly when it is a request for its address. */
  lemma StaysModified(kind: Variant, s: System, op: Op, core: nat, a: Addr)
    requires Coherent(s) && Valid(s, op) && Granted(s, op) && core < |s.caches| && op.core != core
    requires HoldsModified(s, core, a)
    ensures WellFormed(Step(kind, s, op).next) && |Step(kind, s, op).next.caches| == |s.caches|
    ensures HoldsModified(Step(kind, s, op).next, core, a) <==> !(op.Request? && op.addr == a)
  {
    StepWellFormed(kind, s, op);
    var v, s' := ViewOf(s, a), Step(kind, s, op).next;
    assert Exact(v) && v.copies[core].Present?;
    SingleWriter(v);
    EvictedAddress(LineAt(s, op.core, op.addr), op.addr);
    StepView(kind, s, op, a);
    assert v.copies[op.core] == Absent;
    assert ViewOf(s', a).copies[core] == CopyOf(LineAt(s', core, a), a);
  }

  // ---- The late store ----

  /** The view of the stored address: the copy takes the merge, if there still is one. */
  function Stored(v: View, core: nat, data: Word, wstrb: Strobe): View
    requires core < |v.copies|
  {
    var c := v.copies[core];
    if c == Absent then v else v.(copies := v.copies[core := Present(c.state, Merge(c.data, data, wstrb))])
  }

  /** Only the copy of the stored address can move, and only its word. */
  lemma LateStoreView(s: System, core: nat, a: Addr, data: Word, wstrb: Strobe, b: Addr)
    requires WellFormed(s) && core < |s.caches| && LineAt(s, core, a).tag == TagOf(a)
    ensures WellFormed(StoreHit(s, core, a, data, wstrb))
    ensures ViewOf(StoreHit(s, core, a, data, wstrb), b)
         == if a == b then Stored(ViewOf(s, b), core, data, wstrb) else ViewOf(s, b)
  {
    var line := LineAt(s, core, a);
    SetLineView(s, core, a, Store(line, data, wstrb), b);
    SameSlotSameTag(a, b);
    var v := ViewOf(s, b);
    if IndexOf(a) == IndexOf(b) {
      assert v.copies[core] == CopyOf(line, b);
      assert v.copies == v.copies[core := CopyOf(line, b)];
    }
  }

  /** On the stored address: what becomes of the value, and whether shared copies still equal memory. */
  lemma LateStoreValue(v: View, core: nat, data: Word, wstrb: Strobe)
    requires Exact(v) && Clean(v) && core < |v.copies|
    ensures var c, v' := v.copies[core], Stored(v, core, data, wstrb);
            && Exact(v')
            && Value(v') == (if c.Present? && c.state == Modified then Merge(Value(v), data, wstrb) else Value(v))
            && (Clean(v') <==> (c.Present? && c.state == Shared ==> Merge(Value(v), data, wstrb) == Value(v)))
  {
    SingleWriter(v);
    var v' := Stored(v, core, data, wstrb);
    if v.copies[core].Present? {
      HeldValue(v, core);
      assert v'.copies[core] == Present(v.copies[core].state, Merge(Value(v), data, wstrb));
      if v.entry.state == Modified {
        ModifiedMask(v);
      } else {
        assert forall c | 0 <= c < |v.copies| && c != core :: v'.copies[c] == v.copies[c];
      }
    }
  }

  /**
   * The store of a hit does what the write should exactly when the line is still MODIFIED, or when the
   * merge changes nothing. Coherence survives it always; shared copies keep equal to memory unless it
   * lands on a line that has become SHARED and changes it.
   */
  lemma LateStoreRefines(s: System, core: nat, a: Addr, data: Word, wstrb: Strobe)
    requires Consistent(s) && core < |s.caches| && LineAt(s, core, a).tag == TagOf(a)
    ensures WellFormed(StoreHit(s, core, a, data, wstrb)) && Coherent(StoreHit(s, core, a, data, wstrb))
    ensures Flat(StoreHit(s, core, a, data, wstrb)) == FlatStep(Flat(s), Request(core, a, data, wstrb))
       <==> HoldsModified(s, core, a) || Merge(Flat(s)[a], data, wstrb) == Flat(s)[a]
    ensures Consistent(StoreHit(s, core, a, data, wstrb))
       <==> (LineAt(s, core, a).state == Shared ==> Merge(Flat(s)[a], data, wstrb) == Flat(s)[a])
  {
    var s', v := StoreHit(s, core, a, data, wstrb), ViewOf(s, a);
    forall b: Addr
      ensures WellFormed(s') && Exact(ViewOf(s', b))
      ensures b != a ==> ViewOf(s', b) == ViewOf(s, b) && Clean(ViewOf(s', b))
    {
      LateStoreView(s, core, a, data, wstrb, b);
      assert Exact(ViewOf(s, b)) && Clean(ViewOf(s, b));
      LateStoreValue(v, core, data, wstrb) by { assert Exact(v) && Clean(v); }
    }
    LateStoreView(s, core, a, data, wstrb, a);
    assert Exact(v) && Clean(v);
    LateStoreValue(v, core, data, wstrb);
    forall b: Addr | b != a ensures Flat(s')[b] == Flat(s)[b] {}
    FlatAt(s, s', Request(core, a, data, wstrb));
    assert v.copies[core] == CopyOf(LineAt(s, core, a), a);
    assert Clean(ViewOf(s', a)) <==> forall b: Addr :: Clean(ViewOf(s', b));
  }

  /** Stored at once, a hit is the whole request. */
  lemma HitAtOnce(kind: Variant, s: Split, core: nat, w: Write)
    requires WellFormed(s.sys) && Enabled(s, Decide(core, w))
    ensures var decided := Act(kind, s, Decide(core, w)).next;
            && Enabled(decided, Commit(core))
            && Act(kind, decided, Commit(core)) == Act(kind, s, Whole(Request(core, w.addr, w.data, w.wstrb)))
  {
    var decided := Act(kind, s, Decide(core, w)).next;
    assert decided.pending - {core} == s.pending;
  }

  // ---- Single actions against the flat memory ----

  /** Waiting cores have the line they decided on in their slot, in whatever state. */
  predicate Waiting(s: Split)
    requires WellFormed(s.sys)
  {
    forall core <- s.pending ::
      core < |s.sys.caches| && LineAt(s.sys, core, s.pending[core].addr).tag == TagOf(s.pending[core].addr)
  }

  function FlatAct(mem: seq<Word>, s: Split, x: Action): (r: seq<Word>)
    requires |mem| == WORDS && (x.Commit? ==> x.core in s.pending)
    ensures |r| == WORDS
  {
    match x
    case Whole(op) => FlatStep(mem, op)
    case Decide(_, _) => mem
    case Commit(core) =>
      mem[s.pending[core].addr := Merge(mem[s.pending[core].addr], s.pending[core].data, s.pending[core].wstrb)]
  }

  ghost predicate ActRefinesFlat(kind: Variant, s: Split, x: Action)
    requires WellFormed(s.sys) && Enabled(s, x)
  {
    var acted := Act(kind, s, x);
    && WellFormed(acted.next.sys)
    && Flat(acted.next.sys) == FlatAct(Flat(s.sys), s, x)
    && (acted.reply.Some? ==> acted.reply.value.ready)
    && (x.Whole? && x.op.Request? && x.op.wstrb == NONE ==> acted.reply.value.data == Flat(s.sys)[x.op.addr])
  }

  /** When an action does what it should: a store, when its line is still MODIFIED or has nothing to change. */
  predicate OnTime(kind: Variant, s: Split, x: Action)
    requires WellFormed(s.sys) && Enabled(s, x)
  {
    match x
    case Whole(op) => kind == AsIntended || Faithful(s.sys, op)
    case Decide(_, _) => true
    case Commit(core) =>
      var w := s.pending[core];
      HoldsModified(s.sys, core, w.addr) || Merge(Flat(s.sys)[w.addr], w.data, w.wstrb) == Flat(s.sys)[w.addr]
  }

  predicate ActGranted(s: Split, x: Action)
    requires WellFormed(s.sys) && Enabled(s, x)
  {
    x.Whole? ==> Granted(s.sys, x.op)
  }

  lemma ActKeeps(kind: Variant, s: Split, x: Action)
    requires Coherent(s.sys) && Waiting(s) && Enabled(s, x) && ActGranted(s, x)
    ensures Coherent(Act(kind, s, x).next.sys) && Waiting(Act(kind, s, x).next)
    ensures |Act(kind, s, x).next.sys.caches| == |s.sys.caches|
  {
    var s' := Act(kind, s, x).next;
    match x
    case Whole(op) =>
      StepCoherent(kind, s.sys, op);
      StepWellFormed(kind, s.sys, op);
      forall core <- s'.pending
        ensures core < |s'.sys.caches|
        ensures LineAt(s'.sys, core, s'.pending[core].addr).tag == TagOf(s'.pending[core].addr)
      {
        OthersOnlyLower(kind, s.sys, op, core, IndexOf(s.pending[core].addr));
      }
    case Decide(_, _) =>
    case Commit(core) =>
      LateStoreCoherent(s.sys, core, s.pending[core].addr, s.pending[core].data, s.pending[core].wstrb);
  }

  lemma LateStoreCoherent(s: System, core: nat, a: Addr, data: Word, wstrb: Strobe)
    requires Coherent(s) && core < |s.caches| && LineAt(s, core, a).tag == TagOf(a)
    ensures Coherent(StoreHit(s, core, a, data, wstrb))
  {
    var s' := StoreHit(s, core, a, data, wstrb);
    forall b: Addr ensures WellFormed(s') && Exact(ViewOf(s', b)) {
      LateStoreView(s, core, a, data, wstrb, b);
      assert Exact(ViewOf(s, b));
    }
  }

  /** Every granted action refines the flat memory exactly when it is on time, and then keeps the invariants. */
  lemma ActRefines(kind: Variant, s: Split, x: Action)
    requires Consistent(s.sys) && Waiting(s) && Enabled(s, x) && ActGranted(s, x)
    ensures ActRefinesFlat(kind, s, x) <==> OnTime(kind, s, x)
    ensures ActRefinesFlat(kind, s, x) ==> Consistent(Act(kind, s, x).next.sys) && Waiting(Act(kind, s, x).next)
  {
    ActKeeps(kind, s, x);
    match x
    case Whole(op) => StepRefines(kind, s.sys, op);
    case Decide(_, _) =>
    case Commit(core) =>
      var w := s.pending[core];
      LateStoreRefines(s.sys, core, w.addr, w.data, w.wstrb);
  }

  // ---- Whole runs ----

  /** Every action of the run is enabled and granted when its turn comes. */
  ghost predicate Proper(kind: Variant, s: Split, xs: seq<Action>)
    requires Coherent(s.sys) && Waiting(s)
    decreases |xs|
  {
    if xs == [] then true
    else if !(Enabled(s, xs[0]) && ActGranted(s, xs[0])) then false
    else
      ActKeeps(kind, s, xs[0]);
      Proper(kind, Act(kind, s, xs[0]).next, xs[1..])
  }

  ghost predicate AllOnTime(kind: Variant, s: Split, xs: seq<Action>)
    requires Coherent(s.sys) && Waiting(s) && Proper(kind, s, xs)
    decreases |xs|
  {
    if xs == [] then true
    else
      ActKeeps(kind, s, xs[0]);
      OnTime(kind, s, xs[0]) && AllOnTime(kind, Act(kind, s, xs[0]).next, xs[1..])
  }

  /** Coherence survives every granted run, late stores and all. */
  ghost function RunActs(kind: Variant, s: Split, xs: seq<Action>): (end: Split)
    requires Coherent(s.sys) && Waiting(s) && Proper(kind, s, xs)
    ensures Coherent(end.sys) && Waiting(end) && |end.sys.caches| == |s.sys.caches|
    decreases |xs|
  {
    if xs == [] then s
    else
      ActKeeps(kind, s, xs[0]);
      RunActs(kind, Act(kind, s, xs[0]).next, xs[1..])
  }

  /** The flat memory after the run, every hit taking effect at its store. */
  ghost function FlatActs(kind: Variant, s: Split, mem: seq<Word>, xs: seq<Action>): (r: seq<Word>)
    requires Coherent(s.sys) && Waiting(s) && Proper(kind, s, xs) && |mem| == WORDS
    ensures |r| == WORDS
    decreases |xs|
  {
    if xs == [] then mem
    else
      ActKeeps(kind, s, xs[0]);
      FlatActs(kind, Act(kind, s, xs[0]).next, FlatAct(mem, s, xs[0]), xs[1..])
  }

  /** Every answer of the run is right: ready, and for a read the word of the flat memory at that point. */
  ghost predicate AnswersRight(kind: Variant, s: Split, mem: seq<Word>, xs: seq<Action>)
    requires Coherent(s.sys) && Waiting(s) && Proper(kind, s, xs) && |mem| == WORDS
    decreases |xs|
  {
    if xs == [] then true
    else
      ActKeeps(kind, s, xs[0]);
      var acted := Act(kind, s, xs[0]);
      && (acted.reply.Some? ==> acted.reply.value.ready)
      && (xs[0].Whole? && xs[0].op.Request? && xs[0].op.wstrb == NONE ==> acted.reply.value.data == mem[xs[0].op.addr])
      && AnswersRight(kind, acted.next, FlatAct(mem, s, xs[0]), xs[1..])
  }

  /**
   * For any number of caches and any interleaving, with other cores' steps between a hit and its store:
   * as long as every store is on time, the system is one flat word memory, and coherence holds throughout.
   */
  lemma {:induction false} RunRefines(kind: Variant, s: Split, xs: seq<Action>)
    requires Consistent(s.sys) && Waiting(s) && Proper(kind, s, xs) && AllOnTime(kind, s, xs)
    ensures Consistent(RunActs(kind, s, xs).sys)
    ensures Flat(RunActs(kind, s, xs).sys) == FlatActs(kind, s, Flat(s.sys), xs)
    ensures AnswersRight(kind, s, Flat(s.sys), xs)
    decreases |xs|
  {
    if xs != [] {
      ActRefines(kind, s, xs[0]);
      RunRefines(kind, Act(kind, s, xs[0]).next, xs[1..]);
    }
  }

  // ---- Which schedules are on time ----

  /** Some core other than `core` requests `a`. */
  predicate Requested(xs: seq<Action>, a: Addr) {
    exists k :: 0 <= k < |xs| && xs[k].Whole? && xs[k].op.Request? && xs[k].op.addr == a
  }

  predicate OthersOnly(xs: seq<Action>, core: nat) {
    forall k | 0 <= k < |xs| :: CoreOf(xs[k]) != core
  }

  /** One action of another core: a MODIFIED line is lost to a request for it alone, and does not come back. */
  lemma OtherActs(kind: Variant, s: Split, x: Action, core: nat, a: Addr)
    requires Coherent(s.sys) && Waiting(s) && Enabled(s, x) && ActGranted(s, x) && core in s.pending
    requires CoreOf(x) != core && a == s.pending[core].addr
    ensures var s' := Act(kind, s, x).next;
            && Coherent(s'.sys) && Waiting(s') && core in s'.pending && s'.pending[core] == s.pending[core]
            && (HoldsModified(s'.sys, core, a)
                <==> HoldsModified(s.sys, core, a) && !(x.Whole? && x.op.Request? && x.op.addr == a))
  {
    ActKeeps(kind, s, x);
    if x.Whole? {
      OthersOnlyLower(kind, s.sys, x.op, core, IndexOf(a));
      if HoldsModified(s.sys, core, a) {
        StaysModified(kind, s.sys, x.op, core, a);
      }
    }
  }

  /** A waiting hit's line is still MODIFIED after others' actions exactly when none requested its address. */
  lemma {:induction false} StillModified(kind: Variant, s: Split, xs: seq<Action>, core: nat, a: Addr)
    requires Coherent(s.sys) && Waiting(s) && Proper(kind, s, xs) && OthersOnly(xs, core)
    requires core in s.pending && a == s.pending[core].addr
    ensures var e := RunActs(kind, s, xs);
            && core in e.pending && e.pending[core] == s.pending[core]
            && (HoldsModified(e.sys, core, a) <==> HoldsModified(s.sys, core, a) && !Requested(xs, a))
    decreases |xs|
  {
    if xs != [] {
      assert CoreOf(xs[0]) != core;
      OtherActs(kind, s, xs[0], core, a);
      forall k | 0 <= k < |xs| - 1 ensures CoreOf(xs[1..][k]) != core {
        assert xs[1..][k] == xs[k + 1];
      }
      StillModified(kind, Act(kind, s, xs[0]).next, xs[1..], core, a);
      RequestedSplit(xs, a);
    }
  }

  /**
   * The race, exactly: a write hit does what it should if and only if no other core's request for its
   * address came between its decision and its store, or the merge changes nothing.
   */
  lemma HitRace(kind: Variant, s: Split, core: nat, w: Write, xs: seq<Action>)
    requires Consistent(s.sys) && Waiting(s) && Enabled(s, Decide(core, w)) && OthersOnly(xs, core)
    requires var d := Act(kind, s, Decide(core, w)).next;
             Coherent(d.sys) && Waiting(d) && Proper(kind, d, xs) && AllOnTime(kind, d, xs)
    ensures var e := RunActs(kind, Act(kind, s, Decide(core, w)).next, xs);
            && Enabled(e, Commit(core)) && e.pending[core] == w
            && (ActRefinesFlat(kind, e, Commit(core))
                <==> !Requested(xs, w.addr) || Merge(Flat(e.sys)[w.addr], w.data, w.wstrb) == Flat(e.sys)[w.addr])
  {
    var d := Act(kind, s, Decide(core, w)).next;
    var e := RunActs(kind, d, xs);
    RunRefines(kind, d, xs);
    StillModified(kind, d, xs, core, w.addr);
    ActRefines(kind, e, Commit(core));
  }

  lemma RequestedSplit(xs: seq<Action>, a: Addr)
    requires xs != []
    ensures Requested(xs, a)
       <==> (xs[0].Whole? && xs[0].op.Request? && xs[0].op.addr == a) || Requested(xs[1..], a)
  {
    if Requested(xs, a) {
      var k :| 0 <= k < |xs| && xs[k].Whole? && xs[k].op.Request? && xs[k].op.addr == a;
      assert k > 0 ==> xs[1..][k - 1] == xs[k];
    }
    if Requested(xs[1..], a) {
      var k :| 0 <= k < |xs| - 1 && xs[1..][k].Whole? && xs[1..][k].op.Request? && xs[1..][k].op.addr == a;
      assert xs[k + 1] == xs[1..][k];
    }
  }

  lemma {:induction false} LineFrozen(kind: Variant, s: Split, xs: seq<Action>, core: nat, i: nat)
    requires Coherent(s.sys) && Waiting(s) && Proper(kind, s, xs) && OthersOnly(xs, core)
    requires core < |s.sys.caches| && i < LINES
    ensures OnlyLowered(s.sys.caches[core][i], RunActs(kind, s, xs).sys.caches[core][i])
    decreases |xs|
  {
    if xs != [] {
      assert CoreOf(xs[0]) != core;
      ActKeeps(kind, s, xs[0]);
      if xs[0].Whole? {
        OthersOnlyLower(kind, s.sys, xs[0].op, core, i);
      }
      forall k | 0 <= k < |xs| - 1 ensures CoreOf(xs[1..][k]) != core {
        assert xs[1..][k] == xs[k + 1];
      }
      LineFrozen(kind, Act(kind, s, xs[0]).next, xs[1..], core, i);
    }
  }

  /** A read hit has no such race: after the wait its line has the word the flat memory had at the decision. */
  lemma ReadHitFrozen(kind: Variant, s: Split, xs: seq<Action>, core: nat, a: Addr)
    requires Consistent(s.sys) && Waiting(s) && Proper(kind, s, xs) && OthersOnly(xs, core)
    requires core < |s.sys.caches| && Holds(LineAt(s.sys, core, a), a)
    ensures LineAt(RunActs(kind, s, xs).sys, core, a).data == Flat(s.sys)[a]
  {
    LineFrozen(kind, s, xs, core, IndexOf(a));
    var v := ViewOf(s.sys, a);
    assert Exact(v) && Clean(v) && v.copies[core].Present?;
    HeldValue(v, core);
  }

  // ---- A lost write ----

  const READ_SAME := Request(0, 0, ZERO, NONE)

  const READ_THEN_STORE := [Whole(READ_SAME)] + [Commit(1)]

  function WriteAgain(data: Word, wstrb: Strobe): seq<Action> {
    [Decide(1, Write(0, data, wstrb))] + READ_THEN_STORE
  }

  /** Core 1 owns a word and writes it again; core 0 reads it while core 1 waits. */
  function LostWrite(w: Word, data: Word, wstrb: Strobe): seq<Action> {
    [Whole(Request(1, 0, w, ALL))] + WriteAgain(data, wstrb)
  }

  /** Core 1 has written address 0 and owns it. */
  lemma OwnedByOne(kind: Variant, w: Word)
    ensures var s, op := Runs.Init(2), Request(1, 0, w, ALL);
            && Consistent(s) && Valid(s, op)
            && var s1 := Step(kind, s, op).next;
               && Consistent(s1) && |s1.caches| == 2 && HoldsModified(s1, 1, 0)
               && ViewOf(s1, 0).copies == [Absent, Present(Modified, w)]
  {
    var s, write := Runs.Init(2), Request(1, 0, w, ALL);
    Runs.InitConsistent(2);
    assert ViewOf(s, 0).copies == [Absent, Absent];
    StepView(kind, s, write, 0);
    StepRefines(kind, s, write);
    StepWellFormed(kind, s, write);
    var s1 := Step(kind, s, write).next;
    assert ViewOf(s1, 0).copies[1] == CopyOf(LineAt(s1, 1, 0), 0);
  }

  /** Core 0 reads it: core 1 keeps the word, SHARED. */
  lemma SharedAfterRead(kind: Variant, s: System, w: Word)
    requires Consistent(s) && |s.caches| == 2 && ViewOf(s, 0).copies == [Absent, Present(Modified, w)]
    ensures var s2 := Step(kind, s, READ_SAME).next;
            && Consistent(s2) && |s2.caches| == 2 && Flat(s2)[0] == w
            && LineAt(s2, 1, 0).tag == TagOf(0) && LineAt(s2, 1, 0).state == Shared
  {
    assert Exact(ViewOf(s, 0));
    SingleWriter(ViewOf(s, 0));
    assert ViewOf(s, 0).copies[1].Present? && ViewOf(s, 0).copies[1].state == Modified;
    ModifiedMask(ViewOf(s, 0));
    StepView(kind, s, READ_SAME, 0);
    StepRefines(kind, s, READ_SAME);
    StepWellFormed(kind, s, READ_SAME);
    var s2 := Step(kind, s, READ_SAME).next;
    assert ViewOf(s2, 0).copies[1] == CopyOf(LineAt(s2, 1, 0), 0);
  }

  lemma ActsCons(kind: Variant, s: Split, x: Action, rest: seq<Action>, mem: seq<Word>)
    requires Coherent(s.sys) && Waiting(s) && Enabled(s, x) && ActGranted(s, x) && |mem| == WORDS
    requires var s' := Act(kind, s, x).next; Coherent(s'.sys) && Waiting(s') && Proper(kind, s', rest)
    ensures Proper(kind, s, [x] + rest)
    ensures RunActs(kind, s, [x] + rest) == RunActs(kind, Act(kind, s, x).next, rest)
    ensures FlatActs(kind, s, mem, [x] + rest) == FlatActs(kind, Act(kind, s, x).next, FlatAct(mem, s, x), rest)
  {
    assert ([x] + rest)[1..] == rest;
  }

  /** The run leaves `kept` at address 0 where the flat memory has `meant`, and the copies disagree with memory. */
  ghost predicate Lost(kind: Variant, s: Split, mem: seq<Word>, xs: seq<Action>, kept: Word, meant: Word)
    requires Coherent(s.sys) && Waiting(s) && |mem| == WORDS
  {
    && Proper(kind, s, xs)
    && Flat(RunActs(kind, s, xs).sys)[0] == kept && FlatActs(kind, s, mem, xs)[0] == meant
    && !Consistent(RunActs(kind, s, xs).sys)
  }

  /** Core 1's store lands on its SHARED line. */
  lemma LateOnShared(s: System, w: Word, data: Word, wstrb: Strobe)
    requires Consistent(s) && |s.caches| == 2 && Flat(s)[0] == w && Merge(w, data, wstrb) != w
    requires LineAt(s, 1, 0).tag == TagOf(0) && LineAt(s, 1, 0).state == Shared
    ensures Coherent(StoreHit(s, 1, 0, data, wstrb)) && !Consistent(StoreHit(s, 1, 0, data, wstrb))
    ensures Flat(StoreHit(s, 1, 0, data, wstrb))[0] == w
  {
    LateStoreRefines(s, 1, 0, data, wstrb);
    LateStoreView(s, 1, 0, data, wstrb, 0);
    assert Exact(ViewOf(s, 0)) && Clean(ViewOf(s, 0));
    LateStoreValue(ViewOf(s, 0), 1, data, wstrb);
    assert ViewOf(s, 0).copies[1] == CopyOf(LineAt(s, 1, 0), 0);
  }

  lemma LostAtStore(kind: Variant, s: Split, w: Word, data: Word, wstrb: Strobe, mem: seq<Word>)
    requires Merge(w, data, wstrb) != w && |mem| == WORDS && mem[0] == w
    requires Consistent(s.sys) && Waiting(s) && |s.sys.caches| == 2 && s.pending == map[1 := Write(0, data, wstrb)]
    requires Flat(s.sys)[0] == w && LineAt(s.sys, 1, 0).tag == TagOf(0) && LineAt(s.sys, 1, 0).state == Shared
    ensures Lost(kind, s, mem, [Commit(1)], w, Merge(w, data, wstrb))
  {
    LateOnShared(s.sys, w, data, wstrb);
    ActKeeps(kind, s, Commit(1));
    ActsCons(kind, s, Commit(1), [], mem);
    assert [Commit(1)] + [] == [Commit(1)];
  }

  lemma LostAfterRead(kind: Variant, s: Split, w: Word, data: Word, wstrb: Strobe, mem: seq<Word>)
    requires Merge(w, data, wstrb) != w && |mem| == WORDS && mem[0] == w
    requires Consistent(s.sys) && Waiting(s) && |s.sys.caches| == 2 && s.pending == map[1 := Write(0, data, wstrb)]
    requires ViewOf(s.sys, 0).copies == [Absent, Present(Modified, w)]
    ensures Lost(kind, s, mem, READ_THEN_STORE, w, Merge(w, data, wstrb))
  {
    var read := Whole(READ_SAME);
    SharedAfterRead(kind, s.sys, w);
    LostAtStore(kind, Act(kind, s, read).next, w, data, wstrb, FlatAct(mem, s, read)) by { MergeNone(w, ZERO); }
    ActsCons(kind, s, read, [Commit(1)], mem);
  }

  lemma LostAgain(kind: Variant, s: Split, w: Word, data: Word, wstrb: Strobe, mem: seq<Word>)
    requires wstrb != NONE && Merge(w, data, wstrb) != w && |mem| == WORDS && mem[0] == w
    requires Consistent(s.sys) && |s.sys.caches| == 2 && s.pending == map[] && HoldsModified(s.sys, 1, 0)
    requires ViewOf(s.sys, 0).copies == [Absent, Present(Modified, w)]
    ensures Waiting(s) && Lost(kind, s, mem, WriteAgain(data, wstrb), w, Merge(w, data, wstrb))
  {
    var decide := Decide(1, Write(0, data, wstrb));
    var s2 := Act(kind, s, decide).next;
    assert s2.pending == map[1 := Write(0, data, wstrb)];
    LostAfterRead(kind, s2, w, data, wstrb, mem);
    ActsCons(kind, s, decide, READ_THEN_STORE, mem);
  }

  /**
   * From the empty system, as written and as intended: the store comes after the read has made the line
   * SHARED; the flat word keeps its old value, and the copies disagree with memory.
   */
  lemma WriteLost(kind: Variant, w: Word, data: Word, wstrb: Strobe)
    requires wstrb != NONE && Merge(w, data, wstrb) != w
    ensures var s := Split(Runs.Init(2), map[]);
            && Coherent(s.sys) && Waiting(s)
            && Lost(kind, s, Flat(s.sys), LostWrite(w, data, wstrb), w, Merge(w, data, wstrb))
  {
    OwnedByOne(kind, w);
    var s0, write := Split(Runs.Init(2), map[]), Whole(Request(1, 0, w, ALL));
    var s1 := Act(kind, s0, write).next;
    LostAgain(kind, s1, w, data, wstrb, FlatAct(Flat(s0.sys), s0, write));
    ActsCons(kind, s0, write, WriteAgain(data, wstrb), Flat(s0.sys));
  }
}
