/**
 * The emulated system as one flat word memory: the effect of every step on every address, the
 * invariants over all steps and runs, and where the code as written departs from its intent.
 */
module FlatMemory {
  import opened Words
  import opened Msi
  import opened CacheLine
  import opened Bitmask
  import opened Directory
  import opened Steps
  import opened Coherence

  // ---- The effect of a cache step on the view of the address it concerns ----

  function AfterEvict(v: View, core: nat): View
    requires core < |v.copies|
  {
    var left := AndNot(v.entry.sharers, Single(core));
    View(Entry(if left == 0 then Invalid else Shared, left), Value(v), v.copies[core := Absent])
  }

  /** The word a read miss brings in. As written, memory is overwritten with zero unless an owner flushed. */
  function FetchedWord(kind: Variant, v: View): Word {
    if kind == AsWritten && v.entry.state != Modified then ZERO else Value(v)
  }

  /** The word a write merges into. As written, an upgrade starts from the zero of the reply. */
  function BaseWord(kind: Variant, v: View, core: nat): Word
    requires core < |v.copies|
  {
    match v.copies[core]
    case Absent => Value(v)
    case Present(state, data) => if state == Shared && kind == AsWritten then ZERO else data
  }

  function AfterRead(kind: Variant, v: View, core: nat): View
    requires core < |v.copies|
  {
    if v.copies[core].Present? then v
    else
      var w := FetchedWord(kind, v);
      View(Entry(Shared, Or(v.entry.sharers, Single(core))), w, Demoted(v.copies)[core := Present(Shared, w)])
  }

  function ReadResult(kind: Variant, v: View, core: nat): Word
    requires core < |v.copies|
  {
    if v.copies[core].Present? then v.copies[core].data else FetchedWord(kind, v)
  }

  function AfterWrite(kind: Variant, v: View, core: nat, data: Word, wstrb: Strobe): View
    requires core < |v.copies|
  {
    View(Entry(Modified, Single(core)),
         if v.copies[core].Present? then v.mem else Value(v),
         OnlyCore(v.copies, core)[core := Present(Modified, Merge(BaseWord(kind, v, core), data, wstrb))])
  }

  function AfterRequest(kind: Variant, v: View, core: nat, data: Word, wstrb: Strobe): View
    requires core < |v.copies|
  {
    if wstrb == NONE then AfterRead(kind, v, core) else AfterWrite(kind, v, core, data, wstrb)
  }

  // ---- The steps have these effects ----

  lemma SetLineView(s: System, core: nat, a: Addr, line: Line, b: Addr)
    requires WellFormed(s) && core < |s.caches| && InSlot(line, IndexOf(a))
    ensures WellFormed(SetLine(s, core, a, line))
    ensures ViewOf(SetLine(s, core, a, line), b)
         == if IndexOf(a) == IndexOf(b)
            then var v := ViewOf(s, b); v.(copies := v.copies[core := CopyOf(line, b)])
            else ViewOf(s, b)
  {}

  /** A line that has passed the tag check can be overwritten for `a` without moving another address. */
  lemma FillView(s: System, core: nat, a: Addr, line: Line, b: Addr)
    requires WellFormed(s) && core < |s.caches| && !Mismatch(LineAt(s, core, a), a)
    requires InSlot(line, IndexOf(a)) && Holds(line, a)
    ensures WellFormed(SetLine(s, core, a, line))
    ensures ViewOf(SetLine(s, core, a, line), b)
         == if a == b
            then var v := ViewOf(s, b); v.(copies := v.copies[core := Present(line.state, line.data)])
            else ViewOf(s, b)
  {
    SetLineView(s, core, a, line, b);
    SameSlotSameTag(a, b);
    if a != b && IndexOf(a) == IndexOf(b) {
      assert ViewOf(s, b).copies[core] == Absent;
    }
  }

  /** The address an evicted line is written back to is the one it was filled for. */
  lemma EvictedAddress(line: Line, a: Addr)
    requires InSlot(line, IndexOf(a))
    ensures AddrOf(line.tag, line.index) < WORDS
    ensures TagOf(AddrOf(line.tag, line.index)) == line.tag
    ensures IndexOf(AddrOf(line.tag, line.index)) == IndexOf(a)
    ensures forall b: Addr :: IndexOf(b) == IndexOf(a) && Holds(line, b) ==> b == AddrOf(line.tag, line.index)
  {
    forall b: Addr | IndexOf(b) == IndexOf(a) && Holds(line, b) ensures b == AddrOf(line.tag, line.index) {
      AddrSplit(b);
    }
  }

  function Victim(s: System, core: nat, a: Addr): (e: Addr)
    requires WellFormed(s) && core < |s.caches|
  {
    EvictedAddress(LineAt(s, core, a), a);
    AddrOf(LineAt(s, core, a).tag, LineAt(s, core, a).index)
  }

  lemma DropView(v: View, core: nat)
    requires Exact(v) && core < |v.copies| && v.copies[core].Present?
    ensures WithoutSharer(v.entry, core) == AfterEvict(v, core).entry
    ensures v.entry.state == Modified ==> AndNot(v.entry.sharers, Single(core)) == 0
    ensures v.copies[core].state == Shared ==> Value(v) == v.mem
    ensures v.copies[core].state == Modified ==> Value(v) == v.copies[core].data
  {
    SingleWriter(v);
    if v.entry.state == Modified {
      ModifiedMask(v);
      forall k: nat ensures Bit(AndNot(v.entry.sharers, Single(core)), k) <==> Bit(0, k) {
        BitOfAndNot(v.entry.sharers, Single(core), k);
        BitOfSingle(core, k);
        BitOfZero(k);
      }
      BitsDetermine(AndNot(v.entry.sharers, Single(core)), 0);
    } else {
      assert v.entry.state == Shared by { NoBits(v); }
    }
  }

  lemma EvictView(s: System, core: nat, a: Addr, b: Addr)
    requires Coherent(s) && core < |s.caches| && Mismatch(LineAt(s, core, a), a)
    ensures WellFormed(EvictStep(s, core, a, true))
    ensures ViewOf(EvictStep(s, core, a, true), b)
         == if b == Victim(s, core, a) then AfterEvict(ViewOf(s, b), core) else ViewOf(s, b)
  {
    EvictStepWellFormed(s, core, a, true);
    var line, e := LineAt(s, core, a), Victim(s, core, a);
    EvictedAddress(line, a);
    var m := EvictMessage(line, a).value;
    HandleWellFormed(s, core, m, ALL);
    var s' := Handle(s, core, m, ALL).next;
    SetLineView(s', core, a, line.(state := Invalid), b);
    if b == e {
      assert Exact(ViewOf(s, e));
      DropView(ViewOf(s, e), core);
    } else {
      HandleFrame(s, core, m, ALL, b);
      if IndexOf(b) == IndexOf(a) {
        assert ViewOf(s, b).copies[core] == Absent;
      }
    }
  }

  lemma ReadView(kind: Variant, s: System, core: nat, a: Addr, b: Addr)
    requires WellFormed(s) && Exact(ViewOf(s, a)) && core < |s.caches| && !Mismatch(LineAt(s, core, a), a)
    ensures WellFormed(ReadFill(kind, s, core, a).next)
    ensures ViewOf(ReadFill(kind, s, core, a).next, b)
         == if b == a then AfterRead(kind, ViewOf(s, a), core) else ViewOf(s, b)
    ensures ReadFill(kind, s, core, a).reply == Reply(true, ReadResult(kind, ViewOf(s, a), core))
  {
    var line, v := LineAt(s, core, a), ViewOf(s, a);
    if line.state == Invalid {
      var m := Message(BusRd, a, ZERO);
      HandleWellFormed(s, core, m, ReadStrobe(kind));
      var out := Handle(s, core, m, ReadStrobe(kind));
      BusReadView(s, core, a, ZERO, ReadStrobe(kind));
      if b != a {
        HandleFrame(s, core, m, ReadStrobe(kind), b);
      }
      OwnLineKept(s, core, m, ReadStrobe(kind));
      FillView(out.next, core, a, Fill(line, a, false, out.reply.data), b);
    }
  }

  lemma OwnerAlone(v: View, core: nat)
    requires Exact(v) && core < |v.copies| && v.copies[core].Present? && v.copies[core].state == Modified
    ensures v.entry == Entry(Modified, Single(core)) && TheSharer(v.entry) == core
    ensures OnlyCore(v.copies, core) == v.copies
  {
    SingleWriter(v);
    ModifiedMask(v);
    forall c | 0 <= c < |v.copies| ensures OnlyCore(v.copies, core)[c] == v.copies[c] {
      assert v.copies[c].Present? <==> c == core;
    }
  }

  lemma WriteView(kind: Variant, s: System, core: nat, a: Addr, data: Word, wstrb: Strobe, b: Addr)
    requires WellFormed(s) && Exact(ViewOf(s, a)) && core < |s.caches| && !Mismatch(LineAt(s, core, a), a)
    ensures WellFormed(WriteFill(kind, s, core, a, data, wstrb).next)
    ensures ViewOf(WriteFill(kind, s, core, a, data, wstrb).next, b)
         == if b == a then AfterWrite(kind, ViewOf(s, a), core, data, wstrb) else ViewOf(s, b)
    ensures WriteFill(kind, s, core, a, data, wstrb).reply.ready
  {
    var line := LineAt(s, core, a);
    if line.state == Modified {
      OwnerAlone(ViewOf(s, a), core);
      FillView(s, core, a, Store(line, data, wstrb), b);
    } else {
      WriteMissView(kind, s, core, a, data, wstrb, b);
    }
  }

  lemma WriteMissView(kind: Variant, s: System, core: nat, a: Addr, data: Word, wstrb: Strobe, b: Addr)
    requires WellFormed(s) && Exact(ViewOf(s, a)) && core < |s.caches| && !Mismatch(LineAt(s, core, a), a)
    requires LineAt(s, core, a).state != Modified
    ensures WellFormed(WriteFill(kind, s, core, a, data, wstrb).next)
    ensures ViewOf(WriteFill(kind, s, core, a, data, wstrb).next, b)
         == if b == a then AfterWrite(kind, ViewOf(s, a), core, data, wstrb) else ViewOf(s, b)
    ensures WriteFill(kind, s, core, a, data, wstrb).reply.ready
  {
    var line := LineAt(s, core, a);
    var cmd := if line.state == Shared then BusUpgr else BusRdx;
    var m := Message(cmd, a, ZERO);
    var out := Handle(s, core, m, ReadStrobe(kind));
    OwnershipView(s, core, a, cmd, ReadStrobe(kind), b);
    OwnLineKept(s, core, m, ReadStrobe(kind));
    var filled := Fill(line, a, true, FillWord(kind, cmd, line, out.reply.data));
    FillView(out.next, core, a, Store(filled, data, wstrb), b);
  }

  /** What a read-exclusive or an upgrade does to every address, before the fill. */
  lemma OwnershipView(s: System, core: nat, a: Addr, cmd: Cmd, wstrb: Strobe, b: Addr)
    requires WellFormed(s) && Exact(ViewOf(s, a)) && core < |s.caches| && !Mismatch(LineAt(s, core, a), a)
    requires LineAt(s, core, a).state != Modified
    requires cmd == if LineAt(s, core, a).state == Shared then BusUpgr else BusRdx
    ensures var out := Handle(s, core, Message(cmd, a, ZERO), wstrb);
            && WellFormed(out.next) && |out.next.caches| == |s.caches|
            && ViewOf(out.next, b) == (if b == a then EffectOwn(ViewOf(s, a), core) else ViewOf(s, b))
            && out.reply == Reply(true, if cmd == BusUpgr then ZERO else Value(ViewOf(s, a)))
            && (cmd == BusUpgr ==> ViewOf(s, a).entry.state == Shared)
  {
    var m := Message(cmd, a, ZERO);
    HandleWellFormed(s, core, m, wstrb);
    if cmd == BusUpgr {
      BusUpgradeView(s, core, a);
    } else {
      BusReadExclusiveView(s, core, a);
    }
    if b != a {
      HandleFrame(s, core, m, wstrb, b);
    }
  }

  // ---- One request as a whole: first the victim's address, then the requested one ----

  /** The view of `b` after a step: at most two addresses move. */
  ghost function ViewAfter(kind: Variant, s: System, op: Op, b: Addr): View
    requires Coherent(s) && Valid(s, op)
  {
    var evicts := Mismatch(LineAt(s, op.core, op.addr), op.addr) && (op.Request? || op.granted);
    if evicts && b == Victim(s, op.core, op.addr) then AfterEvict(ViewOf(s, b), op.core)
    else if op.Request? && b == op.addr then AfterRequest(kind, ViewOf(s, b), op.core, op.data, op.wstrb)
    else ViewOf(s, b)
  }

  lemma EvictedLine(s: System, core: nat, a: Addr)
    requires Coherent(s) && core < |s.caches|
    ensures WellFormed(EvictStep(s, core, a, true)) && |EvictStep(s, core, a, true).caches| == |s.caches|
    ensures !Mismatch(LineAt(EvictStep(s, core, a, true), core, a), a)
    ensures Mismatch(LineAt(s, core, a), a) ==> Victim(s, core, a) != a
    ensures ViewOf(EvictStep(s, core, a, true), a) == ViewOf(s, a)
  {
    EvictStepWellFormed(s, core, a, true);
    if Mismatch(LineAt(s, core, a), a) {
      EvictedAddress(LineAt(s, core, a), a);
      EvictView(s, core, a, a);
    }
  }

  /** Every step has exactly its described effect on every address, and every granted request is answered ready. */
  lemma StepView(kind: Variant, s: System, op: Op, b: Addr)
    requires Coherent(s) && Valid(s, op)
    requires op.Evict? && !op.granted ==> !Mismatch(LineAt(s, op.core, op.addr), op.addr)
    ensures WellFormed(Step(kind, s, op).next)
    ensures ViewOf(Step(kind, s, op).next, b) == ViewAfter(kind, s, op, b)
    ensures op.Request? ==> Step(kind, s, op).reply.ready
    ensures op.Request? && op.wstrb == NONE ==>
              Step(kind, s, op).reply.data == ReadResult(kind, ViewOf(s, op.addr), op.core)
  {
    StepWellFormed(kind, s, op);
    var core, a := op.core, op.addr;
    if Mismatch(LineAt(s, core, a), a) {
      EvictView(s, core, a, b);
    }
    if op.Request? {
      EvictedLine(s, core, a);
      var s' := EvictStep(s, core, a, true);
      assert Exact(ViewOf(s', a));
      if op.wstrb == NONE {
        ReadView(kind, s', core, a, b);
      } else {
        WriteView(kind, s', core, a, op.data, op.wstrb, b);
      }
    }
  }

  // ---- The invariants ----

  lemma EvictKeeps(v: View, core: nat)
    requires Exact(v) && core < |v.copies| && v.copies[core].Present?
    ensures Exact(AfterEvict(v, core))
    ensures Clean(v) ==> Clean(AfterEvict(v, core))
    ensures Value(AfterEvict(v, core)) == Value(v)
  {
    var v' := AfterEvict(v, core);
    forall c: nat ensures Bit(v'.entry.sharers, c) <==> c < |v'.copies| && v'.copies[c].Present? {
      BitOfAndNot(v.entry.sharers, Single(core), c);
      BitOfSingle(core, c);
    }
    if v.entry.state == Modified {
      DropView(v, core);
      ModifiedMask(v);
      NoSharers(v');
    }
  }

  lemma NoSharers(v: View)
    requires forall c: nat :: Bit(v.entry.sharers, c) <==> c < |v.copies| && v.copies[c].Present?
    requires forall c | 0 <= c < |v.copies| :: v.copies[c] == Absent
    ensures v.entry.sharers == 0
  {
    if v.entry.sharers != 0 {
      TopBit(v.entry.sharers);
    }
  }

  lemma ReadKeeps(kind: Variant, v: View, core: nat)
    requires Exact(v) && core < |v.copies|
    ensures Exact(AfterRead(kind, v, core))
  {
    var v' := AfterRead(kind, v, core);
    if v.copies[core] == Absent {
      forall c: nat ensures Bit(v'.entry.sharers, c) <==> c < |v'.copies| && v'.copies[c].Present? {
        BitOfOr(v.entry.sharers, Single(core), c);
        BitOfSingle(core, c);
      }
      BitOfOr(v.entry.sharers, Single(core), core);
      BitOfSingle(core, core);
      BitOfZero(core);
    }
  }

  lemma WriteKeeps(kind: Variant, v: View, core: nat, data: Word, wstrb: Strobe)
    requires Exact(v) && core < |v.copies|
    ensures Exact(AfterWrite(kind, v, core, data, wstrb)) && Clean(AfterWrite(kind, v, core, data, wstrb))
    ensures Value(AfterWrite(kind, v, core, data, wstrb)) == Merge(BaseWord(kind, v, core), data, wstrb)
  {
    forall c: nat ensures Bit(Single(core), c) <==> c == core {
      BitOfSingle(core, c);
    }
    BitLengthOfSingle(core);
  }

  /** Coherence is kept by every granted step, as written and as intended alike. */
  lemma StepCoherent(kind: Variant, s: System, op: Op)
    requires Coherent(s) && Valid(s, op)
    requires op.Evict? && !op.granted ==> !Mismatch(LineAt(s, op.core, op.addr), op.addr)
    ensures Coherent(Step(kind, s, op).next)
  {
    StepWellFormed(kind, s, op);
    forall b: Addr ensures Exact(ViewOf(Step(kind, s, op).next, b)) {
      StepView(kind, s, op, b);
      ViewKept(kind, s, op, b);
    }
  }

  lemma ViewKept(kind: Variant, s: System, op: Op, b: Addr)
    requires Coherent(s) && Valid(s, op)
    ensures Exact(ViewAfter(kind, s, op, b))
  {
    var v, line := ViewOf(s, b), LineAt(s, op.core, op.addr);
    assert Exact(v);
    EvictedAddress(line, op.addr);
    if Mismatch(line, op.addr) && b == Victim(s, op.core, op.addr) {
      EvictKeeps(v, op.core);
    }
    if op.Request? {
      ReadKeeps(kind, v, op.core);
      WriteKeeps(kind, v, op.core, op.data, op.wstrb);
    }
  }

  // ---- Refinement of one flat word memory ----

  function Flat(s: System): seq<Word>
    requires WellFormed(s)
  {
    seq(WORDS, a requires 0 <= a < WORDS => Value(ViewOf(s, a)))
  }

  function FlatStep(mem: seq<Word>, op: Op): seq<Word>
    requires |mem| == WORDS
  {
    if op.Request? then mem[op.addr := Merge(mem[op.addr], op.data, op.wstrb)] else mem
  }

  /** The step answers and changes the memory as one flat word memory would. */
  ghost predicate Refines(kind: Variant, s: System, op: Op)
    requires WellFormed(s) && Valid(s, op)
  {
    StepWellFormed(kind, s, op);
    var out := Step(kind, s, op);
    && Flat(out.next) == FlatStep(Flat(s), op)
    && (op.Request? ==> out.reply.ready)
    && (op.Request? && op.wstrb == NONE ==> out.reply.data == Flat(s)[op.addr])
  }

  /**
   * When the code as written does what it is meant to. A read must hit, or find an owner to flush,
   * or find the memory word zero already; an upgrade must strobe every lane that is not zero.
   */
  predicate Faithful(s: System, op: Op)
    requires WellFormed(s) && Valid(s, op)
  {
    op.Request? ==>
      var line := LineAt(s, op.core, op.addr);
      if op.wstrb == NONE then
        Holds(line, op.addr) || EntryAt(s, op.addr).state == Modified || MemRead(s.sram, op.addr) == ZERO
      else
        Holds(line, op.addr) && line.state == Shared ==> AgreeOutside(ZERO, line.data, op.wstrb)
  }

  /** An evict either reaches the directory or has nothing to do. */
  predicate Granted(s: System, op: Op)
    requires WellFormed(s) && Valid(s, op)
  {
    op.Evict? && !op.granted ==> !Mismatch(LineAt(s, op.core, op.addr), op.addr)
  }

  lemma MergeNone(base: Word, data: Word)
    ensures Merge(base, data, NONE) == base
  {}

  lemma HeldValue(v: View, core: nat)
    requires Exact(v) && Clean(v) && core < |v.copies| && v.copies[core].Present?
    ensures v.copies[core].data == Value(v)
  {
    SingleWriter(v);
    if v.entry.state == Modified {
      ModifiedMask(v);
    } else {
      NoBits(v);
    }
  }

  /** The requested address, before and after. */
  lemma RequestValue(kind: Variant, v: View, core: nat, data: Word, wstrb: Strobe)
    requires Exact(v) && Clean(v) && core < |v.copies|
    ensures wstrb == NONE ==>
              (ReadResult(kind, v, core) == Value(v) && Value(AfterRead(kind, v, core)) == Value(v) <==>
               kind == AsIntended || v.copies[core].Present? || v.entry.state == Modified || v.mem == ZERO)
    ensures wstrb != NONE ==>
              (Value(AfterWrite(kind, v, core, data, wstrb)) == Merge(Value(v), data, wstrb) <==>
               kind == AsIntended || (v.copies[core].Present? && v.copies[core].state == Shared
                                      ==> AgreeOutside(ZERO, v.copies[core].data, wstrb)))
    ensures ReadResult(kind, v, core) == Value(v) ==> Clean(AfterRead(kind, v, core))
  {
    WriteKeeps(kind, v, core, data, wstrb);
    if v.copies[core].Present? {
      HeldValue(v, core);
      MergeBases(ZERO, v.copies[core].data, data, wstrb);
    }
    forall c | 0 <= c < |v.copies| && v.copies[c].Present? ensures v.copies[c].data == Value(v) {
      HeldValue(v, c);
    }
  }

  /**
   * Every granted step refines the flat memory exactly when it is faithful; as intended it always
   * does. A refining step keeps every shared copy equal to memory.
   */
  lemma StepRefines(kind: Variant, s: System, op: Op)
    requires Consistent(s) && Valid(s, op) && Granted(s, op)
    ensures Refines(kind, s, op) <==> kind == AsIntended || Faithful(s, op)
    ensures Refines(kind, s, op) ==> Consistent(Step(kind, s, op).next)
  {
    StepWellFormed(kind, s, op);
    StepCoherent(kind, s, op);
    var core, a, s' := op.core, op.addr, Step(kind, s, op).next;
    var v := ViewOf(s, a);
    assert Exact(v) && Clean(v);
    EvictedAddress(LineAt(s, core, a), a);
    forall b: Addr
      ensures b != a ==> Flat(s')[b] == Flat(s)[b] && Clean(ViewOf(s', b))
    {
      StepView(kind, s, op, b);
      if b != a {
        OtherKept(kind, s, op, b);
      }
    }
    StepView(kind, s, op, a);
    if op.Request? {
      EvictedLine(s, core, a);
      RequestValue(kind, v, core, op.data, op.wstrb);
      WriteKeeps(kind, v, core, op.data, op.wstrb);
      MergeNone(Value(v), op.data);
      FlatAt(s, s', op);
    } else {
      assert Clean(ViewOf(s', a)) && Flat(s')[a] == Flat(s)[a] by { OtherKept(kind, s, op, a); }
      assert Flat(s') == Flat(s);
    }
  }

  lemma OtherKept(kind: Variant, s: System, op: Op, b: Addr)
    requires Consistent(s) && Valid(s, op) && (op.Evict? || b != op.addr)
    ensures Clean(ViewAfter(kind, s, op, b))
    ensures Value(ViewAfter(kind, s, op, b)) == Value(ViewOf(s, b))
  {
    var v, line := ViewOf(s, b), LineAt(s, op.core, op.addr);
    assert Exact(v) && Clean(v);
    EvictedAddress(line, op.addr);
    if Mismatch(line, op.addr) && b == Victim(s, op.core, op.addr) {
      EvictKeeps(v, op.core);
    }
  }

  /** When the other addresses keep their values, the flat memory is decided at the requested one. */
  lemma FlatAt(s: System, s': System, op: Op)
    requires WellFormed(s) && WellFormed(s') && op.Request?
    requires forall b: Addr | b != op.addr :: Flat(s')[b] == Flat(s)[b]
    ensures Flat(s') == FlatStep(Flat(s), op)
       <==> Value(ViewOf(s', op.addr)) == Merge(Value(ViewOf(s, op.addr)), op.data, op.wstrb)
  {
    var f, f' := FlatStep(Flat(s), op), Flat(s');
    assert forall b | 0 <= b < WORDS && b != op.addr :: f'[b] == f[b];
    assert f[op.addr] == Merge(Value(ViewOf(s, op.addr)), op.data, op.wstrb);
  }
}
