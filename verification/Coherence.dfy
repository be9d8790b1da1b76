/**
 * The protocol seen one address at a time, and the coherence invariant: single writer or many
 * readers, and a directory that knows exactly who holds what.
 */
module Coherence {
  import opened Words
  import opened Msi
  import opened CacheLine
  import opened Bitmask
  import opened Directory
  import opened Steps

  datatype Copy = Absent | Present(state: State, data: Word)

  /** Everything the system knows about one address. */
  datatype View = View(entry: Entry, mem: Word, copies: seq<Copy>)

  function CopyOf(line: Line, a: nat): Copy {
    if Holds(line, a) then Present(line.state, line.data) else Absent
  }

  function ViewOf(s: System, a: Addr): View
    requires WellFormed(s)
  {
    View(EntryAt(s, a), MemRead(s.sram, a),
         seq(|s.caches|, c requires 0 <= c < |s.caches| => CopyOf(LineAt(s, c, a), a)))
  }

  /** The only cache a one-bit mask names. */
  function TheSharer(e: Entry): nat {
    if e.sharers == 0 then 0 else
      TopBit(e.sharers);
      BitLength(e.sharers) - 1
  }

  ghost predicate Exact(v: View) {
    && (forall c: nat :: Bit(v.entry.sharers, c) <==> c < |v.copies| && v.copies[c].Present?)
    && (forall c | 0 <= c < |v.copies| && v.copies[c].Present? :: v.copies[c].state != Invalid)
    && match v.entry.state
       case Invalid => v.entry.sharers == 0
       case Shared =>
         && v.entry.sharers != 0
         && forall c | 0 <= c < |v.copies| && v.copies[c].Present? :: v.copies[c].state == Shared
       case Modified =>
         && var o := TheSharer(v.entry);
         && v.entry.sharers == Single(o)
         && o < |v.copies| && v.copies[o].Present? && v.copies[o].state == Modified
  }

  /** Every copy of an address in state SHARED is the memory word. */
  ghost predicate Clean(v: View) {
    v.entry.state == Shared ==>
      forall c | 0 <= c < |v.copies| && v.copies[c].Present? :: v.copies[c].data == v.mem
  }

  /** The current value of the address: the owner's word if there is one, else the memory word. */
  function Value(v: View): Word {
    var o := TheSharer(v.entry);
    if v.entry.state == Modified && o < |v.copies| && v.copies[o].Present? then v.copies[o].data else v.mem
  }

  ghost predicate Coherent(s: System) {
    WellFormed(s) && forall a: Addr :: Exact(ViewOf(s, a))
  }

  ghost predicate Consistent(s: System) {
    Coherent(s) && forall a: Addr :: Clean(ViewOf(s, a))
  }

  // ---- What the invariant says in the protocol's own words ----

  lemma ModifiedMask(v: View)
    requires Exact(v) && v.entry.state == Modified
    ensures forall c | 0 <= c < |v.copies| :: v.copies[c].Present? <==> c == TheSharer(v.entry)
    ensures Owner(v.entry) == Some(TheSharer(v.entry))
  {
    var o := TheSharer(v.entry);
    forall c | 0 <= c < |v.copies| ensures v.copies[c].Present? <==> c == o {
      BitOfSingle(o, c);
    }
    OneBitTest(v.entry.sharers);
  }

  lemma NoBits(v: View)
    requires Exact(v)
    ensures v.entry.sharers == 0 <==> forall c | 0 <= c < |v.copies| :: v.copies[c] == Absent
  {
    if v.entry.sharers == 0 {
      forall c | 0 <= c < |v.copies| ensures v.copies[c] == Absent {
        BitOfZero(c);
      }
    } else {
      TopBit(v.entry.sharers);
    }
  }

  /**
   * Single writer or many readers, and the entry's state in terms of the caches: INVALID iff no
   * cache holds the address, SHARED iff some do and all of them read-only, MODIFIED iff exactly
   * one holds it and may write.
   */
  lemma SingleWriter(v: View)
    requires Exact(v)
    ensures forall c, d | 0 <= c < |v.copies| && 0 <= d < |v.copies| ::
              v.copies[c].Present? && v.copies[d].Present? && v.copies[c].state == Modified ==> c == d
    ensures v.entry.state == Invalid <==> forall c | 0 <= c < |v.copies| :: v.copies[c] == Absent
    ensures v.entry.state == Shared <==>
              && (exists c :: 0 <= c < |v.copies| && v.copies[c].Present?)
              && (forall c | 0 <= c < |v.copies| && v.copies[c].Present? :: v.copies[c].state == Shared)
    ensures v.entry.state == Modified <==>
              exists c :: 0 <= c < |v.copies| && v.copies[c].Present? && v.copies[c].state == Modified
    ensures v.entry.state == Modified ==> Owner(v.entry) == Some(TheSharer(v.entry))
  {
    NoBits(v);
    if v.entry.state == Modified {
      ModifiedMask(v);
      assert v.copies[TheSharer(v.entry)].Present?;
    }
  }

  // ---- The effect of each directory transaction on the view of its address ----

  function Demoted(copies: seq<Copy>): seq<Copy> {
    seq(|copies|, c requires 0 <= c < |copies| =>
      if copies[c].Present? then Present(Shared, copies[c].data) else Absent)
  }

  function OnlyCore(copies: seq<Copy>, core: nat): seq<Copy> {
    seq(|copies|, c requires 0 <= c < |copies| => if c == core then copies[c] else Absent)
  }

  function EffectBusRead(v: View, core: nat, payload: Word, wstrb: Strobe): View {
    View(Entry(Shared, Or(v.entry.sharers, Single(core))),
         if v.entry.state == Modified then Value(v) else Merge(v.mem, payload, wstrb),
         Demoted(v.copies))
  }

  function EffectOwn(v: View, core: nat): View {
    View(Entry(Modified, Single(core)), Value(v), OnlyCore(v.copies, core))
  }

  lemma SnoopCopy(line: Line, a: Addr, b: Addr, event: SnoopEvent)
    requires InSlot(line, IndexOf(a)) && IndexOf(a) == IndexOf(b)
    ensures a != b ==> CopyOf(SnoopLine(line, a, event), b) == CopyOf(line, b)
    ensures CopyOf(line, a) == Absent ==>
              CopyOf(SnoopLine(line, a, event), a) == Absent
    ensures CopyOf(line, a).Present? && event == SnoopRd ==>
              CopyOf(SnoopLine(line, a, event), a) == Present(Shared, line.data)
    ensures CopyOf(line, a).Present? && event == SnoopRdx ==>
              CopyOf(SnoopLine(line, a, event), a) == Absent
    ensures CopyOf(line, a).Present? && event == SnoopUpgr && line.state == Shared ==>
              CopyOf(SnoopLine(line, a, event), a) == Absent
    ensures CopyOf(line, a).Present? && event != SnoopUpgr && line.state == Modified ==>
              SnoopData(line, a, event) == line.data
  {}

  /** A snoop moves no other address's copy. */
  lemma SnoopFrame(lines: seq<Line>, a: Addr, b: Addr, event: SnoopEvent)
    requires InSlots(lines) && a != b
    ensures CopyOf(SnoopCache(lines, a, event)[IndexOf(b)], b) == CopyOf(lines[IndexOf(b)], b)
  {}

  lemma HandleFrame(s: System, core: nat, m: Message, wstrb: Strobe, b: Addr)
    requires WellFormed(s) && core < |s.caches| && m.addr < WORDS && m.addr != b
    ensures WellFormed(Handle(s, core, m, wstrb).next)
    ensures ViewOf(Handle(s, core, m, wstrb).next, b) == ViewOf(s, b)
  {
    HandleLocal(s, core, m, wstrb);
    LocalView(s, Handle(s, core, m, wstrb).next, m.addr, b);
  }

  lemma LocalView(s: System, s': System, a: Addr, b: Addr)
    requires WellFormed(s) && LocalTo(s, s', a) && a != b
    ensures WellFormed(s')
    ensures ViewOf(s', b) == ViewOf(s, b)
  {
    LocalWellFormed(s, s', a);
    forall c | 0 <= c < |s.caches| ensures ViewOf(s', b).copies[c] == ViewOf(s, b).copies[c] {
      assert Snooped(s.caches[c], s'.caches[c], a);
      SnoopFrame(s.caches[c], a, b, SnoopRd);
      SnoopFrame(s.caches[c], a, b, SnoopRdx);
      SnoopFrame(s.caches[c], a, b, SnoopUpgr);
    }
  }

  lemma BusReadView(s: System, core: nat, a: Addr, payload: Word, wstrb: Strobe)
    requires WellFormed(s) && core < |s.caches|
    requires var v := ViewOf(s, a); Exact(v) && v.copies[core] == Absent
    ensures WellFormed(BusRead(s, core, a, payload, wstrb).next)
    ensures var v, out := ViewOf(s, a), BusRead(s, core, a, payload, wstrb);
            && ViewOf(out.next, a) == EffectBusRead(v, core, payload, wstrb)
            && out.reply.ready
            && out.reply.data == if v.entry.state == Modified then Value(v)
                                 else if wstrb == NONE then v.mem else ZERO
  {
    var v, out := ViewOf(s, a), BusRead(s, core, a, payload, wstrb);
    HandleWellFormed(s, core, Message(BusRd, a, payload), wstrb);
    match v.entry.state
    case Invalid =>
      BusReadInvalid(v, core);
      assert ViewOf(out.next, a).copies == Demoted(v.copies);
    case Shared =>
      assert ViewOf(out.next, a).copies == Demoted(v.copies);
    case Modified =>
      ModifiedMask(v);
      var o := TheSharer(v.entry);
      OwnerInRange(s, a);
      SnoopCopy(s.caches[o][IndexOf(a)], a, a, SnoopRd);
      OrSelf(v.entry.sharers, o);
      assert ViewOf(out.next, a).copies == Demoted(v.copies);
  }

  lemma BusReadInvalid(v: View, core: nat)
    requires Exact(v) && v.entry.state == Invalid
    ensures Or(v.entry.sharers, Single(core)) == Single(core)
    ensures Demoted(v.copies) == v.copies
  {
    NoBits(v);
    forall k: nat ensures Bit(Or(0, Single(core)), k) <==> Bit(Single(core), k) {
      BitOfOr(0, Single(core), k);
      BitOfZero(k);
    }
    BitsDetermine(Or(0, Single(core)), Single(core));
  }

  lemma OrSelf(m: nat, o: nat)
    requires Bit(m, o)
    ensures Or(m, Single(o)) == m
  {
    forall k: nat ensures Bit(Or(m, Single(o)), k) <==> Bit(m, k) {
      BitOfOr(m, Single(o), k);
      BitOfSingle(o, k);
    }
    BitsDetermine(Or(m, Single(o)), m);
  }

  lemma BusReadExclusiveView(s: System, core: nat, a: Addr)
    requires WellFormed(s) && core < |s.caches|
    requires var v := ViewOf(s, a); Exact(v) && v.copies[core] == Absent
    ensures WellFormed(BusReadExclusive(s, core, a).next)
    ensures var v, out := ViewOf(s, a), BusReadExclusive(s, core, a);
            && ViewOf(out.next, a) == EffectOwn(v, core)
            && out.reply == Reply(true, Value(v))
  {
    var v, out := ViewOf(s, a), BusReadExclusive(s, core, a);
    HandleWellFormed(s, core, Message(BusRdx, a, ZERO), NONE);
    match v.entry.state
    case Invalid =>
      NoBits(v);
      assert ViewOf(out.next, a).copies == v.copies;
      assert v.copies == OnlyCore(v.copies, core);
    case Shared =>
      forall c | 0 <= c < |s.caches|
        ensures ViewOf(out.next, a).copies[c] == OnlyCore(v.copies, core)[c]
      {
        SnoopCopy(s.caches[c][IndexOf(a)], a, a, SnoopRdx);
        assert Bit(v.entry.sharers, c) <==> v.copies[c].Present?;
      }
      assert ViewOf(out.next, a).copies == OnlyCore(v.copies, core);
    case Modified =>
      ModifiedMask(v);
      OwnerInRange(s, a);
      SnoopCopy(LineAt(s, TheSharer(v.entry), a), a, a, SnoopRdx);
      forall c | 0 <= c < |s.caches|
        ensures ViewOf(out.next, a).copies[c] == OnlyCore(v.copies, core)[c]
      {
        assert v.copies[c].Present? <==> c == TheSharer(v.entry);
      }
      assert ViewOf(out.next, a).copies == OnlyCore(v.copies, core);
  }

  lemma BusUpgradeView(s: System, core: nat, a: Addr)
    requires WellFormed(s) && core < |s.caches|
    requires var v := ViewOf(s, a); Exact(v) && v.copies[core].Present? && v.copies[core].state == Shared
    ensures WellFormed(BusUpgrade(s, core, a).next)
    ensures var v, out := ViewOf(s, a), BusUpgrade(s, core, a);
            && v.entry.state == Shared
            && ViewOf(out.next, a) == EffectOwn(v, core)
            && out.reply == Reply(true, ZERO)
            && out.next.caches[core] == s.caches[core]
  {
    var v, out := ViewOf(s, a), BusUpgrade(s, core, a);
    HandleWellFormed(s, core, Message(BusUpgr, a, ZERO), NONE);
    SingleWriter(v);
    forall c | 0 <= c < |s.caches| {
      SnoopCopy(s.caches[c][IndexOf(a)], a, a, SnoopUpgr);
    }
    assert ViewOf(out.next, a).copies == OnlyCore(v.copies, core);
  }
}
