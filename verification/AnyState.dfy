/**
 * The directory's transactions in any state it could be in, exact or not: the recovery branches included.
 * Sharers are told by their bits, lines by their state and tag.
 */
module AnyState {
  import opened Words
  import opened Msi
  import opened CacheLine
  import opened Bitmask
  import opened Directory
  import opened Steps

  ghost predicate Sole(e: Entry, owner: nat) {
    forall k: nat :: Bit(e.sharers, k) <==> k == owner
  }

  /** The owner is the one sharer of a MODIFIED entry; with no sharer, or several, there is none. */
  lemma OwnerIsSole(e: Entry, owner: nat)
    ensures Owner(e) == Some(owner) <==> e.state == Modified && Sole(e, owner)
  {
    if e.sharers == 0 {
      BitOfZero(owner);
      assert !Bit(e.sharers, owner);
    } else {
      OneBitTest(e.sharers);
      TopBit(e.sharers);
      forall k: nat ensures Bit(Single(owner), k) <==> k == owner { BitOfSingle(owner, k); }
      var top: nat := BitLength(e.sharers) - 1;
      forall k: nat ensures Bit(Single(top), k) <==> k == top { BitOfSingle(top, k); }
      BitLengthOfSingle(owner);
      if Sole(e, owner) {
        BitsDetermine(e.sharers, Single(owner));
      }
    }
  }

  /** Memory holds one word an address; the last address accepted is one past the end. */
  lemma MemoryWords(sram: map<nat, Word>, a: nat, b: nat, data: Word, wstrb: Strobe)
    ensures MemRead(map[], a) == ZERO
    ensures a > 2048 ==> MemRead(sram, a) == ZERO && MemWrite(sram, a, data, wstrb) == sram
    ensures a <= 2048 && a in sram ==> MemRead(sram, a) == sram[a]
    ensures MemRead(MemWrite(sram, a, data, wstrb), b)
         == if a == b && a <= 2048 then Merge(MemRead(sram, a), data, wstrb) else MemRead(sram, b)
  {}

  /** The word a cache gives up. */
  function Given(s: System, owner: nat, a: nat): Word
    requires WellFormed(s) && owner < |s.caches|
  {
    var line := s.caches[owner][IndexOf(a)];
    if line.state == Modified && line.tag == TagOf(a) then line.data else ZERO
  }

  /** Only this cache has been snooped. */
  ghost predicate OnlySnooped(s: System, s': System, a: nat, owner: nat, event: SnoopEvent)
    requires WellFormed(s) && owner < |s.caches|
  {
    s'.caches == s.caches[owner := SnoopCache(s.caches[owner], a, event)]
  }

  /** Another cache is the owner on record. */
  ghost predicate OwnedBy(s: System, core: nat, a: nat, owner: nat) {
    EntryAt(s, a).state == Modified && owner != core && Sole(EntryAt(s, a), owner)
  }

  lemma OwnersExist(s: System, a: nat, owner: nat)
    requires WellFormed(s) && Sole(EntryAt(s, a), owner)
    ensures owner < |s.caches|
  {
    EntryInRange(s, a);
    assert Bit(EntryAt(s, a).sharers, owner);
  }

  /**
   * A bus read, whatever the entry: answered ready, the entry SHARED with the requester added. With an owner on
   * record, its word goes to memory and is the reply; without, nobody is snooped, and a MODIFIED entry is
   * answered from memory and any other as the forwarded strobe has it.
   */
  lemma AnyBusRead(s: System, core: nat, a: nat, payload: Word, wstrb: Strobe)
    requires WellFormed(s) && core < |s.caches|
    ensures var e, out := EntryAt(s, a), BusRead(s, core, a, payload, wstrb);
            && out.reply.ready && a in out.next.entries && out.next.entries == s.entries[a := out.next.entries[a]]
            && out.next.entries[a].state == Shared
            && (forall k: nat :: Bit(out.next.entries[a].sharers, k)
                                 <==> k == core || (e.state != Invalid && Bit(e.sharers, k)))
            && (e.state != Modified ==>
                  && out.next.caches == s.caches
                  && out.next.sram == (if wstrb == NONE then s.sram else MemWrite(s.sram, a, payload, wstrb))
                  && out.reply.data == (if wstrb == NONE then MemRead(s.sram, a) else ZERO))
            && (e.state == Modified && (forall owner :: !OwnedBy(s, core, a, owner)) ==>
                  out.next.caches == s.caches && out.next.sram == s.sram && out.reply.data == MemRead(s.sram, a))
    ensures forall owner: nat | OwnedBy(s, core, a, owner) ::
              var out := BusRead(s, core, a, payload, wstrb);
              && owner < |s.caches| && OnlySnooped(s, out.next, a, owner, SnoopRd)
              && out.next.sram == MemWrite(s.sram, a, Given(s, owner, a), ALL)
              && out.reply.data == MemRead(out.next.sram, a)
  {
    var e := EntryAt(s, a);
    forall k: nat ensures Bit(Or(e.sharers, Single(core)), k) <==> Bit(e.sharers, k) || k == core {
      BitOfOr(e.sharers, Single(core), k);
      BitOfSingle(core, k);
    }
    forall k: nat ensures Bit(Single(core), k) <==> k == core { BitOfSingle(core, k); }
    forall owner: nat | OwnedBy(s, core, a, owner) ensures Owner(e) == Some(owner) && owner < |s.caches| {
      OwnerIsSole(e, owner);
      OwnersExist(s, a, owner);
      HandsOver(s.caches[owner][IndexOf(a)], a, SnoopRd);
    }
    if Owner(e).Some? {
      OwnerIsSole(e, Owner(e).value);
      OwnerInRange(s, a);
      OwnerJoins(e, Owner(e).value, core);
      assert Owner(e).value != core ==> OwnedBy(s, core, a, Owner(e).value);
    }
  }

  /** An owner joined to its own entry changes nothing. */
  lemma OwnerJoins(e: Entry, owner: nat, core: nat)
    requires Sole(e, owner)
    ensures forall k: nat :: Bit(Or(Or(e.sharers, Single(owner)), Single(core)), k) <==> k == core || Bit(e.sharers, k)
  {
    forall k: nat
      ensures Bit(Or(Or(e.sharers, Single(owner)), Single(core)), k) <==> k == core || Bit(e.sharers, k)
    {
      BitOfOr(Or(e.sharers, Single(owner)), Single(core), k);
      BitOfOr(e.sharers, Single(owner), k);
      BitOfSingle(owner, k);
      BitOfSingle(core, k);
    }
  }

  /** The requester alone is on record, as the owner. */
  ghost predicate NowOwns(s: System, s': System, a: nat, core: nat) {
    && a in s'.entries && s'.entries == s.entries[a := s'.entries[a]]
    && s'.entries[a].state == Modified && Sole(s'.entries[a], core)
  }

  /** Every other sharer has been snooped, and nobody else. */
  ghost predicate SharersSnooped(s: System, s': System, a: nat, core: nat, event: SnoopEvent)
    requires WellFormed(s)
  {
    && |s'.caches| == |s.caches|
    && forall d | 0 <= d < |s.caches| ::
         s'.caches[d] == if d != core && Bit(EntryAt(s, a).sharers, d) then SnoopCache(s.caches[d], a, event)
                         else s.caches[d]
  }

  /**
   * A read-exclusive, whatever the entry: refused, and nothing changed, exactly if the entry is MODIFIED with no other
   * owner on record; granted, the requester is the owner, and the reply the word memory has or the owner gives up.
   */
  lemma AnyBusReadExclusive(s: System, core: nat, a: nat)
    requires WellFormed(s) && core < |s.caches|
    ensures var e, out := EntryAt(s, a), BusReadExclusive(s, core, a);
            && (out.reply.ready <==> e.state != Modified || exists owner :: OwnedBy(s, core, a, owner))
            && (!out.reply.ready ==> out.next == s && out.reply.data == ZERO)
            && (out.reply.ready ==> NowOwns(s, out.next, a, core))
            && (e.state == Invalid ==> out.next.caches == s.caches)
            && (e.state == Shared ==> SharersSnooped(s, out.next, a, core, SnoopRdx))
            && (e.state != Modified ==> out.next.sram == s.sram && out.reply.data == MemRead(s.sram, a))
    ensures forall owner: nat | OwnedBy(s, core, a, owner) ::
              var out := BusReadExclusive(s, core, a);
              && owner < |s.caches| && OnlySnooped(s, out.next, a, owner, SnoopRdx)
              && out.next.sram == MemWrite(s.sram, a, Given(s, owner, a), ALL) && out.reply.data == Given(s, owner, a)
  {
    var e := EntryAt(s, a);
    forall k: nat ensures Bit(Single(core), k) <==> k == core { BitOfSingle(core, k); }
    forall owner: nat | OwnedBy(s, core, a, owner) ensures Owner(e) == Some(owner) && owner < |s.caches| {
      OwnerIsSole(e, owner);
      OwnersExist(s, a, owner);
      HandsOver(s.caches[owner][IndexOf(a)], a, SnoopRdx);
    }
    if Owner(e).Some? {
      OwnerIsSole(e, Owner(e).value);
      OwnerInRange(s, a);
      assert Owner(e).value != core ==> OwnedBy(s, core, a, Owner(e).value);
    }
  }

  /** An upgrade: of a SHARED entry the other copies go and no word is sent; any other is a read-exclusive. */
  lemma AnyBusUpgrade(s: System, core: nat, a: nat)
    requires WellFormed(s) && core < |s.caches|
    ensures var e, out := EntryAt(s, a), BusUpgrade(s, core, a);
            && (e.state == Shared ==>
                  && out.reply == Reply(true, ZERO) && NowOwns(s, out.next, a, core)
                  && out.next.sram == s.sram && SharersSnooped(s, out.next, a, core, SnoopUpgr))
            && (e.state != Shared ==> out == BusReadExclusive(s, core, a))
  {
    forall k: nat ensures Bit(Single(core), k) <==> k == core { BitOfSingle(core, k); }
  }

  ghost predicate Nobody(e: Entry) {
    forall k: nat :: !Bit(e.sharers, k)
  }

  ghost predicate HasSole(e: Entry) {
    exists owner: nat :: Sole(e, owner)
  }

  /** A sharer leaves: an entry left with none is INVALID, and a MODIFIED one left without a single owner SHARED. */
  lemma SharerLeaves(e: Entry, core: nat)
    ensures var left := WithoutSharer(e, core);
            && (forall k: nat :: Bit(left.sharers, k) <==> Bit(e.sharers, k) && k != core)
            && (Nobody(left) ==> left.state == Invalid)
            && (!Nobody(left) && e.state == Modified ==> left.state == if HasSole(left) then Modified else Shared)
            && (!Nobody(left) && e.state != Modified ==> left.state == e.state)
  {
    var left := WithoutSharer(e, core);
    forall k: nat ensures Bit(left.sharers, k) <==> Bit(e.sharers, k) && k != core {
      BitOfAndNot(e.sharers, Single(core), k);
      BitOfSingle(core, k);
    }
    if left.sharers == 0 {
      forall k: nat ensures !Bit(left.sharers, k) { BitOfZero(k); }
    } else {
      TopBit(left.sharers);
      assert Bit(left.sharers, BitLength(left.sharers) - 1);
      OwnerAmong(left.sharers, left);
    }
  }

  /**
   * An eviction, whatever the entry: the core leaves the sharers, and a dirty one puts its word in memory. It is
   * always ready, and no cache is snooped.
   */
  lemma AnyEviction(s: System, core: nat, a: nat, data: Word)
    ensures var out := EvictedClean(s, core, a);
            && out.reply == Reply(true, ZERO) && out.next.caches == s.caches && out.next.sram == s.sram
            && out.next.entries == s.entries[a := WithoutSharer(EntryAt(s, a), core)]
    ensures EvictedDirty(s, core, a, data)
         == var out := EvictedClean(s, core, a);
            out.(next := out.next.(sram := MemWrite(s.sram, a, data, ALL)))
  {}

  /** A MODIFIED entry of these sharers has an owner exactly if one of them is alone. */
  lemma OwnerAmong(sharers: nat, e: Entry)
    requires e.sharers == sharers
    ensures Owner(Entry(Modified, sharers)).Some? <==> HasSole(e)
  {
    var o := Owner(Entry(Modified, sharers));
    if o.Some? {
      OwnerIsSole(Entry(Modified, sharers), o.value);
      assert Sole(e, o.value);
    }
    forall owner: nat | Sole(e, owner) ensures o == Some(owner) {
      assert Sole(Entry(Modified, sharers), owner);
      OwnerIsSole(Entry(Modified, sharers), owner);
    }
  }

  /** A snoop of a cache is a snoop of the address's slot. */
  lemma SnoopsSlot(lines: seq<Line>, a: nat, event: SnoopEvent, i: nat)
    requires InSlots(lines) && i < LINES
    ensures |SnoopCache(lines, a, event)| == LINES
    ensures SnoopCache(lines, a, event)[i] == if i == a % 128 then SnoopLine(lines[i], a, event) else lines[i]
  {}

  /** Each command does its own transaction. */
  lemma EachItsOwn(s: System, core: nat, a: nat, data: Word, wstrb: Strobe)
    requires WellFormed(s) && core < |s.caches|
    ensures Handle(s, core, Message(BusRd, a, data), wstrb) == BusRead(s, core, a, data, wstrb)
    ensures Handle(s, core, Message(BusRdx, a, data), wstrb) == BusReadExclusive(s, core, a)
    ensures Handle(s, core, Message(BusUpgr, a, data), wstrb) == BusUpgrade(s, core, a)
    ensures Handle(s, core, Message(EvictClean, a, data), wstrb) == EvictedClean(s, core, a)
    ensures Handle(s, core, Message(EvictDirty, a, data), wstrb) == EvictedDirty(s, core, a, data)
  {}

  // ---- What a cache does with the answer ----

  /** An eviction phase, in any state: the message if granted, and the slot INVALID either way. */
  lemma AnyEvictStep(s: System, core: nat, a: nat)
    requires WellFormed(s) && core < |s.caches|
    ensures var line := LineAt(s, core, a);
            var victim, cmd := line.tag * 128 + line.index, if line.state == Modified then EvictDirty else EvictClean;
            var out := Handle(s, core, Message(cmd, victim, line.data), ALL);
            && WellFormed(out.next) && |out.next.caches| == |s.caches|
            && (if line.state == Invalid || line.tag == TagOf(a) then
                  EvictStep(s, core, a, true) == EvictStep(s, core, a, false) == s
                else
                  && EvictStep(s, core, a, true) == SetLine(out.next, core, a, line.(state := Invalid))
                  && EvictStep(s, core, a, false) == SetLine(s, core, a, line.(state := Invalid)))
  {
    var line := LineAt(s, core, a);
    var m := Message(if line.state == Modified then EvictDirty else EvictClean, line.tag * 128 + line.index, line.data);
    HandleWellFormed(s, core, m, ALL);
    OwnLineKept(s, core, m, ALL);
  }

  /** A refused fill leaves the caches to the directory and is answered not ready. */
  lemma RefusedFill(v: Variant, s: System, core: nat, a: nat, data: Word, wstrb: Strobe, isWrite: bool)
    requires WellFormed(s) && core < |s.caches| && BusCommand(LineAt(s, core, a), isWrite).Some?
    requires var m := Message(BusCommand(LineAt(s, core, a), isWrite).value, a, ZERO);
             !Handle(s, core, m, ReadStrobe(v)).reply.ready
    ensures var out := Handle(s, core, Message(BusCommand(LineAt(s, core, a), isWrite).value, a, ZERO), ReadStrobe(v));
            && (!isWrite ==> ReadFill(v, s, core, a) == out)
            && (isWrite ==> WriteFill(v, s, core, a, data, wstrb) == Outcome(out.next, Reply(false, ZERO)))
  {}

  /** A write's answer carries no word. */
  lemma WritesAnswerNothing(v: Variant, s: System, core: nat, a: nat, data: Word, wstrb: Strobe)
    requires WellFormed(s) && core < |s.caches|
    ensures CpuWrite(v, s, core, a, data, wstrb).reply.data == ZERO
  {}

  /** A store goes into the slot, its tag and state whatever they are, lane by lane. */
  lemma StoresIntoSlot(s: System, core: nat, a: nat, data: Word, wstrb: Strobe)
    requires WellFormed(s) && core < |s.caches|
    ensures var s', line := StoreHit(s, core, a, data, wstrb), LineAt(s, core, a);
            && s'.entries == s.entries && s'.sram == s.sram
            && s'.caches == s.caches[core := s.caches[core][a % 128 := line.(data := Merge(line.data, data, wstrb))]]
  {}
}
