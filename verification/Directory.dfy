/**
 * The directory protocol as functions on the whole emulated system: N direct-mapped caches, one
 * directory entry and one memory word per address. One function per granted directory transaction.
 */
module Directory {
  import opened Words
  import opened Msi
  import opened CacheLine
  import opened Bitmask

  datatype Entry = Entry(state: State, sharers: nat)

  const NO_ENTRY := Entry(Invalid, 0)

  /** The owner by the power-of-two test on the sharer mask. */
  function Owner(e: Entry): Option<nat> {
    if e.state != Modified || e.sharers == 0 || And(e.sharers, e.sharers - 1) != 0 then None
    else
      TopBit(e.sharers);
      Some(BitLength(e.sharers) - 1)
  }

  datatype System = System(caches: seq<seq<Line>>, entries: map<nat, Entry>, sram: map<nat, Word>)

  /** No bit of the mask names a cache that does not exist. */
  ghost predicate InRange(mask: nat, n: nat) {
    forall k: nat | k >= n :: !Bit(mask, k)
  }

  predicate InSlots(lines: seq<Line>) {
    |lines| == LINES && forall i | 0 <= i < LINES :: InSlot(lines[i], i)
  }

  ghost predicate WellFormed(s: System) {
    && (forall c | 0 <= c < |s.caches| :: InSlots(s.caches[c]))
    && (forall a | a in s.entries :: InRange(s.entries[a].sharers, |s.caches|))
  }

  function EntryAt(s: System, a: nat): Entry {
    if a in s.entries then s.entries[a] else NO_ENTRY
  }

  // ---- The memory: reads and writes beyond the last address are refused ----

  function MemRead(sram: map<nat, Word>, a: nat): Word {
    if a > WORDS then ZERO else if a in sram then sram[a] else ZERO
  }

  function MemWrite(sram: map<nat, Word>, a: nat, data: Word, wstrb: Strobe): map<nat, Word> {
    if a > WORDS then sram else sram[a := Merge(MemRead(sram, a), data, wstrb)]
  }

  /** The memory port reads on an all-zero strobe and writes otherwise; a write leaves the read data field alone. */
  function MemPortSram(sram: map<nat, Word>, a: nat, data: Word, wstrb: Strobe): map<nat, Word> {
    if wstrb == NONE then sram else MemWrite(sram, a, data, wstrb)
  }

  function MemPortData(sram: map<nat, Word>, a: nat, wstrb: Strobe): Word {
    if wstrb == NONE then MemRead(sram, a) else ZERO
  }

  // ---- Snoops ----

  function SnoopCache(lines: seq<Line>, a: nat, event: SnoopEvent): seq<Line>
    requires InSlots(lines)
  {
    lines[IndexOf(a) := SnoopLine(lines[IndexOf(a)], a, event)]
  }

  /** The sharers loop: every cache in the mask except the requester is snooped. */
  function SnoopSharers(caches: seq<seq<Line>>, a: nat, event: SnoopEvent, requester: nat, mask: nat): seq<seq<Line>>
    requires forall c | 0 <= c < |caches| :: InSlots(caches[c])
  {
    seq(|caches|, c requires 0 <= c < |caches| =>
      if c != requester && Bit(mask, c) then SnoopCache(caches[c], a, event) else caches[c])
  }

  // ---- Directory transactions ----

  datatype Reply = Reply(ready: bool, data: Word)

  datatype Outcome = Outcome(next: System, reply: Reply)

  const NOT_READY := Reply(false, ZERO)

  /**
   * A bus read. `wstrb` and `payload` are the strobe and data of the cache's request, which the
   * directory forwards to the memory when no owner has to be asked.
   */
  function BusRead(s: System, core: nat, a: nat, payload: Word, wstrb: Strobe): Outcome
    requires WellFormed(s) && core < |s.caches|
  {
    var e := EntryAt(s, a);
    match e.state
    case Invalid =>
      Outcome(s.(entries := s.entries[a := Entry(Shared, Single(core))],
                 sram := MemPortSram(s.sram, a, payload, wstrb)),
              Reply(true, MemPortData(s.sram, a, wstrb)))
    case Shared =>
      Outcome(s.(entries := s.entries[a := Entry(Shared, Or(e.sharers, Single(core)))],
                 sram := MemPortSram(s.sram, a, payload, wstrb)),
              Reply(true, MemPortData(s.sram, a, wstrb)))
    case Modified =>
      match Owner(e)
      case Some(owner) =>
        if owner == core then ReadFromMemory(s, core, a, e.sharers)
        else
          OwnerInRange(s, a);
          var line := s.caches[owner][IndexOf(a)];
          var flushed := SnoopData(line, a, SnoopRd);
          var s' := s.(caches := s.caches[owner := SnoopCache(s.caches[owner], a, SnoopRd)],
                       sram := MemWrite(s.sram, a, flushed, ALL));
          ReadFromMemory(s', core, a, Or(e.sharers, Single(owner)))
      case None => ReadFromMemory(s, core, a, e.sharers)
  }

  /** The tail of a bus read of a MODIFIED entry: the entry becomes SHARED and memory is read. */
  function ReadFromMemory(s: System, core: nat, a: nat, sharers: nat): Outcome {
    Outcome(s.(entries := s.entries[a := Entry(Shared, Or(sharers, Single(core)))]),
            Reply(true, MemRead(s.sram, a)))
  }

  function BusReadExclusive(s: System, core: nat, a: nat): Outcome
    requires WellFormed(s) && core < |s.caches|
  {
    var e := EntryAt(s, a);
    var granted := s.entries[a := Entry(Modified, Single(core))];
    match e.state
    case Invalid =>
      Outcome(s.(entries := granted), Reply(true, MemRead(s.sram, a)))
    case Shared =>
      Outcome(s.(entries := granted, caches := SnoopSharers(s.caches, a, SnoopRdx, core, e.sharers)),
              Reply(true, MemRead(s.sram, a)))
    case Modified =>
      match Owner(e)
      case Some(owner) =>
        if owner == core then Outcome(s, NOT_READY)
        else
          OwnerInRange(s, a);
          var flushed := SnoopData(s.caches[owner][IndexOf(a)], a, SnoopRdx);
          Outcome(System(s.caches[owner := SnoopCache(s.caches[owner], a, SnoopRdx)], granted,
                         MemWrite(s.sram, a, flushed, ALL)),
                  Reply(true, flushed))
      case None => Outcome(s, NOT_READY)
  }

  /** An upgrade moves no data: its reply carries a zero word. Off a SHARED entry it falls back to a read-exclusive. */
  function BusUpgrade(s: System, core: nat, a: nat): Outcome
    requires WellFormed(s) && core < |s.caches|
  {
    var e := EntryAt(s, a);
    if e.state == Shared then
      Outcome(s.(entries := s.entries[a := Entry(Modified, Single(core))],
                 caches := SnoopSharers(s.caches, a, SnoopUpgr, core, e.sharers)),
              Reply(true, ZERO))
    else BusReadExclusive(s, core, a)
  }

  function WithoutSharer(e: Entry, core: nat): Entry {
    var left := Entry(e.state, AndNot(e.sharers, Single(core)));
    if left.sharers == 0 then left.(state := Invalid)
    else if left.state == Modified && Owner(left) == None then left.(state := Shared)
    else left
  }

  function EvictedClean(s: System, core: nat, a: nat): Outcome {
    Outcome(s.(entries := s.entries[a := WithoutSharer(EntryAt(s, a), core)]), Reply(true, ZERO))
  }

  /** The write-back goes to memory first; the memory's answer is the reply. */
  function EvictedDirty(s: System, core: nat, a: nat, data: Word): Outcome {
    Outcome(EvictedClean(s.(sram := MemWrite(s.sram, a, data, ALL)), core, a).next, Reply(true, ZERO))
  }

  /** Dispatch on the command of a granted request. */
  function Handle(s: System, core: nat, m: Message, wstrb: Strobe): Outcome
    requires WellFormed(s) && core < |s.caches|
  {
    match m.cmd
    case BusRd => BusRead(s, core, m.addr, m.data, wstrb)
    case BusRdx => BusReadExclusive(s, core, m.addr)
    case BusUpgr => BusUpgrade(s, core, m.addr)
    case EvictClean => EvictedClean(s, core, m.addr)
    case EvictDirty => EvictedDirty(s, core, m.addr, m.data)
  }

  lemma OwnerInRange(s: System, a: nat)
    requires WellFormed(s) && Owner(EntryAt(s, a)).Some?
    ensures Owner(EntryAt(s, a)).value < |s.caches|
  {
    TopBit(EntryAt(s, a).sharers);
  }

  // ---- Well-formedness is kept ----

  lemma RangeOr(m: nat, k: nat, n: nat)
    requires InRange(m, n) && k < n
    ensures InRange(Or(m, Single(k)), n) && InRange(Single(k), n) && InRange(AndNot(m, Single(k)), n)
  {
    forall j: nat | j >= n
      ensures !Bit(Or(m, Single(k)), j) && !Bit(Single(k), j) && !Bit(AndNot(m, Single(k)), j)
    {
      BitOfOr(m, Single(k), j);
      BitOfSingle(k, j);
      BitOfAndNot(m, Single(k), j);
    }
  }

  lemma EntryInRange(s: System, a: nat)
    requires WellFormed(s)
    ensures InRange(EntryAt(s, a).sharers, |s.caches|)
  {
    forall k: nat ensures !Bit(0, k) { BitOfZero(k); }
  }

  /** A transaction on `a` snoops caches at `a`, and writes only the entry and the word of `a`. */
  ghost predicate LocalTo(s: System, s': System, a: nat)
    requires WellFormed(s)
  {
    && |s'.caches| == |s.caches|
    && (forall c | 0 <= c < |s.caches| :: Snooped(s.caches[c], s'.caches[c], a))
    && (s'.entries == s.entries
        || (a in s'.entries && s'.entries == s.entries[a := s'.entries[a]]
            && InRange(s'.entries[a].sharers, |s.caches|)))
    && (s'.sram == s.sram || (a in s'.sram && s'.sram == s.sram[a := s'.sram[a]]))
  }

  predicate Snooped(before: seq<Line>, after: seq<Line>, a: nat)
    requires InSlots(before)
  {
    || after == before
    || after == SnoopCache(before, a, SnoopRd)
    || after == SnoopCache(before, a, SnoopRdx)
    || after == SnoopCache(before, a, SnoopUpgr)
  }

  lemma BusReadLocal(s: System, core: nat, a: nat, payload: Word, wstrb: Strobe)
    requires WellFormed(s) && core < |s.caches|
    ensures LocalTo(s, BusRead(s, core, a, payload, wstrb).next, a)
  {
    EntryInRange(s, a);
    var e := EntryAt(s, a);
    RangeOr(e.sharers, core, |s.caches|);
    if Owner(e).Some? {
      OwnerInRange(s, a);
      RangeOr(e.sharers, Owner(e).value, |s.caches|);
      RangeOr(Or(e.sharers, Single(Owner(e).value)), core, |s.caches|);
    }
  }

  lemma BusReadExclusiveLocal(s: System, core: nat, a: nat)
    requires WellFormed(s) && core < |s.caches|
    ensures LocalTo(s, BusReadExclusive(s, core, a).next, a)
  {
    RangeOr(0, core, |s.caches|) by { EntryInRange(s.(entries := map[]), a); }
    if Owner(EntryAt(s, a)).Some? {
      OwnerInRange(s, a);
    }
  }

  lemma EvictedCleanLocal(s: System, core: nat, a: nat)
    requires WellFormed(s) && core < |s.caches|
    ensures LocalTo(s, EvictedClean(s, core, a).next, a)
  {
    EntryInRange(s, a);
    RangeOr(EntryAt(s, a).sharers, core, |s.caches|);
  }

  lemma HandleLocal(s: System, core: nat, m: Message, wstrb: Strobe)
    requires WellFormed(s) && core < |s.caches|
    ensures LocalTo(s, Handle(s, core, m, wstrb).next, m.addr)
  {
    match m.cmd
    case BusRd => BusReadLocal(s, core, m.addr, m.data, wstrb);
    case BusRdx => BusReadExclusiveLocal(s, core, m.addr);
    case BusUpgr =>
      BusReadExclusiveLocal(s, core, m.addr);
      RangeOr(0, core, |s.caches|) by { EntryInRange(s.(entries := map[]), m.addr); }
    case EvictClean => EvictedCleanLocal(s, core, m.addr);
    case EvictDirty =>
      EvictedCleanLocal(s.(sram := MemWrite(s.sram, m.addr, m.data, ALL)), core, m.addr);
  }

  lemma HandleWellFormed(s: System, core: nat, m: Message, wstrb: Strobe)
    requires WellFormed(s) && core < |s.caches|
    ensures WellFormed(Handle(s, core, m, wstrb).next)
    ensures |Handle(s, core, m, wstrb).next.caches| == |s.caches|
  {
    HandleLocal(s, core, m, wstrb);
    LocalWellFormed(s, Handle(s, core, m, wstrb).next, m.addr);
  }

  lemma LocalWellFormed(s: System, s': System, a: nat)
    requires WellFormed(s) && LocalTo(s, s', a)
    ensures WellFormed(s')
  {}

  /** The requester's own lines are never snooped. */
  lemma OwnLineKept(s: System, core: nat, m: Message, wstrb: Strobe)
    requires WellFormed(s) && core < |s.caches|
    ensures |Handle(s, core, m, wstrb).next.caches| == |s.caches|
    ensures Handle(s, core, m, wstrb).next.caches[core] == s.caches[core]
  {
    if Owner(EntryAt(s, m.addr)).Some? {
      OwnerInRange(s, m.addr);
    }
  }

  /** The snoop a transaction sends to cache d, if it sends one. */
  function SnoopFor(s: System, core: nat, m: Message, d: nat): Option<SnoopEvent> {
    var e := EntryAt(s, m.addr);
    if d == core then None
    else match m.cmd
      case BusRd => if Owner(e) == Some(d) then Some(SnoopRd) else None
      case BusRdx => if Owner(e) == Some(d) || (e.state == Shared && Bit(e.sharers, d)) then Some(SnoopRdx) else None
      case BusUpgr =>
        if e.state == Shared && Bit(e.sharers, d) then Some(SnoopUpgr)
        else if Owner(e) == Some(d) then Some(SnoopRdx)
        else None
      case _ => None
  }

  /** A transaction does to every cache what its snoop does, and nothing else. */
  lemma SnoopsExactly(s: System, core: nat, m: Message, wstrb: Strobe, d: nat)
    requires WellFormed(s) && core < |s.caches| && d < |s.caches|
    ensures |Handle(s, core, m, wstrb).next.caches| == |s.caches|
    ensures Handle(s, core, m, wstrb).next.caches[d]
         == match SnoopFor(s, core, m, d)
            case None => s.caches[d]
            case Some(event) => SnoopCache(s.caches[d], m.addr, event)
  {
    if Owner(EntryAt(s, m.addr)).Some? {
      OwnerInRange(s, m.addr);
    }
  }
}
