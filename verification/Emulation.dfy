/**
 * The emulator's own objects: memory, caches and directory, whose handlers update their fields in
 * place. Each handler is proved to take the system to the state the protocol functions give.
 */
module Emulation {
  import opened Words
  import opened Msi
  import opened CacheLine
  import opened Bitmask
  import opened Directory
  import opened Steps

  datatype AxiRequest = AxiRequest(valid: bool, ready: bool, addr: nat, wdata: Word, wstrb: Strobe, rdata: Word)

  class MemoryController {
    var sram: map<nat, Word>

    constructor ()
      ensures sram == map[]
    {
      sram := map[];
    }

    method Read(address: nat) returns (found: Word)
      ensures found == MemRead(sram, address)
      ensures address <= 2048 && address in sram ==> found == sram[address]
      ensures address > 2048 || address !in sram ==> found == ZERO
    {
      if address > WORDS {
        return ZERO;
      }
      found := if address in sram then sram[address] else ZERO;
    }

    method Write(address: nat, data: Word, wstrb: Strobe)
      modifies this
      ensures sram == MemWrite(old(sram), address, data, wstrb)
      ensures address > 2048 ==> sram == old(sram)
      ensures address <= 2048 ==>
                address in sram && sram == old(sram)[address := sram[address]]
                && sram[address] == Merge(if address in old(sram) then old(sram)[address] else ZERO, data, wstrb)
    {
      if address > WORDS {
        return;
      }
      var existing := if address in sram then sram[address] else ZERO;
      var dataToWrite := ApplyWstrb(existing, data, wstrb);
      sram := sram[address := dataToWrite];
    }

    method AxiHandler(request: AxiRequest) returns (response: AxiRequest)
      modifies this
      ensures !request.valid ==> response == request && sram == old(sram)
      ensures request.valid && request.wstrb == NONE ==>
                response == request.(ready := true, rdata := MemRead(sram, request.addr)) && sram == old(sram)
      ensures request.valid && request.wstrb != NONE ==>
                && response == request.(ready := true)
                && sram == MemWrite(old(sram), request.addr, request.wdata, request.wstrb)
      ensures request.valid ==> sram == MemPortSram(old(sram), request.addr, request.wdata, request.wstrb)
    {
      response := request;
      if request.valid {
        if request.wstrb == NONE {
          var word := Read(request.addr);
          response := response.(rdata := word);
        } else {
          Write(request.addr, request.wdata, request.wstrb);
        }
        response := response.(ready := true);
      }
    }
  }

  class CacheController {
    const coreId: nat
    const kind: Variant
    var lines: seq<Line>

    constructor (coreId: nat, kind: Variant)
      ensures this.coreId == coreId && this.kind == kind
      ensures lines == seq(LINES, i requires 0 <= i => Line((i / LINES) % TAGS, i % LINES, Invalid, ZERO))
      ensures InSlots(lines)
    {
      this.coreId := coreId;
      this.kind := kind;
      lines := seq(LINES, i requires 0 <= i => Line((i / LINES) % TAGS, i % LINES, Invalid, ZERO));
    }

    /** A snoop on another address in this slot is acknowledged and changes nothing. */
    method HandleSnoop(addr: nat, event: SnoopEvent) returns (payload: Word)
      requires InSlots(lines)
      modifies this
      ensures lines == SnoopCache(old(lines), addr, event)
      ensures var line := old(lines)[IndexOf(addr)];
              payload == if line.state == Modified && line.tag == TagOf(addr) && event in {SnoopRd, SnoopRdx}
                         then line.data else ZERO
    {
      var line := lines[IndexOf(addr)];
      HandsOver(line, addr, event);
      if line.tag != TagOf(addr) {
        return ZERO;
      }
      var tr := OnSnoopEvent(line.state, event);
      payload := if tr.flush then line.data else ZERO;
      lines := lines[IndexOf(addr) := line.(state := tr.next)];
    }

    /** The request the cache sends: every command carries all strobe bits, unless a read is meant to be one. */
    method SendDirCmd(dir: DirectoryController, cmd: Cmd, addr: nat, payload: Word) returns (reply: Reply)
      requires dir.Valid() && dir.Serves(this)
      modifies dir.Objects()
      ensures dir.Valid()
      ensures var out := Handle(old(dir.State()), coreId, Message(cmd, addr, payload),
                                if cmd == BusRd then ReadStrobe(kind) else ALL);
              dir.State() == out.next && reply == out.reply
    {
      var wstrb := if cmd == BusRd then ReadStrobe(kind) else ALL;
      reply := dir.HandleCoherence(coreId, Message(cmd, addr, payload), wstrb);
    }

    /** `granted` is the arbiter's decision; the line is invalidated either way. */
    method HandleTagMismatch(dir: DirectoryController, requestAddr: nat, granted: bool)
      requires dir.Valid() && dir.Serves(this)
      modifies dir.Objects()
      ensures dir.Valid()
      ensures dir.State() == EvictStep(old(dir.State()), coreId, requestAddr, granted)
    {
      var line := lines[IndexOf(requestAddr)];
      if line.state == Invalid {
        return;
      }
      var lineAddr := AddrOf(line.tag, line.index);
      if line.tag != TagOf(requestAddr) {
        ghost var s := dir.State();
        var m := Message(if line.state == Shared then EvictClean else EvictDirty, lineAddr, line.data);
        if granted {
          StrobeIgnored(s, coreId, m, ALL, ALL);
          var _ := SendDirCmd(dir, m.cmd, m.addr, m.data);
        }
        SetOwnLine(dir, requestAddr, lines[IndexOf(requestAddr)].(state := Invalid));
      }
    }

    /** Overwrites the cache's line for `addr`. */
    method SetOwnLine(dir: DirectoryController, addr: nat, line: Line)
      requires dir.Valid() && dir.Serves(this) && InSlot(line, IndexOf(addr))
      modifies this
      ensures dir.Valid()
      ensures dir.State() == SetLine(old(dir.State()), coreId, addr, line)
    {
      lines := lines[IndexOf(addr) := line];
      assert dir.State().caches == SetLine(old(dir.State()), coreId, addr, line).caches;
    }

    /**
     * A read up to its reply or, on a hit, up to the wait for the other cores: nothing is read yet, and
     * `waiting` says that ReadHit finishes it afterwards.
     */
    method HandleCpuRead(dir: DirectoryController, request: AxiRequest) returns (response: AxiRequest, waiting: bool)
      requires dir.Valid() && dir.Serves(this)
      modifies dir.Objects()
      ensures dir.Valid()
      ensures !request.valid ==> dir.State() == old(dir.State()) && response == request && !waiting
      ensures request.valid ==>
                var s := AfterTagCheck(old(dir.State()), coreId, request.addr);
                var out := CpuRead(kind, old(dir.State()), coreId, request.addr);
                && (waiting <==> BusCommand(LineAt(s, coreId, request.addr), false) == None)
                && (waiting ==> dir.State() == s && response == request)
                && (!waiting ==>
                      dir.State() == out.next && response.ready == out.reply.ready && response.rdata == out.reply.data)
    {
      response, waiting := request, false;
      if !request.valid {
        return;
      }
      HandleTagMismatch(dir, request.addr, true);
      var tr := OnProcessorEvent(lines[IndexOf(request.addr)].state, false);
      if tr.cmd.Some? {
        response := ReadMiss(dir, tr, request);
      } else {
        waiting := true;
      }
    }

    /** The bus command of a read, and the fill if it is granted. */
    method ReadMiss(dir: DirectoryController, tr: Transition, request: AxiRequest) returns (response: AxiRequest)
      requires dir.Valid() && dir.Serves(this)
      requires tr == OnProcessorEvent(lines[IndexOf(request.addr)].state, false) && tr.cmd.Some?
      modifies dir.Objects()
      ensures dir.Valid()
      ensures var out := ReadFill(kind, old(dir.State()), coreId, request.addr);
              dir.State() == out.next && response.ready == out.reply.ready && response.rdata == out.reply.data
    {
      OwnLineKept(dir.State(), coreId, Message(tr.cmd.value, request.addr, ZERO), ReadStrobe(kind));
      var reply := SendDirCmd(dir, tr.cmd.value, request.addr, ZERO);
      response := request.(ready := reply.ready, rdata := reply.data);
      if reply.ready {
        var line := lines[IndexOf(request.addr)];
        SetOwnLine(dir, request.addr, Line(TagOf(request.addr), line.index, tr.next, reply.data));
      }
    }

    /** After the wait, a read hit returns the word its line has by then. */
    method ReadHit(request: AxiRequest) returns (response: AxiRequest)
      requires InSlots(lines)
      ensures response == request.(ready := true, rdata := lines[IndexOf(request.addr)].data)
    {
      response := request.(rdata := lines[IndexOf(request.addr)].data);
      response := response.(ready := true);
    }

    /** A write up to its reply or, on a hit, up to the wait: nothing is stored yet, StoreHit does it afterwards. */
    method HandleCpuWrite(dir: DirectoryController, request: AxiRequest) returns (response: AxiRequest, waiting: bool)
      requires dir.Valid() && dir.Serves(this)
      modifies dir.Objects()
      ensures dir.Valid()
      ensures !request.valid ==> dir.State() == old(dir.State()) && response == request && !waiting
      ensures request.valid ==>
                var s := AfterTagCheck(old(dir.State()), coreId, request.addr);
                var out := CpuWrite(kind, old(dir.State()), coreId, request.addr, request.wdata, request.wstrb);
                && (waiting <==> BusCommand(LineAt(s, coreId, request.addr), true) == None)
                && (waiting ==> dir.State() == s && response == request)
                && (!waiting ==>
                      dir.State() == out.next && response == request.(ready := request.ready || out.reply.ready))
    {
      response, waiting := request, false;
      if !request.valid {
        return;
      }
      HandleTagMismatch(dir, request.addr, true);
      var tr := OnProcessorEvent(lines[IndexOf(request.addr)].state, true);
      if tr.cmd.Some? {
        var ready := WriteMiss(dir, tr, request);
        response := response.(ready := request.ready || ready);
      } else {
        waiting := true;
      }
    }

    /** The bus command of a write, and the fill and the strobed merge if it is granted. */
    method WriteMiss(dir: DirectoryController, tr: Transition, request: AxiRequest) returns (ready: bool)
      requires dir.Valid() && dir.Serves(this)
      requires tr == OnProcessorEvent(lines[IndexOf(request.addr)].state, true) && tr.cmd.Some?
      modifies dir.Objects()
      ensures dir.Valid()
      ensures var out := WriteFill(kind, old(dir.State()), coreId, request.addr, request.wdata, request.wstrb);
              dir.State() == out.next && ready == out.reply.ready
    {
      ghost var s := dir.State();
      StrobeIgnored(s, coreId, Message(tr.cmd.value, request.addr, ZERO), ALL, ReadStrobe(kind));
      OwnLineKept(s, coreId, Message(tr.cmd.value, request.addr, ZERO), ReadStrobe(kind));
      var reply := SendDirCmd(dir, tr.cmd.value, request.addr, ZERO);
      ready := reply.ready;
      if ready {
        var line := lines[IndexOf(request.addr)];
        var word := if kind == AsIntended && tr.cmd.value == BusUpgr then line.data else reply.data;
        word := ApplyWstrb(word, request.wdata, request.wstrb);
        SetOwnLine(dir, request.addr, Line(TagOf(request.addr), line.index, tr.next, word));
      }
    }

    /** After the wait, a write hit stores into its line, whatever has become of it. */
    method StoreHit(dir: DirectoryController, request: AxiRequest) returns (response: AxiRequest)
      requires dir.Valid() && dir.Serves(this)
      modifies this
      ensures dir.Valid()
      ensures dir.State() == Steps.StoreHit(old(dir.State()), coreId, request.addr, request.wdata, request.wstrb)
      ensures response == request.(ready := true)
    {
      var line := lines[IndexOf(request.addr)];
      var word := ApplyWstrb(line.data, request.wdata, request.wstrb);
      SetOwnLine(dir, request.addr, line.(data := word));
      response := request.(ready := true);
    }
  }

  /** Only a bus read looks at the strobe. */
  lemma StrobeIgnored(s: System, core: nat, m: Message, x: Strobe, y: Strobe)
    requires WellFormed(s) && core < |s.caches|
    ensures m.cmd != BusRd ==> Handle(s, core, m, x) == Handle(s, core, m, y)
  {}

  function LinesOf(caches: seq<CacheController>): (lines: seq<seq<Line>>)
    reads caches
    ensures |lines| == |caches|
    ensures forall c | 0 <= c < |caches| :: lines[c] == caches[c].lines
  {
    if caches == [] then []
    else LinesOf(caches[..|caches| - 1]) + [caches[|caches| - 1].lines]
  }

  /** The caches when the sharers loop has come to core c. */
  ghost function SnoopedBelow(caches: seq<seq<Line>>, a: nat, event: SnoopEvent, requester: nat, mask: nat, c: nat)
    : (r: seq<seq<Line>>)
    requires c <= |caches| && forall j | 0 <= j < |caches| :: InSlots(caches[j])
    ensures |r| == |caches|
  {
    SnoopSharers(caches, a, event, requester, mask)[..c] + caches[c..]
  }

  lemma SnoopedNext(caches: seq<seq<Line>>, a: nat, event: SnoopEvent, requester: nat, mask: nat, c: nat)
    requires c < |caches| && forall j | 0 <= j < |caches| :: InSlots(caches[j])
    ensures var now := SnoopedBelow(caches, a, event, requester, mask, c);
            && now[c] == caches[c]
            && SnoopedBelow(caches, a, event, requester, mask, c + 1)
               == if c != requester && Bit(mask, c) then now[c := SnoopCache(caches[c], a, event)] else now
  {}

  lemma SnoopedEnds(caches: seq<seq<Line>>, a: nat, event: SnoopEvent, requester: nat, mask: nat)
    requires forall j | 0 <= j < |caches| :: InSlots(caches[j])
    ensures SnoopedBelow(caches, a, event, requester, mask, 0) == caches
    ensures SnoopedBelow(caches, a, event, requester, mask, |caches|)
         == SnoopSharers(caches, a, event, requester, mask)
  {}

  class DirectoryController {
    const memory: MemoryController
    const caches: seq<CacheController>
    var entries: map<nat, Entry>

    constructor (memory: MemoryController, caches: seq<CacheController>)
      ensures this.memory == memory && this.caches == caches && entries == map[]
    {
      this.memory := memory;
      this.caches := caches;
      entries := map[];
    }

    ghost function Objects(): set<object> {
      {this, memory} + set c | c in caches
    }

    ghost function State(): System
      reads Objects()
    {
      System(LinesOf(caches), entries, memory.sram)
    }

    ghost predicate Valid()
      reads Objects()
    {
      && (forall i, j | 0 <= i < j < |caches| :: caches[i] != caches[j])
      && WellFormed(State())
    }

    /** The cache is registered under its own id. */
    ghost predicate Serves(cache: CacheController) {
      cache.coreId < |caches| && caches[cache.coreId] == cache
    }

    method SendSnoop(target: nat, addr: nat, event: SnoopEvent) returns (payload: Word)
      requires Valid() && target < |caches|
      modifies caches
      ensures Valid()
      ensures var s := old(State());
              && State() == s.(caches := s.caches[target := SnoopCache(s.caches[target], addr, event)])
              && payload == SnoopData(s.caches[target][IndexOf(addr)], addr, event)
    {
      ghost var s := State();
      payload := caches[target].HandleSnoop(addr, event);
      assert State().caches == s.caches[target := SnoopCache(s.caches[target], addr, event)];
    }

    /** One turn of the sharers loop; `s` is the system before the loop. */
    method SnoopIfSharer(addr: nat, event: SnoopEvent, requester: nat, mask: nat, c: nat, ghost s: System)
      requires Valid() && c < |caches| && WellFormed(s) && |s.caches| == |caches|
      requires State() == s.(caches := SnoopedBelow(s.caches, addr, event, requester, mask, c))
      modifies caches
      ensures Valid()
      ensures State() == s.(caches := SnoopedBelow(s.caches, addr, event, requester, mask, c + 1))
    {
      SnoopedNext(s.caches, addr, event, requester, mask, c);
      if c != requester && Bit(mask, c) {
        var _ := SendSnoop(c, addr, event);
      }
    }

    /** Snoops every sharer but the requester, in core order. */
    method SnoopOthers(addr: nat, event: SnoopEvent, requester: nat, mask: nat)
      requires Valid()
      modifies caches
      ensures Valid()
      ensures var s := old(State());
              State() == s.(caches := SnoopSharers(s.caches, addr, event, requester, mask))
    {
      ghost var s := State();
      SnoopedEnds(s.caches, addr, event, requester, mask);
      for c := 0 to |caches|
        invariant Valid()
        invariant State() == s.(caches := SnoopedBelow(s.caches, addr, event, requester, mask, c))
      {
        SnoopIfSharer(addr, event, requester, mask, c, s);
      }
    }

    /** The owner gives up its word by snoop, and the word is written to memory. */
    method FlushOwner(owner: nat, addr: nat, event: SnoopEvent) returns (flushed: Word)
      requires Valid() && owner < |caches|
      modifies Objects()
      ensures Valid()
      ensures var s := old(State());
              && flushed == SnoopData(s.caches[owner][IndexOf(addr)], addr, event)
              && State() == s.(caches := s.caches[owner := SnoopCache(s.caches[owner], addr, event)],
                               sram := MemWrite(s.sram, addr, flushed, ALL))
    {
      flushed := SendSnoop(owner, addr, event);
      var _ := memory.AxiHandler(AxiRequest(true, false, addr, flushed, ALL, ZERO));
    }

    method BusRd(core: nat, addr: nat, payload: Word, wstrb: Strobe) returns (reply: Reply)
      requires Valid() && core < |caches|
      modifies Objects()
      ensures Valid()
      ensures var out := BusRead(old(State()), core, addr, payload, wstrb);
              State() == out.next && reply == out.reply
    {
      ghost var s := State();
      HandleWellFormed(s, core, Message(Cmd.BusRd, addr, payload), wstrb);
      var entry := if addr in entries then entries[addr] else NO_ENTRY;
      if entry.state == Invalid || entry.state == Shared {
        var sharers := if entry.state == Invalid then Single(core) else Or(entry.sharers, Single(core));
        entries := entries[addr := Entry(Shared, sharers)];
        var response := memory.AxiHandler(AxiRequest(true, false, addr, payload, wstrb, ZERO));
        return Reply(response.ready, response.rdata);
      }
      reply := BusRdModified(core, addr, entry);
    }

    /** A bus read of a MODIFIED entry: the owner is flushed to memory, which is then read. */
    method BusRdModified(core: nat, addr: nat, entry: Entry) returns (reply: Reply)
      requires Valid() && core < |caches| && addr in entries && entries[addr] == entry && entry.state == Modified
      modifies Objects()
      ensures Valid()
      ensures var out := BusRead(old(State()), core, addr, ZERO, NONE);
              State() == out.next && reply == out.reply
    {
      ghost var s := State();
      HandleWellFormed(s, core, Message(Cmd.BusRd, addr, ZERO), NONE);
      var sharers := entry.sharers;
      var owner := Owner(entry);
      if owner.Some? && owner.value != core {
        OwnerInRange(s, addr);
        var _ := FlushOwner(owner.value, addr, SnoopRd);
        sharers := Or(sharers, Single(owner.value));
      }
      entries := entries[addr := Entry(Shared, Or(sharers, Single(core)))];
      var response := memory.AxiHandler(AxiRequest(true, false, addr, ZERO, NONE, ZERO));
      reply := Reply(response.ready, response.rdata);
    }

    method BusRdx(core: nat, addr: nat) returns (reply: Reply)
      requires Valid() && core < |caches|
      modifies Objects()
      ensures Valid()
      ensures var out := BusReadExclusive(old(State()), core, addr);
              State() == out.next && reply == out.reply
    {
      ghost var s := State();
      HandleWellFormed(s, core, Message(Cmd.BusRdx, addr, ZERO), NONE);
      var entry := if addr in entries then entries[addr] else NO_ENTRY;
      var readRequest := AxiRequest(true, false, addr, ZERO, NONE, ZERO);
      if entry.state == Invalid {
        var response := memory.AxiHandler(readRequest);
        entries := entries[addr := Entry(Modified, Single(core))];
        return Reply(response.ready, response.rdata);
      }
      if entry.state == Shared {
        SnoopOthers(addr, SnoopRdx, core, entry.sharers);
        var response := memory.AxiHandler(readRequest);
        entries := entries[addr := Entry(Modified, Single(core))];
        return Reply(response.ready, response.rdata);
      }
      reply := TransferOwnership(core, addr, entry);
    }

    /** A read-exclusive of a MODIFIED entry: the owner's word goes to memory and to the requester. */
    method TransferOwnership(core: nat, addr: nat, entry: Entry) returns (reply: Reply)
      requires Valid() && core < |caches| && addr in entries && entries[addr] == entry && entry.state == Modified
      modifies Objects()
      ensures Valid()
      ensures var out := BusReadExclusive(old(State()), core, addr);
              State() == out.next && reply == out.reply
    {
      ghost var s := State();
      HandleWellFormed(s, core, Message(Cmd.BusRdx, addr, ZERO), NONE);
      var owner := Owner(entry);
      if owner.Some? && owner.value != core {
        OwnerInRange(s, addr);
        var flushed := FlushOwner(owner.value, addr, SnoopRdx);
        entries := entries[addr := Entry(Modified, Single(core))];
        return Reply(true, flushed);
      }
      reply := NOT_READY;
    }

    method BusUpgr(core: nat, addr: nat) returns (reply: Reply)
      requires Valid() && core < |caches|
      modifies Objects()
      ensures Valid()
      ensures var out := BusUpgrade(old(State()), core, addr);
              State() == out.next && reply == out.reply
    {
      ghost var s := State();
      HandleWellFormed(s, core, Message(Cmd.BusUpgr, addr, ZERO), NONE);
      var entry := if addr in entries then entries[addr] else NO_ENTRY;
      if entry.state == Shared {
        SnoopOthers(addr, SnoopUpgr, core, entry.sharers);
        entries := entries[addr := Entry(Modified, Single(core))];
        return Reply(true, ZERO);
      }
      reply := BusRdx(core, addr);
    }

    method EvictClean(core: nat, addr: nat) returns (reply: Reply)
      requires Valid() && core < |caches|
      modifies this
      ensures Valid()
      ensures var out := EvictedClean(old(State()), core, addr);
              State() == out.next && reply == out.reply
    {
      ghost var s := State();
      HandleWellFormed(s, core, Message(Cmd.EvictClean, addr, ZERO), NONE);
      var entry := if addr in entries then entries[addr] else NO_ENTRY;
      entry := entry.(sharers := AndNot(entry.sharers, Single(core)));
      if entry.sharers == 0 {
        entry := entry.(state := Invalid);
      } else if entry.state == Modified && Owner(entry) == None {
        entry := entry.(state := Shared);
      }
      entries := entries[addr := entry];
      reply := Reply(true, ZERO);
    }

    method EvictDirty(core: nat, addr: nat, data: Word) returns (reply: Reply)
      requires Valid() && core < |caches|
      modifies this, memory
      ensures Valid()
      ensures var out := EvictedDirty(old(State()), core, addr, data);
              State() == out.next && reply == out.reply
    {
      var response := memory.AxiHandler(AxiRequest(true, false, addr, data, ALL, ZERO));
      var _ := EvictClean(core, addr);
      reply := Reply(response.ready, response.rdata);
    }

    method HandleCoherence(core: nat, m: Message, wstrb: Strobe) returns (reply: Reply)
      requires Valid() && core < |caches|
      modifies Objects()
      ensures Valid()
      ensures var out := Handle(old(State()), core, m, wstrb);
              State() == out.next && reply == out.reply
    {
      match m.cmd
      case BusRd => reply := BusRd(core, m.addr, m.data, wstrb);
      case BusRdx => reply := BusRdx(core, m.addr);
      case BusUpgr => reply := BusUpgr(core, m.addr);
      case EvictClean => reply := EvictClean(core, m.addr);
      case EvictDirty => reply := EvictDirty(core, m.addr, m.data);
    }
  }
}
