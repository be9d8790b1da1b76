/**
 * One cache line and what a cache does to it: tag check and eviction, fill, write, snoop.
 * The emulated caches and the RTL controller are both measured against these functions.
 */
module CacheLine {
  import opened Words
  import opened Msi

  // 128 one-word lines over 2048 words of memory: 7 index bits, 4 tag bits, no offset bits.
  const LINES := 128
  const TAGS := 16
  const WORDS := 2048

  type Addr = a: nat | a < WORDS

  function IndexOf(addr: nat): (i: nat)
    ensures i < LINES
  {
    addr % LINES
  }

  function TagOf(addr: nat): (t: nat)
    ensures t < TAGS
  {
    (addr / LINES) % TAGS
  }

  /** (tag << INDEX_WIDTH) | index */
  function AddrOf(tag: nat, index: nat): nat {
    tag * LINES + index
  }

  datatype Line = Line(tag: nat, index: nat, state: State, data: Word)

  datatype Message = Message(cmd: Cmd, addr: nat, data: Word)

  /** The line at its own slot, as every cache keeps it. */
  predicate InSlot(line: Line, i: nat) {
    line.index == i && line.tag < TAGS
  }

  predicate Holds(line: Line, addr: nat) {
    line.state != Invalid && line.tag == TagOf(addr)
  }

  /** A valid line for another address must be evicted before `addr` can use the slot. */
  predicate Mismatch(line: Line, addr: nat) {
    line.state != Invalid && line.tag != TagOf(addr)
  }

  function EvictMessage(line: Line, addr: nat): Option<Message> {
    if !Mismatch(line, addr) then None
    else Some(Message(if line.state == Shared then EvictClean else EvictDirty,
                      AddrOf(line.tag, line.index), line.data))
  }

  function AfterEvict(line: Line, addr: nat): Line {
    if Mismatch(line, addr) then line.(state := Invalid) else line
  }

  /** The bus command of a read or write, once the tag check is done. */
  function BusCommand(line: Line, isWrite: bool): Option<Cmd> {
    OnProcessorEvent(line.state, isWrite).cmd
  }

  /** The directory granted the bus command: take the state, the tag and the word. */
  function Fill(line: Line, addr: nat, isWrite: bool, word: Word): Line {
    Line(TagOf(addr), line.index, OnProcessorEvent(line.state, isWrite).next, word)
  }

  function Store(line: Line, data: Word, wstrb: Strobe): Line {
    line.(data := Merge(line.data, data, wstrb))
  }

  /** A snoop leaves a line with another tag alone. */
  function SnoopLine(line: Line, addr: nat, event: SnoopEvent): Line {
    if line.tag != TagOf(addr) then line
    else line.(state := OnSnoopEvent(line.state, event).next)
  }

  function SnoopData(line: Line, addr: nat, event: SnoopEvent): Word {
    if line.tag == TagOf(addr) && OnSnoopEvent(line.state, event).flush then line.data else ZERO
  }

  /** Only a writable line gives up its word, and only to a snoop that reads; a clean line hands over nothing. */
  lemma HandsOver(line: Line, addr: nat, event: SnoopEvent)
    ensures line.state == Modified && line.tag == TagOf(addr) && event in {SnoopRd, SnoopRdx} ==>
              SnoopData(line, addr, event) == line.data
    ensures !(line.state == Modified && line.tag == TagOf(addr) && event in {SnoopRd, SnoopRdx}) ==>
              SnoopData(line, addr, event) == ZERO
  {}

  /**
   * What a snoop leaves of a line: a read takes the right to write, a read-exclusive everything, and an
   * upgrade the copies that may only read; a line of another tag, its tag and its word are left alone.
   */
  lemma LeavesLine(line: Line, addr: nat, event: SnoopEvent)
    ensures var after := SnoopLine(line, addr, event);
            && after.tag == line.tag && after.index == line.index && after.data == line.data
            && (line.tag != TagOf(addr) ==> after == line)
            && (line.tag == TagOf(addr) && event == SnoopRd ==>
                  after.state == if line.state == Modified then Shared else line.state)
            && (line.tag == TagOf(addr) && event == SnoopRdx ==> after.state == Invalid)
            && (line.tag == TagOf(addr) && event == SnoopUpgr ==>
                  after.state == if line.state == Shared then Invalid else line.state)
  {}

  /**
   * A line serves a read once it may be read, and a write once it may be written; otherwise it asks for
   * just what it lacks, and holds it after the fill.
   */
  lemma AsksForWhatItLacks(line: Line, addr: nat, isWrite: bool, word: Word)
    ensures BusCommand(line, isWrite) == None <==> line.state == Modified || (line.state == Shared && !isWrite)
    ensures BusCommand(line, isWrite) == Some(BusUpgr) <==> line.state == Shared && isWrite
    ensures BusCommand(line, isWrite) == Some(BusRdx) <==> line.state == Invalid && isWrite
    ensures BusCommand(line, isWrite) == Some(BusRd) <==> line.state == Invalid && !isWrite
    ensures BusCommand(line, isWrite).Some? ==>
              Fill(line, addr, isWrite, word)
              == Line(TagOf(addr), line.index, if isWrite then Modified else Shared, word)
  {}

  /** Tag and index split an address below 2048 without loss; beyond it addresses alias. */
  lemma AddrSplit(addr: nat)
    ensures IndexOf(addr) == addr % 128 && TagOf(addr) == (addr / 128) % 16 && WORDS == 2048
    ensures AddrOf(TagOf(addr), IndexOf(addr)) == addr % WORDS
    ensures AddrOf(TagOf(addr), IndexOf(addr)) == addr <==> addr < WORDS
  {}

  /** Addresses with the same slot and tag are the same address. */
  lemma SameSlotSameTag(a: Addr, b: Addr)
    ensures a == b <==> IndexOf(a) == IndexOf(b) && TagOf(a) == TagOf(b)
  {}
}
