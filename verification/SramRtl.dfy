/**
 * The memory stack as clocked objects over SRAM macros. Each Posedge is one rising clock edge with
 * reset released and scan off, and takes the object to the state the stack functions give.
 */
module SramRtl {
  import opened Words
  import opened CacheLine
  import opened Sram

  /** A synchronous SRAM macro: an enabled edge loads the old content into the output register, and stores if asked. */
  class SyncSram<T> {
    const mem: array<T>
    var q: T

    constructor (depth: nat, fill: T)
      ensures fresh(mem) && mem.Length == depth
    {
      mem := new T[depth](i => fill);
      q := fill;
    }

    method Posedge(enable: bool, write: bool, addr: nat, d: T)
      requires addr < mem.Length
      modifies this, mem
      ensures q == if enable then old(mem[addr]) else old(q)
      ensures mem[..] == if enable && write then old(mem[..])[addr := d] else old(mem[..])
    {
      if enable {
        q := mem[addr];
        if write {
          mem[addr] := d;
        }
      }
    }
  }

  class Mem128x32 {
    var phase: DataPhase
    var resetAddr: nat
    var addr: nat
    var mode: Strobe
    var read: Word
    var toWrite: bv8
    const sram: SyncSram<bv8>

    ghost function Parts(): set<object> {
      {this, sram, sram.mem}
    }

    ghost function State(): DataMem
      reads Parts()
    {
      DataMem(phase, resetAddr, addr, mode, read, toWrite, sram.mem[..], sram.q)
    }

    ghost predicate Valid()
      reads Parts()
    {
      DataOk(State())
    }

    constructor (power: bv8)
      ensures Valid() && fresh(Parts())
      ensures phase == DataReset && resetAddr == 0 && toWrite == 0
    {
      phase, resetAddr, addr := DataReset, 0, 0;
      mode, read, toWrite := NONE, ZERO, 0;
      sram := new SyncSram(BYTES, power);
    }

    /** The macro's enable and write lines in the present phase. */
    function Enabled(): bool
      reads this
    {
      phase in {DataClear, Byte0, Byte1, Byte2, Byte3, LastRead}
    }

    function Writing(): bool
      reads this
    {
      match phase
      case DataClear => true
      case Byte0 => mode.s0
      case Byte1 => mode.s1
      case Byte2 => mode.s2
      case Byte3 => mode.s3
      case _ => false
    }

    method Posedge(r: PortReq, ready: bool)
      requires Valid() && r.index < LINES
      modifies Parts()
      ensures Valid()
      ensures State() == DataNext(old(State()), r, ready)
    {
      var q := sram.q;
      sram.Posedge(Enabled(), Writing(), if phase == DataClear then resetAddr else addr, toWrite);
      match phase {
        case DataReset =>
          phase := DataClear;
        case DataClear =>
          phase := if resetAddr == BYTES - 1 then DataIdle else DataClear;
          resetAddr := Inc9(resetAddr);
        case DataIdle =>
          if r.valid {
            phase, mode, addr := Byte0, r.wstrb, 4 * r.index;
            toWrite, read := r.wdata.b0, ZERO;
          }
        case Byte0 =>
          phase, addr, toWrite := Byte1, Inc9(addr), r.wdata.b1;
        case Byte1 =>
          phase, addr, toWrite := Byte2, Inc9(addr), r.wdata.b2;
          read := ShiftIn(read, q);
        case Byte2 =>
          phase, addr, toWrite := Byte3, Inc9(addr), r.wdata.b3;
          read := ShiftIn(read, q);
        case Byte3 =>
          phase, read := LastRead, ShiftIn(read, q);
        case LastRead =>
          phase, read := DataResp, ShiftIn(read, q);
        case DataResp =>
          if ready {
            phase := DataIdle;
          }
      }
    }
  }

  class Mem128x6 {
    var phase: TagPhase
    var resetAddr: nat
    var addr: nat
    var read: Row
    const sram: SyncSram<Row>

    ghost function Parts(): set<object> {
      {this, sram, sram.mem}
    }

    ghost function State(): TagMem
      reads Parts()
    {
      TagMem(phase, resetAddr, addr, read, sram.mem[..], sram.q)
    }

    ghost predicate Valid()
      reads Parts()
    {
      TagOk(State())
    }

    constructor (power: Row)
      ensures Valid() && fresh(Parts())
      ensures phase == TagReset && resetAddr == 0
    {
      phase, resetAddr, addr := TagReset, 0, 0;
      read := CLEARED;
      sram := new SyncSram(LINES, power);
    }

    method Posedge(r: PortReq, ready: bool)
      requires Valid() && r.index < LINES
      modifies Parts()
      ensures Valid()
      ensures State() == TagNext(old(State()), r, ready)
    {
      var q := sram.q;
      match phase {
        case TagReset =>
          phase := TagClear;
        case TagClear =>
          sram.Posedge(true, true, resetAddr, CLEARED);
          if resetAddr == LINES - 1 {
            phase := TagIdle;
          } else {
            resetAddr := resetAddr + 1;
          }
        case TagIdle =>
          if r.valid {
            phase, addr := TagReq, r.index;
            if Writes(r) {
              sram.Posedge(true, true, r.index, r.row);
            }
          }
        case TagReq =>
          sram.Posedge(true, false, addr, CLEARED);
          phase := TagWait;
        case TagWait =>
          sram.Posedge(true, false, addr, CLEARED);
          phase, read := TagResp, q;
        case TagResp =>
          if ready {
            phase := TagIdle;
          }
      }
    }
  }

  /** The two memories behind one port, shared by two ports. */
  class TwoPortCacheMem {
    var busy: bool
    var activePort: Port
    var lastGrant: Port
    const tagMem: Mem128x6
    const dataMem: Mem128x32

    ghost function Parts(): set<object> {
      {this} + tagMem.Parts() + dataMem.Parts()
    }

    ghost function State(): Stack
      reads Parts()
    {
      Stack(busy, activePort, lastGrant, CacheMem(tagMem.State(), dataMem.State()))
    }

    ghost predicate Valid()
      reads Parts()
    {
      && tagMem.Valid() && dataMem.Valid()
      && tagMem.Parts() !! dataMem.Parts() && this !in tagMem.Parts() + dataMem.Parts()
    }

    constructor (powerByte: bv8, powerRow: Row)
      ensures Valid() && fresh(Parts())
      ensures !State().busy && State().last == P0
      ensures State().mem.tag.phase == TagReset && State().mem.tag.resetAddr == 0
      ensures State().mem.data.phase == DataReset && State().mem.data.resetAddr == 0 && State().mem.data.toWrite == 0
    {
      busy, activePort, lastGrant := false, P0, P0;
      tagMem := new Mem128x6(powerRow);
      dataMem := new Mem128x32(powerByte);
    }

    /** The joined ready and valid of the two memories. */
    function Ready(): bool
      reads tagMem, dataMem
    {
      tagMem.phase == TagIdle && dataMem.phase == DataIdle
    }

    function Responding(): bool
      reads tagMem, dataMem
    {
      tagMem.phase == TagResp && dataMem.phase == DataResp
    }

    method Posedge(p0: PortReq, p1: PortReq, r0: bool, r1: bool)
      requires Valid() && p0.index < LINES && p1.index < LINES
      modifies Parts()
      ensures Valid()
      ensures State() == StackNext(old(State()), p0, p1, r0, r1)
    {
      var granted := if busy then None else Grant(lastGrant, p0.valid, p1.valid);
      var m := NO_REQUEST;
      if busy {
        m := if activePort == P0 then p0 else p1;
      } else if granted.Some? {
        m := if granted.value == P0 then p0 else p1;
      }
      var ready := busy && if activePort == P0 then r0 else r1;
      var start := !busy && m.valid && Ready();
      var end := busy && Responding() && ready;
      var tagReady := ready && dataMem.phase == DataResp;
      tagMem.Posedge(m, tagReady);
      dataMem.Posedge(m, ready);
      if start {
        busy := true;
        if granted.Some? {
          activePort, lastGrant := granted.value, granted.value;
        }
      }
      if end {
        busy := false;
      }
    }
  }
}
