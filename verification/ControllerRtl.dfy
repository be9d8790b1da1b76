/**
 * The cache controller as clocked objects: the CPU machine, the snoop machine, and the controller
 * that joins them with the memory stack and the outbound arbiter. Each Posedge is one rising clock
 * edge with reset released and scan off.
 */
module ControllerRtl {
  import opened Words
  import opened Msi
  import opened CacheLine
  import opened Sram
  import opened PortedArray
  import opened Outbound
  import opened Controller
  import opened SramRtl

  class CpuMachine {
    var stateQ: CpuState
    var addrQ: nat
    var wdataQ: Word
    var wstrbQ: Strobe
    var nextStateQ: State
    var issueCmdQ: Option<Cmd>
    var lineTagQ: nat
    var lineStateQ: State
    var lineDataQ: Word
    var tagMatchQ: bool

    function State(): Cpu
      reads this
    {
      Cpu(stateQ, addrQ, wdataQ, wstrbQ, nextStateQ, issueCmdQ, Cell(Row(lineTagQ, lineStateQ), lineDataQ), tagMatchQ)
    }

    constructor ()
      ensures State() == CPU_RESET
    {
      stateQ, addrQ, wdataQ, wstrbQ := CpuIdle, 0, ZERO, NONE;
      nextStateQ, issueCmdQ := Invalid, None;
      lineTagQ, lineStateQ, lineDataQ, tagMatchQ := 0, Invalid, ZERO, true;
    }

    method LatchLine(cell: Cell)
      modifies this`lineTagQ, this`lineStateQ, this`lineDataQ
      ensures lineTagQ == cell.row.tag && lineStateQ == cell.row.state && lineDataQ == cell.data
    {
      lineTagQ, lineStateQ, lineDataQ := cell.row.tag, cell.row.state, cell.data;
    }

    /** The states that wait on the memory. */
    method MemoryPosedge(m: MemOut)
      requires CpuAsks(State()) || CpuTakes(State())
      modifies this
      ensures forall e: Env, sent: bool :: State() == CpuNext(old(State()), e, m, sent)
    {
      match stateQ {
        case FetchLineReq => if m.ready { stateQ := FetchLineResp; }
        case FetchLineResp =>
          if m.valid {
            var mismatch := m.cell.row.tag != TagOf(addrQ) && m.cell.row.state != Invalid;
            if mismatch {
              tagMatchQ := false;
            }
            LatchLine(m.cell);
            stateQ := if mismatch then TagMiss else TagMatch;
          }
        case ReadMissUpdateReq => if m.ready { stateQ := ReadMissUpdateResp; }
        case ReadMissUpdateResp => if m.valid { stateQ := ReadReq; }
        case ReadReq => if m.ready { stateQ := ReadResp; }
        case ReadResp => if m.valid { tagMatchQ, stateQ := true, CpuIdle; }
        case WriteReq => if m.ready { stateQ := WriteResp; }
        case WriteResp => if m.valid { tagMatchQ, stateQ := true, CpuIdle; }
        case FlushLookupReq => if m.ready { stateQ := FlushLookupResp; }
        case FlushLookupResp =>
          if m.valid {
            LatchLine(m.cell);
            stateQ := if m.cell.row.tag == TagOf(addrQ) && m.cell.row.state != Invalid then FlushEvict else CpuIdle;
          }
        case FlushInvalidateReq => if m.ready { stateQ := FlushInvalidateResp; }
        case FlushInvalidateResp => if m.valid { stateQ := CpuIdle; }
        case _ =>
      }
    }

    /** One edge; the states that wait on the processor, the tables or the link are here. */
    method Posedge(e: Env, m: MemOut, sent: bool)
      modifies this
      ensures State() == CpuNext(old(State()), e, m, sent)
    {
      match stateQ {
        case CpuIdle =>
          if e.memValid {
            addrQ, wdataQ, wstrbQ := e.memAddr, e.memWdata, e.memWstrb;
            stateQ := FetchLineReq;
          } else if e.flushValid {
            addrQ, stateQ := e.flushAddr, FlushLookupReq;
          }
        case TagMiss => if sent { stateQ := if lineStateQ == Modified then EvictDirtyAck else TagMatch; }
        case EvictDirtyAck => if e.busValid && e.busCmd == EvictDirty { stateQ := TagMatch; }
        case TagMatch =>
          var tr := OnProcessorEvent(if tagMatchQ then lineStateQ else Invalid, wstrbQ != NONE);
          nextStateQ, issueCmdQ := tr.next, tr.cmd;
          if wstrbQ == NONE {
            stateQ := if tr.cmd.Some? then ReadMiss else ReadReq;
          } else {
            stateQ := if tr.cmd.Some? then WriteMiss else WriteReq;
          }
        case ReadMiss => if sent { stateQ := ReadMissAck; }
        case ReadMissAck =>
          if e.busValid {
            TakeWord(e);
            stateQ := ReadMissUpdateReq;
          }
        case WriteMiss => if sent { stateQ := WriteMissAck; }
        case WriteMissAck =>
          if e.busValid {
            TakeWord(e);
            stateQ := WriteReq;
          }
        case FlushEvict => if sent { stateQ := if lineStateQ == Modified then FlushEvictAck else FlushInvalidateReq; }
        case FlushEvictAck => if e.busValid && e.busCmd == EvictDirty { stateQ := FlushInvalidateReq; }
        case _ => MemoryPosedge(m);
      }
    }

    method TakeWord(e: Env)
      modifies this`lineDataQ
      ensures lineDataQ == AckedWord(old(State()), e)
    {
      if e.busCmd == BusRd || e.busCmd == BusRdx {
        lineDataQ := e.busData;
      }
    }
  }

  class SnoopMachine {
    var stateQ: SnpState
    var addrQ: nat
    var dircmdQ: SnoopEvent
    var nextStateQ: State
    var tagQ: nat
    var flushQ: bool
    var flushDataQ: Word
    var lineStateQ: State

    function State(): Snp
      reads this
    {
      Snp(stateQ, addrQ, dircmdQ, nextStateQ, tagQ, flushQ, flushDataQ, lineStateQ)
    }

    constructor ()
      ensures State() == SNP_RESET
    {
      stateQ, addrQ, dircmdQ := SnpIdle, 0, SnoopRd;
      nextStateQ, tagQ, flushQ, flushDataQ, lineStateQ := Invalid, 0, false, ZERO, Invalid;
    }

    method Posedge(e: Env, m: MemOut, sent: bool)
      modifies this
      ensures State() == SnpNext(old(State()), e, m, sent)
    {
      match stateQ {
        case SnpIdle =>
          if e.snoopValid {
            addrQ, dircmdQ := e.snoopAddr, e.snoopEvent;
            stateQ := SnpFetchReq;
          }
        case SnpFetchReq => if m.ready { stateQ := SnpFetchResp; }
        case SnpFetchResp =>
          if m.valid {
            if m.cell.row.tag != TagOf(addrQ) {
              flushQ, stateQ := false, SnpDone;
            } else {
              flushDataQ, tagQ, lineStateQ := m.cell.data, m.cell.row.tag, m.cell.row.state;
              stateQ := SnpEvent;
            }
          }
        case SnpEvent =>
          var tr := OnSnoopEvent(lineStateQ, dircmdQ);
          nextStateQ, flushQ, stateQ := tr.next, tr.flush, SnpUpdateReq;
        case SnpUpdateReq => if m.ready { stateQ := SnpUpdateResp; }
        case SnpUpdateResp => if m.valid { stateQ := SnpDone; }
        case SnpDone => if sent { stateQ := SnpIdle; }
      }
    }
  }

  class CacheController {
    const cpu: CpuMachine
    const snp: SnoopMachine
    const arbiter: OutboundArbiter
    const stack: TwoPortCacheMem

    ghost function Machines(): set<object> {
      {cpu, snp, arbiter}
    }

    ghost function Parts(): set<object> {
      Machines() + stack.Parts()
    }

    ghost function State(): Chip<Stack>
      reads Parts()
    {
      Chip(cpu.State(), snp.State(), arbiter.State(), stack.State())
    }

    ghost predicate Valid()
      reads Parts()
    {
      stack.Valid() && Machines() !! stack.Parts()
    }

    constructor (powerByte: bv8, powerRow: Row)
      ensures Valid() && fresh(Parts())
      ensures State().cpu == CPU_RESET && State().snp == SNP_RESET && State().arb == ARB_RESET
    {
      cpu := new CpuMachine();
      snp := new SnoopMachine();
      arbiter := new OutboundArbiter();
      stack := new TwoPortCacheMem(powerByte, powerRow);
    }

    /** What a port's machine sees of the stack. */
    method PortOut(p: Port, p0: PortReq, p1: PortReq) returns (m: MemOut)
      requires Valid()
      ensures m == RawOut(stack.State(), p, p0, p1)
    {
      var mine := if stack.busy then stack.activePort == p
                  else Grant(stack.lastGrant, p0.valid, p1.valid) == Some(p);
      m := MemOut(stack.Ready() && mine, stack.busy && stack.activePort == p && stack.Responding(),
                  Cell(stack.tagMem.read, stack.dataMem.read));
    }

    /** The machines' and the arbiter's registers, from the memory outputs before the edge. */
    method LoadMachines(e: Env, m0: MemOut, m1: MemOut)
      requires Valid()
      modifies cpu, snp, arbiter
      ensures Valid() && stack.State() == old(stack.State())
      ensures cpu.State() == CpuNext(old(cpu.State()), e, m0, old(CpuSent(State(), e)))
      ensures snp.State() == SnpNext(old(snp.State()), e, m1, old(SnpSent(State(), e)))
      ensures arbiter.State() == ArbNext(old(arbiter.State()), old(ChipMasters(State(), e)))
    {
      var out0, out1 := CpuOut(cpu.State()), SnpOut(snp.State());
      var sent0 := ReadyTo(arbiter.State(), P0, e.cacheReady);
      var sent1 := ReadyTo(arbiter.State(), P1, e.cacheReady);
      cpu.Posedge(e, m0, sent0);
      snp.Posedge(e, m1, sent1);
      arbiter.Posedge(out0, out1, e.cacheReady);
    }

    /** All registers load on the same edge, from the outputs before it. */
    method Posedge(e: Env)
      requires Valid()
      modifies Parts()
      ensures Valid()
      ensures StackOk(old(State()).mem)
      ensures State() == RawNext(old(State()), e)
    {
      var c, s := cpu.State(), snp.State();
      var p0, p1 := CpuPort(c), SnpPort(s);
      var m0 := PortOut(P0, p0, p1);
      var m1 := PortOut(P1, p0, p1);
      LoadMachines(e, m0, m1);
      stack.Posedge(p0, p1, CpuTakes(c) && m0.valid, SnpTakes(s) && m1.valid);
    }
  }
}
