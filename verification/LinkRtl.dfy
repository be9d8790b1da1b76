/**
 * The interposer interface as clocked objects: serializers, lossy pipes, and the interface that
 * joins them. Each Posedge is one rising clock edge with reset released and scan off.
 */
module LinkRtl {
  import opened SerialLink
  import opened Packet

  /** A one-entry pipe that overwrites: it is always ready upstream. */
  datatype Pipe<T> = Pipe(valid: bool, data: T)

  function PipeNext<T>(p: Pipe<T>, valid: bool, data: T, ready: bool): Pipe<T> {
    if valid then Pipe(true, data)
    else if ready then Pipe(false, p.data)
    else p
  }

  class LossyPipeStage<T> {
    var validReg: bool
    var dataReg: T

    function State(): Pipe<T>
      reads this
    {
      Pipe(validReg, dataReg)
    }

    constructor (data: T)
      ensures State() == Pipe(false, data)
    {
      validReg := false;
      dataReg := data;
    }

    method Posedge(valid: bool, data: T, ready: bool)
      modifies this
      ensures State() == PipeNext(old(State()), valid, data, ready)
    {
      if valid {
        validReg := true;
        dataReg := data;
      } else if ready {
        validReg := false;
      }
    }
  }

  /** Moves every element of the register up one place; element 0 stays. */
  method ShiftInPlace(shift: array<Bits>)
    modifies shift
    ensures shift[..] == ShiftUp(old(shift[..]))
  {
    var i := shift.Length;
    while i > 1
      invariant 0 <= i <= shift.Length && (shift.Length > 0 ==> i > 0)
      invariant forall k | 0 <= k < i :: shift[k] == old(shift[k])
      invariant forall k | 0 < i <= k < shift.Length :: shift[k] == old(shift[k - 1])
    {
      i := i - 1;
      shift[i] := shift[i - 1];
    }
  }

  class TSerializer {
    var sending: bool
    var currMsgLen: nat
    var count: nat
    const shiftArr: array<Bits>

    ghost function State(): Tx
      reads this, shiftArr
    {
      Tx(sending, currMsgLen, count, shiftArr[..])
    }

    constructor (depth: nat)
      ensures fresh(shiftArr) && shiftArr.Length == depth
      ensures State() == Tx(false, 0, 0, seq(depth, i => []))
    {
      sending, currMsgLen, count := false, 0, 0;
      shiftArr := new Bits[depth](i => []);
      new;
      assert shiftArr[..] == seq(depth, i => []);
    }

    function Serial(): Bits
      reads this, shiftArr
      ensures Serial() == SerialLink.Serial(State())
    {
      if 0 < currMsgLen <= shiftArr.Length then shiftArr[currMsgLen - 1] else []
    }

    method Posedge(valid: bool, dataIn: Chunks, msgLen: nat)
      requires |dataIn| == shiftArr.Length
      modifies this, shiftArr
      ensures State() == TxNext(old(State()), valid, dataIn, msgLen)
    {
      if sending {
        var cntDone := count + 1 == currMsgLen;
        count := count + 1;
        ShiftInPlace(shiftArr);
        sending := !cntDone;
      } else {
        currMsgLen, count := msgLen, 0;
        for i := 0 to shiftArr.Length
          invariant forall k | 0 <= k < i :: shiftArr[k] == dataIn[k]
          modifies shiftArr
        {
          shiftArr[i] := dataIn[i];
        }
        assert shiftArr[..] == dataIn;
        sending := valid;
      }
    }
  }

  class RSerializer {
    var receiving: bool
    var valid: bool
    const shiftArr: array<Bits>

    ghost function State(): Rx
      reads this, shiftArr
    {
      Rx(receiving, valid, shiftArr[..])
    }

    constructor (depth: nat)
      ensures fresh(shiftArr) && shiftArr.Length == depth
      ensures State() == Rx(false, false, seq(depth, i => []))
    {
      receiving, valid := false, false;
      shiftArr := new Bits[depth](i => []);
      new;
      assert shiftArr[..] == seq(depth, i => []);
    }

    /** The request line fans out to the state and to every shift word. */
    method Posedge(req: bool, serial: Bits, ready: bool)
      modifies this, shiftArr
      ensures State() == RxNext(old(State()), req, serial, ready)
    {
      if receiving && !req {
        valid := true;
      } else if !receiving && req {
        valid := false;
      } else if ready {
        valid := false;
      }
      if req && shiftArr.Length > 0 {
        ghost var was := shiftArr[..];
        ShiftInPlace(shiftArr);
        shiftArr[0] := serial;
        assert shiftArr[..] == [serial] + was[..|was| - 1];
      }
      receiving := req;
    }
  }

  // ---- The interface as a whole ----

  /** How many pins the link has up to the far end, and down from it. */
  datatype Pins = Pins(up: nat, down: nat) {
    predicate Ok() { up > 0 && down > 0 }
  }

  datatype Ack = Ack(code: Code, field: Field)

  datatype Interface = Interface(tx: Tx, rx: Rx, bus: Pipe<Ack>, snoop: Pipe<Ack>, id: Bits)

  datatype Inputs = Inputs(valid: bool, cmd: Code, addr: Field, data: Field,
                           busReady: bool, snoopReady: bool, req: bool, serial: Bits)

  function InterfaceNext(s: Interface, i: Inputs, pins: nat): Interface
    requires pins > 0
  {
    var offer := Offered(Build(i.cmd, i.addr, i.data), pins, MAX_UP);
    var incoming := Decode(s.rx.shift);
    var route := RouteOf(incoming.code);
    var ack := Ack(incoming.code, incoming.field);
    Interface(TxNext(s.tx, i.valid, offer.chunks, offer.len),
              RxNext(s.rx, i.req, i.serial, true),
              PipeNext(s.bus, s.rx.valid && route == ToBus, ack, i.busReady),
              PipeNext(s.snoop, s.rx.valid && route == ToSnoop, ack, i.snoopReady),
              if s.rx.valid && route == ToId then incoming.id else s.id)
  }

  class CacheInterface {
    const pins: Pins
    const tserializer: TSerializer
    const rserializer: RSerializer
    const busPipe: LossyPipeStage<Ack>
    const snoopPipe: LossyPipeStage<Ack>
    var cpuId: Bits

    ghost function Parts(): set<object> {
      {this, tserializer, tserializer.shiftArr, rserializer, rserializer.shiftArr, busPipe, snoopPipe}
    }

    ghost predicate Valid() {
      && pins.Ok() && busPipe != snoopPipe && tserializer.shiftArr != rserializer.shiftArr
      && tserializer.shiftArr.Length == CeilDiv(MAX_UP, pins.up)
    }

    ghost function State(): Interface
      reads Parts()
    {
      Interface(tserializer.State(), rserializer.State(), busPipe.State(), snoopPipe.State(), cpuId)
    }

    constructor (pins: Pins)
      requires pins.Ok()
      ensures Valid() && fresh(Parts()) && this.pins == pins
      ensures State().tx == Tx(false, 0, 0, seq(CeilDiv(MAX_UP, pins.up), i => []))
      ensures State().rx == Rx(false, false, seq(CeilDiv(MAX_DOWN, pins.down), i => []))
      ensures !State().bus.valid && !State().snoop.valid
    {
      this.pins := pins;
      tserializer := new TSerializer(CeilDiv(MAX_UP, pins.up));
      rserializer := new RSerializer(CeilDiv(MAX_DOWN, pins.down));
      busPipe := new LossyPipeStage(Ack(0, Zeros(32)));
      snoopPipe := new LossyPipeStage(Ack(0, Zeros(32)));
      cpuId := Zeros(8);
    }

    method Posedge(i: Inputs)
      requires Valid()
      modifies Parts()
      ensures Valid()
      ensures State() == InterfaceNext(old(State()), i, pins.up)
    {
      var packet := Build(i.cmd, i.addr, i.data);
      var offer := Offered(packet, pins.up, MAX_UP);
      var rvalid, incoming := rserializer.valid, Decode(rserializer.shiftArr[..]);
      var route := RouteOf(incoming.code);
      tserializer.Posedge(i.valid, offer.chunks, offer.len);
      rserializer.Posedge(i.req, i.serial, true);
      busPipe.Posedge(rvalid && route == ToBus, Ack(incoming.code, incoming.field), i.busReady);
      snoopPipe.Posedge(rvalid && route == ToSnoop, Ack(incoming.code, incoming.field), i.snoopReady);
      if rvalid && route == ToId {
        cpuId := incoming.id;
      }
    }
  }

  // ---- A whole message from the far end lands in its pipe ----

  /** On valid, the pipe named by the arrived code takes the code and the field, and only that pipe. */
  lemma AckDelivered(s: Interface, i: Inputs, pins: Pins, code: Code, field: Field, kind: Kind)
    requires pins.Ok() && s.rx.valid && Length(kind) <= MAX_DOWN && |s.rx.shift| == CeilDiv(MAX_DOWN, pins.down)
    requires var len := CeilDiv(Length(kind), pins.down);
             && len <= |s.rx.shift|
             && s.rx.shift[..len] == Split(Message(code, field), pins.down, |s.rx.shift|)[..len]
    ensures var s' := InterfaceNext(s, i, pins.up);
            && (RouteOf(code) == ToBus ==>
                  && s'.bus.valid && s'.bus.data.code == code && (kind == Medium ==> s'.bus.data.field == field)
                  && s'.snoop == PipeNext(s.snoop, false, s.snoop.data, i.snoopReady) && s'.id == s.id)
            && (RouteOf(code) == ToSnoop ==>
                  && s'.snoop.valid && s'.snoop.data.code == code && (kind == Medium ==> s'.snoop.data.field == field)
                  && s'.bus == PipeNext(s.bus, false, s.bus.data, i.busReady) && s'.id == s.id)
            && (RouteOf(code) == ToId && kind == Short ==> s'.id == field[..8])
            && (RouteOf(code) == Nowhere ==>
                  && s'.id == s.id
                  && s'.bus == PipeNext(s.bus, false, s.bus.data, i.busReady)
                  && s'.snoop == PipeNext(s.snoop, false, s.snoop.data, i.snoopReady))
  {
    Received(code, field, kind, pins.down, s.rx.shift);
  }

  /** Without an arriving message a pipe only gives up what is taken from it, and the identity stays. */
  lemma NothingArrives(s: Interface, i: Inputs, up: nat)
    requires up > 0 && !s.rx.valid
    ensures var s' := InterfaceNext(s, i, up);
            && s'.id == s.id && s'.bus.data == s.bus.data && s'.snoop.data == s.snoop.data
            && (s'.bus.valid <==> s.bus.valid && !i.busReady)
            && (s'.snoop.valid <==> s.snoop.valid && !i.snoopReady)
  {}
}
