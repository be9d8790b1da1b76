/**
 * The cache's memory stack, cycle by cycle: a byte-serial data memory and a tag memory, joined
 * behind one port, shared by two ports through a round-robin lock. Every function named Next is one
 * rising clock edge with reset released and scan off. The SRAM macros are synchronous: a write takes
 * effect and the read register loads the old content on the same edge.
 */
module Sram {
  import opened Words
  import opened Msi
  import opened CacheLine

  const BYTES := 512

  /** The 6-bit tag-and-state row of one line. */
  datatype Row = Row(tag: nat, state: State)

  const CLEARED := Row(0, Invalid)

  /** What one port drives. */
  datatype PortReq = PortReq(valid: bool, index: nat, wdata: Word, wstrb: Strobe, row: Row)

  const NO_REQUEST := PortReq(false, 0, ZERO, NONE, CLEARED)

  predicate Writes(r: PortReq) {
    r.wstrb != NONE
  }

  // ---- 128 words over a 512-byte SRAM, one byte a cycle ----

  datatype DataPhase = DataReset | DataClear | DataIdle | Byte0 | Byte1 | Byte2 | Byte3 | LastRead | DataResp

  /** `q` is the SRAM's output register; `toWrite` its data input. */
  datatype DataMem = DataMem(phase: DataPhase, resetAddr: nat, addr: nat, mode: Strobe, read: Word, toWrite: bv8,
                             bytes: seq<bv8>, q: bv8)

  predicate DataOk(d: DataMem) {
    |d.bytes| == BYTES && d.resetAddr < BYTES && d.addr < BYTES
  }

  /** A 9-bit increment. */
  function Inc9(a: nat): nat {
    if a + 1 < BYTES then a + 1 else 0
  }

  /** The read register takes the byte read last at the top. */
  function ShiftIn(w: Word, b: bv8): Word {
    Word(w.b1, w.b2, w.b3, b)
  }

  function StoreByte(d: DataMem, enabled: bool): seq<bv8>
    requires DataOk(d)
  {
    if enabled then d.bytes[d.addr := d.toWrite] else d.bytes
  }

  function DataNext(d: DataMem, r: PortReq, ready: bool): DataMem
    requires DataOk(d) && r.index < LINES
  {
    match d.phase
    case DataReset => d.(phase := DataClear)
    case DataClear =>
      d.(phase := if d.resetAddr == BYTES - 1 then DataIdle else DataClear,
         resetAddr := Inc9(d.resetAddr),
         bytes := d.bytes[d.resetAddr := d.toWrite], q := d.bytes[d.resetAddr])
    case DataIdle =>
      if r.valid then d.(phase := Byte0, mode := r.wstrb, addr := 4 * r.index, toWrite := r.wdata.b0, read := ZERO)
      else d
    case Byte0 =>
      d.(phase := Byte1, addr := Inc9(d.addr), toWrite := r.wdata.b1,
         bytes := StoreByte(d, d.mode.s0), q := d.bytes[d.addr])
    case Byte1 =>
      d.(phase := Byte2, addr := Inc9(d.addr), toWrite := r.wdata.b2, read := ShiftIn(d.read, d.q),
         bytes := StoreByte(d, d.mode.s1), q := d.bytes[d.addr])
    case Byte2 =>
      d.(phase := Byte3, addr := Inc9(d.addr), toWrite := r.wdata.b3, read := ShiftIn(d.read, d.q),
         bytes := StoreByte(d, d.mode.s2), q := d.bytes[d.addr])
    case Byte3 =>
      d.(phase := LastRead, read := ShiftIn(d.read, d.q),
         bytes := StoreByte(d, d.mode.s3), q := d.bytes[d.addr])
    case LastRead =>
      d.(phase := DataResp, read := ShiftIn(d.read, d.q), q := d.bytes[d.addr])
    case DataResp =>
      if ready then d.(phase := DataIdle) else d
  }

  // ---- 128 tag-and-state rows ----

  datatype TagPhase = TagReset | TagClear | TagIdle | TagReq | TagWait | TagResp

  datatype TagMem = TagMem(phase: TagPhase, resetAddr: nat, addr: nat, read: Row, rows: seq<Row>, q: Row)

  predicate TagOk(t: TagMem) {
    |t.rows| == LINES && t.resetAddr < LINES && t.addr < LINES
  }

  function TagNext(t: TagMem, r: PortReq, ready: bool): TagMem
    requires TagOk(t) && r.index < LINES
  {
    match t.phase
    case TagReset => t.(phase := TagClear)
    case TagClear =>
      var cleared := t.(rows := t.rows[t.resetAddr := CLEARED], q := t.rows[t.resetAddr]);
      if t.resetAddr == LINES - 1 then cleared.(phase := TagIdle) else cleared.(resetAddr := t.resetAddr + 1)
    case TagIdle =>
      if !r.valid then t
      else if Writes(r) then
        t.(phase := TagReq, addr := r.index, rows := t.rows[r.index := r.row], q := t.rows[r.index])
      else t.(phase := TagReq, addr := r.index)
    case TagReq => t.(phase := TagWait, q := t.rows[t.addr])
    case TagWait => t.(phase := TagResp, read := t.q, q := t.rows[t.addr])
    case TagResp => if ready then t.(phase := TagIdle) else t
  }

  // ---- Both behind one port: ready and valid only when both are ---

  datatype CacheMem = CacheMem(tag: TagMem, data: DataMem)

  predicate MemOk(m: CacheMem) {
    TagOk(m.tag) && DataOk(m.data)
  }

  predicate MemReady(m: CacheMem) {
    m.tag.phase == TagIdle && m.data.phase == DataIdle
  }

  predicate MemValid(m: CacheMem) {
    m.tag.phase == TagResp && m.data.phase == DataResp
  }

  function MemNext(m: CacheMem, r: PortReq, ready: bool): CacheMem
    requires MemOk(m) && r.index < LINES
  {
    CacheMem(TagNext(m.tag, r, ready && m.data.phase == DataResp), DataNext(m.data, r, ready))
  }

  // ---- Two ports, a round-robin grant and a lock ----

  datatype Port = P0 | P1

  datatype Stack = Stack(busy: bool, active: Port, last: Port, mem: CacheMem)

  predicate StackOk(s: Stack) {
    MemOk(s.mem)
  }

  /** With both ports asking, the one not granted last. */
  function Grant(last: Port, v0: bool, v1: bool): Option<Port> {
    if v0 && v1 then Some(if last == P0 then P1 else P0)
    else if v0 then Some(P0)
    else if v1 then Some(P1)
    else None
  }

  /** The request the memory sees: the active port's while locked, else the granted one's. */
  function Muxed(s: Stack, p0: PortReq, p1: PortReq): PortReq {
    if s.busy then (if s.active == P0 then p0 else p1)
    else
      match Grant(s.last, p0.valid, p1.valid)
      case None => NO_REQUEST
      case Some(p) => if p == P0 then p0 else p1
  }

  predicate ReadyOut(s: Stack, p: Port, p0: PortReq, p1: PortReq) {
    MemReady(s.mem) && if s.busy then s.active == p else Grant(s.last, p0.valid, p1.valid) == Some(p)
  }

  predicate ValidOut(s: Stack, p: Port) {
    s.busy && s.active == p && MemValid(s.mem)
  }

  /** `r0` and `r1` are the ports' response-ready inputs. */
  function StackNext(s: Stack, p0: PortReq, p1: PortReq, r0: bool, r1: bool): Stack
    requires StackOk(s) && p0.index < LINES && p1.index < LINES
  {
    var m := Muxed(s, p0, p1);
    var ready := s.busy && if s.active == P0 then r0 else r1;
    var start := !s.busy && m.valid && MemReady(s.mem);
    var end := s.busy && MemValid(s.mem) && ready;
    var granted := Grant(s.last, p0.valid, p1.valid);
    Stack(if start then true else if end then false else s.busy,
          if start && granted.Some? then granted.value else s.active,
          if start && granted.Some? then granted.value else s.last,
          MemNext(s.mem, m, ready))
  }

  lemma DataOkKept(d: DataMem, r: PortReq, ready: bool)
    requires DataOk(d) && r.index < LINES
    ensures DataOk(DataNext(d, r, ready))
  {}

  lemma TagOkKept(t: TagMem, r: PortReq, ready: bool)
    requires TagOk(t) && r.index < LINES
    ensures TagOk(TagNext(t, r, ready))
  {}

  lemma StackOkKept(s: Stack, p0: PortReq, p1: PortReq, r0: bool, r1: bool)
    requires StackOk(s) && p0.index < LINES && p1.index < LINES
    ensures StackOk(StackNext(s, p0, p1, r0, r1))
  {
    var m := Muxed(s, p0, p1);
    var ready := s.busy && if s.active == P0 then r0 else r1;
    DataOkKept(s.mem.data, m, ready);
    TagOkKept(s.mem.tag, m, ready && s.mem.data.phase == DataResp);
  }

  /**
   * Who gets the memory. Free and ready, the port that asks, and of two the one not served last; it keeps it,
   * locked, until both memories show their answer and it takes it. Nobody else is told ready or valid.
   */
  lemma TakesTurns(s: Stack, p0: PortReq, p1: PortReq, r0: bool, r1: bool)
    requires StackOk(s) && p0.index < LINES && p1.index < LINES
    ensures var s' := StackNext(s, p0, p1, r0, r1);
            var free := s.mem.tag.phase == TagIdle && s.mem.data.phase == DataIdle;
            var shows := s.mem.tag.phase == TagResp && s.mem.data.phase == DataResp;
            && (!s.busy && free && p0.valid && (!p1.valid || s.last == P1) ==>
                  s'.busy && s'.active == s'.last == P0 && ReadyOut(s, P0, p0, p1) && !ReadyOut(s, P1, p0, p1))
            && (!s.busy && free && p1.valid && (!p0.valid || s.last == P0) ==>
                  s'.busy && s'.active == s'.last == P1 && ReadyOut(s, P1, p0, p1) && !ReadyOut(s, P0, p0, p1))
            && (!s.busy && (!free || (!p0.valid && !p1.valid)) ==>
                  !s'.busy && s'.last == s.last && !ReadyOut(s, P0, p0, p1) && !ReadyOut(s, P1, p0, p1))
            && (s.busy ==> s'.last == s.last && s'.active == s.active)
            && (s.busy ==> forall p :: ReadyOut(s, p, p0, p1) <==> free && s.active == p)
            && (s.busy ==> (s'.busy <==> !(shows && if s.active == P0 then r0 else r1)))
    ensures forall p :: ValidOut(s, p) <==>
              s.busy && s.active == p && s.mem.tag.phase == TagResp && s.mem.data.phase == DataResp
  {}
}
