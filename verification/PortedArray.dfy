/**
 * The memory stack's specification: an atomic array of 128 cells behind two ports, one transaction
 * at a time, answered on the sixth edge after acceptance. The stack simulates it edge by edge as
 * long as the active port holds its request.
 */
module PortedArray {
  import opened Words
  import opened CacheLine
  import opened Sram

  datatype Cell = Cell(row: Row, data: Word)

  /** `age` counts the edges since acceptance; the response shows from LATENCY on. */
  datatype Txn = Txn(port: Port, req: PortReq, age: nat)

  datatype Ported = Ported(cells: seq<Cell>, last: Port, txn: Option<Txn>)

  const LATENCY := 5

  /** A write replaces the row and the strobed bytes of its cell. */
  function Written(cell: Cell, r: PortReq): Cell {
    if Writes(r) then Cell(r.row, Merge(cell.data, r.wdata, r.wstrb)) else cell
  }

  function Apply(cells: seq<Cell>, r: PortReq): seq<Cell>
    requires r.index < |cells|
  {
    cells[r.index := Written(cells[r.index], r)]
  }

  /** The answer to a request: the word as it was before, the row as it is after. */
  function Answer(cells: seq<Cell>, r: PortReq): Cell
    requires r.index < |cells|
  {
    Cell(Written(cells[r.index], r).row, cells[r.index].data)
  }

  predicate PortedOk(a: Ported) {
    && |a.cells| == LINES
    && (a.txn.Some? ==> a.txn.value.req.index < LINES && a.txn.value.age <= LATENCY && a.last == a.txn.value.port)
  }

  predicate Accepts(a: Ported, p: Port, v0: bool, v1: bool) {
    a.txn == None && Grant(a.last, v0, v1) == Some(p)
  }

  predicate Responds(a: Ported, p: Port) {
    a.txn.Some? && a.txn.value.port == p && a.txn.value.age == LATENCY
  }

  function PortedNext(a: Ported, p0: PortReq, p1: PortReq, r0: bool, r1: bool): Ported
    requires PortedOk(a)
  {
    match a.txn
    case None =>
      (match Grant(a.last, p0.valid, p1.valid)
       case None => a
       case Some(p) => Ported(a.cells, p, Some(Txn(p, if p == P0 then p0 else p1, 0))))
    case Some(t) =>
      if t.age < LATENCY then a.(txn := Some(t.(age := t.age + 1)))
      else if (if t.port == P0 then r0 else r1) then Ported(Apply(a.cells, t.req), a.last, None)
      else a
  }

  /** The active port holds its request until it is answered. */
  predicate Held(a: Ported, p0: PortReq, p1: PortReq) {
    a.txn.Some? ==> a.txn.value.req == if a.txn.value.port == P0 then p0 else p1
  }

  // ---- The simulation relation ----

  function WordAt(bytes: seq<bv8>, i: nat): Word
    requires |bytes| == BYTES && i < LINES
  {
    Word(bytes[4 * i], bytes[4 * i + 1], bytes[4 * i + 2], bytes[4 * i + 3])
  }

  function CellAt(m: CacheMem, i: nat): Cell
    requires MemOk(m) && i < LINES
  {
    Cell(m.tag.rows[i], WordAt(m.data.bytes, i))
  }

  /** The lanes written by the time a transaction has this age. */
  function LanesDone(s: Strobe, age: nat): Strobe {
    Below(s, age)
  }

  function LaneByte(w: Word, k: nat): bv8 {
    if k == 0 then w.b0 else if k == 1 then w.b1 else if k == 2 then w.b2 else w.b3
  }

  function PhaseAt(age: nat): DataPhase {
    if age == 0 then Byte0 else if age == 1 then Byte1 else if age == 2 then Byte2
    else if age == 3 then Byte3 else if age == 4 then LastRead else DataResp
  }

  function TagPhaseAt(age: nat): TagPhase {
    if age == 0 then TagReq else if age == 1 then TagWait else TagResp
  }

  /** The old word's bytes collected so far, at the top of the read register. */
  predicate Collected(read: Word, was: Word, age: nat) {
    && (age == 2 ==> read.b3 == was.b0)
    && (age == 3 ==> read.b2 == was.b0 && read.b3 == was.b1)
    && (age == 4 ==> read.b1 == was.b0 && read.b2 == was.b1 && read.b3 == was.b2)
    && (age == 5 ==> read == was)
  }

  predicate DataAt(d: DataMem, word: Word, t: Txn)
    requires t.req.index < LINES
  {
    && DataOk(d) && d.phase == PhaseAt(t.age) && d.mode == t.req.wstrb
    && d.addr == 4 * t.req.index + (if t.age < 3 then t.age else 3)
    && (t.age < 4 ==> d.toWrite == LaneByte(t.req.wdata, t.age))
    && (1 <= t.age <= 4 ==> d.q == LaneByte(word, t.age - 1))
    && Collected(d.read, word, t.age)
    && WordAt(d.bytes, t.req.index) == Merge(word, t.req.wdata, LanesDone(t.req.wstrb, t.age))
  }

  predicate TagAt(m: TagMem, row: Row, t: Txn)
    requires t.req.index < LINES
  {
    && TagOk(m) && m.phase == TagPhaseAt(t.age) && m.addr == t.req.index
    && m.rows[t.req.index] == (if Writes(t.req) then t.req.row else row)
    && (t.age >= 1 ==> m.q == m.rows[t.req.index])
    && (t.age >= 2 ==> m.read == m.rows[t.req.index])
  }

  ghost predicate Simulates(s: Stack, a: Ported) {
    && StackOk(s) && PortedOk(a) && s.last == a.last
    && match a.txn
       case None =>
         && !s.busy && MemReady(s.mem)
         && forall i | 0 <= i < LINES :: CellAt(s.mem, i) == a.cells[i]
       case Some(t) =>
         && s.busy && s.active == t.port
         && DataAt(s.mem.data, a.cells[t.req.index].data, t)
         && TagAt(s.mem.tag, a.cells[t.req.index].row, t)
         && forall i | 0 <= i < LINES && i != t.req.index :: CellAt(s.mem, i) == a.cells[i]
  }

  /** Ready and valid of both ports, and the answer, are the specification's. */
  lemma OutputsAgree(s: Stack, a: Ported, p0: PortReq, p1: PortReq, p: Port)
    requires Simulates(s, a)
    ensures ReadyOut(s, p, p0, p1) <==> Accepts(a, p, p0.valid, p1.valid)
    ensures ValidOut(s, p) <==> Responds(a, p)
    ensures Responds(a, p) ==>
              Cell(s.mem.tag.read, s.mem.data.read) == Answer(a.cells, a.txn.value.req)
  {}

  /** Storing a byte moves one lane of one word. */
  lemma StoreAt(bytes: seq<bv8>, i: nat, k: nat, b: bv8, j: nat)
    requires |bytes| == BYTES && i < LINES && k < 4 && j < LINES
    ensures var w := WordAt(bytes, j);
            WordAt(bytes[4 * i + k := b], j) == if i == j then Merge(w, Word(b, b, b, b), OneLane(k)) else w
  {}

  /** One byte stored in passing, if its lane is strobed. */
  lemma StoreLane(d: DataMem, word: Word, t: Txn)
    requires t.req.index < LINES && t.age < 4 && DataAt(d, word, t)
    ensures var bytes := StoreByte(d, t.req.wstrb.Bit(t.age));
            && WordAt(bytes, t.req.index) == Merge(word, t.req.wdata, LanesDone(t.req.wstrb, t.age + 1))
            && forall j | 0 <= j < LINES && j != t.req.index :: WordAt(bytes, j) == WordAt(d.bytes, j)
  {
    var i, k, b := t.req.index, t.age, d.toWrite;
    forall j | 0 <= j < LINES && j != i
      ensures WordAt(StoreByte(d, t.req.wstrb.Bit(k)), j) == WordAt(d.bytes, j)
    {
      StoreAt(d.bytes, i, k, b, j);
    }
    StoreAt(d.bytes, i, k, b, i);
    MergeNextLane(word, t.req.wdata, t.req.wstrb, k);
    LaneMerge(WordAt(d.bytes, i), t.req.wdata, k);
  }

  /** Only the enabled lane of the merged data matters. */
  lemma LaneMerge(w: Word, data: Word, k: nat)
    requires k < 4
    ensures var b := LaneByte(data, k); Merge(w, Word(b, b, b, b), OneLane(k)) == Merge(w, data, OneLane(k))
  {}

  /** The registers after one byte: the next address and byte to write, and one more old byte collected. */
  lemma ByteStep(d: DataMem, word: Word, t: Txn, r: PortReq, ready: bool)
    requires t.req.index < LINES && DataAt(d, word, t) && t.age < 4 && r == t.req
    ensures var d' := DataNext(d, r, ready);
            && d'.bytes == StoreByte(d, t.req.wstrb.Bit(t.age)) && d'.q == LaneByte(word, t.age)
            && d'.phase == PhaseAt(t.age + 1) && d'.mode == d.mode && d'.resetAddr == d.resetAddr
            && d'.addr == 4 * t.req.index + (if t.age < 2 then t.age + 1 else 3)
            && (t.age < 3 ==> d'.toWrite == LaneByte(t.req.wdata, t.age + 1))
            && Collected(d'.read, word, t.age + 1)
  {
    ByteRead(d, word, t);
    if t.age < 2 {
      assert t.age == 0 || t.age == 1;
    } else {
      assert t.age == 2 || t.age == 3;
    }
  }

  lemma DataStep(d: DataMem, word: Word, t: Txn, r: PortReq, ready: bool)
    requires t.req.index < LINES && DataAt(d, word, t) && t.age < LATENCY && r == t.req
    ensures DataAt(DataNext(d, r, ready), word, t.(age := t.age + 1))
    ensures forall i | 0 <= i < LINES && i != t.req.index ::
              WordAt(DataNext(d, r, ready).bytes, i) == WordAt(d.bytes, i)
  {
    DataOkKept(d, r, ready);
    if t.age < 4 {
      StoreLane(d, word, t);
      ByteStep(d, word, t, r, ready);
    }
  }

  /** The byte under the address is still the old one when it is read. */
  lemma ByteRead(d: DataMem, word: Word, t: Txn)
    requires t.req.index < LINES && t.age < 4 && DataAt(d, word, t)
    ensures d.bytes[d.addr] == LaneByte(word, t.age)
  {
    assert d.bytes[d.addr] == LaneByte(WordAt(d.bytes, t.req.index), t.age);
  }

  lemma TagStep(m: TagMem, row: Row, t: Txn, r: PortReq, ready: bool)
    requires t.req.index < LINES && TagAt(m, row, t) && t.age < LATENCY && r.index < LINES
    requires t.age >= 2 ==> !ready
    ensures TagAt(TagNext(m, r, ready), row, t.(age := t.age + 1))
    ensures TagNext(m, r, ready).rows == m.rows
  {}

  /** One edge of the stack is one edge of the array. */
  lemma StackStep(s: Stack, a: Ported, p0: PortReq, p1: PortReq, r0: bool, r1: bool)
    requires Simulates(s, a) && Held(a, p0, p1) && p0.index < LINES && p1.index < LINES
    ensures Simulates(StackNext(s, p0, p1, r0, r1), PortedNext(a, p0, p1, r0, r1))
  {
    StackOkKept(s, p0, p1, r0, r1);
    match a.txn
    case None => AcceptStep(s, a, p0, p1, r0, r1);
    case Some(t) =>
      if t.age < LATENCY {
        WorkStep(s, a, p0, p1, r0, r1);
      } else {
        RetireStep(s, a, p0, p1, r0, r1);
      }
  }

  lemma AcceptStep(s: Stack, a: Ported, p0: PortReq, p1: PortReq, r0: bool, r1: bool)
    requires Simulates(s, a) && a.txn == None && p0.index < LINES && p1.index < LINES
    ensures Simulates(StackNext(s, p0, p1, r0, r1), PortedNext(a, p0, p1, r0, r1))
  {
    StackOkKept(s, p0, p1, r0, r1);
    var s', a' := StackNext(s, p0, p1, r0, r1), PortedNext(a, p0, p1, r0, r1);
    if a'.txn.Some? {
      var i := a'.txn.value.req.index;
      assert CellAt(s.mem, i) == a.cells[i];
      forall j | 0 <= j < LINES && j != i ensures CellAt(s'.mem, j) == a'.cells[j] {
        assert CellAt(s.mem, j) == a.cells[j];
      }
    }
  }

  lemma WorkStep(s: Stack, a: Ported, p0: PortReq, p1: PortReq, r0: bool, r1: bool)
    requires Simulates(s, a) && Held(a, p0, p1) && p0.index < LINES && p1.index < LINES
    requires a.txn.Some? && a.txn.value.age < LATENCY
    ensures Simulates(StackNext(s, p0, p1, r0, r1), PortedNext(a, p0, p1, r0, r1))
  {
    StackOkKept(s, p0, p1, r0, r1);
    var t, m := a.txn.value, Muxed(s, p0, p1);
    var ready := if s.active == P0 then r0 else r1;
    var s' := StackNext(s, p0, p1, r0, r1);
    DataStep(s.mem.data, a.cells[t.req.index].data, t, m, ready);
    TagStep(s.mem.tag, a.cells[t.req.index].row, t, m, ready && s.mem.data.phase == DataResp);
    forall j | 0 <= j < LINES && j != t.req.index ensures CellAt(s'.mem, j) == a.cells[j] {
      assert CellAt(s.mem, j) == a.cells[j];
    }
  }

  lemma RetireStep(s: Stack, a: Ported, p0: PortReq, p1: PortReq, r0: bool, r1: bool)
    requires Simulates(s, a) && Held(a, p0, p1) && p0.index < LINES && p1.index < LINES
    requires a.txn.Some? && a.txn.value.age == LATENCY
    ensures Simulates(StackNext(s, p0, p1, r0, r1), PortedNext(a, p0, p1, r0, r1))
  {
    StackOkKept(s, p0, p1, r0, r1);
    var t := a.txn.value;
    var s', a' := StackNext(s, p0, p1, r0, r1), PortedNext(a, p0, p1, r0, r1);
    forall j | 0 <= j < LINES ensures CellAt(s'.mem, j) == CellAt(s.mem, j) {}
  }
}
