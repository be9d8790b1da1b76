/** Whole runs of the memory stack: its answers are those of an atomic array, and how it boots. */
module StackRuns {
  import opened Words
  import opened CacheLine
  import opened Sram
  import opened PortedArray

  /** One cycle's inputs: both ports' requests and response-ready lines. */
  datatype Ports = Ports(p0: PortReq, p1: PortReq, r0: bool, r1: bool) {
    function Req(p: Port): PortReq { if p == P0 then p0 else p1 }
    function Ready(p: Port): bool { if p == P0 then r0 else r1 }
    predicate Ok() { p0.index < LINES && p1.index < LINES }
  }

  /** A handshake on a port. */
  datatype Asked = Asked(port: Port, req: PortReq)
  datatype Told = Told(port: Port, cell: Cell)

  /** The stack and the handshakes seen on its ports so far. */
  datatype Trace = Trace(s: Stack, asked: seq<Asked>, told: seq<Told>)

  function AcceptedNow(s: Stack, i: Ports): seq<Asked> {
    if ReadyOut(s, P0, i.p0, i.p1) && i.p0.valid then [Asked(P0, i.p0)]
    else if ReadyOut(s, P1, i.p0, i.p1) && i.p1.valid then [Asked(P1, i.p1)]
    else []
  }

  function AnsweredNow(s: Stack, i: Ports): seq<Told> {
    var cell := Cell(s.mem.tag.read, s.mem.data.read);
    if ValidOut(s, P0) && i.r0 then [Told(P0, cell)]
    else if ValidOut(s, P1) && i.r1 then [Told(P1, cell)]
    else []
  }

  function TraceNext(t: Trace, i: Ports): Trace
    requires StackOk(t.s) && i.Ok()
  {
    Trace(StackNext(t.s, i.p0, i.p1, i.r0, i.r1),
          t.asked + AcceptedNow(t.s, i), t.told + AnsweredNow(t.s, i))
  }

  /** A master whose request was accepted keeps driving it until it is answered. */
  predicate MastersHold(t: Trace, i: Ports) {
    |t.told| < |t.asked| ==>
      var last := t.asked[|t.asked| - 1];
      i.Req(last.port) == last.req
  }

  function ApplyAll(cells: seq<Cell>, asked: seq<Asked>): (r: seq<Cell>)
    requires forall k | 0 <= k < |asked| :: asked[k].req.index < |cells|
    ensures |r| == |cells|
    decreases |asked|
  {
    if asked == [] then cells
    else Apply(ApplyAll(cells, asked[..|asked| - 1]), asked[|asked| - 1].req)
  }

  ghost predicate InRange(asked: seq<Asked>) {
    forall k | 0 <= k < |asked| :: asked[k].req.index < LINES
  }

  /** Answer k is the atomic array's answer to request k after the requests before it. */
  ghost predicate AnswersRight(cells: seq<Cell>, asked: seq<Asked>, told: seq<Told>)
    requires |cells| == LINES && InRange(asked) && |told| <= |asked|
  {
    forall k | 0 <= k < |told| ::
      told[k] == Told(asked[k].port, Answer(ApplyAll(cells, asked[..k]), asked[k].req))
  }

  /** The array's state is that of the requests answered so far, with at most one under way. */
  ghost predicate History(cells: seq<Cell>, asked: seq<Asked>, told: seq<Told>, a: Ported) {
    && |cells| == LINES && InRange(asked)
    && |asked| == |told| + (if a.txn.Some? then 1 else 0)
    && (a.txn.Some? ==> asked[|told|] == Asked(a.txn.value.port, a.txn.value.req))
    && a.cells == ApplyAll(cells, asked[..|told|])
    && AnswersRight(cells, asked, told)
  }

  ghost predicate Follows(cells: seq<Cell>, t: Trace, a: Ported) {
    Simulates(t.s, a) && History(cells, t.asked, t.told, a)
  }

  lemma HistoryAccept(cells: seq<Cell>, asked: seq<Asked>, told: seq<Told>, a: Ported, x: Asked, a': Ported)
    requires History(cells, asked, told, a) && a.txn == None && x.req.index < LINES
    requires a'.cells == a.cells && a'.txn.Some? && x == Asked(a'.txn.value.port, a'.txn.value.req)
    ensures History(cells, asked + [x], told, a')
  {
    var asked' := asked + [x];
    assert asked'[..|told|] == asked[..|told|];
    forall k | 0 <= k < |told| ensures asked'[..k] == asked[..k] && asked'[k] == asked[k] {}
  }

  lemma HistoryRetire(cells: seq<Cell>, asked: seq<Asked>, told: seq<Told>, a: Ported, y: Told, a': Ported)
    requires History(cells, asked, told, a) && a.txn.Some? && PortedOk(a)
    requires y == Told(a.txn.value.port, Answer(a.cells, a.txn.value.req))
    requires a'.cells == Apply(a.cells, a.txn.value.req) && a'.txn == None
    ensures History(cells, asked, told + [y], a')
  {
    var n := |told|;
    assert asked[..n + 1][..n] == asked[..n];
  }

  /** An edge of a transaction under way: nothing is accepted, and its answer is the only one. */
  lemma WorkingEdge(s: Stack, a: Ported, i: Ports)
    requires Simulates(s, a) && a.txn.Some? && i.Ok()
    ensures AcceptedNow(s, i) == []
    ensures AnsweredNow(s, i)
         == if a.txn.value.age == LATENCY && i.Ready(a.txn.value.port)
            then [Told(a.txn.value.port, Answer(a.cells, a.txn.value.req))] else []
  {
    OutputsAgree(s, a, i.p0, i.p1, P0);
    OutputsAgree(s, a, i.p0, i.p1, P1);
  }

  /** An edge with nothing under way: nothing is answered, and the granted request is accepted. */
  lemma IdleEdge(s: Stack, a: Ported, i: Ports)
    requires Simulates(s, a) && a.txn == None && i.Ok()
    ensures AnsweredNow(s, i) == []
    ensures AcceptedNow(s, i)
         == match Grant(a.last, i.p0.valid, i.p1.valid) case None => [] case Some(p) => [Asked(p, i.Req(p))]
  {
    OutputsAgree(s, a, i.p0, i.p1, P0);
    OutputsAgree(s, a, i.p0, i.p1, P1);
  }

  lemma TraceStep(cells: seq<Cell>, t: Trace, a: Ported, i: Ports)
    requires Follows(cells, t, a) && MastersHold(t, i) && i.Ok()
    ensures Follows(cells, TraceNext(t, i), PortedNext(a, i.p0, i.p1, i.r0, i.r1))
  {
    StackStep(t.s, a, i.p0, i.p1, i.r0, i.r1);
    HistoryStep(cells, t, a, i);
  }

  lemma HistoryStep(cells: seq<Cell>, t: Trace, a: Ported, i: Ports)
    requires Follows(cells, t, a) && i.Ok()
    ensures var t' := TraceNext(t, i); History(cells, t'.asked, t'.told, PortedNext(a, i.p0, i.p1, i.r0, i.r1))
  {
    var asked, told := AcceptedNow(t.s, i), AnsweredNow(t.s, i);
    var a' := PortedNext(a, i.p0, i.p1, i.r0, i.r1);
    if a.txn.Some? {
      WorkingEdge(t.s, a, i);
      assert t.asked + asked == t.asked;
      if told == [] {
        assert t.told + told == t.told;
      } else {
        HistoryRetire(cells, t.asked, t.told, a, told[0], a');
      }
    } else {
      IdleEdge(t.s, a, i);
      assert t.told + told == t.told;
      if asked == [] {
        assert t.asked + asked == t.asked;
      } else {
        HistoryAccept(cells, t.asked, t.told, a, asked[0], a');
      }
    }
  }

  function TraceRun(t: Trace, inputs: seq<Ports>): Trace
    requires StackOk(t.s) && forall k | 0 <= k < |inputs| :: inputs[k].Ok()
    decreases |inputs|
  {
    if inputs == [] then t
    else
      assert inputs[0].Ok();
      StackOkKept(t.s, inputs[0].p0, inputs[0].p1, inputs[0].r0, inputs[0].r1);
      TraceRun(TraceNext(t, inputs[0]), inputs[1..])
  }

  ghost predicate HoldThroughout(t: Trace, inputs: seq<Ports>)
    requires StackOk(t.s) && forall k | 0 <= k < |inputs| :: inputs[k].Ok()
    decreases |inputs|
  {
    if inputs == [] then true
    else
      assert inputs[0].Ok();
      StackOkKept(t.s, inputs[0].p0, inputs[0].p1, inputs[0].r0, inputs[0].r1);
      MastersHold(t, inputs[0]) && HoldThroughout(TraceNext(t, inputs[0]), inputs[1..])
  }

  /** The array after a run of edges. */
  function PortedRun(a: Ported, inputs: seq<Ports>): Ported
    requires PortedOk(a) && forall k | 0 <= k < |inputs| :: inputs[k].Ok()
    decreases |inputs|
  {
    if inputs == [] then a
    else
      assert inputs[0].Ok();
      PortedRun(PortedNext(a, inputs[0].p0, inputs[0].p1, inputs[0].r0, inputs[0].r1), inputs[1..])
  }

  /**
   * In every run with holding masters: each accepted request gets exactly one answer, in order and
   * on its own port; reads return the cell as last written; a write changes the strobed bytes, the
   * tag and the state of its cell and nothing else.
   */
  lemma {:induction false} RunIsAtomic(cells: seq<Cell>, t: Trace, a: Ported, inputs: seq<Ports>)
    requires Follows(cells, t, a)
    requires (forall k | 0 <= k < |inputs| :: inputs[k].Ok()) && HoldThroughout(t, inputs)
    ensures Follows(cells, TraceRun(t, inputs), PortedRun(a, inputs))
    ensures var e := TraceRun(t, inputs);
            && |e.told| <= |e.asked| <= |e.told| + 1
            && AnswersRight(cells, e.asked, e.told)
            && (|e.told| == |e.asked| ==>
                  forall i | 0 <= i < LINES :: StackOk(e.s) && CellAt(e.s.mem, i) == ApplyAll(cells, e.asked)[i])
    decreases |inputs|
  {
    if inputs == [] {
      if |t.told| == |t.asked| {
        assert t.asked[..|t.told|] == t.asked;
      }
    } else {
      var i := inputs[0];
      assert i.Ok();
      TraceStep(cells, t, a, i);
      RunIsAtomic(cells, TraceNext(t, i), PortedNext(a, i.p0, i.p1, i.r0, i.r1), inputs[1..]);
    }
  }

  /** A held request is answered six edges after acceptance if its port is ready then; nothing comes between. */
  lemma {:induction false} AnsweredInTime(t: Trace, a: Ported, inputs: seq<Ports>)
    requires Simulates(t.s, a) && a.txn.Some? && |inputs| == 6 - a.txn.value.age
    requires forall k | 0 <= k < |inputs| :: inputs[k].Ok() && inputs[k].Req(a.txn.value.port) == a.txn.value.req
    requires inputs[|inputs| - 1].Ready(a.txn.value.port)
    ensures TraceRun(t, inputs).asked == t.asked
    ensures TraceRun(t, inputs).told == t.told + [Told(a.txn.value.port, Answer(a.cells, a.txn.value.req))]
    decreases |inputs|
  {
    var i := inputs[0];
    assert i.Ok() && i.Req(a.txn.value.port) == a.txn.value.req;
    WorkingEdge(t.s, a, i);
    StackStep(t.s, a, i.p0, i.p1, i.r0, i.r1);
    var t' := TraceNext(t, i);
    assert t'.asked == t.asked;
    if a.txn.value.age < LATENCY {
      assert t'.told == t.told;
      AnsweredInTime(t', PortedNext(a, i.p0, i.p1, i.r0, i.r1), inputs[1..]);
    }
  }

  // ---- Reset ----

  /** Out of reset: registers cleared, SRAM contents and output registers unknown. */
  ghost predicate OutOfReset(s: Stack) {
    && StackOk(s) && !s.busy && s.last == P0
    && s.mem.tag.phase == TagReset && s.mem.tag.resetAddr == 0
    && s.mem.data.phase == DataReset && s.mem.data.resetAddr == 0 && s.mem.data.toWrite == 0
  }

  const TAG_CLEAR_EDGES := 129
  const CLEAR_EDGES := 513

  /** The stack n edges after reset, when no port has asked in the gap between the two clears. */
  ghost predicate Clearing(s: Stack, n: nat) {
    && StackOk(s) && !s.busy && s.last == P0
    && DataClearing(s.mem.data, n)
    && (n == 0 ==> s.mem.tag.phase == TagReset && s.mem.tag.resetAddr == 0)
    && (1 <= n < TAG_CLEAR_EDGES ==> s.mem.tag.phase == TagClear && s.mem.tag.resetAddr == n - 1)
    && (n >= TAG_CLEAR_EDGES ==> s.mem.tag.phase == TagIdle)
    && forall k | 0 <= k < LINES && k < n - 1 :: s.mem.tag.rows[k] == CLEARED
  }

  ghost predicate DataClearing(d: DataMem, n: nat) {
    && DataOk(d) && d.toWrite == 0
    && (n == 0 ==> d.phase == DataReset && d.resetAddr == 0)
    && (1 <= n < CLEAR_EDGES ==> d.phase == DataClear && d.resetAddr == n - 1)
    && (n >= CLEAR_EDGES ==> d.phase == DataIdle)
    && forall k | 0 <= k < BYTES && k < n - 1 :: d.bytes[k] == 0
  }

  /** The tag memory took a request the data memory could not: nothing will ever release it. */
  predicate Wedged(s: Stack) {
    !s.busy && s.mem.tag.phase in {TagReq, TagWait, TagResp}
  }

  predicate Asking(i: Ports) {
    i.p0.valid || i.p1.valid
  }

  lemma DataClearStep(d: DataMem, n: nat, r: PortReq, ready: bool)
    requires DataClearing(d, n) && n < CLEAR_EDGES && r.index < LINES
    ensures DataClearing(DataNext(d, r, ready), n + 1)
  {}

  /** One edge of the clear: asked in the gap, the stack wedges; otherwise it goes on clearing. */
  lemma ClearStep(s: Stack, n: nat, i: Ports)
    requires Clearing(s, n) && n < CLEAR_EDGES && i.Ok()
    ensures var s' := StackNext(s, i.p0, i.p1, i.r0, i.r1);
            if n >= TAG_CLEAR_EDGES && Asking(i) then StackOk(s') && Wedged(s') else Clearing(s', n + 1)
  {
    StackOkKept(s, i.p0, i.p1, i.r0, i.r1);
    DataClearStep(s.mem.data, n, Muxed(s, i.p0, i.p1), false);
  }

  lemma WedgedStep(s: Stack, i: Ports)
    requires StackOk(s) && Wedged(s) && i.Ok()
    ensures StackOk(StackNext(s, i.p0, i.p1, i.r0, i.r1)) && Wedged(StackNext(s, i.p0, i.p1, i.r0, i.r1))
    ensures forall p: Port :: !ReadyOut(s, p, i.p0, i.p1) && !ValidOut(s, p)
  {
    StackOkKept(s, i.p0, i.p1, i.r0, i.r1);
  }

  function StackRun(s: Stack, inputs: seq<Ports>): (r: Stack)
    requires StackOk(s) && forall k | 0 <= k < |inputs| :: inputs[k].Ok()
    ensures StackOk(r)
    decreases |inputs|
  {
    if inputs == [] then s
    else
      assert inputs[0].Ok();
      StackOkKept(s, inputs[0].p0, inputs[0].p1, inputs[0].r0, inputs[0].r1);
      StackRun(StackNext(s, inputs[0].p0, inputs[0].p1, inputs[0].r0, inputs[0].r1), inputs[1..])
  }

  /** A wedged stack accepts and answers nothing, whatever its ports do from then on. */
  lemma {:induction false} WedgedForever(s: Stack, inputs: seq<Ports>)
    requires StackOk(s) && Wedged(s) && forall k | 0 <= k < |inputs| :: inputs[k].Ok()
    ensures Wedged(StackRun(s, inputs))
    ensures TraceRun(Trace(s, [], []), inputs) == Trace(StackRun(s, inputs), [], [])
    decreases |inputs|
  {
    if inputs != [] {
      assert inputs[0].Ok();
      WedgedStep(s, inputs[0]);
      WedgedForever(StackNext(s, inputs[0].p0, inputs[0].p1, inputs[0].r0, inputs[0].r1), inputs[1..]);
    }
  }

  /** No port asks at edges n, n + 1, ... that fall in the gap. */
  predicate QuietGap(n: nat, inputs: seq<Ports>) {
    forall k | 0 <= k < |inputs| :: n + k >= TAG_CLEAR_EDGES ==> !Asking(inputs[k])
  }

  lemma {:induction false} ClearRun(s: Stack, n: nat, inputs: seq<Ports>)
    requires Clearing(s, n) && n + |inputs| == CLEAR_EDGES
    requires forall k | 0 <= k < |inputs| :: inputs[k].Ok()
    ensures QuietGap(n, inputs) ==> Clearing(StackRun(s, inputs), CLEAR_EDGES)
    ensures !QuietGap(n, inputs) ==> Wedged(StackRun(s, inputs))
    decreases |inputs|
  {
    if inputs != [] {
      var i := inputs[0];
      assert i.Ok();
      ClearStep(s, n, i);
      var s', rest := StackNext(s, i.p0, i.p1, i.r0, i.r1), inputs[1..];
      if n >= TAG_CLEAR_EDGES && Asking(i) {
        assert !QuietGap(n, inputs);
        WedgedForever(s', rest);
      } else {
        ClearRun(s', n + 1, rest);
        assert QuietGap(n, inputs) <==> QuietGap(n + 1, rest) by {
          if QuietGap(n + 1, rest) {
            forall k | 0 <= k < |inputs| && n + k >= TAG_CLEAR_EDGES ensures !Asking(inputs[k]) {
              if k > 0 {
                assert inputs[k] == rest[k - 1];
              }
            }
          }
          if QuietGap(n, inputs) {
            forall k | 0 <= k < |rest| && n + 1 + k >= TAG_CLEAR_EDGES ensures !Asking(rest[k]) {
              assert rest[k] == inputs[k + 1];
            }
          }
        }
      }
    }
  }

  function ZeroArray(): Ported {
    Ported(seq(LINES, i => Cell(CLEARED, ZERO)), P0, None)
  }

  /**
   * Boot: 513 edges after reset the stack is the all-zero, all-INVALID array, ready to serve, exactly
   * when no port asked between the end of the tag clear and the end of the data clear. Asked in that
   * gap, it is wedged for good. Earlier requests do no harm.
   */
  lemma Boot(s: Stack, inputs: seq<Ports>)
    requires OutOfReset(s) && |inputs| == CLEAR_EDGES && forall k | 0 <= k < |inputs| :: inputs[k].Ok()
    ensures Simulates(StackRun(s, inputs), ZeroArray()) <==> QuietGap(0, inputs)
    ensures !QuietGap(0, inputs) ==> Wedged(StackRun(s, inputs))
  {
    ClearRun(s, 0, inputs);
    var e := StackRun(s, inputs);
    if QuietGap(0, inputs) {
      forall i | 0 <= i < LINES ensures CellAt(e.mem, i) == ZeroArray().cells[i] {
        assert e.mem.data.bytes[4 * i] == 0 && e.mem.data.bytes[4 * i + 1] == 0;
        assert e.mem.data.bytes[4 * i + 2] == 0 && e.mem.data.bytes[4 * i + 3] == 0;
      }
    }
  }
}
