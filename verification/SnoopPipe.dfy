/**
 * The snoop path: what the directory asks crosses the link, waits in an overwriting one-entry pipe, and
 * occupies the snoop machine until its acknowledgement has been sent. Nothing in the pipe forbids an
 * overwrite; a directory that waits for each acknowledgement before its next snoop does.
 */
module SnoopPipe {
  import opened Outbound
  import opened Controller
  import opened Downlink
  import opened Wire
  import L = LinkRtl
  import P = Packet

  /** The acknowledgement answers the snoop: its event and its address. */
  predicate Acknowledges(o: Out, m: Down) {
    o.cmd == Ack(EventOf(m.code)) && o.addr == NatOf(m.field)
  }

  /** What the snoop machine is on. */
  predicate WorksOn(s: Snp, m: Down) {
    s.addr == NatOf(m.field) && s.event == EventOf(m.code)
  }

  /**
   * The snoops asked so far and the acknowledgements sent; of the snoops, those still on the link, and
   * what the pipe and the machine hold.
   */
  datatype Path = Path(asked: seq<Down>, acks: seq<Out>, coming: seq<Down>, pipe: L.Pipe<L.Ack>, snp: Snp)

  /** How many snoops wait for their acknowledgement. */
  function Waiting(p: Path): nat {
    |p.coming| + (if p.pipe.valid then 1 else 0) + (if p.snp.st != SnpIdle then 1 else 0)
  }

  /** Snoops carry an address; each acknowledgement answers its snoop; at most one is open, in one place. */
  predicate PathOk(p: Path) {
    && (forall k | 0 <= k < |p.asked| :: p.asked[k].kind == P.Medium)
    && |p.acks| + Waiting(p) == |p.asked| && Waiting(p) <= 1
    && (forall k | 0 <= k < |p.acks| :: Acknowledges(p.acks[k], p.asked[k]))
    && (Waiting(p) == 1 ==> OpenIs(p, p.asked[|p.acks|]))
  }

  predicate OpenIs(p: Path, m: Down) {
    && (p.coming != [] ==> p.coming[0] == m)
    && (p.pipe.valid ==> Matches(p.pipe.data, m))
    && (p.snp.st != SnpIdle ==> WorksOn(p.snp, m))
  }

  /** One edge's events: the snoop asked, what comes out of the receiver, the acknowledgement sent. */
  datatype Now = Now(asked: seq<Down>, arrived: seq<Down>, presented: seq<L.Ack>, acked: seq<Out>)

  /** The directory asks only when nothing is open; what is presented is what comes off the link. */
  predicate NowOk(p: Path, n: Now) {
    && |n.asked| <= 1 && (n.asked != [] ==> n.asked[0].kind == P.Medium && Waiting(p) == 0)
    && |n.arrived| <= |p.coming| && n.arrived == p.coming[..|n.arrived|] && AllMatch(n.presented, n.arrived)
  }

  /** The pipe and the machine follow, each from what it sees. */
  predicate Follows(p: Path, n: Now, p': Path)
    requires NowOk(p, n)
  {
    var taken := p.snp.st == SnpIdle && p.pipe.valid;
    && p'.asked == p.asked + n.asked && p'.acks == p.acks + n.acked
    && p'.coming == p.coming[|n.arrived|..] + n.asked
    && (n.presented != [] ==> p'.pipe == L.Pipe(true, n.presented[0]))
    && (n.presented == [] ==> p'.pipe == L.PipeNext(p.pipe, false, p.pipe.data, taken))
    && (taken ==> p'.snp.st != SnpIdle && WorksOn(p'.snp, Down(p.pipe.data.code, p.pipe.data.field, P.Medium)))
    && (p.snp.st == SnpIdle ==> n.acked == [] && (!taken ==> p'.snp.st == SnpIdle))
    && (p.snp.st != SnpIdle && n.acked == [] ==>
          p'.snp.st != SnpIdle && p'.snp.addr == p.snp.addr && p'.snp.event == p.snp.event)
    && (n.acked != [] ==>
          |n.acked| == 1 && p'.snp.st == SnpIdle && n.acked[0].cmd == Ack(p.snp.event) && n.acked[0].addr == p.snp.addr)
  }

  /** One edge keeps the path, and a snoop never reaches an occupied pipe. */
  lemma PathStep(p: Path, n: Now, p': Path)
    requires PathOk(p) && NowOk(p, n) && Follows(p, n, p')
    ensures PathOk(p')
    ensures n.presented != [] ==> !p.pipe.valid && p.snp.st == SnpIdle
  {}

  /** What the snoop machine does at an edge, as far as the path is concerned. */
  lemma SnoopMachineStep(s: Snp, e: Env, m: MemOut, sent: bool)
    ensures var s' := SnpNext(s, e, m, sent);
            && (s.st == SnpIdle ==>
                  if e.snoopValid then s'.st != SnpIdle && s'.addr == e.snoopAddr && s'.event == e.snoopEvent
                  else s'.st == SnpIdle)
            && (s.st != SnpIdle && !(SnpOut(s).Some? && sent) ==>
                  s'.st != SnpIdle && s'.addr == s.addr && s'.event == s.event)
            && (SnpOut(s).Some? && sent ==> s'.st == SnpIdle)
            && (SnpOut(s).Some? ==> SnpOut(s).value.cmd == Ack(s.event) && SnpOut(s).value.addr == s.addr)
  {}

  // ---- The acknowledgements among everything the controller sends ----

  function Acks(outs: seq<Out>): seq<Out> {
    if outs == [] then [] else (if outs[0].cmd.Ack? then [outs[0]] else []) + Acks(outs[1..])
  }

  lemma {:induction false} AcksAppend(a: seq<Out>, b: seq<Out>)
    ensures Acks(a + b) == Acks(a) + Acks(b)
  {
    if a == [] {
      assert a + b == b;
    } else {
      assert (a + b)[1..] == a[1..] + b && (a + b)[0] == a[0];
      AcksAppend(a[1..], b);
    }
  }

  /** Of what crosses the link at an edge, the acknowledgement is the snoop machine's. */
  lemma AckNow<M>(c: Chip<M>, e: Env)
    requires ArbOk(c.arb, CpuOut(c.cpu), SnpOut(c.snp))
    ensures Acks(DeliveredNow(c.arb, ChipMasters(c, e)))
         == if SnpOut(c.snp).Some? && SnpSent(c, e) then [SnpOut(c.snp).value] else []
    ensures SnpSent(c, e) ==> SnpOut(c.snp).Some?
  {
    var outs := DeliveredNow(c.arb, ChipMasters(c, e));
    assert |outs| == 1 ==> outs[1..] == [];
  }
}
