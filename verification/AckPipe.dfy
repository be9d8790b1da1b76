/**
 * The bus acknowledgement path: the CPU machine's requests cross the link, the directory answers
 * each one that wants an answer, the answer travels back and waits in an overwriting one-entry pipe.
 * Nothing in the pipe forbids an overwrite; the CPU machine's own discipline does.
 */
module AckPipe {
  import opened Words
  import opened Msi
  import opened PortedArray
  import opened Outbound
  import opened Controller
  import opened Transactions
  import Link = LinkRtl

  datatype BusAck = BusAck(cmd: Cmd, data: Word)

  /** Clean evictions are fire-and-forget. */
  predicate WantsReply(o: Out) {
    o.cmd.Bus? && o.cmd.cmd != EvictClean
  }

  datatype Event = Sent(out: Out) | Taken(cmd: Cmd)

  /**
   * `owed` are the commands not yet answered, `transit` the commands whose answers are on their way to
   * the pipe, oldest first, `log` what the CPU machine sent and consumed.
   */
  datatype Linked = Linked(chip: Chip<Ported>, pipe: Link.Pipe<BusAck>, owed: seq<Cmd>, transit: seq<Cmd>,
                           log: seq<Event>)

  /** One edge's inputs: the controller's, which owed command is answered, and the word of the answer that arrives. */
  datatype Input = Input(env: Env, answer: Option<nat>, arrives: Option<Word>)

  /** The controller's bus inputs are the pipe's outputs. */
  function Wired(l: Linked, e: Env): Env {
    e.(busValid := l.pipe.valid, busCmd := l.pipe.data.cmd, busData := l.pipe.data.data)
  }

  /** The directory answers only what it owes, and only an answer on its way arrives. */
  predicate InputOk(l: Linked, i: Input) {
    && (i.answer.Some? ==> i.answer.value < |l.owed|)
    && (i.arrives.Some? ==> l.transit != [])
  }

  function Remaining(owed: seq<Cmd>, answer: Option<nat>): seq<Cmd>
    requires answer.Some? ==> answer.value < |owed|
  {
    if answer == None then owed else owed[..answer.value] + owed[answer.value + 1..]
  }

  function EventsNow(l: Linked, e: Env): seq<Event> {
    (if CpuSent(l.chip, Wired(l, e)) then [Sent(l.chip.arb.msg)] else [])
    + (if BusTaken(l.chip.cpu, Wired(l, e)) then [Taken(l.pipe.data.cmd)] else [])
  }

  function TransitNext(l: Linked, i: Input): seq<Cmd>
    requires InputOk(l, i)
  {
    (if i.arrives.Some? then l.transit[1..] else l.transit)
    + (if i.answer.Some? then [l.owed[i.answer.value]] else [])
  }

  function LinkedNext(l: Linked, i: Input): Linked
    requires PortedOk(l.chip.mem) && InputOk(l, i)
  {
    var wired := Wired(l, i.env);
    Linked(Next(l.chip, wired),
           Link.PipeNext(l.pipe, i.arrives.Some?,
                         if i.arrives.Some? then BusAck(l.transit[0], i.arrives.value) else l.pipe.data,
                         BusTaken(l.chip.cpu, wired)),
           Remaining(l.owed, i.answer)
           + (if CpuSent(l.chip, wired) && WantsReply(l.chip.arb.msg) then [l.chip.arb.msg.cmd.cmd] else []),
           TransitNext(l, i),
           l.log + EventsNow(l, i.env))
  }

  // ---- The discipline ----

  predicate Waiting(c: Cpu) {
    c.st in {EvictDirtyAck, FlushEvictAck, ReadMissAck, WriteMissAck}
  }

  function Awaited(c: Cpu): Option<Cmd> {
    match c.st
    case EvictDirtyAck | FlushEvictAck => Some(EvictDirty)
    case ReadMissAck | WriteMissAck => c.issueCmd
    case _ => None
  }

  predicate Issues(c: Cpu) {
    c.st in {ReadMiss, ReadMissAck, WriteMiss, WriteMissAck} ==>
      c.issueCmd in {Some(BusRd), Some(BusRdx), Some(BusUpgr)}
  }

  /** Each consumed acknowledgement answers the event just before it; a request that wants a reply is followed by it. */
  ghost predicate Alternates(log: seq<Event>) {
    && (forall k | 0 <= k < |log| && log[k].Taken? ::
          k > 0 && log[k - 1].Sent? && WantsReply(log[k - 1].out) && log[k - 1].out.cmd.cmd == log[k].cmd)
    && (forall k | 0 <= k < |log| - 1 && log[k].Sent? && WantsReply(log[k].out) ::
          log[k + 1] == Taken(log[k].out.cmd.cmd))
  }

  /** The last event is a request still unanswered exactly while the machine waits, for that command. */
  predicate Pending(log: seq<Event>, awaited: Option<Cmd>) {
    match awaited
    case None => |log| > 0 ==> !(log[|log| - 1].Sent? && WantsReply(log[|log| - 1].out))
    case Some(cmd) =>
      |log| > 0 && log[|log| - 1].Sent? && WantsReply(log[|log| - 1].out) && log[|log| - 1].out.cmd.cmd == cmd
  }

  /** One outstanding reply while the CPU machine waits: owed, on its way, or in the pipe; none otherwise. */
  predicate Outstanding(awaited: Option<Cmd>, pipe: Link.Pipe<BusAck>, owed: seq<Cmd>, transit: seq<Cmd>) {
    && |owed| + |transit| + (if pipe.valid then 1 else 0) == (if awaited.Some? then 1 else 0)
    && (owed != [] ==> Some(owed[0]) == awaited)
    && (transit != [] ==> Some(transit[0]) == awaited)
    && (pipe.valid ==> Some(pipe.data.cmd) == awaited)
  }

  ghost predicate AckInv(l: Linked) {
    && Coordinated(l.chip) && Issues(l.chip.cpu)
    && Outstanding(Awaited(l.chip.cpu), l.pipe, l.owed, l.transit)
    && Alternates(l.log) && Pending(l.log, Awaited(l.chip.cpu))
  }

  lemma IssuesStep(c: Cpu, e: Env, m: MemOut, sent: bool)
    requires Issues(c)
    ensures Issues(CpuNext(c, e, m, sent))
  {}

  /** A sent request that wants a reply starts the wait; any other leaves the machine not waiting. */
  lemma SendStep(c: Cpu, e: Env, m: MemOut, sent: bool)
    requires Issues(c) && CpuOut(c).Some?
    ensures Awaited(c) == None && !BusTaken(c, e)
    ensures Awaited(CpuNext(c, e, m, sent))
         == if sent && WantsReply(CpuOut(c).value) then Some(CpuOut(c).value.cmd.cmd) else None
  {}

  /** The awaited acknowledgement is consumed as soon as it shows, and ends the wait. */
  lemma WaitStep(c: Cpu, e: Env, m: MemOut, sent: bool)
    requires Issues(c) && CpuOut(c) == None
    ensures Awaited(CpuNext(c, e, m, sent)) == if BusTaken(c, e) then None else Awaited(c)
    ensures BusTaken(c, e) ==> Awaited(c).Some?
    ensures Awaited(c).Some? && e.busValid && Some(e.busCmd) == Awaited(c) ==> BusTaken(c, e)
  {}

  lemma LogStep(log: seq<Event>, awaited: Option<Cmd>, ev: Event, awaited': Option<Cmd>)
    requires Alternates(log) && Pending(log, awaited)
    requires match ev
             case Sent(out) => awaited == None && awaited' == if WantsReply(out) then Some(out.cmd.cmd) else None
             case Taken(cmd) => awaited == Some(cmd) && awaited' == None
    ensures Alternates(log + [ev]) && Pending(log + [ev], awaited')
  {}

  /**
   * One edge: the discipline is kept; a request leaves only when no reply is outstanding; a reply
   * never reaches an occupied pipe; and the acknowledgement seen echoes the command awaited.
   */
  lemma AckStep(l: Linked, i: Input)
    requires AckInv(l) && InputOk(l, i)
    ensures AckInv(LinkedNext(l, i))
    ensures CpuSent(l.chip, Wired(l, i.env)) ==> l.owed == [] && l.transit == [] && !l.pipe.valid
    ensures i.arrives.Some? ==> !l.pipe.valid
    ensures ReplyEchoes(l.chip.cpu, Wired(l, i.env))
  {
    var c, wired := l.chip, Wired(l, i.env);
    CoordinatedStep(c, wired);
    IssuesStep(c.cpu, wired, CpuMem(c), CpuSent(c, wired));
    if CpuOut(c.cpu).Some? {
      SendStep(c.cpu, wired, CpuMem(c), CpuSent(c, wired));
    } else {
      WaitStep(c.cpu, wired, CpuMem(c), CpuSent(c, wired));
    }
    LogKept(l, i.env);
  }

  lemma LogKept(l: Linked, e: Env)
    requires AckInv(l)
    ensures Alternates(l.log + EventsNow(l, e))
    ensures PortedOk(l.chip.mem) && Pending(l.log + EventsNow(l, e), Awaited(Next(l.chip, Wired(l, e)).cpu))
  {
    var c, wired, events := l.chip, Wired(l, e), EventsNow(l, e);
    if CpuOut(c.cpu).Some? {
      SendStep(c.cpu, wired, CpuMem(c), CpuSent(c, wired));
    } else {
      WaitStep(c.cpu, wired, CpuMem(c), CpuSent(c, wired));
    }
    if events == [] {
      assert l.log + events == l.log;
    } else {
      assert events == [events[0]];
      LogStep(l.log, Awaited(c.cpu), events[0], Awaited(Next(c, wired).cpu));
    }
  }

  // ---- Whole runs ----

  ghost predicate InputsOk(l: Linked, inputs: seq<Input>)
    requires AckInv(l)
    decreases |inputs|
  {
    if inputs == [] then true
    else if !InputOk(l, inputs[0]) then false
    else
      AckStep(l, inputs[0]);
      InputsOk(LinkedNext(l, inputs[0]), inputs[1..])
  }

  ghost function LinkedRun(l: Linked, inputs: seq<Input>): (r: Linked)
    requires AckInv(l) && InputsOk(l, inputs)
    ensures AckInv(r)
    decreases |inputs|
  {
    if inputs == [] then l
    else
      AckStep(l, inputs[0]);
      LinkedRun(LinkedNext(l, inputs[0]), inputs[1..])
  }

  /** No edge of the run puts a reply into an occupied pipe. */
  ghost predicate NeverOverwrites(l: Linked, inputs: seq<Input>)
    requires AckInv(l) && InputsOk(l, inputs)
    decreases |inputs|
  {
    if inputs == [] then true
    else
      AckStep(l, inputs[0]);
      (inputs[0].arrives.Some? ==> !l.pipe.valid) && NeverOverwrites(LinkedNext(l, inputs[0]), inputs[1..])
  }

  /**
   * In every run in which the directory answers each request that wants an answer at most once, the
   * lossy pipe loses nothing, at most one reply is outstanding, and every request that wants a reply
   * is followed by its acknowledgement before the CPU machine sends anything else.
   */
  lemma {:induction false} NothingLost(l: Linked, inputs: seq<Input>)
    requires AckInv(l) && InputsOk(l, inputs)
    ensures NeverOverwrites(l, inputs)
    ensures var r := LinkedRun(l, inputs);
            && Alternates(r.log)
            && |r.owed| + |r.transit| + (if r.pipe.valid then 1 else 0) == if Waiting(r.chip.cpu) then 1 else 0
    decreases |inputs|
  {
    if inputs != [] {
      AckStep(l, inputs[0]);
      NothingLost(LinkedNext(l, inputs[0]), inputs[1..]);
    }
  }
}
