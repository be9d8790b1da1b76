/** What each cache does with a processor request: the steps of the emulated system. */
module Steps {
  import opened Words
  import opened Msi
  import opened CacheLine
  import opened Directory

  /**
   * The code as it stands, or as its comments mean it, at the two places where they differ:
   * the strobe the directory forwards on a bus read, and the word a cache holds after an upgrade.
   */
  datatype Variant = AsWritten | AsIntended

  function ReadStrobe(v: Variant): Strobe {
    if v == AsWritten then ALL else NONE
  }

  /** The word a fill starts from: the reply's, or on an intended upgrade the one already held. */
  function FillWord(v: Variant, cmd: Cmd, line: Line, reply: Word): Word {
    if v == AsIntended && cmd == BusUpgr then line.data else reply
  }

  /**
   * Evict is the tag-mismatch phase alone; a refused one never reaches the directory.
   * Request is a whole processor access, a read when no strobe bit is set, a hit's store included. When an Evict of the
   * same core and address came first, the phase inside Request has nothing left to do, so other
   * cores' steps may fall between the two.
   */
  datatype Op =
    | Evict(core: nat, addr: Addr, granted: bool)
    | Request(core: nat, addr: Addr, data: Word, wstrb: Strobe)

  predicate Valid(s: System, op: Op) {
    op.core < |s.caches|
  }

  function LineAt(s: System, core: nat, a: nat): Line
    requires WellFormed(s) && core < |s.caches|
  {
    s.caches[core][IndexOf(a)]
  }

  function SetLine(s: System, core: nat, a: nat, line: Line): System
    requires WellFormed(s) && core < |s.caches|
  {
    s.(caches := s.caches[core := s.caches[core][IndexOf(a) := line]])
  }

  function EvictStep(s: System, core: nat, a: nat, granted: bool): System
    requires WellFormed(s) && core < |s.caches|
  {
    match EvictMessage(LineAt(s, core, a), a)
    case None => s
    case Some(m) =>
      HandleWellFormed(s, core, m, ALL);
      var s' := if granted then Handle(s, core, m, ALL).next else s;
      SetLine(s', core, a, LineAt(s', core, a).(state := Invalid))
  }

  /** The system once the tag-mismatch phase is over. */
  function AfterTagCheck(s: System, core: nat, a: nat): (r: System)
    requires WellFormed(s) && core < |s.caches|
    ensures WellFormed(r) && |r.caches| == |s.caches|
  {
    EvictStepWellFormed(s, core, a, true);
    EvictStep(s, core, a, true)
  }

  /** The store of a write hit, onto the line the slot holds by the time it comes. */
  function StoreHit(s: System, core: nat, a: nat, data: Word, wstrb: Strobe): System
    requires WellFormed(s) && core < |s.caches|
  {
    SetLine(s, core, a, Store(LineAt(s, core, a), data, wstrb))
  }

  function ReadFill(v: Variant, s: System, core: nat, a: nat): Outcome
    requires WellFormed(s) && core < |s.caches|
  {
    match BusCommand(LineAt(s, core, a), false)
    case None => Outcome(s, Reply(true, LineAt(s, core, a).data))
    case Some(cmd) =>
      HandleWellFormed(s, core, Message(cmd, a, ZERO), ReadStrobe(v));
      var out := Handle(s, core, Message(cmd, a, ZERO), ReadStrobe(v));
      if !out.reply.ready then out
      else Outcome(SetLine(out.next, core, a, Fill(LineAt(out.next, core, a), a, false, out.reply.data)), out.reply)
  }

  function WriteFill(v: Variant, s: System, core: nat, a: nat, data: Word, wstrb: Strobe): Outcome
    requires WellFormed(s) && core < |s.caches|
  {
    match BusCommand(LineAt(s, core, a), true)
    case None =>
      Outcome(StoreHit(s, core, a, data, wstrb), Reply(true, ZERO))
    case Some(cmd) =>
      HandleWellFormed(s, core, Message(cmd, a, ZERO), ReadStrobe(v));
      var out := Handle(s, core, Message(cmd, a, ZERO), ReadStrobe(v));
      if !out.reply.ready then Outcome(out.next, NOT_READY)
      else
        var line := LineAt(out.next, core, a);
        var filled := Fill(line, a, true, FillWord(v, cmd, line, out.reply.data));
        Outcome(SetLine(out.next, core, a, Store(filled, data, wstrb)), Reply(true, ZERO))
  }

  function Step(v: Variant, s: System, op: Op): Outcome
    requires WellFormed(s) && Valid(s, op)
  {
    match op
    case Evict(core, a, granted) => Outcome(EvictStep(s, core, a, granted), Reply(granted, ZERO))
    case Request(core, a, data, wstrb) =>
      if wstrb == NONE then CpuRead(v, s, core, a) else CpuWrite(v, s, core, a, data, wstrb)
  }

  /** A whole read: the tag-mismatch phase, then the fill. */
  function CpuRead(v: Variant, s: System, core: nat, a: nat): Outcome
    requires WellFormed(s) && core < |s.caches|
  {
    ReadFill(v, AfterTagCheck(s, core, a), core, a)
  }

  function CpuWrite(v: Variant, s: System, core: nat, a: nat, data: Word, wstrb: Strobe): Outcome
    requires WellFormed(s) && core < |s.caches|
  {
    WriteFill(v, AfterTagCheck(s, core, a), core, a, data, wstrb)
  }

  lemma EvictStepWellFormed(s: System, core: nat, a: nat, granted: bool)
    requires WellFormed(s) && core < |s.caches|
    ensures WellFormed(EvictStep(s, core, a, granted))
    ensures |EvictStep(s, core, a, granted).caches| == |s.caches|
  {
    if EvictMessage(LineAt(s, core, a), a).Some? {
      HandleWellFormed(s, core, EvictMessage(LineAt(s, core, a), a).value, ALL);
    }
  }

  lemma StepWellFormed(v: Variant, s: System, op: Op)
    requires WellFormed(s) && Valid(s, op)
    ensures WellFormed(Step(v, s, op).next)
    ensures |Step(v, s, op).next.caches| == |s.caches|
  {
    match op
    case Evict(core, a, granted) => EvictStepWellFormed(s, core, a, granted);
    case Request(core, a, data, wstrb) =>
      EvictStepWellFormed(s, core, a, true);
      var s' := EvictStep(s, core, a, true);
      var command := BusCommand(LineAt(s', core, a), wstrb != NONE);
      if command.Some? {
        HandleWellFormed(s', core, Message(command.value, a, ZERO), ReadStrobe(v));
      }
  }
}
