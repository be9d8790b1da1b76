/** The MSI tables: shared by the emulated caches and by the RTL controller. */
module Msi {
  import opened Words

  datatype State = Invalid | Shared | Modified

  datatype Cmd = BusRd | BusRdx | BusUpgr | EvictClean | EvictDirty

  datatype SnoopEvent = SnoopRd | SnoopRdx | SnoopUpgr

  datatype Transition = Transition(next: State, cmd: Option<Cmd>, flush: bool)

  function OnProcessorEvent(state: State, isWrite: bool): Transition {
    match state
    case Invalid =>
      if isWrite then Transition(Modified, Some(BusRdx), false)
      else Transition(Shared, Some(BusRd), false)
    case Shared =>
      if isWrite then Transition(Modified, Some(BusUpgr), false)
      else Transition(Shared, None, false)
    case Modified =>
      Transition(Modified, None, false)
  }

  function OnSnoopEvent(state: State, event: SnoopEvent): Transition {
    match state
    case Invalid => Transition(Invalid, None, false)
    case Shared =>
      if event == SnoopRd then Transition(Shared, None, false)
      else Transition(Invalid, None, false)
    case Modified =>
      match event
      case SnoopRd => Transition(Shared, None, true)
      case SnoopRdx => Transition(Invalid, None, true)
      case SnoopUpgr => Transition(Modified, None, false)
  }

  /** An access leaves the right it needed, and no more than that beside what was there; it never gives up a word. */
  lemma AfterAccess(state: State, isWrite: bool)
    ensures var tr := OnProcessorEvent(state, isWrite);
            && !tr.flush
            && (isWrite ==> tr.next == Modified)
            && (!isWrite ==> tr.next == if state == Modified then Modified else Shared)
  {}

  /** No snoop makes the cache send a command of its own. */
  lemma AfterSnoop(state: State, event: SnoopEvent)
    ensures OnSnoopEvent(state, event).cmd == None
  {}
}
