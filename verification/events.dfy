/**
  The event router: the fixed mapping from a peer event's type token to what
  the runtime does with it.
 */
module Events {
  import opened Json
  import opened Types
  import opened Constants
  import opened Breakpoints

  /** The named notifications the runtime raises to the debug session. */
  datatype Notification =
    | StopOnBreakpoint
    | StopOnEntry
    | StopOnStep
    | StopOnPause
    | StopOnException(description: Json)
    | BreakpointValidated(bp: Breakpoint)
    | End

  datatype Reaction = Notify(n: Notification) | SendExit | Ignore

  /** The event tokens that provoke any reaction at all. */
  const Routed: set<string> :=
    {EvStopOnBreakpoint, EvStopOnStepInto, EvStopOnStepOver, EvStopOnPause, EvEnd, EvPostMortem}

  /** `handleDebuggerEvent`. */
  function Route(ev: Event): (r: Reaction)
    ensures IsToken(ev.kind, EvStopOnBreakpoint) <==> r == Notify(StopOnBreakpoint)
    ensures IsToken(ev.kind, EvStopOnStepInto) <==> r == Notify(StopOnEntry)
    ensures IsToken(ev.kind, EvStopOnStepOver) <==> r == Notify(StopOnStep)
    ensures IsToken(ev.kind, EvStopOnPause) <==> r == Notify(StopOnPause)
    ensures IsToken(ev.kind, EvPostMortem) <==> r == Notify(StopOnException(ev.description))
    ensures IsToken(ev.kind, EvEnd) <==> r == SendExit
    ensures r.Ignore? <==> !(ev.kind.JStr? && ev.kind.s in Routed)
    ensures r.Notify? ==> !r.n.BreakpointValidated? && !r.n.End?
  {
    if IsToken(ev.kind, EvStopOnBreakpoint) then Notify(StopOnBreakpoint)
    else if IsToken(ev.kind, EvStopOnStepInto) then Notify(StopOnEntry)
    else if IsToken(ev.kind, EvStopOnStepOver) then Notify(StopOnStep)
    else if IsToken(ev.kind, EvStopOnPause) then Notify(StopOnPause)
    else if IsToken(ev.kind, EvEnd) then SendExit
    else if IsToken(ev.kind, EvAllBreakpointsRemoved) then Ignore
    else if IsToken(ev.kind, EvPostMortem) then Notify(StopOnException(ev.description))
    else Ignore
  }
}
