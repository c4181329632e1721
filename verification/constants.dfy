/** The token vocabulary shared by the extension and the peer debugger. */
module Constants {

  // Methods of the turtle-drawing requests read from the buffer file.
  const MethodAdd := "ADD"
  const MethodColor := "COLOR"
  const MethodPosition := "POSITION"
  const MethodOrientation := "ORIENTATION"
  const MethodGo := "GO"
  const MethodEnd := "END"
  const MethodFinish := "FINISH"

  // Command words sent to the peer debugger.
  const CmdSetFile := "file"
  const CmdRun := "run"
  const CmdRunNoDebug := "run_no_debug"
  const CmdContinue := "continue"
  const CmdStepInto := "step_into"
  const CmdStepOver := "step_over"
  const CmdPause := "pause"
  const CmdBreakpoint := "break"
  const CmdExprBreakpoint := "break_expr"
  const CmdClear := "clear"
  const CmdStack := "stack"
  const CmdFrame := "frame"
  const CmdExit := "exit"

  const Commands: set<string> :=
    {CmdSetFile, CmdRun, CmdRunNoDebug, CmdContinue, CmdStepInto, CmdStepOver, CmdPause,
     CmdBreakpoint, CmdExprBreakpoint, CmdClear, CmdStack, CmdFrame, CmdExit}

  // Event-type tokens of spontaneous peer notifications.
  const EvStarted := "started"
  const EvContinue := "resumed"
  const EvStopOnStepInto := "StepInto"
  const EvStopOnStepOver := "StepOver"
  const EvStopOnBreakpoint := "Breakpoint"
  const EvStopOnPause := "Pause"
  const EvEnd := "end"
  const EvAllBreakpointsRemoved := "all_breakpoints_removed"
  const EvPostMortem := "post_mortem"

  // Reply-type tokens of answers to commands.
  const RespFileSet := "file_set"
  const RespResume := "resume"
  const RespFrame := "frame"
  const RespStack := "stack_trace"
  const RespBreakpoints := "breakpoints"
  const RespBreakpointSet := "breakpoint_set"
  const RespBreakpointCleared := "breakpoint_removed"
  const RespAllBreakpointsCleared := "all_breakpoints_removed"
  const RespBadRequest := "bad_request"

  const Replies: set<string> :=
    {RespFileSet, RespResume, RespFrame, RespStack, RespBreakpoints, RespBreakpointSet,
     RespBreakpointCleared, RespAllBreakpointsCleared, RespBadRequest}

  /** Separator between the command word and its arguments on the wire. */
  const RequestSeparator: char := ' '
}
