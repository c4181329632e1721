/**
  The runtime bridge: connection readiness, the send gate, inbound frame
  handling, the reply matcher as seen by an awaiting operation, the
  breakpoint operations and the simple command requests. Each asynchronous
  operation is split at its `await`: the part before it is one function,
  and the part after it takes the settled outcome of the matcher.
 */
module Runtime {
  import opened Wrappers
  import opened Json
  import opened Types
  import opened Constants
  import opened Paths
  import opened Dispatch
  import opened Codec
  import opened Events
  import opened Breakpoints

  datatype Bridge = Bridge(
    isWindows: bool,      // the file accessor's platform, fixed for the session
    socket: bool,         // a socket is held once the connection loop has seen readiness
    ready: bool,          // the connection-ready flag
    queue: seq<Reply>,    // replies received and not yet consumed
    store: Store,         // breakpoints by canonical path, and the id counter
    sourceFile: string)   // the program being debugged, as given by the session

  /** A runtime as constructed: no socket, not ready, nothing queued, counter at 1. */
  function Fresh(isWindows: bool): Bridge {
    Bridge(isWindows, false, false, [], Initial, "")
  }

  /** The store is valid and keyed by canonical paths only. */
  ghost predicate Good(b: Bridge) {
    && Valid(b.store)
    && forall p :: p in b.store.files ==> IsNormal(b.isWindows, p)
  }

  lemma FreshIsGood(isWindows: bool)
    ensures Good(Fresh(isWindows))
  {
  }

  // ---------------------------------------------------------------------
  // Connection readiness and the send gate

  /** The socket's `open` handler: the connection becomes ready. */
  function OnOpen(b: Bridge): (r: Bridge)
    ensures r.ready
    ensures r.(ready := b.ready) == b
  {
    b.(ready := true)
  }

  /** One tick of the connection loop: once ready, the socket is kept and the connect resolves. */
  function ConnectTick(b: Bridge): (r: (Bridge, bool))
    ensures r.1 <==> b.ready
    ensures r.1 ==> r.0.socket && r.0.ready
    ensures r.0.(socket := b.socket) == b
    ensures !b.ready ==> r.0 == b
  {
    if b.ready then (b.(socket := true), true) else (b, false)
  }

  /** The socket's `close` handler: readiness is lost and `end` is raised. */
  function OnClose(b: Bridge): (r: (Bridge, Notification))
    ensures !r.0.ready && r.1 == End
    ensures r.0.(ready := b.ready) == b
  {
    (b.(ready := false), End)
  }

  datatype Sent = Sent(bridge: Bridge, wire: Option<string>)

  /** `sendCommandToDebugger`: writes the line only on a held, ready socket, and then discards queued replies. */
  function Send(b: Bridge, command: string, args: seq<Arg>): (r: Sent)
    ensures r.wire.Some? <==> b.socket && b.ready
    ensures r.wire.Some? ==> r.wire.value == BuildRequest(command, args) && r.bridge == b.(queue := [])
    ensures r.wire.None? ==> r.bridge == b
  {
    if b.socket && b.ready then Sent(b.(queue := []), Some(BuildRequest(command, args)))
    else Sent(b, None)
  }

  /** After the socket closes nothing can be sent, and the reply queue is left as it was. */
  lemma NoSendAfterClose(b: Bridge, command: string, args: seq<Arg>)
    ensures Send(OnClose(b).0, command, args).wire.None?
    ensures Send(OnClose(b).0, command, args).bridge.queue == b.queue
  {
  }

  /** Once the socket has opened and the connection loop has kept it, every send goes out. */
  lemma SendAfterConnect(b: Bridge, command: string, args: seq<Arg>)
    ensures var c := ConnectTick(OnOpen(b));
      c.1 && Send(c.0, command, args).wire == Some(BuildRequest(command, args))
  {
  }

  // ---------------------------------------------------------------------
  // Inbound frames and awaiting replies

  datatype Delivered = Delivered(bridge: Bridge, notifications: seq<Notification>, wire: seq<string>)

  /**
    The socket's `message` handler: a reply joins the queue, an event is
    routed (an `end` event sends EXIT through the gate, which discards queued
    replies), and a frame whose guard throws is abandoned.
   */
  function OnMessage(b: Bridge, parsed: Option<Json>): (r: Delivered)
    ensures r.bridge.(queue := b.queue) == b
    ensures Classify(parsed).ReplyFrame? ==>
      r.bridge.queue == b.queue + [Classify(parsed).reply] && r.notifications == [] && r.wire == []
    ensures Classify(parsed).Raised? ==> r == Delivered(b, [], [])
    ensures Classify(parsed).EventFrame? ==>
      match Route(Classify(parsed).event)
      case Notify(n) => r == Delivered(b, [n], [])
      case SendExit => r.notifications == [] && r.bridge == Send(b, CmdExit, []).bridge
        && (r.wire == [CmdExit] <==> b.socket && b.ready) && (r.wire == [] <==> !(b.socket && b.ready))
      case Ignore => r == Delivered(b, [], [])
  {
    match Classify(parsed)
    case Raised => Delivered(b, [], [])
    case ReplyFrame(reply) => Delivered(b.(queue := b.queue + [reply]), [], [])
    case EventFrame(ev) =>
      match Route(ev)
      case Notify(n) => Delivered(b, [n], [])
      case Ignore => Delivered(b, [], [])
      case SendExit =>
        var s := Send(b, CmdExit, []);
        Delivered(s.bridge, [], if s.wire.Some? then [s.wire.value] else [])
  }

  /** One poll of an operation awaiting a reply of type `expected`. */
  function Await(b: Bridge, expected: string): (r: (Bridge, MatchOutcome))
    ensures r.0.(queue := b.queue) == b
    ensures r.1.Pending? <==> |b.queue| == 0
    ensures r.1.Resolved? ==> r.1.reply == b.queue[0] && r.0.queue == b.queue[1..] && IsToken(r.1.reply.kind, expected)
    ensures r.1.Rejected? && r.1.reason.None? && |b.queue| > 0 && !IsToken(b.queue[0].kind, RespBadRequest)
      ==> r.0.queue == b.queue
  {
    var p := Poll(b.queue, expected);
    (b.(queue := p.queue), p.outcome)
  }

  // ---------------------------------------------------------------------
  // Breakpoints

  /** The command `verifyBreakpoint` sends: the conditional form only for a non-empty condition. */
  function VerifyCommand(path: string, bp: Breakpoint): (c: (string, seq<Arg>))
    ensures c.0 == CmdExprBreakpoint <==> bp.condition.Some? && bp.condition.value != ""
    ensures c.0 == CmdBreakpoint <==> !(bp.condition.Some? && bp.condition.value != "")
    ensures |c.1| >= 2 && c.1[..2] == [StrArg(path), NumArg(bp.line)]
    ensures c.0 == CmdExprBreakpoint ==>
      c.1 == [StrArg(path), NumArg(bp.line), StrArg(['"'] + bp.condition.value + ['"'])]
    ensures c.0 == CmdBreakpoint ==> c.1 == [StrArg(path), NumArg(bp.line)]
  {
    if bp.condition.Some? && bp.condition.value != "" then
      (CmdExprBreakpoint, [StrArg(path), NumArg(bp.line), StrArg("\"" + bp.condition.value + "\"")])
    else
      (CmdBreakpoint, [StrArg(path), NumArg(bp.line)])
  }

  datatype SetStarted = SetStarted(bridge: Bridge, path: string, bp: Breakpoint, wire: Option<string>)

  /**
    `setBreakPoint` up to its await: the path is normalised, a fresh
    unverified record with the current counter as id is appended to the
    file, and the verify command is sent.
   */
  function SetBreakPoint(b: Bridge, path: string, line: int, condition: Option<string>): (r: SetStarted)
    ensures r.path == Normalize(b.isWindows, path)
    ensures r.bp == Breakpoint(b.store.nextId, line, false, condition)
    ensures r.bridge.store.nextId == b.store.nextId + 1
    ensures r.bridge.store.files.Keys == b.store.files.Keys + {r.path}
    ensures r.bridge.store.files[r.path] == FileOf(b.store, r.path) + [r.bp]
    ensures forall p :: p in b.store.files && p != r.path ==> r.bridge.store.files[p] == b.store.files[p]
    ensures r.wire.Some? <==> b.socket && b.ready
    ensures r.wire.Some? ==> r.wire.value == BuildRequest(VerifyCommand(r.path, r.bp).0, VerifyCommand(r.path, r.bp).1)
    ensures r.bridge.queue == (if r.wire.Some? then [] else b.queue)
    ensures r.bridge.(queue := b.queue, store := b.store) == b
    ensures Good(b) ==> Good(r.bridge)
  {
    var p := Normalize(b.isWindows, path);
    var added := Add(b.store, p, line, condition);
    // verifyBreakpoint normalises the already-normalised path once more
    NormalizeIdempotent(b.isWindows, path);
    NormalFixedPoints(b.isWindows, path);
    var command := VerifyCommand(Normalize(b.isWindows, p), added.1);
    var s := Send(b.(store := added.0), command.0, command.1);
    SetStarted(s.bridge, p, added.1, s.wire)
  }

  /** The verify reply confirms the record: it resolved and its `body.line` is strictly the requested line. */
  predicate Confirms(outcome: MatchOutcome, line: int) {
    outcome.Resolved? && Lookup(outcome.reply.body, "line") == Value(Some(JNum(line as real)))
  }

  datatype Verified = Verified(bridge: Bridge, bp: Breakpoint, notification: Option<Notification>)

  /**
    `verifyBreakpoint` after its await settles: a confirming reply marks the
    record verified in place and raises `breakpointValidated`; anything else
    (another line, a rejection, a body that is not an object) changes nothing.
   */
  function CompleteVerify(b: Bridge, path: string, bp: Breakpoint, outcome: MatchOutcome): (r: Verified)
    requires outcome.Resolved? || outcome.Rejected?
    ensures r.bp == bp.(verified := bp.verified || Confirms(outcome, bp.line))
    ensures r.notification.Some? <==> Confirms(outcome, bp.line)
    ensures r.notification.Some? ==> r.notification.value == BreakpointValidated(r.bp)
    ensures !Confirms(outcome, bp.line) ==> r.bridge == b
    ensures Confirms(outcome, bp.line) ==> r.bridge == b.(store := MarkVerified(b.store, path, bp.id))
    ensures Good(b) ==> Good(r.bridge)
  {
    if Confirms(outcome, bp.line) then
      var v := bp.(verified := true);
      Verified(b.(store := MarkVerified(b.store, path, bp.id)), v, Some(BreakpointValidated(v)))
    else Verified(b, bp, None)
  }

  /** The first record at `line` is spliced out of `bps` as `bp`, leaving `rest` in order. */
  ghost predicate SplicedFirst(bps: seq<Breakpoint>, rest: seq<Breakpoint>, line: int, bp: Breakpoint) {
    exists i ::
      && 0 <= i < |bps|
      && bps[i] == bp && bp.line == line
      && (forall k :: 0 <= k < i ==> bps[k].line != line)
      && rest == bps[..i] + bps[i + 1..]
  }

  datatype Cleared = Cleared(bridge: Bridge, removed: Option<Breakpoint>, wire: Option<string>)

  /**
    `clearBreakpoint` up to its await: the first record at `line` leaves the
    file and the clear command is sent; when no record matches, nothing
    changes and nothing is sent.
   */
  function ClearBreakpoint(b: Bridge, path: string, line: int): (r: Cleared)
    ensures var p := Normalize(b.isWindows, path);
      && (r.removed.None? <==> !Contains(b.store, p, line))
      && (r.removed.None? ==> r.bridge == b && r.wire.None?)
      && (r.removed.Some? ==>
           && p in r.bridge.store.files
           && r.bridge.store.files == b.store.files[p := r.bridge.store.files[p]]
           && SplicedFirst(b.store.files[p], r.bridge.store.files[p], line, r.removed.value)
           && (r.wire.Some? <==> b.socket && b.ready)
           && (r.wire.Some? ==> r.wire.value == BuildRequest(CmdClear, [StrArg(p), NumArg(line)])))
    ensures r.bridge.store.nextId == b.store.nextId
    ensures r.bridge.queue == (if r.wire.Some? then [] else b.queue)
    ensures r.bridge.(queue := b.queue, store := b.store) == b
    ensures Good(b) ==> Good(r.bridge)
  {
    var p := Normalize(b.isWindows, path);
    var removed := RemoveFirst(b.store, p, line);
    if removed.1.None? then Cleared(b, None, None)
    else
      var s := Send(b.(store := removed.0), CmdClear, [StrArg(p), NumArg(line)]);
      Cleared(s.bridge, removed.1, s.wire)
  }

  /** `clearAllBreakpoints` up to its await: the file's records go and the clear-all command is always attempted. */
  function ClearAllBreakpoints(b: Bridge, path: string): (r: Sent)
    ensures var p := Normalize(b.isWindows, path);
      && r.bridge.store == RemoveFile(b.store, p)
      && (r.wire.Some? <==> b.socket && b.ready)
      && (r.wire.Some? ==> r.wire.value == BuildRequest(CmdClear, [StrArg(p)]))
    ensures r.bridge.queue == (if r.wire.Some? then [] else b.queue)
    ensures r.bridge.(queue := b.queue, store := b.store) == b
    ensures Good(b) ==> Good(r.bridge)
  {
    var p := Normalize(b.isWindows, path);
    Send(b.(store := RemoveFile(b.store, p)), CmdClear, [StrArg(p)])
  }

  /**
    After clearing a file, no line of it is reported by the raw lookup of
    `checkBreakpoint`, whatever spelling of the path is used: either the
    spelling is canonical and was cleared, or it was never a key.
   */
  lemma ClearAllThenCheck(b: Bridge, path: string, line: int)
    requires Good(b)
    ensures !Contains(ClearAllBreakpoints(b, path).bridge.store, path, line)
    ensures forall q :: q in b.store.files && q != Normalize(b.isWindows, path) ==>
      q in ClearAllBreakpoints(b, path).bridge.store.files
      && ClearAllBreakpoints(b, path).bridge.store.files[q] == b.store.files[q]
  {
    var r := ClearAllBreakpoints(b, path).bridge;
    if path in r.store.files {
      NormalFixedPoints(b.isWindows, path);
      assert false;
    }
  }

  /** `checkBreakpoint` as written: a scan of the file's records under the path exactly as given. */
  method CheckBreakpoint(b: Bridge, path: string, line: int) returns (found: bool)
    ensures found <==> Contains(b.store, path, line)
  {
    found := false;
    if path in b.store.files {
      var bps := b.store.files[path];
      var i := 0;
      while i < |bps|
        invariant 0 <= i <= |bps|
        invariant found <==> exists k :: 0 <= k < i && bps[k].line == line
      {
        if bps[i].line == line {
          found := true;
        }
        i := i + 1;
      }
    }
  }

  /** `checkBreakpoint` with the normalisation every other store operation applies. */
  method CheckBreakpointNormalized(b: Bridge, path: string, line: int) returns (found: bool)
    ensures found <==> Contains(b.store, Normalize(b.isWindows, path), line)
  {
    found := CheckBreakpoint(b, Normalize(b.isWindows, path), line);
  }

  /** With normalisation, a breakpoint just set is found under the same spelling of the path. */
  lemma SetThenCheckNormalized(b: Bridge, path: string, line: int, condition: Option<string>)
    ensures var r := SetBreakPoint(b, path, line, condition);
      Contains(r.bridge.store, Normalize(b.isWindows, path), line)
  {
    var r := SetBreakPoint(b, path, line, condition);
    var f := r.bridge.store.files[r.path];
    assert f[|f| - 1] == r.bp;
  }

  /**
    As written, the same lookup misses: on Windows a breakpoint set under
    `C:/A.tut` is stored under `c:\a.tut`, so `checkBreakpoint("C:/A.tut", 3)` is false.
   */
  lemma CheckMissesUnnormalizedPath()
    ensures var r := SetBreakPoint(Fresh(true), "C:/A.tut", 3, None);
      && !Contains(r.bridge.store, "C:/A.tut", 3)
      && Contains(r.bridge.store, Normalize(true, "C:/A.tut"), 3)
  {
    var r := SetBreakPoint(Fresh(true), "C:/A.tut", 3, None);
    SetThenCheckNormalized(Fresh(true), "C:/A.tut", 3, None);
    assert r.bridge.store.files.Keys == {Normalize(true, "C:/A.tut")};
    assert Normalize(true, "C:/A.tut")[2] == '\\';
  }

  // ---------------------------------------------------------------------
  // Other session requests

  /** The session operations that send one command and (except two) await one reply. */
  datatype Request =
    | SetFile(program: string)
    | Start(stopOnEntry: bool, debug: bool)
    | Continue
    | StepIn
    | Next
    | Pause
    | Terminate
    | StackTrace
    | LocalFrame

  /** The command word and arguments each operation sends. */
  function CommandOf(isWindows: bool, req: Request): (c: (string, seq<Arg>))
    ensures c.0 in Commands
    ensures req.SetFile? ==> c.1 == [StrArg(Normalize(isWindows, req.program))]
    ensures req.Start? ==>
      && (c.0 == CmdStepInto <==> req.debug && req.stopOnEntry)
      && (c.0 == CmdRun <==> req.debug && !req.stopOnEntry)
      && (c.0 == CmdRunNoDebug <==> !req.debug)
    ensures req.LocalFrame? ==> c == (CmdFrame, [NumArg(0)])
    ensures !req.SetFile? && !req.LocalFrame? ==> c.1 == []
    ensures c.0 == CmdSetFile <==> req.SetFile?
    ensures c.0 == CmdContinue <==> req.Continue?
    ensures c.0 == CmdStepInto <==> req.StepIn? || (req.Start? && req.debug && req.stopOnEntry)
    ensures c.0 == CmdStepOver <==> req.Next?
    ensures c.0 == CmdPause <==> req.Pause?
    ensures c.0 == CmdExit <==> req.Terminate?
    ensures c.0 == CmdStack <==> req.StackTrace?
    ensures c.0 == CmdFrame <==> req.LocalFrame?
  {
    match req
    case SetFile(program) => (CmdSetFile, [StrArg(Normalize(isWindows, program))])
    case Start(stopOnEntry, debug) =>
      if debug then (if stopOnEntry then (CmdStepInto, []) else (CmdRun, []))
      else (CmdRunNoDebug, [])
    case Continue => (CmdContinue, [])
    case StepIn => (CmdStepInto, [])
    case Next => (CmdStepOver, [])
    case Pause => (CmdPause, [])
    case Terminate => (CmdExit, [])
    case StackTrace => (CmdStack, [])
    case LocalFrame => (CmdFrame, [NumArg(0)])
  }

  /** The reply type each operation then awaits; `pause` and `terminate` await nothing. */
  function AwaitedToken(req: Request): (t: Option<string>)
    ensures t.None? <==> req.Pause? || req.Terminate?
    ensures t.Some? && !req.Start? ==> t.value in Replies
    ensures t == Some(RespFileSet) <==> req.SetFile?
    ensures t == Some(EvStarted) <==> req.Start?
    ensures t == Some(RespResume) <==> req.Continue? || req.StepIn? || req.Next?
    ensures t == Some(RespStack) <==> req.StackTrace?
    ensures t == Some(RespFrame) <==> req.LocalFrame?
  {
    match req
    case SetFile(_) => Some(RespFileSet)
    case Start(_, _) => Some(EvStarted)
    case Continue => Some(RespResume)
    case StepIn => Some(RespResume)
    case Next => Some(RespResume)
    case Pause => None
    case Terminate => None
    case StackTrace => Some(RespStack)
    case LocalFrame => Some(RespFrame)
  }

  /** `start` awaits the event token `started`, which is no reply token, on the reply queue. */
  lemma StartAwaitsEventToken(stopOnEntry: bool, debug: bool)
    ensures AwaitedToken(Start(stopOnEntry, debug)) == Some(EvStarted)
    ensures EvStarted !in Replies
  {
  }

  /** Sends an operation's command; `prepare` records the program as given before normalising it for the wire. */
  function Issue(b: Bridge, req: Request): (r: Sent)
    ensures r.bridge.sourceFile == (if req.SetFile? then req.program else b.sourceFile)
    ensures r.bridge.store == b.store
    ensures r.wire.Some? <==> b.socket && b.ready
    ensures r.wire.Some? ==> r.bridge.queue == [] && r.wire.value == BuildRequest(CommandOf(b.isWindows, req).0, CommandOf(b.isWindows, req).1)
    ensures r.wire.None? ==> r.bridge.queue == b.queue
    ensures r.bridge.(queue := b.queue, sourceFile := b.sourceFile) == b
  {
    var b1 := if req.SetFile? then b.(sourceFile := req.program) else b;
    var c := CommandOf(b.isWindows, req);
    Send(b1, c.0, c.1)
  }
}
