/**
  Whole exchanges between the runtime and the debugger, composed from the
  operations of the other modules: each lemma follows one request from the
  line sent, through the frames that come back, to what the runtime reports.
 */
module Scenarios {
  import opened Wrappers
  import opened Json
  import opened Types
  import opened Constants
  import opened Paths
  import opened Dispatch
  import opened Codec
  import opened Events
  import opened Breakpoints
  import opened Runtime

  /** The frame `{"type": kind, "body": body}` as decoded. */
  function ReplyJson(kind: string, body: Json): Json {
    JObj([Member("type", JStr(kind)), Member("body", body)])
  }

  /** The frame `{"type": kind, "description": description}` as decoded. */
  function EventJson(kind: string, description: Json): Json {
    JObj([Member("type", JStr(kind)), Member("description", description)])
  }

  /**
    Setting a breakpoint on a connected runtime: the verify command goes out,
    the debugger answers `breakpoint_set` with the line it actually used, and
    the record is verified (and `breakpointValidated` raised) exactly when
    that line is the requested one.
   */
  lemma SetAndVerify(b: Bridge, path: string, line: int, reported: int)
    requires b.socket && b.ready
    ensures
      var st := SetBreakPoint(b, path, line, None);
      var d := OnMessage(st.bridge, Some(ReplyJson(RespBreakpointSet, LineBody(reported))));
      var a := Await(d.bridge, RespBreakpointSet);
      var reply := Reply(JStr(RespBreakpointSet), LineBody(reported));
      var v := CompleteVerify(a.0, st.path, st.bp, Resolved(reply));
      && st.wire == Some(BuildRequest(CmdBreakpoint, [StrArg(Normalize(b.isWindows, path)), NumArg(line)]))
      && a.1 == Resolved(reply) && a.0.queue == []
      && (v.bp.verified <==> reported == line)
      && (v.notification.Some? <==> reported == line)
      && (reported == line <==> v.bridge.store == MarkVerified(st.bridge.store, st.path, st.bp.id))
      && (reported != line ==> v.bridge.store == st.bridge.store)
      && Contains(v.bridge.store, st.path, line)
  {
    var st := SetBreakPoint(b, path, line, None);
    assert st.bridge.queue == [];
    DeliverThenAwait(st.bridge, RespBreakpointSet, LineBody(reported));
    ConfirmsIff(st.bridge, st.path, st.bp, line, reported);
    MarkVerifiedChanges(st.bridge.store, st.path, st.bp);
    assert st.bridge.store.files[st.path][|st.bridge.store.files[st.path]| - 1].line == line;
    VerifyKeepsRecord(st.bridge.store, st.path, line, st.bp.id);
  }

  /** On an empty queue, a reply of the awaited type that arrives is exactly what the await resolves to. */
  lemma DeliverThenAwait(b: Bridge, kind: string, body: Json)
    requires b.queue == [] && kind != RespBadRequest
    ensures Await(OnMessage(b, Some(ReplyJson(kind, body))).bridge, kind) == (b, Resolved(Reply(JStr(kind), body)))
  {
    DeliverReply(b, kind, body);
    var d := OnMessage(b, Some(ReplyJson(kind, body)));
    AwaitHead(d.bridge, kind);
  }

  /** A `breakpoint_set` reply with `line` = `reported` confirms the record exactly when `reported` is its line. */
  lemma ConfirmsIff(b: Bridge, path: string, bp: Breakpoint, line: int, reported: int)
    requires bp.line == line
    ensures var v := CompleteVerify(b, path, bp, Resolved(Reply(JStr(RespBreakpointSet), LineBody(reported))));
      && (v.bp.verified <==> bp.verified || reported == line)
      && (v.notification.Some? <==> reported == line)
      && (reported == line ==> v.bridge.store == MarkVerified(b.store, path, bp.id))
      && (reported != line ==> v.bridge == b)
  {
    var body := LineBody(reported);
    assert Get(body.members, "line") == Some(JNum(reported as real));
    assert Lookup(body, "line") == Value(Some(JNum(reported as real)));
  }

  function LineBody(line: int): Json {
    JObj([Member("line", JNum(line as real))])
  }

  /** Marking a record that is in the file does change the store (its flag was clear). */
  lemma MarkVerifiedChanges(s: Store, path: string, bp: Breakpoint)
    requires path in s.files && |s.files[path]| > 0 && s.files[path][|s.files[path]| - 1] == bp && !bp.verified
    ensures MarkVerified(s, path, bp.id) != s
  {
    var n := |s.files[path]| - 1;
    assert MarkVerified(s, path, bp.id).files[path][n].verified;
  }

  /** Verified or not, the record set a moment ago is still found under the canonical path. */
  lemma VerifyKeepsRecord(s: Store, path: string, line: int, id: int)
    requires Contains(s, path, line)
    ensures Contains(MarkVerified(s, path, id), path, line)
  {
  }

  /** A well-formed reply frame joins the end of the queue. */
  lemma DeliverReply(b: Bridge, kind: string, body: Json)
    ensures OnMessage(b, Some(ReplyJson(kind, body))) == Delivered(b.(queue := b.queue + [Reply(JStr(kind), body)]), [], [])
  {
    var frame := ReplyJson(kind, body);
    assert Get(frame.members, "type") == Some(JStr(kind));
    assert Get(frame.members, "body") == Some(body);
  }

  /** A queue headed by a reply of the awaited type (not a bad request) resolves on that reply. */
  lemma AwaitHead(b: Bridge, expected: string)
    requires |b.queue| > 0 && b.queue[0].kind == JStr(expected) && expected != RespBadRequest
    ensures Await(b, expected) == (b.(queue := b.queue[1..]), Resolved(b.queue[0]))
  {
  }

  /**
    A frame that does not parse, arriving before the awaited reply, is queued
    as the empty default reply; the await rejects on it and the real reply
    is left behind in the queue.
   */
  lemma NoiseBeforeReply(b: Bridge, expected: string, body: Json)
    requires b.queue == [] && expected != "" && expected != RespBadRequest
    ensures
      var d1 := OnMessage(b, None);
      var d2 := OnMessage(d1.bridge, Some(ReplyJson(expected, body)));
      var a := Await(d2.bridge, expected);
      && a.1 == Rejected(None)
      && a.0.queue == [DefaultReply, Reply(JStr(expected), body)]
  {
    var d1 := OnMessage(b, None);
    assert d1.bridge == b.(queue := [DefaultReply]);
    DeliverReply(d1.bridge, expected, body);
    var d2 := OnMessage(d1.bridge, Some(ReplyJson(expected, body)));
    assert d2.bridge.queue == [DefaultReply, Reply(JStr(expected), body)];
    assert !IsToken(DefaultReply.kind, RespBadRequest) && !IsToken(DefaultReply.kind, expected);
  }

  /** An unsolicited `Breakpoint` event stops the session on a breakpoint and leaves the reply queue alone. */
  lemma UnsolicitedBreakpointEvent(b: Bridge, description: Json)
    ensures
      var d := OnMessage(b, Some(EventJson(EvStopOnBreakpoint, description)));
      d == Delivered(b, [StopOnBreakpoint], [])
  {
    ClassifyEvent(EvStopOnBreakpoint, description);
  }

  /** A frame with `type` and `description` and no `body` is read as that event. */
  lemma ClassifyEvent(kind: string, description: Json)
    ensures Classify(Some(EventJson(kind, description))) == EventFrame(Event(JStr(kind), description))
  {
    var frame := EventJson(kind, description);
    assert Get(frame.members, "type") == Some(JStr(kind));
    assert Get(frame.members, "body") == None;
    assert Get(frame.members, "description") == Some(description);
  }

  /**
    A command the gate refuses leaves the queue as it was, so a stale reply of
    the awaited type, left over from earlier, satisfies the new await.
   */
  lemma StaleReplySatisfiesRefusedCommand(b: Bridge, program: string, body: Json)
    requires !b.ready
    requires b.queue == [Reply(JStr(RespFileSet), body)]
    ensures
      var s := Issue(b, SetFile(program));
      var a := Await(s.bridge, RespFileSet);
      s.wire.None? && a.1 == Resolved(Reply(JStr(RespFileSet), body))
  {
    var s := Issue(b, SetFile(program));
    assert s.bridge.queue == b.queue;
    assert RespFileSet != RespBadRequest;
    AwaitHead(s.bridge, RespFileSet);
  }

  /**
    The `end` event on a connected runtime sends EXIT, which empties the
    reply queue; the session itself learns of the end only when the socket
    closes.
   */
  lemma EndEventSendsExit(b: Bridge, description: Json)
    requires b.socket && b.ready
    ensures
      var d := OnMessage(b, Some(EventJson(EvEnd, description)));
      && d.wire == [CmdExit] && d.notifications == [] && d.bridge.queue == []
      && OnClose(d.bridge).1 == End
  {
    ClassifyEvent(EvEnd, description);
  }
}
