# Tutel debugger bridge and drawing panel, in Dafny

This project models the logic at the core of the Tutel VS Code extension in Dafny. The extension has two halves:

- **The runtime bridge** (`TutelRuntime`). It talks to the Tutel debugger over a WebSocket, one text line per command. Replies to commands land in a queue, and spontaneous events are routed to the debug session. The bridge keeps a per-file store of breakpoints with a global id counter.
- **The drawing panel** (`TutelPanel`). It tails a buffer file that the debugged program appends JSON requests to, one per line. It keeps a map of turtles and draws a segment for every GO request.

Every operation is a pure function over immutable datatypes. Socket, timers, `JSON.parse`, `JSON.stringify` and the VS Code API are parameters or left out. An asynchronous operation is split at its `await`. The part before the await returns the new state and the line it sent. The part after it takes the settled outcome of one poll of the reply matcher.

Modules, in dependency order:

- `Wrappers`: `Option`.
- `Text`: `split`/`join` on one character, decimal rendering and parsing of integers, ASCII lower-casing.
- `Constants`: the method, command, event and reply tokens, and the request separator.
- `Json`: decoded JSON values. Property access is `Lookup`. It throws (`TypeError`) on `null` and is `undefined` (`None`) on other non-objects and on missing keys.
- `Types`: turtles, requests, replies and events, their default values, and the two `isOfType` guards.
- `Paths`: `normalizePathAndCasing`.
- `Dispatch`: the command-line builder, and one poll of `getDebuggerResponse`.
- `Codec`: `parseDebuggerResponse`.
- `Breakpoints`: the breakpoint store and its validity invariant.
- `Events`: `handleDebuggerEvent`.
- `Runtime`: the bridge state, readiness, the send gate, inbound frames, and the breakpoint and session operations.
- `Inspector`: the `stack` window and the `getLocalVariables` listing.
- `Panel`: `handleRequest`, `deserializeWebviewRequests`, the buffer-file watcher and the reset in `createOrShow`.
- `Scenarios`: whole exchanges, composed from the modules above.

Behaviour of the code worth noting, which the model follows:

- **Malformed frames.** A frame that does not decode, or that has neither shape, is enqueued as the default reply (type `""`, empty body). It is not dropped. The next await then rejects on it (`Scenarios.NoiseBeforeReply`).
- **Refused sends.** The reply queue is cleared only by a send that goes out. A send that the gate refuses leaves stale replies in place, and they can satisfy a later await (`Scenarios.StaleReplySatisfiesRefusedCommand`).
- **The send gate.** It needs a held socket as well as the ready flag. Readiness is set by the socket's `open` event, not by a handshake reply.

Behaviour of the code that the model keeps, although it looks unintended:

- **After `bad_request`.** The matcher's type test still runs after it has rejected on a `bad_request`. When the awaited type is itself `bad_request`, a second reply is dequeued.
- **`bad_request` with a null body.** Reading `msg` throws, so the await never settles (`Stuck`).
- **A `null` frame.** The first guard, the reply test, throws on it, and the throw is passed on before the event test runs. The message handler then aborts without enqueueing anything (`Raised`).
- **`start`.** It awaits the event token `started` on the reply queue.
- **The `end` event.** It sends EXIT. Only the socket's closing raises `end` to the session.
- **`StepInto`.** It is reported as `stopOnEntry`.
- **An empty condition.** The condition `""` is falsy, so the plain `break` command is sent.
- **Setting the source file.** `prepare` records the program path as given and sends it normalised.
- **`stack`.** It stops at the first missing or `null` frame and keeps the frames before it. The `stack` member may also be a string, which is indexed character by character.
- **Falsy locals.** A local whose value is falsy is listed with empty text.
- **ADD without a body.** It stores `undefined` under the id, and every later lookup treats that as a missing turtle. The model removes the id.
- **A request line written in two halves.** Neither half parses, so both are dropped, and the seen text still advances past the first half. The request is never processed (`Panel.SplitLineIsLost`). The tailing lemmas therefore assume writes that end their lines.

## Model

| member | source | states |
|---|---|---|
| Text.SplitJoin | src/tutelRuntime.ts:443-451 | splitting a joined line on the separator gives back the parts, when no part contains the separator |
| Text.JoinSplit | src/tutelPanel.ts:140 | joining the pieces of a split gives back the text, so splitting loses nothing |
| Text.SplitAround | src/tutelPanel.ts:140 | the lines of `a + "\n" + b` are the lines of `a` followed by the lines of `b` |
| Text.IntToStringRoundTrip | src/tutelRuntime.ts:447 | the decimal text of an integer argument parses back to the same integer |
| Types.IsOfType | src/types.ts:36-47 | each guard holds iff `type` and its second field (`body` for a reply, `description` for an event) are both present; it throws exactly on `null` |
| Types.BothShapes | src/types.ts:36-47 | an object with `type`, `body` and `description` satisfies both guards |
| Paths.Normalize | src/tutelRuntime.ts:335-341 | same length, mapped position by position: on Windows `/` becomes `\`, `\` is kept and an upper-case ASCII letter becomes its lower-case letter (code + 32), so no `/` and no upper-case ASCII letter remain; elsewhere `\` becomes `/` and every other character is kept; any other character is kept on both |
| Paths.NormalFixedPoints | src/tutelRuntime.ts:335-341 | normalised paths are canonical, and canonical paths are exactly the fixed points of normalisation |
| Paths.NormalizeIdempotent | src/tutelRuntime.ts:335-341 | normalising twice equals normalising once |
| Dispatch.BuildRequest | src/tutelRuntime.ts:443-451 | the line starts with the command word, and is exactly the command word when there are no arguments |
| Dispatch.BuildRequestAppend | src/tutelRuntime.ts:443-451 | one more argument appends a space and its text, whatever the text contains; with the empty case this fixes the line for every argument list, quoted conditions and paths with spaces included |
| Dispatch.BuildRequestTokens | src/tutelRuntime.ts:443-451 | splitting the line on `" "` recovers the command word followed by each argument's text, when none contains a space |
| Dispatch.Poll | src/tutelRuntime.ts:464-485 | an empty queue stays pending; a `bad_request` head is dequeued and rejects with `body.msg`, or never settles when the body is `null`; a head of the expected type is dequeued and resolves; any other head rejects and stays queued; the new queue is always a suffix of the old one |
| Dispatch.AwaitingBadRequestDropsTwo | src/tutelRuntime.ts:471-478 | awaiting `bad_request` itself consumes two replies and rejects with the first one's message |
| Codec.Classify | src/tutelRuntime.ts:405-418 | an undecodable frame becomes the default reply; `null` aborts; a frame with `type` and `body` is a reply; one with `type` and `description` and no `body` is an event; anything else is the default reply |
| Codec.ReplyShapeWins | src/tutelRuntime.ts:408-413 | a frame of both shapes is classified as a reply, because the reply guard is tried first |
| Breakpoints.InitialValid | src/tutelRuntime.ts:83-87 | the empty store with the counter at 1 satisfies the validity invariant |
| Breakpoints.Add | src/tutelRuntime.ts:218-224 | a new unverified record takes the current counter as its id and is appended to its file; the counter goes up by one; other files are unchanged; validity is kept |
| Breakpoints.MarkVerified | src/tutelRuntime.ts:319-320 | only the flag of the record with the given id changes, and it becomes set; ids, lines, conditions, order and other files are unchanged; validity is kept |
| Breakpoints.FindLine | src/tutelRuntime.ts:248 | the index of the first record at the line, or -1 exactly when the file has none |
| Breakpoints.RemoveFirst | src/tutelRuntime.ts:246-251 | the first record at the line is spliced out and returned, and the rest keep their order; with no match the store is unchanged; validity is kept |
| Breakpoints.RemoveFile | src/tutelRuntime.ts:265 | the file's entry goes and every other file's is kept |
| Breakpoints.RunValid | src/tutelRuntime.ts:215-271 | any sequence of store operations keeps the store valid: ids below the counter, increasing within a file, and never shared between files |
| Breakpoints.IdsStrictlyIncrease | src/tutelRuntime.ts:223 | across any sequence of store operations, the ids handed out are strictly increasing and lie between the initial and final counter values, so none is reused |
| Events.Route | src/tutelRuntime.ts:420-441 | `Breakpoint`, `StepInto`, `StepOver` and `Pause` stop the session on a breakpoint, on entry, on a step and on pause; `post_mortem` stops on an exception carrying the description; `end` sends EXIT; every other token, `all_breakpoints_removed` included, does nothing (each one an if-and-only-if) |
| Runtime.FreshIsGood | src/tutelRuntime.ts:83-93 | a new runtime's store is valid and keyed by canonical paths |
| Runtime.OnOpen | src/tutelRuntime.ts:376-379 | the open handler sets the ready flag and nothing else |
| Runtime.ConnectTick | src/tutelRuntime.ts:354-359 | a tick of the connection loop resolves iff the connection is ready, and then holds the socket; a tick before readiness leaves the bridge unchanged, so no socket is held |
| Runtime.OnClose | src/tutelRuntime.ts:397-400 | the close handler clears the ready flag, raises `end`, and changes nothing else |
| Runtime.Send | src/tutelRuntime.ts:453-462 | the line goes out iff a socket is held and ready; then the queue is emptied; otherwise the state is untouched |
| Runtime.NoSendAfterClose | src/tutelRuntime.ts:397-462 | after the socket closes no command goes out and the reply queue is kept |
| Runtime.SendAfterConnect | src/tutelRuntime.ts:354-459 | once the socket has opened and been kept by the connection loop, every command goes out |
| Runtime.OnMessage | src/tutelRuntime.ts:381-391 | a reply joins the back of the queue; an event is routed, and `end` sends EXIT through the gate; a `null` frame changes nothing; nothing but the queue changes |
| Runtime.Await | src/tutelRuntime.ts:464-485 | the await resolves only on a head of the expected type, which it dequeues; it is pending iff the queue is empty |
| Runtime.VerifyCommand | src/tutelRuntime.ts:310-315 | the conditional command is used iff the condition is a non-empty string; its arguments are exactly the path, the line and the condition wrapped in double quotes; the plain command's arguments are exactly the path and the line |
| Runtime.SetBreakPoint | src/tutelRuntime.ts:215-226 | the record is stored under the normalised path with the current counter as id, unverified; the counter goes up; other files are kept; the verify command goes out iff the socket is ready; validity and canonical keys are kept |
| Runtime.CompleteVerify | src/tutelRuntime.ts:316-322 | the record becomes verified, and `breakpointValidated` is raised, iff the reply resolved with `body.line` strictly equal to the requested line; otherwise nothing changes |
| Runtime.ClearBreakpoint | src/tutelRuntime.ts:244-261 | with a match, the first record at the line is spliced out and returned, other files are unchanged, and the clear command goes out iff ready; with no match nothing changes and nothing is sent; the reply queue is emptied iff the command goes out, and kept otherwise |
| Runtime.ClearAllBreakpoints | src/tutelRuntime.ts:263-266 | the normalised file's records go and the clear command is attempted unconditionally; the reply queue is emptied iff the command goes out, and kept otherwise |
| Runtime.ClearAllThenCheck | src/tutelRuntime.ts:263-265 | after clearing a file, the lookup reports no line of it under any spelling of the path, and other files are unchanged |
| Runtime.CheckBreakpoint | src/tutelRuntime.ts:230-239 | true iff the file stored under the path exactly as given has a record at the line |
| Runtime.CheckBreakpointNormalized | src/tutelRuntime.ts:230-239 | true iff the file stored under the normalised path has a record at the line |
| Runtime.SetThenCheckNormalized | src/tutelRuntime.ts:215-239 | with normalisation, a breakpoint just set is found under the spelling of the path it was set with |
| Runtime.CheckMissesUnnormalizedPath | src/tutelRuntime.ts:230-232 | as written, the lookup misses a breakpoint set on Windows under `C:/A.tut` |
| Runtime.CommandOf | src/tutelRuntime.ts:93-281 | each operation sends its own command word, pinned in both directions (`file` iff setting the file, `continue` iff continue, `step_into` iff step-in or a debug start that stops on entry, `step_over` iff next, `pause` iff pause, `exit` iff terminate, `stack` iff a stack trace, `frame` iff a frame request); `start` otherwise sends `run` or `run_no_debug` by its debug flag; only setting the file (the normalised path) and the frame request (its index) carry arguments |
| Runtime.AwaitedToken | src/tutelRuntime.ts:93-281 | `pause` and `terminate` await nothing; each other operation awaits its own token, in both directions: `file_set` iff setting the file, `started` iff `start`, `resume` iff continue, step-in or next, `stack_trace` iff a stack trace, `frame` iff a frame request |
| Runtime.StartAwaitsEventToken | src/tutelRuntime.ts:141 | `start` awaits `started`, which is an event token and no reply token |
| Runtime.Issue | src/tutelRuntime.ts:93-281 | each operation's send: `prepare` records the program as given; the command goes out iff a socket is held and ready, and then the queue is emptied, otherwise it is kept; nothing else of the bridge changes |
| Inspector.StackItems | src/tutelRuntime.ts:189-190 | the frames indexed are the `stack` array's elements, or a string's characters, and none for any other value |
| Inspector.StackWindow | src/tutelRuntime.ts:191-200 | frames are exactly indices `s` up to `min(e, length) - 1` with their own name and line, cut short only at the first unreadable frame; none when `s >= min(e, length)` |
| Inspector.Stack | src/tutelRuntime.ts:183-210 | a resolved reply gives the window of its `stack`: indices from `s` with their own name and line, at most up to `min(e, length) - 1`, stopping only at an unreadable frame; a rejected one gives no frames; `count` is the number of frames; every frame names the bridge's source file, the program as `prepare` recorded it |
| Inspector.Entries | src/tutelRuntime.ts:285 | `Object.entries` gives an object's members in order, an array's index/element pairs, a string's index/one-character pairs, no entries for a number or boolean, and throws exactly on `null` |
| Inspector.LocalEntries | src/tutelRuntime.ts:283-285 | when `body.frame` and its `locals` are both present, exactly the entries of `locals` (none for `null` locals); no entries when the body is not an object, when `frame` is missing, `null` or not an object, or when `locals` is missing |
| Inspector.RenderLocals | src/tutelRuntime.ts:285-292 | one variable per entry, in order, named by its key, whose text is the rendering of a truthy value and empty for a falsy one |
| Panel.HandleRequest | src/tutelPanel.ts:191-222 | ADD with a body stores it under the id and ADD without one removes the id; any other method fails iff the id is unknown; COLOR, POSITION and ORIENTATION overwrite only their own field, and only when supplied; GO moves and emits one segment from the old to the new position in the turtle's colour; other methods change nothing; other turtles are never touched |
| Panel.CompleteTurtlesDrawCompleteSegments | src/tutelPanel.ts:191-214 | turtles with all fields present, like the default turtle, keep them under requests that add complete turtles, and draw segments with both endpoints and a colour |
| Panel.AddDefaultThenGo | src/types.ts:12-16 | the default turtle (black, at the origin, angle 0) is complete; adding it stores it under its id, and its first GO draws a black segment from the origin to the target |
| Panel.DefaultRequestIsInert | src/types.ts:24-28 | the default request (method `""`, id -1) changes nothing, or fails on the unknown id -1 |
| Panel.ProcessOutcome | src/tutelPanel.ts:172-177 | a batch that goes through draws one segment per GO; a batch that fails contains a request other than ADD |
| Panel.ProcessAppend | src/tutelPanel.ts:172-177 | processing two batches in turn equals processing their concatenation, stopping at the first failure |
| Panel.Deserialize | src/tutelPanel.ts:179-189 | never more requests than lines (which requests, and in what order, is stated by the two lemmas below) |
| Panel.DeserializeParsed | src/tutelPanel.ts:179-189 | the requests are exactly the parses of the lines that parse, and none is dropped iff every line parses |
| Panel.DeserializeAppend | src/tutelPanel.ts:179-189 | deserialising keeps line order across any split of the lines |
| Panel.Reshow | src/tutelPanel.ts:47-50 | re-showing the panel empties the turtle map and restarts the watcher with nothing read |
| Panel.NewData | src/tutelPanel.ts:138 | when the file only grew, what was read followed by the new text is the whole content; when it shrank, there is no new text |
| Panel.OnChange | src/tutelPanel.ts:133-146 | a failed read changes nothing; only the new suffix is split and processed; the read text advances to the whole content unless processing failed |
| Panel.ReshowRereadsWholeFile | src/tutelPanel.ts:49-50 | after a re-show, the next change processes the buffer file from its first line on an empty turtle map |
| Panel.PendingSplits | src/tutelPanel.ts:137-140 | when the first write ends a line, the requests read in two changes are the requests read in one change over the whole file |
| Panel.SplitLineIsLost | src/tutelPanel.ts:135-142 | a request line written in two halves is never processed, although the seen text advances past it, while a whole-file read adds the turtle |
| Panel.TailingMatchesWholeFile | src/tutelPanel.ts:133-145 | reading a file change by change leaves the same turtles and draws the same segments as reading its final content at once, when writes end lines and nothing fails |
| Scenarios.SetAndVerify | src/tutelRuntime.ts:308-322 | on a connected runtime, the `break` line goes out and the `breakpoint_set` reply resolves the await; the record is verified and announced iff the reported line is the requested one; either way the line is still found under the normalised path (`VerifyKeepsRecord`) |
| Scenarios.VerifyKeepsRecord | src/tutelRuntime.ts:319-320 | marking a record verified never removes a line from the file's records |
| Scenarios.NoiseBeforeReply | src/tutelRuntime.ts:384-389 | an undecodable frame before the awaited reply makes the await reject and leaves the real reply queued |
| Scenarios.UnsolicitedBreakpointEvent | src/tutelRuntime.ts:421-422 | a `Breakpoint` event stops the session on a breakpoint and leaves the queue alone |
| Scenarios.StaleReplySatisfiesRefusedCommand | src/tutelRuntime.ts:456-461 | when the gate refuses a command, an earlier reply of the awaited type still resolves the await |
| Scenarios.EndEventSendsExit | src/tutelRuntime.ts:433-434 | the `end` event on a connected runtime sends EXIT and empties the queue, with no notification |
| Scenarios.DeliverThenAwait | src/tutelRuntime.ts:388-478 | on an empty queue, an arriving reply of the awaited type is exactly what the await resolves to |

## Left out

- The WebSocket itself is not modelled: connecting, `ping`/`pong`, the `ACK` sends and UTF-8 decoding. Only the socket-held and ready flags are kept, because the rest is network I/O.
- Timers are not modelled: the 100 ms polling interval, the 1 s retry spacing and the 10-retry limit of the connection loop, the 5 s wait of `forceTerminate`, and the `setTimeout` deferral of `sendEvent`. One poll is a pure function, and notifications are returned in order.
- `JSON.parse` and `JSON.stringify` are parameters: a decoded frame arrives as `Option<Json>`, a buffer-file line is parsed by a given function, and a local value is rendered by a given function.
- A request line that parses but does not have the request's shape (for example a `null` body) is not modelled. The source only casts such a value, so its behaviour is not part of the request format.
- `Number.prototype.toString` is modelled on integers only: the exponent forms above 1e21 and fractional line numbers are not modelled.
- Path lower-casing on Windows covers ASCII letters only. Unicode case mapping is a runtime library table.
- `Object.entries` is given an object's members in their stored order. The rule that integer-like keys come first is not modelled.
- A `stack` member that is an object with a numeric `length` member is treated like any other object (no frames).
- The terminal, `initializeDebugger`, `shellArgs`, the debug adapter in `tutelDebug.ts`, the webview HTML, image download, file watching itself, the canvas scripts and the web activation stub are not modelled. They are process, UI and file-system plumbing.
- Concurrent use of the bridge is not modelled. The debug adapter fires `clearAllBreakpoints` without awaiting it and sets breakpoints in parallel; the model assumes one command in flight.
- Dequeuing an empty queue is taken to leave it empty. The queue library is not part of this model.
- Buffer-file change events are taken to be handled one at a time. The watcher's handler awaits the file read before it measures the previous contents, and records the new contents only after the requests are processed. Two overlapping changes could therefore process the same appended suffix twice, and a handler of a watcher replaced by a re-show could still apply requests to the turtles after the reset.
- Text is a sequence of Unicode scalar values, while JavaScript strings are sequences of UTF-16 code units. `substring` on the buffer file, the one-character members of a string `stack`, and path lengths differ from the model for text outside the Basic Multilingual Plane.
- Breakpoints.IdsStrictlyIncrease: ids are unbounded integers. In the source the counter is a JavaScript number, so `breakpointId++` stops increasing at 2^53 and ids are reused from there on; the model does not represent that limit.
- Runtime.CompleteVerify, Inspector.Stack: both require a settled outcome (resolved or rejected). A pending or stuck await never runs the code after it.
- Runtime.Await: the last case of its contract (a rejection without a message keeps the queue) is stated only for heads that are not `bad_request`. The full case analysis is Dispatch.Poll's.

## Findings

| source | as written | input that shows it | evidently intended | confidence | as-written member | corrected member |
|---|---|---|---|---|---|---|
| src/tutelRuntime.ts:230-232 | `checkBreakpoint` looks the path up exactly as given, while the store is keyed by normalised paths | on Windows, `setBreakPoint("C:/A.tut", 3)` stores the record under `c:\a.tut`, and `checkBreakpoint("C:/A.tut", 3)` returns false | normalise the path before the lookup, as `setBreakPoint`, `clearBreakpoint` and `clearAllBreakpoints` do, so that a breakpoint just set is found (Runtime.SetThenCheckNormalized) | medium; not executed | Runtime.CheckMissesUnnormalizedPath | Runtime.CheckBreakpointNormalized |
