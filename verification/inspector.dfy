/**
  The frame inspector: the stack window and the local-variable listing built
  from the replies to STACK and FRAME. Both catch every error of the reply's
  processing and return what they had collected so far.
 */
module Inspector {
  import opened Wrappers
  import opened Text
  import opened Json
  import opened Dispatch
  import Runtime

  datatype StackFrame = StackFrame(index: int, name: Option<Json>, file: string, line: Option<Json>)

  function Min(a: int, b: int): int {
    if a < b then a else b
  }

  function Max(a: int, b: int): int {
    if a < b then b else a
  }

  /** `body["stack"]` when the body is an object that has it. */
  function StackMember(body: Json): Option<Json> {
    if body.JObj? then Get(body.members, "stack") else None
  }

  /**
    What indexing `body["stack"]` reaches: an array's elements, a string's
    one-character strings, and nothing for any other value (reading `length`
    throws on null or a missing member, and is undefined on numbers,
    booleans and objects, so the loop does not run).
   */
  function StackItems(body: Json): (items: seq<Json>)
    ensures StackMember(body).Some? && StackMember(body).value.JArr? ==> items == StackMember(body).value.items
    ensures StackMember(body).Some? && StackMember(body).value.JStr? ==>
      var s := StackMember(body).value.s;
      |items| == |s| && forall i :: 0 <= i < |s| ==> items[i] == JStr([s[i]])
    ensures !(StackMember(body).Some? && (StackMember(body).value.JArr? || StackMember(body).value.JStr?)) ==>
      items == []
  {
    match Lookup(body, "stack")
    case TypeError => []
    case Value(v) =>
      match v
      case Some(JArr(xs)) => xs
      case Some(JStr(s)) => seq(|s|, i requires 0 <= i < |s| => JStr([s[i]]))
      case _ => []
  }

  /** Frame `i` of the window can be read: it exists and is not null. */
  predicate Readable(items: seq<Json>, i: int) {
    0 <= i < |items| && items[i] != JNull
  }

  function FrameAt(items: seq<Json>, i: int, file: string): StackFrame
    requires Readable(items, i)
  {
    StackFrame(i, Lookup(items[i], "name").v, file, Lookup(items[i], "lineno").v)
  }

  /**
    The loop of `stack(startFrame, endFrame)`: frames `startFrame` up to
    `min(endFrame, length) - 1`, each with its index, name and line. Reading a
    frame that is missing or null throws, and the frames pushed before it are
    what the operation returns.
   */
  method StackWindow(items: seq<Json>, startFrame: int, endFrame: int, file: string)
    returns (frames: seq<StackFrame>, count: int)
    ensures count == |frames|
    ensures forall j :: 0 <= j < |frames| ==> frames[j].file == file
    ensures |frames| <= Max(0, Min(endFrame, |items|) - startFrame)
    ensures forall j :: startFrame <= j < startFrame + |frames| ==>
      Readable(items, j) && frames[j - startFrame] == FrameAt(items, j, file)
    ensures (forall i :: startFrame <= i < Min(endFrame, |items|) ==> Readable(items, i)) ==>
      |frames| == Max(0, Min(endFrame, |items|) - startFrame)
    ensures startFrame + |frames| < Min(endFrame, |items|) ==> !Readable(items, startFrame + |frames|)
  {
    frames := [];
    var limit := Min(endFrame, |items|);
    var i := startFrame;
    while i < limit
      invariant startFrame <= i
      invariant i <= Max(limit, startFrame)
      invariant |frames| == i - startFrame
      invariant forall j :: 0 <= j < |frames| ==> frames[j].file == file
      invariant forall j :: startFrame <= j < i ==>
        Readable(items, j) && frames[j - startFrame] == FrameAt(items, j, file)
    {
      if !Readable(items, i) {
        break;
      }
      var frame := FrameAt(items, i, file);
      frames := frames + [frame];
      i := i + 1;
    }
    count := |frames|;
  }

  /**
    `stack` after its await: a resolved reply is windowed, a rejected one
    yields no frames. Every frame names the bridge's source file, the program
    as `prepare` recorded it.
   */
  method Stack(b: Runtime.Bridge, outcome: MatchOutcome, startFrame: int, endFrame: int)
    returns (frames: seq<StackFrame>, count: int)
    requires outcome.Resolved? || outcome.Rejected?
    ensures count == |frames|
    ensures forall j :: 0 <= j < |frames| ==> frames[j].file == b.sourceFile
    ensures outcome.Rejected? ==> frames == []
    ensures outcome.Resolved? ==> forall j :: startFrame <= j < startFrame + |frames| ==>
      Readable(StackItems(outcome.reply.body), j) &&
      frames[j - startFrame] == FrameAt(StackItems(outcome.reply.body), j, b.sourceFile)
    ensures outcome.Resolved? ==>
      var items := StackItems(outcome.reply.body);
      && |frames| <= Max(0, Min(endFrame, |items|) - startFrame)
      && (startFrame + |frames| < Min(endFrame, |items|) ==> !Readable(items, startFrame + |frames|))
  {
    if outcome.Resolved? {
      var items := StackItems(outcome.reply.body);
      frames, count := StackWindow(items, startFrame, endFrame, b.sourceFile);
    } else {
      frames, count := [], 0;
    }
  }

  datatype Variable = Variable(name: string, value: string)

  /**
    `Object.entries` of a decoded value: an object's members, an array's or
    a string's index/element pairs, nothing for numbers and booleans, and a
    throw (`None`) for null.
   */
  function Entries(v: Json): (r: Option<seq<Member>>)
    ensures r.None? <==> v.JNull?
    ensures v.JObj? ==> r == Some(v.members)
    ensures v.JArr? ==>
      && r.Some? && |r.value| == |v.items|
      && forall i :: 0 <= i < |v.items| ==> r.value[i] == Member(NatToString(i), v.items[i])
    ensures v.JStr? ==>
      && r.Some? && |r.value| == |v.s|
      && forall i :: 0 <= i < |v.s| ==> r.value[i] == Member(NatToString(i), JStr([v.s[i]]))
    ensures v.JNum? || v.JBool? ==> r == Some([])
  {
    match v
    case JNull => None
    case JObj(ms) => Some(ms)
    case JArr(xs) => Some(seq(|xs|, i requires 0 <= i < |xs| => Member(NatToString(i), xs[i])))
    case JStr(s) => Some(seq(|s|, i requires 0 <= i < |s| => Member(NatToString(i), JStr([s[i]]))))
    case _ => Some([])
  }

  /** The member `key` of an object, and nothing for any other value. */
  function Field(v: Json, key: string): Option<Json> {
    if v.JObj? then Get(v.members, key) else None
  }

  /**
    The entries of `body["frame"].locals`. Reading `locals` of a missing or
    null frame, and taking the entries of missing or null locals, throw, and
    the caught throw leaves no entries.
   */
  function LocalEntries(body: Json): (r: seq<Member>)
    ensures Field(body, "frame").Some? && Field(Field(body, "frame").value, "locals").Some? ==>
      r == Entries(Field(Field(body, "frame").value, "locals").value).GetOr([])
    ensures Field(body, "frame").None? || Field(Field(body, "frame").value, "locals").None? ==> r == []
  {
    match Lookup(body, "frame")
    case TypeError => []
    case Value(frame) =>
      if frame.None? then []
      else match Lookup(frame.value, "locals")
        case TypeError => []
        case Value(locals) =>
          if locals.None? then [] else Entries(locals.value).GetOr([])
  }

  /**
    The listing of `getLocalVariables`: one variable per entry, in order,
    whose value is the rendering of a truthy value and empty text for a
    falsy one (null, false, 0, ""). `render` stands for `JSON.stringify`.
   */
  method RenderLocals(entries: seq<Member>, render: Json -> string) returns (vars: seq<Variable>)
    ensures |vars| == |entries|
    ensures forall i :: 0 <= i < |entries| ==> vars[i].name == entries[i].key
    ensures forall i :: 0 <= i < |entries| && !Truthy(entries[i].value) ==> vars[i].value == ""
    ensures forall i :: 0 <= i < |entries| && Truthy(entries[i].value) ==> vars[i].value == render(entries[i].value)
  {
    vars := [];
    var i := 0;
    while i < |entries|
      invariant 0 <= i <= |entries|
      invariant |vars| == i
      invariant forall k :: 0 <= k < i ==> vars[k].name == entries[k].key
      invariant forall k :: 0 <= k < i ==>
        vars[k].value == (if Truthy(entries[k].value) then render(entries[k].value) else "")
    {
      var value := entries[i].value;
      vars := vars + [Variable(entries[i].key, if Truthy(value) then render(value) else "")];
      i := i + 1;
    }
  }
}
