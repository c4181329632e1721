/**
  The drawing panel: the turtle state machine fed by requests read from the
  buffer file, and the watcher that reads only what was appended since the
  last successful read.
 */
module Panel {
  import opened Wrappers
  import opened Text
  import opened Types
  import opened Constants

  /** A line drawn on the canvas, as posted to the webview. */
  datatype Segment = Segment(p0: Option<Point>, p1: Option<Point>, color: Option<Color>)

  datatype Handled =
    | Handled(turtles: map<int, Turtle>, segment: Option<Segment>)
    | WrongTurtleId(id: int)

  /** `request.body?.field !== undefined ? request.body.field : current`. */
  function Override<T>(supplied: Option<T>, current: Option<T>): (r: Option<T>)
    ensures supplied.Some? ==> r == supplied
    ensures supplied.None? ==> r == current
  {
    if supplied.Some? then supplied else current
  }

  function BodyColor(req: WebviewRequest): Option<Color> {
    if req.body.Some? then req.body.value.color else None
  }

  function BodyPosition(req: WebviewRequest): Option<Point> {
    if req.body.Some? then req.body.value.position else None
  }

  function BodyOrientation(req: WebviewRequest): Option<real> {
    if req.body.Some? then req.body.value.orientation else None
  }

  /**
    `handleRequest`. ADD stores the body as the turtle (a missing body stores
    `undefined`, which every later lookup treats as no turtle); every other
    method first looks the turtle up and fails on an unknown id.
   */
  function HandleRequest(turtles: map<int, Turtle>, req: WebviewRequest): (r: Handled)
    ensures req.methodName == MethodAdd ==> r.Handled? && r.segment.None?
    ensures req.methodName == MethodAdd && req.body.Some? ==> r.turtles == turtles[req.id := req.body.value]
    ensures req.methodName == MethodAdd && req.body.None? ==> r.turtles == turtles - {req.id}
    ensures r.WrongTurtleId? <==> req.methodName != MethodAdd && req.id !in turtles
    ensures r.WrongTurtleId? ==> r.id == req.id
    ensures r.Handled? && req.methodName != MethodAdd ==>
      && r.turtles.Keys == turtles.Keys
      && forall k :: k in turtles && k != req.id ==> r.turtles[k] == turtles[k]
    ensures r.Handled? && req.methodName == MethodColor ==>
      var t := turtles[req.id];
      r.turtles[req.id] == t.(color := Override(BodyColor(req), t.color)) && r.segment.None?
    ensures r.Handled? && req.methodName == MethodPosition ==>
      var t := turtles[req.id];
      r.turtles[req.id] == t.(position := Override(BodyPosition(req), t.position)) && r.segment.None?
    ensures r.Handled? && req.methodName == MethodOrientation ==>
      var t := turtles[req.id];
      r.turtles[req.id] == t.(orientation := Override(BodyOrientation(req), t.orientation)) && r.segment.None?
    ensures r.Handled? && req.methodName == MethodGo ==>
      var t := turtles[req.id];
      var t' := r.turtles[req.id];
      && t' == t.(position := Override(BodyPosition(req), t.position))
      && r.segment == Some(Segment(t.position, t'.position, t.color))
    ensures r.Handled? && req.methodName !in {MethodAdd, MethodColor, MethodPosition, MethodOrientation, MethodGo} ==>
      r == Handled(turtles, None)
  {
    if req.methodName == MethodAdd then
      if req.body.Some? then Handled(turtles[req.id := req.body.value], None)
      else Handled(turtles - {req.id}, None)
    else if req.id !in turtles then WrongTurtleId(req.id)
    else
      var t := turtles[req.id];
      if req.methodName == MethodColor then
        Handled(turtles[req.id := t.(color := Override(BodyColor(req), t.color))], None)
      else if req.methodName == MethodPosition then
        Handled(turtles[req.id := t.(position := Override(BodyPosition(req), t.position))], None)
      else if req.methodName == MethodOrientation then
        Handled(turtles[req.id := t.(orientation := Override(BodyOrientation(req), t.orientation))], None)
      else if req.methodName == MethodGo then
        var moved := t.(position := Override(BodyPosition(req), t.position));
        Handled(turtles[req.id := moved], Some(Segment(t.position, moved.position, t.color)))
      else Handled(turtles, None)
  }

  /** A request that cannot leave a stored turtle with a missing field. */
  predicate KeepsComplete(req: WebviewRequest) {
    req.methodName == MethodAdd ==> req.body.Some? && Complete(req.body.value)
  }

  /**
    Turtles that start complete, like the default turtle, stay complete, and
    every segment they draw has both endpoints and a colour.
   */
  lemma CompleteTurtlesDrawCompleteSegments(turtles: map<int, Turtle>, req: WebviewRequest)
    requires forall k :: k in turtles ==> Complete(turtles[k])
    requires KeepsComplete(req)
    ensures var r := HandleRequest(turtles, req);
      r.Handled? ==>
        && (forall k :: k in r.turtles ==> Complete(r.turtles[k]))
        && (r.segment.Some? ==> r.segment.value.p0.Some? && r.segment.value.p1.Some? && r.segment.value.color.Some?)
  {
  }

  /**
    A default turtle added under `id` is complete, and its first GO draws a
    black segment from the origin to the target.
   */
  lemma AddDefaultThenGo(turtles: map<int, Turtle>, id: int, target: Point)
    ensures Complete(DefaultTurtle) && KeepsComplete(WebviewRequest(MethodAdd, id, Some(DefaultTurtle)))
    ensures var added := HandleRequest(turtles, WebviewRequest(MethodAdd, id, Some(DefaultTurtle)));
      && added == Handled(turtles[id := DefaultTurtle], None)
      && HandleRequest(added.turtles, WebviewRequest(MethodGo, id, Some(Attributes(None, Some(target), None)))) ==
           Handled(turtles[id := DefaultTurtle.(position := Some(target))],
                   Some(Segment(Some(Point(0.0, 0.0)), Some(target), Some(Color(0.0, 0.0, 0.0)))))
  {
  }

  /** The default request (method "", id -1) draws nothing and changes nothing, or fails on the unknown id. */
  lemma DefaultRequestIsInert(turtles: map<int, Turtle>)
    ensures HandleRequest(turtles, DefaultRequest) ==
      if -1 in turtles then Handled(turtles, None) else WrongTurtleId(-1)
  {
  }

  /** The number of GO requests in a batch. */
  function CountGo(reqs: seq<WebviewRequest>): (n: nat)
    ensures n <= |reqs|
    ensures n == 0 <==> forall i :: 0 <= i < |reqs| ==> reqs[i].methodName != MethodGo
    ensures n == |reqs| <==> forall i :: 0 <= i < |reqs| ==> reqs[i].methodName == MethodGo
    decreases |reqs|
  {
    if |reqs| == 0 then 0 else (if reqs[0].methodName == MethodGo then 1 else 0) + CountGo(reqs[1..])
  }

  datatype Processed = Processed(turtles: map<int, Turtle>, segments: seq<Segment>, failed: bool)

  /**
    `processWebviewRequests`: requests are handled in order; the first
    unknown id throws, leaving the effects of the requests before it in place.
   */
  function Process(turtles: map<int, Turtle>, reqs: seq<WebviewRequest>): Processed
    decreases |reqs|
  {
    if |reqs| == 0 then Processed(turtles, [], false)
    else
      match HandleRequest(turtles, reqs[0])
      case WrongTurtleId(_) => Processed(turtles, [], true)
      case Handled(t, seg) =>
        var rest := Process(t, reqs[1..]);
        Processed(rest.turtles, (if seg.Some? then [seg.value] else []) + rest.segments, rest.failed)
  }

  /**
    A batch that goes through draws one segment per GO request; a batch that
    fails contains a request other than ADD (only those look the turtle up).
   */
  lemma {:induction false} ProcessOutcome(turtles: map<int, Turtle>, reqs: seq<WebviewRequest>)
    ensures !Process(turtles, reqs).failed ==> |Process(turtles, reqs).segments| == CountGo(reqs)
    ensures Process(turtles, reqs).failed ==> exists i :: 0 <= i < |reqs| && reqs[i].methodName != MethodAdd
    decreases |reqs|
  {
    if |reqs| > 0 {
      var h := HandleRequest(turtles, reqs[0]);
      if h.Handled? {
        ProcessOutcome(h.turtles, reqs[1..]);
        if Process(h.turtles, reqs[1..]).failed {
          var i :| 0 <= i < |reqs[1..]| && reqs[1..][i].methodName != MethodAdd;
          assert reqs[i + 1] == reqs[1..][i];
        }
      }
    }
  }

  /** One step of `Process`: the first request is handled, then the rest unless it failed. */
  lemma ProcessStep(turtles: map<int, Turtle>, reqs: seq<WebviewRequest>)
    requires |reqs| > 0
    ensures var h := HandleRequest(turtles, reqs[0]);
      Process(turtles, reqs) ==
        if h.WrongTurtleId? then Processed(turtles, [], true)
        else
          var rest := Process(h.turtles, reqs[1..]);
          Processed(rest.turtles, (if h.segment.Some? then [h.segment.value] else []) + rest.segments, rest.failed)
  {
  }

  /** Processing two batches one after the other is processing their concatenation. */
  lemma {:induction false} ProcessAppend(turtles: map<int, Turtle>, a: seq<WebviewRequest>, b: seq<WebviewRequest>)
    ensures var ra := Process(turtles, a);
      Process(turtles, a + b) ==
        if ra.failed then ra
        else
          var rb := Process(ra.turtles, b);
          Processed(rb.turtles, ra.segments + rb.segments, rb.failed)
    decreases |a|
  {
    if |a| == 0 {
      assert a + b == b;
    } else {
      assert (a + b)[0] == a[0];
      assert (a + b)[1..] == a[1..] + b;
      ProcessStep(turtles, a);
      ProcessStep(turtles, a + b);
      var h := HandleRequest(turtles, a[0]);
      if h.Handled? {
        ProcessAppend(h.turtles, a[1..], b);
        var ra := Process(h.turtles, a[1..]);
        var front := if h.segment.Some? then [h.segment.value] else [];
        if !ra.failed {
          var rb := Process(ra.turtles, b);
          assert front + (ra.segments + rb.segments) == (front + ra.segments) + rb.segments;
        }
      }
    }
  }

  /** `deserializeWebviewRequests`: the lines that parse, in order; `parse` stands for `JSON.parse`. */
  function Deserialize(parse: string -> Option<WebviewRequest>, lines: seq<string>): (r: seq<WebviewRequest>)
    ensures |r| <= |lines|
    decreases |lines|
  {
    if |lines| == 0 then []
    else
      var rest := Deserialize(parse, lines[1..]);
      match parse(lines[0])
      case Some(req) => [req] + rest
      case None => rest
  }

  /**
    The requests deserialised are exactly the parses of the lines that parse,
    and none is lost exactly when every line parses.
   */
  lemma {:induction false} DeserializeParsed(parse: string -> Option<WebviewRequest>, lines: seq<string>)
    ensures forall x :: x in Deserialize(parse, lines) <==> exists i :: 0 <= i < |lines| && parse(lines[i]) == Some(x)
    ensures |Deserialize(parse, lines)| == |lines| <==> forall i :: 0 <= i < |lines| ==> parse(lines[i]).Some?
    decreases |lines|
  {
    if |lines| > 0 {
      DeserializeParsed(parse, lines[1..]);
      assert forall i :: 0 < i < |lines| ==> lines[i] == lines[1..][i - 1];
      assert forall i :: 0 <= i < |lines| - 1 ==> lines[1..][i] == lines[i + 1];
    }
  }

  /** Deserialising is a homomorphism: order is kept across any split of the lines. */
  lemma {:induction false} DeserializeAppend(parse: string -> Option<WebviewRequest>, a: seq<string>, b: seq<string>)
    ensures Deserialize(parse, a + b) == Deserialize(parse, a) + Deserialize(parse, b)
    decreases |a|
  {
    if |a| == 0 {
      assert a + b == b;
    } else {
      assert (a + b)[0] == a[0];
      assert (a + b)[1..] == a[1..] + b;
      DeserializeAppend(parse, a[1..], b);
    }
  }

  /** The panel's drawing state and the watcher's record of what it has already read. */
  datatype PanelState = PanelState(turtles: map<int, Turtle>, seen: string)

  /** `createOrShow` on an existing panel: the turtles are dropped and a fresh watcher starts from nothing read. */
  function Reshow(p: PanelState): (r: PanelState)
    ensures r.turtles == map[] && r.seen == ""
  {
    PanelState(map[], "")
  }

  /** `data.substring(previousData.length)`, clamped like `substring`. */
  function NewData(seen: string, data: string): (r: string)
    ensures |seen| <= |data| ==> data[..|seen|] + r == data
    ensures seen <= data ==> seen + r == data
    ensures |seen| > |data| ==> r == ""
  {
    if |seen| <= |data| then data[|seen|..] else ""
  }

  /** The requests the watcher takes from a change of the file to `data`. */
  function Pending(parse: string -> Option<WebviewRequest>, seen: string, data: string): seq<WebviewRequest> {
    Deserialize(parse, Split(NewData(seen, data), '\n'))
  }

  datatype Changed = Changed(panel: PanelState, segments: seq<Segment>)

  /**
    The watcher's `change` handler; `read` is the file's content, or `None`
    when reading failed. Only the text beyond what was seen is split into
    lines and processed; the seen text advances to the whole content unless
    processing threw, in which case the same suffix is processed again on
    the next change.
   */
  function OnChange(p: PanelState, read: Option<string>, parse: string -> Option<WebviewRequest>): (r: Changed)
    ensures read.None? ==> r == Changed(p, [])
    ensures read.Some? && NewData(p.seen, read.value) == "" ==>
      r == Changed(PanelState(p.turtles, read.value), [])
    ensures read.Some? && NewData(p.seen, read.value) != "" ==>
      var pr := Process(p.turtles, Pending(parse, p.seen, read.value));
      && r.panel.turtles == pr.turtles
      && r.segments == pr.segments
      && (r.panel.seen == read.value <==> !pr.failed || p.seen == read.value)
      && (pr.failed ==> r.panel.seen == p.seen)
  {
    if read.None? then Changed(p, [])
    else
      var data := read.value;
      var newData := NewData(p.seen, data);
      if |newData| == 0 then Changed(PanelState(p.turtles, data), [])
      else
        var pr := Process(p.turtles, Deserialize(parse, Split(newData, '\n')));
        Changed(PanelState(pr.turtles, if pr.failed then p.seen else data), pr.segments)
  }

  /** After a re-show, the next change processes the buffer file from its first line. */
  lemma ReshowRereadsWholeFile(p: PanelState, data: string, parse: string -> Option<WebviewRequest>)
    requires data != ""
    ensures var r := OnChange(Reshow(p), Some(data), parse);
      var pr := Process(map[], Deserialize(parse, Split(data, '\n')));
      r.panel.turtles == pr.turtles && r.segments == pr.segments
  {
    assert NewData("", data) == data;
  }

  /**
    How the requests of a file written in two steps divide: when the first
    write ends a line, what the first change reads and what the second change
    reads together are exactly what one change over the whole file reads.
   */
  lemma PendingSplits(parse: string -> Option<WebviewRequest>, first: string, more: string)
    requires parse("").None?
    requires |first| > 0 && first[|first| - 1] == '\n'
    ensures Pending(parse, "", first + more) == Pending(parse, "", first) + Pending(parse, first, first + more)
  {
    var a := first[..|first| - 1];
    var linesA := Split(a, '\n');
    var linesMore := Split(more, '\n');
    assert Deserialize(parse, [""]) == [];
    assert first == a + ['\n'] + "";
    SplitAround(a, "", '\n');
    DeserializeAppend(parse, linesA, [""]);
    assert Pending(parse, "", first) == Deserialize(parse, linesA) by {
      assert NewData("", first) == first;
    }
    assert Pending(parse, first, first + more) == Deserialize(parse, linesMore) by {
      assert NewData(first, first + more) == more;
    }
    assert first + more == a + ['\n'] + more;
    SplitAround(a, more, '\n');
    DeserializeAppend(parse, linesA, linesMore);
    assert NewData("", first + more) == first + more;
  }

  /**
    The incremental-consumer property: when writes end at line boundaries and
    no processing fails, reading the file change by change draws the same
    segments and leaves the same turtles as reading the final content at once.
    An empty line never parses (`JSON.parse("")` throws).
   */
  lemma TailingMatchesWholeFile(
    turtles: map<int, Turtle>, first: string, more: string, parse: string -> Option<WebviewRequest>)
    requires parse("").None?
    requires |first| > 0 && first[|first| - 1] == '\n'
    requires !Process(turtles, Pending(parse, "", first)).failed
    requires !Process(Process(turtles, Pending(parse, "", first)).turtles, Pending(parse, first, first + more)).failed
    ensures var step1 := OnChange(PanelState(turtles, ""), Some(first), parse);
      var step2 := OnChange(step1.panel, Some(first + more), parse);
      var whole := OnChange(PanelState(turtles, ""), Some(first + more), parse);
      && whole.panel == step2.panel
      && whole.segments == step1.segments + step2.segments
  {
    PendingSplits(parse, first, more);
    var reqsA := Pending(parse, "", first);
    var reqsMore := Pending(parse, first, first + more);
    ProcessAppend(turtles, reqsA, reqsMore);
    assert NewData("", first) == first;
    assert NewData("", first + more) == first + more;
    if more == "" {
      assert NewData(first, first + more) == "";
      assert Split("", '\n') == [""];
      assert reqsMore == [];
    }
  }

  /**
    A request line written in two halves is lost: the first half does not
    parse and is dropped, yet the seen text advances past it, so the second
    change reads only the tail, which does not parse either. Reading the
    whole file at once would have added the turtle.
   */
  lemma SplitLineIsLost()
    ensures var add := WebviewRequest(MethodAdd, 0, Some(DefaultTurtle));
      var parse := (s: string) => if s == "{}" then Some(add) else None;
      var step1 := OnChange(PanelState(map[], ""), Some("{"), parse);
      var step2 := OnChange(step1.panel, Some("{}"), parse);
      var whole := OnChange(PanelState(map[], ""), Some("{}"), parse);
      && step2.panel == PanelState(map[], "{}")
      && whole.panel == PanelState(map[0 := DefaultTurtle], "{}")
  {
  }
}
