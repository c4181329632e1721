/**
  The records exchanged by the extension: turtle drawing state, requests read
  from the buffer file, and the two shapes of inbound debugger frames with
  their shape guards.
 */
module Types {
  import opened Wrappers
  import opened Json

  datatype Point = Point(x: real, y: real)

  datatype Color = Color(r: real, g: real, b: real)

  /**
    The fields shared by a turtle and a request body. A request body is stored
    as the turtle itself (the cast in ADD does no checking), so every field of
    a stored turtle may be missing.
   */
  datatype Attributes = Attributes(color: Option<Color>, position: Option<Point>, orientation: Option<real>)

  type Turtle = Attributes

  type RequestBody = Attributes

  /** A `new Turtle()`: black, at the origin, facing angle 0. */
  const DefaultTurtle: Turtle := Attributes(Some(Color(0.0, 0.0, 0.0)), Some(Point(0.0, 0.0)), Some(0.0))

  /** A turtle whose three fields are all present. */
  predicate Complete(t: Turtle) {
    t.color.Some? && t.position.Some? && t.orientation.Some?
  }

  /** One line of the buffer file, once decoded. */
  datatype WebviewRequest = WebviewRequest(methodName: string, id: int, body: Option<RequestBody>)

  /** A `new TutelWebviewRequest()`. */
  const DefaultRequest := WebviewRequest("", -1, None)

  /** A terminal answer to a command. */
  datatype Reply = Reply(kind: Json, body: Json)

  /** A spontaneous notification from the peer debugger. */
  datatype Event = Event(kind: Json, description: Json)

  /** A `new TutelDebuggerResponse()`: what an undecodable frame becomes. */
  const DefaultReply := Reply(JStr(""), JObj([]))

  /**
    The shape test both `isOfType` guards perform: `o.type` and `o[second]`
    are both defined. Reading `type` throws on `null`.
   */
  function IsOfType(o: Json, second: string): (r: Eval<bool>)
    ensures r.TypeError? <==> o.JNull?
    ensures r == Value(true) <==> Has(o, "type") && Has(o, second)
  {
    match Lookup(o, "type")
    case TypeError => TypeError
    case Value(t) => Value(t.Some? && Lookup(o, second).v.Some?)
  }

  /** `TutelDebuggerResponse.isOfType(o)`. */
  function ReplyIsOfType(o: Json): Eval<bool> {
    IsOfType(o, "body")
  }

  /** `TutelDebuggerEvent.isOfType(o)`. */
  function EventIsOfType(o: Json): Eval<bool> {
    IsOfType(o, "description")
  }

  /** An object carrying `type`, `body` and `description` passes both guards. */
  lemma BothShapes(o: Json)
    requires Has(o, "type") && Has(o, "body") && Has(o, "description")
    ensures ReplyIsOfType(o) == Value(true) && EventIsOfType(o) == Value(true)
  {
  }
}
