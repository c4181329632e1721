/**
  The wire codec: turning one decoded inbound frame into a reply or an event.
  The reply guard is tried first; anything that is neither shape, and any
  frame that does not parse, becomes the default (empty) reply.
 */
module Codec {
  import opened Wrappers
  import opened Json
  import opened Types

  datatype Frame =
    | ReplyFrame(reply: Reply)
    | EventFrame(event: Event)
    | Raised   // the guard threw on `null`; the handler aborts

  /** `parseDebuggerResponse`, given the result of `JSON.parse` (`None` for a syntax error). */
  function Classify(parsed: Option<Json>): (f: Frame)
    ensures parsed.None? ==> f == ReplyFrame(DefaultReply)
    ensures f.Raised? <==> parsed == Some(JNull)
    ensures parsed.Some? && Has(parsed.value, "type") && Has(parsed.value, "body") ==>
      f == ReplyFrame(Reply(Get(parsed.value.members, "type").value, Get(parsed.value.members, "body").value))
    ensures f.EventFrame? <==>
      parsed.Some? && Has(parsed.value, "type") && !Has(parsed.value, "body") && Has(parsed.value, "description")
    ensures f.EventFrame? ==>
      f.event == Event(Get(parsed.value.members, "type").value, Get(parsed.value.members, "description").value)
    ensures (&& parsed.Some? && parsed.value != JNull
             && !(Has(parsed.value, "type") && Has(parsed.value, "body"))
             && !(Has(parsed.value, "type") && Has(parsed.value, "description")))
            ==> f == ReplyFrame(DefaultReply)
  {
    match parsed
    case None => ReplyFrame(DefaultReply)
    case Some(o) =>
      match ReplyIsOfType(o)
      case TypeError => Raised
      case Value(isReply) =>
        if isReply then
          ReplyFrame(Reply(Get(o.members, "type").value, Get(o.members, "body").value))
        else if EventIsOfType(o) == Value(true) then
          EventFrame(Event(Get(o.members, "type").value, Get(o.members, "description").value))
        else
          ReplyFrame(DefaultReply)
  }

  /** A frame with `type`, `body` and `description` passes both guards and is read as a reply. */
  lemma ReplyShapeWins(o: Json)
    requires Has(o, "type") && Has(o, "body") && Has(o, "description")
    ensures ReplyIsOfType(o) == Value(true) && EventIsOfType(o) == Value(true)
    ensures Classify(Some(o)).ReplyFrame?
  {
  }
}
