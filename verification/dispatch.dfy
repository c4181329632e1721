/**
  The command dispatcher: building one wire line from a command word and its
  arguments, and the one-step matcher that inspects the head of the reply
  queue on behalf of an awaiting operation.
 */
module Dispatch {
  import opened Wrappers
  import opened Text
  import opened Json
  import opened Types
  import opened Constants

  /** An argument of a command: a string or a number, rendered with `toString`. */
  datatype Arg = StrArg(s: string) | NumArg(n: int)

  function ArgText(a: Arg): string {
    match a
    case StrArg(s) => s
    case NumArg(n) => IntToString(n)
  }

  function Texts(args: seq<Arg>): (r: seq<string>)
    ensures |r| == |args|
    ensures forall i :: 0 <= i < |args| ==> r[i] == ArgText(args[i])
  {
    seq(|args|, i requires 0 <= i < |args| => ArgText(args[i]))
  }

  /** `_buildDebuggerRequest`: the command word then each argument, separated by one space. */
  function BuildRequest(command: string, args: seq<Arg>): (r: string)
    ensures |args| == 0 ==> r == command
    ensures |r| >= |command| && r[..|command|] == command
  {
    var r := Join([command] + Texts(args), RequestSeparator);
    JoinPrefix(command, Texts(args), RequestSeparator);
    r
  }

  lemma JoinPrefix(first: string, rest: seq<string>, sep: char)
    ensures var r := Join([first] + rest, sep); |r| >= |first| && r[..|first|] == first
  {
    if |rest| > 0 {
      assert ([first] + rest)[1..] == rest;
    }
  }

  /**
    One more argument appends a space and its text. With the empty case of
    the contract this fixes the line for every argument list, separators in
    the arguments included.
   */
  lemma BuildRequestAppend(command: string, args: seq<Arg>, a: Arg)
    ensures BuildRequest(command, args + [a]) == BuildRequest(command, args) + [RequestSeparator] + ArgText(a)
  {
    assert Texts(args + [a]) == Texts(args) + [ArgText(a)];
    assert [command] + Texts(args + [a]) == ([command] + Texts(args)) + [ArgText(a)];
    JoinSnoc([command] + Texts(args), ArgText(a), RequestSeparator);
  }

  /** No argument text can be mistaken for a separator unless a string argument carries one. */
  predicate SeparatorFree(command: string, args: seq<Arg>) {
    && RequestSeparator !in command
    && forall i :: 0 <= i < |args| && args[i].StrArg? ==> RequestSeparator !in args[i].s
  }

  /** A peer splitting the line on spaces recovers the command word and every argument's text. */
  lemma BuildRequestTokens(command: string, args: seq<Arg>)
    requires SeparatorFree(command, args)
    ensures Split(BuildRequest(command, args), RequestSeparator) == [command] + Texts(args)
  {
    var parts := [command] + Texts(args);
    forall i | 0 <= i < |parts|
      ensures RequestSeparator !in parts[i]
    {
      if i > 0 {
        var a := args[i - 1];
        assert parts[i] == ArgText(a);
        if a.NumArg? {
          var t := IntToString(a.n);
          assert forall k :: 0 <= k < |t| ==> t[k] != RequestSeparator;
        }
      }
    }
    SplitJoin(parts, RequestSeparator);
  }

  /** How an awaited reply is settled after one look at the queue. */
  datatype MatchOutcome =
    | Pending                          // queue empty: keep polling
    | Resolved(reply: Reply)           // head had the expected type
    | Rejected(reason: Option<Json>)   // bad request (peer's `msg`) or a reply of another type
    | Stuck                            // the callback threw; the promise never settles

  datatype Polled = Polled(outcome: MatchOutcome, queue: seq<Reply>)

  /** `queue.dequeue()`: drops the head, and does nothing on an empty queue. */
  function Dequeue(q: seq<Reply>): (r: seq<Reply>)
    ensures |q| > 0 ==> r == q[1..]
    ensures |q| == 0 ==> r == q
  {
    if |q| == 0 then q else q[1..]
  }

  /**
    One tick of the polling loop of `getDebuggerResponse`. The first settlement
    of the promise wins: after a bad request rejects it, the type test below
    still runs and dequeues a second time when the expected type is itself
    the bad-request token.
   */
  function Poll(queue: seq<Reply>, expected: string): (p: Polled)
    ensures p.outcome.Pending? <==> |queue| == 0
    ensures p.outcome.Pending? ==> p.queue == queue
    ensures |queue| > 0 && IsToken(queue[0].kind, RespBadRequest) && expected != RespBadRequest ==>
      && p.queue == queue[1..]
      && (p.outcome.Stuck? <==> queue[0].body.JNull?)
      && (!queue[0].body.JNull? ==> p.outcome == Rejected(Lookup(queue[0].body, "msg").v))
    ensures |queue| > 0 && !IsToken(queue[0].kind, RespBadRequest) && IsToken(queue[0].kind, expected) ==>
      p == Polled(Resolved(queue[0]), queue[1..])
    ensures |queue| > 0 && !IsToken(queue[0].kind, RespBadRequest) && !IsToken(queue[0].kind, expected) ==>
      p == Polled(Rejected(None), queue)
    ensures p.outcome.Resolved? ==> IsToken(p.outcome.reply.kind, expected)
    ensures |p.queue| <= |queue| && p.queue == queue[|queue| - |p.queue|..]
  {
    if |queue| == 0 then Polled(Pending, queue)
    else
      var head := queue[0];
      if IsToken(head.kind, RespBadRequest) then
        var rest := queue[1..];
        match Lookup(head.body, "msg")
        case TypeError => Polled(Stuck, rest)
        case Value(msg) =>
          var rest' := if IsToken(head.kind, expected) then Dequeue(rest) else rest;
          assert rest' == queue[|queue| - |rest'|..];
          Polled(Rejected(msg), rest')
      else if IsToken(head.kind, expected) then Polled(Resolved(head), queue[1..])
      else Polled(Rejected(None), queue)
  }

  /** Awaiting the bad-request token itself consumes two replies (the fall-through above). */
  lemma AwaitingBadRequestDropsTwo(queue: seq<Reply>)
    requires |queue| >= 2 && IsToken(queue[0].kind, RespBadRequest) && !queue[0].body.JNull?
    ensures Poll(queue, RespBadRequest) == Polled(Rejected(Lookup(queue[0].body, "msg").v), queue[2..])
  {
  }
}
