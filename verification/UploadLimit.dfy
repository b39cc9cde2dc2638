/**
 The body limiter in front of the project attachment upload: it counts the chunks the inner application receives,
 trips on overflow or timeout, suppresses the application's output from then on and answers in its place.

 The inner application is adversarial: it may receive and send in any order, catch what `receive` raises and call it
 again.  A run is the sequence of its calls together with what the server had to offer at each receive.
 */
module UploadLimit {
  import opened Options

  newtype Byte = x: int | 0 <= x < 256

  /** An ASGI message from the server. */
  datatype Message = Request(body: seq<Byte>, moreBody: bool) | Disconnect

  /** What reaches the client. */
  datatype Output = FromApp(message: nat) | Rejection(status: nat)

  /** When the server's next message is there, counted from the call to receive. */
  datatype Arrival = Arrives(after: real, message: Message) | Never

  datatype Config = Config(maxBody: nat, idleTimeout: real, totalTimeout: real)

  /** One call of the inner application; `elapsed` is the time since the request began. */
  datatype Event = Receive(elapsed: real, arrival: Arrival) | Send(message: nat)

  datatype Received = Delivered(message: Message) | RaisedTooLarge | RaisedTimeout | Blocked

  /** How the inner application ends. */
  datatype End = Returns | LetsTooLargeThrough | LetsTimeoutThrough | RaisesOther

  datatype Counter = Counter(received: nat, overflowed: bool, timedOut: bool, bodyComplete: bool)

  const FRESH := Counter(0, false, false, false)

  predicate Tripped(s: Counter) {
    s.overflowed || s.timedOut
  }

  function Min(a: real, b: real): real {
    if a <= b then a else b
  }

  /** A receive before the body is complete is in time when the message is there within both timeouts. */
  predicate InTime(c: Config, elapsed: real, arrival: Arrival) {
    arrival.Arrives? && elapsed < c.totalTimeout && arrival.after < Min(c.idleTimeout, c.totalTimeout - elapsed)
  }

  function Count(s: Counter, m: Message): nat {
    if m.Request? then s.received + |m.body| else s.received
  }

  function ReceiveResult(c: Config, s: Counter, elapsed: real, arrival: Arrival): Received {
    if s.bodyComplete then (if arrival.Arrives? then Delivered(arrival.message) else Blocked)
    else if !InTime(c, elapsed, arrival) then RaisedTimeout
    else if arrival.message.Request? && Count(s, arrival.message) > c.maxBody then RaisedTooLarge
    else Delivered(arrival.message)
  }

  function AfterReceive(c: Config, s: Counter, elapsed: real, arrival: Arrival): Counter {
    if s.bodyComplete then s
    else if !InTime(c, elapsed, arrival) then s.(timedOut := true)
    else
      var n := Count(s, arrival.message);
      if arrival.message.Request? && n > c.maxBody then s.(received := n, overflowed := true)
      else s.(received := n, bodyComplete := arrival.message.Request? && !arrival.message.moreBody)
  }

  /** The closures of one bounded call, with their shared variables as fields. */
  class BoundedCall {
    const config: Config
    var received: nat
    var overflowed: bool
    var timedOut: bool
    var bodyComplete: bool
    var client: seq<Output>

    function Now(): Counter
      reads this
    {
      Counter(received, overflowed, timedOut, bodyComplete)
    }

    constructor (config: Config)
      ensures this.config == config && Now() == FRESH && client == []
    {
      this.config := config;
      received, overflowed, timedOut, bodyComplete, client := 0, false, false, false, [];
    }

    method ReceiveLimited(elapsed: real, arrival: Arrival) returns (r: Received)
      modifies this
      ensures r == ReceiveResult(config, old(Now()), elapsed, arrival)
      ensures Now() == AfterReceive(config, old(Now()), elapsed, arrival) && client == old(client)
    {
      if bodyComplete {
        return if arrival.Arrives? then Delivered(arrival.message) else Blocked;
      }
      var remainingTotal := config.totalTimeout - elapsed;
      if remainingTotal <= 0.0 {
        timedOut := true;
        return RaisedTimeout;
      }
      var timeout := Min(config.idleTimeout, remainingTotal);
      if arrival.Never? || arrival.after >= timeout {
        timedOut := true;
        return RaisedTimeout;
      }
      var message := arrival.message;
      if message.Request? {
        received := received + |message.body|;
        if received > config.maxBody {
          overflowed := true;
          return RaisedTooLarge;
        }
        if !message.moreBody { bodyComplete := true; }
      }
      return Delivered(message);
    }

    method SendLimited(message: nat)
      modifies this`client
      ensures client == old(client) + (if Tripped(Now()) then [] else [FromApp(message)])
    {
      if !overflowed && !timedOut { client := client + [FromApp(message)]; }
    }

    /** What follows the inner application: True means its exception goes on to the caller. */
    method Finish(end: End) returns (raised: bool)
      modifies this
      ensures raised == end.RaisesOther?
      ensures client == old(client) + Response(old(Now()), end)
    {
      if end.RaisesOther? { return true; }
      if end.LetsTooLargeThrough? { overflowed := true; }
      if end.LetsTimeoutThrough? { timedOut := true; }
      if overflowed { client := client + [Rejection(413)]; }
      else if timedOut { client := client + [Rejection(408)]; }
      return false;
    }
  }

  function Response(s: Counter, end: End): seq<Output> {
    if end.RaisesOther? then []
    else if s.overflowed || end.LetsTooLargeThrough? then [Rejection(413)]
    else if s.timedOut || end.LetsTimeoutThrough? then [Rejection(408)]
    else []
  }

  // ---------------------------------------------------------------- runs

  datatype Run = Run(
    counter: Counter,
    taken: seq<Message>,       // taken from the server, in order
    delivered: seq<Message>,   // handed to the inner application
    client: seq<Output>
  )

  function Step(c: Config, r: Run, e: Event): Run {
    match e
    case Receive(elapsed, arrival) =>
      var result := ReceiveResult(c, r.counter, elapsed, arrival);
      Run(AfterReceive(c, r.counter, elapsed, arrival),
          if arrival.Arrives? && !result.RaisedTimeout? then r.taken + [arrival.message] else r.taken,
          if result.Delivered? then r.delivered + [result.message] else r.delivered,
          r.client)
    case Send(message) => r.(client := r.client + if Tripped(r.counter) then [] else [FromApp(message)])
  }

  function Exec(c: Config, events: seq<Event>): Run {
    if events == [] then Run(FRESH, [], [], [])
    else Step(c, Exec(c, events[..|events| - 1]), events[|events| - 1])
  }

  /**
   The whole of `__call__` for an upload: a declared length over the limit is answered without receiving or calling
   the application; otherwise the application's calls go through the closures, and `Finish` has the last word.
   */
  method HandleUpload(c: Config, declared: Option<nat>, events: seq<Event>, end: End)
    returns (client: seq<Output>, delivered: seq<Message>)
    ensures declared.Some? && declared.value > c.maxBody ==> client == [Rejection(413)] && delivered == []
    ensures declared.None? || declared.value <= c.maxBody ==>
              var r := Exec(c, events);
              client == r.client + Response(r.counter, end) && delivered == r.delivered
  {
    if declared.Some? && declared.value > c.maxBody { return [Rejection(413)], []; }
    var call := new BoundedCall(c);
    delivered := [];
    for i := 0 to |events|
      invariant call.config == c && fresh(call)
      invariant call.Now() == Exec(c, events[..i]).counter && call.client == Exec(c, events[..i]).client
      invariant delivered == Exec(c, events[..i]).delivered
    {
      assert events[..i + 1][..|events[..i + 1]| - 1] == events[..i];
      match events[i] {
        case Receive(elapsed, arrival) =>
          var r := call.ReceiveLimited(elapsed, arrival);
          if r.Delivered? { delivered := delivered + [r.message]; }
        case Send(message) =>
          call.SendLimited(message);
      }
    }
    assert events[..|events|] == events;
    var _ := call.Finish(end);
    client := call.client;
  }

  function BodyBytes(ms: seq<Message>): nat {
    if ms == [] then 0
    else BodyBytes(ms[..|ms| - 1]) + if ms[|ms| - 1].Request? then |ms[|ms| - 1].body| else 0
  }

  predicate IsFinal(m: Message) {
    m.Request? && !m.moreBody
  }

  predicate FinalSeen(ms: seq<Message>) {
    ms != [] && (IsFinal(ms[|ms| - 1]) || FinalSeen(ms[..|ms| - 1]))
  }

  /** The server sends no body message after the final one. */
  predicate FollowsAsgi(ms: seq<Message>) {
    ms != [] ==>
      FollowsAsgi(ms[..|ms| - 1]) && (FinalSeen(ms[..|ms| - 1]) ==> !ms[|ms| - 1].Request?)
  }

  /** How the recursive readings of a message sequence grow by one message. */
  lemma Appended(ms: seq<Message>, m: Message)
    ensures BodyBytes(ms + [m]) == BodyBytes(ms) + if m.Request? then |m.body| else 0
    ensures FinalSeen(ms + [m]) <==> IsFinal(m) || FinalSeen(ms)
    ensures FollowsAsgi(ms + [m]) <==> FollowsAsgi(ms) && (FinalSeen(ms) ==> !m.Request?)
  {
    assert (ms + [m])[..|ms|] == ms;
  }

  /** The books of a run whose server follows ASGI. */
  predicate Balanced(c: Config, r: Run) {
    && r.counter.received == BodyBytes(r.taken)
    && BodyBytes(r.delivered) <= c.maxBody
    && (r.counter.overflowed <==> r.counter.received > c.maxBody)
    && (!r.counter.overflowed ==> r.delivered == r.taken)
    && (if r.counter.overflowed then !r.counter.bodyComplete else r.counter.bodyComplete <==> FinalSeen(r.taken))
  }

  /** A message that arrives in time while the body is incomplete is counted, and may trip the limit. */
  lemma CountBalanced(c: Config, r: Run, e: Event)
    requires Balanced(c, r) && e.Receive? && !r.counter.bodyComplete && InTime(c, e.elapsed, e.arrival)
    ensures Balanced(c, Step(c, r, e))
  {
    var m := e.arrival.message;
    Appended(r.taken, m);
    Appended(r.delivered, m);
    var t := Step(c, r, e);
    assert t.taken == r.taken + [m];
    assert t.counter.received == Count(r.counter, m) == BodyBytes(t.taken);
  }

  /** After the final body message only a disconnect can arrive, and it is handed on uncounted. */
  lemma LateBalanced(c: Config, r: Run, e: Event)
    requires Balanced(c, r) && e.Receive? && r.counter.bodyComplete && e.arrival.Arrives?
    requires FollowsAsgi(Step(c, r, e).taken)
    ensures Balanced(c, Step(c, r, e))
  {
    var m := e.arrival.message;
    Appended(r.taken, m);
    Appended(r.delivered, m);
    assert Step(c, r, e).taken == r.taken + [m];
    assert !m.Request?;
  }

  lemma StepBalanced(c: Config, r: Run, e: Event)
    requires Balanced(c, r) && FollowsAsgi(Step(c, r, e).taken)
    ensures Balanced(c, Step(c, r, e))
  {
    if e.Receive? && e.arrival.Arrives? {
      if r.counter.bodyComplete {
        LateBalanced(c, r, e);
      } else if InTime(c, e.elapsed, e.arrival) {
        CountBalanced(c, r, e);
      }
    }
  }

  lemma {:induction false} RunBalanced(c: Config, events: seq<Event>)
    requires FollowsAsgi(Exec(c, events).taken)
    ensures Balanced(c, Exec(c, events))
  {
    if events != [] {
      var before := Exec(c, events[..|events| - 1]);
      var e := events[|events| - 1];
      if e.Receive? && e.arrival.Arrives? { Appended(before.taken, e.arrival.message); }
      RunBalanced(c, events[..|events| - 1]);
      StepBalanced(c, before, e);
    }
  }

  /** Whatever the application does, it is never handed more than the limit. */
  lemma BytesBounded(c: Config, events: seq<Event>)
    requires FollowsAsgi(Exec(c, events).taken)
    ensures BodyBytes(Exec(c, events).delivered) <= c.maxBody
  {
    RunBalanced(c, events);
  }

  lemma {:induction false} TrippedStays(c: Config, before: seq<Event>, after: seq<Event>)
    requires Tripped(Exec(c, before).counter)
    ensures Tripped(Exec(c, before + after).counter)
    ensures Exec(c, before + after).client == Exec(c, before).client
  {
    if after == [] {
      assert before + after == before;
    } else {
      TrippedStays(c, before, after[..|after| - 1]);
      assert (before + after)[..|before + after| - 1] == before + after[..|after| - 1];
    }
  }

  /**
   An application can let through only an exception that `receive` raised, so the flag is up already.  After a trip
   the client gets nothing more from the application, and exactly one answer: 413 on overflow, otherwise 408.
   */
  lemma TrippedAnswers(c: Config, before: seq<Event>, after: seq<Event>, end: End)
    requires Tripped(Exec(c, before).counter) && !end.RaisesOther?
    requires end.LetsTooLargeThrough? ==> Exec(c, before + after).counter.overflowed
    ensures var r := Exec(c, before + after);
            r.client + Response(r.counter, end)
            == Exec(c, before).client + [Rejection(if r.counter.overflowed then 413 else 408)]
  {
    TrippedStays(c, before, after);
  }

  /** What a receive does while the body is incomplete, in terms of the clock and the bytes alone. */
  lemma ReceiveIs(c: Config, events: seq<Event>, e: Event)
    requires e.Receive? && !Exec(c, events).counter.bodyComplete
    ensures var r, r' := Exec(c, events), Exec(c, events + [e]);
            var late := e.arrival.Never? || e.elapsed >= c.totalTimeout || e.arrival.after >= c.idleTimeout
                        || e.elapsed + e.arrival.after >= c.totalTimeout;
            && (r'.counter.timedOut <==> r.counter.timedOut || late)
            && r'.client == r.client
            && if late then r'.taken == r.taken && r'.delivered == r.delivered && r'.counter.overflowed == r.counter.overflowed
               else
                 var m := e.arrival.message;
                 var over := m.Request? && r.counter.received + |m.body| > c.maxBody;
                 && r'.taken == r.taken + [m]
                 && r'.delivered == (if over then r.delivered else r.delivered + [m])
                 && (r'.counter.overflowed <==> r.counter.overflowed || over)
                 && (r'.counter.bodyComplete <==> !over && m.Request? && !m.moreBody)
  {
    assert (events + [e])[..|events|] == events;
  }

  /** After the final body message a receive is passed on, at whatever time. */
  lemma LateReceiveIs(c: Config, events: seq<Event>, e: Event)
    requires e.Receive? && Exec(c, events).counter.bodyComplete
    ensures var r, r' := Exec(c, events), Exec(c, events + [e]);
            && r'.counter == r.counter && r'.client == r.client
            && r'.delivered == r.delivered + if e.arrival.Arrives? then [e.arrival.message] else []
  {
    assert (events + [e])[..|events|] == events;
  }

  /**
   The answer that follows the application: none when nothing tripped or when the application raised an exception of its
   own, and otherwise 413 on overflow and 408 on timeout.
   */
  lemma AnswerIs(c: Config, events: seq<Event>, end: End)
    requires end.LetsTooLargeThrough? ==> Exec(c, events).counter.overflowed
    requires end.LetsTimeoutThrough? ==> Exec(c, events).counter.timedOut
    ensures var s := Exec(c, events).counter;
            Response(s, end) == if end.RaisesOther? || (!s.overflowed && !s.timedOut) then []
                                else [Rejection(if s.overflowed then 413 else 408)]
  {
  }

  /** The messages and the outputs of a run without a limiter. */
  function Offered(events: seq<Event>): seq<Message> {
    if events == [] then []
    else
      var e := events[|events| - 1];
      Offered(events[..|events| - 1]) + if e.Receive? && e.arrival.Arrives? then [e.arrival.message] else []
  }

  function Emitted(events: seq<Event>): seq<Output> {
    if events == [] then []
    else
      var e := events[|events| - 1];
      Emitted(events[..|events| - 1]) + if e.Send? then [FromApp(e.message)] else []
  }

  /** Every receive finds its message in time; once the body is complete any time will do. */
  predicate Timely(c: Config, events: seq<Event>) {
    events != [] ==>
      var e := events[|events| - 1];
      && Timely(c, events[..|events| - 1])
      && (e.Receive? ==>
            && e.arrival.Arrives?
            && (|| Exec(c, events[..|events| - 1]).counter.bodyComplete
                || (e.elapsed < c.totalTimeout && e.arrival.after < c.idleTimeout
                    && e.elapsed + e.arrival.after < c.totalTimeout)))
  }

  /** One more event of a run that was transparent so far, and whose body still fits. */
  lemma StepTransparent(c: Config, r: Run, offered: seq<Message>, emitted: seq<Output>, e: Event)
    requires r.delivered == r.taken == offered && r.client == emitted && !Tripped(r.counter)
    requires !r.counter.bodyComplete ==> r.counter.received == BodyBytes(offered)
    requires e.Receive? ==> e.arrival.Arrives? && (r.counter.bodyComplete || InTime(c, e.elapsed, e.arrival))
    requires e.Receive? ==> BodyBytes(offered + [e.arrival.message]) <= c.maxBody
    ensures var r' := Step(c, r, e);
            && r'.delivered == r'.taken == (if e.Receive? then offered + [e.arrival.message] else offered)
            && r'.client == (if e.Send? then emitted + [FromApp(e.message)] else emitted) && !Tripped(r'.counter)
            && (!r'.counter.bodyComplete ==> r'.counter.received == BodyBytes(r'.taken))
  {
    if e.Receive? { Appended(offered, e.arrival.message); }
  }

  /** A body that fits and comes in time makes the limiter transparent in both directions. */
  lemma {:induction false} FittingIsTransparent(c: Config, events: seq<Event>)
    requires Timely(c, events) && BodyBytes(Offered(events)) <= c.maxBody
    ensures var r := Exec(c, events);
            r.delivered == r.taken == Offered(events) && r.client == Emitted(events) && !Tripped(r.counter)
            && (!r.counter.bodyComplete ==> r.counter.received == BodyBytes(Offered(events)))
            && Response(r.counter, Returns) == []
  {
    if events != [] {
      var front, e := events[..|events| - 1], events[|events| - 1];
      if e.Receive? { Appended(Offered(front), e.arrival.message); }
      assert Offered(events) == if e.Receive? then Offered(front) + [e.arrival.message] else Offered(front);
      assert Emitted(events) == if e.Send? then Emitted(front) + [FromApp(e.message)] else Emitted(front);
      FittingIsTransparent(c, front);
      StepTransparent(c, Exec(c, front), Offered(front), Emitted(front), e);
    }
  }

  /**
   For an honest declared length and a body read to its end or to the trip, rejecting early because the declared
   length exceeds the limit is what the chunk counter would have decided.
   */
  lemma EarlyRejectionAgrees(c: Config, events: seq<Event>, declared: nat)
    requires FollowsAsgi(Exec(c, events).taken) && BodyBytes(Exec(c, events).taken) <= declared
    requires Exec(c, events).counter.overflowed || BodyBytes(Exec(c, events).taken) == declared
    ensures declared > c.maxBody <==> Exec(c, events).counter.overflowed
  {
    RunBalanced(c, events);
  }
}
