/**
 * The delivery pipeline: parse, validate, send with retries, dead-letter, acknowledge,
 * for one message; and its composition with the memory queue's consumer.
 */
module Pipeline {
  import opened Options
  import opened Sequences
  import opened Threads
  import B = Backoff
  import Q = Message
  import opened Message

  datatype SendOutcome = SendOk | SendErr | SendPanic

  datatype Error = InvalidPayload | ParseError | ValidateError | Cancelled | SendFailed | Panicked | DlqFailed

  datatype Config = Config(maxRetries: int, retryInterval: int, hasDlq: bool, dlqTopic: string,
                           hasErrorHandler: bool)

  /** Everything the outside world decides while one message is processed. */
  datatype World = World(
    parses: bool,
    valid: bool,
    cancelled: int -> bool,        // context done when attempt n begins
    sleepCancelled: int -> bool,   // context done during the sleep before attempt n
    random: int -> int,            // the random source before attempt n
    send: int -> SendOutcome,      // what the sender does on attempt n
    dlqOk: bool,
    ackOk: bool,
    errText: Error -> string)

  datatype Event =
    | Slept(ns: int)
    | SendCall(outcome: SendOutcome)
    | DlqPublish(m: Msg, ok: bool)
    | ErrorHandled                       // the error handler was called
    | AckCall(reply: Reply, ran: bool)   // `ran`: the ack callback was invoked

  // ---- the retry loop ----

  function MaxAttempts(c: Config): int {
    if c.maxRetries < 1 then 1 else c.maxRetries
  }

  function StartAttempt(c: Config, m: Msg): int {
    var start := if m.attempts > 1 then m.attempts else 1;
    if start > MaxAttempts(c) then MaxAttempts(c) else start
  }

  function BackoffBefore(c: Config, start: int, attempt: int): int
    requires start < attempt
  {
    B.Backoff(B.EffectiveInterval(c.retryInterval), attempt - start - 1)
  }

  /** rand.Int63n panics when it is given no room. */
  predicate JitterPanics(c: Config, start: int, attempt: int) {
    start < attempt && B.JitterBound(BackoffBefore(c, start, attempt)) <= 0
  }

  /** rand.Int63n(bound): any number below the bound. */
  function Jitter(w: World, attempt: int, bound: int): (j: int)
    requires bound > 0
    ensures 0 <= j < bound
  {
    if 0 <= w.random(attempt) < bound then w.random(attempt) else 0
  }

  function SleepBefore(c: Config, w: World, start: int, attempt: int): int
    requires start < attempt && !JitterPanics(c, start, attempt)
  {
    var b := BackoffBefore(c, start, attempt);
    B.Sleep(b, Jitter(w, attempt, B.JitterBound(b)))
  }

  /** One round of the loop: what it does, and whether it ends the loop. */
  datatype Verdict = Again | Stop(error: Option<Error>)

  datatype Round = Round(log: seq<Event>, verdict: Verdict)

  function Attempt(c: Config, w: World, start: int, attempt: int): Round
    requires start <= attempt
  {
    if w.cancelled(attempt) then Round([], Stop(Some(Cancelled)))
    else if JitterPanics(c, start, attempt) then Round([], Stop(Some(Panicked)))
    else if start < attempt && w.sleepCancelled(attempt) then Round([], Stop(Some(Cancelled)))
    else
      var slept := if start < attempt then [Slept(SleepBefore(c, w, start, attempt))] else [];
      Round(slept + [SendCall(w.send(attempt))],
            match w.send(attempt)
            case SendOk => Stop(None)
            case SendPanic => Stop(Some(Panicked))
            case SendErr => Again)
  }

  /** The error the retry loop ends with, None for a delivery; what it did; and how often it went round. */
  datatype Delivery = Delivery(error: Option<Error>, log: seq<Event>, again: nat)

  /** The loop from `attempt` on, after it has logged `log`. */
  function Retry(c: Config, w: World, start: int, attempt: int, log: seq<Event>): Delivery
    requires start <= attempt
    decreases MaxAttempts(c) - attempt
  {
    if attempt > MaxAttempts(c) then Delivery(Some(SendFailed), log, attempt - start)
    else
      var round := Attempt(c, w, start, attempt);
      match round.verdict
      case Stop(error) => Delivery(error, log + round.log, attempt - start)
      case Again => Retry(c, w, start, attempt + 1, log + round.log)
  }

  function SendWithRetries(c: Config, w: World, m: Msg): Delivery {
    Retry(c, w, StartAttempt(c, m), StartAttempt(c, m), [])
  }

  // ---- one message through the engine ----

  /** Changes of the engine's counters. */
  datatype Counts = Counts(received: nat, success: nat, failed: nat, retried: nat, deadLetter: nat)

  datatype Outcome = Outcome(error: Option<Error>, log: seq<Event>, settled: bool, counts: Counts)

  function IsFailedSend(e: Event): bool {
    e == SendCall(SendErr)
  }

  /** The copy that goes to the dead letter queue. */
  function DlqCopy(c: Config, w: World, m: Msg, error: Error): Msg {
    Msg(m.id, c.dlqTopic, m.payload, m.headers["X-DLQ-Error" := w.errText(error)],
        "", 0, m.timestamp, m.attempts, 0, false)
  }

  function AckEvent(w: World, settled: bool, hasAck: bool): Event {
    AckCall(Q.Settle(settled, hasAck, w.ackOk).1, !settled && hasAck)
  }

  /** After the dead letter queue: the error handler, if there is one, and the ack. */
  function HandleAndAck(c: Config, w: World, settled: bool, hasAck: bool): seq<Event> {
    (if c.hasErrorHandler then [ErrorHandled] else []) + [AckEvent(w, settled, hasAck)]
  }

  /** What routeToDLQ logs and whether the message is settled after it. */
  function Route(c: Config, w: World, m: Msg, hasAck: bool, error: Error): (seq<Event>, bool) {
    var acked := (HandleAndAck(c, w, m.settled, hasAck), Q.Settle(m.settled, hasAck, w.ackOk).0);
    if !c.hasDlq then acked
    else if !w.dlqOk then ([DlqPublish(DlqCopy(c, w, m, error), false)], m.settled)
    else ([DlqPublish(DlqCopy(c, w, m, error), true)] + acked.0, acked.1)
  }

  predicate RouteFails(c: Config, w: World) {
    c.hasDlq && !w.dlqOk
  }

  /** An unparsable or invalid message: dead-lettered, and acknowledged even if that fails. */
  function Reject(c: Config, w: World, m: Msg, hasAck: bool, error: Error): Outcome {
    var (log, settled) := Route(c, w, m, hasAck, error);
    if RouteFails(c, w)
    then Outcome(Some(error), log + [AckEvent(w, m.settled, hasAck)], Q.Settle(m.settled, hasAck, w.ackOk).0,
                 Counts(1, 0, 1, 0, 1))
    else Outcome(Some(error), log, settled, Counts(1, 0, 1, 0, 1))
  }

  /** A valid email: sent with retries, or dead-lettered and then acknowledged. */
  function SendOrRoute(c: Config, w: World, m: Msg, hasAck: bool): Outcome {
    var d := SendWithRetries(c, w, m);
    if d.error.None? then Outcome(None, d.log, m.settled, Counts(1, 1, 0, d.again, 0))
    else
      var (log, settled) := Route(c, w, m, hasAck, d.error.value);
      Outcome(Some(if RouteFails(c, w) then DlqFailed else d.error.value), d.log + log, settled,
              Counts(1, 0, 1, d.again, 1))
  }

  function Process(c: Config, w: World, m: Msg, hasAck: bool): Outcome {
    if m.payload == [] then
      Outcome(Some(InvalidPayload), [AckEvent(w, m.settled, hasAck)], Q.Settle(m.settled, hasAck, w.ackOk).0,
              Counts(1, 0, 1, 0, 0))
    else if !w.parses then Reject(c, w, m, hasAck, ParseError)
    else if !w.valid then Reject(c, w, m, hasAck, ValidateError)
    else SendOrRoute(c, w, m, hasAck)
  }

  class Engine {
    const c: Config
    var inFlight: int
    var totalReceived: nat
    var totalSuccess: nat
    var totalFailed: nat
    var totalRetried: nat
    var totalDeadLetter: nat
    var log: seq<Event>   // history

    constructor (c: Config)
      ensures this.c == c && log == [] && inFlight == 0 && Totals() == Counts(0, 0, 0, 0, 0)
    {
      this.c := c;
      inFlight, totalReceived, totalSuccess, totalFailed, totalRetried, totalDeadLetter := 0, 0, 0, 0, 0, 0;
      log := [];
    }

    ghost function Totals(): Counts
      reads this
    {
      Counts(totalReceived, totalSuccess, totalFailed, totalRetried, totalDeadLetter)
    }

    method Ack(w: World, msg: Message)
      modifies this`log, msg`acknowledged
      ensures log == old(log) + [AckEvent(w, old(msg.acknowledged), msg.hasAck)]
      ensures msg.acknowledged == Q.Settle(old(msg.acknowledged), msg.hasAck, w.ackOk).0
    {
      var reply, ran := msg.Ack(w.ackOk);
      log := log + [AckCall(reply, ran)];
    }

    /** The copy of the message, with the error in a header, to the dead letter queue. */
    method PublishDlq(w: World, msg: Message, error: Error)
      modifies this`log
      ensures log == old(log) + [DlqPublish(DlqCopy(c, w, msg.View(), error), w.dlqOk)]
    {
      var copy := Msg(msg.id, c.dlqTopic, msg.payload[..], msg.headers["X-DLQ-Error" := w.errText(error)],
                      "", 0, msg.timestamp, msg.attempts, 0, false);
      log := log + [DlqPublish(copy, w.dlqOk)];
    }

    method Conclude(w: World, msg: Message)
      modifies this`log, msg`acknowledged
      ensures log == old(log) + HandleAndAck(c, w, old(msg.acknowledged), msg.hasAck)
      ensures msg.acknowledged == Q.Settle(old(msg.acknowledged), msg.hasAck, w.ackOk).0
    {
      if c.hasErrorHandler {
        log := log + [ErrorHandled];
      }
      Ack(w, msg);
    }

    method RouteToDlq(w: World, msg: Message, error: Error) returns (failed: bool)
      modifies this`log, this`totalDeadLetter, msg`acknowledged
      ensures failed == RouteFails(c, w)
      ensures totalDeadLetter == old(totalDeadLetter) + 1
      ensures var (events, settled) := Route(c, w, old(msg.View()), msg.hasAck, error);
        log == old(log) + events && msg.acknowledged == settled
    {
      totalDeadLetter := totalDeadLetter + 1;
      ghost var before, m := log, msg.View();
      if c.hasDlq {
        PublishDlq(w, msg, error);
        if !w.dlqOk {
          return true;
        }
      }
      Conclude(w, msg);
      failed := false;
      Assoc(before, [DlqPublish(DlqCopy(c, w, m, error), true)], HandleAndAck(c, w, m.settled, msg.hasAck));
    }

    /** One round of sendWithRetry's loop. */
    method Try(w: World, start: int, attempt: int) returns (verdict: Verdict)
      requires start <= attempt
      modifies this`log, this`totalRetried
      ensures verdict == Attempt(c, w, start, attempt).verdict
      ensures log == old(log) + Attempt(c, w, start, attempt).log
      ensures totalRetried == old(totalRetried) + Bit(verdict == Again)
    {
      if w.cancelled(attempt) {
        return Stop(Some(Cancelled));
      }
      if attempt > start {
        var backoff := B.Backoff(B.EffectiveInterval(c.retryInterval), attempt - start - 1);
        if backoff / 2 <= 0 {
          return Stop(Some(Panicked));
        }
        if w.sleepCancelled(attempt) {
          return Stop(Some(Cancelled));
        }
        log := log + [Slept(backoff - backoff / 4 + Jitter(w, attempt, backoff / 2))];
      }
      log := log + [SendCall(w.send(attempt))];
      match w.send(attempt) {
        case SendOk => return Stop(None);
        case SendPanic => return Stop(Some(Panicked));
        case SendErr =>
          totalRetried := totalRetried + 1;
          return Again;
      }
    }

    method SendWithRetry(w: World, msg: Message) returns (error: Option<Error>)
      modifies this`log, this`totalRetried
      ensures var d := SendWithRetries(c, w, msg.View());
        error == d.error && log == old(log) + d.log && totalRetried == old(totalRetried) + d.again
    {
      var maxAttempts := if c.maxRetries < 1 then 1 else c.maxRetries;
      var start := if msg.attempts > 1 then msg.attempts else 1;
      if start > maxAttempts {
        start := maxAttempts;
      }
      error := RetryFrom(w, start, maxAttempts);
    }

    /** The loop of sendWithRetry. */
    method RetryFrom(w: World, start: int, maxAttempts: int) returns (error: Option<Error>)
      requires start <= maxAttempts == MaxAttempts(c)
      modifies this`log, this`totalRetried
      ensures var d := Retry(c, w, start, start, []);
        error == d.error && log == old(log) + d.log && totalRetried == old(totalRetried) + d.again
    {
      ghost var done: seq<Event> := [];
      var attempt := start;
      while attempt <= maxAttempts
        invariant start <= attempt <= maxAttempts + 1
        invariant log == old(log) + done
        invariant totalRetried == old(totalRetried) + attempt - start
        invariant Retry(c, w, start, start, []) == Retry(c, w, start, attempt, done)
      {
        var verdict := Try(w, start, attempt);
        done := done + Attempt(c, w, start, attempt).log;
        if verdict.Stop? {
          return verdict.error;
        }
        attempt := attempt + 1;
      }
      error := Some(SendFailed);
    }

    /** The branch for a payload that does not parse or an email that is not valid. */
    method RejectMessage(w: World, msg: Message, error: Error)
      modifies this`log, this`totalFailed, this`totalDeadLetter, msg`acknowledged
      ensures var o := Reject(c, w, old(msg.View()), msg.hasAck, error);
        log == old(log) + o.log && msg.acknowledged == o.settled
      ensures totalFailed == old(totalFailed) + 1 && totalDeadLetter == old(totalDeadLetter) + 1
    {
      totalFailed := totalFailed + 1;
      var failed := RouteToDlq(w, msg, error);
      if failed {
        Ack(w, msg);
      }
    }

    /** The branch for a valid email. */
    method SendMessage(w: World, msg: Message) returns (error: Option<Error>)
      modifies this`log, this`totalSuccess, this`totalFailed, this`totalRetried, this`totalDeadLetter, msg`acknowledged
      ensures var o := SendOrRoute(c, w, old(msg.View()), msg.hasAck);
        && error == o.error && log == old(log) + o.log && msg.acknowledged == o.settled
        && totalSuccess == old(totalSuccess) + o.counts.success && totalFailed == old(totalFailed) + o.counts.failed
        && totalRetried == old(totalRetried) + o.counts.retried
        && totalDeadLetter == old(totalDeadLetter) + o.counts.deadLetter
    {
      error := SendWithRetry(w, msg);
      if error.None? {
        totalSuccess := totalSuccess + 1;
        return;
      }
      totalFailed := totalFailed + 1;
      var failed := RouteToDlq(w, msg, error.value);
      if failed {
        error := Some(DlqFailed);
      }
    }

    /** A nil message counts as received and failed; there is nothing to acknowledge. */
    method ProcessNil() returns (error: Option<Error>)
      modifies this
      ensures error == Some(InvalidPayload) && inFlight == old(inFlight) && log == old(log)
      ensures Totals() == Add(old(Totals()), Counts(1, 0, 1, 0, 0))
    {
      inFlight := inFlight + 1;
      totalReceived := totalReceived + 1;
      totalFailed := totalFailed + 1;
      inFlight := inFlight - 1;
      error := Some(InvalidPayload);
    }

    /** One message, end to end. */
    method ProcessMessage(w: World, msg: Message) returns (error: Option<Error>)
      modifies this, msg`acknowledged
      ensures inFlight == old(inFlight)
      ensures var o := Process(c, w, old(msg.View()), msg.hasAck);
        && error == o.error && log == old(log) + o.log && Totals() == Add(old(Totals()), o.counts)
        && msg.acknowledged == o.settled
    {
      inFlight := inFlight + 1;
      totalReceived := totalReceived + 1;
      if msg.payload.Length == 0 {
        totalFailed := totalFailed + 1;
        Ack(w, msg);
        error := Some(InvalidPayload);
      } else if !w.parses {
        RejectMessage(w, msg, ParseError);
        error := Some(ParseError);
      } else if !w.valid {
        RejectMessage(w, msg, ValidateError);
        error := Some(ValidateError);
      } else {
        error := SendMessage(w, msg);
      }
      inFlight := inFlight - 1;
    }
  }

  function Add(a: Counts, b: Counts): Counts {
    Counts(a.received + b.received, a.success + b.success, a.failed + b.failed,
           a.retried + b.retried, a.deadLetter + b.deadLetter)
  }

  // ---- the memory queue's consumer around the engine ----

  /** The memory queue installs an ack callback that always succeeds. */
  function InMemory(w: World): World {
    w.(ackOk := true)
  }

  /** The consumer's own ack before the handler, if AutoAck is set. */
  function AckFirst(w: World, m: Msg, autoAck: bool): seq<Event> {
    if autoAck then [AckEvent(w, m.settled, true)] else []
  }

  /** The consumer's ack after the handler, whether it failed or not. */
  function AckLast(w: World, settled: bool): seq<Event> {
    if settled then [] else [AckEvent(w, false, true)]
  }

  /** The engine's part of a delivery. */
  function Handled(c: Config, w: World, m: Msg, autoAck: bool): Outcome {
    Process(c, w, m.(settled := m.settled || autoAck), true)
  }

  /** Everything that happens to a delivered message, in order. */
  function Consume(c: Config, w: World, m: Msg, autoAck: bool): seq<Event> {
    var o := Handled(c, InMemory(w), m, autoAck);
    AckFirst(InMemory(w), m, autoAck) + o.log + AckLast(InMemory(w), o.settled)
  }

  /** After the handler: ack whatever is not settled, on an error as on success. */
  method AckAfter(engine: Engine, w: World, msg: Message, error: Option<Error>)
    requires w.ackOk && msg.hasAck
    modifies engine`log, msg`acknowledged
    ensures engine.log == old(engine.log) + AckLast(w, old(msg.acknowledged)) && msg.acknowledged
  {
    if error.Some? && !msg.acknowledged {
      engine.Ack(w, msg);
    } else if error.None? && !msg.acknowledged {
      engine.Ack(w, msg);
    }
  }

  /** memoryConsumer.processMessage with the engine as its handler. */
  method ConsumeMessage(engine: Engine, world: World, msg: Message, autoAck: bool)
    modifies engine, msg`acknowledged, msg`hasAck, msg`hasNack
    ensures engine.log == old(engine.log) + Consume(engine.c, world, old(msg.View()), autoAck)
    ensures msg.acknowledged
    ensures engine.inFlight == old(engine.inFlight)
  {
    var w := InMemory(world);
    ghost var m, before := msg.View(), engine.log;
    msg.hasAck, msg.hasNack := true, true;
    if autoAck {
      engine.Ack(w, msg);
    }
    ghost var first, o := AckFirst(w, m, autoAck), Handled(engine.c, w, m, autoAck);
    assert engine.log == before + first;
    assert msg.View() == m.(settled := m.settled || autoAck);
    var error := engine.ProcessMessage(w, msg);
    assert engine.log == before + first + o.log && msg.acknowledged == o.settled;
    AckAfter(engine, w, msg, error);
    Assoc4(before, first, o.log, AckLast(w, o.settled));
  }
}
