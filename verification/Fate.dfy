/** What the pipeline guarantees: the retry loop, the engine's contract, and every message's fate. */
module Fate {
  import opened Options
  import opened Threads
  import opened Message
  import opened Pipeline
  import opened RetryRhythm

  // ---- the retry loop ----

  /** Attempt `n` gets to its send: no cancellation, and the jitter does not panic. */
  predicate Clear(c: Config, w: World, start: int, n: int) {
    && !w.cancelled(n)
    && (start < n ==> !w.sleepCancelled(n) && Due(c, n - start - 1) >= 2)
  }

  function IsSend(e: Event): bool {
    e.SendCall?
  }

  function IsSent(e: Event): bool {
    e == SendCall(SendOk)
  }

  function IsDlqRecord(e: Event): bool {
    e.DlqPublish? && e.ok
  }

  function IsCallback(e: Event): bool {
    e.AckCall? && e.ran
  }

  /** A round logs one send if it gets that far, and otherwise nothing but its sleep. */
  lemma RoundCount(c: Config, w: World, start: int, attempt: int, log: seq<Event>, p: Event -> bool)
    requires start <= attempt && forall ns :: !p(Slept(ns))
    ensures CountIf(log + Attempt(c, w, start, attempt).log, p)
         == CountIf(log, p) + Bit(Clear(c, w, start, attempt) && p(SendCall(w.send(attempt))))
  {
    var round := Attempt(c, w, start, attempt);
    if !Clear(c, w, start, attempt) {
      assert log + round.log == log;
    } else {
      var slept := round.log[..|round.log| - 1];
      assert log + round.log == log + slept + [SendCall(w.send(attempt))];
      Pushed(log + slept, SendCall(w.send(attempt)), p);
      if slept == [] {
        assert log + slept == log;
      } else {
        assert slept == [slept[0]];
        Pushed(log, slept[0], p);
      }
    }
  }

  /** One success for a delivery, none otherwise; and one failed send for each time round. */
  lemma {:induction false} RetryCounts(c: Config, w: World, start: int, attempt: int, log: seq<Event>)
    requires start <= attempt <= MaxAttempts(c) + 1
    ensures var d := Retry(c, w, start, attempt, log);
      && CountIf(d.log, IsSent) == CountIf(log, IsSent) + Bit(d.error.None?)
      && CountIf(d.log, IsFailedSend) == CountIf(log, IsFailedSend) + d.again - (attempt - start)
    decreases MaxAttempts(c) - attempt
  {
    if attempt <= MaxAttempts(c) {
      RoundCount(c, w, start, attempt, log, IsSent);
      RoundCount(c, w, start, attempt, log, IsFailedSend);
      if Attempt(c, w, start, attempt).verdict == Again {
        RetryCounts(c, w, start, attempt + 1, log + Attempt(c, w, start, attempt).log);
      }
    }
  }

  /** The loop does nothing but sleep and send. */
  lemma {:induction false} OnlySends(c: Config, w: World, start: int, attempt: int, log: seq<Event>, p: Event -> bool)
    requires start <= attempt && forall ns :: !p(Slept(ns))
    requires forall s :: !p(SendCall(s))
    ensures CountIf(Retry(c, w, start, attempt, log).log, p) == CountIf(log, p)
    decreases MaxAttempts(c) - attempt
  {
    if attempt <= MaxAttempts(c) {
      RoundCount(c, w, start, attempt, log, p);
      if Attempt(c, w, start, attempt).verdict == Again {
        OnlySends(c, w, start, attempt + 1, log + Attempt(c, w, start, attempt).log, p);
      }
    }
  }

  lemma {:induction false} SendCount(c: Config, w: World, start: int, attempt: int, log: seq<Event>)
    requires start <= attempt <= MaxAttempts(c) + 1
    ensures var sends := CountIf(Retry(c, w, start, attempt, log).log, IsSend) - CountIf(log, IsSend);
      && 0 <= sends <= MaxAttempts(c) - attempt + 1
      && (attempt <= MaxAttempts(c) && Clear(c, w, start, attempt) ==> sends >= 1)
    decreases MaxAttempts(c) - attempt
  {
    if attempt <= MaxAttempts(c) {
      RoundCount(c, w, start, attempt, log, IsSend);
      if Attempt(c, w, start, attempt).verdict == Again {
        SendCount(c, w, start, attempt + 1, log + Attempt(c, w, start, attempt).log);
      }
    }
  }

  /** Attempt `n` is reached, sends, and the send returns an error. */
  predicate FailsOn(c: Config, w: World, start: int, n: int) {
    Clear(c, w, start, n) && w.send(n) == SendErr
  }

  /** The email goes out on attempt `k`: every earlier attempt sent and failed. */
  ghost predicate DeliveredOn(c: Config, w: World, start: int, attempt: int, k: int) {
    && attempt <= k <= (if c.maxRetries < 1 then 1 else c.maxRetries)
    && (forall n | attempt <= n < k :: FailsOn(c, w, start, n))
    && Clear(c, w, start, k) && w.send(k) == SendOk
  }

  lemma DeliveredLater(c: Config, w: World, start: int, attempt: int, k: int)
    requires FailsOn(c, w, start, attempt)
    ensures DeliveredOn(c, w, start, attempt, k) <==> DeliveredOn(c, w, start, attempt + 1, k)
  {
  }

  lemma DeliveredNow(c: Config, w: World, start: int, attempt: int, k: int)
    requires !FailsOn(c, w, start, attempt) && DeliveredOn(c, w, start, attempt, k)
    ensures k == attempt
  {
  }

  lemma {:induction false} DeliveredFrom(c: Config, w: World, start: int, attempt: int, log: seq<Event>)
    requires start <= attempt
    ensures Retry(c, w, start, attempt, log).error.None? <==> exists k :: DeliveredOn(c, w, start, attempt, k)
    decreases MaxAttempts(c) - attempt
  {
    if attempt <= MaxAttempts(c) {
      var round := Attempt(c, w, start, attempt);
      if FailsOn(c, w, start, attempt) {
        DeliveredFrom(c, w, start, attempt + 1, log + round.log);
        var next := attempt + 1;
        if k :| DeliveredOn(c, w, start, next, k) {
          DeliveredLater(c, w, start, attempt, k);
        }
        if k :| DeliveredOn(c, w, start, attempt, k) {
          DeliveredLater(c, w, start, attempt, k);
        }
      } else {
        assert DeliveredOn(c, w, start, attempt, attempt) <==> round.verdict == Stop(None);
        forall k | DeliveredOn(c, w, start, attempt, k) ensures k == attempt {
          DeliveredNow(c, w, start, attempt, k);
        }
      }
    }
  }

  /**
   * sendWithRetry. It delivers exactly when some attempt within the budget succeeds
   * after nothing but failed sends; it never sends again after a success; it sends at
   * most once per remaining attempt, at least once if the first is not cancelled; and
   * totalRetried grows by the sends that returned an error.
   */
  lemma RetryLoop(c: Config, w: World, m: Msg)
    ensures var start, d := First(c, m), SendWithRetries(c, w, m);
      && 1 <= start
      && (d.error.None? <==> exists k :: DeliveredOn(c, w, start, start, k))
      && CountIf(d.log, IsSent) == Bit(d.error.None?)
      && (d.error.None? ==> d.log != [] && d.log[|d.log| - 1] == SendCall(SendOk))
      && Bit(!w.cancelled(start)) <= CountIf(d.log, IsSend) <= Allowed(c, m)
      && d.again == CountIf(d.log, IsFailedSend)
  {
    var start := StartAttempt(c, m);
    Budget(c, m);
    DeliveredFrom(c, w, start, start, []);
    RetryCounts(c, w, start, start, []);
    SendCount(c, w, start, start, []);
    SleepLaw(c, w, m);
  }

  // ---- the engine's contract ----

  /** The error that sends a message to the dead letter queue. */
  function Reason(c: Config, w: World, m: Msg): Error {
    if !w.parses then ParseError
    else if !w.valid then ValidateError
    else if SendWithRetries(c, w, m).error.Some? then SendWithRetries(c, w, m).error.value
    else SendFailed
  }

  /** `copy` is `m` as the dead letter queue must see it, under `topic` and with `text` as the error. */
  predicate Records(copy: Msg, m: Msg, topic: string, text: string) {
    && copy.id == m.id && copy.payload == m.payload && copy.attempts == m.attempts
    && copy.topic == topic && copy.timestamp == m.timestamp
    && copy.headers.Keys == m.headers.Keys + {"X-DLQ-Error"} && copy.headers["X-DLQ-Error"] == text
    && (forall k | k in m.headers && k != "X-DLQ-Error" :: copy.headers[k] == m.headers[k])
    && copy.key == "" && copy.delay == 0 && !copy.settled
  }

  /** A successful publish of `m`, with the reason it failed, to the configured dead letter topic. */
  predicate Recorded(c: Config, w: World, m: Msg, e: Event) {
    e.DlqPublish? && e.ok && Records(e.m, m, c.dlqTopic, w.errText(Reason(c, w, m)))
  }

  predicate NoAck(log: seq<Event>) {
    forall i | 0 <= i < |log| :: !log[i].AckCall?
  }

  /**
   * With a dead letter queue, the engine acknowledges a parsed and valid message only
   * after a successful dead-letter publish of that message; if the publish fails it
   * leaves the message alone and reports the failure.
   */
  lemma AckOnlyAfterRecord(c: Config, w: World, m: Msg, hasAck: bool)
    requires c.hasDlq && m.payload != [] && w.parses && w.valid
    ensures var o := Process(c, w, m, hasAck);
      && (forall i | 0 <= i < |o.log| && o.log[i].AckCall? ::
            exists j | 0 <= j < i :: Recorded(c, w, m, o.log[j]))
      && (!w.dlqOk ==>
            NoAck(o.log) && o.settled == m.settled && (o.error == None || o.error == Some(DlqFailed)))
  {
    SleepLaw(c, w, m);
    var d, o := SendWithRetries(c, w, m), Process(c, w, m, hasAck);
    if d.error.Some? {
      var copy := DlqCopy(c, w, m, d.error.value);
      assert Records(copy, m, c.dlqTopic, w.errText(Reason(c, w, m)));
      var route := Route(c, w, m, hasAck, d.error.value).0;
      assert o.log == d.log + route && route[0] == DlqPublish(copy, w.dlqOk);
      assert o.log[|d.log|] == route[0];
    }
  }

  /** The counters of one message: one outcome, and every failure but an empty payload is dead-lettered. */
  lemma CountersOfOne(c: Config, w: World, m: Msg, hasAck: bool)
    ensures var o := Process(c, w, m, hasAck);
      && o.counts.received == 1 == o.counts.success + o.counts.failed
      && (o.counts.success == 1 <==> o.error.None?)
      && o.counts.failed == o.counts.deadLetter + Bit(m.payload == [])
      && o.counts.retried == CountIf(o.log, IsFailedSend)
  {
    if m.payload == [] || !w.parses || !w.valid {
      ShortLog(Process(c, w, m, hasAck).log, IsFailedSend);
    } else {
      SendCounters(c, w, m, hasAck);
    }
  }

  lemma SendCounters(c: Config, w: World, m: Msg, hasAck: bool)
    ensures var o := SendOrRoute(c, w, m, hasAck); o.counts.retried == CountIf(o.log, IsFailedSend)
  {
    var d := SendWithRetries(c, w, m);
    RetryLoop(c, w, m);
    if d.error.Some? {
      var route := Route(c, w, m, hasAck, d.error.value).0;
      CountConcat(d.log, route, IsFailedSend);
      ShortLog(route, IsFailedSend);
    }
  }

  /** Counting in a log of at most three events. */
  lemma ShortLog(log: seq<Event>, p: Event -> bool)
    requires |log| <= 3
    ensures CountIf(log, p)
         == Bit(|log| >= 1 && p(log[0])) + Bit(|log| >= 2 && p(log[1])) + Bit(|log| >= 3 && p(log[2]))
  {
    if |log| >= 1 {
      CountSingle(log[0], p);
    }
    if |log| >= 2 {
      Pushed([log[0]], log[1], p);
    }
    if |log| == 1 {
      assert log == [log[0]];
    } else if |log| == 2 {
      assert log == [log[0]] + [log[1]];
    } else if |log| == 3 {
      assert log == [log[0]] + [log[1]] + [log[2]];
      Pushed([log[0]] + [log[1]], log[2], p);
    }
  }

  // ---- what one message costs ----

  /** The send succeeds within the retry budget. */
  ghost predicate Delivers(c: Config, w: World, m: Msg) {
    && m.payload != [] && w.parses && w.valid
    && exists k :: DeliveredOn(c, w, First(c, m), First(c, m), k)
  }

  /** The failure is passed on: there is no dead letter queue, or it took the message. */
  predicate PassedOn(c: Config, w: World) {
    c.hasDlq ==> w.dlqOk
  }

  /** How often `p` holds in what routeToDLQ does: its publish, its call of the error handler, its ack. */
  lemma CountRoute(c: Config, w: World, m: Msg, error: Error, p: Event -> bool)
    ensures CountIf(Route(c, w, m, true, error).0, p)
         == Bit(c.hasDlq && p(DlqPublish(DlqCopy(c, w, m, error), w.dlqOk)))
            + Bit(PassedOn(c, w) && c.hasErrorHandler && p(ErrorHandled))
            + Bit(PassedOn(c, w) && p(AckEvent(w, m.settled, true)))
  {
    ShortLog(Route(c, w, m, true, error).0, p);
  }

  /** A rejected message is always acknowledged. */
  lemma CountReject(c: Config, w: World, m: Msg, error: Error, p: Event -> bool)
    ensures CountIf(Reject(c, w, m, true, error).log, p)
         == Bit(c.hasDlq && p(DlqPublish(DlqCopy(c, w, m, error), w.dlqOk)))
            + Bit(PassedOn(c, w) && c.hasErrorHandler && p(ErrorHandled))
            + Bit(p(AckEvent(w, m.settled, true)))
  {
    CountRoute(c, w, m, error, p);
    if RouteFails(c, w) {
      CountSingle(AckEvent(w, m.settled, true), p);
      CountConcat(Route(c, w, m, true, error).0, [AckEvent(w, m.settled, true)], p);
    }
  }

  /** There was something to send and it was not sent. */
  ghost predicate Fails(c: Config, w: World, m: Msg) {
    m.payload != [] && !Delivers(c, w, m)
  }

  /** What the engine does with a message besides sleeping and sending. */
  lemma CountProcess(c: Config, w: World, m: Msg, p: Event -> bool)
    requires forall ns :: !p(Slept(ns))
    requires forall s :: !p(SendCall(s))
    ensures CountIf(Process(c, w, m, true).log, p)
         == Bit(Fails(c, w, m) && c.hasDlq && p(DlqPublish(DlqCopy(c, w, m, Reason(c, w, m)), w.dlqOk)))
            + Bit(Fails(c, w, m) && PassedOn(c, w) && c.hasErrorHandler && p(ErrorHandled))
            + Bit(Acks(c, w, m) && p(AckEvent(w, m.settled, true)))
  {
    if m.payload == [] {
      CountSingle(AckEvent(w, m.settled, true), p);
    } else if !w.parses || !w.valid {
      CountReject(c, w, m, Reason(c, w, m), p);
    } else {
      var start, d := StartAttempt(c, m), SendWithRetries(c, w, m);
      Budget(c, m);
      OnlySends(c, w, start, start, [], p);
      DeliveredFrom(c, w, start, start, []);
      if d.error.Some? {
        CountRoute(c, w, m, d.error.value, p);
        CountConcat(d.log, Route(c, w, m, true, d.error.value).0, p);
      }
    }
  }

  /** Whether the engine tries to acknowledge the message itself. */
  ghost predicate Acks(c: Config, w: World, m: Msg) {
    || m.payload == [] || !w.parses || !w.valid
    || (!Delivers(c, w, m) && PassedOn(c, w))
  }

  /** The message is settled afterwards if it was, or the engine's ack has a callback that works. */
  lemma SettledAfter(c: Config, w: World, m: Msg, hasAck: bool)
    ensures Process(c, w, m, hasAck).settled <==> m.settled || (Acks(c, w, m) && hasAck && w.ackOk)
  {
    Budget(c, m);
    DeliveredFrom(c, w, StartAttempt(c, m), StartAttempt(c, m), []);
  }

  /** What ProcessMessage returns. */
  lemma ErrorReported(c: Config, w: World, m: Msg, hasAck: bool)
    ensures var error := Process(c, w, m, hasAck).error;
      && (error == None <==> Delivers(c, w, m))
      && (error == Some(InvalidPayload) <==> m.payload == [])
      && (error == Some(DlqFailed) <==> Fails(c, w, m) && w.parses && w.valid && c.hasDlq && !w.dlqOk)
      && (Fails(c, w, m) && error != Some(DlqFailed) ==> error == Some(Reason(c, w, m)))
  {
    var start := StartAttempt(c, m);
    SleepLaw(c, w, m);
    Budget(c, m);
    DeliveredFrom(c, w, start, start, []);
  }

  // ---- the order of events ----

  /** Sleeps and sends, then the dead letter queue, then the error handler, then the ack. */
  function Stage(e: Event): nat {
    match e
    case Slept(_) => 0
    case SendCall(_) => 0
    case DlqPublish(_, _) => 1
    case ErrorHandled => 2
    case AckCall(_, _) => 3
  }

  predicate InOrder(log: seq<Event>) {
    forall i, j | 0 <= i < j < |log| :: Stage(log[i]) <= Stage(log[j])
  }

  /** The retry loop only sleeps and sends. */
  lemma RetryStage(c: Config, w: World, m: Msg)
    ensures var d := SendWithRetries(c, w, m); forall i | 0 <= i < |d.log| :: Stage(d.log[i]) == 0
  {
    SleepLaw(c, w, m);
  }

  lemma RouteInOrder(c: Config, w: World, m: Msg, hasAck: bool, error: Error)
    ensures InOrder(Route(c, w, m, hasAck, error).0)
  {
  }

  lemma RejectInOrder(c: Config, w: World, m: Msg, hasAck: bool, error: Error)
    ensures InOrder(Reject(c, w, m, hasAck, error).log)
  {
    RouteInOrder(c, w, m, hasAck, error);
  }

  /** Whatever happens to a message, it happens in that order. */
  lemma EngineInOrder(c: Config, w: World, m: Msg, hasAck: bool)
    ensures InOrder(Process(c, w, m, hasAck).log)
  {
    var d := SendWithRetries(c, w, m);
    RetryStage(c, w, m);
    RouteInOrder(c, w, m, hasAck, Reason(c, w, m));
    RejectInOrder(c, w, m, hasAck, Reason(c, w, m));
    if m.payload != [] && w.parses && w.valid && d.error.Some? {
      assert Process(c, w, m, hasAck).log == d.log + Route(c, w, m, hasAck, Reason(c, w, m)).0;
    }
  }

  /** The consumer acknowledges first with AutoAck; without it nothing comes after an ack but acks. */
  lemma ConsumerInOrder(c: Config, w: World, m: Msg, autoAck: bool)
    ensures var log := Consume(c, w, m, autoAck);
      if autoAck then log != [] && log[0].AckCall? && InOrder(log[1..]) else InOrder(log)
  {
    var o := Handled(c, InMemory(w), m, autoAck);
    EngineInOrder(c, InMemory(w), m.(settled := m.settled || autoAck), true);
    var rest := o.log + AckLast(InMemory(w), o.settled);
    assert InOrder(rest);
    assert Consume(c, w, m, autoAck) == AckFirst(InMemory(w), m, autoAck) + rest;
  }

  // ---- the fate of every message ----

  lemma CountSent(c: Config, w: World, m: Msg)
    ensures CountIf(Process(c, w, m, true).log, IsSent) == Bit(Delivers(c, w, m))
  {
    if m.payload == [] {
      CountSingle(AckEvent(w, m.settled, true), IsSent);
    } else if !w.parses || !w.valid {
      CountReject(c, w, m, Reason(c, w, m), IsSent);
    } else {
      var start, d := StartAttempt(c, m), SendWithRetries(c, w, m);
      Budget(c, m);
      RetryCounts(c, w, start, start, []);
      DeliveredFrom(c, w, start, start, []);
      if d.error.Some? {
        CountRoute(c, w, m, d.error.value, IsSent);
        CountConcat(d.log, Route(c, w, m, true, d.error.value).0, IsSent);
      }
    }
  }

  /** The consumer adds acks before and after the engine's part. */
  lemma CountConsume(c: Config, world: World, m: Msg, autoAck: bool, p: Event -> bool)
    ensures var (w, o) := (InMemory(world), Handled(c, InMemory(world), m, autoAck));
      CountIf(Consume(c, world, m, autoAck), p)
      == Bit(autoAck && p(AckEvent(w, m.settled, true))) + CountIf(o.log, p)
         + Bit(!o.settled && p(AckEvent(w, false, true)))
  {
    var w := InMemory(world);
    var first, o := AckFirst(w, m, autoAck), Handled(c, w, m, autoAck);
    var last := AckLast(w, o.settled);
    CountSingle(AckEvent(w, m.settled, true), p);
    CountSingle(AckEvent(w, false, true), p);
    CountConcat(first, o.log, p);
    CountConcat(first + o.log, last, p);
  }

  /** Neither sent nor recorded: the message is gone without trace. */
  ghost predicate Residue(c: Config, w: World, m: Msg) {
    m.payload == [] || (!Delivers(c, w, m) && (!c.hasDlq || !w.dlqOk))
  }

  lemma SameFate(c: Config, w: World, m: Msg, settled: bool)
    ensures var m' := m.(settled := settled);
      Delivers(c, w, m') == Delivers(c, w, m) && Reason(c, w, m') == Reason(c, w, m)
  {
    assert StartAttempt(c, m.(settled := settled)) == StartAttempt(c, m);
    assert First(c, m.(settled := settled)) == First(c, m);
  }

  function RecordOf(c: Config, w: World, m: Msg): Event -> bool {
    (e: Event) => Recorded(c, w, m, e)
  }

  lemma CopyRecords(c: Config, w: World, m: Msg, settled: bool)
    ensures var m' := m.(settled := settled);
      Records(DlqCopy(c, w, m', Reason(c, w, m')), m, c.dlqTopic, w.errText(Reason(c, w, m)))
  {
    SameFate(c, w, m, settled);
  }

  /** Nothing is recorded but the message itself. */
  lemma OwnRecord(c: Config, world: World, m: Msg, autoAck: bool)
    ensures var (w, log) := (InMemory(world), Consume(c, world, m, autoAck));
      CountIf(log, RecordOf(c, w, m)) == CountIf(log, IsDlqRecord)
  {
    var w, m' := InMemory(world), m.(settled := m.settled || autoAck);
    CountConsume(c, world, m, autoAck, RecordOf(c, w, m));
    CountConsume(c, world, m, autoAck, IsDlqRecord);
    CountProcess(c, w, m', RecordOf(c, w, m));
    CountProcess(c, w, m', IsDlqRecord);
    CopyRecords(c, w, m, m.settled || autoAck);
  }

  /**
   * Every message the memory queue delivers to the engine ends in exactly one of
   * three fates: sent once, recorded once under the dead letter topic with its own id,
   * payload, attempts, timestamp and headers and the error that stopped it, and nothing
   * else recorded, or residue. It is residue exactly when its payload is empty, or it was not sent and there is no dead
   * letter queue or the publish to it failed.
   */
  lemma EveryFate(c: Config, world: World, m: Msg, autoAck: bool)
    ensures var (w, log) := (InMemory(world), Consume(c, world, m, autoAck));
      && CountIf(log, IsSent) == Bit(Delivers(c, w, m))
      && CountIf(log, IsDlqRecord) == Bit(!Delivers(c, w, m) && !Residue(c, w, m))
      && CountIf(log, RecordOf(c, w, m)) == CountIf(log, IsDlqRecord)
      && CountIf(log, IsSent) + CountIf(log, IsDlqRecord) == Bit(!Residue(c, w, m))
  {
    var w, m' := InMemory(world), m.(settled := m.settled || autoAck);
    SameFate(c, w, m, m.settled || autoAck);
    CountConsume(c, world, m, autoAck, IsSent);
    CountConsume(c, world, m, autoAck, IsDlqRecord);
    CountSent(c, w, m');
    CountProcess(c, w, m', IsDlqRecord);
    OwnRecord(c, world, m, autoAck);
  }

  function IsPublish(e: Event): bool {
    e.DlqPublish?
  }

  function IsHandled(e: Event): bool {
    e == ErrorHandled
  }

  /**
   * An unsent message with a payload is published once, whether that works or not, if
   * there is a dead letter queue; and the error handler, if there is one, is called once
   * unless the publish failed. Nothing else is published or handled.
   */
  lemma PublishedAndHandled(c: Config, world: World, m: Msg, autoAck: bool)
    ensures var (w, log) := (InMemory(world), Consume(c, world, m, autoAck));
      && CountIf(log, IsPublish) == Bit(m.payload != [] && !Delivers(c, w, m) && c.hasDlq)
      && CountIf(log, IsHandled)
         == Bit(m.payload != [] && !Delivers(c, w, m) && c.hasErrorHandler && !(c.hasDlq && !w.dlqOk))
  {
    var w, m' := InMemory(world), m.(settled := m.settled || autoAck);
    SameFate(c, w, m, m.settled || autoAck);
    CountConsume(c, world, m, autoAck, IsPublish);
    CountConsume(c, world, m, autoAck, IsHandled);
    CountProcess(c, w, m', IsPublish);
    CountProcess(c, w, m', IsHandled);
  }

  /** The ack callback of a delivered message runs exactly once, or not at all if it arrived settled. */
  lemma AckedOnce(c: Config, world: World, m: Msg, autoAck: bool)
    ensures CountIf(Consume(c, world, m, autoAck), IsCallback) == Bit(!m.settled)
  {
    var w, m' := InMemory(world), m.(settled := m.settled || autoAck);
    CountConsume(c, world, m, autoAck, IsCallback);
    CountProcess(c, w, m', IsCallback);
    SettledAfter(c, w, m', true);
  }
}
