/** What the retry loop does, in terms of the configuration, the message and the outside world. */
module RetryRhythm {
  import opened Options
  import opened Threads
  import opened Message
  import opened Pipeline
  import B = Backoff

  /** How many sends the retry limit leaves a message that was delivered `m.attempts` times; at least one. */
  function Allowed(c: Config, m: Msg): (n: int)
    ensures n >= 1
  {
    var left := c.maxRetries - (if m.attempts < 1 then 1 else m.attempts) + 1;
    if left < 1 then 1 else left
  }

  /** The number of the first attempt, counted back from the limit. */
  function First(c: Config, m: Msg): int {
    (if c.maxRetries < 1 then 1 else c.maxRetries) - Allowed(c, m) + 1
  }

  /** The wait due after `k + 1` failed sends. */
  function Due(c: Config, k: nat): int {
    B.Backoff(if c.retryInterval <= 0 then 5_000_000_000 else c.retryInterval, k)
  }

  /** A sleep within a quarter of that wait. */
  predicate InQuarter(c: Config, k: nat, e: Event) {
    && e.Slept?
    && 0 < Due(c, k) <= 300_000_000_000
    && 3 * Due(c, k) <= 4 * e.ns < 5 * Due(c, k)
  }

  /** Send, sleep, send, sleep, ..., send: the k-th send is attempt first + k, the k-th sleep is due for shift k. */
  predicate Rhythm(c: Config, w: World, first: int, log: seq<Event>) {
    && (log == [] || |log| % 2 == 1)
    && forall i | 0 <= i < |log| ::
         if i % 2 == 0 then log[i] == SendCall(w.send(first + i / 2)) else InQuarter(c, i / 2, log[i])
  }

  /** Sends in such a log. */
  function Sends(log: seq<Event>): nat {
    (|log| + 1) / 2
  }

  /** The context is not done when attempt first + k begins, nor during the sleep before it. */
  predicate Calm(w: World, first: int, k: nat) {
    !w.cancelled(first + k) && (k > 0 ==> !w.sleepCancelled(first + k))
  }

  /** All sends but the last return an error, and the context is not done before any of them. */
  predicate Insists(w: World, first: int, log: seq<Event>) {
    && (forall i | 0 <= i < |log| - 1 :: log[i] != SendCall(SendOk) && log[i] != SendCall(SendPanic))
    && forall k: nat | k < Sends(log) :: Calm(w, first, k)
  }

  /** Why the loop stopped after the sends in `log`, out of `allowed`. */
  predicate Ends(c: Config, w: World, first: int, allowed: int, log: seq<Event>, error: Option<Error>) {
    var n := Sends(log);
    match error
    case None => log != [] && log[|log| - 1] == SendCall(SendOk)
    case Some(e) =>
      match e
      case SendFailed => n == allowed && log != [] && log[|log| - 1] == SendCall(SendErr)
      case Cancelled => n < allowed && (w.cancelled(first + n) || (n > 0 && w.sleepCancelled(first + n)))
      case Panicked =>
        || (log != [] && log[|log| - 1] == SendCall(SendPanic))
        || (0 < n < allowed && !w.cancelled(first + n) && Due(c, n - 1) < 2)
      case _ => false
  }

  /** The loop's own start and limit are those. */
  lemma Budget(c: Config, m: Msg)
    ensures StartAttempt(c, m) == First(c, m)
    ensures MaxAttempts(c) - StartAttempt(c, m) + 1 == Allowed(c, m)
  {
  }

  /** What the loop has logged when it comes to `attempt`: every attempt so far sent and failed. */
  ghost predicate SoFar(c: Config, w: World, start: int, attempt: int, log: seq<Event>) {
    && start <= attempt
    && Rhythm(c, w, start, log) && Insists(w, start, log)
    && Sends(log) == attempt - start
    && (log != [] ==> log[|log| - 1] == SendCall(SendErr))
  }

  lemma RoundSleep(c: Config, w: World, start: int, attempt: int)
    requires start < attempt && !JitterPanics(c, start, attempt)
    ensures InQuarter(c, attempt - start - 1, Slept(SleepBefore(c, w, start, attempt)))
  {
    var b := BackoffBefore(c, start, attempt);
    B.SleepWithinQuarter(b, Jitter(w, attempt, B.JitterBound(b)));
  }

  /** A round that sends adds a sleep, unless it is the first, and a send. */
  lemma RoundLog(c: Config, w: World, start: int, attempt: int, log: seq<Event>)
    requires SoFar(c, w, start, attempt, log) && Attempt(c, w, start, attempt).log != []
    ensures var log' := log + Attempt(c, w, start, attempt).log;
      && Rhythm(c, w, start, log') && Insists(w, start, log')
      && Sends(log') == attempt - start + 1
      && log'[|log'| - 1] == SendCall(w.send(attempt))
  {
    var round := Attempt(c, w, start, attempt);
    if start < attempt {
      RoundSleep(c, w, start, attempt);
      assert round.log == [Slept(SleepBefore(c, w, start, attempt)), SendCall(w.send(attempt))];
    } else {
      assert round.log == [SendCall(w.send(attempt))];
    }
    assert Calm(w, start, attempt - start);
  }

  /** What holds of the loop's log and error when it is over. */
  ghost predicate Over(c: Config, w: World, start: int, d: Delivery) {
    && Rhythm(c, w, start, d.log) && Insists(w, start, d.log)
    && Sends(d.log) <= MaxAttempts(c) - start + 1
    && Ends(c, w, start, MaxAttempts(c) - start + 1, d.log, d.error)
  }

  /** A round that ends the loop, without a send or with one. */
  lemma LastRound(c: Config, w: World, start: int, attempt: int, log: seq<Event>)
    requires attempt <= MaxAttempts(c) && SoFar(c, w, start, attempt, log)
    requires Attempt(c, w, start, attempt).verdict != Again
    ensures Over(c, w, start, Retry(c, w, start, attempt, log))
  {
    var round := Attempt(c, w, start, attempt);
    if round.log == [] {
      assert log + round.log == log;
    } else {
      RoundLog(c, w, start, attempt, log);
    }
  }

  lemma {:induction false} RetryShape(c: Config, w: World, start: int, attempt: int, log: seq<Event>)
    requires attempt <= MaxAttempts(c) + 1 && start <= MaxAttempts(c) && SoFar(c, w, start, attempt, log)
    ensures Over(c, w, start, Retry(c, w, start, attempt, log))
    decreases MaxAttempts(c) - attempt
  {
    if attempt <= MaxAttempts(c) {
      if Attempt(c, w, start, attempt).verdict == Again {
        RoundLog(c, w, start, attempt, log);
        RetryShape(c, w, start, attempt + 1, log + Attempt(c, w, start, attempt).log);
      } else {
        LastRound(c, w, start, attempt, log);
      }
    }
  }

  /**
   * sendWithRetry's events: a send, then before each later send exactly one sleep, the
   * k-th within a quarter of the wait for shift k of the configured or default interval;
   * the sends are the attempts from First on, at most Allowed of them, all but the last
   * return an error and none follows a cancellation; and the error tells why it stopped.
   */
  lemma SleepLaw(c: Config, w: World, m: Msg)
    ensures var (d, first) := (SendWithRetries(c, w, m), First(c, m));
      && Rhythm(c, w, first, d.log) && Insists(w, first, d.log)
      && Sends(d.log) <= Allowed(c, m)
      && Ends(c, w, first, Allowed(c, m), d.log, d.error)
  {
    Budget(c, m);
    RetryShape(c, w, StartAttempt(c, m), StartAttempt(c, m), []);
  }
}
