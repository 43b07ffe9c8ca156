/** The per-account send limiter: a token channel refilled by a ticker, and the Send bracket around it. */
module TokenBucket {
  import opened Arithmetic
  import opened Threads

  const SECOND := 1_000_000_000
  const MILLISECOND := 1_000_000
  const MAX_RATE := 10_000
  const MAX_CAPACITY := 1000

  /** The clamp of the configuration. Zero means no limiter. */
  function ClampRate(configured: int): (rate: nat)
    ensures configured < 0 ==> rate == 0
    ensures 0 <= configured <= 10_000 ==> rate == configured
    ensures configured > 10_000 ==> rate == 10_000
  {
    if configured < 0 then 0 else if configured > MAX_RATE then MAX_RATE else configured
  }

  function Capacity(rate: nat): nat {
    if rate > MAX_CAPACITY then MAX_CAPACITY else rate
  }

  function Interval(rate: nat): nat
    requires rate > 0
  {
    var interval := SECOND / rate;
    if interval < MILLISECOND then MILLISECOND else interval
  }

  lemma DivideTwice(n: nat, r: nat, q: nat)
    requires 0 < r && q == n / r && r <= q
    ensures n / q == r
  {
    var rem := n % r;
    assert n == q * r + rem;
    assert n / q == r by { DivisionUnique(n, q, r, rem); }
  }

  lemma DivisionUnique(n: nat, q: nat, d: nat, rem: nat)
    requires q > 0 && n == q * d + rem && rem < q
    ensures n / q == d
  {
    var d' := n / q;
    assert n == q * d' + n % q;
    if d' < d {
      MulMono(q, d' + 1, d);
    } else if d' > d {
      MulMono(q, d + 1, d');
    }
  }

  lemma QuotientLarge(r: nat)
    requires 1 <= r <= 1000
    ensures SECOND / r >= MILLISECOND >= r
  {
    assert r * MILLISECOND <= SECOND;
    var q := SECOND / r;
    assert SECOND == q * r + SECOND % r;
    if q < MILLISECOND {
      MulMono(r, q + 1, MILLISECOND);
    }
  }

  lemma QuotientSmall(r: nat)
    requires 1000 <= r
    ensures SECOND / r <= MILLISECOND
  {
    var q := SECOND / r;
    assert SECOND == q * r + SECOND % r;
  }

  /**
   * For every configured rate the ticker fires as often in a second as the bucket has room
   * for: the rate, capped at 1000.
   */
  lemma TicksPerSecond(configured: int)
    requires configured > 0
    ensures var rate := ClampRate(configured);
      1_000_000_000 / Interval(rate) == Capacity(rate) == if configured <= 1000 then configured else 1000
  {
    var rate := ClampRate(configured);
    if rate <= 1000 {
      QuotientLarge(rate);
      DivideTwice(SECOND, rate, SECOND / rate);
    } else {
      QuotientSmall(rate);
    }
  }

  /** Ticks within `elapsed` nanoseconds never run ahead of the configured rate. */
  ghost predicate WithinRate(rate: nat, elapsed: nat)
    requires rate > 0
  {
    elapsed / Interval(rate) * SECOND <= rate * elapsed
  }

  lemma TicksFit(elapsed: nat, interval: nat)
    requires interval > 0
    ensures elapsed / interval * interval <= elapsed
  {
  }

  lemma ExactInterval(rate: nat, elapsed: nat)
    requires rate > 0 && rate * Interval(rate) >= SECOND
    ensures WithinRate(rate, elapsed)
  {
    var i := Interval(rate);
    var ticks := elapsed / i;
    TicksFit(elapsed, i);
    MulMono(rate, ticks * i, elapsed);
    MulMono(ticks, SECOND, rate * i);
    assert ticks * (rate * i) == rate * (ticks * i);
  }

  /** Three a second: the first tick comes a nanosecond before its time. */
  lemma ThreePerSecondGains()
    ensures !WithinRate(3, Interval(3))
  {
    assert Interval(3) == 333_333_333;
  }

  /**
   * In the long run the limiter keeps the configured rate exactly when the rate
   * divides a second evenly or has reached the 1ms ticker: otherwise the interval
   * is rounded down and the ticks gain on the rate.
   */
  lemma LongRunRateIff(rate: nat)
    requires 1 <= rate <= 10_000
    ensures (forall elapsed: nat :: WithinRate(rate, elapsed)) <==> rate >= 1000 || SECOND % rate == 0
  {
    var i := Interval(rate);
    if rate >= 1000 {
      QuotientSmall(rate);
      forall elapsed: nat ensures WithinRate(rate, elapsed) {
        ExactInterval(rate, elapsed);
      }
    } else {
      QuotientLarge(rate);
      assert SECOND == i * rate + SECOND % rate;
      if SECOND % rate == 0 {
        forall elapsed: nat ensures WithinRate(rate, elapsed) {
          ExactInterval(rate, elapsed);
        }
      } else {
        assert !WithinRate(rate, i);
      }
    }
  }

  // ---- runs of the bucket ----

  datatype Event = Tick | Take

  predicate Enabled(tokens: nat, e: Event) {
    e.Take? ==> tokens > 0
  }

  function Next(tokens: nat, capacity: nat, e: Event): nat
    requires Enabled(tokens, e)
  {
    match e
    case Tick => if tokens < capacity then tokens + 1 else tokens
    case Take => tokens - 1
  }

  /** Sends taking tokens and ticks adding them, in any order, from a full bucket. */
  ghost predicate Run(capacity: nat, ts: seq<nat>, es: seq<Event>) {
    && |ts| == |es| + 1
    && ts[0] == capacity
    && forall i | 0 <= i < |es| :: Enabled(ts[i], es[i]) && ts[i + 1] == Next(ts[i], capacity, es[i])
  }

  function IsTick(e: Event): bool {
    e.Tick?
  }

  function IsTake(e: Event): bool {
    e.Take?
  }

  lemma {:induction false} NeverOverfull(capacity: nat, ts: seq<nat>, es: seq<Event>, i: nat)
    requires Run(capacity, ts, es) && i < |ts|
    ensures ts[i] <= capacity
  {
    if i > 0 {
      NeverOverfull(capacity, ts, es, i - 1);
    }
  }

  lemma {:induction false} Conservation(capacity: nat, ts: seq<nat>, es: seq<Event>, i: nat, j: nat)
    requires Run(capacity, ts, es) && i <= j <= |es|
    ensures CountIf(es[i..j], IsTake) + ts[j] <= ts[i] + CountIf(es[i..j], IsTick)
    ensures (forall k | i <= k < j && es[k].Tick? :: ts[k] < capacity) ==>
      CountIf(es[i..j], IsTake) + ts[j] == ts[i] + CountIf(es[i..j], IsTick)
    decreases j
  {
    if i < j {
      Conservation(capacity, ts, es, i, j - 1);
      assert es[i..j] == es[i..j - 1] + [es[j - 1]];
      Pushed(es[i..j - 1], es[j - 1], IsTake);
      Pushed(es[i..j - 1], es[j - 1], IsTick);
    }
  }

  /**
   * In any segment of any run the sends let through are at most capacity plus the
   * ticks in it, and the bucket never holds more than its capacity.
   */
  lemma SegmentBound(capacity: nat, ts: seq<nat>, es: seq<Event>, i: nat, j: nat)
    requires Run(capacity, ts, es) && i <= j <= |es|
    ensures ts[j] <= capacity
    ensures CountIf(es[i..j], IsTake) <= capacity + CountIf(es[i..j], IsTick)
  {
    NeverOverfull(capacity, ts, es, i);
    NeverOverfull(capacity, ts, es, j);
    Conservation(capacity, ts, es, i, j);
  }

  // ---- the limiter and its use in Send ----

  /** What the outside world does during one Send. */
  datatype Outcome = Outcome(
    emailNil: bool,
    valid: bool,
    recipients: nat,
    size: nat,
    cancelled: bool,     // the context ends before a token arrives
    mimeFails: bool,
    acquireFails: bool,
    smtp: Smtp)

  /** How client.Send ends. */
  datatype Smtp = Delivered | Rejected | Panics

  datatype Result = Sent | Refused | Failed | Panicked

  class AccountSender {
    const limited: bool
    const capacity: nat
    const maxRecipients: nat
    const sizeLimit: nat
    var tokens: nat       // tokens in the rateLimiter channel
    var totalSent: nat
    var totalFailed: nat
    var acquired: nat     // connections taken from the pool
    var released: nat     // connections given back

    constructor (configured: int, maxRecipients: nat, sizeLimit: nat)
      ensures limited <==> configured > 0
      ensures limited ==> capacity == if configured <= 1000 then configured else 1000
      ensures tokens == capacity && totalSent == totalFailed == acquired == released == 0
      ensures this.maxRecipients == maxRecipients && this.sizeLimit == sizeLimit
    {
      var rate := ClampRate(configured);
      limited := rate > 0;
      capacity := Capacity(rate);
      this.maxRecipients := maxRecipients;
      this.sizeLimit := sizeLimit;
      totalSent, totalFailed, acquired, released := 0, 0, 0, 0;
      var prefill: nat := 0;
      for i := 0 to Capacity(rate)
        invariant prefill == i
      {
        prefill := prefill + 1;
      }
      tokens := prefill;
    }

    /** One tick of the refill goroutine: a non-blocking send. */
    method Refill()
      modifies this`tokens
      ensures tokens == Next(old(tokens), capacity, Tick)
    {
      if tokens < capacity {
        tokens := tokens + 1;
      }
    }

    /** Passing all the checks that come before the limiter. */
    predicate Admitted(o: Outcome) {
      && !o.emailNil && o.valid && o.recipients > 0
      && (maxRecipients > 0 ==> o.recipients <= maxRecipients)
      && (sizeLimit > 0 ==> o.size <= sizeLimit)
    }

    /** The call gets as far as a connection of the pool. */
    predicate Connects(o: Outcome) {
      Admitted(o) && !(limited && o.cancelled) && !o.mimeFails && !o.acquireFails
    }

    /**
     * One Send. Every call that returns an answer for an email moves exactly one counter; a
     * token is taken exactly for an admitted email whose context lasts; and the connection
     * acquired is released if and only if client.Send does not panic.
     */
    method Send(o: Outcome) returns (r: Result)
      requires limited && Admitted(o) && !o.cancelled ==> tokens > 0
      modifies this
      ensures totalSent == old(totalSent) + Bit(r == Sent)
      ensures totalFailed == old(totalFailed) + Bit(r == Failed)
      ensures r == Refused <==> o.emailNil
      ensures r == Failed <==>
        && !o.emailNil
        && (|| !o.valid || o.recipients == 0 || 0 < maxRecipients < o.recipients || 0 < sizeLimit < o.size
            || (limited && o.cancelled) || o.mimeFails || o.acquireFails || o.smtp == Rejected)
      ensures r == Sent <==> Connects(o) && o.smtp == Delivered
      ensures r == Panicked <==> Connects(o) && o.smtp == Panics
      ensures tokens == old(tokens) - Bit(limited && Admitted(o) && !o.cancelled)
      ensures acquired == old(acquired) + Bit(Connects(o))
      ensures released == old(released) + Bit(Connects(o) && r != Panicked)
    {
      if o.emailNil {
        return Refused;
      }
      if !o.valid {
        totalFailed := totalFailed + 1;
        return Failed;
      }
      if o.recipients == 0 {
        totalFailed := totalFailed + 1;
        return Failed;
      }
      if maxRecipients > 0 && o.recipients > maxRecipients {
        totalFailed := totalFailed + 1;
        return Failed;
      }
      if sizeLimit > 0 && o.size > sizeLimit {
        totalFailed := totalFailed + 1;
        return Failed;
      }
      if limited {
        if o.cancelled {
          totalFailed := totalFailed + 1;
          return Failed;
        }
        tokens := tokens - 1;
      }
      if o.mimeFails {
        totalFailed := totalFailed + 1;
        return Failed;
      }
      if o.acquireFails {
        totalFailed := totalFailed + 1;
        return Failed;
      }
      acquired := acquired + 1;
      if o.smtp == Panics {
        return Panicked;
      }
      released := released + 1;
      if o.smtp == Rejected {
        totalFailed := totalFailed + 1;
        return Failed;
      }
      totalSent := totalSent + 1;
      return Sent;
    }
  }
}
