/**
 * The SMTP connection pool as a step system.
 *
 * Every goroutine inside Acquire, Release or Close is at one location, and each
 * step is one atomic action of the source: a channel operation, an atomic add,
 * or a lock acquisition. Dial results, idle checks, context cancellation and the
 * order of steps are arbitrary.
 */
module ConnPool {
  import opened Threads

  type Conn = nat

  /** What follows a call of decrementActive. */
  datatype After = RetryPoll | RetryWait | DialError | Released | Draining

  datatype PC =
    | Out                                  // not inside the pool, or back with the caller
    | Poll                                 // Acquire, non-blocking loop
    | Wait                                 // Acquire, blocking loop
    | Check(conn: Conn, waiting: bool)     // took an idle connection, checks age and Reset
    | Dial                                 // holds a fresh token, dialing
    | Dialed(conn: Conn)                   // dialed, not yet counted
    | Holding(conn: Conn)                  // borrowed by the caller
    | RelLocked(conn: Conn, failed: bool)  // Release, read lock taken
    | RelOffer(conn: Conn)                 // Release, about to send on the idle channel
    | DecActive(after: After)              // decrementActive, first action
    | DecSem(after: After)                 // decrementActive, second action
    | CloseLocked                          // Close, write lock taken, flag set
    | Drain                                // Close, ranging over the idle channel

  datatype State = State(
    maxOpen: nat,
    maxIdle: nat,
    idle: seq<Conn>,         // idleConns
    chanClosed: bool,        // idleConns is closed
    closed: bool,            // the flag under mu
    sem: nat,                // number of tokens in sem
    active: int,             // activeConns
    threads: map<Tid, PC>,
    dialed: set<Conn>,       // history: every connection ever dialed
    shut: seq<Conn>,         // history: connections in the order they were closed
    failedDials: nat,        // history: failed dials whose decrement has run
    panicked: bool           // history: a send or close on the closed idle channel
  )

  datatype Event =
    | Enter(t: Tid)
    | TakeIdle(t: Tid)
    | SeeClosed(t: Tid)
    | Miss(t: Tid)
    | TakeToken(t: Tid)
    | Cancel(t: Tid)
    | Usable(t: Tid)
    | Unusable(t: Tid)
    | DialOk(t: Tid, conn: Conn)
    | DialErr(t: Tid)
    | Count(t: Tid)
    | Release(t: Tid, failed: bool)
    | Decide(t: Tid)
    | Offer(t: Tid)
    | Handoff(t: Tid, to: Tid)
    | SubActive(t: Tid)
    | PopSem(t: Tid)
    | Lock(t: Tid)
    | CloseChan(t: Tid)
    | DrainNext(t: Tid)
    | DrainDone(t: Tid)

  function Pc(s: State, t: Tid): PC {
    if t in s.threads then s.threads[t] else Out
  }

  function Go(s: State, t: Tid, pc: PC): State {
    s.(threads := s.threads[t := pc])
  }

  /** Goroutines inside a read-locked Release. */
  predicate Reader(pc: PC) {
    pc.RelLocked? || pc.RelOffer? || pc == DecActive(Released) || pc == DecSem(Released)
  }

  predicate Writer(pc: PC) {
    pc.CloseLocked?
  }

  predicate Unlocked(s: State) {
    Number(s, Writer) == 0
  }

  function Number(s: State, p: PC -> bool): nat {
    |At(s.threads, p)|
  }

  predicate Init(s: State) {
    1 <= s.maxOpen && s.maxIdle <= s.maxOpen && s == Empty(s.maxOpen, s.maxIdle)
  }

  function Empty(maxOpen: nat, maxIdle: nat): State {
    State(maxOpen, maxIdle, [], false, false, 0, 0, map[], {}, [], 0, false)
  }

  /** The limits of a new pool: zero takes the default, a negative idle limit means none, and idle is capped by open. */
  method Limits(maxIdleConns: int, maxOpenConns: int) returns (maxIdle: int, maxOpen: int)
    ensures 0 <= maxIdle <= maxOpen && Init(Empty(maxOpen, maxIdle))
    ensures maxOpenConns > 0 ==> maxOpen == maxOpenConns
    ensures maxOpenConns <= 0 ==> maxOpen == 20
    ensures maxIdleConns < 0 <==> maxIdle == 0
    ensures 0 < maxIdleConns <= maxOpen ==> maxIdle == maxIdleConns
    ensures maxIdleConns == 0 && 5 <= maxOpen ==> maxIdle == 5
    ensures maxIdleConns > maxOpen || (maxIdleConns == 0 && maxOpen < 5) ==> maxIdle == maxOpen
  {
    maxIdle := maxIdleConns;
    if maxIdle == 0 {
      maxIdle := 5;
    }
    if maxIdle < 0 {
      maxIdle := 0;
    }
    maxOpen := maxOpenConns;
    if maxOpen <= 0 {
      maxOpen := 20;
    }
    if maxIdle > maxOpen {
      maxIdle := maxOpen;
    }
  }

  predicate Enabled(s: State, e: Event) {
    var pc := Pc(s, e.t);
    match e
    case Enter(_) => pc.Out? && Unlocked(s) && !s.closed
    case TakeIdle(_) => (pc.Poll? || pc.Wait?) && s.idle != []
    case SeeClosed(_) => (pc.Poll? || pc.Wait?) && s.idle == [] && s.chanClosed
    case Miss(_) => pc.Poll? && s.idle == [] && !s.chanClosed
    case TakeToken(_) => pc.Wait? && s.sem < s.maxOpen
    case Cancel(_) => pc.Wait?
    case Usable(_) => pc.Check?
    case Unusable(_) => pc.Check?
    case DialOk(_, c) => pc.Dial? && c !in s.dialed
    case DialErr(_) => pc.Dial?
    case Count(_) => pc.Dialed?
    case Release(_, _) => pc.Holding? && Unlocked(s)
    case Decide(_) => pc.RelLocked?
    case Offer(_) => pc.RelOffer?
    // An unbuffered idle channel passes a connection straight to a waiting Acquire.
    case Handoff(_, to) => pc.RelOffer? && s.maxIdle == 0 && !s.chanClosed && Pc(s, to).Wait?
    case SubActive(_) => pc.DecActive?
    case PopSem(_) => pc.DecSem?
    case Lock(_) => pc.Out? && Unlocked(s) && Number(s, Reader) == 0 && !s.closed
    case CloseChan(_) => pc.CloseLocked?
    case DrainNext(_) => pc.Drain? && s.idle != []
    case DrainDone(_) => pc.Drain? && s.idle == []
  }

  function Resume(after: After): PC {
    match after
    case RetryPoll => Poll
    case RetryWait => Wait
    case DialError => Out
    case Released => Out
    case Draining => Drain
  }

  function Next(s: State, e: Event): State
    requires Enabled(s, e)
  {
    var t := e.t;
    var pc := Pc(s, t);
    match e
    case Enter(_) => Go(s, t, Poll)
    case TakeIdle(_) => Go(s, t, Check(s.idle[0], pc.Wait?)).(idle := s.idle[1..])
    case SeeClosed(_) => Go(s, t, Out)
    case Miss(_) => Go(s, t, Wait)
    case TakeToken(_) => Go(s, t, Dial).(sem := s.sem + 1)
    case Cancel(_) => Go(s, t, Out)
    case Usable(_) => Go(s, t, Holding(pc.conn))
    case Unusable(_) =>
      Go(s, t, DecActive(if pc.waiting then RetryWait else RetryPoll)).(shut := s.shut + [pc.conn])
    case DialOk(_, c) => Go(s, t, Dialed(c)).(dialed := s.dialed + {c})
    case DialErr(_) => Go(s, t, DecActive(DialError))
    case Count(_) => Go(s, t, Holding(pc.conn)).(active := s.active + 1)
    case Release(_, failed) => Go(s, t, RelLocked(pc.conn, failed))
    case Decide(_) =>
      if pc.failed || s.closed
      then Go(s, t, DecActive(Released)).(shut := s.shut + [pc.conn])
      else Go(s, t, RelOffer(pc.conn))
    case Offer(_) =>
      if s.chanClosed then s.(panicked := true)
      else if |s.idle| < s.maxIdle then Go(s, t, Out).(idle := s.idle + [pc.conn])
      else Go(s, t, DecActive(Released)).(shut := s.shut + [pc.conn])
    case Handoff(_, to) => Go(Go(s, t, Out), to, Check(pc.conn, true))
    case SubActive(_) =>
      Go(s, t, DecSem(pc.after)).(active := s.active - 1,
                                  failedDials := s.failedDials + Bit(pc.after == DialError))
    case PopSem(_) => Go(s, t, Resume(pc.after)).(sem := if s.sem > 0 then s.sem - 1 else 0)
    case Lock(_) => Go(s, t, CloseLocked).(closed := true)
    case CloseChan(_) =>
      if s.chanClosed then s.(panicked := true) else Go(s, t, Drain).(chanClosed := true)
    case DrainNext(_) =>
      Go(s, t, DecActive(Draining)).(idle := s.idle[1..], shut := s.shut + [s.idle[0]])
    case DrainDone(_) => Go(s, t, Out)
  }

  /** A run: an initial state and any finite sequence of enabled steps. */
  ghost predicate Run(ss: seq<State>, es: seq<Event>) {
    && |ss| == |es| + 1
    && Init(ss[0])
    && forall i | 0 <= i < |es| :: Enabled(ss[i], es[i]) && ss[i + 1] == Next(ss[i], es[i])
  }

  // ---- semaphore tokens and the activeConns counter ----

  /** Locations that own a semaphore token. */
  predicate Owns(pc: PC) {
    pc.Dial? || HasConn(pc) || pc.DecActive? || pc.DecSem?
  }

  /** Locations that hold a connection. */
  predicate HasConn(pc: PC) {
    pc.Check? || pc.Dialed? || pc.Holding? || pc.RelLocked? || pc.RelOffer?
  }

  /** Locations whose connection is counted in activeConns. */
  predicate Counted(pc: PC) {
    (HasConn(pc) && !pc.Dialed?) || (pc.DecActive? && pc.after != DialError)
  }

  /** Has dialed and not yet counted the connection. */
  predicate Fresh(pc: PC) {
    pc.Dialed?
  }

  /** Has closed a counted connection and not yet uncounted it. */
  predicate Uncounting(pc: PC) {
    pc.DecActive? && pc.after != DialError
  }

  ghost predicate Tokens(s: State) {
    && s.sem == |s.idle| + Number(s, Owns)
    && s.sem <= s.maxOpen
    && |s.idle| <= s.maxIdle
  }

  ghost predicate ActiveLaw(s: State) {
    s.active == |s.idle| + Number(s, Counted) - s.failedDials
  }

  /** How a step changes the number of goroutines at locations `p`. */
  lemma Moved(s: State, e: Event, p: PC -> bool)
    requires Enabled(s, e)
    ensures !e.Handoff? ==>
      Number(Next(s, e), p) == Number(s, p) - Bit(e.t in s.threads && p(Pc(s, e.t))) + Bit(p(Pc(Next(s, e), e.t)))
    ensures e.Handoff? ==>
      Number(Next(s, e), p) == Number(s, p) - Bit(p(Pc(s, e.t))) + Bit(p(Out))
                               - Bit(p(Wait)) + Bit(p(Check(Pc(s, e.t).conn, true)))
    ensures e.t in s.threads && p(Pc(s, e.t)) ==> Number(s, p) > 0
  {
    if e.Handoff? {
      Move(s.threads, e.t, Out, p);
      Move(s.threads[e.t := Out], e.to, Check(Pc(s, e.t).conn, true), p);
    } else {
      OneMoves(s, e);
      Move(s.threads, e.t, Pc(Next(s, e), e.t), p);
    }
    if e.t in s.threads && p(Pc(s, e.t)) {
      assert e.t in At(s.threads, p);
    }
  }

  lemma OneMoves(s: State, e: Event)
    requires Enabled(s, e) && !e.Handoff?
    ensures Next(s, e).threads == s.threads[e.t := Pc(Next(s, e), e.t)] || Next(s, e).threads == s.threads
    ensures Next(s, e).threads == s.threads ==> e.t in s.threads
  {
  }

  /** The steps of Acquire that come before a decrement. */
  predicate Acquiring(e: Event) {
    || e.Enter? || e.TakeIdle? || e.SeeClosed? || e.Miss? || e.TakeToken? || e.Cancel?
    || e.Usable? || e.Unusable? || e.DialOk? || e.DialErr? || e.Count?
  }

  lemma AcquireTokens(s: State, e: Event)
    requires Tokens(s) && Enabled(s, e) && Acquiring(e)
    ensures Tokens(Next(s, e))
  {
    Moved(s, e, Owns);
  }

  lemma OtherTokens(s: State, e: Event)
    requires Tokens(s) && Enabled(s, e) && !Acquiring(e)
    ensures Tokens(Next(s, e))
    ensures e.PopSem? ==> s.sem > 0
  {
    Moved(s, e, Owns);
  }

  lemma StepTokens(s: State, e: Event)
    requires Tokens(s) && Enabled(s, e)
    ensures Tokens(Next(s, e))
    ensures e.PopSem? ==> s.sem > 0
  {
    if Acquiring(e) {
      AcquireTokens(s, e);
    } else {
      OtherTokens(s, e);
    }
  }

  lemma AcquireActive(s: State, e: Event)
    requires ActiveLaw(s) && Enabled(s, e) && Acquiring(e)
    ensures ActiveLaw(Next(s, e))
  {
    Moved(s, e, Counted);
  }

  lemma OtherActive(s: State, e: Event)
    requires ActiveLaw(s) && Enabled(s, e) && !Acquiring(e)
    ensures ActiveLaw(Next(s, e))
  {
    Moved(s, e, Counted);
  }

  lemma StepActive(s: State, e: Event)
    requires ActiveLaw(s) && Enabled(s, e)
    ensures ActiveLaw(Next(s, e))
  {
    if Acquiring(e) {
      AcquireActive(s, e);
    } else {
      OtherActive(s, e);
    }
  }

  // ---- the lock, the closed flag and the closed channel ----

  predicate Offering(pc: PC) {
    pc.RelOffer?
  }

  /** Close is still emptying the idle channel. */
  predicate Drains(pc: PC) {
    pc.Drain? || pc == DecActive(Draining) || pc == DecSem(Draining)
  }

  /** The write lock excludes readers, and is held exactly while only the flag is set. */
  ghost predicate Locking(s: State) {
    && (s.chanClosed ==> s.closed)
    && Number(s, Writer) == Bit(s.closed && !s.chanClosed)
    && (Number(s, Writer) > 0 ==> Number(s, Reader) == 0)
  }

  /** No Release reaches the send once the pool is closed, so nothing is sent on a closed channel. */
  ghost predicate SendSafe(s: State) {
    !s.panicked && (s.closed ==> Number(s, Offering) == 0)
  }

  /** Whatever is left in the closed channel still has Close draining it. */
  ghost predicate Emptied(s: State) {
    s.chanClosed && s.idle != [] ==> Number(s, Drains) > 0
  }

  lemma StepLocking(s: State, e: Event)
    requires Locking(s) && Enabled(s, e)
    ensures Locking(Next(s, e))
  {
    Moved(s, e, Writer);
    Moved(s, e, Reader);
  }

  lemma OfferingReads(s: State)
    ensures Number(s, Offering) <= Number(s, Reader)
  {
    Smaller(At(s.threads, Offering), At(s.threads, Reader));
  }

  lemma StepSendSafe(s: State, e: Event)
    requires SendSafe(s) && Locking(s) && Enabled(s, e)
    ensures SendSafe(Next(s, e))
  {
    Moved(s, e, Offering);
    Moved(s, e, Writer);
    OfferingReads(s);
  }

  lemma StepEmptied(s: State, e: Event)
    requires Emptied(s) && SendSafe(s) && Locking(s) && Enabled(s, e)
    ensures Emptied(Next(s, e))
  {
    Moved(s, e, Drains);
    Moved(s, e, Offering);
  }

  // ---- where every connection is ----

  predicate Has(pc: PC, c: Conn) {
    HasConn(pc) && pc.conn == c
  }

  function Holder(c: Conn): PC -> bool {
    pc => Has(pc, c)
  }

  /** How many times `c` is idle, closed, or held by a goroutine. */
  ghost function Places(s: State, c: Conn): nat {
    Occurs(s.idle, c) + Occurs(s.shut, c) + Number(s, Holder(c))
  }

  /** A dialed connection is in exactly one place, and was closed at most once. */
  ghost predicate Placed(s: State) {
    forall c :: Places(s, c) == Bit(c in s.dialed)
  }

  /** How often `c` occurs in `xs`. */
  function Occurs(xs: seq<Conn>, c: Conn): nat {
    CountIf(xs, Is(c))
  }

  function Is(c: Conn): Conn -> bool {
    x => x == c
  }

  lemma Appended(xs: seq<Conn>, x: Conn, c: Conn)
    ensures Occurs(xs + [x], c) == Occurs(xs, c) + Bit(x == c)
  {
    Pushed(xs, x, Is(c));
  }

  lemma FromIdlePlaces(s: State, e: Event, c: Conn)
    requires Enabled(s, e) && (e.TakeIdle? || e.DrainNext?)
    ensures Places(Next(s, e), c) == Places(s, c)
  {
    Moved(s, e, Holder(c));
    Popped(s.idle, Is(c));
    Appended(s.shut, s.idle[0], c);
  }

  lemma ClosingPlaces(s: State, e: Event, c: Conn)
    requires Enabled(s, e) && (e.Unusable? || e.Decide? || e.Offer?)
    ensures Places(Next(s, e), c) == Places(s, c)
  {
    var conn := Pc(s, e.t).conn;
    Moved(s, e, Holder(c));
    if Next(s, e).shut != s.shut {
      Appended(s.shut, conn, c);
    } else if Next(s, e).idle != s.idle {
      Appended(s.idle, conn, c);
    }
  }

  lemma DialPlaces(s: State, e: Event, c: Conn)
    requires Enabled(s, e) && Acquiring(e) && !(e.TakeIdle? || e.Unusable?)
    requires Places(s, c) == Bit(c in s.dialed)
    ensures Places(Next(s, e), c) == Bit(c in Next(s, e).dialed)
  {
    Moved(s, e, Holder(c));
  }

  lemma OtherPlaces(s: State, e: Event, c: Conn)
    requires Enabled(s, e) && !Acquiring(e) && !(e.DrainNext? || e.Decide? || e.Offer?)
    ensures Places(Next(s, e), c) == Places(s, c) && Next(s, e).dialed == s.dialed
  {
    Moved(s, e, Holder(c));
  }

  lemma StepPlaced(s: State, e: Event)
    requires Placed(s) && Enabled(s, e)
    ensures Placed(Next(s, e))
  {
    forall c
      ensures Places(Next(s, e), c) == Bit(c in Next(s, e).dialed)
    {
      assert Places(s, c) == Bit(c in s.dialed);
      if e.TakeIdle? || e.DrainNext? {
        FromIdlePlaces(s, e, c);
      } else if e.Unusable? || e.Decide? || e.Offer? {
        ClosingPlaces(s, e, c);
      } else if Acquiring(e) {
        DialPlaces(s, e, c);
      } else {
        OtherPlaces(s, e, c);
      }
    }
  }

  // ---- every run ----

  ghost predicate Inv(s: State) {
    Tokens(s) && ActiveLaw(s) && Locking(s) && SendSafe(s) && Emptied(s) && Placed(s)
  }

  lemma InitInv(s: State)
    requires Init(s)
    ensures Inv(s)
  {
    forall p: PC -> bool ensures Number(s, p) == 0 {
      assert At(s.threads, p) == {};
    }
  }

  lemma StepInv(s: State, e: Event)
    requires Inv(s) && Enabled(s, e)
    ensures Inv(Next(s, e))
  {
    StepTokens(s, e);
    StepActive(s, e);
    StepLocking(s, e);
    StepSendSafe(s, e);
    StepEmptied(s, e);
    StepPlaced(s, e);
  }

  lemma {:induction false} RunInv(ss: seq<State>, es: seq<Event>, i: nat)
    requires Run(ss, es) && i < |ss|
    ensures Inv(ss[i])
  {
    if i == 0 {
      InitInv(ss[0]);
    } else {
      RunInv(ss, es, i - 1);
      StepInv(ss[i - 1], es[i - 1]);
    }
  }

  /**
   * In every reachable state each semaphore token has one owner: an idle
   * connection or one goroutine. There are never more than maxOpen, and
   * decrementActive always finds the token it gives back.
   */
  lemma TokensOwned(ss: seq<State>, es: seq<Event>, i: nat)
    requires Run(ss, es) && i < |ss|
    ensures ss[i].sem == |ss[i].idle| + Number(ss[i], Owns) <= ss[i].maxOpen
    ensures i < |es| && es[i].PopSem? ==> ss[i].sem > 0 && ss[i + 1].sem == ss[i].sem - 1
  {
    RunInv(ss, es, i);
    if i < |es| {
      StepTokens(ss[i], es[i]);
    }
  }

  /** Goroutine `t` waits in Acquire and only its context can let it go. */
  ghost predicate Blocked(s: State, t: Tid) {
    && Pc(s, t).Wait?
    && !Enabled(s, TakeToken(t)) && !Enabled(s, TakeIdle(t)) && !Enabled(s, SeeClosed(t))
  }

  /** An Acquire is blocked only when all maxOpen tokens are in the hands of goroutines. */
  lemma BlockedMeansExhausted(ss: seq<State>, es: seq<Event>, i: nat, t: Tid)
    requires Run(ss, es) && i < |ss| && Blocked(ss[i], t)
    ensures Number(ss[i], Owns) == ss[i].maxOpen && ss[i].idle == [] && !ss[i].chanClosed
  {
    RunInv(ss, es, i);
  }

  /**
   * In every reachable state each dialed connection is either idle, held by
   * exactly one goroutine, or closed, never two of these; it was closed at most
   * once; and nothing was sent on, nor a second close done to, a closed channel.
   */
  lemma OnePlaceEach(ss: seq<State>, es: seq<Event>, i: nat, c: Conn)
    requires Run(ss, es) && i < |ss|
    ensures Occurs(ss[i].idle, c) + Occurs(ss[i].shut, c) + Number(ss[i], Holder(c)) == Bit(c in ss[i].dialed)
    ensures !ss[i].panicked
  {
    RunInv(ss, es, i);
    assert Places(ss[i], c) == Bit(c in ss[i].dialed);
  }

  /** Every goroutine is out of the pool and no connection is borrowed. */
  ghost predicate Quiescent(s: State) {
    forall t | t in s.threads :: s.threads[t].Out?
  }

  lemma NobodyInside(s: State, p: PC -> bool)
    requires Quiescent(s) && !p(Out)
    ensures Number(s, p) == 0
  {
    assert At(s.threads, p) == {};
  }

  /** After Close, once borrowers and dials are done, every connection is closed and every token is back. */
  lemma ClosedAndQuiet(ss: seq<State>, es: seq<Event>, i: nat)
    requires Run(ss, es) && i < |ss| && ss[i].closed && Quiescent(ss[i])
    ensures ss[i].chanClosed && ss[i].idle == [] && ss[i].sem == 0
    ensures forall c :: Occurs(ss[i].shut, c) == Bit(c in ss[i].dialed)
    ensures ss[i].active + ss[i].failedDials == 0
  {
    var s := ss[i];
    RunInv(ss, es, i);
    NobodyInside(s, Writer);
    NobodyInside(s, Drains);
    NobodyInside(s, Owns);
    NobodyInside(s, Counted);
    forall c ensures Occurs(s.shut, c) == Bit(c in s.dialed) {
      NobodyInside(s, Holder(c));
      assert Places(s, c) == Bit(c in s.dialed);
    }
  }

  /** No goroutine is between two actions: all are out or hold a borrowed connection. */
  ghost predicate Settled(s: State) {
    forall t | t in s.threads :: s.threads[t].Out? || s.threads[t].Holding?
  }

  /** Counted connections are those held, but for the fresh ones, and those closed and not yet uncounted. */
  lemma CountedSplit(s: State)
    ensures Number(s, Counted) + Number(s, Fresh) == Number(s, HasConn) + Number(s, Uncounting)
  {
    var a, b, c, d := At(s.threads, Counted), At(s.threads, Fresh), At(s.threads, HasConn), At(s.threads, Uncounting);
    assert a + b == c + d && a * b == {} == c * d;
    assert |a + b| == |a| + |b| && |c + d| == |c| + |d|;
  }

  /**
   * In every reachable state activeConns is the number of open connections, less the
   * fresh ones and the failed dials, plus those closed and not yet uncounted. It is the
   * number of open ones if and only if these balance; between actions, if and only if no
   * dial has failed: a failed dial decrements a counter it never incremented.
   */
  lemma ActiveIsOpenIff(ss: seq<State>, es: seq<Event>, i: nat)
    requires Run(ss, es) && i < |ss|
    ensures var s := ss[i]; var open := |s.idle| + Number(s, HasConn);
      && s.active == open - Number(s, Fresh) + Number(s, Uncounting) - s.failedDials
      && (s.active == open <==> Number(s, Fresh) + s.failedDials == Number(s, Uncounting))
      && (Settled(s) ==> (s.active == open <==> s.failedDials == 0))
  {
    RunInv(ss, es, i);
    CountedSplit(ss[i]);
    if Settled(ss[i]) {
      assert At(ss[i].threads, Fresh) == {} == At(ss[i].threads, Uncounting);
    }
  }

  lemma Extend(ss: seq<State>, es: seq<Event>, e: Event) returns (ss': seq<State>, es': seq<Event>)
    requires Run(ss, es) && Enabled(ss[|es|], e)
    ensures Run(ss', es') && ss'[|es'|] == Next(ss[|es|], e)
  {
    ss', es' := ss + [Next(ss[|es|], e)], es + [e];
  }

  /** A goroutine on a fresh pool has its token and dials. */
  lemma FirstDial(maxOpen: nat, maxIdle: nat) returns (ss: seq<State>, es: seq<Event>)
    requires 1 <= maxOpen && maxIdle <= maxOpen
    ensures Run(ss, es) && ss[|es|] == Empty(maxOpen, maxIdle).(sem := 1, threads := map[0 := Dial])
  {
    ss, es := [Empty(maxOpen, maxIdle)], [];
    assert Number(ss[0], Writer) == 0 by { assert At(ss[0].threads, Writer) == {}; }
    ss, es := Extend(ss, es, Enter(0));
    ss, es := Extend(ss, es, Miss(0));
    ss, es := Extend(ss, es, TakeToken(0));
  }

  /** One failed dial on a fresh pool leaves activeConns at -1 with nothing open. */
  lemma FailedDialGoesNegative(maxOpen: nat, maxIdle: nat) returns (ss: seq<State>, es: seq<Event>)
    requires 1 <= maxOpen && maxIdle <= maxOpen
    ensures Run(ss, es) && Quiescent(ss[|es|]) && ss[|es|].dialed == {} && ss[|es|].active == -1
  {
    ss, es := FirstDial(maxOpen, maxIdle);
    ss, es := Extend(ss, es, DialErr(0));
    ss, es := Extend(ss, es, SubActive(0));
    ss, es := Extend(ss, es, PopSem(0));
  }
}
