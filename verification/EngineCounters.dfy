/** The engine's atomic counters under any number of concurrent processMessage calls. */
module EngineCounters {
  import opened Threads

  datatype PC =
    | Out
    | Entered       // inFlight added
    | Working       // totalReceived added
    | Retrying      // a Send returned an error, totalRetried not yet added
    | Routing       // totalFailed added, totalDeadLetter not yet
    | Leaving       // outcome counted, inFlight not yet subtracted

  datatype State = State(
    inFlight: int,
    received: nat,
    success: nat,
    failed: nat,
    retried: nat,
    deadLetter: nat,
    threads: map<Tid, PC>,
    empties: nat,       // history: empty or nil messages
    failedSends: nat)   // history: Send calls that returned an error

  datatype Event =
    | Enter(t: Tid)
    | Receive(t: Tid)
    | FailEmpty(t: Tid)
    | SendError(t: Tid)
    | AddRetried(t: Tid)
    | Succeed(t: Tid)
    | Fail(t: Tid)
    | AddDeadLetter(t: Tid)
    | Leave(t: Tid)

  function Pc(s: State, t: Tid): PC {
    if t in s.threads then s.threads[t] else Out
  }

  function Source(e: Event): PC {
    match e
    case Enter(_) => Out
    case Receive(_) => Entered
    case FailEmpty(_) => Working
    case SendError(_) => Working
    case AddRetried(_) => Retrying
    case Succeed(_) => Working
    case Fail(_) => Working
    case AddDeadLetter(_) => Routing
    case Leave(_) => Leaving
  }

  function Target(e: Event): PC {
    match e
    case Enter(_) => Entered
    case Receive(_) => Working
    case FailEmpty(_) => Leaving
    case SendError(_) => Retrying
    case AddRetried(_) => Working
    case Succeed(_) => Leaving
    case Fail(_) => Routing
    case AddDeadLetter(_) => Leaving
    case Leave(_) => Out
  }

  predicate Enabled(s: State, e: Event) {
    Pc(s, e.t) == Source(e)
  }

  function Next(s: State, e: Event): State {
    var s' := s.(threads := s.threads[e.t := Target(e)]);
    match e
    case Enter(_) => s'.(inFlight := s.inFlight + 1)
    case Receive(_) => s'.(received := s.received + 1)
    case FailEmpty(_) => s'.(failed := s.failed + 1, empties := s.empties + 1)
    case SendError(_) => s'.(failedSends := s.failedSends + 1)
    case AddRetried(_) => s'.(retried := s.retried + 1)
    case Succeed(_) => s'.(success := s.success + 1)
    case Fail(_) => s'.(failed := s.failed + 1)
    case AddDeadLetter(_) => s'.(deadLetter := s.deadLetter + 1)
    case Leave(_) => s'.(inFlight := s.inFlight - 1)
  }

  ghost predicate Run(ss: seq<State>, es: seq<Event>) {
    && |ss| == |es| + 1
    && ss[0] == State(0, 0, 0, 0, 0, 0, map[], 0, 0)
    && forall i | 0 <= i < |es| :: Enabled(ss[i], es[i]) && ss[i + 1] == Next(ss[i], es[i])
  }

  predicate Inside(pc: PC) {
    !pc.Out?
  }

  predicate Undecided(pc: PC) {
    pc.Working? || pc.Retrying?
  }

  predicate AtRouting(pc: PC) {
    pc.Routing?
  }

  predicate AtRetrying(pc: PC) {
    pc.Retrying?
  }

  function Number(s: State, p: PC -> bool): nat {
    |At(s.threads, p)|
  }

  ghost predicate Inv(s: State) {
    && s.inFlight == Number(s, Inside)
    && s.received == s.success + s.failed + Number(s, Undecided)
    && s.failed == s.deadLetter + s.empties + Number(s, AtRouting)
    && s.failedSends == s.retried + Number(s, AtRetrying)
  }

  lemma StepInv(s: State, e: Event)
    requires Inv(s) && Enabled(s, e)
    ensures Inv(Next(s, e))
  {
    Move(s.threads, e.t, Target(e), Inside);
    Move(s.threads, e.t, Target(e), Undecided);
    Move(s.threads, e.t, Target(e), AtRouting);
    Move(s.threads, e.t, Target(e), AtRetrying);
  }

  lemma {:induction false} RunInv(ss: seq<State>, es: seq<Event>, i: nat)
    requires Run(ss, es) && i < |ss|
    ensures Inv(ss[i])
  {
    if i == 0 {
      forall p: PC -> bool ensures Number(ss[0], p) == 0 {
        assert At(ss[0].threads, p) == {};
      }
    } else {
      RunInv(ss, es, i - 1);
      StepInv(ss[i - 1], es[i - 1]);
    }
  }

  /**
   * At every moment of every interleaving, decided messages are at most the received
   * ones, and received ones at most decided plus in flight. When no call is active,
   * nothing is in flight, received is success plus failed, every failure but an empty
   * message was dead-lettered, and totalRetried is the number of failed sends.
   */
  lemma CountersConsistent(ss: seq<State>, es: seq<Event>, i: nat)
    requires Run(ss, es) && i < |ss|
    ensures var s := ss[i];
      && s.success + s.failed <= s.received <= s.success + s.failed + s.inFlight
      && ((forall t | t in s.threads :: s.threads[t].Out?) ==>
            && s.inFlight == 0
            && s.received == s.success + s.failed
            && s.failed == s.deadLetter + s.empties
            && s.retried == s.failedSends)
  {
    var s := ss[i];
    RunInv(ss, es, i);
    Smaller(At(s.threads, Undecided), At(s.threads, Inside));
    if forall t | t in s.threads :: s.threads[t].Out? {
      assert At(s.threads, Inside) == {};
      assert At(s.threads, Undecided) == {};
      assert At(s.threads, AtRouting) == {};
      assert At(s.threads, AtRetrying) == {};
    }
  }
}
