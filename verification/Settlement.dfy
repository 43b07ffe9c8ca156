/** Settlement of one message (Ack and Nack) by any number of concurrent callers. */
module Settlement {
  import opened Options
  import opened Threads
  import M = Message

  /** A caller is outside, inside the callback, or about to roll the flag back. */
  datatype PC = Out | Running | RollingBack

  datatype State = State(
    flag: bool,
    hasAck: bool,
    hasNack: bool,
    threads: map<Tid, PC>,
    calls: nat,       // history: callbacks started
    successes: nat,   // history: callbacks that succeeded
    failures: nat)    // history: callbacks whose failure was rolled back

  datatype Event =
    | Begin(t: Tid, nack: bool)    // the locked test-and-set
    | Finish(t: Tid, works: bool)  // the callback returns
    | Rollback(t: Tid)             // the locked reset

  function Pc(s: State, t: Tid): PC {
    if t in s.threads then s.threads[t] else Out
  }

  predicate Installed(s: State, nack: bool) {
    if nack then s.hasNack else s.hasAck
  }

  predicate Enabled(s: State, e: Event) {
    match e
    case Begin(t, _) => Pc(s, t).Out?
    case Finish(t, _) => Pc(s, t).Running?
    case Rollback(t) => Pc(s, t).RollingBack?
  }

  function Next(s: State, e: Event): State
    requires Enabled(s, e)
  {
    match e
    case Begin(t, nack) =>
      if s.flag || !Installed(s, nack) then s
      else s.(flag := true, calls := s.calls + 1, threads := s.threads[t := Running])
    case Finish(t, works) =>
      if works then s.(successes := s.successes + 1, threads := s.threads[t := Out])
      else s.(threads := s.threads[t := RollingBack])
    case Rollback(t) =>
      s.(flag := false, failures := s.failures + 1, threads := s.threads[t := Out])
  }

  ghost predicate Run(ss: seq<State>, es: seq<Event>) {
    && |ss| == |es| + 1
    && ss[0] == State(false, ss[0].hasAck, ss[0].hasNack, map[], 0, 0, 0)
    && forall i | 0 <= i < |es| :: Enabled(ss[i], es[i]) && ss[i + 1] == Next(ss[i], es[i])
  }

  predicate InCallback(pc: PC) {
    pc.Running?
  }

  predicate Busy(pc: PC) {
    !pc.Out?
  }

  function Number(s: State, p: PC -> bool): nat {
    |At(s.threads, p)|
  }

  /** The flag is one bit shared by the caller at work and the one success there can be. */
  ghost predicate Inv(s: State) {
    && Number(s, Busy) + s.successes == Bit(s.flag)
    && s.calls == s.successes + s.failures + Number(s, Busy)
  }

  lemma StepInv(s: State, e: Event)
    requires Inv(s) && Enabled(s, e)
    ensures Inv(Next(s, e))
  {
    Move(s.threads, e.t, Pc(Next(s, e), e.t), Busy);
  }

  lemma {:induction false} RunInv(ss: seq<State>, es: seq<Event>, i: nat)
    requires Run(ss, es) && i < |ss|
    ensures Inv(ss[i])
  {
    if i == 0 {
      assert At(ss[0].threads, Busy) == {};
    } else {
      RunInv(ss, es, i - 1);
      StepInv(ss[i - 1], es[i - 1]);
    }
  }

  /**
   * Whatever Ack and Nack callers do: at most one callback runs at a time, at
   * most one ever succeeds, and the flag is set exactly while a caller is
   * between its test-and-set and its return, or for good after the success.
   */
  lemma SettledOnce(ss: seq<State>, es: seq<Event>, i: nat)
    requires Run(ss, es) && i < |ss|
    ensures Number(ss[i], InCallback) <= 1
    ensures ss[i].successes <= 1
    ensures ss[i].flag <==> (Number(ss[i], Busy) == 1 || ss[i].successes == 1)
    ensures !(Number(ss[i], Busy) == 1 && ss[i].successes == 1)
  {
    RunInv(ss, es, i);
    Smaller(At(ss[i].threads, InCallback), At(ss[i].threads, Busy));
  }

  /** Once a callback has succeeded no further callback ever starts. */
  lemma {:induction false} SuccessIsFinal(ss: seq<State>, es: seq<Event>, i: nat, j: nat)
    requires Run(ss, es) && i <= j < |ss| && ss[i].successes == 1
    ensures ss[j].flag && ss[j].successes == 1 && ss[j].calls == ss[i].calls
    decreases j - i
  {
    RunInv(ss, es, i);
    if i < j {
      assert es[i].t !in At(ss[i].threads, Busy);
      SuccessIsFinal(ss, es, i + 1, j);
    }
  }

  /** Who gets nil without running a callback: the flag was already set. */
  predicate EarlyNil(s: State, e: Event) {
    e.Begin? && s.flag
  }

  /**
   * An Ack or Nack that returns nil early guarantees a settled message exactly
   * when no other callback is in progress at that moment.
   */
  lemma EarlyNilIsSettledIff(ss: seq<State>, es: seq<Event>, i: nat)
    requires Run(ss, es) && i < |es| && EarlyNil(ss[i], es[i])
    ensures ss[i].successes == 1 <==> Number(ss[i], Busy) == 0
  {
    RunInv(ss, es, i);
  }

  /** Two callers race, the callback fails: one got nil, yet nobody settled the message. */
  lemma EarlyNilCanBeWrong() returns (ss: seq<State>, es: seq<Event>)
    ensures Run(ss, es) && |es| == 4 && EarlyNil(ss[1], es[1])
    ensures !ss[4].flag && ss[4].successes == 0 && Number(ss[4], Busy) == 0
  {
    var s := State(false, true, true, map[], 0, 0, 0);
    es := [Begin(0, false), Begin(1, false), Finish(0, false), Rollback(0)];
    ss := [s,
           s.(flag := true, calls := 1, threads := map[0 := Running]),
           s.(flag := true, calls := 1, threads := map[0 := Running]),
           s.(flag := true, calls := 1, threads := map[0 := RollingBack]),
           s.(calls := 1, failures := 1, threads := map[0 := Out])];
    assert At(ss[4].threads, Busy) == {};
  }

  /** What a step that ends a call returns to the caller; None for a step inside a call. */
  function Answer(s: State, e: Event): Option<M.Reply>
    requires Enabled(s, e)
  {
    match e
    case Begin(_, nack) =>
      if s.flag then Some(M.Nil) else if !Installed(s, nack) then Some(M.NotSupported) else None
    case Finish(_, works) => if works then Some(M.Nil) else None
    case Rollback(_) => Some(M.CallbackError)
  }

  /** An undisturbed call in the step system is the sequential Ack or Nack: the same flag and the same reply. */
  lemma UndisturbedCall(s: State, t: Tid, nack: bool, works: bool)
    requires Inv(s) && Number(s, Busy) == 0
    ensures Enabled(s, Begin(t, nack))
    ensures
      var s1, r1 := Next(s, Begin(t, nack)), Answer(s, Begin(t, nack));
      var want := M.Settle(s.flag, if nack then s.hasNack else s.hasAck, works);
      if r1.Some? then (s1.flag, r1.value) == want
      else
        Enabled(s1, Finish(t, works)) &&
        var s2, r2 := Next(s1, Finish(t, works)), Answer(s1, Finish(t, works));
        if r2.Some? then (s2.flag, r2.value) == want
        else
          Enabled(s2, Rollback(t)) &&
          (Next(s2, Rollback(t)).flag, Answer(s2, Rollback(t))) == (want.0, Some(want.1))
  {
    assert t !in At(s.threads, Busy);
  }
}
