/**
 * The engine's lifecycle: Start and Stop (called one at a time) against the
 * consumer goroutines they launch, which may outlive a Stop that timed out.
 */
module Lifecycle {
  import opened Threads

  datatype EngineState = Stopped | Starting | Running | Stopping

  /** The API call in progress, by the action it performs next. */
  datatype Call =
    | NoCall
    | StartObtain               // Start: state set to Starting, asks the queue for a consumer
    | StartStore                // Start: has the consumer, stores Running
    | StartLaunch               // Start: wg.Add and go
    | StopLoad                  // Stop: loads the state
    | StopCas(seen: EngineState) // Stop: compare-and-swap to Stopping
    | StopCancel                // Stop: calls cancelFunc
    | StopWait                  // Stop: select on the wait group or the context
    | StopDone                  // Stop: drained, stores Stopped
    | StopTimedOut              // Stop: context done, stores Stopped

  /**
   * A consumer goroutine: live until its deferred store of Stopped, past it, or gone. The
   * stretch from the return of Consume to that store counts as live.
   */
  datatype PC = Live | Exiting | Gone

  datatype State = State(
    state: EngineState,
    wg: int,
    call: Call,
    consumers: map<Tid, PC>,  // numbered in launch order
    launched: nat,            // how many consumers were launched
    cancels: nat,             // 1 + the consumer that cancelFunc cancels, 0 before the first Start
    cancelled: set<Tid>,
    timeouts: nat)            // history: Stop calls that timed out

  datatype Event =
    | CallStart
    | Obtain(ok: bool)
    | StoreRunning
    | Launch
    | CallStop
    | Load
    | Cas
    | CancelRun
    | Drained
    | Timeout
    | StoreStopped
    | Exit(t: Tid)
    | WgDone(t: Tid)

  predicate IsAt(s: State, t: Tid, pc: PC) {
    t in s.consumers && s.consumers[t] == pc
  }

  predicate Enabled(s: State, e: Event) {
    match e
    case CallStart => s.call.NoCall?
    case Obtain(_) => s.call.StartObtain?
    case StoreRunning => s.call.StartStore?
    case Launch => s.call.StartLaunch?
    case CallStop => s.call.NoCall?
    case Load => s.call.StopLoad?
    case Cas => s.call.StopCas?
    case CancelRun => s.call.StopCancel?
    case Drained => s.call.StopWait? && s.wg == 0
    case Timeout => s.call.StopWait?
    case StoreStopped => s.call.StopDone? || s.call.StopTimedOut?
    case Exit(t) => IsAt(s, t, Live)
    case WgDone(t) => IsAt(s, t, Exiting)
  }

  function Next(s: State, e: Event): State
    requires Enabled(s, e)
  {
    match e
    case CallStart =>
      if s.state == Stopped then s.(state := Starting, call := StartObtain) else s
    case Obtain(ok) =>
      if ok then s.(call := StartStore, cancels := s.launched + 1)
      else s.(state := Stopped, call := NoCall)
    case StoreRunning => s.(state := Running, call := StartLaunch)
    case Launch =>
      s.(wg := s.wg + 1, consumers := s.consumers[s.launched := Live], launched := s.launched + 1, call := NoCall)
    case CallStop => s.(call := StopLoad)
    case Load => if s.state == Stopped then s.(call := NoCall) else s.(call := StopCas(s.state))
    case Cas =>
      if s.state == s.call.seen then s.(state := Stopping, call := StopCancel) else s.(call := StopLoad)
    case CancelRun =>
      s.(call := StopWait, cancelled := if s.cancels > 0 then s.cancelled + {s.cancels - 1} else s.cancelled)
    case Drained => s.(call := StopDone)
    case Timeout => s.(call := StopTimedOut)
    case StoreStopped => s.(state := Stopped, call := NoCall, timeouts := s.timeouts + Bit(s.call.StopTimedOut?))
    case Exit(t) => s.(state := Stopped, consumers := s.consumers[t := Exiting])
    case WgDone(t) => s.(wg := s.wg - 1, consumers := s.consumers[t := Gone])
  }

  const INITIAL := State(Stopped, 0, NoCall, map[], 0, 0, {}, 0)

  ghost predicate Run(ss: seq<State>, es: seq<Event>) {
    && |ss| == |es| + 1
    && ss[0] == INITIAL
    && forall i | 0 <= i < |es| :: Enabled(ss[i], es[i]) && ss[i + 1] == Next(ss[i], es[i])
  }

  predicate InLoop(pc: PC) {
    pc.Live?
  }

  predicate Counted(pc: PC) {
    !pc.Gone?
  }

  function LiveLoops(s: State): nat {
    |At(s.consumers, InLoop)|
  }

  predicate StartInProgress(s: State) {
    s.call.StartObtain? || s.call.StartStore? || s.call.StartLaunch?
  }

  /** The consumer of the latest launch. */
  predicate LatestLives(s: State) {
    s.launched > 0 && IsAt(s, s.launched - 1, Live)
  }

  /** Which states each call can see. */
  predicate StateLaw(s: State) {
    match s.call
    case NoCall => s.state == Stopped || s.state == Running
    case StartObtain => s.state == Starting || s.state == Stopped
    case StartStore => s.state == Starting || s.state == Stopped
    case StartLaunch => s.state == Running || s.state == Stopped
    case StopLoad => s.state == Stopped || s.state == Running
    case StopCas(seen) => seen == Running && (s.state == Stopped || s.state == Running)
    case StopCancel => s.state == Stopped || s.state == Stopping
    case StopWait => s.state == Stopped || s.state == Stopping
    case StopDone => s.state == Stopped || s.state == Stopping
    case StopTimedOut => s.state == Stopped || s.state == Stopping
  }

  /**
   * Live loops against timed-out Stops. A Stopped state leaves room for one launch;
   * once Start is about to launch, a stale consumer's store of Stopped has used it up.
   */
  ghost predicate LoopLaw(s: State) {
    && (StartInProgress(s) && !s.call.StartLaunch? ==> LiveLoops(s) <= s.timeouts)
    && (s.call.StartLaunch? ==> LiveLoops(s) + Bit(s.state == Stopped) <= s.timeouts)
    && (!StartInProgress(s) ==> LiveLoops(s) <= s.timeouts + Bit(s.state != Stopped))
    && (s.call.StopDone? ==> LiveLoops(s) == 0)
    && s.wg == |At(s.consumers, Counted)|
  }

  /** Running is only seen while the latest consumer is being launched or lives. */
  ghost predicate RunningLaw(s: State) {
    && (forall t | t in s.consumers :: t < s.launched)
    && (s.state == Running ==> s.call.StartLaunch? || LatestLives(s))
  }

  /** cancelFunc belongs to the latest consumer, or to the one Start is about to launch. */
  predicate CancelLaw(s: State) {
    && s.cancels == s.launched + Bit(s.call.StartStore? || s.call.StartLaunch?)
    && (s.call.StopCas? || s.call.StopCancel? ==> s.launched > 0)
  }

  ghost predicate Inv(s: State) {
    StateLaw(s) && LoopLaw(s) && RunningLaw(s) && CancelLaw(s)
  }

  lemma ConsumerLoops(s: State, e: Event)
    requires Inv(s) && Enabled(s, e) && (e.Launch? || e.Exit? || e.WgDone?)
    ensures LoopLaw(Next(s, e))
  {
    match e
    case Launch =>
      Move(s.consumers, s.launched, Live, InLoop);
      Move(s.consumers, s.launched, Live, Counted);
    case Exit(t) =>
      Move(s.consumers, t, Exiting, InLoop);
      Move(s.consumers, t, Exiting, Counted);
    case WgDone(t) =>
      Move(s.consumers, t, Gone, InLoop);
      Move(s.consumers, t, Gone, Counted);
  }

  lemma StepLoops(s: State, e: Event)
    requires Inv(s) && Enabled(s, e)
    ensures LoopLaw(Next(s, e))
  {
    if e.Launch? || e.Exit? || e.WgDone? {
      ConsumerLoops(s, e);
    } else {
      Smaller(At(s.consumers, InLoop), At(s.consumers, Counted));
    }
  }

  lemma StepInv(s: State, e: Event)
    requires Inv(s) && Enabled(s, e)
    ensures Inv(Next(s, e))
  {
    StepLoops(s, e);
  }

  lemma {:induction false} RunInv(ss: seq<State>, es: seq<Event>, i: nat)
    requires Run(ss, es) && i < |ss|
    ensures Inv(ss[i])
  {
    if i == 0 {
      assert At(ss[0].consumers, InLoop) == {};
      assert At(ss[0].consumers, Counted) == {};
    } else {
      RunInv(ss, es, i - 1);
      StepInv(ss[i - 1], es[i - 1]);
    }
  }

  /**
   * In every run: live consumer loops never exceed one more than the Stop calls
   * that timed out, and the state is Running only if the latest Start's consumer
   * is about to be launched or still lives.
   */
  lemma LoopsBounded(ss: seq<State>, es: seq<Event>, i: nat)
    requires Run(ss, es) && i < |ss|
    ensures LiveLoops(ss[i]) <= 1 + ss[i].timeouts
    ensures ss[i].state == Running ==> ss[i].call.StartLaunch? || LatestLives(ss[i])
  {
    RunInv(ss, es, i);
  }

  /** Whenever Stop cancels, the consumer it cancels is that of the latest Start. */
  lemma StopCancelsLatest(ss: seq<State>, es: seq<Event>, i: nat)
    requires Run(ss, es) && i < |es| && es[i].CancelRun?
    ensures ss[i].launched > 0 && ss[i + 1].cancelled == ss[i].cancelled + {ss[i].launched - 1}
  {
    RunInv(ss, es, i);
  }

  predicate InStop(call: Call) {
    !call.NoCall? && !call.StartObtain? && !call.StartStore? && !call.StartLaunch?
  }

  /** Stop returns only with the state at Stopped; and Start leaves a running engine alone. */
  lemma CallsReturn(ss: seq<State>, es: seq<Event>, i: nat)
    requires Run(ss, es) && i < |es|
    ensures InStop(ss[i].call) && ss[i + 1].call.NoCall? ==> ss[i + 1].state == Stopped
    ensures es[i].CallStart? && ss[i].state == Running ==> ss[i + 1] == ss[i]
  {
    RunInv(ss, es, i);
  }

  /** Without a timed-out Stop, Stopped outside Start means that no loop is left. */
  lemma StoppedMeansNoLoop(ss: seq<State>, es: seq<Event>, i: nat)
    requires Run(ss, es) && i < |ss| && ss[i].timeouts == 0
    requires ss[i].state == Stopped && !StartInProgress(ss[i])
    ensures LiveLoops(ss[i]) == 0
  {
    RunInv(ss, es, i);
  }

  /** Without a timed-out Stop, and between calls, IsRunning is exact: Running iff a loop lives. */
  lemma IsRunningExact(ss: seq<State>, es: seq<Event>, i: nat)
    requires Run(ss, es) && i < |ss| && ss[i].timeouts == 0 && ss[i].call.NoCall?
    ensures ss[i].state == Running <==> LiveLoops(ss[i]) == 1
    ensures ss[i].state == Stopped <==> LiveLoops(ss[i]) == 0
  {
    RunInv(ss, es, i);
    if LatestLives(ss[i]) {
      assert ss[i].launched - 1 in At(ss[i].consumers, InLoop);
    }
  }

  lemma Extend(ss: seq<State>, es: seq<Event>, e: Event) returns (ss': seq<State>, es': seq<Event>)
    requires Run(ss, es) && Enabled(ss[|es|], e)
    ensures Run(ss', es') && ss < ss' && ss'[|es'|] == Next(ss[|es|], e)
  {
    ss', es' := ss + [Next(ss[|es|], e)], es + [e];
  }

  lemma StartOnce(ss: seq<State>, es: seq<Event>) returns (ss': seq<State>, es': seq<Event>)
    requires Run(ss, es) && ss[|es|].call.NoCall? && ss[|es|].state == Stopped
    ensures Run(ss', es') && ss < ss'
    ensures var s := ss[|es|];
      ss'[|es'|] == s.(state := Running, wg := s.wg + 1, consumers := s.consumers[s.launched := Live],
                       launched := s.launched + 1, cancels := s.launched + 1)
  {
    ss', es' := Extend(ss, es, CallStart);
    ss', es' := Extend(ss', es', Obtain(true));
    ss', es' := Extend(ss', es', StoreRunning);
    ss', es' := Extend(ss', es', Launch);
  }

  lemma StopThatTimesOut(ss: seq<State>, es: seq<Event>) returns (ss': seq<State>, es': seq<Event>)
    requires Run(ss, es) && ss[|es|].call.NoCall? && ss[|es|].state == Running && ss[|es|].cancels > 0
    ensures Run(ss', es')
    ensures var s := ss[|es|];
      ss'[|es'|] == s.(state := Stopped, cancelled := s.cancelled + {s.cancels - 1}, timeouts := s.timeouts + 1)
  {
    ss', es' := Extend(ss, es, CallStop);
    ss', es' := Extend(ss', es', Load);
    ss', es' := Extend(ss', es', Cas);
    ss', es' := Extend(ss', es', CancelRun);
    ss', es' := Extend(ss', es', Timeout);
    ss', es' := Extend(ss', es', StoreStopped);
  }

  /**
   * One timed-out Stop is enough to break both: its stale consumer ends during the
   * next run and stores Stopped, so a third Start is let in, and two loops run that
   * nobody cancelled. cancelFunc can only reach the last of them.
   */
  lemma StaleConsumerHidesLiveOne() returns (ss: seq<State>, es: seq<Event>, k: nat)
    ensures Run(ss, es) && k < |ss| && ss[|es|].timeouts == 1
    ensures ss[k].call.NoCall? && ss[k].state == Stopped && IsAt(ss[k], 1, Live)
    ensures IsAt(ss[|es|], 1, Live) && IsAt(ss[|es|], 2, Live) && {1, 2} !! ss[|es|].cancelled
  {
    ss, es := StartOnce([INITIAL], []);
    ss, es := StopThatTimesOut(ss, es);
    ss, es := StartOnce(ss, es);
    ss, es := Extend(ss, es, Exit(0));
    k := |es|;
    ss, es := StartOnce(ss, es);
  }

  /** Between calls, the state is Running exactly when one loop lives. */
  predicate Exact(s: State) {
    s.call.NoCall? ==> (s.state == Running <==> LiveLoops(s) == 1)
  }

  /** A Stop that times out stores Stopped while its loop lives on. */
  lemma TimedOutStopIsInexact() returns (ss: seq<State>, es: seq<Event>)
    ensures Run(ss, es) && ss[|es|].timeouts == 1 && !Exact(ss[|es|])
  {
    ss, es := StartOnce([INITIAL], []);
    ss, es := StopThatTimesOut(ss, es);
    assert At(ss[|es|].consumers, InLoop) == {0};
  }

  /** As long as at most `n` Stops have timed out. */
  ghost predicate ExactUpTo(ss: seq<State>, n: nat) {
    forall i | 0 <= i < |ss| && ss[i].timeouts <= n :: Exact(ss[i])
  }

  /** IsRunning is exact in all runs with at most `n` timed-out Stops if and only if n is zero. */
  lemma IsRunningExactIff(n: nat)
    ensures (forall ss, es | Run(ss, es) :: ExactUpTo(ss, n)) <==> n == 0
  {
    if n == 0 {
      forall ss: seq<State>, es | Run(ss, es) ensures ExactUpTo(ss, n) {
        forall i | 0 <= i < |ss| && ss[i].timeouts <= n ensures Exact(ss[i]) {
          if ss[i].call.NoCall? {
            IsRunningExact(ss, es, i);
          }
        }
      }
    } else {
      var ss, es := TimedOutStopIsInexact();
      assert !ExactUpTo(ss, n);
    }
  }
}
