/** What becomes of every entry handed to Write, by whichever route. */
module AsyncAccount {
  import opened Threads
  import opened AsyncLog

  function Is(x: Entry): Entry -> bool {
    (y: Entry) => y == x
  }

  function IsDirect(x: Entry): Written -> bool {
    (w: Written) => w == Direct(x)
  }

  /** A caller inside Write that has neither enqueued its entry nor begun to write it. */
  function Carries(x: Entry): PC -> bool {
    (pc: PC) => (pc.Sending? || pc.Overflow?) && pc.entry == x
  }

  function Number(s: State, p: PC -> bool): nat {
    |At(s.threads, p)|
  }

  /** Where the entries equal to `x` are. */
  ghost function Placed(s: State, x: Entry): nat {
    Number(s, Carries(x)) + CountIf(s.enqueued, Is(x)) + CountIf(s.chunk, IsDirect(x)) + CountIf(s.written, IsDirect(x))
  }

  lemma {:induction false} RoutedNotDirect(es: seq<Entry>, x: Entry)
    ensures CountIf(AsRouted(es), IsDirect(x)) == 0
  {
    var ws := AsRouted(es);
    if es != [] {
      var n := |es| - 1;
      assert ws[..n] == AsRouted(es[..n]);
      RoutedNotDirect(es[..n], x);
      CountLast(ws, IsDirect(x));
    }
  }

  /** What a step changes besides the callers' locations. */
  lemma OtherPlaces(s: State, e: Event, x: Entry)
    requires LockLaw(s) && Enabled(s, e) && Working(e)
    ensures var s' := Next(s, e);
      && s'.threads == s.threads && s'.enqueued == s.enqueued && s'.handed == s.handed
      && CountIf(s'.chunk, IsDirect(x)) + CountIf(s'.written, IsDirect(x))
         == CountIf(s.chunk, IsDirect(x)) + CountIf(s.written, IsDirect(x))
  {
    if e.FlushBegin? || e.FlushEnd? {
      RoutedNotDirect(s.batched, x);
      CountEmpty(IsDirect(x));
      CountConcat(s.written, AsRouted(s.batched), IsDirect(x));
    }
  }

  lemma CallerMoves(s: State, e: Event)
    requires Enabled(s, e) && !Working(e) && !e.SyncEarly?
    ensures Next(s, e).threads == s.threads[e.t := Pc(Next(s, e), e.t)]
  {
  }

  lemma ChannelPlaces(s: State, e: Event, x: Entry)
    requires Enabled(s, e) && (e.Check? || e.Enqueue?)
    ensures var (s', y) := (Next(s, e), Pc(Next(s, e), e.t));
      && s'.chunk == s.chunk && s'.written == s.written
      && CountIf(s'.handed, Is(x)) == CountIf(s.handed, Is(x)) + Bit(e.Check? && Carries(x)(y))
      && CountIf(s'.enqueued, Is(x)) == CountIf(s.enqueued, Is(x)) + Bit(e.Enqueue? && Carries(x)(Pc(s, e.t)))
  {
    if e.Check? {
      Pushed(s.handed, e.entry, Is(x));
    } else {
      Pushed(s.enqueued, Pc(s, e.t).entry, Is(x));
    }
  }

  lemma DirectPlaces(s: State, e: Event, x: Entry)
    requires LockLaw(s) && Enabled(s, e) && (e.LockDirect? || e.UnlockDirect?)
    ensures var s' := Next(s, e);
      && s'.handed == s.handed && s'.enqueued == s.enqueued
      && CountIf(s'.chunk, IsDirect(x)) + CountIf(s'.written, IsDirect(x))
         == CountIf(s.chunk, IsDirect(x)) + CountIf(s.written, IsDirect(x))
            + Bit(e.LockDirect? && Carries(x)(Pc(s, e.t)))
  {
    CountEmpty(IsDirect(x));
    if e.LockDirect? {
      CountSingle(Direct(Pc(s, e.t).entry), IsDirect(x));
    } else {
      CountConcat(s.written, s.chunk, IsDirect(x));
    }
  }

  lemma CallerPlaces(s: State, e: Event, x: Entry)
    requires LockLaw(s) && Enabled(s, e) && !Working(e)
    requires CountIf(s.handed, Is(x)) == Placed(s, x)
    ensures CountIf(Next(s, e).handed, Is(x)) == Placed(Next(s, e), x)
  {
    if !e.SyncEarly? {
      CallerMoves(s, e);
      Move(s.threads, e.t, Pc(Next(s, e), e.t), Carries(x));
      if e.Check? || e.Enqueue? {
        ChannelPlaces(s, e, x);
      } else if e.LockDirect? || e.UnlockDirect? {
        DirectPlaces(s, e, x);
      }
    }
  }

  lemma {:induction false} Accounted(ss: seq<State>, es: seq<Event>, i: nat, x: Entry)
    requires Run(ss, es) && i < |ss|
    ensures CountIf(ss[i].handed, Is(x)) == Placed(ss[i], x)
  {
    if i == 0 {
      assert At(ss[0].threads, Carries(x)) == {};
      CountEmpty(Is(x));
      CountEmpty(IsDirect(x));
    } else {
      Accounted(ss, es, i - 1, x);
      RunInv(ss, es, i - 1);
      if Working(es[i - 1]) {
        OtherPlaces(ss[i - 1], es[i - 1], x);
      } else {
        CallerPlaces(ss[i - 1], es[i - 1], x);
      }
    }
  }

  /**
   * In every run, every entry handed to a Write that found the writer open is in exactly
   * one place, counted for each value: with its caller, enqueued, being written directly,
   * or written directly. So when no Write is in progress each one was enqueued once or
   * written whole once.
   */
  lemma EveryEntry(ss: seq<State>, es: seq<Event>, i: nat, x: Entry)
    requires Run(ss, es) && i < |ss|
    ensures var s := ss[i];
      && CountIf(s.handed, Is(x)) == Number(s, Carries(x)) + CountIf(s.enqueued, Is(x))
           + CountIf(s.chunk, IsDirect(x)) + CountIf(s.written, IsDirect(x))
      && ((forall t | t in s.threads :: !(s.threads[t].Sending? || s.threads[t].Overflow? || s.threads[t].Writing?)) ==>
           CountIf(s.handed, Is(x)) == CountIf(s.enqueued, Is(x)) + CountIf(s.written, IsDirect(x)))
  {
    var s := ss[i];
    Accounted(ss, es, i, x);
    RunInv(ss, es, i);
    if forall t | t in s.threads :: !(s.threads[t].Sending? || s.threads[t].Overflow? || s.threads[t].Writing?) {
      assert At(s.threads, Carries(x)) == {};
      CountEmpty(IsDirect(x));
      RoutedNotDirect(s.batched, x);
    }
  }

  // ---- the batch and the worker's flushes ----

  lemma CallerStep(s: State, e: Event)
    requires Enabled(s, e) && !Working(e) && |s.ch| <= s.cap
    ensures var s' := Next(s, e);
      s'.worker == s.worker && s'.batch == s.batch && s.enqueued <= s'.enqueued && |s'.ch| <= s'.cap
  {
  }

  lemma StepBatch(s: State, e: Event)
    requires Enabled(s, e) && |s.ch| <= s.cap && (s.worker.Loop? || s.worker.Drain? ==> |s.batch| <= 16384)
    ensures var s' := Next(s, e); s'.worker.Loop? || s'.worker.Drain? ==> |s'.batch| <= 16384
  {
    if !Working(e) {
      CallerStep(s, e);
    }
  }

  /** The worker goes on receiving only with a batch of at most 16384 bytes; a larger one is flushed first. */
  lemma {:induction false} BatchBounded(ss: seq<State>, es: seq<Event>, i: nat)
    requires Run(ss, es) && i < |ss|
    ensures ss[i].worker.Loop? || ss[i].worker.Drain? ==> |ss[i].batch| <= 16384
  {
    if i > 0 {
      BatchBounded(ss, es, i - 1);
      NeverOverfull(ss, es, i - 1);
      StepBatch(ss[i - 1], es[i - 1]);
    }
  }

  /** The worker is in its main loop, or in a flush that goes back to it. */
  predicate InLoop(w: WorkerPC) {
    w.Loop? || w == WantFlush(ToLoop) || w == Flushing(ToLoop)
  }

  /** What a step does to the worker's place, the room in the channel and the enqueue history. */
  lemma StepWorker(s: State, e: Event)
    requires Enabled(s, e) && |s.ch| <= s.cap
    ensures var s' := Next(s, e);
      && |s'.ch| <= s'.cap && s.enqueued <= s'.enqueued
      && (!InLoop(s.worker) ==> !InLoop(s'.worker))
      && (InLoop(s.worker) && !s.worker.Loop? ==> InLoop(s'.worker))
  {
    if !Working(e) {
      CallerStep(s, e);
    }
  }

  lemma {:induction false} NeverOverfull(ss: seq<State>, es: seq<Event>, i: nat)
    requires Run(ss, es) && i < |ss|
    ensures |ss[i].ch| <= ss[i].cap
  {
    if i > 0 {
      NeverOverfull(ss, es, i - 1);
      StepWorker(ss[i - 1], es[i - 1]);
    }
  }

  /** Once it has left the main loop the worker does not come back to it. */
  lemma {:induction false} LoopLeftForGood(ss: seq<State>, es: seq<Event>, i: nat, j: nat)
    requires Run(ss, es) && i <= j < |ss| && !InLoop(ss[i].worker)
    ensures !InLoop(ss[j].worker)
    decreases j - i
  {
    if i < j {
      NeverOverfull(ss, es, i);
      StepWorker(ss[i], es[i]);
      LoopLeftForGood(ss, es, i + 1, j);
    }
  }

  /** A flush from a tick to the return to the loop, with `got` entries received before it. */
  ghost predicate InFlush(s: State, got: nat) {
    && InLoop(s.worker)
    && (s.worker.Loop? ==> s.batched == [])
    && |ViaChannel(s.written)| + |s.batched| == got
  }

  lemma ViaDirect(s: State, e: Event)
    requires LockLaw(s) && Enabled(s, e) && !s.worker.Loop? && InLoop(s.worker)
    ensures |ViaChannel(Next(s, e).written)| + |Next(s, e).batched| == |ViaChannel(s.written)| + |s.batched|
    ensures Next(s, e).worker.Loop? ==> Next(s, e).batched == []
  {
    if e.UnlockDirect? {
      assert s.chunk == [s.chunk[0]];
      Single(s.chunk[0]);
      ChannelConcat(s.written, s.chunk);
    } else if e.FlushBegin? || e.FlushEnd? {
      RoutedBack(s.batched);
      ChannelConcat(s.written, AsRouted(s.batched));
    }
  }

  lemma TickStep(s: State)
    requires Enabled(s, Tick)
    ensures InFlush(Next(s, Tick), |ViaChannel(s.written)| + |s.batched|) && Next(s, Tick).enqueued == s.enqueued
  {
  }

  lemma FlushStep(s: State, e: Event, got: nat)
    requires LockLaw(s) && Enabled(s, e) && |s.ch| <= s.cap && InFlush(s, got) && !s.worker.Loop?
    ensures InFlush(Next(s, e), got) && s.enqueued <= Next(s, e).enqueued
  {
    StepWorker(s, e);
    ViaDirect(s, e);
  }

  lemma {:induction false} FlushRuns(ss: seq<State>, es: seq<Event>, i: nat, j: nat)
    requires Run(ss, es) && i < j < |ss| && es[i].Tick? && forall k | i < k < j :: !ss[k].worker.Loop?
    ensures InFlush(ss[j], |ViaChannel(ss[i].written)| + |ss[i].batched|)
    ensures ss[i].enqueued <= ss[j].enqueued
    decreases j
  {
    if i + 1 < j {
      FlushRuns(ss, es, i, j - 1);
      RunInv(ss, es, j - 1);
      NeverOverfull(ss, es, j - 1);
      FlushStep(ss[j - 1], es[j - 1], |ViaChannel(ss[i].written)| + |ss[i].batched|);
    } else {
      TickStep(ss[i]);
    }
  }

  /** When the worker is back in its loop after a tick, everything it had received by then is written, in order. */
  lemma TickFlushes(ss: seq<State>, es: seq<Event>, i: nat, j: nat)
    requires Run(ss, es) && i < j < |ss| && es[i].Tick?
    requires ss[j].worker.Loop? && forall k | i < k < j :: !ss[k].worker.Loop?
    ensures ViaChannel(ss[j].written) == ViaChannel(ss[i].written) + ss[i].batched && ss[j].batched == []
  {
    FlushRuns(ss, es, i, j);
    RunInv(ss, es, i);
    RunInv(ss, es, j);
    var n := |ViaChannel(ss[j].written)|;
    assert ViaChannel(ss[j].written) == ss[j].enqueued[..n] == ss[i].enqueued[..n];
  }

  /** A Write takes the direct way only when the channel is full, and the channel otherwise. */
  lemma DirectIffFull(ss: seq<State>, es: seq<Event>, i: nat, t: Tid)
    requires Run(ss, es) && i < |ss| && Pc(ss[i], t).Sending?
    ensures Enabled(ss[i], Full(t)) <==> |ss[i].ch| == ss[i].cap
    ensures Enabled(ss[i], Enqueue(t)) <==> |ss[i].ch| < ss[i].cap
  {
    NeverOverfull(ss, es, i);
  }

  lemma {:induction false} StaysClosed(ss: seq<State>, es: seq<Event>, i: nat, j: nat)
    requires Run(ss, es) && i <= j < |ss| && ss[i].closed
    ensures ss[j].closed
    decreases j - i
  {
    if i < j {
      StaysClosed(ss, es, i + 1, j);
    }
  }

  /** Once any Sync has set the flag or found it set, no Write is let in, and no Sync sets it again. */
  lemma SyncRefusesWrites(ss: seq<State>, es: seq<Event>, i: nat, j: nat)
    requires Run(ss, es) && i < j < |es| && (es[i].SetClosed? || es[i].SyncEarly?)
    ensures !es[j].Check? && !es[j].SetClosed?
  {
    StaysClosed(ss, es, i + 1, j);
  }
}
