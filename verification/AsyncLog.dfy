/**
 * The asynchronous log writer: any number of Write callers, the batching worker
 * and Sync. The underlying writer takes its bytes one at a time, so only the
 * writer lock keeps entries whole.
 */
module AsyncLog {
  import opened Threads
  import opened Bytes

  type Entry = seq<byte>

  const BATCH_LIMIT := 16384

  /** An entry in the output, with the route it took. */
  datatype Written = Routed(entry: Entry) | Direct(entry: Entry)

  datatype PC =
    | Out
    | Sending(entry: Entry)     // Write: past the closed check, at the non-blocking send
    | Overflow(entry: Entry)    // Write: channel full, wants the writer lock
    | Writing                   // Write: holds the writer lock
    | SyncStop                  // Sync: closed set, stopChan still open
    | SyncWait                  // Sync: waits for the worker

  /** What the worker does after a flush. */
  datatype After = ToLoop | ToDrain | ToExit

  datatype WorkerPC =
    | Loop
    | Drain                     // stopChan seen, emptying the channel
    | WantFlush(after: After)
    | Flushing(after: After)    // holds the writer lock
    | Done                      // doneChan closed

  datatype Lock = Free | Worker | Writer(t: Tid)

  datatype State = State(
    cap: nat,
    ch: seq<Entry>,
    closed: bool,
    stop: bool,
    batch: seq<byte>,
    out: seq<byte>,             // what the underlying writer has received
    lock: Lock,                 // writerMu
    left: seq<byte>,            // bytes the lock holder has yet to write
    worker: WorkerPC,
    threads: map<Tid, PC>,
    synced: bool,               // history: Sync has returned
    handed: seq<Entry>,         // history: entries of Writes that passed the closed check
    enqueued: seq<Entry>,       // history: entries put into the channel ...
    senders: seq<Tid>,          // ... and by whom
    batched: seq<Entry>,        // history: the entries in the batch
    written: seq<Written>,      // history: entries completely written
    chunk: seq<Written>,        // history: entries of the write in progress
    atClose: nat,               // history: how many were enqueued when closed was set
    early: nat,                 // history: Sync calls that found closed set while the first had not returned
    overlap: set<Tid>)          // history: Write callers inside at that moment

  datatype Event =
    | Check(t: Tid, entry: Entry)
    | Enqueue(t: Tid)
    | Full(t: Tid)
    | LockDirect(t: Tid)
    | UnlockDirect(t: Tid)
    | PutByte
    | Recv
    | Tick
    | SeeStop
    | SeeEmpty
    | FlushBegin
    | FlushEnd
    | SetClosed(t: Tid)
    | CloseStop(t: Tid)
    | SyncReturn(t: Tid)
    | SyncEarly(t: Tid)         // Sync: closed already set, returns nil at once

  function Pc(s: State, t: Tid): PC {
    if t in s.threads then s.threads[t] else Out
  }

  function Go(s: State, t: Tid, pc: PC): State {
    s.(threads := s.threads[t := pc])
  }

  predicate Enabled(s: State, e: Event) {
    match e
    case Check(t, _) => Pc(s, t).Out? && !s.closed
    case Enqueue(t) => Pc(s, t).Sending? && |s.ch| < s.cap
    case Full(t) => Pc(s, t).Sending? && |s.ch| >= s.cap
    case LockDirect(t) => Pc(s, t).Overflow? && s.lock.Free?
    case UnlockDirect(t) => Pc(s, t).Writing? && s.left == []
    case PutByte => s.left != []
    case Recv => (s.worker.Loop? || s.worker.Drain?) && s.ch != []
    case Tick => s.worker.Loop?
    case SeeStop => s.worker.Loop? && s.stop
    case SeeEmpty => s.worker.Drain? && s.ch == []
    case FlushBegin => s.worker.WantFlush? && (s.lock.Free? || s.batch == [])
    case FlushEnd => s.worker.Flushing? && s.left == []
    case SetClosed(t) => Pc(s, t).Out? && !s.closed
    case CloseStop(t) => Pc(s, t).SyncStop?
    case SyncReturn(t) => Pc(s, t).SyncWait? && s.worker.Done?
    case SyncEarly(t) => Pc(s, t).Out? && s.closed
  }

  predicate InSend(pc: PC) {
    pc.Sending?
  }

  function Resume(after: After): WorkerPC {
    match after
    case ToLoop => Loop
    case ToDrain => Drain
    case ToExit => Done
  }

  function AsRouted(es: seq<Entry>): seq<Written> {
    seq(|es|, i requires 0 <= i < |es| => Routed(es[i]))
  }

  function Next(s: State, e: Event): State
    requires Enabled(s, e)
  {
    match e
    case Check(t, entry) => Go(s, t, Sending(entry)).(handed := s.handed + [entry])
    case Enqueue(t) =>
      var x := Pc(s, t).entry;
      Go(s, t, Out).(ch := s.ch + [x], enqueued := s.enqueued + [x], senders := s.senders + [t])
    case Full(t) => Go(s, t, Overflow(Pc(s, t).entry))
    case LockDirect(t) =>
      var x := Pc(s, t).entry;
      Go(s, t, Writing).(lock := Writer(t), left := x, chunk := [Direct(x)])
    case UnlockDirect(t) => Go(s, t, Out).(lock := Free, written := s.written + s.chunk, chunk := [])
    case PutByte => s.(out := s.out + [s.left[0]], left := s.left[1..])
    case Recv =>
      var batch := s.batch + s.ch[0];
      s.(ch := s.ch[1..], batch := batch, batched := s.batched + [s.ch[0]],
         worker := if |batch| > BATCH_LIMIT then WantFlush(if s.worker.Loop? then ToLoop else ToDrain) else s.worker)
    case Tick => s.(worker := WantFlush(ToLoop))
    case SeeStop => s.(worker := Drain)
    case SeeEmpty => s.(worker := WantFlush(ToExit))
    case FlushBegin =>
      if s.batch == []
      then s.(worker := Resume(s.worker.after), written := s.written + AsRouted(s.batched), batched := [])
      else s.(worker := Flushing(s.worker.after), lock := Worker, left := s.batch, chunk := AsRouted(s.batched))
    case FlushEnd =>
      s.(worker := Resume(s.worker.after), lock := Free, written := s.written + s.chunk, chunk := [],
         batch := [], batched := [])
    case SetClosed(t) =>
      Go(s, t, SyncStop).(closed := true, atClose := |s.enqueued|, overlap := At(s.threads, InSend))
    case CloseStop(t) => Go(s, t, SyncWait).(stop := true)
    case SyncReturn(t) => Go(s, t, Out).(synced := true)
    case SyncEarly(t) => s.(early := s.early + Bit(!s.synced))
  }

  function Empty(cap: nat): State {
    State(cap, [], false, false, [], [], Free, [], Loop, map[], false, [], [], [], [], [], [], 0, 0, {})
  }

  /** A new writer; its channel has room for at least one entry. */
  predicate Init(s: State) {
    1 <= s.cap && s == Empty(s.cap)
  }

  ghost predicate Run(ss: seq<State>, es: seq<Event>) {
    && |ss| == |es| + 1
    && Init(ss[0])
    && forall i | 0 <= i < |es| :: Enabled(ss[i], es[i]) && ss[i + 1] == Next(ss[i], es[i])
  }

  // ---- bytes and entries ----

  function Flatten(ws: seq<Written>): seq<byte> {
    if ws == [] then [] else Flatten(ws[..|ws| - 1]) + ws[|ws| - 1].entry
  }

  /** The entries that went through the channel. */
  function ViaChannel(ws: seq<Written>): seq<Entry> {
    if ws == [] then []
    else ViaChannel(ws[..|ws| - 1]) + if ws[|ws| - 1].Routed? then [ws[|ws| - 1].entry] else []
  }

  lemma {:induction false} BytesConcat(a: seq<Written>, b: seq<Written>)
    ensures Flatten(a + b) == Flatten(a) + Flatten(b)
  {
    if b == [] {
      assert a + b == a;
    } else {
      var n := |b| - 1;
      assert (a + b)[..|a| + n] == a + b[..n];
      BytesConcat(a, b[..n]);
    }
  }

  lemma {:induction false} ChannelConcat(a: seq<Written>, b: seq<Written>)
    ensures ViaChannel(a + b) == ViaChannel(a) + ViaChannel(b)
  {
    if b == [] {
      assert a + b == a;
    } else {
      var n := |b| - 1;
      assert (a + b)[..|a| + n] == a + b[..n];
      ChannelConcat(a, b[..n]);
    }
  }

  lemma Single(w: Written)
    ensures Flatten([w]) == w.entry
    ensures ViaChannel([w]) == if w.Routed? then [w.entry] else []
  {
    assert [w][..0] == [];
  }

  lemma {:induction false} RoutedBack(es: seq<Entry>)
    ensures ViaChannel(AsRouted(es)) == es
  {
    if es != [] {
      var n := |es| - 1;
      assert AsRouted(es)[..n] == AsRouted(es[..n]);
      RoutedBack(es[..n]);
    }
  }

  lemma Batched(es: seq<Entry>, x: Entry)
    ensures Flatten(AsRouted(es + [x])) == Flatten(AsRouted(es)) + x
  {
    assert AsRouted(es + [x])[..|es|] == AsRouted(es);
  }

  // ---- invariants ----

  /** Exactly the lock holder is in its write, and the chunk is what it is writing. */
  ghost predicate LockLaw(s: State) {
    && (s.lock.Worker? <==> s.worker.Flushing?)
    && (s.lock.Writer? ==> Pc(s, s.lock.t).Writing?)
    && (forall t | t in s.threads && s.threads[t].Writing? :: s.lock == Writer(t))
    && (s.lock.Free? ==> s.left == [] && s.chunk == [])
    && (s.lock.Worker? ==> s.chunk == AsRouted(s.batched))
    && (s.lock.Writer? ==> |s.chunk| == 1 && s.chunk[0].Direct?)
  }

  ghost predicate ByteLaw(s: State) {
    && s.out + s.left == Flatten(s.written) + Flatten(s.chunk)
    && |s.left| <= |Flatten(s.chunk)|
    && s.batch == Flatten(AsRouted(s.batched))
  }

  ghost predicate OrderLaw(s: State) {
    && s.enqueued == ViaChannel(s.written) + s.batched + s.ch
    && |s.senders| == |s.enqueued|
  }

  predicate Exiting(w: WorkerPC) {
    w.Done? || ((w.WantFlush? || w.Flushing?) && w.after == ToExit)
  }

  predicate Stopping(w: WorkerPC) {
    Exiting(w) || w.Drain? || ((w.WantFlush? || w.Flushing?) && w.after == ToDrain)
  }

  /** Once the worker saw an empty channel, all entries enqueued before the close have left it. */
  ghost predicate DrainLaw(s: State) {
    && (s.stop ==> s.closed)
    && (forall t | t in s.threads && s.threads[t].SyncStop? :: s.closed)
    && (Stopping(s.worker) ==> s.stop)
    && (Exiting(s.worker) ==> s.atClose <= |ViaChannel(s.written)| + |s.batched|)
    && (s.worker.Done? ==> s.batched == [])
    && (s.synced ==> s.worker.Done?)
    && s.atClose <= |s.enqueued|
  }

  /** After the close only Write callers that were inside still enqueue. */
  ghost predicate OverlapLaw(s: State) {
    s.closed ==>
      && At(s.threads, InSend) <= s.overlap
      && forall k | s.atClose <= k < |s.senders| :: s.senders[k] in s.overlap
  }

  /** Steps of the worker, and of whoever holds the writer lock. */
  predicate Working(e: Event) {
    e.PutByte? || e.Recv? || e.Tick? || e.SeeStop? || e.SeeEmpty? || e.FlushBegin? || e.FlushEnd?
  }

  lemma StepLock(s: State, e: Event)
    requires LockLaw(s) && Enabled(s, e)
    ensures LockLaw(Next(s, e))
  {
    if Working(e) {
      WorkerLock(s, e);
    } else {
      CallerLock(s, e);
    }
  }

  lemma WorkerLock(s: State, e: Event)
    requires LockLaw(s) && Enabled(s, e) && Working(e)
    ensures LockLaw(Next(s, e))
  {
  }

  lemma CallerLock(s: State, e: Event)
    requires LockLaw(s) && Enabled(s, e) && !Working(e)
    ensures LockLaw(Next(s, e))
  {
    if !e.LockDirect? && !e.UnlockDirect? {
      LockUntouched(s, e);
    }
  }

  lemma LockUntouched(s: State, e: Event)
    requires LockLaw(s) && Enabled(s, e) && !Working(e) && !e.LockDirect? && !e.UnlockDirect?
    ensures LockLaw(Next(s, e))
  {
    var s' := Next(s, e);
    assert (s'.lock, s'.worker, s'.left, s'.chunk, s'.batched) == (s.lock, s.worker, s.left, s.chunk, s.batched);
    assert forall t | t in s'.threads && s'.threads[t].Writing? :: t in s.threads && s.threads[t].Writing?;
  }

  lemma LockingBytes(s: State, e: Event)
    requires LockLaw(s) && ByteLaw(s) && Enabled(s, e) && (e.LockDirect? || e.FlushBegin?)
    ensures ByteLaw(Next(s, e))
  {
    assert s.lock.Free? ==> s.out + s.left == s.out;
    assert Flatten(s.written) + [] == Flatten(s.written);
    if e.LockDirect? {
      Single(Direct(Pc(s, e.t).entry));
    } else if s.batch == [] {
      BytesConcat(s.written, AsRouted(s.batched));
    }
  }

  lemma StepBytes(s: State, e: Event)
    requires LockLaw(s) && ByteLaw(s) && Enabled(s, e)
    ensures ByteLaw(Next(s, e))
  {
    if e.LockDirect? || e.FlushBegin? {
      LockingBytes(s, e);
    } else if e.PutByte? {
      assert s.left == [s.left[0]] + s.left[1..];
    } else if e.Recv? {
      Batched(s.batched, s.ch[0]);
    } else if e.UnlockDirect? || e.FlushEnd? {
      BytesConcat(s.written, s.chunk);
      assert Flatten(s.written + s.chunk) + [] == Flatten(s.written + s.chunk);
    }
  }

  /** The routed entries that a step completes. */
  function Completes(s: State, e: Event): seq<Entry> {
    if (e.FlushBegin? && s.batch == []) || e.FlushEnd? then s.batched else []
  }

  lemma StepWritten(s: State, e: Event)
    requires LockLaw(s) && Enabled(s, e)
    ensures ViaChannel(Next(s, e).written) == ViaChannel(s.written) + Completes(s, e)
  {
    if e.FlushBegin? && s.batch == [] {
      ChannelConcat(s.written, AsRouted(s.batched));
      RoutedBack(s.batched);
    } else if e.FlushEnd? {
      ChannelConcat(s.written, s.chunk);
      RoutedBack(s.batched);
    } else if e.UnlockDirect? {
      ChannelConcat(s.written, s.chunk);
      assert s.chunk == [s.chunk[0]];
      Single(s.chunk[0]);
    }
  }

  lemma StepOrder(s: State, e: Event)
    requires LockLaw(s) && OrderLaw(s) && Enabled(s, e)
    ensures OrderLaw(Next(s, e))
    ensures |ViaChannel(Next(s, e).written)| + |Next(s, e).batched| >= |ViaChannel(s.written)| + |s.batched|
  {
    StepWritten(s, e);
    if e.Recv? {
      RecvOrder(s);
    } else if e.Enqueue? {
      EnqueueOrder(s, e.t);
    } else {
      QueuesUntouched(s, e);
      BatchMoves(s, e);
      Regrouped(ViaChannel(s.written), Completes(s, e), Next(s, e).batched);
    }
  }

  lemma Regrouped(a: seq<Entry>, b: seq<Entry>, c: seq<Entry>)
    ensures a + b + c == a + (b + c) && |a + b| + |c| == |a| + |b + c|
  {
  }

  lemma RecvOrder(s: State)
    requires OrderLaw(s) && Enabled(s, Recv)
    ensures OrderLaw(Next(s, Recv)) && Next(s, Recv).written == s.written
    ensures |Next(s, Recv).batched| == |s.batched| + 1
  {
    var a, b, c := ViaChannel(s.written), s.batched, s.ch;
    assert a + b + c == a + (b + [c[0]]) + c[1..];
  }

  lemma EnqueueOrder(s: State, t: Tid)
    requires OrderLaw(s) && Enabled(s, Enqueue(t))
    ensures var s' := Next(s, Enqueue(t)); OrderLaw(s') && s'.written == s.written && s'.batched == s.batched
  {
    var a, b, c := ViaChannel(s.written), s.batched, s.ch;
    assert a + b + c + [Pc(s, t).entry] == a + b + (c + [Pc(s, t).entry]);
  }

  lemma QueuesUntouched(s: State, e: Event)
    requires Enabled(s, e) && !(e.Recv? || e.Enqueue?)
    ensures var s' := Next(s, e); s'.ch == s.ch && s'.enqueued == s.enqueued && s'.senders == s.senders
  {
  }

  /** A flush moves the whole batch to the output; no other step but a receive touches it. */
  lemma BatchMoves(s: State, e: Event)
    requires Enabled(s, e) && !e.Recv?
    ensures Completes(s, e) + Next(s, e).batched == s.batched
  {
    if !e.FlushBegin? && !e.FlushEnd? {
      SameBatch(s, e);
    }
  }

  lemma SameBatch(s: State, e: Event)
    requires Enabled(s, e) && !(e.Recv? || e.FlushBegin? || e.FlushEnd?)
    ensures Next(s, e).batched == s.batched
  {
  }

  lemma StepDrain(s: State, e: Event)
    requires LockLaw(s) && OrderLaw(s) && DrainLaw(s) && Enabled(s, e)
    ensures DrainLaw(Next(s, e))
  {
    StepOrder(s, e);
    if Working(e) {
      WorkerDrain(s, e);
    } else {
      CallerDrain(s, e);
    }
  }

  lemma WorkerDrain(s: State, e: Event)
    requires OrderLaw(s) && DrainLaw(s) && Enabled(s, e) && Working(e)
    requires |ViaChannel(Next(s, e).written)| + |Next(s, e).batched| >= |ViaChannel(s.written)| + |s.batched|
    ensures DrainLaw(Next(s, e))
  {
    if e.FlushBegin? || e.FlushEnd? {
      FlushDrain(s, e);
    }
  }

  lemma FlushDrain(s: State, e: Event)
    requires DrainLaw(s) && Enabled(s, e) && (e.FlushBegin? || e.FlushEnd?)
    requires |ViaChannel(Next(s, e).written)| + |Next(s, e).batched| >= |ViaChannel(s.written)| + |s.batched|
    ensures DrainLaw(Next(s, e))
  {
  }

  lemma CallerDrain(s: State, e: Event)
    requires DrainLaw(s) && Enabled(s, e) && !Working(e)
    requires |ViaChannel(Next(s, e).written)| + |Next(s, e).batched| >= |ViaChannel(s.written)| + |s.batched|
    ensures DrainLaw(Next(s, e))
  {
  }

  lemma StepOverlap(s: State, e: Event)
    requires OrderLaw(s) && DrainLaw(s) && OverlapLaw(s) && Enabled(s, e)
    ensures OverlapLaw(Next(s, e))
  {
    if e.Enqueue? {
      assert e.t in At(s.threads, InSend);
    }
  }

  // ---- every run ----

  ghost predicate Inv(s: State) {
    LockLaw(s) && ByteLaw(s) && OrderLaw(s) && DrainLaw(s) && OverlapLaw(s)
  }

  lemma {:induction false} RunInv(ss: seq<State>, es: seq<Event>, i: nat)
    requires Run(ss, es) && i < |ss|
    ensures Inv(ss[i])
  {
    if i > 0 {
      RunInv(ss, es, i - 1);
      StepLock(ss[i - 1], es[i - 1]);
      StepBytes(ss[i - 1], es[i - 1]);
      StepOrder(ss[i - 1], es[i - 1]);
      StepDrain(ss[i - 1], es[i - 1]);
      StepOverlap(ss[i - 1], es[i - 1]);
    }
  }

  /**
   * Whatever the writers do, the output is whole entries one after another, plus
   * the first bytes of the write in progress while somebody holds the writer lock.
   */
  lemma WholeEntries(ss: seq<State>, es: seq<Event>, i: nat)
    requires Run(ss, es) && i < |ss|
    ensures Flatten(ss[i].written) <= ss[i].out <= Flatten(ss[i].written) + Flatten(ss[i].chunk)
    ensures ss[i].lock.Free? ==> ss[i].out == Flatten(ss[i].written)
  {
    RunInv(ss, es, i);
    var s := ss[i];
    var n := |Flatten(s.written)|;
    assert (s.out + s.left)[..n] == Flatten(s.written);
    assert s.out == (s.out + s.left)[..|s.out|];
  }

  /** Entries that went through the channel are written in the order they were enqueued. */
  lemma ChannelOrder(ss: seq<State>, es: seq<Event>, i: nat)
    requires Run(ss, es) && i < |ss|
    ensures ss[i].enqueued == ViaChannel(ss[i].written) + ss[i].batched + ss[i].ch
  {
    RunInv(ss, es, i);
  }

  /** Everything enqueued before `closed` was set has been written. */
  ghost predicate Flushed(s: State) {
    s.atClose <= |s.enqueued| && s.enqueued[..s.atClose] <= ViaChannel(s.written)
  }

  /**
   * When the Sync that set `closed` has returned, everything enqueued before that has
   * been written. What is left in the channel, now or later, was put there by Write
   * callers that were already inside at that moment.
   */
  lemma SyncFlushes(ss: seq<State>, es: seq<Event>, i: nat)
    requires Run(ss, es) && i < |ss| && ss[i].synced
    ensures Flushed(ss[i])
    ensures ss[i].enqueued == ViaChannel(ss[i].written) + ss[i].ch
    ensures |ss[i].senders| == |ss[i].enqueued|
    ensures forall k | ss[i].atClose <= k < |ss[i].senders| :: ss[i].senders[k] in ss[i].overlap
  {
    RunInv(ss, es, i);
    assert ss[i].batched == [];
  }

  lemma Extend(ss: seq<State>, es: seq<Event>, e: Event) returns (ss': seq<State>, es': seq<Event>)
    requires Run(ss, es) && Enabled(ss[|es|], e)
    ensures Run(ss', es') && es' == es + [e] && ss < ss' && ss'[|es'|] == Next(ss[|es|], e)
  {
    ss', es' := ss + [Next(ss[|es|], e)], es + [e];
  }

  /** A second Sync returns while the first is still at work: an entry enqueued before both is unwritten. */
  lemma EarlySyncUnflushed(cap: nat, x: Entry) returns (ss: seq<State>, es: seq<Event>)
    requires 1 <= cap
    ensures Run(ss, es) && es != [] && es[|es| - 1] == SyncEarly(2)
    ensures ss[|es|].early == 1 && ss[|es|].atClose == 1 && ss[|es|].enqueued == [x] && ss[|es|].written == []
  {
    ss, es := [Empty(cap)], [];
    ss, es := Extend(ss, es, Check(0, x));
    ss, es := Extend(ss, es, Enqueue(0));
    ss, es := Extend(ss, es, SetClosed(1));
    ss, es := Extend(ss, es, SyncEarly(2));
  }

  /** As long as at most `n` Syncs have returned early beside one in progress, every Sync returns with all flushed. */
  ghost predicate SyncsFlush(ss: seq<State>, es: seq<Event>, n: nat)
    requires |ss| == |es| + 1
  {
    forall i | 0 <= i < |es| && (es[i].SyncReturn? || es[i].SyncEarly?) && ss[i + 1].early <= n :: Flushed(ss[i + 1])
  }

  lemma StepEarly(s: State, e: Event)
    requires Enabled(s, e)
    ensures e.SyncEarly? && Next(s, e).early == 0 ==> Next(s, e).synced
    ensures e.SyncReturn? ==> Next(s, e).synced
  {
  }

  /**
   * Every return of a Sync has everything flushed, in all runs with at most `n` Syncs that
   * start before the first one has returned, if and only if n is zero.
   */
  lemma SyncFlushesIff(n: nat)
    ensures (forall ss, es | Run(ss, es) :: SyncsFlush(ss, es, n)) <==> n == 0
  {
    if n == 0 {
      forall ss: seq<State>, es: seq<Event> | Run(ss, es) ensures SyncsFlush(ss, es, n) {
        forall i | 0 <= i < |es| && (es[i].SyncReturn? || es[i].SyncEarly?) && ss[i + 1].early <= n
          ensures Flushed(ss[i + 1])
        {
          StepEarly(ss[i], es[i]);
          SyncFlushes(ss, es, i + 1);
        }
      }
    } else {
      var ss, es := EarlySyncUnflushed(1, []);
      assert !Flushed(ss[|es|]);
      assert !SyncsFlush(ss, es, n);
    }
  }

  // ---- entries that Write accepted and nobody writes ----

  /** How many entries have left the channel. */
  function Received(s: State): nat {
    |ViaChannel(s.written)| + |s.batched|
  }

  /** Only seeing the channel empty makes the worker leave, and from then on it receives nothing. */
  lemma StepExiting(s: State, e: Event)
    requires Enabled(s, e)
    ensures Exiting(s.worker) ==> Exiting(Next(s, e).worker) && !e.Recv?
    ensures !Exiting(s.worker) && Exiting(Next(s, e).worker) ==> e.SeeEmpty?
    ensures s.enqueued <= Next(s, e).enqueued
  {
    if !Working(e) {
      SameWorker(s, e);
    }
  }

  lemma SameWorker(s: State, e: Event)
    requires Enabled(s, e) && !Working(e)
    ensures Next(s, e).worker == s.worker && s.enqueued <= Next(s, e).enqueued
  {
  }

  lemma StepReceived(s: State, e: Event)
    requires LockLaw(s) && OrderLaw(s) && Enabled(s, e)
    ensures Exiting(s.worker) ==> Exiting(Next(s, e).worker) && Received(Next(s, e)) == Received(s)
    ensures !Exiting(s.worker) && Exiting(Next(s, e).worker) ==> Received(Next(s, e)) == |s.enqueued|
    ensures s.enqueued <= Next(s, e).enqueued
  {
    StepExiting(s, e);
    StepWritten(s, e);
    if !e.Recv? {
      BatchMoves(s, e);
      var a, b := Completes(s, e), Next(s, e).batched;
      assert |a + b| == |a| + |b|;
    }
  }

  lemma {:induction false} LateStays(ss: seq<State>, es: seq<Event>, i: nat, j: nat)
    requires Run(ss, es) && i <= j < |ss| && Exiting(ss[i].worker)
    ensures Exiting(ss[j].worker) && Received(ss[j]) == Received(ss[i]) && ss[i].enqueued <= ss[j].enqueued
    decreases j - i
  {
    if i < j {
      RunInv(ss, es, i);
      StepReceived(ss[i], es[i]);
      LateStays(ss, es, i + 1, j);
    }
  }

  lemma {:induction false} EarlyLeaves(ss: seq<State>, es: seq<Event>, i: nat, j: nat, k: nat)
    requires Run(ss, es) && i <= j < |ss| && !Exiting(ss[i].worker) && k < |ss[i].enqueued|
    ensures Exiting(ss[j].worker) ==> k < Received(ss[j])
    ensures ss[i].enqueued <= ss[j].enqueued
    decreases j - i
  {
    if i < j {
      RunInv(ss, es, i);
      StepReceived(ss[i], es[i]);
      if Exiting(ss[i + 1].worker) {
        LateStays(ss, es, i + 1, j);
      } else {
        EarlyLeaves(ss, es, i + 1, j, k);
      }
    }
  }

  /**
   * A Write that enqueued its entry returned nil. Once the worker is done, the entry has
   * been written if and only if the worker had not yet seen the channel empty when it
   * was enqueued; otherwise it stays in the channel for good.
   */
  lemma WrittenIff(ss: seq<State>, es: seq<Event>, i: nat, j: nat)
    requires Run(ss, es) && i < j < |ss| && es[i].Enqueue? && ss[j].worker.Done?
    ensures var k := |ss[i].enqueued|;
      && k < |ss[j].enqueued| && ss[j].enqueued[k] == Pc(ss[i], es[i].t).entry
      && (k < |ViaChannel(ss[j].written)| <==> !Exiting(ss[i].worker))
  {
    RunInv(ss, es, i);
    RunInv(ss, es, j);
    if Exiting(ss[i].worker) {
      LateStays(ss, es, i, j);
      LateStays(ss, es, i + 1, j);
    } else {
      EarlyLeaves(ss, es, i + 1, j, |ss[i].enqueued|);
    }
  }

  /** A Write is past its closed check when Sync sets the flag. */
  function Inside(cap: nat, x: Entry): State {
    Empty(cap).(closed := true, threads := map[0 := Sending(x), 1 := SyncStop], overlap := {0}, handed := [x])
  }

  lemma InsideAtClose(cap: nat, x: Entry) returns (ss: seq<State>, es: seq<Event>)
    requires 1 <= cap
    ensures Run(ss, es) && ss[|es|] == Inside(cap, x)
  {
    ss, es := [Empty(cap)], [];
    ss, es := Extend(ss, es, Check(0, x));
    assert At(ss[|es|].threads, InSend) == {0};
    ss, es := Extend(ss, es, SetClosed(1));
  }

  lemma SawEmpty(cap: nat, x: Entry) returns (ss: seq<State>, es: seq<Event>)
    requires 1 <= cap
    ensures Run(ss, es)
    ensures ss[|es|] == Inside(cap, x).(stop := true, worker := WantFlush(ToExit),
                                        threads := map[0 := Sending(x), 1 := SyncWait])
  {
    ss, es := InsideAtClose(cap, x);
    ss, es := Extend(ss, es, CloseStop(1));
    ss, es := Extend(ss, es, SeeStop);
    ss, es := Extend(ss, es, SeeEmpty);
  }

  /** A Write past its closed check enqueues after the worker has seen the channel empty: nil, and never written. */
  lemma LostWrite(cap: nat, x: Entry) returns (ss: seq<State>, es: seq<Event>)
    requires 1 <= cap
    ensures Run(ss, es) && ss[|es|].synced && ss[|es|].worker.Done?
    ensures Pc(ss[|es|], 0).Out? && ss[|es|].ch == [x] == ss[|es|].enqueued && ss[|es|].written == []
  {
    ss, es := SawEmpty(cap, x);
    ss, es := Extend(ss, es, Enqueue(0));
    ss, es := Extend(ss, es, FlushBegin);
    ss, es := Extend(ss, es, SyncReturn(1));
  }

  lemma StepSnapshot(s: State, e: Event)
    requires s.closed && Enabled(s, e)
    ensures Next(s, e).closed && Next(s, e).atClose == s.atClose && Next(s, e).overlap == s.overlap
    ensures s.enqueued <= Next(s, e).enqueued
  {
  }

  /** The close snapshot is fixed: it is the enqueue history at the step that set `closed`. */
  lemma {:induction false} SnapshotFixed(ss: seq<State>, es: seq<Event>, i: nat, j: nat)
    requires Run(ss, es) && i < j < |ss| && es[i].SetClosed?
    ensures ss[j].closed && ss[j].atClose == |ss[i].enqueued| && ss[i].enqueued <= ss[j].enqueued
    ensures ss[j].overlap == At(ss[i].threads, InSend)
  {
    if i + 1 == j {
      assert ss[j] == Next(ss[i], es[i]);
    } else {
      SnapshotFixed(ss, es, i, j - 1);
      StepSnapshot(ss[j - 1], es[j - 1]);
    }
  }
}
