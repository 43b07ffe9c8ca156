/**
 * The in-memory queue as a step system: publishers, delayed publishers, consumer
 * workers, one-shot receivers and Close race on one channel, one atomic channel,
 * lock or counter action at a time.
 */
module MemoryQueue {
  import opened Threads
  import opened Message

  /** A message in the system: which publish it stems from, and whether a nack requeued it. */
  datatype Item = Item(root: nat, clone: bool, m: Msg)

  datatype PC =
    | Out
    | Delayed(item: Item)                // delayed publish, timer running
    | Ready(item: Item)                  // publishItem, before the context check
    | Sending(item: Item)                // in sendMessage
    | Counting                           // sent, totalPublished not yet bumped
    | Took(item: Item)                   // worker received, not yet counted in flight
    | Handling(item: Item, worker: bool) // with a handler, or with a Receive caller
    | Requeue(item: Item, worker: bool)  // in the nack callback, in sendMessage
    | Closing                            // Close, flag set, waiting to close the channel

  datatype State = State(
    cap: nat,
    ch: seq<Item>,
    chClosed: bool,
    closed: bool,
    inFlight: int,
    totalPublished: nat,
    threads: map<Tid, PC>,
    base: seq<Msg>,       // history: the message of each publish
    sent: seq<Item>,      // history: successful channel sends
    refused: seq<Item>,   // history: publishes that returned ErrQueueClosed from sendMessage
    dropped: seq<Item>,   // history: publishes given up because their context was done
    done: seq<Item>,      // history: messages their taker has finished with
    taken: seq<Item>,     // history: channel receives ...
    takers: seq<Tid>)     // ... and who made them

  datatype Event =
    | Publish(t: Tid, m: Msg)
    | PublishDelayed(t: Tid, timer: Tid, m: Msg)
    | Fire(t: Tid)
    | Expire(t: Tid)
    | Abort(t: Tid)
    | Attempt(t: Tid)
    | SendOk(t: Tid)
    | SendFail(t: Tid)
    | AddTotal(t: Tid)
    | Take(t: Tid)
    | Receive(t: Tid)
    | Enter(t: Tid)
    | Settled(t: Tid)
    | NackRequeue(t: Tid)
    | RequeueOk(t: Tid)
    | RequeueFail(t: Tid)
    | Finish(t: Tid)
    | SetClosed(t: Tid)
    | CloseChan(t: Tid)

  function Pc(s: State, t: Tid): PC {
    if t in s.threads then s.threads[t] else Out
  }

  function Go(s: State, t: Tid, pc: PC): State {
    s.(threads := s.threads[t := pc])
  }

  predicate Open(s: State) {
    !s.chClosed && |s.ch| < s.cap
  }

  predicate Enabled(s: State, e: Event) {
    var pc := Pc(s, e.t);
    match e
    case Publish(_, _) => pc.Out? && !s.closed
    case PublishDelayed(t, timer, _) => pc.Out? && t != timer && Pc(s, timer).Out? && !s.closed
    case Fire(_) => pc.Delayed?
    case Expire(_) => pc.Delayed?
    case Abort(_) => pc.Ready?
    case Attempt(_) => pc.Ready?
    case SendOk(_) => pc.Sending? && Open(s)
    case SendFail(_) => pc.Sending? && s.chClosed
    case AddTotal(_) => pc.Counting?
    case Take(_) => pc.Out? && s.ch != []
    case Receive(_) => pc.Out? && s.ch != []
    case Enter(_) => pc.Took?
    case Settled(_) => pc.Handling?
    case NackRequeue(_) => pc.Handling? && !pc.item.m.settled
    case RequeueOk(_) => pc.Requeue? && Open(s)
    case RequeueFail(_) => pc.Requeue? && s.chClosed
    case Finish(_) => pc.Handling?
    case SetClosed(_) => pc.Out? && !s.closed
    case CloseChan(_) => pc.Closing?
  }

  function WithFlag(i: Item, settled: bool): Item {
    i.(m := i.m.(settled := settled))
  }

  /** What the nack callback enqueues: a clone, with Attempts bumped by a Consume worker. */
  function Requeued(i: Item, worker: bool): Item {
    i.(clone := true, m := i.m.(attempts := i.m.attempts + Bit(worker)))
  }

  function Push(s: State, i: Item): State {
    s.(ch := s.ch + [i], sent := s.sent + [i])
  }

  function Pop(s: State, t: Tid): State
    requires s.ch != []
  {
    s.(ch := s.ch[1..], taken := s.taken + [s.ch[0]], takers := s.takers + [t])
  }

  function Next(s: State, e: Event): State
    requires Enabled(s, e)
  {
    var t := e.t;
    var pc := Pc(s, t);
    match e
    case Publish(_, m) => Go(s, t, Ready(Item(|s.base|, false, m))).(base := s.base + [m])
    case PublishDelayed(_, timer, m) =>
      Go(s, timer, Delayed(Item(|s.base|, false, m))).(base := s.base + [m])
    case Fire(_) => Go(s, t, Ready(pc.item))
    case Expire(_) => Go(s, t, Out).(dropped := s.dropped + [pc.item])
    case Abort(_) => Go(s, t, Out).(dropped := s.dropped + [pc.item])
    case Attempt(_) => Go(s, t, Sending(pc.item))
    case SendOk(_) => Push(Go(s, t, Counting), pc.item)
    case SendFail(_) => Go(s, t, Out).(refused := s.refused + [pc.item])
    case AddTotal(_) => Go(s, t, Out).(totalPublished := s.totalPublished + 1)
    case Take(_) => Pop(Go(s, t, Took(s.ch[0])), t)
    case Receive(_) => Pop(Go(s, t, Handling(s.ch[0], false)), t)
    case Enter(_) => Go(s, t, Handling(pc.item, true)).(inFlight := s.inFlight + 1)
    case Settled(_) => Go(s, t, Handling(WithFlag(pc.item, true), pc.worker))
    case NackRequeue(_) => Go(s, t, Requeue(WithFlag(pc.item, true), pc.worker))
    case RequeueOk(_) => Push(Go(s, t, Handling(pc.item, pc.worker)), Requeued(pc.item, pc.worker))
    case RequeueFail(_) => Go(s, t, Handling(WithFlag(pc.item, false), pc.worker))
    case Finish(_) => Go(s, t, Out).(inFlight := s.inFlight - Bit(pc.worker), done := s.done + [pc.item])
    case SetClosed(_) => Go(s, t, Closing).(closed := true)
    case CloseChan(_) => Go(s, t, Out).(chClosed := true)
  }

  ghost predicate Run(ss: seq<State>, es: seq<Event>) {
    && |ss| == |es| + 1
    && ss[0] == State(ss[0].cap, [], false, false, 0, 0, map[], [], [], [], [], [], [], [])
    && forall i | 0 <= i < |es| :: Enabled(ss[i], es[i]) && ss[i + 1] == Next(ss[i], es[i])
  }

  function Number(s: State, p: PC -> bool): nat {
    |At(s.threads, p)|
  }

  /** The goroutine a step moves. */
  function Mover(e: Event): Tid {
    if e.PublishDelayed? then e.timer else e.t
  }

  lemma Moved(s: State, e: Event, p: PC -> bool)
    requires Enabled(s, e) && !p(Out)
    ensures Number(Next(s, e), p) == Number(s, p) - Bit(p(Pc(s, Mover(e)))) + Bit(p(Pc(Next(s, e), Mover(e))))
  {
    Move(s.threads, Mover(e), Pc(Next(s, e), Mover(e)), p);
  }

  // ---- the channel ----

  ghost predicate Fifo(s: State) {
    && s.sent == s.taken + s.ch
    && |s.taken| == |s.takers|
    && |s.ch| <= s.cap
  }

  lemma StepFifo(s: State, e: Event)
    requires Fifo(s) && Enabled(s, e)
    ensures Fifo(Next(s, e))
  {
    if e.Take? || e.Receive? {
      TakeFifo(s, e.t);
    } else if e.SendOk? || e.RequeueOk? {
      PushFifo(s, if e.SendOk? then Pc(s, e.t).item else Requeued(Pc(s, e.t).item, Pc(s, e.t).worker));
    } else {
      ChannelUntouched(s, e);
    }
  }

  lemma TakeFifo(s: State, t: Tid)
    requires Fifo(s) && s.ch != []
    ensures Fifo(Pop(s, t))
  {
    assert s.ch == [s.ch[0]] + s.ch[1..];
  }

  lemma PushFifo(s: State, i: Item)
    requires Fifo(s) && Open(s)
    ensures Fifo(Push(s, i))
  {
  }

  lemma ChannelUntouched(s: State, e: Event)
    requires Enabled(s, e) && !(e.Take? || e.Receive? || e.SendOk? || e.RequeueOk?)
    ensures var s' := Next(s, e);
      s'.ch == s.ch && s'.sent == s.sent && s'.taken == s.taken && s'.takers == s.takers && s'.cap == s.cap
  {
  }

  /** Holding a message that counts in inFlight. */
  predicate InFlight(pc: PC) {
    (pc.Handling? || pc.Requeue?) && pc.worker
  }

  /** Consume workers holding a message that inFlight does not show yet. */
  predicate InGap(pc: PC) {
    pc.Took?
  }

  /** Consume workers holding a message. */
  predicate Holds(pc: PC) {
    InFlight(pc) || InGap(pc)
  }

  ghost predicate FlightLaw(s: State) {
    s.inFlight == Number(s, InFlight) && Number(s, Holds) == Number(s, InFlight) + Number(s, InGap)
  }

  lemma StepFlight(s: State, e: Event)
    requires FlightLaw(s) && Enabled(s, e)
    ensures FlightLaw(Next(s, e))
  {
    Moved(s, e, InFlight);
    Moved(s, e, InGap);
    Moved(s, e, Holds);
  }

  // ---- how often a publish is delivered ----

  function Original(r: nat): Item -> bool {
    (i: Item) => i.root == r && !i.clone
  }

  function CloneOf(r: nat): Item -> bool {
    (i: Item) => i.root == r && i.clone
  }

  /** Not yet sent. */
  function Pending(r: nat): PC -> bool {
    (pc: PC) => (pc.Delayed? || pc.Ready? || pc.Sending?) && pc.item.root == r
  }

  /** Holds the original of publish `r` and may still get a clone of it into the channel. */
  function MayRequeue(r: nat): PC -> bool {
    (pc: PC) => (pc.Requeue? || ((pc.Took? || pc.Handling?) && !pc.item.m.settled)) && pc.item.root == r
  }

  /** The original of publish `r` is on its way, sent, refused or dropped: exactly one of these, once. */
  ghost predicate OriginalOnce(s: State, r: nat) {
    CountIf(s.sent, Original(r)) + CountIf(s.refused, Original(r)) + CountIf(s.dropped, Original(r))
    + Number(s, Pending(r)) == Bit(r < |s.base|)
  }

  /** A clone is sent at most once for each time the original was taken. */
  ghost predicate CloneOnce(s: State, r: nat) {
    CountIf(s.sent, CloneOf(r)) + Number(s, MayRequeue(r)) <= CountIf(s.taken, Original(r))
  }

  predicate Carries(pc: PC) {
    !pc.Out? && !pc.Counting? && !pc.Closing?
  }

  /** An item is its publish's message, up to the flag and at most one more attempt. */
  ghost predicate Genuine(s: State, i: Item) {
    && i.root < |s.base|
    && var b := s.base[i.root];
    && i.m == b.(attempts := i.m.attempts, settled := i.m.settled)
    && b.attempts <= i.m.attempts <= b.attempts + Bit(i.clone)
    && (i.clone ==> i.m.settled)
  }

  /** What the goroutine at `pc` carries. */
  ghost predicate Carried(s: State, pc: PC)
    requires Carries(pc)
  {
    && Genuine(s, pc.item)
    && (pc.Delayed? || pc.Ready? || pc.Sending? || pc.Requeue? ==> !pc.item.clone)
    && (pc.Requeue? ==> pc.item.m.settled)
  }

  ghost predicate AllGenuine(s: State) {
    && (forall i | 0 <= i < |s.sent| :: Genuine(s, s.sent[i]))
    && (forall t | t in s.threads && Carries(s.threads[t]) :: Carried(s, s.threads[t]))
  }

  /** Only publishers are refused. */
  ghost predicate RefusedLaw(s: State) {
    forall k | 0 <= k < |s.refused| :: !s.refused[k].clone
  }

  /** The part of AllGenuine that a step of goroutine `t` looks at. */
  ghost predicate Local(s: State, t: Tid) {
    && (Carries(Pc(s, t)) ==> Carried(s, Pc(s, t)))
    && (s.ch != [] ==> Genuine(s, s.ch[0]))
  }

  lemma LocallyGenuine(s: State, t: Tid)
    requires AllGenuine(s) && Fifo(s)
    ensures Local(s, t)
  {
    if s.ch != [] {
      assert s.sent[|s.taken|] == s.ch[0];
    }
  }

  /** The new location of the goroutine that moves, and anything it sends, is genuine. */
  lemma MoverGenuine(s: State, e: Event)
    requires Local(s, e.t) && Enabled(s, e)
    ensures Carries(Pc(Next(s, e), Mover(e))) ==> Carried(Next(s, e), Pc(Next(s, e), Mover(e)))
    ensures e.SendOk? ==> Genuine(Next(s, e), Pc(s, e.t).item)
    ensures e.RequeueOk? ==> Genuine(Next(s, e), Requeued(Pc(s, e.t).item, Pc(s, e.t).worker))
  {
    if Publishing(e) {
      PublisherGenuine(s, e);
    } else {
      ConsumerGenuine(s, e);
    }
  }

  /** The steps of publishers, and of Close. */
  predicate Publishing(e: Event) {
    || e.Publish? || e.PublishDelayed? || e.Fire? || e.Expire? || e.Abort? || e.Attempt?
    || e.SendOk? || e.SendFail? || e.AddTotal? || e.SetClosed? || e.CloseChan?
  }

  lemma PublisherGenuine(s: State, e: Event)
    requires Local(s, e.t) && Enabled(s, e) && Publishing(e)
    ensures Carries(Pc(Next(s, e), Mover(e))) ==> Carried(Next(s, e), Pc(Next(s, e), Mover(e)))
    ensures e.SendOk? ==> Genuine(Next(s, e), Pc(s, e.t).item)
  {
  }

  lemma ConsumerGenuine(s: State, e: Event)
    requires Local(s, e.t) && Enabled(s, e) && !Publishing(e)
    ensures Carries(Pc(Next(s, e), e.t)) ==> Carried(Next(s, e), Pc(Next(s, e), e.t))
    ensures e.RequeueOk? ==> Genuine(Next(s, e), Requeued(Pc(s, e.t).item, Pc(s, e.t).worker))
  {
  }

  lemma StepGenuine(s: State, e: Event)
    requires AllGenuine(s) && Fifo(s) && Enabled(s, e)
    ensures AllGenuine(Next(s, e))
  {
    LocallyGenuine(s, e.t);
    MoverGenuine(s, e);
    var s' := Next(s, e);
    forall i | 0 <= i < |s'.sent| ensures Genuine(s', s'.sent[i]) {
      if i < |s.sent| {
        assert Genuine(s, s.sent[i]);
      }
    }
    forall t | t in s'.threads && Carries(s'.threads[t]) ensures Carried(s', s'.threads[t]) {
      if t != Mover(e) {
        assert Carried(s, s.threads[t]);
      }
    }
  }

  /** What a send step puts into the channel. */
  function Sends(s: State, e: Event): seq<Item>
    requires Enabled(s, e)
  {
    if e.SendOk? then [Pc(s, e.t).item]
    else if e.RequeueOk? then [Requeued(Pc(s, e.t).item, Pc(s, e.t).worker)]
    else []
  }

  /** What a publish step gives up because the channel is closed. */
  function Refuses(s: State, e: Event): seq<Item>
    requires Enabled(s, e)
  {
    if e.SendFail? then [Pc(s, e.t).item] else []
  }

  /** What a publish step gives up because the context is done. */
  function Drops(s: State, e: Event): seq<Item>
    requires Enabled(s, e)
  {
    if e.Expire? || e.Abort? then [Pc(s, e.t).item] else []
  }

  /** What a receive step takes out of it. */
  function Takes(s: State, e: Event): seq<Item>
    requires Enabled(s, e)
  {
    if e.Take? || e.Receive? then [s.ch[0]] else []
  }

  /** CountIf of a sequence of at most one item. */
  function Gain(xs: seq<Item>, p: Item -> bool): nat {
    Bit(xs != [] && p(xs[0]))
  }

  lemma Appended(xs: seq<Item>, ys: seq<Item>, p: Item -> bool)
    requires |ys| <= 1
    ensures CountIf(xs + ys, p) == CountIf(xs, p) + Gain(ys, p)
  {
    if ys == [] {
      assert xs + ys == xs;
    } else {
      assert ys == [ys[0]];
      Pushed(xs, ys[0], p);
    }
  }

  lemma Grown(s: State, e: Event, p: Item -> bool)
    requires Enabled(s, e)
    ensures CountIf(Next(s, e).sent, p) == CountIf(s.sent, p) + Gain(Sends(s, e), p)
    ensures CountIf(Next(s, e).taken, p) == CountIf(s.taken, p) + Gain(Takes(s, e), p)
    ensures CountIf(Next(s, e).refused, p) == CountIf(s.refused, p) + Gain(Refuses(s, e), p)
    ensures CountIf(Next(s, e).dropped, p) == CountIf(s.dropped, p) + Gain(Drops(s, e), p)
  {
    Appended(s.dropped, Drops(s, e), p);
    assert Next(s, e).dropped == s.dropped + Drops(s, e);
    Appended(s.sent, Sends(s, e), p);
    Appended(s.refused, Refuses(s, e), p);
    assert Next(s, e).refused == s.refused + Refuses(s, e);
    Appended(s.taken, Takes(s, e), p);
    assert Next(s, e).sent == s.sent + Sends(s, e);
    assert Next(s, e).taken == s.taken + Takes(s, e);
  }

  lemma OriginalBalance(s: State, e: Event, r: nat)
    requires Local(s, e.t) && Enabled(s, e)
    ensures var (m, s') := (Mover(e), Next(s, e));
      Gain(Sends(s, e), Original(r)) + Gain(Refuses(s, e), Original(r)) + Gain(Drops(s, e), Original(r))
      + Bit(Pending(r)(Pc(s', m))) + Bit(r < |s.base|)
      == Bit(Pending(r)(Pc(s, m))) + Bit(r < |s'.base|)
  {
    if Publishing(e) {
      OriginalPublished(s, e, r);
    } else {
      OriginalConsumed(s, e, r);
    }
  }

  lemma OriginalPublished(s: State, e: Event, r: nat)
    requires Local(s, e.t) && Enabled(s, e) && Publishing(e)
    ensures var (m, s') := (Mover(e), Next(s, e));
      Gain(Sends(s, e), Original(r)) + Gain(Refuses(s, e), Original(r)) + Gain(Drops(s, e), Original(r))
      + Bit(Pending(r)(Pc(s', m))) + Bit(r < |s.base|)
      == Bit(Pending(r)(Pc(s, m))) + Bit(r < |s'.base|)
  {
  }

  lemma OriginalConsumed(s: State, e: Event, r: nat)
    requires Local(s, e.t) && Enabled(s, e) && !Publishing(e)
    ensures Gain(Sends(s, e), Original(r)) == 0 == Gain(Refuses(s, e), Original(r)) == Gain(Drops(s, e), Original(r))
    ensures !Pending(r)(Pc(Next(s, e), e.t)) && !Pending(r)(Pc(s, e.t)) && Next(s, e).base == s.base
  {
  }

  lemma CloneBalance(s: State, e: Event, r: nat)
    requires Local(s, e.t) && Enabled(s, e)
    ensures var (m, s') := (Mover(e), Next(s, e));
      Gain(Sends(s, e), CloneOf(r)) + Bit(MayRequeue(r)(Pc(s', m)))
      <= Bit(MayRequeue(r)(Pc(s, m))) + Gain(Takes(s, e), Original(r))
  {
    if Publishing(e) {
      ClonePublished(s, e, r);
    } else {
      CloneConsumed(s, e, r);
    }
  }

  lemma ClonePublished(s: State, e: Event, r: nat)
    requires Local(s, e.t) && Enabled(s, e) && Publishing(e)
    ensures Gain(Sends(s, e), CloneOf(r)) == 0 && !MayRequeue(r)(Pc(Next(s, e), Mover(e)))
  {
  }

  lemma CloneConsumed(s: State, e: Event, r: nat)
    requires Local(s, e.t) && Enabled(s, e) && !Publishing(e)
    ensures Gain(Sends(s, e), CloneOf(r)) + Bit(MayRequeue(r)(Pc(Next(s, e), e.t)))
      <= Bit(MayRequeue(r)(Pc(s, e.t))) + Gain(Takes(s, e), Original(r))
  {
  }

  lemma StepOriginal(s: State, e: Event, r: nat)
    requires OriginalOnce(s, r) && Local(s, e.t) && Enabled(s, e)
    ensures OriginalOnce(Next(s, e), r)
  {
    OriginalBalance(s, e, r);
    Moved(s, e, Pending(r));
    Grown(s, e, Original(r));
  }

  lemma StepClone(s: State, e: Event, r: nat)
    requires CloneOnce(s, r) && Local(s, e.t) && Enabled(s, e)
    ensures CloneOnce(Next(s, e), r)
  {
    CloneBalance(s, e, r);
    Moved(s, e, MayRequeue(r));
    Grown(s, e, CloneOf(r));
    Grown(s, e, Original(r));
  }

  // ---- every run ----

  ghost predicate Inv(s: State) {
    && Fifo(s)
    && FlightLaw(s)
    && AllGenuine(s)
    && RefusedLaw(s)
    && forall r: nat :: OriginalOnce(s, r) && CloneOnce(s, r)
  }

  lemma StepInv(s: State, e: Event)
    requires Inv(s) && Enabled(s, e)
    ensures Inv(Next(s, e))
  {
    StepFifo(s, e);
    StepFlight(s, e);
    StepGenuine(s, e);
    LocallyGenuine(s, e.t);
    forall r: nat ensures OriginalOnce(Next(s, e), r) && CloneOnce(Next(s, e), r) {
      assert OriginalOnce(s, r) && CloneOnce(s, r);
      StepOriginal(s, e, r);
      StepClone(s, e, r);
    }
  }

  lemma {:induction false} RunInv(ss: seq<State>, es: seq<Event>, i: nat)
    requires Run(ss, es) && i < |ss|
    ensures Inv(ss[i])
  {
    if i == 0 {
      forall p: PC -> bool ensures Number(ss[0], p) == 0 {
        assert At(ss[0].threads, p) == {};
      }
    } else {
      RunInv(ss, es, i - 1);
      StepInv(ss[i - 1], es[i - 1]);
    }
  }

  /**
   * In every reachable state the successful sends are what was taken followed by
   * what is in the channel, in order, and each receive has one taker.
   */
  lemma NothingLostOrReordered(ss: seq<State>, es: seq<Event>, i: nat)
    requires Run(ss, es) && i < |ss|
    ensures ss[i].sent == ss[i].taken + ss[i].ch
    ensures |ss[i].takers| == |ss[i].taken|
    ensures |ss[i].ch| <= ss[i].cap
  {
    RunInv(ss, es, i);
  }

  lemma StepGrows(s: State, e: Event)
    requires Enabled(s, e)
    ensures var s' := Next(s, e);
      && s.sent <= s'.sent && s.taken <= s'.taken && s.takers <= s'.takers && s.refused <= s'.refused
      && (s.chClosed ==> s'.chClosed && s'.sent == s.sent)
  {
  }

  /** Histories only grow, and once the channel is closed the sends never grow again. */
  lemma {:induction false} ClosedForGood(ss: seq<State>, es: seq<Event>, i: nat, j: nat)
    requires Run(ss, es) && i <= j < |ss|
    ensures ss[i].sent <= ss[j].sent && ss[i].taken <= ss[j].taken && ss[i].takers <= ss[j].takers
    ensures ss[i].refused <= ss[j].refused
    ensures ss[i].chClosed ==> ss[j].chClosed && ss[j].sent == ss[i].sent
    decreases j - i
  {
    if i < j {
      StepGrows(ss[i], es[i]);
      ClosedForGood(ss, es, i + 1, j);
    }
  }

  /**
   * In every run, from the moment the channel is closed: a goroutine in sendMessage is
   * never blocked, and its only step is to fail. A publish then returns ErrQueueClosed
   * and its message is never sent; a requeue leaves its message unsettled.
   */
  lemma ClosedSendFails(ss: seq<State>, es: seq<Event>, i: nat, j: nat, t: Tid)
    requires Run(ss, es) && i <= j < |es| && ss[i].chClosed
    requires Pc(ss[j], t).Sending? || Pc(ss[j], t).Requeue?
    ensures Enabled(ss[j], if Pc(ss[j], t).Sending? then SendFail(t) else RequeueFail(t))
    ensures es[j].t == t ==> es[j] == if Pc(ss[j], t).Sending? then SendFail(t) else RequeueFail(t)
    ensures es[j] == SendFail(t) ==> ss[j + 1].refused == ss[j].refused + [Pc(ss[j], t).item]
    ensures es[j] == RequeueFail(t) ==> !Pc(ss[j + 1], t).item.m.settled
    ensures ss[j + 1].sent == ss[i].sent
  {
    ClosedForGood(ss, es, i, j);
    ClosedForGood(ss, es, i, j + 1);
  }

  /** A sender is blocked exactly while the channel is open and full. */
  lemma BlockedIff(ss: seq<State>, es: seq<Event>, i: nat, t: Tid)
    requires Run(ss, es) && i < |ss| && Pc(ss[i], t).Sending?
    ensures !Enabled(ss[i], SendOk(t)) && !Enabled(ss[i], SendFail(t)) <==>
      !ss[i].chClosed && |ss[i].ch| == ss[i].cap
  {
    RunInv(ss, es, i);
  }

  lemma {:induction false} StaysClosed(ss: seq<State>, es: seq<Event>, i: nat, j: nat)
    requires Run(ss, es) && i <= j < |ss| && ss[i].closed
    ensures ss[j].closed
    decreases j - i
  {
    if i < j {
      StaysClosed(ss, es, i + 1, j);
    }
  }

  /** From the step in which Close sets the flag on, no publish begins, and no second Close. */
  lemma ClosedRefusesPublish(ss: seq<State>, es: seq<Event>, i: nat, j: nat)
    requires Run(ss, es) && i < j < |es| && es[i].SetClosed?
    ensures !es[j].Publish? && !es[j].PublishDelayed? && !es[j].SetClosed?
  {
    StaysClosed(ss, es, i + 1, j);
  }

  lemma SettledStep(s: State, e: Event, t: Tid)
    requires Enabled(s, e) && e != Finish(t) && Pc(s, t).Handling? && Pc(s, t).item.m.settled
    ensures Pc(Next(s, e), t) == Pc(s, t)
  {
  }

  /** A message its taker has settled stays settled, so it is not requeued after that. */
  lemma {:induction false} SettledStays(ss: seq<State>, es: seq<Event>, i: nat, j: nat, t: Tid)
    requires Run(ss, es) && i < j < |ss| && es[i] == Settled(t) && forall k | i < k < j :: es[k] != Finish(t)
    ensures Pc(ss[j], t).Handling? && Pc(ss[j], t).item == WithFlag(Pc(ss[i], t).item, true)
    ensures Pc(ss[j], t).item.m.settled
    ensures j < |es| ==> es[j] != NackRequeue(t)
    decreases j
  {
    if i + 1 < j {
      SettledStays(ss, es, i, j - 1, t);
      SettledStep(ss[j - 1], es[j - 1], t);
    }
  }

  lemma {:induction false} CountSome(xs: seq<Item>, k: nat, p: Item -> bool)
    requires k < |xs| && p(xs[k])
    ensures CountIf(xs, p) >= 1
  {
    var n := |xs| - 1;
    CountLast(xs, p);
    if k < n {
      CountSome(xs[..n], k, p);
    }
  }

  /** A publish that returned ErrQueueClosed is never enqueued, then or later, nor is a clone of it. */
  lemma RefusedNeverSent(ss: seq<State>, es: seq<Event>, i: nat, j: nat, k: nat)
    requires Run(ss, es) && i <= j < |ss| && k < |ss[i].refused|
    ensures CountIf(ss[j].sent, Original(ss[i].refused[k].root)) == 0
    ensures CountIf(ss[j].sent, CloneOf(ss[i].refused[k].root)) == 0
  {
    var item := ss[i].refused[k];
    ClosedForGood(ss, es, i, j);
    RunInv(ss, es, j);
    assert ss[j].refused[k] == item && !item.clone;
    CountSome(ss[j].refused, k, Original(item.root));
    assert OriginalOnce(ss[j], item.root) && CloneOnce(ss[j], item.root);
    CountConcat(ss[j].taken, ss[j].ch, Original(item.root));
  }

  /**
   * Every publish is, at every moment of every run, in exactly one place: on its way, in
   * the send history, refused with ErrQueueClosed, or dropped by its context, and there once.
   */
  lemma EveryPublish(ss: seq<State>, es: seq<Event>, i: nat, r: nat)
    requires Run(ss, es) && i < |ss| && r < |ss[i].base|
    ensures CountIf(ss[i].sent, Original(r)) + CountIf(ss[i].refused, Original(r))
      + CountIf(ss[i].dropped, Original(r)) + Number(ss[i], Pending(r)) == 1
  {
    RunInv(ss, es, i);
    assert OriginalOnce(ss[i], r);
  }

  /** A successful send of a publisher. */
  predicate IsOriginal(i: Item) {
    !i.clone
  }

  predicate IsCounting(pc: PC) {
    pc.Counting?
  }

  /** Where a message is that was taken and not yet finished with. */
  predicate Taken(pc: PC) {
    pc.Took? || pc.Handling? || pc.Requeue?
  }

  ghost predicate Counted(s: State) {
    s.totalPublished + Number(s, IsCounting) == CountIf(s.sent, IsOriginal)
  }

  lemma StepCounted(s: State, e: Event)
    requires Local(s, e.t) && Enabled(s, e) && Counted(s)
    ensures Counted(Next(s, e))
  {
    Moved(s, e, IsCounting);
    Grown(s, e, IsOriginal);
  }

  lemma StepTaken(s: State, e: Event)
    requires Enabled(s, e) && |s.taken| == Number(s, Taken) + |s.done|
    ensures |Next(s, e).taken| == Number(Next(s, e), Taken) + |Next(s, e).done|
  {
    Moved(s, e, Taken);
  }

  /**
   * In every run totalPublished is the number of messages that publishers have put into the
   * channel, less those whose caller has not counted them yet; and every message taken is
   * with one taker or finished with, never both.
   */
  lemma {:induction false} Totals(ss: seq<State>, es: seq<Event>, i: nat)
    requires Run(ss, es) && i < |ss|
    ensures ss[i].totalPublished + Number(ss[i], IsCounting) == CountIf(ss[i].sent, IsOriginal)
    ensures |ss[i].taken| == Number(ss[i], Taken) + |ss[i].done|
  {
    if i == 0 {
      assert At(ss[0].threads, IsCounting) == {} == At(ss[0].threads, Taken);
      CountEmpty(IsOriginal);
    } else {
      Totals(ss, es, i - 1);
      RunInv(ss, es, i - 1);
      LocallyGenuine(ss[i - 1], es[i - 1].t);
      StepCounted(ss[i - 1], es[i - 1]);
      StepTaken(ss[i - 1], es[i - 1]);
    }
  }

  /**
   * What a requeue sends is the published message, settled, with Attempts exactly one higher
   * if a Consume worker requeued it and unchanged if a Receive caller did.
   */
  lemma RequeueExact(ss: seq<State>, es: seq<Event>, i: nat, t: Tid)
    requires Run(ss, es) && i < |es| && es[i] == RequeueOk(t)
    ensures var (s, pc) := (ss[i], Pc(ss[i], t));
      && pc.Requeue? && pc.item.root < |s.base|
      && var b := s.base[pc.item.root];
      var m := b.(settled := true, attempts := b.attempts + if pc.worker then 1 else 0);
      ss[i + 1].sent == s.sent + [Item(pc.item.root, true, m)]
  {
    RunInv(ss, es, i);
    LocallyGenuine(ss[i], t);
  }

  /**
   * Each publish is delivered at most twice: its original at most once and, after
   * a nack with requeue, one clone. Any delivery carries the published message
   * with Attempts raised by at most one.
   */
  lemma AtMostTwoDeliveries(ss: seq<State>, es: seq<Event>, i: nat, r: nat)
    requires Run(ss, es) && i < |ss|
    ensures CountIf(ss[i].taken, Original(r)) <= 1
    ensures CountIf(ss[i].taken, CloneOf(r)) <= CountIf(ss[i].taken, Original(r))
    ensures forall k | 0 <= k < |ss[i].taken| :: Genuine(ss[i], ss[i].taken[k])
  {
    var s := ss[i];
    RunInv(ss, es, i);
    assert OriginalOnce(s, r) && CloneOnce(s, r);
    CountConcat(s.taken, s.ch, Original(r));
    CountConcat(s.taken, s.ch, CloneOf(r));
    forall k | 0 <= k < |s.taken| ensures Genuine(s, s.taken[k]) {
      assert s.sent[k] == s.taken[k];
    }
  }

  function RootBelow(n: nat): Item -> bool {
    (i: Item) => i.root < n
  }

  lemma {:induction false} CountByRoot(xs: seq<Item>, n: nat)
    ensures CountIf(xs, RootBelow(n + 1))
         == CountIf(xs, RootBelow(n)) + CountIf(xs, Original(n)) + CountIf(xs, CloneOf(n))
  {
    if xs != [] {
      CountByRoot(xs[..|xs| - 1], n);
      CountLast(xs, RootBelow(n + 1));
      CountLast(xs, RootBelow(n));
      CountLast(xs, Original(n));
      CountLast(xs, CloneOf(n));
    }
  }

  lemma {:induction false} CountAll(xs: seq<Item>, n: nat)
    requires forall k | 0 <= k < |xs| :: xs[k].root < n
    ensures CountIf(xs, RootBelow(n)) == |xs|
  {
    if xs != [] {
      CountAll(xs[..|xs| - 1], n);
      CountLast(xs, RootBelow(n));
    }
  }

  lemma {:induction false} CountNone(xs: seq<Item>)
    ensures CountIf(xs, RootBelow(0)) == 0
  {
    if xs != [] {
      CountNone(xs[..|xs| - 1]);
      CountLast(xs, RootBelow(0));
    }
  }

  lemma {:induction false} TwicePerRoot(ss: seq<State>, es: seq<Event>, i: nat, n: nat)
    requires Run(ss, es) && i < |ss|
    ensures CountIf(ss[i].taken, RootBelow(n)) <= 2 * n
  {
    if n == 0 {
      CountNone(ss[i].taken);
    } else {
      TwicePerRoot(ss, es, i, n - 1);
      AtMostTwoDeliveries(ss, es, i, n - 1);
      CountByRoot(ss[i].taken, n - 1);
    }
  }

  /** A handler that always nacks cannot loop: all deliveries together are at most twice the publishes. */
  lemma RequeueTerminates(ss: seq<State>, es: seq<Event>, i: nat)
    requires Run(ss, es) && i < |ss|
    ensures |ss[i].taken| <= 2 * |ss[i].base|
  {
    AtMostTwoDeliveries(ss, es, i, 0);
    CountAll(ss[i].taken, |ss[i].base|);
    TwicePerRoot(ss, es, i, |ss[i].base|);
  }

  predicate IsTake(e: Event) {
    e.Take?
  }

  predicate IsEnter(e: Event) {
    e.Enter?
  }

  /** The gap holds the workers that have taken a message and not yet entered the handler's part. */
  lemma {:induction false} GapCount(ss: seq<State>, es: seq<Event>, i: nat)
    requires Run(ss, es) && i < |ss|
    ensures Number(ss[i], InGap) == CountIf(es[..i], IsTake) - CountIf(es[..i], IsEnter)
  {
    if i == 0 {
      assert At(ss[0].threads, InGap) == {};
    } else {
      GapCount(ss, es, i - 1);
      assert es[..i] == es[..i - 1] + [es[i - 1]];
      Pushed(es[..i - 1], es[i - 1], IsTake);
      Pushed(es[..i - 1], es[i - 1], IsEnter);
      Moved(ss[i - 1], es[i - 1], InGap);
    }
  }

  /**
   * In every run inFlight is the number of workers that hold a message, less those in
   * the gap between taking it and counting it.
   */
  lemma InFlightCounts(ss: seq<State>, es: seq<Event>, i: nat)
    requires Run(ss, es) && i < |ss|
    ensures ss[i].inFlight == Number(ss[i], InFlight) >= 0
    ensures Number(ss[i], Holds) == ss[i].inFlight + Number(ss[i], InGap)
  {
    RunInv(ss, es, i);
  }

  /**
   * inFlight at zero means that no worker holds a message if and only if as many workers
   * have entered as have taken a message so far.
   */
  lemma DrainedIff(ss: seq<State>, es: seq<Event>, i: nat)
    requires Run(ss, es) && i < |ss| && ss[i].inFlight == 0
    ensures Number(ss[i], Holds) == 0 <==> CountIf(es[..i], IsTake) == CountIf(es[..i], IsEnter)
  {
    InFlightCounts(ss, es, i);
    GapCount(ss, es, i);
  }

  lemma Extend(ss: seq<State>, es: seq<Event>, e: Event) returns (ss': seq<State>, es': seq<Event>)
    requires Run(ss, es) && Enabled(ss[|es|], e)
    ensures Run(ss', es') && ss'[|es'|] == Next(ss[|es|], e)
  {
    ss', es' := ss + [Next(ss[|es|], e)], es + [e];
  }

  /** One message published and just taken by worker 1. */
  lemma JustTaken(m: Msg) returns (ss: seq<State>, es: seq<Event>)
    ensures Run(ss, es)
    ensures var i := Item(0, false, m);
      ss[|es|] == State(1, [], false, false, 0, 0, map[0 := Counting, 1 := Took(i)], [m], [i], [], [], [], [i], [1])
  {
    ss, es := [State(1, [], false, false, 0, 0, map[], [], [], [], [], [], [], [])], [];
    ss, es := Extend(ss, es, Publish(0, m));
    ss, es := Extend(ss, es, Attempt(0));
    ss, es := Extend(ss, es, SendOk(0));
    ss, es := Extend(ss, es, Take(1));
  }

  /** Close can find inFlight at zero, and close the channel, while a worker holds a message. */
  lemma DrainMissesTheGap(m: Msg) returns (ss: seq<State>, es: seq<Event>)
    ensures Run(ss, es) && ss[|es|].chClosed && ss[|es|].inFlight == 0 && ss[|es|].ch == []
    ensures Pc(ss[|es|], 1) == Took(Item(0, false, m))
  {
    ss, es := JustTaken(m);
    ss, es := Extend(ss, es, SetClosed(2));
    ss, es := Extend(ss, es, CloseChan(2));
  }
}
