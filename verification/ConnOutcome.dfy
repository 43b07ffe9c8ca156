/** What the callers of the pool get: where Acquire's connections come from and where Release's go. */
module ConnOutcome {
  import opened Threads
  import opened ConnPool

  predicate Moves(e: Event, t: Tid) {
    e.t == t || (e.Handoff? && e.to == t)
  }

  lemma {:induction false} Stays(ss: seq<State>, es: seq<Event>, i: nat, j: nat, t: Tid)
    requires Run(ss, es) && i <= j < |ss| && forall k | i <= k < j :: !Moves(es[k], t)
    ensures Pc(ss[j], t) == Pc(ss[i], t)
    decreases j - i
  {
    if i < j {
      OthersStay(ss[i], es[i], t);
      Stays(ss, es, i + 1, j, t);
    }
  }

  lemma OthersStay(s: State, e: Event, t: Tid)
    requires Enabled(s, e) && !Moves(e, t)
    ensures Pc(Next(s, e), t) == Pc(s, t)
  {
    if !e.Handoff? {
      OneMoves(s, e);
    }
  }

  // ---- a connection whose send failed ----

  /** Being released after a failed send, or closed. */
  ghost predicate Doomed(s: State, t: Tid, c: Conn) {
    Pc(s, t) == RelLocked(c, true) || Occurs(s.shut, c) == 1
  }

  lemma ShutGrows(s: State, e: Event, c: Conn)
    requires Enabled(s, e)
    ensures Occurs(Next(s, e).shut, c) >= Occurs(s.shut, c)
  {
    var s' := Next(s, e);
    if s'.shut != s.shut {
      ShutOne(s, e);
      Appended(s.shut, s'.shut[|s.shut|], c);
    }
  }

  lemma ShutOne(s: State, e: Event)
    requires Enabled(s, e) && Next(s, e).shut != s.shut
    ensures var s' := Next(s, e); |s'.shut| == |s.shut| + 1 && s'.shut == s.shut + [s'.shut[|s.shut|]]
  {
  }

  lemma DecideDoomed(s: State, t: Tid, c: Conn)
    requires Pc(s, t) == RelLocked(c, true)
    ensures Enabled(s, Decide(t)) && Next(s, Decide(t)).shut == s.shut + [c]
  {
  }

  lemma OnlyDecide(s: State, e: Event, t: Tid)
    requires Enabled(s, e) && Moves(e, t) && Pc(s, t).RelLocked?
    ensures e == Decide(t)
  {
  }

  lemma StepDoomed(s: State, e: Event, t: Tid, c: Conn)
    requires Inv(s) && Enabled(s, e) && Doomed(s, t, c)
    ensures Doomed(Next(s, e), t, c)
  {
    StepPlaced(s, e);
    assert Places(Next(s, e), c) <= 1;
    ShutGrows(s, e, c);
    if Pc(s, t) == RelLocked(c, true) {
      if Moves(e, t) {
        OnlyDecide(s, e, t);
        DecideDoomed(s, t, c);
        Appended(s.shut, c, c);
      } else {
        OthersStay(s, e, t);
      }
    }
  }

  lemma {:induction false} StaysDoomed(ss: seq<State>, es: seq<Event>, i: nat, j: nat, t: Tid, c: Conn)
    requires Run(ss, es) && i <= j < |ss| && Doomed(ss[i], t, c)
    ensures Doomed(ss[j], t, c)
    decreases j - i
  {
    if i < j {
      RunInv(ss, es, i);
      StepDoomed(ss[i], es[i], t, c);
      StaysDoomed(ss, es, i + 1, j, t, c);
    }
  }

  lemma OneHolder(s: State, c: Conn, t: Tid, u: Tid)
    requires Number(s, Holder(c)) <= 1
    requires t in s.threads && Has(s.threads[t], c) && u in s.threads && Has(s.threads[u], c)
    ensures t == u
  {
    var holders := At(s.threads, Holder(c));
    assert t in holders && u in holders;
    if t != u {
      Smaller({t, u}, holders);
    }
  }

  /**
   * In every run, once a borrower has released a connection whose send failed, it is never
   * idle again nor with anybody else, and it is closed when the borrower moves on.
   */
  lemma FailedRelease(ss: seq<State>, es: seq<Event>, i: nat, j: nat, t: Tid, c: Conn)
    requires Run(ss, es) && i < j < |ss| && es[i] == Release(t, true) && Pc(ss[i], t) == Holding(c)
    ensures Occurs(ss[j].idle, c) == 0
    ensures forall u | u in ss[j].threads && Has(ss[j].threads[u], c) :: u == t
    ensures Pc(ss[j], t) == RelLocked(c, true) || Occurs(ss[j].shut, c) == 1
  {
    var s := ss[j];
    StaysDoomed(ss, es, i + 1, j, t, c);
    RunInv(ss, es, j);
    assert Places(s, c) <= 1;
    if Pc(s, t) == RelLocked(c, true) {
      assert t in At(s.threads, Holder(c));
      forall u | u in s.threads && Has(s.threads[u], c) ensures u == t {
        OneHolder(s, c, t, u);
      }
    } else {
      forall u | u in s.threads ensures !Has(s.threads[u], c) {
        assert u !in At(s.threads, Holder(c));
      }
    }
  }

  // ---- a connection whose send succeeded ----

  lemma {:induction false} ClosedSame(ss: seq<State>, es: seq<Event>, i: nat, j: nat, t: Tid)
    requires Run(ss, es) && i <= j < |ss| && forall k | i <= k < j :: Reader(Pc(ss[k], t))
    ensures ss[j].closed == ss[i].closed
    decreases j - i
  {
    if i < j {
      assert t in At(ss[i].threads, Reader);
      UnlessLocked(ss[i], es[i]);
      ClosedSame(ss, es, i + 1, j, t);
    }
  }

  lemma UnlessLocked(s: State, e: Event)
    requires Enabled(s, e) && Number(s, Reader) > 0
    ensures Next(s, e).closed == s.closed
  {
  }

  /**
   * Release after a successful send, by the two steps `k` and `l` that follow it. On a
   * closed pool the connection is closed. On an open one it goes to the end of the idle
   * channel if there is room, or straight to a waiting Acquire, and is closed otherwise.
   */
  lemma GoodRelease(ss: seq<State>, es: seq<Event>, i: nat, k: nat, l: nat, t: Tid, c: Conn)
    requires Run(ss, es) && i < k < l < |es|
    requires es[i] == Release(t, false) && Pc(ss[i], t) == Holding(c) && es[k].t == t && es[l].t == t
    requires forall n | i < n < l && n != k :: !Moves(es[n], t)
    ensures ss[i].closed ==> ss[k + 1].shut == ss[k].shut + [c] && ss[k + 1].idle == ss[k].idle
    ensures !ss[i].closed ==>
      ss[l + 1].shut == if es[l].Offer? && |ss[l].idle| >= ss[l].maxIdle then ss[l].shut + [c] else ss[l].shut
    ensures !ss[i].closed ==>
      || (es[l] == Offer(t) && |ss[l].idle| < ss[l].maxIdle && ss[l + 1].idle == ss[l].idle + [c])
      || (es[l] == Offer(t) && |ss[l].idle| >= ss[l].maxIdle)
      || (es[l].Handoff? && Pc(ss[l], es[l].to) == Wait && Pc(ss[l + 1], es[l].to) == Check(c, true))
  {
    StillLocked(ss, es, i, k, t, c);
    OnlyDecide(ss[k], es[k], t);
    if !ss[i].closed {
      RunInv(ss, es, l);
      Stays(ss, es, k + 1, l, t);
      OfferOutcome(ss[l], es[l], t, c);
      StillOpen(ss, es, k + 1, l, t, c);
    }
  }

  lemma StillLocked(ss: seq<State>, es: seq<Event>, i: nat, k: nat, t: Tid, c: Conn)
    requires Run(ss, es) && i < k < |es| && es[i] == Release(t, false) && Pc(ss[i], t) == Holding(c)
    requires forall n | i < n < k :: !Moves(es[n], t)
    ensures Pc(ss[k], t) == RelLocked(c, false) && ss[k].closed == ss[i].closed
  {
    forall n | i < n <= k ensures Pc(ss[n], t) == RelLocked(c, false) {
      Stays(ss, es, i + 1, n, t);
    }
    ClosedSame(ss, es, i + 1, k, t);
  }

  lemma StillOpen(ss: seq<State>, es: seq<Event>, i: nat, l: nat, t: Tid, c: Conn)
    requires Run(ss, es) && i <= l < |ss| && Pc(ss[i], t) == RelOffer(c)
    requires forall n | i <= n < l :: !Moves(es[n], t)
    ensures ss[l].closed == ss[i].closed
  {
    forall n | i <= n <= l ensures Pc(ss[n], t) == RelOffer(c) {
      Stays(ss, es, i, n, t);
    }
    ClosedSame(ss, es, i, l, t);
  }

  lemma OfferOutcome(s: State, e: Event, t: Tid, c: Conn)
    requires Inv(s) && Enabled(s, e) && e.t == t && Pc(s, t) == RelOffer(c)
    ensures e == Offer(t) || (e.Handoff? && Pc(s, e.to) == Wait && Pc(Next(s, e), e.to) == Check(c, true))
    ensures Next(s, e).idle == if e.Offer? && |s.idle| < s.maxIdle then s.idle + [c] else s.idle
    ensures Next(s, e).shut == if e.Offer? && |s.idle| >= s.maxIdle then s.shut + [c] else s.shut
  {
    assert t in At(s.threads, Offering);
  }

  // ---- what Acquire returns ----

  /** Inside Acquire, up to its return. */
  predicate InAcquire(pc: PC) {
    || pc.Poll? || pc.Wait? || pc.Check? || pc.Dial? || pc.Dialed?
    || ((pc.DecActive? || pc.DecSem?) && (pc.after == RetryPoll || pc.after == RetryWait || pc.after == DialError))
  }

  /**
   * Acquire takes the connection that has been idle longest; lends it if it is found usable
   * and closes it if not; otherwise lends the one it dialed. It returns without one only
   * when the pool is closed, the context is done, or the dial failed.
   */
  lemma AcquireOutcome(ss: seq<State>, es: seq<Event>, i: nat, t: Tid)
    requires Run(ss, es) && i < |es| && es[i].t == t && InAcquire(Pc(ss[i], t))
    ensures var (s, s', pc, pc') := (ss[i], ss[i + 1], Pc(ss[i], t), Pc(ss[i + 1], t));
      && (pc'.Holding? <==> es[i] == Usable(t) || es[i] == Count(t))
      && (pc'.Holding? ==> (pc.Check? || pc.Dialed?) && pc'.conn == pc.conn && s'.shut == s.shut)
      && (pc'.Out? <==> es[i] == SeeClosed(t) || es[i] == Cancel(t) || (es[i] == PopSem(t) && pc.after == DialError))
      && (es[i] == SeeClosed(t) ==> s.closed)
      && (es[i] == Unusable(t) <==> s'.shut != s.shut)
      && (es[i] == Unusable(t) ==> s'.shut == s.shut + [pc.conn])
      && (pc'.Check? ==> es[i] == TakeIdle(t) && s.idle == [pc'.conn] + s'.idle)
      && (pc.Poll? && pc'.Wait? ==> s.idle == [])
  {
    RunInv(ss, es, i);
  }

  // ---- the two loops of Acquire ----

  /** In the non-blocking loop over idle connections. */
  predicate Polling(pc: PC) {
    pc.Poll? || (pc.Check? && !pc.waiting) || pc == DecActive(RetryPoll) || pc == DecSem(RetryPoll)
  }

  /** In the blocking loop. */
  predicate Waiting(pc: PC) {
    pc.Wait? || (pc.Check? && pc.waiting) || pc == DecActive(RetryWait) || pc == DecSem(RetryWait)
  }

  lemma LoopStep(s: State, e: Event)
    requires Enabled(s, e) && !e.Handoff?
    ensures var (pc, pc') := (Pc(s, e.t), Pc(Next(s, e), e.t));
      && (Polling(pc') && !Polling(pc) ==> e.Enter?)
      && (Waiting(pc') && !Waiting(pc) ==> e.Miss? && Polling(pc) && s.idle == [])
  {
  }

  /**
   * Acquire polls from its start, and comes to the blocking loop only by finding the idle
   * channel empty; it never goes back. Nobody else is in either loop.
   */
  lemma LoopsOfAcquire(ss: seq<State>, es: seq<Event>, i: nat, t: Tid)
    requires Run(ss, es) && i < |es|
    ensures Polling(Pc(ss[i + 1], t)) && !Polling(Pc(ss[i], t)) ==> es[i] == Enter(t)
    ensures Waiting(Pc(ss[i + 1], t)) && !Waiting(Pc(ss[i], t)) ==>
      es[i] == Miss(t) && Polling(Pc(ss[i], t)) && ss[i].idle == []
  {
    if !Moves(es[i], t) {
      OthersStay(ss[i], es[i], t);
    } else if !es[i].Handoff? {
      LoopStep(ss[i], es[i]);
    }
  }

  lemma {:induction false} StaysClosed(ss: seq<State>, es: seq<Event>, i: nat, j: nat)
    requires Run(ss, es) && i <= j < |ss| && ss[i].closed
    ensures ss[j].closed
    decreases j - i
  {
    if i < j {
      StaysClosed(ss, es, i + 1, j);
    }
  }

  /** From the step in which Close sets the flag on, no Acquire begins, and no second Close. */
  lemma ClosedRefusesAcquire(ss: seq<State>, es: seq<Event>, i: nat, j: nat)
    requires Run(ss, es) && i < j < |es| && es[i].Lock?
    ensures !es[j].Enter? && !es[j].Lock?
  {
    StaysClosed(ss, es, i + 1, j);
  }
}
