/**
 * The exact bound of the per-key limiter: runs that attain it, and runs in which evictions
 * leave a key without any.
 */
module KeyRateBounds {
  import opened Threads
  import opened KeyRateLimit

  lemma ExtendRun(ls: seq<Limiter>, rs: seq<Request>, r: Request)
    requires Run(ls, rs) && (rs != [] ==> rs[|rs| - 1].now <= r.now) && Legal(ls[|rs|], r)
    ensures Run(ls + [After(ls[|rs|], r)], rs + [r])
  {
    var n := |rs|;
    assert forall i | 0 <= i < n :: rs[i].now <= rs[n - 1].now;
  }

  lemma ExtendAccepted(ls: seq<Limiter>, rs: seq<Request>, r: Request, key: Key)
    requires |ls| == |rs| + 1
    ensures Accepted(ls + [After(ls[|rs|], r)], rs + [r], key) == Accepted(ls, rs, key) + Adds(ls[|rs|], r, key)
  {
    assert (ls + [After(ls[|rs|], r)])[..|rs| + 1] == ls;
    assert (rs + [r])[..|rs|] == rs;
  }

  lemma ExtendCount(ls: seq<Limiter>, rs: seq<Request>, r: Request, key: Key, p: Accept -> bool)
    requires |ls| == |rs| + 1
    ensures CountIf(Accepted(ls + [After(ls[|rs|], r)], rs + [r], key), p)
      == CountIf(Accepted(ls, rs, key), p)
         + Bit(r.key == key && Accepts(ls[|rs|], r) && p(Accept(r.now, Current(ls[|rs|], r).start)))
  {
    ExtendAccepted(ls, rs, r, key);
    if r.key == key && Accepts(ls[|rs|], r) {
      Pushed(Accepted(ls, rs, key), Accept(r.now, Current(ls[|rs|], r).start), p);
    } else {
      assert Accepted(ls, rs, key) + [] == Accepted(ls, rs, key);
    }
  }

  // ---- one key: 2*cap - 1 requests within a window length ----

  /** A run of key "k" alone, and what it had accepted in the window that starts one tick before `window`. */
  ghost predicate Burst(ls: seq<Limiter>, rs: seq<Request>, l: Limiter, b: Bucket, now: int, accepted: nat) {
    && Run(ls, rs) && ls[0] == l && rs != [] && rs[|rs| - 1].now <= now
    && FromKeys(rs, {"k"})
    && ls[|rs|] == l.(buckets := map["k" := b])
    && CountIf(Accepted(ls, rs, "k"), Within(l.window - 1, l.window)) == accepted
  }

  lemma OneBucket(l: Limiter, b: Bucket, r: Request)
    requires Accepts(l, r) && r.key == "k" && l.buckets == map["k" := b]
    ensures var b := Current(l, r); After(l, r) == l.(buckets := map["k" := b.(count := b.count + 1)])
  {
    assert After(l, r).buckets == map["k" := After(l, r).buckets["k"]];
  }

  /** One more request: in the bucket's window if that is still open, else in a new one. */
  lemma Extend(ls: seq<Limiter>, rs: seq<Request>, l: Limiter, b: Bucket, now: int, accepted: nat, at: int)
    returns (ls': seq<Limiter>, rs': seq<Request>)
    requires Usable(l) && Burst(ls, rs, l, b, now, accepted) && now <= at
    requires at - b.start < l.window ==> b.count < l.cap
    ensures Burst(ls', rs', l, if at - b.start < l.window then b.(count := b.count + 1) else Bucket(at, 1), at,
                  accepted + Bit(l.window - 1 <= at < l.window - 1 + l.window))
  {
    var last, r := ls[|rs|], Request("k", at, "");
    assert last.buckets["k"] == b;
    ls', rs' := ls + [After(last, r)], rs + [r];
    ExtendRun(ls, rs, r);
    ExtendCount(ls, rs, r, "k", Within(l.window - 1, l.window));
    OneBucket(last, b, r);
  }

  /** One request at time 0 opens a window; `m` more come just before it ends. */
  lemma {:induction false} LateInWindow(l: Limiter, m: nat) returns (ls: seq<Limiter>, rs: seq<Request>)
    requires Usable(l) && l.buckets == map[] && 2 <= l.window && m < l.cap
    ensures Burst(ls, rs, l, Bucket(0, m + 1), l.window - 1, m)
  {
    if m == 0 {
      var r := Request("k", 0, "");
      ls, rs := [l, After(l, r)], [r];
      assert ls[..1] == [l] && rs[..0] == [];
      Pushed([], Accept(0, 0), Within(l.window - 1, l.window));
      assert [] + [Accept(0, 0)] == [Accept(0, 0)];
    } else {
      ls, rs := LateInWindow(l, m - 1);
      ls, rs := Extend(ls, rs, l, Bucket(0, (m - 1) + 1), l.window - 1, m - 1, l.window - 1);
    }
  }

  /** The next window opens a window length after the first: one request there, cap - 1 just before. */
  lemma NextWindow(l: Limiter) returns (ls: seq<Limiter>, rs: seq<Request>)
    requires Usable(l) && l.buckets == map[] && 2 <= l.window
    ensures Burst(ls, rs, l, Bucket(l.window, 1), l.window, l.cap)
  {
    ls, rs := LateInWindow(l, l.cap - 1);
    ls, rs := Extend(ls, rs, l, Bucket(0, (l.cap - 1) + 1), l.window - 1, l.cap - 1, l.window);
  }

  /** And another `m` as soon as the next window can open: cap - 1 + m within one window length. */
  lemma {:induction false} BurstRun(l: Limiter, m: nat) returns (ls: seq<Limiter>, rs: seq<Request>)
    requires Usable(l) && l.buckets == map[] && 2 <= l.window && 1 <= m <= l.cap
    ensures Burst(ls, rs, l, Bucket(l.window, m), l.window, l.cap - 1 + m)
  {
    if m == 1 {
      ls, rs := NextWindow(l);
    } else {
      ls, rs := BurstRun(l, m - 1);
      ls, rs := Extend(ls, rs, l, Bucket(l.window, m - 1), l.window, l.cap - 1 + (m - 1), l.window);
    }
  }

  // ---- more keys than the map holds: no bound at all ----

  /** Different keys, by their lengths. */
  function Name(i: nat): (k: Key)
    ensures |k| == i + 1
  {
    seq(i + 1, _ => 'x')
  }

  /** The buckets of the first `n` names, each with one request at time 0. */
  function Filled(n: nat): (m: map<Key, Bucket>)
    ensures |m| == n
    ensures forall k | k in m :: 1 <= |k| <= n && m[k] == Bucket(0, 1)
    ensures forall i | 0 <= i < n :: Name(i) in m
  {
    if n == 0 then map[] else Filled(n - 1)[Name(n - 1) := Bucket(0, 1)]
  }

  /** A run of maxKeys + 1 keys, all at time 0, that ends with a full map. */
  ghost predicate Spree(ls: seq<Limiter>, rs: seq<Request>, l: Limiter, buckets: map<Key, Bucket>, accepted: nat) {
    && Run(ls, rs) && ls[0] == l && (rs != [] ==> rs[|rs| - 1].now == 0)
    && FromKeys(rs, Filled(l.maxKeys + 1).Keys)
    && ls[|rs|] == l.(buckets := buckets)
    && CountIf(Accepted(ls, rs, Name(0)), Within(0, l.window)) == accepted
  }

  lemma NewName(n: nat)
    ensures Name(n) !in Filled(n) && Filled(n + 1) == Filled(n)[Name(n) := Bucket(0, 1)]
  {
  }

  /** What a key without a bucket finds and leaves. */
  lemma ArriveState(l: Limiter, r: Request)
    requires Usable(l) && r.key != "" && r.now == 0 && r.key !in l.buckets
    requires |l.buckets| >= l.maxKeys ==>
      r.victim in l.buckets && forall k | k in l.buckets :: l.buckets[k] == Bucket(0, 1)
    ensures Legal(l, r) && Accepts(l, r) && Current(l, r) == Bucket(0, 0)
    ensures After(l, r) == l.(buckets :=
      (if |l.buckets| >= l.maxKeys then l.buckets - {r.victim} else l.buckets)[r.key := Bucket(0, 1)])
  {
  }

  /** A key without a bucket is accepted, at the cost of `victim` if the map is full. */
  lemma Arrive(ls: seq<Limiter>, rs: seq<Request>, l: Limiter, buckets: map<Key, Bucket>, accepted: nat,
               i: nat, victim: Key) returns (ls': seq<Limiter>, rs': seq<Request>)
    requires Usable(l) && Spree(ls, rs, l, buckets, accepted) && i <= l.maxKeys && Name(i) !in buckets
    requires |buckets| >= l.maxKeys ==> victim in buckets && forall k | k in buckets :: buckets[k] == Bucket(0, 1)
    ensures Spree(ls', rs', l,
                  (if |buckets| >= l.maxKeys then buckets - {victim} else buckets)[Name(i) := Bucket(0, 1)],
                  accepted + Bit(i == 0))
  {
    var r := Request(Name(i), 0, victim);
    ls', rs' := ls + [After(ls[|rs|], r)], rs + [r];
    ArriveState(ls[|rs|], r);
    ExtendRun(ls, rs, r);
    ExtendCount(ls, rs, r, Name(0), Within(0, l.window));
    assert Name(i) in Filled(l.maxKeys + 1);
    assert Name(i) == Name(0) <==> i == 0;
  }

  lemma {:induction false} Fill(l: Limiter, n: nat) returns (ls: seq<Limiter>, rs: seq<Request>)
    requires Usable(l) && l.buckets == map[] && n <= l.maxKeys
    ensures Spree(ls, rs, l, Filled(n), Bit(n > 0))
  {
    if n == 0 {
      ls, rs := [l], [];
      CountEmpty(Within(0, l.window));
    } else {
      ls, rs := Fill(l, n - 1);
      NewName(n - 1);
      ls, rs := Arrive(ls, rs, l, Filled(n - 1), Bit(n - 1 > 0), n - 1, "");
    }
  }

  /** Two keys in turn evict each other: each time round the first gets a fresh bucket. */
  lemma TakeTurns(ls: seq<Limiter>, rs: seq<Request>, l: Limiter, accepted: nat)
    returns (ls': seq<Limiter>, rs': seq<Request>)
    requires Usable(l) && Spree(ls, rs, l, Filled(l.maxKeys), accepted)
    ensures Spree(ls', rs', l, Filled(l.maxKeys), accepted + 1)
  {
    var full, n := Filled(l.maxKeys), l.maxKeys;
    NewName(n);
    ls', rs' := Arrive(ls, rs, l, full, accepted, n, Name(0));
    var swapped := (full - {Name(0)})[Name(n) := Bucket(0, 1)];
    Swap(full, Name(0), Name(n));
    ls', rs' := Arrive(ls', rs', l, swapped, accepted, 0, Name(n));
  }

  lemma Swap(full: map<Key, Bucket>, a: Key, b: Key)
    requires a in full && b !in full && full[a] == Bucket(0, 1)
    ensures var swapped := (full - {a})[b := Bucket(0, 1)];
      |swapped| == |full| && a !in swapped && (swapped - {b})[a := Bucket(0, 1)] == full
  {
    var less, swapped := full - {a}, (full - {a})[b := Bucket(0, 1)];
    assert full.Keys == less.Keys + {a} && swapped.Keys == less.Keys + {b};
  }

  /** With one key more than the map holds, one of them can have any number accepted at one instant. */
  lemma {:induction false} EvictionRun(l: Limiter, m: nat) returns (ls: seq<Limiter>, rs: seq<Request>)
    requires Usable(l) && l.buckets == map[]
    ensures Spree(ls, rs, l, Filled(l.maxKeys), m + 1)
  {
    if m == 0 {
      ls, rs := Fill(l, l.maxKeys);
    } else {
      ls, rs := EvictionRun(l, m - 1);
      ls, rs := TakeTurns(ls, rs, l, m);
    }
  }

  // ---- the exact bound ----

  /** In a run of `l` with at most `many` keys, at most `n` accepted requests of `key` from `a` to a window later. */
  ghost predicate AtMost(
      l: Limiter, many: nat, n: nat, ls: seq<Limiter>, rs: seq<Request>, keys: set<Key>, key: Key, a: int)
  {
    Run(ls, rs) && ls[0] == l && |keys| <= many && FromKeys(rs, keys) && key != "" ==>
      CountIf(Accepted(ls, rs, key), Within(a, l.window)) <= n
  }

  /**
   * No window length of any run with at most `many` keys holds more than `n` accepted
   * requests of a key, if and only if the keys fit the map and n >= 2*cap - 1.
   */
  lemma BoundIff(l: Limiter, many: nat, n: nat)
    requires Usable(l) && l.buckets == map[] && 2 <= l.window && 1 <= many
    ensures (forall ls, rs, keys, key, a :: AtMost(l, many, n, ls, rs, keys, key, a))
       <==> many <= l.maxKeys && 2 * l.cap - 1 <= n
  {
    if many > l.maxKeys {
      var ls, rs := EvictionRun(l, n);
      assert !AtMost(l, many, n, ls, rs, Filled(l.maxKeys + 1).Keys, Name(0), 0);
    } else if 2 * l.cap - 1 > n {
      var ls, rs := BurstRun(l, l.cap);
      assert !AtMost(l, many, n, ls, rs, {"k"}, "k", l.window - 1);
    } else {
      forall ls, rs, keys, key, a ensures AtMost(l, many, n, ls, rs, keys, key, a) {
        if Run(ls, rs) && ls[0] == l && |keys| <= many && FromKeys(rs, keys) && key != "" {
          FewKeysNeverEvict(ls, rs, keys, key, a);
        }
      }
    }
  }

  /** The sliding bound, in all runs with at most `many` keys, holds if and only if they fit the map and cap is 1. */
  lemma SlidingIff(l: Limiter, many: nat)
    requires Usable(l) && l.buckets == map[] && 2 <= l.window && 1 <= many
    ensures (forall ls, rs, keys, key, a :: AtMost(l, many, l.cap, ls, rs, keys, key, a))
       <==> many <= l.maxKeys && l.cap == 1
  {
    BoundIff(l, many, l.cap);
  }
}
