/**
 * The per-key request limiter: fixed windows, despite the "sliding window" in its
 * comment. Keys are fingerprints, taken as given; the empty raw key is not limited.
 */
module KeyRateLimit {
  import opened Threads

  type Key = string

  datatype Bucket = Bucket(start: int, count: nat)

  datatype Limiter = Limiter(cap: nat, window: nat, maxKeys: nat, buckets: map<Key, Bucket>)

  /** One call of allow: the key, the clock, and the bucket evicted if one had to be. */
  datatype Request = Request(key: Key, now: int, victim: Key)

  predicate Usable(l: Limiter) {
    1 <= l.cap && 1 <= l.window && 1 <= l.maxKeys
  }

  // ---- what a call does, as a function ----

  predicate Oldest(buckets: map<Key, Bucket>, k: Key) {
    k in buckets && forall o | o in buckets :: buckets[k].start <= buckets[o].start
  }

  predicate Evicts(l: Limiter, r: Request) {
    r.key != "" && r.key !in l.buckets && |l.buckets| >= l.maxKeys
  }

  /** The evicted bucket is one with the smallest window start. */
  predicate Legal(l: Limiter, r: Request) {
    Evicts(l, r) ==> Oldest(l.buckets, r.victim)
  }

  predicate NewWindow(l: Limiter, r: Request) {
    r.key !in l.buckets || r.now - l.buckets[r.key].start >= l.window
  }

  /** The bucket the call counts against. */
  function Current(l: Limiter, r: Request): Bucket {
    if NewWindow(l, r) then Bucket(r.now, 0) else l.buckets[r.key]
  }

  predicate Accepts(l: Limiter, r: Request) {
    r.key == "" || Current(l, r).count < l.cap
  }

  function RetryAfter(l: Limiter, r: Request): int {
    if Accepts(l, r) then 0 else Current(l, r).start + l.window - r.now
  }

  function After(l: Limiter, r: Request): Limiter {
    if r.key == "" then l
    else
      var kept := if Evicts(l, r) then l.buckets - {r.victim} else l.buckets;
      var b := Current(l, r);
      l.(buckets := kept[r.key := if Accepts(l, r) then b.(count := b.count + 1) else b])
  }

  class KeyRateLimiter {
    const cap: nat
    const window: nat
    const maxKeys: nat
    var buckets: map<Key, Bucket>

    ghost function View(): Limiter
      reads this
    {
      Limiter(cap, window, maxKeys, buckets)
    }

    constructor (perMinute: int)
      ensures Usable(View()) && buckets == map[]
      ensures cap == (if perMinute <= 0 then 600 else perMinute) && window == 60_000_000_000 && maxKeys == 10000
    {
      cap := if perMinute <= 0 then 600 else perMinute;
      window := 60_000_000_000;
      maxKeys := 10000;
      buckets := map[];
    }

    method Allow(key: Key, now: int) returns (allowed: bool, retryAfter: int, ghost victim: Key)
      requires Usable(View()) && "" !in buckets
      modifies this
      ensures "" !in buckets
      ensures var l, r := old(View()), Request(key, now, victim);
        Legal(l, r) && View() == After(l, r) && allowed == Accepts(l, r) && retryAfter == RetryAfter(l, r)
    {
      victim := "";
      if key == "" {
        return true, 0, "";
      }
      if key !in buckets || now - buckets[key].start >= window {
        if key !in buckets && |buckets| >= maxKeys {
          victim := EvictOldest(now);
        }
        buckets := buckets[key := Bucket(now, 0)];
      }
      var b := buckets[key];
      if b.count >= cap {
        return false, b.start + window - now, victim;
      }
      buckets := buckets[key := b.(count := b.count + 1)];
      return true, 0, victim;
    }

    /**
     * Removes a bucket with the smallest window start, if its window is over or the map
     * is full; returns its key, or the empty key for an empty map.
     */
    method EvictOldest(now: int) returns (oldest: Key)
      requires "" !in buckets
      modifies this
      ensures old(buckets) == map[] ==> oldest == "" && buckets == old(buckets)
      ensures old(buckets) != map[] ==>
        oldest in old(buckets) && forall k | k in old(buckets) :: old(buckets)[oldest].start <= old(buckets)[k].start
      ensures oldest != "" ==>
        var gone := now - old(buckets)[oldest].start >= window || |old(buckets)| >= maxKeys;
        buckets == if gone then old(buckets) - {oldest} else old(buckets)
    {
      oldest := "";
      var oldestT, first, todo := 0, true, buckets.Keys;
      while todo != {}
        invariant todo <= buckets.Keys && (first ==> todo == buckets.Keys && oldest == "")
        invariant !first ==> oldest in buckets && oldestT == buckets[oldest].start
        invariant !first ==> forall k | k in buckets && k !in todo :: oldestT <= buckets[k].start
        decreases todo
      {
        var k :| k in todo;
        if first || buckets[k].start < oldestT {
          oldest, oldestT, first := k, buckets[k].start, false;
        }
        todo := todo - {k};
      }
      assert first ==> buckets.Keys == {};
      if oldest != "" && (now - oldestT >= window || |buckets| >= maxKeys) {
        buckets := buckets - {oldest};
      }
    }
  }

  // ---- runs ----

  /** Any sequence of calls on a fresh limiter, with a clock that does not go back. */
  ghost predicate Run(ls: seq<Limiter>, rs: seq<Request>) {
    && |ls| == |rs| + 1
    && Usable(ls[0]) && ls[0].buckets == map[]
    && (forall i | 0 <= i < |rs| :: Legal(ls[i], rs[i]) && ls[i + 1] == After(ls[i], rs[i]))
    && (forall i, j | 0 <= i <= j < |rs| :: rs[i].now <= rs[j].now)
  }

  /** An accepted request: when, and in which window it was counted. */
  datatype Accept = Accept(time: int, start: int)

  /** The accepted requests of `key`, in order. */
  ghost function Accepted(ls: seq<Limiter>, rs: seq<Request>, key: Key): seq<Accept>
    requires |ls| == |rs| + 1
  {
    if rs == [] then []
    else
      var n := |rs| - 1;
      Accepted(ls[..|rs|], rs[..n], key) + Adds(ls[n], rs[n], key)
  }

  /** `key` never loses its bucket to another key. */
  ghost predicate Kept(ls: seq<Limiter>, rs: seq<Request>, key: Key)
    requires |ls| == |rs| + 1
  {
    forall i | 0 <= i < |rs| && Evicts(ls[i], rs[i]) :: rs[i].victim != key
  }

  lemma ShorterRun(ls: seq<Limiter>, rs: seq<Request>)
    requires Run(ls, rs) && rs != []
    ensures Run(ls[..|rs|], rs[..|rs| - 1])
  {
  }

  /**
   * The windows of one key: they do not go back, cap requests further on is a later
   * window, windows are at least a window length apart, and each starts with a request.
   */
  ghost predicate Windows(h: seq<Accept>, cap: nat, window: nat) {
    && (forall i | 0 <= i < |h| :: h[i].start <= h[i].time < h[i].start + window)
    && (forall i, j | 0 <= i <= j < |h| :: h[i].start <= h[j].start && h[i].time <= h[j].time)
    && (forall i, j | 0 <= i && i + cap <= j < |h| :: h[i].start + window <= h[j].start)
    && (forall i | 0 <= i < |h| :: h[i].time == h[i].start || (i > 0 && h[i - 1].start == h[i].start))
  }

  /** The bucket counts the accepted requests of the last window. */
  ghost predicate Tracks(l: Limiter, key: Key, h: seq<Accept>) {
    if key !in l.buckets then h == []
    else
      var b := l.buckets[key];
      && 1 <= b.count <= l.cap && b.count <= |h|
      && h[|h| - 1].start == b.start
      && forall i | 0 <= i < |h| - b.count :: h[i].start + l.window <= b.start
  }

  lemma {:induction false} Bounded(ls: seq<Limiter>, rs: seq<Request>)
    requires Run(ls, rs)
    ensures var l := ls[|rs|];
      Usable(l) && l == ls[0].(buckets := l.buckets) && |l.buckets| <= l.maxKeys && "" !in l.buckets
  {
    if rs != [] {
      var n := |rs| - 1;
      ShorterRun(ls, rs);
      Bounded(ls[..|rs|], rs[..n]);
      var l, r := ls[n], rs[n];
      if Evicts(l, r) {
        assert l.buckets.Keys == (l.buckets - {r.victim}).Keys + {r.victim};
      }
      assert After(l, r).buckets.Keys <= l.buckets.Keys + {r.key};
    }
  }

  ghost predicate History(l: Limiter, key: Key, h: seq<Accept>, now: int) {
    && Windows(h, l.cap, l.window)
    && Tracks(l, key, h)
    && forall i | 0 <= i < |h| :: h[i].time <= now
  }

  /** What a request adds to the history of `key`. */
  function Adds(l: Limiter, r: Request, key: Key): seq<Accept> {
    if r.key == key && Accepts(l, r) then [Accept(r.now, Current(l, r).start)] else []
  }

  lemma OwnWindows(l: Limiter, r: Request, key: Key, h: seq<Accept>)
    requires Usable(l) && key != "" && r.key == key && Accepts(l, r)
    requires History(l, key, h, r.now)
    ensures Windows(h + [Accept(r.now, Current(l, r).start)], l.cap, l.window)
  {
  }

  lemma OwnTracks(l: Limiter, r: Request, key: Key, h: seq<Accept>)
    requires Usable(l) && key != "" && r.key == key && Accepts(l, r)
    requires History(l, key, h, r.now)
    ensures Tracks(After(l, r), key, h + [Accept(r.now, Current(l, r).start)])
  {
  }

  lemma OwnRequest(l: Limiter, r: Request, key: Key, h: seq<Accept>)
    requires Usable(l) && key != "" && r.key == key && Accepts(l, r)
    requires History(l, key, h, r.now)
    ensures History(After(l, r), key, h + [Accept(r.now, Current(l, r).start)], r.now)
  {
    OwnWindows(l, r, key, h);
    OwnTracks(l, r, key, h);
  }

  lemma StepHistory(l: Limiter, r: Request, key: Key, h: seq<Accept>, now: int)
    requires Usable(l) && key != "" && History(l, key, h, now) && now <= r.now
    requires Evicts(l, r) ==> r.victim != key
    ensures History(After(l, r), key, h + Adds(l, r, key), r.now)
  {
    assert History(l, key, h, r.now);
    if r.key == key && Accepts(l, r) {
      OwnRequest(l, r, key, h);
    } else {
      assert h + Adds(l, r, key) == h;
      assert key in After(l, r).buckets <==> key in l.buckets;
    }
  }

  lemma {:induction false} RunHistory(ls: seq<Limiter>, rs: seq<Request>, key: Key)
    requires Run(ls, rs) && Kept(ls, rs, key) && key != ""
    ensures rs == [] ==> Accepted(ls, rs, key) == []
    ensures rs != [] ==> History(ls[|rs|], key, Accepted(ls, rs, key), rs[|rs| - 1].now)
  {
    if rs != [] {
      var n := |rs| - 1;
      ShorterRun(ls, rs);
      RunHistory(ls[..|rs|], rs[..n], key);
      Bounded(ls[..|rs|], rs[..n]);
      StepHistory(ls[n], rs[n], key, Accepted(ls[..|rs|], rs[..n], key), if n > 0 then rs[n - 1].now else rs[n].now);
    }
  }

  /** From a request on, 2*cap - 1 requests further is more than a window away in time. */
  lemma FarApart(h: seq<Accept>, cap: nat, window: nat, i: nat, j: nat)
    requires 1 <= cap && Windows(h, cap, window) && i + 2 * cap - 1 <= j < |h|
    ensures h[i].time + window <= h[j].time
  {
    if h[i].time == h[i].start {
      assert h[i].start + window <= h[i + cap].start;
    } else {
      assert h[i - 1].start + window <= h[i - 1 + cap].start;
      assert h[i - 1 + cap].start + window <= h[j].start;
    }
  }

  function Within(a: int, window: nat): Accept -> bool {
    (x: Accept) => a <= x.time < a + window
  }

  /** Where only a stretch of `width` elements from `lo` can satisfy `p`, at most `width` do. */
  lemma {:induction false} CountInStretch(h: seq<Accept>, p: Accept -> bool, lo: nat, width: nat)
    requires forall i | 0 <= i < |h| && p(h[i]) :: lo <= i < lo + width
    ensures CountIf(h, p) <= if |h| <= lo then 0 else if |h| <= lo + width then |h| - lo else width
  {
    if h != [] {
      var n := |h| - 1;
      assert forall i | 0 <= i < n :: h[..n][i] == h[i];
      CountInStretch(h[..n], p, lo, width);
      CountLast(h, p);
    }
  }

  /** The first element that satisfies `p`, or the length. */
  ghost function First(h: seq<Accept>, p: Accept -> bool): (k: nat)
    ensures k <= |h| && (k < |h| ==> p(h[k])) && forall i | 0 <= i < k :: !p(h[i])
  {
    if h == [] then 0
    else
      var n := |h| - 1;
      var k := First(h[..n], p);
      assert forall i | 0 <= i < n :: h[..n][i] == h[i];
      if k < n then k else if p(h[n]) then n else n + 1
  }

  /**
   * For a key that is not evicted, any half-open interval of one window length holds
   * fewer than 2*cap accepted requests, whatever other keys do.
   */
  lemma LessThanTwiceCap(ls: seq<Limiter>, rs: seq<Request>, key: Key, a: int)
    requires Run(ls, rs) && Kept(ls, rs, key) && key != ""
    ensures CountIf(Accepted(ls, rs, key), Within(a, ls[0].window)) <= 2 * ls[0].cap - 1
  {
    var h, p, cap, window := Accepted(ls, rs, key), Within(a, ls[0].window), ls[0].cap, ls[0].window;
    RunHistory(ls, rs, key);
    Bounded(ls, rs);
    var lo := First(h, p);
    forall i | 0 <= i < |h| && p(h[i]) ensures lo <= i < lo + 2 * cap - 1 {
      if i >= lo + 2 * cap - 1 {
        FarApart(h, cap, window, lo, i);
      }
    }
    CountInStretch(h, p, lo, 2 * cap - 1);
  }

  /** Every limited request is for one of `keys`. */
  ghost predicate FromKeys(rs: seq<Request>, keys: set<Key>) {
    forall i | 0 <= i < |rs| :: rs[i].key == "" || rs[i].key in keys
  }

  lemma {:induction false} KeysSeen(ls: seq<Limiter>, rs: seq<Request>, keys: set<Key>, n: nat)
    requires Run(ls, rs) && n < |ls| && FromKeys(rs, keys)
    ensures ls[n].buckets.Keys <= keys && ls[n].maxKeys == ls[0].maxKeys
  {
    if n > 0 {
      KeysSeen(ls, rs, keys, n - 1);
    }
  }

  lemma Fewer(a: set<Key>, b: set<Key>, k: Key)
    requires a <= b && k in b && k !in a
    ensures |a| < |b|
  {
    assert b == a + (b - a);
    assert k in b - a;
  }

  /** With at most maxKeys distinct keys nothing is evicted, so the bound holds for every key. */
  lemma FewKeysNeverEvict(ls: seq<Limiter>, rs: seq<Request>, keys: set<Key>, key: Key, a: int)
    requires Run(ls, rs) && |keys| <= ls[0].maxKeys && FromKeys(rs, keys)
    ensures forall i | 0 <= i < |rs| :: !Evicts(ls[i], rs[i])
    ensures key != "" ==> CountIf(Accepted(ls, rs, key), Within(a, ls[0].window)) <= 2 * ls[0].cap - 1
  {
    forall i | 0 <= i < |rs| ensures !Evicts(ls[i], rs[i]) {
      KeysSeen(ls, rs, keys, i);
      if rs[i].key != "" && rs[i].key !in ls[i].buckets {
        Fewer(ls[i].buckets.Keys, keys, rs[i].key);
      }
    }
    if key != "" {
      LessThanTwiceCap(ls, rs, key, a);
    }
  }

  lemma {:induction false} StartsPast(ls: seq<Limiter>, rs: seq<Request>, n: nat, key: Key)
    requires Run(ls, rs) && n < |rs| && key in ls[n].buckets
    ensures ls[n].buckets[key].start <= rs[n].now
  {
    assert rs[n - 1].now <= rs[n].now;
    if rs[n - 1].key != key {
      StartsPast(ls, rs, n - 1, key);
    } else if key in ls[n - 1].buckets {
      StartsPast(ls, rs, n - 1, key);
    }
  }

  /** In every run, every denial's retryAfter lies in (0, window]. */
  lemma RetryAfterInRange(ls: seq<Limiter>, rs: seq<Request>, i: nat)
    requires Run(ls, rs) && i < |rs| && !Accepts(ls[i], rs[i])
    ensures 0 < RetryAfter(ls[i], rs[i]) <= ls[i].window
  {
    Reached(ls, rs, i);
    assert rs[i].key in ls[i].buckets && !NewWindow(ls[i], rs[i]);
    StartsPast(ls, rs, i, rs[i].key);
  }

  /** As long as nobody asks for `key`, its bucket stays as it is or goes for good. */
  lemma {:induction false} SameOrGone(ls: seq<Limiter>, rs: seq<Request>, key: Key, i: nat, j: nat)
    requires Run(ls, rs) && i < j <= |rs| && forall m | i < m < j :: rs[m].key != key
    ensures key in ls[j].buckets ==> key in ls[i + 1].buckets && ls[j].buckets[key] == ls[i + 1].buckets[key]
    ensures ls[j].cap == ls[i].cap && ls[j].window == ls[i].window
    decreases j
  {
    if i + 1 < j {
      SameOrGone(ls, rs, key, i, j - 1);
    }
  }

  /**
   * In every run retryAfter is exact: the key's next request after a denial is accepted
   * if and only if it comes at least that much later, or the bucket was evicted meanwhile.
   */
  lemma RetryAfterExact(ls: seq<Limiter>, rs: seq<Request>, i: nat, j: nat)
    requires Run(ls, rs) && i < j < |rs| && !Accepts(ls[i], rs[i])
    requires rs[j].key == rs[i].key && forall m | i < m < j :: rs[m].key != rs[i].key
    ensures Accepts(ls[j], rs[j]) <==>
      rs[i].key !in ls[j].buckets || rs[j].now >= rs[i].now + RetryAfter(ls[i], rs[i])
  {
    Reached(ls, rs, j);
    SameOrGone(ls, rs, rs[i].key, i, j);
  }

  lemma {:induction false} Reached(ls: seq<Limiter>, rs: seq<Request>, n: nat)
    requires Run(ls, rs) && n < |ls|
    ensures Usable(ls[n])
  {
    if n > 0 {
      Reached(ls, rs, n - 1);
    }
  }
}
