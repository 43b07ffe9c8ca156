/** Counting the goroutines of a step system by where they are. */
module Threads {
  type Tid = nat

  /** The goroutines whose location satisfies `p`. */
  function At<P>(threads: map<Tid, P>, p: P -> bool): set<Tid> {
    set t | t in threads && p(threads[t])
  }

  function Bit(b: bool): nat {
    if b then 1 else 0
  }

  lemma Without(a: set<Tid>, t: Tid)
    ensures |a| == |a - {t}| + Bit(t in a)
  {
    if t in a {
      assert a == (a - {t}) + {t};
    } else {
      assert a - {t} == a;
    }
  }

  /** Moving one goroutine changes the count by what it leaves and what it enters. */
  lemma Move<P>(threads: map<Tid, P>, t: Tid, pc: P, p: P -> bool)
    ensures |At(threads[t := pc], p)|
         == |At(threads, p)| - Bit(t in threads && p(threads[t])) + Bit(p(pc))
  {
    Without(At(threads, p), t);
    Without(At(threads[t := pc], p), t);
    OthersAt(threads, t, pc, p);
  }

  lemma OthersAt<P>(threads: map<Tid, P>, t: Tid, pc: P, p: P -> bool)
    ensures At(threads, p) - {t} == At(threads[t := pc], p) - {t}
    ensures t in At(threads, p) <==> t in threads && p(threads[t])
    ensures t in At(threads[t := pc], p) <==> p(pc)
  {
    forall u ensures u in At(threads, p) - {t} <==> u in At(threads[t := pc], p) - {t} {
      assert u != t ==> (u in threads <==> u in threads[t := pc]);
    }
  }

  lemma Smaller(a: set<Tid>, b: set<Tid>)
    requires a <= b
    ensures |a| <= |b|
  {
    assert b == a + (b - a);
  }

  /** How many of the first `n` elements of `xs` satisfy `p`. */
  function CountTo<T>(xs: seq<T>, n: nat, p: T -> bool): nat
    requires n <= |xs|
  {
    if n == 0 then 0 else CountTo(xs, n - 1, p) + Bit(p(xs[n - 1]))
  }

  /** How many elements of `xs` satisfy `p`. */
  function CountIf<T>(xs: seq<T>, p: T -> bool): nat {
    CountTo(xs, |xs|, p)
  }

  lemma {:induction false} CountPrefix<T>(xs: seq<T>, ys: seq<T>, n: nat, p: T -> bool)
    requires n <= |xs|
    ensures CountTo(xs + ys, n, p) == CountTo(xs, n, p)
  {
    if n > 0 {
      CountPrefix(xs, ys, n - 1, p);
    }
  }

  lemma CountEmpty<T>(p: T -> bool)
    ensures CountIf([], p) == 0
  {
  }

  lemma Pushed<T>(xs: seq<T>, x: T, p: T -> bool)
    ensures CountIf(xs + [x], p) == CountIf(xs, p) + Bit(p(x))
  {
    CountPrefix(xs, [x], |xs|, p);
  }

  lemma CountLast<T>(xs: seq<T>, p: T -> bool)
    requires xs != []
    ensures CountIf(xs, p) == CountIf(xs[..|xs| - 1], p) + Bit(p(xs[|xs| - 1]))
  {
    assert xs == xs[..|xs| - 1] + [xs[|xs| - 1]];
    Pushed(xs[..|xs| - 1], xs[|xs| - 1], p);
  }

  lemma CountSingle<T>(x: T, p: T -> bool)
    ensures CountIf([x], p) == Bit(p(x))
  {
    CountEmpty(p);
    CountLast([x], p);
  }

  lemma {:induction false} CountConcat<T>(xs: seq<T>, ys: seq<T>, p: T -> bool)
    ensures CountIf(xs + ys, p) == CountIf(xs, p) + CountIf(ys, p)
  {
    if ys == [] {
      assert xs + ys == xs;
      CountEmpty(p);
    } else {
      var n := |ys| - 1;
      assert xs + ys == (xs + ys[..n]) + [ys[n]];
      Pushed(xs + ys[..n], ys[n], p);
      CountConcat(xs, ys[..n], p);
      CountLast(ys, p);
    }
  }

  lemma Popped<T>(xs: seq<T>, p: T -> bool)
    requires xs != []
    ensures CountIf(xs[1..], p) == CountIf(xs, p) - Bit(p(xs[0]))
  {
    assert xs == [xs[0]] + xs[1..];
    CountConcat([xs[0]], xs[1..], p);
    CountSingle(xs[0], p);
  }
}
