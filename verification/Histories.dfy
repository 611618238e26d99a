/** Sequences of event times: filtering, and counting the events of an interval. */
module Histories {
  type Time = int

  ghost predicate Nondecreasing(h: seq<Time>) {
    forall i, j :: 0 <= i < j < |h| ==> h[i] <= h[j]
  }

  predicate AllAtMost(h: seq<Time>, hi: Time) {
    forall i :: 0 <= i < |h| ==> h[i] <= hi
  }

  /** Those of the first n events that are later than the cut, in order. */
  function AfterUpTo(h: seq<Time>, n: nat, cut: Time): seq<Time>
    requires n <= |h|
  {
    if n == 0 then []
    else if h[n - 1] > cut then AfterUpTo(h, n - 1, cut) + [h[n - 1]]
    else AfterUpTo(h, n - 1, cut)
  }

  function After(h: seq<Time>, cut: Time): seq<Time> {
    AfterUpTo(h, |h|, cut)
  }

  /** How many of the first n events x have lo < x <= hi. */
  function CountUpTo(h: seq<Time>, n: nat, lo: Time, hi: Time): nat
    requires n <= |h|
  {
    if n == 0 then 0 else CountUpTo(h, n - 1, lo, hi) + (if lo < h[n - 1] <= hi then 1 else 0)
  }

  function CountBetween(h: seq<Time>, lo: Time, hi: Time): nat {
    CountUpTo(h, |h|, lo, hi)
  }

  lemma {:induction false} AfterOfPrefix(h: seq<Time>, x: Time, n: nat, cut: Time)
    requires n <= |h|
    ensures AfterUpTo(h + [x], n, cut) == AfterUpTo(h, n, cut)
  {
    if n > 0 {
      AfterOfPrefix(h, x, n - 1, cut);
    }
  }

  lemma {:induction false} AfterAppend(h: seq<Time>, x: Time, cut: Time)
    ensures After(h + [x], cut) == if x > cut then After(h, cut) + [x] else After(h, cut)
  {
    AfterOfPrefix(h, x, |h|, cut);
  }

  lemma {:induction false} CountOfPrefix(h: seq<Time>, x: Time, n: nat, lo: Time, hi: Time)
    requires n <= |h|
    ensures CountUpTo(h + [x], n, lo, hi) == CountUpTo(h, n, lo, hi)
  {
    if n > 0 {
      CountOfPrefix(h, x, n - 1, lo, hi);
    }
  }

  lemma {:induction false} CountAppend(h: seq<Time>, x: Time, lo: Time, hi: Time)
    ensures CountBetween(h + [x], lo, hi) == CountBetween(h, lo, hi) + (if lo < x <= hi then 1 else 0)
  {
    CountOfPrefix(h, x, |h|, lo, hi);
  }

  lemma {:induction false} AfterUpToTwice(h: seq<Time>, n: nat, cut: Time, later: Time)
    requires n <= |h| && cut <= later
    ensures After(AfterUpTo(h, n, cut), later) == AfterUpTo(h, n, later)
  {
    if n > 0 {
      AfterUpToTwice(h, n - 1, cut, later);
      AfterAppend(AfterUpTo(h, n - 1, cut), h[n - 1], later);
    }
  }

  lemma {:induction false} AfterTwice(h: seq<Time>, cut: Time, later: Time)
    requires cut <= later
    ensures After(After(h, cut), later) == After(h, later)
  {
    AfterUpToTwice(h, |h|, cut, later);
  }

  /** Filtering keeps the order and only drops. */
  lemma {:induction false} AfterKeepsOrder(h: seq<Time>, n: nat, cut: Time, hi: Time)
    requires n <= |h| && Nondecreasing(h)
    requires forall i :: 0 <= i < n ==> h[i] <= hi
    ensures Nondecreasing(AfterUpTo(h, n, cut)) && AllAtMost(AfterUpTo(h, n, cut), hi)
  {
    if n > 0 {
      AfterKeepsOrder(h, n - 1, cut, h[n - 1]);
    }
  }

  lemma {:induction false} AfterNothing(h: seq<Time>, n: nat, cut: Time)
    requires n <= |h| && forall i :: 0 <= i < n ==> h[i] <= cut
    ensures AfterUpTo(h, n, cut) == []
  {
    if n > 0 {
      AfterNothing(h, n - 1, cut);
    }
  }

  lemma {:induction false} NothingToPrune(h: seq<Time>, n: nat, cut: Time)
    requires n <= |h| && forall k :: 0 <= k < n ==> h[k] > cut
    ensures AfterUpTo(h, n, cut) == h[..n]
  {
    if n > 0 {
      NothingToPrune(h, n - 1, cut);
    }
  }

  /** When no event is later than hi, counting up to hi is filtering. */
  lemma {:induction false} CountIsAfter(h: seq<Time>, n: nat, lo: Time, hi: Time)
    requires n <= |h| && forall i :: 0 <= i < n ==> h[i] <= hi
    ensures CountUpTo(h, n, lo, hi) == |AfterUpTo(h, n, lo)|
  {
    if n > 0 {
      CountIsAfter(h, n - 1, lo, hi);
    }
  }

  lemma {:induction false} CountShrinks(h: seq<Time>, n: nat, lo: Time, hi: Time, lo': Time, hi': Time)
    requires n <= |h| && lo <= lo' && hi' <= hi
    ensures CountUpTo(h, n, lo', hi') <= CountUpTo(h, n, lo, hi)
  {
    if n > 0 {
      CountShrinks(h, n - 1, lo, hi, lo', hi');
    }
  }

  lemma {:induction false} CountNothing(h: seq<Time>, n: nat, lo: Time, hi: Time)
    requires n <= |h| && forall i :: 0 <= i < n ==> h[i] <= lo
    ensures CountUpTo(h, n, lo, hi) == 0
  {
    if n > 0 {
      CountNothing(h, n - 1, lo, hi);
    }
  }
}
