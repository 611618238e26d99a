/** The append-and-trim lists the proxy keeps for its dashboards. */
module BoundedLists {
  /** The last n elements of a list, or all of it when it is shorter. */
  function LastOf<T>(s: seq<T>, n: nat): (r: seq<T>)
    ensures |r| == if |s| > n then n else |s|
  {
    if |s| > n then s[|s| - n..] else s
  }

  lemma {:induction false} LastOfAppend<T>(s: seq<T>, t: seq<T>, n: nat)
    ensures LastOf(LastOf(s, n) + t, n) == LastOf(s + t, n)
  {
  }

  lemma {:induction false} LastOfLast<T>(s: seq<T>, n: nat, m: nat)
    ensures LastOf(LastOf(s, n), m) == LastOf(s, if m < n then m else n)
  {
  }
}
