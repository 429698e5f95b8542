/**
  Counting with a dict: `counts[k] = counts.get(k, 0) + 1` for each `k` of a
  sequence, the idiom the scripts use for nodes per layer and per type.
*/
module Counting {
  import opened Manifest

  /** The dict the counting loop builds over `s`: each value of `s` with the
      number of times it occurs. */
  function Tally<K(==,!new)>(s: seq<K>): (t: map<K, nat>)
    ensures forall k :: k in t <==> k in s
    ensures forall k :: k in t ==> t[k] == multiset(s)[k]
  {
    if s == [] then map[]
    else
      var init, k := s[..|s| - 1], s[|s| - 1];
      assert s == init + [k];
      Bump(Tally(init), k)
  }

  /** Counting one more value bumps its count. */
  lemma TallySnoc<K(!new)>(s: seq<K>, k: K)
    ensures Tally(s + [k]) == Bump(Tally(s), k)
  {
    assert (s + [k])[..|s|] == s;
  }

  /** A value's count is its number of occurrences, 0 when absent. */
  lemma GetTally<K(!new)>(s: seq<K>, k: K)
    ensures Get(Tally(s), k) == multiset(s)[k]
  {
  }

  /** `counts[k] = counts.get(k, 0) + 1` */
  function Bump<K(==)>(t: map<K, nat>, k: K): map<K, nat> {
    t[k := Get(t, k) + 1]
  }

  /** `counts.get(k, 0)` */
  function Get<K(==)>(t: map<K, nat>, k: K): nat {
    if k in t then t[k] else 0
  }

  /** The count of each of `ks` in `t`, added up. */
  function SumOver<K(==)>(t: map<K, nat>, ks: seq<K>): nat {
    if ks == [] then 0 else Get(t, ks[0]) + SumOver(t, ks[1..])
  }

  /** One more `k` adds one to the sum over any key list holding `k` once. */
  lemma {:induction false} SumOverBump<K>(t: map<K, nat>, ks: seq<K>, k: K)
    requires Distinct(ks) && k in ks
    ensures SumOver(Bump(t, k), ks) == SumOver(t, ks) + 1
  {
    if ks[0] == k {
      assert k !in ks[1..];
      SumOverUnchanged(t, ks[1..], k);
    } else {
      SumOverBump(t, ks[1..], k);
    }
  }

  /** Bumping a key the list lacks leaves the sum alone. */
  lemma {:induction false} SumOverUnchanged<K>(t: map<K, nat>, ks: seq<K>, k: K)
    requires k !in ks
    ensures SumOver(Bump(t, k), ks) == SumOver(t, ks)
  {
    if ks != [] {
      SumOverUnchanged(t, ks[1..], k);
    }
  }

  /** The counts, listed once per key in any order (`sorted(counts.items())`
      for one), add up to the length of the counted sequence. */
  lemma {:induction false} TallyTotal<K(!new)>(s: seq<K>, ks: seq<K>)
    requires Distinct(ks) && forall x :: x in s ==> x in ks
    ensures SumOver(Tally(s), ks) == |s|
  {
    if s == [] {
      SumOverEmpty(ks);
    } else {
      var init := s[..|s| - 1];
      assert forall x :: x in init ==> x in s;
      TallyTotal(init, ks);
      SumOverBump(Tally(init), ks, s[|s| - 1]);
    }
  }

  lemma {:induction false} SumOverEmpty<K>(ks: seq<K>)
    ensures SumOver(map[], ks) == 0
  {
    if ks != [] {
      SumOverEmpty(ks[1..]);
    }
  }

  /** A sequence without repeats has as many elements as it has values. */
  lemma {:induction false} DistinctCount<T>(s: seq<T>)
    requires Distinct(s)
    ensures |set x | x in s| == |s|
  {
    if s != [] {
      var init, last := s[..|s| - 1], s[|s| - 1];
      assert s == init + [last];
      DistinctCount(init);
      assert (set x | x in s) == (set x | x in init) + {last};
    }
  }
}
