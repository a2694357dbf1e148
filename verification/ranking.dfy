/** The top-10 ranking of the map page (src/app/mapa/page.tsx): a stable sort of the
    groups by viewer count, descending, cut to ten entries. */
module Ranking {
  import opened Domain

  predicate NonIncreasing(s: seq<StateGroup>) {
    forall i, j :: 0 <= i < j < |s| ==> ViewerCount(s[i]) >= ViewerCount(s[j])
  }

  /** The groups of `s` with exactly `n` viewers, in their order in `s`. */
  function WithCount(s: seq<StateGroup>, n: nat): seq<StateGroup> {
    if |s| == 0 then [] else (if ViewerCount(s[0]) == n then [s[0]] else []) + WithCount(s[1..], n)
  }

  /** Places `g` in front of the first group with no more viewers than it has, so that
      `g` precedes the equal-count groups already there. */
  function InsertByCount(g: StateGroup, sorted: seq<StateGroup>): (r: seq<StateGroup>)
    requires NonIncreasing(sorted)
    ensures NonIncreasing(r)
    ensures |r| == |sorted| + 1
    ensures r[0] == g || (|sorted| > 0 && r[0] == sorted[0])
    ensures multiset(r) == multiset(sorted) + multiset{g}
  {
    if |sorted| == 0 || ViewerCount(sorted[0]) <= ViewerCount(g) then
      [g] + sorted
    else
      var rest := InsertByCount(g, sorted[1..]);
      assert sorted == [sorted[0]] + sorted[1..];
      assert forall j :: 0 <= j < |rest| ==> ViewerCount(rest[j]) <= ViewerCount(rest[0]);
      [sorted[0]] + rest
  }

  /** Inserting `g` adds it in front of the groups of its own count and changes no other count's order. */
  lemma {:induction false} InsertKeepsCountOrder(g: StateGroup, sorted: seq<StateGroup>, n: nat)
    requires NonIncreasing(sorted)
    ensures WithCount(InsertByCount(g, sorted), n) == (if ViewerCount(g) == n then [g] else []) + WithCount(sorted, n)
  {
    var r := InsertByCount(g, sorted);
    var gn: seq<StateGroup> := if ViewerCount(g) == n then [g] else [];
    if |sorted| == 0 || ViewerCount(sorted[0]) <= ViewerCount(g) {
      assert r == [g] + sorted;
      assert r[1..] == sorted;
      assert WithCount(r, n) == gn + WithCount(sorted, n);
    } else {
      var rest := InsertByCount(g, sorted[1..]);
      assert r == [sorted[0]] + rest;
      assert r[1..] == rest;
      var s0: seq<StateGroup> := if ViewerCount(sorted[0]) == n then [sorted[0]] else [];
      assert WithCount(r, n) == s0 + WithCount(rest, n);
      assert WithCount(sorted, n) == s0 + WithCount(sorted[1..], n);
      InsertKeepsCountOrder(g, sorted[1..], n);
      assert gn == [] || s0 == [];
    }
  }

  /** `[...states].sort((a, b) => b.viewers.length - a.viewers.length)`: a copy sorted by
      viewer count, descending; the sort is stable (section 23.1.3.30 of ECMAScript 2024),
      so groups with equal counts keep their relative order. */
  function SortByCount(states: seq<StateGroup>): (r: seq<StateGroup>)
    ensures NonIncreasing(r)
    ensures multiset(r) == multiset(states)
    ensures forall n :: WithCount(r, n) == WithCount(states, n)
  {
    if |states| == 0 then []
    else
      assert states == [states[0]] + states[1..];
      var rest := SortByCount(states[1..]);
      var r := InsertByCount(states[0], rest);
      forall n
        ensures WithCount(r, n) == WithCount(states, n)
      {
        InsertKeepsCountOrder(states[0], rest, n);
      }
      r
  }

  lemma {:induction false} WithCountMembers(s: seq<StateGroup>, n: nat)
    ensures forall x :: x in WithCount(s, n) ==> x in s && ViewerCount(x) == n
    ensures forall i :: 0 <= i < |s| && ViewerCount(s[i]) == n ==> WithCount(s, n) != []
  {
    if |s| > 0 {
      WithCountMembers(s[1..], n);
      forall i | 0 <= i < |s| && ViewerCount(s[i]) == n
        ensures WithCount(s, n) != []
      {
        if i > 0 {
          assert s[1..][i - 1] == s[i];
        }
      }
    }
  }

  /** Non-increasing order plus per-count order determine the sequence: any stable
      descending sort of the same input gives the same result as `SortByCount`. */
  lemma {:induction false} StableSortIsUnique(a: seq<StateGroup>, b: seq<StateGroup>)
    requires NonIncreasing(a) && NonIncreasing(b)
    requires forall n :: WithCount(a, n) == WithCount(b, n)
    ensures a == b
  {
    if |a| == 0 && |b| > 0 {
      WithCountMembers(b, ViewerCount(b[0]));
      assert false;
    } else if |a| > 0 && |b| == 0 {
      WithCountMembers(a, ViewerCount(a[0]));
      assert false;
    } else if |a| > 0 {
      var m, m' := ViewerCount(a[0]), ViewerCount(b[0]);
      WithCountMembers(a, m);
      WithCountMembers(b, m);
      WithCountMembers(a, m');
      WithCountMembers(b, m');
      var x := WithCount(b, m)[0];
      assert x in b;
      var y := WithCount(a, m')[0];
      assert y in a;
      assert m' >= m && m >= m';
      assert WithCount(a, m) == [a[0]] + WithCount(a[1..], m);
      assert WithCount(b, m) == [b[0]] + WithCount(b[1..], m);
      assert a[0] == b[0];
      forall n
        ensures WithCount(a[1..], n) == WithCount(b[1..], n)
      {
        var head: seq<StateGroup> := if ViewerCount(a[0]) == n then [a[0]] else [];
        assert WithCount(a, n) == head + WithCount(a[1..], n);
        assert WithCount(b, n) == head + WithCount(b[1..], n);
        assert (head + WithCount(a[1..], n))[|head|..] == WithCount(a[1..], n);
        assert (head + WithCount(b[1..], n))[|head|..] == WithCount(b[1..], n);
      }
      StableSortIsUnique(a[1..], b[1..]);
      assert a == [a[0]] + a[1..] && b == [b[0]] + b[1..];
    }
  }

  predicate IsPrefix(a: seq<StateGroup>, b: seq<StateGroup>) {
    |a| <= |b| && b[..|a|] == a
  }

  const RankingSize := 10

  function Min(a: nat, b: nat): nat {
    if a <= b then a else b
  }

  /** The sorted copy has the input's length and members. */
  lemma SortedCopyFacts(states: seq<StateGroup>)
    ensures |SortByCount(states)| == |states|
    ensures forall x :: x in SortByCount(states) <==> x in states
  {
    var sorted := SortByCount(states);
    assert |sorted| == |multiset(sorted)| == |multiset(states)| == |states|;
    forall x
      ensures x in sorted <==> x in states
    {
      assert x in sorted <==> x in multiset(sorted);
      assert x in states <==> x in multiset(states);
    }
  }

  /** A prefix of a non-increasing sequence is non-increasing. */
  lemma PrefixNonIncreasing(s: seq<StateGroup>, k: nat)
    requires NonIncreasing(s) && k <= |s|
    ensures NonIncreasing(s[..k])
  {
    var p := s[..k];
    forall i, j | 0 <= i < j < |p|
      ensures ViewerCount(p[i]) >= ViewerCount(p[j])
    {
      assert p[i] == s[i] && p[j] == s[j];
    }
  }

  /** `rankedStates`: the first ten groups of the stable descending sort. */
  function Rank(states: seq<StateGroup>): (r: seq<StateGroup>)
    ensures |r| == Min(RankingSize, |states|)
    ensures NonIncreasing(r)
    ensures forall i :: 0 <= i < |r| ==> r[i] in states
    ensures forall n :: IsPrefix(WithCount(r, n), WithCount(states, n))
  {
    var sorted := SortByCount(states);
    SortedCopyFacts(states);
    var k := Min(RankingSize, |states|);
    PrefixNonIncreasing(sorted, k);
    var r := sorted[..k];
    forall i | 0 <= i < |r|
      ensures r[i] in states
    {
      assert r[i] == sorted[i];
      assert sorted[i] in sorted;
    }
    forall n
      ensures IsPrefix(WithCount(r, n), WithCount(states, n))
    {
      WithCountOfPrefix(sorted, k, n);
    }
    r
  }

  /** At most ten groups already in non-increasing order rank exactly as given: the
      sort moves nothing, including among ties. */
  lemma RankOfOrderedIsIdentity(states: seq<StateGroup>)
    requires NonIncreasing(states) && |states| <= RankingSize
    ensures Rank(states) == states
  {
    var sorted := SortByCount(states);
    SortedCopyFacts(states);
    StableSortIsUnique(sorted, states);
    assert sorted[..|states|] == sorted;
  }

  /** Filtering a prefix gives a prefix of the filtered sequence. */
  lemma {:induction false} WithCountOfPrefix(s: seq<StateGroup>, k: nat, n: nat)
    requires k <= |s|
    ensures IsPrefix(WithCount(s[..k], n), WithCount(s, n))
  {
    if k > 0 {
      assert s[..k][1..] == s[1..][..k - 1];
      WithCountOfPrefix(s[1..], k - 1, n);
    }
  }

  /** A group that is left out of the ranking has no more viewers than the last one in. */
  lemma RankHoldsLargest(states: seq<StateGroup>, x: StateGroup)
    requires x in states
    requires x !in Rank(states)
    ensures |Rank(states)| > 0 && ViewerCount(x) <= ViewerCount(Rank(states)[|Rank(states)| - 1])
  {
    var sorted := SortByCount(states);
    var r := Rank(states);
    SortedCopyFacts(states);
    var k :| 0 <= k < |sorted| && sorted[k] == x;
    assert r == sorted[..|r|];
    assert k >= |r|;
  }
}
