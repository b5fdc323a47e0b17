/** `consolidate_unranked_votes`: one entry per candidate carrying the sum of
    that candidate's weights. */
module Consolidation {
  import opened Seqs
  import opened Ballots

  /** Sum of the weights of `s`. */
  function TotalWeight(s: seq<UnrankedVote>): nat {
    if s == [] then 0 else TotalWeight(s[..|s| - 1]) + s[|s| - 1].1
  }

  /** Sum of the weights that `s` gives to candidate `c`. */
  function WeightOf(s: seq<UnrankedVote>, c: Candidate): nat {
    if s == [] then 0
    else WeightOf(s[..|s| - 1], c) + (if s[|s| - 1].0 == c then s[|s| - 1].1 else 0)
  }

  /** The total weight of a concatenation is the sum of the totals. */
  lemma {:induction false} TotalWeightAppend(a: seq<UnrankedVote>, b: seq<UnrankedVote>)
    ensures TotalWeight(a + b) == TotalWeight(a) + TotalWeight(b)
  {
    if b == [] {
      assert a + b == a;
    } else {
      assert (a + b)[..|a + b| - 1] == a + b[..|b| - 1];
      TotalWeightAppend(a, b[..|b| - 1]);
    }
  }

  /** A candidate that does not occur gets no weight. */
  lemma {:induction false} WeightOfAbsent(s: seq<UnrankedVote>, c: Candidate)
    requires c !in Names(s)
    ensures WeightOf(s, c) == 0
  {
    if s != [] {
      var t := s[..|s| - 1];
      assert Names(t) == Names(s)[..|s| - 1];
      assert s[|s| - 1].0 == Names(s)[|s| - 1];
      WeightOfAbsent(t, c);
    }
  }

  /** When every weight is positive, every candidate that occurs gets a
      positive weight. */
  lemma {:induction false} WeightOfPositive(s: seq<UnrankedVote>, c: Candidate)
    requires forall k :: 0 <= k < |s| ==> s[k].1 > 0
    requires c in Names(s)
    ensures WeightOf(s, c) > 0
  {
    var t := s[..|s| - 1];
    if s[|s| - 1].0 != c {
      assert Names(s) == Names(t) + [s[|s| - 1].0];
      WeightOfPositive(t, c);
    }
  }

  /** The weight a candidate gets from a concatenation is the sum of the
      weights it gets from each part. */
  lemma {:induction false} WeightOfAppend(a: seq<UnrankedVote>, b: seq<UnrankedVote>, c: Candidate)
    ensures WeightOf(a + b, c) == WeightOf(a, c) + WeightOf(b, c)
  {
    if b == [] {
      assert a + b == a;
    } else {
      assert (a + b)[..|a + b| - 1] == a + b[..|b| - 1];
      WeightOfAppend(a, b[..|b| - 1], c);
    }
  }

  /** Reordering the votes does not change the weight any candidate gets. */
  lemma {:induction false} WeightOfPermutation(a: seq<UnrankedVote>, b: seq<UnrankedVote>, c: Candidate)
    requires multiset(a) == multiset(b)
    ensures WeightOf(a, c) == WeightOf(b, c)
  {
    if b == [] {
      assert |a| == |multiset(a)| == 0;
    } else {
      var n, x := |b| - 1, b[|b| - 1];
      assert b == b[..n] + [x];
      assert x in multiset(a);
      var j :| 0 <= j < |a| && a[j] == x;
      var rest := a[..j] + a[j + 1..];
      assert a == a[..j] + [x] + a[j + 1..];
      MultisetRemoveAt(a, j, b[..n], x);
      WeightOfPermutation(rest, b[..n], c);
      WeightOfAppend(a[..j] + [x], a[j + 1..], c);
      WeightOfAppend(a[..j], [x], c);
      WeightOfAppend(a[..j], a[j + 1..], c);
      var none: seq<UnrankedVote> := [];
      assert [x][..0] == none;
    }
  }

  /** Sum, over the candidates `cs`, of the weight `s` gives each. */
  function WeightOver(s: seq<UnrankedVote>, cs: seq<Candidate>): nat {
    if cs == [] then 0 else WeightOver(s, cs[..|cs| - 1]) + WeightOf(s, cs[|cs| - 1])
  }

  /** Adding one vote adds its weight to the sum over distinct candidates
      exactly when its candidate is among them. */
  lemma {:induction false} WeightOverSnoc(s: seq<UnrankedVote>, v: UnrankedVote, cs: seq<Candidate>)
    requires Distinct(cs)
    ensures WeightOver(s + [v], cs) == WeightOver(s, cs) + (if v.0 in cs then v.1 else 0)
  {
    if cs != [] {
      var init, c := cs[..|cs| - 1], cs[|cs| - 1];
      assert cs == init + [c];
      assert (s + [v])[..|s + [v]| - 1] == s;
      assert Distinct(init);
      assert c !in init;
      WeightOverSnoc(s, v, init);
    }
  }

  /** Summing over candidates that cover every name, each counted once,
      gives back the total weight. */
  lemma {:induction false} WeightOverCovers(s: seq<UnrankedVote>, cs: seq<Candidate>)
    requires Distinct(cs)
    requires ToSet(Names(s)) <= ToSet(cs)
    ensures WeightOver(s, cs) == TotalWeight(s)
  {
    if s == [] {
      WeightOverEmpty(cs);
    } else {
      var t, v := s[..|s| - 1], s[|s| - 1];
      assert s == t + [v];
      assert Names(s) == Names(t) + [v.0];
      assert v.0 in ToSet(Names(s));
      assert ToSet(Names(t)) <= ToSet(Names(s));
      WeightOverCovers(t, cs);
      WeightOverSnoc(t, v, cs);
    }
  }

  lemma {:induction false} WeightOverEmpty(cs: seq<Candidate>)
    ensures WeightOver([], cs) == 0
  {
    if cs != [] {
      WeightOverEmpty(cs[..|cs| - 1]);
    }
  }

  /** A list whose entries carry the weight each candidate gets from `s`
      adds up to the sum over its candidates. */
  lemma {:induction false} PoolWeight(s: seq<UnrankedVote>, pool: seq<UnrankedVote>)
    requires forall k :: 0 <= k < |pool| ==> pool[k].1 == WeightOf(s, pool[k].0)
    ensures TotalWeight(pool) == WeightOver(s, Names(pool))
  {
    if pool != [] {
      var init := pool[..|pool| - 1];
      assert Names(init) == Names(pool)[..|pool| - 1];
      PoolWeight(s, init);
    }
  }

  /** Consolidation conserves weight: a duplicate-free list that gives each
      candidate of `s` its summed weight has the same total as `s`. */
  lemma ConsolidatedTotal(s: seq<UnrankedVote>, pool: seq<UnrankedVote>)
    requires Distinct(Names(pool))
    requires ToSet(Names(s)) <= ToSet(Names(pool))
    requires forall k :: 0 <= k < |pool| ==> pool[k].1 == WeightOf(s, pool[k].0)
    ensures TotalWeight(pool) == TotalWeight(s)
  {
    PoolWeight(s, pool);
    WeightOverCovers(s, Names(pool));
  }

  /** `pool` consolidates `votes`: it names every candidate of `votes` once,
      and no other, with the sum of the weights `votes` gives it. */
  predicate IsConsolidation(pool: seq<UnrankedVote>, votes: seq<UnrankedVote>) {
    && Distinct(Names(pool))
    && ToSet(Names(pool)) == ToSet(Names(votes))
    && forall k :: 0 <= k < |pool| ==> pool[k].1 == WeightOf(votes, pool[k].0)
  }

  /** `consolidate_unranked_votes`: sums the weights per candidate in a map,
      then lists the map's entries. A hash map's entries come out in no
      particular order, so the model takes them out in an arbitrary one. */
  method ConsolidateUnrankedVotes(votes: seq<UnrankedVote>) returns (pool: seq<UnrankedVote>)
    ensures IsConsolidation(pool, votes)
    ensures TotalWeight(pool) == TotalWeight(votes)
  {
    var m: map<Candidate, Weight> := map[];
    for i := 0 to |votes|
      invariant m.Keys == ToSet(Names(votes[..i]))
      invariant forall c :: c in m ==> m[c] == WeightOf(votes[..i], c)
    {
      var c, w := votes[i].0, votes[i].1;
      assert votes[..i + 1][..i] == votes[..i];
      assert Names(votes[..i + 1]) == Names(votes[..i]) + [c];
      if c !in m {
        WeightOfAbsent(votes[..i], c);
      }
      m := m[c := (if c in m then m[c] else 0) + w];
    }
    assert votes[..|votes|] == votes;

    pool := Entries(m);
    ConsolidatedTotal(votes, pool);
  }

  /** The entries of `m`, each once, in an arbitrary order. */
  method Entries(m: map<Candidate, Weight>) returns (pool: seq<UnrankedVote>)
    ensures Distinct(Names(pool))
    ensures ToSet(Names(pool)) == m.Keys
    ensures forall k :: 0 <= k < |pool| ==> pool[k].0 in m && pool[k].1 == m[pool[k].0]
  {
    var keys := SetToSeq(m.Keys);
    assert forall k :: 0 <= k < |keys| ==> keys[k] in m by {
      forall k | 0 <= k < |keys| ensures keys[k] in m {
        assert keys[k] in ToSet(keys);
      }
    }
    pool := seq(|keys|, k requires 0 <= k < |keys| => (keys[k], m[keys[k]]));
    assert Names(pool) == keys;
  }
}
