/** `weighted_random`: a lottery without replacement over the consolidated
    candidates, each drawn with probability proportional to its weight. */
module Lottery {
  import opened Seqs
  import opened Ballots
  import opened Consolidation

  /** The random source: `rng(k, sum)` is the `k`-th draw, taken from the
      range `1..=sum`. */
  type Rng = (nat, nat) -> nat

  /** Every draw the source makes lies in the range it was asked for. */
  ghost predicate RollsInRange(rng: Rng) {
    forall k: nat, sum: nat :: 1 <= sum ==> 1 <= rng(k, sum) <= sum
  }

  /** `Vec::swap_remove`: the element at `i` goes, and the last element
      takes its place. */
  function SwapRemove<T>(s: seq<T>, i: nat): (r: seq<T>)
    requires i < |s|
    ensures |r| == |s| - 1
    ensures i < |r| ==> r[i] == s[|s| - 1]
    ensures forall k :: 0 <= k < |r| && k != i ==> r[k] == s[k]
  {
    s[i := s[|s| - 1]][..|s| - 1]
  }

  /** `SwapRemove` loses exactly the removed element. */
  lemma SwapRemoveMultiset<T>(s: seq<T>, i: nat)
    requires i < |s|
    ensures multiset(SwapRemove(s, i)) + multiset{s[i]} == multiset(s)
  {
    var n, t := |s| - 1, s[i := s[|s| - 1]];
    assert t == t[..n] + [t[n]];
    assert multiset(t) == multiset(s) - multiset{s[i]} + multiset{s[n]};
  }

  /** Taking the candidate column commutes with `SwapRemove`. */
  lemma NamesSwapRemove(s: seq<UnrankedVote>, i: nat)
    requires i < |s|
    ensures Names(SwapRemove(s, i)) == SwapRemove(Names(s), i)
  {
  }

  /** Replacing one entry changes the total by the difference of weights. */
  lemma {:induction false} TotalWeightUpdate(s: seq<UnrankedVote>, i: nat, y: UnrankedVote)
    requires i < |s|
    ensures TotalWeight(s[i := y]) + s[i].1 == TotalWeight(s) + y.1
  {
    var n := |s| - 1;
    if i == n {
      assert s[i := y][..n] == s[..n];
    } else {
      assert s[i := y][..n] == s[..n][i := y];
      TotalWeightUpdate(s[..n], i, y);
    }
  }

  /** `SwapRemove` takes exactly the removed entry's weight off the total. */
  lemma TotalWeightSwapRemove(s: seq<UnrankedVote>, i: nat)
    requires i < |s|
    ensures TotalWeight(SwapRemove(s, i)) + s[i].1 == TotalWeight(s)
  {
    var t := s[i := s[|s| - 1]];
    TotalWeightUpdate(s, i, s[|s| - 1]);
    assert TotalWeight(t) == TotalWeight(t[..|t| - 1]) + t[|t| - 1].1;
  }

  /** Totals of prefixes never decrease as the prefix grows. */
  lemma PrefixWeightMonotone(s: seq<UnrankedVote>, i: nat, j: nat)
    requires i <= j <= |s|
    ensures TotalWeight(s[..i]) <= TotalWeight(s[..j])
  {
    assert s[..j] == s[..i] + s[i..j];
    TotalWeightAppend(s[..i], s[i..j]);
  }

  /** The entry a roll in `1..=sum` lands in: the one whose cumulative
      weight interval holds the roll. */
  function Landing(pool: seq<UnrankedVote>, roll: nat): (j: nat)
    requires 1 <= roll <= TotalWeight(pool)
    ensures j < |pool|
    ensures TotalWeight(pool[..j]) < roll <= TotalWeight(pool[..j + 1])
    decreases |pool|
  {
    var n := |pool| - 1;
    assert pool[..n + 1] == pool;
    if roll <= TotalWeight(pool[..n]) then
      var j := Landing(pool[..n], roll);
      assert pool[..n][..j] == pool[..j] && pool[..n][..j + 1] == pool[..j + 1];
      j
    else n
  }

  /** Only one entry's interval holds a given roll. */
  lemma LandingUnique(pool: seq<UnrankedVote>, roll: nat, j: nat)
    requires 1 <= roll <= TotalWeight(pool)
    requires j < |pool|
    requires TotalWeight(pool[..j]) < roll <= TotalWeight(pool[..j + 1])
    ensures j == Landing(pool, roll)
  {
    var l := Landing(pool, roll);
    if j < l {
      PrefixWeightMonotone(pool, j + 1, l);
    } else if l < j {
      PrefixWeightMonotone(pool, l + 1, j);
    }
  }

  /** The inner walk of the lottery: subtract weights from the roll until
      it falls within an entry. The entry found is the one whose cumulative
      weight interval contains the roll. */
  method FindIndex(pool: seq<UnrankedVote>, roll0: nat) returns (found: nat)
    requires 1 <= roll0 <= TotalWeight(pool)
    ensures found < |pool|
    ensures TotalWeight(pool[..found]) < roll0 <= TotalWeight(pool[..found + 1])
    ensures found == Landing(pool, roll0)
  {
    var roll := roll0;
    found := 0;
    assert pool[..0] == [];
    while true
      invariant found < |pool|
      invariant 1 <= roll
      invariant roll0 == TotalWeight(pool[..found]) + roll
      decreases |pool| - found
    {
      var weight := pool[found].1;
      assert pool[..found + 1][..found] == pool[..found];
      if roll <= weight {
        break;
      }
      roll := roll - weight;
      found := found + 1;
    }
    LandingUnique(pool, roll0, found);
  }

  /** Ranks are positions: the `i`-th winner gets rank `i`. */
  function Enumerate(winners: seq<Candidate>): (r: Ranking)
    ensures Names(r) == winners
    ensures forall i :: 0 <= i < |r| ==> r[i].1 == i
  {
    seq(|winners|, i requires 0 <= i < |winners| => (winners[i], i))
  }

  /** `ranking` lists every candidate of `votes` exactly once, ranked by its
      position in the list. */
  predicate IsLotteryRanking(ranking: Ranking, votes: seq<UnrankedVote>) {
    && |ranking| == |ToSet(Names(votes))|
    && Distinct(Names(ranking))
    && ToSet(Names(ranking)) == ToSet(Names(votes))
    && forall i :: 0 <= i < |ranking| ==> ranking[i].1 == i
  }

  /** With a single candidate the lottery can only rank it first. */
  lemma LotterySingleCandidate(ranking: Ranking, votes: seq<UnrankedVote>, c: Candidate)
    requires IsLotteryRanking(ranking, votes)
    requires ToSet(Names(votes)) == {c}
    ensures ranking == [(c, 0)]
  {
  }

  /** The winners the draw loop takes from `pool` when its first roll is
      the `k`-th: each roll, in `1..=sum` of the weights left, picks the entry
      it lands in, which is swap-removed before the next roll. */
  function DrawSpec(pool: seq<UnrankedVote>, rng: Rng, k: nat): (winners: seq<Candidate>)
    requires forall i :: 0 <= i < |pool| ==> pool[i].1 > 0
    requires RollsInRange(rng)
    decreases |pool|
  {
    if pool == [] then []
    else
      var j := Landing(pool, rng(k, TotalWeight(pool)));
      [pool[j].0] + DrawSpec(SwapRemove(pool, j), rng, k + 1)
  }

  /** The draw takes every entry of the pool exactly once. */
  lemma {:induction false} DrawSpecPermutation(pool: seq<UnrankedVote>, rng: Rng, k: nat)
    requires forall i :: 0 <= i < |pool| ==> pool[i].1 > 0
    requires RollsInRange(rng)
    ensures multiset(DrawSpec(pool, rng, k)) == multiset(Names(pool))
    decreases |pool|
  {
    if pool != [] {
      var j := Landing(pool, rng(k, TotalWeight(pool)));
      DrawSpecPermutation(SwapRemove(pool, j), rng, k + 1);
      NamesSwapRemove(pool, j);
      SwapRemoveMultiset(Names(pool), j);
      assert Names(pool)[j] == pool[j].0;
    }
  }

  /** The draw loop of `weighted_random`: while the pool is not empty, roll
      in `1..=sum` of the remaining weights, walk to the entry the roll falls
      in, and move that entry from the pool to the winners. */
  method Draw(pool0: seq<UnrankedVote>, rng: Rng) returns (winners: seq<Candidate>)
    requires forall k :: 0 <= k < |pool0| ==> pool0[k].1 > 0
    requires TotalWeight(pool0) < U32_MAX
    requires RollsInRange(rng)
    ensures winners == DrawSpec(pool0, rng, 0)
  {
    var pool := pool0;
    winners := [];
    var draw: nat := 0;
    while pool != []
      invariant forall k :: 0 <= k < |pool| ==> pool[k].1 > 0
      invariant TotalWeight(pool) < U32_MAX
      invariant winners + DrawSpec(pool, rng, draw) == DrawSpec(pool0, rng, 0)
      decreases |pool|
    {
      var sum := TotalWeight(pool);
      assert 1 <= sum + 1 <= U32_MAX;  // `1..sum + 1` fits in a u32
      var roll := rng(draw, sum);
      var found := FindIndex(pool, roll);
      TotalWeightSwapRemove(pool, found);
      var rest := SwapRemove(pool, found);
      assert DrawSpec(pool, rng, draw) == [pool[found].0] + DrawSpec(rest, rng, draw + 1);
      assert winners + DrawSpec(pool, rng, draw) == winners + [pool[found].0] + DrawSpec(rest, rng, draw + 1);
      winners := winners + [pool[found].0];
      pool := rest;
      draw := draw + 1;
    }
  }

  /** `ranking` is what the lottery makes of `votes` with the rolls of `rng`:
      the candidates in the order the rolls draw them from a consolidation of
      `votes`. */
  ghost predicate LotteryDraws(ranking: Ranking, votes: seq<UnrankedVote>, rng: Rng) {
    && RollsInRange(rng)
    && exists pool: seq<UnrankedVote> ::
         && IsConsolidation(pool, votes)
         && (forall k :: 0 <= k < |pool| ==> pool[k].1 > 0)
         && Names(ranking) == DrawSpec(pool, rng, 0)
  }

  /** `weighted_random`: consolidate the weights, draw every candidate in
      turn, and rank each by the turn it was drawn in. The draw only ends
      when every candidate's summed weight is positive: a candidate left
      with weight 0 is never drawn while others remain, and once only such
      candidates remain the range `1..sum + 1` is empty. */
  method WeightedRandom(votes: seq<UnrankedVote>, rng: Rng) returns (ranking: Ranking)
    requires forall c :: c in Names(votes) ==> WeightOf(votes, c) > 0
    requires TotalWeight(votes) < U32_MAX
    requires RollsInRange(rng)
    ensures IsLotteryRanking(ranking, votes)
    ensures LotteryDraws(ranking, votes, rng)
  {
    var pool := ConsolidateUnrankedVotes(votes);
    forall k | 0 <= k < |pool| ensures pool[k].1 > 0 {
      assert pool[k].0 in ToSet(Names(votes)) by {
        assert Names(pool)[k] == pool[k].0;
      }
    }
    var winners := Draw(pool, rng);
    DrawSpecPermutation(pool, rng, 0);
    DistinctMultiset(winners, Names(pool));
    DistinctCardinality(winners);
    ranking := Enumerate(winners);
    assert IsConsolidation(pool, votes) && Names(ranking) == DrawSpec(pool, rng, 0);
  }
}
