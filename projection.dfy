/** The first-choice projection `as_unranked_votes` and the candidate list
    `candidates_from_votes`. */
module Projection {
  import opened Seqs
  import opened Ballots

  /** Number of entries of `v` at tier 0. */
  function FirstChoiceCount(v: RankedVote): nat {
    if v == [] then 0 else (if v[0].1 == 0 then 1 else 0) + FirstChoiceCount(v[1..])
  }

  /** Two different entries of `v` both sit at tier 0. */
  predicate TiedFirstChoice(v: RankedVote) {
    exists j, k :: 0 <= j < k < |v| && v[j].1 == 0 && v[k].1 == 0
  }

  /** Counting tier-0 entries finds one exactly when there is one, and more
      than one exactly when two different entries share tier 0. */
  lemma {:induction false} FirstChoiceCountMeaning(v: RankedVote)
    ensures FirstChoiceCount(v) >= 1 <==> exists j :: 0 <= j < |v| && v[j].1 == 0
    ensures FirstChoiceCount(v) > 1 <==> TiedFirstChoice(v)
  {
    if v != [] {
      var t := v[1..];
      FirstChoiceCountMeaning(t);
      assert forall j :: 0 <= j < |t| ==> t[j] == v[j + 1];
      if (exists j :: 0 <= j < |v| && v[j].1 == 0) {
        var j :| 0 <= j < |v| && v[j].1 == 0;
        if j > 0 {
          assert t[j - 1].1 == 0;
        }
      }
      if TiedFirstChoice(v) {
        var j, k :| 0 <= j < k < |v| && v[j].1 == 0 && v[k].1 == 0;
        assert t[k - 1].1 == 0;
        if j > 0 {
          assert t[j - 1].1 == 0;
          assert TiedFirstChoice(t);
        }
      }
      if FirstChoiceCount(v) > 1 {
        if v[0].1 == 0 {
          var k :| 0 <= k < |t| && t[k].1 == 0;
          assert v[k + 1].1 == 0;
        } else {
          var j, k :| 0 <= j < k < |t| && t[j].1 == 0 && t[k].1 == 0;
          assert v[j + 1].1 == 0 && v[k + 1].1 == 0;
        }
      }
    }
  }

  /** Position of the first tier-0 entry of `v`, or `|v|` when there is none. */
  function FirstTierZero(v: RankedVote): (p: nat)
    ensures p <= |v|
    ensures forall i :: 0 <= i < p ==> v[i].1 != 0
    ensures p < |v| ==> v[p].1 == 0
  {
    if v == [] then 0
    else if v[0].1 == 0 then 0
    else 1 + FirstTierZero(v[1..])
  }

  /** The first choice of a ranked vote: the name of its first tier-0
      entry, or the empty name when no entry is at tier 0. */
  function FirstChoice(v: RankedVote): (c: Candidate)
    ensures (forall j :: 0 <= j < |v| ==> v[j].1 != 0) ==> c == ""
    ensures forall j :: 0 <= j < |v| && v[j].1 == 0 && (forall i :: 0 <= i < j ==> v[i].1 != 0) ==> c == v[j].0
  {
    var p := FirstTierZero(v);
    if p < |v| then v[p].0 else ""
  }

  /** Positions, from `i` on, of the votes whose ranking is not empty, in
      increasing order. */
  function KeptFrom(votes: seq<WeightedRankedVote>, i: nat): (idx: seq<nat>)
    decreases |votes| - i
    ensures forall k :: 0 <= k < |idx| ==> i <= idx[k] < |votes| && votes[idx[k]].0 != []
    ensures forall k, l :: 0 <= k < l < |idx| ==> idx[k] < idx[l]
    ensures forall p :: i <= p < |votes| && votes[p].0 != [] ==> p in idx
  {
    if i >= |votes| then []
    else (if votes[i].0 != [] then [i] else []) + KeptFrom(votes, i + 1)
  }

  /** The non-empty votes, each replaced by its first choice and its weight. */
  function Projected(votes: seq<WeightedRankedVote>): seq<UnrankedVote> {
    var idx := KeptFrom(votes, 0);
    seq(|idx|, k requires 0 <= k < |idx| => (FirstChoice(votes[idx[k]].0), votes[idx[k]].1))
  }

  /** `as_unranked_votes`: fails when any vote has more than one tier-0 entry,
      otherwise projects every non-empty vote on its first choice. */
  function AsUnrankedVotes(votes: seq<WeightedRankedVote>): Result<seq<UnrankedVote>> {
    if exists i :: 0 <= i < |votes| && FirstChoiceCount(votes[i].0) > 1
    then Err(AmbiguousFirstChoice)
    else Ok(Projected(votes))
  }

  /** The projection fails exactly when some vote has two entries at tier 0,
      whatever the rest of the ballots look like, and then with the
      ambiguous-first-choice error. */
  lemma AsUnrankedFailsOnTiedFirstChoice(votes: seq<WeightedRankedVote>)
    ensures AsUnrankedVotes(votes).Err? <==> exists i :: 0 <= i < |votes| && TiedFirstChoice(votes[i].0)
    ensures AsUnrankedVotes(votes).Err? ==> AsUnrankedVotes(votes).error == AmbiguousFirstChoice
  {
    forall i | 0 <= i < |votes| {
      FirstChoiceCountMeaning(votes[i].0);
    }
  }

  /** Positions of the votes whose ranking is not empty. */
  function NonEmptyPositions(votes: seq<WeightedRankedVote>): set<nat> {
    set p | 0 <= p < |votes| && votes[p].0 != []
  }

  /** On success the projection keeps exactly the non-empty votes, in their
      original order, one output per such vote, each with its own weight and
      labelled with its first choice. */
  lemma AsUnrankedKeepsNonEmptyVotes(votes: seq<WeightedRankedVote>)
    requires AsUnrankedVotes(votes).Ok?
    ensures var out, idx := AsUnrankedVotes(votes).value, KeptFrom(votes, 0);
      && |out| == |idx| == |NonEmptyPositions(votes)|
      && (forall k :: 0 <= k < |out| ==> out[k] == (FirstChoice(votes[idx[k]].0), votes[idx[k]].1))
      && (forall k, l :: 0 <= k < l < |idx| ==> idx[k] < idx[l])
      && (forall p :: 0 <= p < |votes| ==> (p in idx <==> votes[p].0 != []))
  {
    var idx := KeptFrom(votes, 0);
    assert ToSet(idx) == NonEmptyPositions(votes);
    DistinctCardinality(idx);
  }

  /** Every name of every vote, vote by vote. */
  function FlatNames(votes: seq<WeightedRankedVote>): seq<Candidate> {
    if votes == [] then [] else Names(votes[0].0) + FlatNames(votes[1..])
  }

  /** The names that occur anywhere in the ballots. */
  ghost function CandidateNames(votes: seq<WeightedRankedVote>): set<Candidate> {
    set i, j | 0 <= i < |votes| && 0 <= j < |votes[i].0| :: votes[i].0[j].0
  }

  lemma {:induction false} FlatNamesElements(votes: seq<WeightedRankedVote>)
    ensures ToSet(FlatNames(votes)) == CandidateNames(votes)
  {
    if votes != [] {
      var t := votes[1..];
      FlatNamesElements(t);
      assert forall i :: 0 <= i < |t| ==> t[i] == votes[i + 1];
      assert ToSet(FlatNames(votes)) == ToSet(Names(votes[0].0)) + ToSet(FlatNames(t));
      forall c | c in CandidateNames(votes)
        ensures c in ToSet(Names(votes[0].0)) + CandidateNames(t)
      {
        var i, j :| 0 <= i < |votes| && 0 <= j < |votes[i].0| && votes[i].0[j].0 == c;
        if i == 0 {
          assert Names(votes[0].0)[j] == c;
        } else {
          assert t[i - 1].0[j].0 == c;
        }
      }
      forall c | c in ToSet(Names(votes[0].0)) + CandidateNames(t)
        ensures c in CandidateNames(votes)
      {
        if c in ToSet(Names(votes[0].0)) {
          var j :| 0 <= j < |votes[0].0| && Names(votes[0].0)[j] == c;
          assert votes[0].0[j].0 == c;
        } else {
          var i, j :| 0 <= i < |t| && 0 <= j < |t[i].0| && t[i].0[j].0 == c;
          assert votes[i + 1].0[j].0 == c;
        }
      }
    }
  }

  /** `cs` lists every name that occurs in the ballots, each once. */
  ghost predicate IsCandidateList(cs: seq<Candidate>, votes: seq<WeightedRankedVote>) {
    Distinct(cs) && ToSet(cs) == CandidateNames(votes)
  }

  /** `candidates_from_votes`: every name that occurs in any vote, once,
      collected through a hash set, so in an arbitrary order. */
  method CandidatesFromVotes(votes: seq<WeightedRankedVote>) returns (r: seq<Candidate>)
    ensures IsCandidateList(r, votes)
  {
    FlatNamesElements(votes);
    r := SetToSeq(ToSet(FlatNames(votes)));
  }
}
