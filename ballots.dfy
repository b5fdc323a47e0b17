/** The vote shapes the tallying glue passes around, its error kinds, and the
    duplicate-candidate check that `parse_votes` runs on top of the ballot
    reader. */
module Ballots {
  import opened Seqs

  /** A candidate name, compared by exact string equality. */
  type Candidate = string
  /** Preference level inside one ranked vote; 0 is the first choice. */
  type Tier = nat
  /** How many identical ballots a line stands for. */
  type Weight = nat

  /** A ranked vote: (candidate, tier) pairs in ballot order. */
  type RankedVote = seq<(Candidate, Tier)>
  /** A ranked vote with its weight. */
  type WeightedRankedVote = (RankedVote, Weight)
  /** A first-choice-only vote with its weight. */
  type UnrankedVote = (Candidate, Weight)
  /** The result: (candidate, zero-based rank) pairs. */
  type Ranking = seq<(Candidate, nat)>

  /** Largest value of the `u32` the weights are stored in. */
  const U32_MAX: nat := 0xFFFF_FFFF

  datatype Option<T> = None | Some(value: T)

  /** The failures the glue reports, one per distinct message. */
  datatype Error =
    | ParseError            // the ballot reader rejected the text
    | DuplicateCandidate    // a name repeats inside one ranking
    | AmbiguousFirstChoice  // two or more names share tier 0
    | InvalidVote           // the Schulze tally refused a vote
    | UnknownMethod         // the method name is not one of the three

  datatype Result<T> = Ok(value: T) | Err(error: Error)

  /** The text shown to the user for each error. */
  function Message(e: Error): string {
    match e
    case ParseError => "Failed to parse votes, check for stray '*', '>', or '=' characters."
    case DuplicateCandidate => "Failed to parse votes, canidate was used twice in a ranking."
    case AmbiguousFirstChoice => "Vote has more than one first choice."
    case InvalidVote => "Invalid vote was used. Check that vote order does not list canidate twice."
    case UnknownMethod => "Matching variant not found"
  }

  /** The candidate column of a list of (candidate, number) pairs. */
  function Names(s: seq<(Candidate, nat)>): seq<Candidate> {
    seq(|s|, i requires 0 <= i < |s| => s[i].0)
  }

  /** Some candidate appears twice in the ranking `v`. */
  predicate RepeatsCandidate(v: RankedVote) {
    exists j, k :: 0 <= j < k < |v| && v[j].0 == v[k].0
  }

  /** Some vote of `votes` names a candidate twice. */
  predicate SomeVoteRepeats(votes: seq<WeightedRankedVote>) {
    exists i :: 0 <= i < |votes| && RepeatsCandidate(votes[i].0)
  }

  /** `parse_votes`: `read` is what the ballot reader produced (`None` when it
      failed). Each vote is accepted only when its set of names is as large
      as the vote itself; the first vote that fails stops the parse. */
  method ParseVotes(read: Option<seq<WeightedRankedVote>>) returns (r: Result<seq<WeightedRankedVote>>)
    ensures read.None? ==> r == Err(ParseError)
    ensures read.Some? ==> (r.Err? <==> SomeVoteRepeats(read.value))
    ensures read.Some? && r.Err? ==> r.error == DuplicateCandidate
    ensures r.Ok? ==> read.Some? && r.value == read.value
    ensures r.Ok? ==> forall i :: 0 <= i < |r.value| ==> Distinct(Names(r.value[i].0))
  {
    if read.None? {
      return Err(ParseError);
    }
    var v := read.value;
    var out: seq<WeightedRankedVote> := [];
    for i := 0 to |v|
      invariant out == v[..i]
      invariant forall k :: 0 <= k < i ==> Distinct(Names(v[k].0))
    {
      var xx := v[i].0;
      var names := ToSet(Names(xx));
      DistinctCardinality(Names(xx));
      if |names| < |xx| {
        ghost var j, k :| 0 <= j < k < |xx| && Names(xx)[j] == Names(xx)[k];
        assert RepeatsCandidate(v[i].0);
        return Err(DuplicateCandidate);
      }
      out := out + [(xx, v[i].1)];
    }
    assert out == v;
    assert !SomeVoteRepeats(v) by {
      forall i | 0 <= i < |v| ensures !RepeatsCandidate(v[i].0) {
        var names := Names(v[i].0);
        forall j, k | 0 <= j < k < |v[i].0| ensures v[i].0[j].0 != v[i].0[k].0 {
          assert names[j] != names[k];
        }
      }
    }
    return Ok(out);
  }
}
