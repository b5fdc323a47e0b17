/** The method enumeration, the Schulze wrapper and `vote`, which strings the
    stages together. */
module Dispatch {
  import opened Seqs
  import opened Ballots
  import opened Projection
  import opened Consolidation
  import Lottery

  /** The three tallying methods. */
  datatype Method = Plurality | SchulzeWinning | WeightedRandom

  /** The title-case name each method is shown and parsed under. */
  function MethodName(m: Method): string {
    match m
    case Plurality => "Plurality"
    case SchulzeWinning => "Schulze Winning"
    case WeightedRandom => "Weighted Random"
  }

  /** `Method::from_str`: exactly the three title-case names are accepted. */
  function ParseMethod(s: string): (r: Option<Method>)
    ensures r.Some? ==> MethodName(r.value) == s
  {
    if s == "Plurality" then Some(Plurality)
    else if s == "Schulze Winning" then Some(SchulzeWinning)
    else if s == "Weighted Random" then Some(WeightedRandom)
    else None
  }

  /** Every method's name parses back to that method, and nothing else
      parses. */
  lemma MethodNameRoundTrip(m: Method, s: string)
    ensures ParseMethod(MethodName(m)) == Some(m)
    ensures ParseMethod(s).None? <==> forall m' :: MethodName(m') != s
  {
  }

  /** The tallies of the voting library the glue calls, whose internals are
      outside this model.
      `plurality`: the ranking a plurality tally over these first choices
        and candidates produces;
      `schulzeAccepts`: whether the Schulze tally set up with these
        candidates accepts this vote with this weight;
      `schulzeWinners`: the ranking the Schulze tally produces once every
        vote is in. */
  datatype Library = Library(
    plurality: (seq<UnrankedVote>, seq<Candidate>) -> Ranking,
    schulzeAccepts: (seq<Candidate>, RankedVote, Weight) -> bool,
    schulzeWinners: (seq<WeightedRankedVote>, seq<Candidate>) -> Ranking)

  /** Some vote is refused by the Schulze tally. */
  predicate SchulzeRefuses(votes: seq<WeightedRankedVote>, candidates: seq<Candidate>, lib: Library) {
    exists i :: 0 <= i < |votes| && !lib.schulzeAccepts(candidates, votes[i].0, votes[i].1)
  }

  /** `schulze`: a single candidate wins outright without calling the
      library; otherwise every vote is added, and the first refused vote
      fails the tally. */
  function Schulze(votes: seq<WeightedRankedVote>, candidates: seq<Candidate>, lib: Library): (r: Result<Ranking>)
    ensures |candidates| == 1 ==> r == Ok([(candidates[0], 0)])
    ensures |candidates| != 1 ==> (r.Err? <==> SchulzeRefuses(votes, candidates, lib))
    ensures r.Err? ==> r.error == InvalidVote
    ensures |candidates| != 1 && r.Ok? ==> r.value == lib.schulzeWinners(votes, candidates)
  {
    if |candidates| == 1 then Ok([(candidates[0], 0)])
    else if SchulzeRefuses(votes, candidates, lib) then Err(InvalidVote)
    else Ok(lib.schulzeWinners(votes, candidates))
  }

  /** Ballots whose only candidate is `c` make the Schulze method rank `c`
      first, without consulting the library. */
  lemma SchulzeSingleCandidate(votes: seq<WeightedRankedVote>, candidates: seq<Candidate>, c: Candidate, lib: Library)
    requires IsCandidateList(candidates, votes)
    requires CandidateNames(votes) == {c}
    ensures Schulze(votes, candidates, lib) == Ok([(c, 0)])
  {
    DistinctCardinality(candidates);
    assert candidates[0] in ToSet(candidates);
  }

  /** When the library refuses only votes that repeat a candidate, the
      Schulze method never fails on ballots that passed the duplicate check:
      its re-validation is defensive. */
  lemma SchulzeAcceptsParsedVotes(votes: seq<WeightedRankedVote>, candidates: seq<Candidate>, lib: Library)
    requires forall i :: 0 <= i < |votes| ==> Distinct(Names(votes[i].0))
    requires forall cs, v, w :: Distinct(Names(v)) ==> lib.schulzeAccepts(cs, v, w)
    ensures Schulze(votes, candidates, lib).Ok?
  {
  }

  /** What `vote` needs of the ballots for the lottery: positive weights and
      a total that, plus one, still fits in a u32. */
  predicate LotteryFits(read: Option<seq<WeightedRankedVote>>, name: string) {
    read.Some? && ParseMethod(name) == Some(WeightedRandom) && !SomeVoteRepeats(read.value)
      && AsUnrankedVotes(read.value).Ok?
    ==> && (forall c :: c in Names(AsUnrankedVotes(read.value).value)
              ==> WeightOf(AsUnrankedVotes(read.value).value, c) > 0)
        && TotalWeight(AsUnrankedVotes(read.value).value) < U32_MAX
  }

  /** The votes were read and no vote repeats a candidate. */
  predicate ReadOk(read: Option<seq<WeightedRankedVote>>) {
    read.Some? && !SomeVoteRepeats(read.value)
  }

  /** `vote`: parse the ballots, list the candidates, parse the method name,
      then tally. Ballot errors win over an unknown method, and only the
      plurality and lottery methods need a single first choice per vote.
      The library receives the candidates in an arbitrary order. */
  method Vote(read: Option<seq<WeightedRankedVote>>, name: string, lib: Library, rng: Lottery.Rng)
    returns (r: Result<Ranking>)
    requires LotteryFits(read, name)
    requires Lottery.RollsInRange(rng)
    ensures read.None? ==> r == Err(ParseError)
    ensures read.Some? && SomeVoteRepeats(read.value) ==> r == Err(DuplicateCandidate)
    ensures ReadOk(read) && ParseMethod(name).None? ==> r == Err(UnknownMethod)
    ensures ReadOk(read) && ParseMethod(name) == Some(SchulzeWinning)
      ==> exists cs :: IsCandidateList(cs, read.value) && r == Schulze(read.value, cs, lib)
    ensures ReadOk(read) && ParseMethod(name) == Some(Plurality)
      ==> match AsUnrankedVotes(read.value)
          case Err(e) => r == Err(e)
          case Ok(u) => exists cs :: IsCandidateList(cs, read.value) && r == Ok(lib.plurality(u, cs))
    ensures ReadOk(read) && ParseMethod(name) == Some(WeightedRandom)
      ==> match AsUnrankedVotes(read.value)
          case Err(e) => r == Err(e)
          case Ok(u) => r.Ok? && Lottery.IsLotteryRanking(r.value, u) && Lottery.LotteryDraws(r.value, u, rng)
    ensures r == Err(AmbiguousFirstChoice)
      ==> ParseMethod(name) == Some(Plurality) || ParseMethod(name) == Some(WeightedRandom)
  {
    var parsed := ParseVotes(read);
    if parsed.Err? {
      return Err(parsed.error);
    }
    var votes := parsed.value;
    var candidates := CandidatesFromVotes(votes);
    var m := ParseMethod(name);
    if m.None? {
      return Err(UnknownMethod);
    }
    match m.value
    case SchulzeWinning =>
      r := Schulze(votes, candidates, lib);
    case Plurality =>
      var unranked := AsUnrankedVotes(votes);
      if unranked.Err? {
        return Err(unranked.error);
      }
      r := Ok(lib.plurality(unranked.value, candidates));
    case WeightedRandom =>
      var unranked := AsUnrankedVotes(votes);
      if unranked.Err? {
        return Err(unranked.error);
      }
      var ranking := Lottery.WeightedRandom(unranked.value, rng);
      r := Ok(ranking);
  }
}
