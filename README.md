# Voter tallying glue, modelled in Dafny

Voter ranks candidates from free-form ballots. Each ballot line is a ranked
vote with an optional weight. The ranking uses one of three methods:
Plurality, Schulze Winning, or Weighted Random. The ballot grammar and the
plurality and Schulze tallies come from a voting library. This project models
the logic the application adds around that library, all in `src/app.rs`:

- the duplicate-candidate check on the parsed ballots (`parse_votes`);
- the first-choice projection (`as_unranked_votes`);
- weight consolidation per candidate (`consolidate_unranked_votes`);
- the candidate list (`candidates_from_votes`);
- the weighted lottery without replacement (`weighted_random`);
- the single-candidate shortcut and vote-error mapping of `schulze`;
- the method enumeration and its title-case names;
- the dispatch in `vote`.

Modules, one per stage:

- `Seqs`: distinctness, sets of elements, listing a set in some order.
- `Ballots`: vote types, error kinds and messages, and `ParseVotes`.
- `Projection`: `AsUnrankedVotes` and `CandidatesFromVotes`.
- `Consolidation`: `ConsolidateUnrankedVotes` and the weight sums.
- `Lottery`: `Landing`, `FindIndex`, `SwapRemove`, `DrawSpec`, `Draw` and
  `WeightedRandom`.
- `Dispatch`: `Method`, `Schulze` and `Vote`.

The source's loops stay loops. `ParseVotes`, `ConsolidateUnrankedVotes`,
`FindIndex`, `Draw` and `Vote` are methods, as are `Entries` and
`CandidatesFromVotes`, which take a hash map's or hash set's contents out
in an arbitrary order. The other iterator chains are functions.

How the model treats the library and the random source:

- **The voting library** is a `Library` value passed to `Vote`. It holds three
  functions: the plurality tally, whether the Schulze tally accepts a vote,
  and the Schulze ranking. Nothing about their internals is assumed.
- **The ballot reader** is represented by its output. `ParseVotes` receives
  `None` when the reader failed, or the ranked votes it produced.
- **The random source** is a function `rng(k, sum)`. It gives the `k`-th draw,
  taken from `1..=sum`. Each draw's range is the total weight still in the
  pool. That total depends on which entries are already drawn, and the pool's
  order comes from a hash map. So one range precondition on the function,
  `Lottery.RollsInRange`, stands in for a sequence of rolls.

Behaviour of the code worth knowing when reading the model:

- **Votes with no tier-0 entry.** Only votes whose ranking is empty are
  dropped (src/app.rs:67). A non-empty vote with no tier-0 entry is kept with
  the label `""` (src/app.rs:74).
- **Invalid votes under Schulze.** Whether a vote is invalid is decided by
  the library tally (src/app.rs:125). The model keeps that verdict abstract.
  `Dispatch.SchulzeAcceptsParsedVotes` shows that a library refusing only
  votes that repeat a candidate never refuses ballots that passed the
  duplicate check.
- **Candidate order.** The candidate list comes out of a hash set
  (src/app.rs:93-97), and the consolidated pool out of a hash map
  (src/app.rs:89). Both orders are arbitrary choices in the model, and every
  contract holds whatever order is chosen.

## Model

| member | source | states |
|---|---|---|
| `Seqs.DistinctCardinality` | src/app.rs:41-42 | collecting a vote's names into a set never gains names, and yields fewer names than entries exactly when some name repeats |
| `Seqs.SetToSeq` | src/app.rs:97 | lists every element of the set and no other, each exactly once, in an arbitrary order |
| `Ballots.ParseVotes` | src/app.rs:34-56 | a failed read gives the parse error; otherwise the result is the duplicate-candidate error exactly when some vote names a candidate twice, and else every vote with its weight, unchanged and in order |
| `Projection.FirstChoiceCountMeaning` | src/app.rs:59-61 | the tier-0 count is at least one exactly when some entry is at tier 0, and more than one exactly when two different entries are |
| `Projection.FirstTierZero` | src/app.rs:70-73 | finds the first entry at tier 0: every earlier entry is at another tier, and the result is past the end only when no entry is at tier 0 |
| `Projection.FirstChoice` | src/app.rs:70-74 | the label is the name of the first tier-0 entry, or `""` when no entry is at tier 0 |
| `Projection.KeptFrom` | src/app.rs:65-67 | selects, in strictly increasing order, the positions of the votes whose ranking is not empty, all of them and only them |
| `Projection.AsUnrankedFailsOnTiedFirstChoice` | src/app.rs:59-63 | the projection fails exactly when some vote has two different entries at tier 0, whatever the other votes hold, and then with the ambiguous-first-choice error |
| `Projection.AsUnrankedKeepsNonEmptyVotes` | src/app.rs:65-78 | on success, there is one output per non-empty vote, in input order; each output carries that vote's weight and its first choice, and the output length is the number of non-empty votes |
| `Projection.FlatNamesElements` | src/app.rs:93-96 | flattening the votes yields exactly the names that occur in some vote |
| `Projection.CandidatesFromVotes` | src/app.rs:92-99 | the candidate list has no duplicates, and its elements are exactly the names that occur in some vote; their order is arbitrary |
| `Consolidation.WeightOfPositive` | src/app.rs:84-88 | with positive vote weights, every candidate that occurs gets a positive summed weight |
| `Consolidation.WeightOfPermutation` | src/app.rs:84-88 | reordering the votes does not change the weight summed for any candidate |
| `Consolidation.ConsolidatedTotal` | src/app.rs:82-90 | a duplicate-free list that gives each candidate its summed weight has the same total weight as the votes |
| `Consolidation.Entries` | src/app.rs:89 | lists each key of the map exactly once, with its value, in an arbitrary order |
| `Consolidation.ConsolidateUnrankedVotes` | src/app.rs:82-90 | the output names each input candidate exactly once and invents none (`IsConsolidation`); it gives each candidate the sum of that candidate's input weights, so the total weight is preserved |
| `Lottery.SwapRemove` | src/app.rs:159 | removes the element at `i`, and the last element takes its place; the other positions are unchanged |
| `Lottery.SwapRemoveMultiset` | src/app.rs:159 | `swap_remove` loses exactly the removed element and keeps all the others |
| `Lottery.TotalWeightUpdate` | src/app.rs:146 | replacing one entry changes the pool's total weight by the difference of the two weights |
| `Lottery.TotalWeightSwapRemove` | src/app.rs:146-159 | each draw lowers the remaining total by exactly the weight of the entry drawn |
| `Lottery.PrefixWeightMonotone` | src/app.rs:149-157 | the weight of a prefix never decreases as the prefix grows, so the walk's cumulative intervals do not overlap |
| `Lottery.Landing` | src/app.rs:147-157 | for a roll in `1..=sum`, names the entry whose cumulative-weight interval holds the roll |
| `Lottery.LandingUnique` | src/app.rs:147-157 | no other entry's interval holds the same roll |
| `Lottery.FindIndex` | src/app.rs:149-157 | for a roll in `1..=sum`, the walk stays inside the pool and stops at the entry whose cumulative-weight interval holds the roll: the weight before it is below the roll, and the roll is at most the weight up to and including it; so it finds exactly the entry `Landing` names |
| `Lottery.DrawSpecPermutation` | src/app.rs:145-160 | the draw takes every pool entry exactly once: its winners are a permutation of the pool's names |
| `Lottery.Draw` | src/app.rs:145-160 | given positive weights whose total plus one fits a u32, the loop's winners are those of `DrawSpec`: the `k`-th winner is the entry the `k`-th roll lands in, in the pool left after the earlier draws were swap-removed |
| `Lottery.WeightedRandom` | src/app.rs:140-167 | the ranking lists each candidate of the input exactly once, so its length is the number of distinct candidates, and gives the `i`-th winner rank `i`; the winners are in the order the rolls draw them from a consolidation of the input (`LotteryDraws`) |
| `Lottery.LotterySingleCandidate` | src/app.rs:143-166 | with a single candidate, the lottery's only possible ranking is that candidate at rank 0 |
| `Dispatch.ParseMethod` | src/app.rs:26-32 | a method name parses only to the method whose title-case name it is |
| `Dispatch.MethodNameRoundTrip` | src/app.rs:26-32 | every method's name parses back to that method, and a string is rejected exactly when it is none of the three names |
| `Dispatch.Schulze` | src/app.rs:115-138 | one candidate gives that candidate at rank 0 without consulting the library; otherwise the result is the invalid-vote error exactly when the library refuses some vote, else the library's ranking |
| `Dispatch.SchulzeSingleCandidate` | src/app.rs:116-119 | ballots that name only `c`, with any candidate list for them, make the Schulze method return `[(c, 0)]` |
| `Dispatch.SchulzeAcceptsParsedVotes` | src/app.rs:124-131 | if the library refuses only votes that repeat a candidate, the Schulze method cannot fail on ballots that passed the duplicate check |
| `Dispatch.Vote` | src/app.rs:169-181 | see the note below the table |

`Dispatch.Vote` states the following:

- Reader failures and duplicate candidates are reported first, whatever the
  method.
- With valid ballots, an unknown method name is an error.
- Schulze and Plurality get a duplicate-free list of exactly the ballots'
  candidates, in some order.
- Plurality and Weighted Random first pass through the first-choice
  projection. Its error is returned unchanged.
- The lottery's result is a full ranking of the first choices, drawn in the
  order the rolls pick them.
- The ambiguous-first-choice error never comes from Schulze.

## Left out

- The ballot grammar (`read_votes` and `into_ranked`, src/app.rs:36-39). It
  lives in the voting library. `ParseVotes` takes the reader's result as
  input and models only the duplicate check on top of it.
- The internals of the plurality and Schulze tallies (src/app.rs:101-113 and
  121-137). They are library code, represented by the `Library` functions.
  Their ranking and tie order are not modelled.
- `Dispatch.Schulze`: it decides whether the library refuses a vote from the
  candidates, the vote and its weight alone. It does not model a refusal that
  depends on the votes added before.
- `thread_rng` and `Uniform` (src/app.rs:141 and 147). They become the
  function `rng` under a range precondition. The model makes no claim about
  probabilities.
- `Projection.CandidatesFromVotes`: the hash set's iteration order is
  modelled as an arbitrary choice, not a particular order.
- `Consolidation.ConsolidateUnrankedVotes`: the hash map's iteration order is
  modelled as an arbitrary choice, not a particular order.
- `Consolidation.ConsolidateUnrankedVotes`: does not model `u32` overflow of
  `*value += *weight`. Weights and tiers are unbounded naturals here.
- `Lottery.WeightedRandom`: requires every candidate's summed weight to be
  positive. Otherwise the source would eventually reach a pool whose total is
  0 and panic, since `Uniform::from(1..1)` is empty. Votes with weight 0 are
  allowed when their candidate also has positive support.
- `Lottery.WeightedRandom`: requires a total below `u32::MAX`. This keeps the
  sum and `sum + 1` (src/app.rs:146-147) inside `u32`.
- `Dispatch.Vote`: requires the same two conditions (`Dispatch.LotteryFits`),
  when the lottery is chosen.
- The Yew component `app()`, its callbacks, HTML and instruction text
  (src/app.rs:183-357). This is user-interface wiring.
- The `strum` derives (src/app.rs:26-27). `Method::from_str` is an explicit
  match on the three names. The unknown-method message is the text of
  `strum`'s parse error.
