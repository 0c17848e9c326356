# Skyjo round engine and baseline tournament, in Dafny

This project models the core of the Skyjo-optimizer repository:

- the rules bundle and its validation (`engine/config.py`);
- the immutable round engine (`engine/state.py`): deck construction, the deal, legal-action enumeration, action application, draw-pile recycling and the end-of-round countdown;
- the baseline simulation harness (`simulation/baseline.py`): the random and the simple heuristic agent, one round played between agents, seat rotation, and the tournament aggregates (mean, median and 95th-percentile scores, win rates with shared wins split evenly, and the head-to-head win matrix).

Everything is a pure function over immutable datatypes. Python's seeded `random.Random` becomes an `Oracle` parameter:

- `deal(seed, rules, playerCount)` is the shuffled id order and the per-player face-up samples `initialize_round` would draw;
- `draws(seed, k)` is the `k`-th number the round's own generator hands to `rng.choice`.

A Python exception becomes the `Err` case of a `Result`, with one error constructor per cause.

Modules, one per file, in dependency order:

| file | module | contents |
|---|---|---|
| wrappers.dfy | Wrappers | `Option`, `Result`, `Outcome` |
| ordering.dfy | Ordering | Python's `sorted` on integers and strings, `min`, `max` with a key |
| config.dfy | Config | `RulesConfig`, `validate`, `total_cards`, the default deck |
| state.dfy | Engine | the round engine |
| invariants.dfy | EngineInvariants | what every action preserves, and the countdown |
| stats.dfy | Stats | `_percentile`, mean, median over exact reals |
| agents.dfy | Agents | `RandomAgent` and `SimpleHeuristicAgent` |
| rounds.dfy | Rounds | `run_round`, `_score_player`, `_rotate_agents` |
| tournament.dfy | Tournament | `run_tournament` |

The engine is modelled as written, in three places where a reader might expect otherwise:

- A draw-and-flip move throws the drawn card away. After the deal, what holds is that no card id is in two places. Each swap keeps the multiset of located ids. Each flip removes exactly the drawn id.
- A hand scores the plain sum of its card values. There is no column clearing.
- `ender_penalty_mode` is validated and `round_ender` is recorded, but neither affects scoring.

## Model

| member | source | states |
|---|---|---|
| Config.Validate | skyjo_optimizer/engine/config.py:25-37 | Validation passes iff the hand size is positive, the face-up count is in `[0, hand size]`, the penalty mode is one of the two names, and the composition is non-empty with positive counts. Each error is reported iff its check is the first to fail. |
| Config.DefaultRulesValid | skyjo_optimizer/engine/config.py:7-23 | The default rules pass validation, and the default composition totals 150 cards. |
| Config.TotalCardsAtLeastOnePerValue | skyjo_optimizer/engine/config.py:39-41 | A validated composition describes at least one card per listed value, so a non-empty deck. |
| Config.SumCountsAppend | skyjo_optimizer/engine/config.py:39-41 | The count total over two key lists is the sum of their totals. |
| Ordering.SortInts | skyjo_optimizer/simulation/baseline.py:181 | `sorted(values)` is an ascending permutation of its input. |
| Ordering.SortedElements | skyjo_optimizer/engine/state.py:45 | `sorted` of the composition's keys lists exactly those keys, strictly ascending. |
| Ordering.StrictlyIncreasingUnique | skyjo_optimizer/engine/state.py:45 | Two strictly ascending lists with the same elements are equal, so the sorted key order is unique. |
| Ordering.SortedStrings | skyjo_optimizer/simulation/baseline.py:107 | `sorted` of distinct names lists exactly those names, strictly ascending. |
| Ordering.FirstMax | skyjo_optimizer/simulation/baseline.py:72 | `max(range(len(values)), key=...)` is an index of a greatest value, and no earlier index holds that value. |
| Ordering.MinOf | skyjo_optimizer/simulation/baseline.py:106 | `min(scores.values())` of a non-empty set of scores is one of them and no greater than any. |
| Ordering.MinString | skyjo_optimizer/simulation/baseline.py:107 | The least name of a non-empty set, the first one `sorted` yields, is a member and precedes every member. |
| Engine.BuildDeck | skyjo_optimizer/engine/state.py:41-49 | An invalid configuration fails with validation's reason. A valid one yields `total_cards` cards with ids `0, 1, 2, ...` in order, values non-decreasing, and each value occurring exactly as often as the composition says. |
| Engine.Composed | skyjo_optimizer/engine/state.py:43-49 | Laying out a composition's values in ascending order gives ids equal to positions, sorted values, and the composition's value counts. |
| Engine.CardsById | skyjo_optimizer/engine/state.py:76 | The id-to-card map has exactly the deck's ids as keys, each filed under its own card. |
| Engine.Deal | skyjo_optimizer/engine/state.py:64-71 | Player `p` gets the `p`-th run of `cards_per_player` shuffled ids and its sampled face-up set. The hands together hold the first `N * cards_per_player` ids in order. |
| Engine.Dealt | skyjo_optimizer/engine/state.py:64-75 | The hands, then the one discard, then the draw pile hold exactly the shuffled id sequence. |
| Engine.InitializeRound | skyjo_optimizer/engine/state.py:52-88 | Fewer than 2 players fails with TooFewPlayers. An invalid configuration fails with InvalidConfiguration. A deck with fewer than `N * cards_per_player + 1` cards fails with DeckTooSmall, each of these iff its condition holds. Otherwise: full hands, sampled in-range face-up sets, one discard, player 0 and turn 0, no countdown, every deck id located once, and every id filed under its card. |
| Engine.DealtFresh | skyjo_optimizer/engine/state.py:60-88 | A deal from a permutation of the deck's ids has all the properties of a freshly dealt round. |
| Engine.HiddenFrom | skyjo_optimizer/simulation/baseline.py:56 | The hidden slot list holds exactly the in-range slots that are not face-up, strictly ascending. |
| Engine.LegalActions | skyjo_optimizer/engine/state.py:91-99 | An action is listed iff its slot is in range and, for a flip, hidden. The list has `2 * slots + hidden` entries and is ordered by slot, then take-discard, draw-swap, flip. |
| Engine.ActionsFromMember | skyjo_optimizer/engine/state.py:94-98 | The enumeration from slot `k` on lists exactly the legal moves on slots `>= k`. |
| Engine.ActionsFromLength | skyjo_optimizer/engine/state.py:94-98 | The enumeration from slot `k` has two moves per slot plus one per hidden slot. |
| Engine.ActionsFromOrdered | skyjo_optimizer/engine/state.py:94-98 | The enumeration is strictly ordered by slot, then by kind. |
| Engine.DrawCard | skyjo_optimizer/engine/state.py:151-160 | Drawing fails iff the draw pile is empty and the discard pile has at most one card. It pops the draw pile's top when there is one. Otherwise the discard top stays alone and the rest, in order, becomes the draw pile that is popped. No id is lost or invented. |
| Engine.FirstFullyRevealed | skyjo_optimizer/engine/state.py:169-173 | The scan finds the lowest fully revealed player, or none iff there is none. |
| Engine.AdvanceTurn | skyjo_optimizer/engine/state.py:163-187 | Only the turn fields change. The turn passes to the next seat and the turn count rises by 1. An unset countdown starts at `N - 1`, with the lowest fully revealed player as ender, exactly when some hand is fully revealed. A set countdown steps towards 0 and keeps its ender. |
| Engine.Move | skyjo_optimizer/engine/state.py:106-135 | A move fails, with DeckExhausted, iff it needs a draw that cannot happen. Otherwise it changes only the acting hand and the piles, reveals the target slot, and leaves the discard pile non-empty. |
| Engine.Apply | skyjo_optimizer/engine/state.py:102-148 | An action fails with IllegalAction iff it is not legal, and otherwise only with DeckExhausted when it cannot draw. On success: the rules and cards are kept, the turn count rises by 1, the turn passes on, the other hands are unchanged, the target slot is revealed, and the discard pile is non-empty. |
| EngineInvariants.PermutationOfRange | skyjo_optimizer/engine/state.py:61-62 | A shuffle of the ids `0 .. n - 1` holds each of them exactly once and nothing else. |
| EngineInvariants.InitConsistent | skyjo_optimizer/engine/state.py:52-88 | A dealt round satisfies the invariant: ids distinct and filed, face-up indices in range, discard non-empty, countdown shape. `card_location_counts` is 1 for every deck id. |
| Engine.CardLocationCounts | skyjo_optimizer/engine/state.py:194-199 | The counter's total is the number of hand slots plus both piles' sizes, and an id is counted iff it sits in a hand, the discard pile or the draw pile. |
| EngineInvariants.FreshConsistent | skyjo_optimizer/engine/state.py:60-88 | A freshly dealt round of at least two hands satisfies the invariant. |
| EngineInvariants.InitValuesMatchComposition | skyjo_optimizer/engine/state.py:194-199 | After the deal, the values over all locations occur exactly as often as the composition says. |
| EngineInvariants.CardValuesPermutation | skyjo_optimizer/engine/state.py:194-199 | Rearranging ids rearranges their values alike, so value counts do not depend on where ids sit. |
| EngineInvariants.TakeDiscardKeepsLocations | skyjo_optimizer/engine/state.py:117-122 | Taking the discard top into a slot keeps the multiset of located ids. |
| EngineInvariants.DrawSwapKeepsLocations | skyjo_optimizer/engine/state.py:123-128 | Drawing and swapping keeps the multiset of located ids. |
| EngineInvariants.FlipDropsDrawnCard | skyjo_optimizer/engine/state.py:129-131 | Drawing and flipping removes exactly the drawn id from the located ids, and keeps the hand's ids. |
| EngineInvariants.ApplySwapKeepsLocations | skyjo_optimizer/engine/state.py:117-128 | Both swap kinds keep the multiset of located ids. |
| EngineInvariants.ApplyFlipDropsDrawnCard | skyjo_optimizer/engine/state.py:129-131 | A successful flip action removes exactly the drawn id and leaves the acting hand's slots unchanged. |
| EngineInvariants.ApplySwapShape | skyjo_optimizer/engine/state.py:117-128 | A swap replaces only the target slot, and the card that was there is the new discard top. |
| EngineInvariants.ApplyKeepsIdsDistinct | skyjo_optimizer/engine/state.py:102-148 | After any action no id is in two places, and every located id is still filed. |
| EngineInvariants.ApplyPreservesConsistent | skyjo_optimizer/engine/state.py:102-148 | Every successful action keeps the snapshot invariant. |
| EngineInvariants.ApplyAll | skyjo_optimizer/engine/state.py:102-148 | A sequence of successful actions keeps the invariant, the rules, the cards and the player count, and adds one turn per action. |
| EngineInvariants.FaceUpGrows | skyjo_optimizer/engine/state.py:115-135 | Over any number of actions, every player's face-up set only grows and their hand size is kept. |
| EngineInvariants.ApplyCountdownStep | skyjo_optimizer/engine/state.py:174-175 | A running countdown `v` becomes `v - 1` when positive, otherwise stays at 0, and the ender is kept. |
| EngineInvariants.ApplyCountdownStart | skyjo_optimizer/engine/state.py:168-173 | An unset countdown starts exactly when some hand is fully revealed after the move. It starts at `N - 1`, with the lowest fully revealed player as ender. |
| EngineInvariants.CountdownRunsDown | skyjo_optimizer/engine/state.py:163-187 | After `k` actions a running countdown `v` is `max(v - k, 0)`, and the ender never changes. |
| EngineInvariants.RoundOverStays | skyjo_optimizer/engine/state.py:190-191 | A finished round stays finished whatever is applied to it. |
| EngineInvariants.RoundEndsAfterLastTurns | skyjo_optimizer/engine/state.py:168-191 | Once the countdown starts, the round is over after `k` more actions iff `k >= N - 1`. |
| EngineInvariants.RoundLastsPastCountdownStart | skyjo_optimizer/engine/state.py:168-191 | A round whose countdown has not started is not over, and it is over after `k` more actions only if `k >= N`: every seat gets its last turn. |
| EngineInvariants.FullyRevealedIffNoHidden | skyjo_optimizer/engine/state.py:170 | For in-range face-up sets, `len(face_up) == len(slots)` holds iff no slot is hidden. |
| Agents.PickFrom | skyjo_optimizer/simulation/baseline.py:37-39 | `rng.choice(actions)` returns a member of the list. |
| Agents.FindAction | skyjo_optimizer/simulation/baseline.py:62-64 | The search finds an action iff one of the wanted kind and slot is listed, and returns that action. |
| Agents.Heuristic | skyjo_optimizer/simulation/baseline.py:51-77 | The heuristic fails iff the hand or the action list is empty, and otherwise returns a listed action. Without a random draw, that action is one of three: a take-discard into the first hidden slot or the highest card, with a discard of at most 2; a flip of the first hidden slot; or a draw-swap over the highest card. |
| Agents.Choose | skyjo_optimizer/simulation/baseline.py:37-77 | Both agents return a member of the offered actions. They fail only on an empty list, or for the heuristic on an empty hand. |
| Agents.HeuristicOnLegalActions | skyjo_optimizer/simulation/baseline.py:51-77 | Offered the legal actions, the heuristic never draws. With a hidden slot, it takes a discard of at most 2 into the first hidden slot, else flips that slot. With the hand revealed, it swaps over the first highest card: from the discard at most 2, else from the draw pile. |
| Rounds.ConsistentFiled | skyjo_optimizer/simulation/baseline.py:52-54 | In any reachable snapshot, every hand and the discard top are filed, so the heuristic's lookups succeed. |
| Rounds.InitSeated | skyjo_optimizer/engine/state.py:52-88 | A dealt round is consistent, with non-empty filed hands. |
| Rounds.ApplyKeepsSeated | skyjo_optimizer/engine/state.py:102-148 | Successful actions keep a round consistent, with non-empty filed hands. |
| Rounds.Step | skyjo_optimizer/simulation/baseline.py:97-98 | One loop pass keeps the round seated, the players, cards and rules, adds one turn, and uses at most one random draw. It fails only when the deck is exhausted. |
| Rounds.Play | skyjo_optimizer/simulation/baseline.py:94-100 | A played-out round is over, seated, and took fewer turns than the budget. Failure is only a spent budget or an exhausted deck. |
| Rounds.PlayFollowsEngine | skyjo_optimizer/simulation/baseline.py:94-100 | A finished round is the engine applying some action sequence, one action per turn. |
| Rounds.PlayMoreFuel | skyjo_optimizer/simulation/baseline.py:94-100 | A larger turn budget does not change a round that finished within a smaller one. |
| Rounds.PlayLessFuel | skyjo_optimizer/simulation/baseline.py:94-100 | A budget no larger than the turns a round takes fails with NonTerminatingRound. |
| Rounds.ScoreAfterAction | skyjo_optimizer/simulation/baseline.py:175-177 | An action changes only the acting player's score. A swap changes it by the incoming value minus the outgoing value, and a flip does not change it. |
| Rounds.ScoreCountsHiddenCards | skyjo_optimizer/simulation/baseline.py:175-177 | `_score_player` counts every slot, face-up or not: changing which slots are revealed never changes the score. |
| Rounds.ScoresFrom | skyjo_optimizer/simulation/baseline.py:102-105 | The score dict has exactly the names of the seats read so far. |
| Rounds.ScoresFromLastSeat | skyjo_optimizer/simulation/baseline.py:102-105 | A name maps to the score of the last seat bearing it. |
| Rounds.Scores | skyjo_optimizer/simulation/baseline.py:102-105 | The score dict of a finished round has exactly the agents' names as keys. |
| Rounds.Winners | skyjo_optimizer/simulation/baseline.py:106-107 | The winners are non-empty and strictly ascending. A name is a winner iff it has a score no greater than any other. |
| Rounds.RulesOrDefault | skyjo_optimizer/simulation/baseline.py:90 | Given rules are used unchanged. Without rules, the default bundle is used; it passes validation and holds 150 cards. |
| Rounds.DealRound | skyjo_optimizer/simulation/baseline.py:90-91 | Dealing fails only with an engine error, and with InvalidConfiguration iff the rules are invalid. Otherwise it seats one hand per agent at turn 0. |
| Rounds.RunRound | skyjo_optimizer/simulation/baseline.py:80-109 | Fewer than two agents fails with TooFewAgents, iff. Invalid rules fail with InvalidConfiguration, and valid rules with a non-positive turn budget fail. A result has a score for exactly the agents' names, the lowest scorers as ascending winners, and fewer turns than the budget. |
| Rounds.PlayOut | skyjo_optimizer/simulation/baseline.py:92-109 | Playing a dealt round fails when the budget is non-positive. It fails only with an engine error or NonTerminatingRound. Otherwise it scores every name and names the lowest scorers. |
| Rounds.Tabulate | skyjo_optimizer/simulation/baseline.py:102-109 | A finished round's result scores exactly the agents' names and records the turn count. Its winners are exactly the lowest scorers, in ascending order. |
| Rounds.RoundFromDeal | skyjo_optimizer/simulation/baseline.py:80-109 | A finished round is the deal followed by `turns` engine actions ending the round. Its scores are the final hands' sums. |
| Rounds.ModUnique | skyjo_optimizer/simulation/baseline.py:171 | `x % n` is the unique remainder `r` in `[0, n)` with `x = q * n + r`. |
| Rounds.Rotate | skyjo_optimizer/simulation/baseline.py:170-172 | Rotating an empty roster fails (the modulo by zero). Otherwise the rotation has the same length, puts `xs[(j + s) mod n]` at seat `j`, and is a permutation. |
| Rounds.RotateTwice | skyjo_optimizer/simulation/baseline.py:170-172 | Rotating by `a` and then by `b` is rotating by `a + b`. |
| Rounds.RotateFull | skyjo_optimizer/simulation/baseline.py:170-172 | Rotating by a multiple of the roster size gives back the roster. |
| Rounds.RotateKeepsNames | skyjo_optimizer/simulation/baseline.py:170-172 | Rotation keeps the set of names at the table. |
| Stats.Trunc | skyjo_optimizer/simulation/baseline.py:186 | `int(x)` truncates toward zero: it is within 1 of `x`, on the side of 0. |
| Stats.PyIndex | skyjo_optimizer/simulation/baseline.py:189 | Python indexing succeeds iff `-len <= i < len`. A successful index yields a member of the list, the one at `i mod len`, so `i` and `i - len` name the same element. |
| Stats.Percentile | skyjo_optimizer/simulation/baseline.py:180-189 | An empty list fails. A singleton gives its element. For `q` in `[0, 1]` the result lies between the least and the greatest value. |
| Stats.InterpolatedWithin | skyjo_optimizer/simulation/baseline.py:185-189 | For `q` in `[0, 1]` both ranks are in range, and the interpolation lies between two members of the list. |
| Stats.Ranks | skyjo_optimizer/simulation/baseline.py:185-188 | For `q` in `[0, 1]`, `low` and `high` index the list and the weight lies in `[0, 1]`. |
| Stats.PercentileEndpoints | skyjo_optimizer/simulation/baseline.py:180-189 | `q = 0` gives the least value and `q = 1` the greatest. |
| Stats.Mean | skyjo_optimizer/simulation/baseline.py:148 | The mean times the count is the sum, and the mean lies between the least and the greatest value. |
| Stats.Median | skyjo_optimizer/simulation/baseline.py:149 | The median lies within the list's range, and for an odd count it is a member. |
| Tournament.PlayRounds | skyjo_optimizer/simulation/baseline.py:129-133 | Playing `count > 0` rounds with no agents fails with NoAgents, and with one agent fails with TooFewAgents. Success yields exactly `count` results. Failures are only those or a round's own failure. |
| Tournament.PlayedRound | skyjo_optimizer/simulation/baseline.py:130-133 | Round `i` is `run_round` on the roster rotated by `i` with seed `seed + 13 * i`. |
| Tournament.PlayedRoundsWellFormed | skyjo_optimizer/simulation/baseline.py:130-133 | Every played round scores exactly the roster's names and has non-empty, ascending winners from the roster. |
| Tournament.Share | skyjo_optimizer/simulation/baseline.py:138-140 | A round's share for a name lies in `[0, 1]`, is positive iff the name is among the winners, and is a full win for a sole winner. |
| Tournament.RoundSeedsDistinct | skyjo_optimizer/simulation/baseline.py:132 | Round 0 is seeded with the tournament's seed, each next round 13 higher, and no two rounds share a seed. |
| Tournament.SharesCount | skyjo_optimizer/simulation/baseline.py:138-140 | The shares a round hands to a list of names are `1 / len(winners)` times the number of winners among them. |
| Tournament.RoundSharesSumToOne | skyjo_optimizer/simulation/baseline.py:138-140 | One round hands out exactly one win in total, however many share it. |
| Tournament.TotalWinsIsRounds | skyjo_optimizer/simulation/baseline.py:130-140 | Summed over all names, `wins` equals the number of rounds. |
| Tournament.WinRates | skyjo_optimizer/simulation/baseline.py:154 | The win-rate dict has exactly the roster's names. |
| Tournament.RatesAreTotalsOverRounds | skyjo_optimizer/simulation/baseline.py:154 | The win rates of any names add up to their wins over the number of rounds. |
| Tournament.WinRatesSumToOne | skyjo_optimizer/simulation/baseline.py:138-154 | The win rates of all names add up to exactly 1. |
| Tournament.PairTotalsComplement | skyjo_optimizer/simulation/baseline.py:141-146 | For two names, the head-to-head points each way add up to the number of rounds, and each lies between 0 and that number. |
| Tournament.Points | skyjo_optimizer/simulation/baseline.py:141-146 | One round's points for `a` against `b` lie in `[0, 1]`: 1 iff `a` scored strictly lower, 0 iff strictly higher, otherwise the half point of a tie. |
| Tournament.PointsComplement | skyjo_optimizer/simulation/baseline.py:141-146 | In one round, the points of `a` against `b` and of `b` against `a` add up to 1, and a name against itself would get 0.5. |
| Tournament.Matrix | skyjo_optimizer/simulation/baseline.py:124-127 | The matrix has a row per name, over every other name. |
| Tournament.MatrixPairs | skyjo_optimizer/simulation/baseline.py:141-158 | Every matrix cell lies in `[0, 1]`, and the two cells of a pair add up to 1. |
| Tournament.CollectScoresIsScoresOf | skyjo_optimizer/simulation/baseline.py:122-136 | The loop that appends every round's scores leaves each name with exactly its score from each round, in round order, the list the summaries read. |
| Tournament.Means | skyjo_optimizer/simulation/baseline.py:148 | Every name's mean score lies between its least and greatest round score. |
| Tournament.Medians | skyjo_optimizer/simulation/baseline.py:149 | Every name's median lies within its score range, and for an odd round count it is one of its scores. |
| Tournament.Tails | skyjo_optimizer/simulation/baseline.py:150-153 | Every name's 0.95 quantile lies within its score range. After a single round it is that round's score. |
| Tournament.Tail95 | skyjo_optimizer/simulation/baseline.py:150-153 | `_percentile(scores, 0.95)` of a non-empty score list lies within its range, and is the score itself after a single round. |
| Tournament.Summarize | skyjo_optimizer/simulation/baseline.py:148-158 | The summaries cover exactly the roster's names, each score summary lies within the name's score range, and the win rates and matrix are the ones defined above. |
| Tournament.RunTournament | skyjo_optimizer/simulation/baseline.py:112-167 | A non-positive round count fails with NonPositiveRounds, iff. With no agents or one agent it fails as `_rotate_agents` or `run_round` would. A result holds exactly `rounds` well-formed rounds, those `PlayRounds` plays, and their summaries. |
| Tournament.TournamentWinRates | skyjo_optimizer/simulation/baseline.py:154 | A tournament's win rates cover the roster and add up to exactly 1. |
| Tournament.TournamentMatrix | skyjo_optimizer/simulation/baseline.py:155-158 | A tournament's matrix row for `a` covers every other name, each cell lies in `[0, 1]`, and `m[a][b] + m[b][a] = 1`. |

## Left out

- Python's Mersenne Twister is not modelled. `random.shuffle`, `random.sample` and `rng.choice` are replaced by the `Oracle` parameter. `OracleFits` demands only that a shuffle is a permutation and a sample has the right size and range. Replaying a given seed exactly is out of reach.
- `rng.choice(actions)` is modelled as `actions[draw % len(actions)]`, with the draw coming from the oracle.
- Floats are exact reals in the tournament aggregates. This covers the win shares `1 / len(winners)`, the 0.5 for a tie, the division by `rounds`, the quantile 0.95 (taken as exactly 95/100), and the percentile interpolation. Rounding of float sums is not modelled.
- `statistics.mean` and `statistics.median` are defined by their mathematical definitions over the integer scores, not by the library's code.
- Column clearing and an ender penalty do not exist in the modelled code, so they are not modelled.
- `target_match_score` is carried in `RulesConfig`. Nothing in the modelled code reads it.
- The `else` branch raising "unknown action kind" in `apply_action` cannot be reached, because `ActionKind` has exactly the three listed kinds and anything else fails the legality check first.
- `legal_actions` and `apply_action` index `state.players[state.active_player]`, and `take_discard_swap` pops the discard pile. The model requires `Playable` (an active seat in `[0, N)` and a non-empty discard pile) instead of modelling the `IndexError`. The invariant `Consistent` guarantees it in every reachable snapshot.
- Engine.Apply: `Playable` also turns away two kinds of snapshot the source accepts, neither reachable from a deal: a negative `active_player`, which Python reads from the end of `players`, and an empty discard pile with a non-empty draw pile, where `draw_swap` and `draw_discard_flip` succeed in Python. Only `take_discard_swap` fails there, with `IndexError` from `pop()`.
- `SimpleHeuristicAgent` looks up `state.cards[...]` for its hand and the discard top. The model requires those ids to be filed (`HandKnown`) instead of modelling a `KeyError`. `ConsistentFiled` shows they always are in a reachable snapshot.
- `rules or RulesConfig()` is modelled as an `Option<RulesConfig>`. A dataclass instance is always truthy, so only `None` selects the default.
- Duplicate agent names are modelled as Python's dicts treat them: the last seat with a name owns its score. The tournament statements are over the set of names.
- Rounds.Step: only the two agents of `simulation/baseline.py` are modelled, and both pick from `legal_actions`. `run_round` accepts any `BaselineAgent`, and one returning an unlisted action makes `apply_action` raise "illegal action" through `run_round`. That path is not modelled. The statements that `Step` and `Play` fail only with DeckExhausted or NonTerminatingRound rely on this closed set of agents.
- Rounds.Play: the `max_turns` loop is a `fuel` count. Termination within the budget is not proved, because agents can swap revealed cards forever. Failure past the budget is modelled.
- Tournament.Means: states the range of each mean, not the ratio of sum to count. That ratio is stated for a single list by `Stats.Mean`.
- Tournament.Summarize: states the range of each mean, median and 0.95 quantile, not their exact values.
- Object identity, mutable list aliasing and the `frozen` dataclass machinery are not modelled. Everything is an immutable value.
- The rest of the repository is not part of this model: the machine-learning pipeline, the evaluator, the scenarios, the regression replay, the command line, the heuristic-weights agent and the package re-exports.
