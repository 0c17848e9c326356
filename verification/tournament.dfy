/** A tournament of baseline agents (simulation/baseline.py
    `run_tournament`): `rounds` rounds with the seating rotated by one seat
    and the seed advanced by 13 each round, then per-agent score summaries,
    win rates (a shared win is split evenly) and the head-to-head matrix.

    Aggregates are exact reals: the source's floats (the running sums of
    win shares, the 0.5 for a tie, the division by `rounds`, the quantile
    0.95) are taken at their mathematical values. */
module Tournament {
  import opened Wrappers
  import opened Ordering
  import opened Config
  import opened Stats
  import opened Agents
  import opened Rounds

  datatype TournamentResult = TournamentResult(
    rounds: seq<RoundResult>,
    meanScoreByAgent: map<string, real>,
    medianScoreByAgent: map<string, real>,
    tail95ScoreByAgent: map<string, real>,
    winRateByAgent: map<string, real>,
    winRateMatrix: map<string, map<string, real>>)

  /** The quantile `_percentile` is asked for. */
  const Tail: real := 95.0 / 100.0

  /** The seed of round `i`: `seed + round_index * 13`. */
  function RoundSeed(seed: int, i: int): int {
    seed + i * 13
  }

  /** Round 0 uses the tournament's seed, each later round's seed is 13 past
      the previous one, and no two rounds share a seed. */
  lemma RoundSeedsDistinct(seed: int, i: int, j: int)
    ensures RoundSeed(seed, 0) == seed
    ensures RoundSeed(seed, i + 1) == RoundSeed(seed, i) + 13
    ensures i != j ==> RoundSeed(seed, i) != RoundSeed(seed, j)
  {
  }

  /** What every round of a tournament over `names` produces: a score for
      each name, and a non-empty ascending list of winners among them. */
  predicate WellFormedRound(r: RoundResult, names: set<string>) {
    && r.scoresByAgent.Keys == names
    && |r.winnerNames| > 0 && StringsAscending(r.winnerNames)
    && forall i :: 0 <= i < |r.winnerNames| ==> r.winnerNames[i] in names
  }

  predicate WellFormedRounds(results: seq<RoundResult>, names: set<string>) {
    forall i :: 0 <= i < |results| ==> WellFormedRound(results[i], names)
  }

  // ---------------------------------------------------------------------------
  // Playing the rounds
  // ---------------------------------------------------------------------------

  /** The loop over `range(rounds)`, up to `count` rounds: each round seats
      `_rotate_agents(agents, round_index)`; the first failing round's error
      ends the tournament. */
  function PlayRounds(agents: seq<Agent>, seed: int, rules: Option<RulesConfig>, o: Oracle, count: nat)
    : (r: Result<seq<RoundResult>, HarnessError>)
    requires OracleFits(o)
    ensures count > 0 && |agents| == 0 ==> r == Err(NoAgents)
    ensures count > 0 && |agents| == 1 ==> r == Err(TooFewAgents)
    ensures r.Ok? ==> |r.value| == count && (count > 0 ==> |agents| >= 2)
    ensures r.Err? ==> r.error.NoAgents? || r.error.TooFewAgents? || r.error.EngineFailure? || r.error.NonTerminatingRound?
  {
    hide RunRound, Rotate;
    if count == 0 then Ok([])
    else
      var earlier :- PlayRounds(agents, seed, rules, o, count - 1);
      match Rotate(agents, count - 1)
      case None => Err(NoAgents)
      case Some(seating) =>
        var result :- RunRound(seating, RoundSeed(seed, count - 1), rules, DefaultMaxTurns, o);
        Ok(earlier + [result])
  }

  /** Round `i` of the played rounds is `run_round` on the roster rotated by
      `i` seats with the seed of round `i`. */
  lemma {:induction false} PlayedRound(agents: seq<Agent>, seed: int, rules: Option<RulesConfig>, o: Oracle, count: nat, i: nat)
    requires OracleFits(o) && PlayRounds(agents, seed, rules, o, count).Ok? && i < count
    ensures Rotate(agents, i).Some?
    ensures RunRound(Rotate(agents, i).value, RoundSeed(seed, i), rules, DefaultMaxTurns, o)
            == Ok(PlayRounds(agents, seed, rules, o, count).value[i])
    decreases count
  {
    hide RunRound, Rotate;
    var earlier := PlayRounds(agents, seed, rules, o, count - 1);
    assert earlier.Ok?;
    if i < count - 1 {
      PlayedRound(agents, seed, rules, o, count - 1, i);
    }
  }

  /** Every round played is well formed over the roster's names. */
  lemma PlayedRoundsWellFormed(agents: seq<Agent>, seed: int, rules: Option<RulesConfig>, o: Oracle, count: nat)
    requires OracleFits(o) && count > 0 && PlayRounds(agents, seed, rules, o, count).Ok?
    ensures WellFormedRounds(PlayRounds(agents, seed, rules, o, count).value, Names(agents))
  {
    hide PlayRounds, RunRound;
    var results := PlayRounds(agents, seed, rules, o, count).value;
    forall i | 0 <= i < count
      ensures WellFormedRound(results[i], Names(agents))
    {
      RotateKeepsNames(agents, i);
      PlayedRound(agents, seed, rules, o, count, i);
      var r := results[i];
      assert RunRound(Rotate(agents, i).value, RoundSeed(seed, i), rules, DefaultMaxTurns, o) == Ok(r);
      forall k | 0 <= k < |r.winnerNames|
        ensures r.winnerNames[k] in Names(agents)
      {
        assert r.winnerNames[k] in r.winnerNames;
      }
    }
  }

  // ---------------------------------------------------------------------------
  // Wins
  // ---------------------------------------------------------------------------

  /** What one round adds to `wins[name]`: `1 / len(winner_names)` for each
      winner, nothing for the others. */
  function Share(r: RoundResult, name: string): (x: real)
    ensures 0.0 <= x <= 1.0
    ensures x > 0.0 <==> name in r.winnerNames
    ensures r.winnerNames == [name] ==> x == 1.0
  {
    if name in r.winnerNames then 1.0 / |r.winnerNames| as real else 0.0
  }

  /** `wins[name]` after the rounds `results`. */
  function WinTotal(results: seq<RoundResult>, name: string): real
    decreases |results|
  {
    if |results| == 0 then 0.0
    else WinTotal(results[..|results| - 1], name) + Share(results[|results| - 1], name)
  }

  /** The shares one round hands to the names `ks`. */
  function SumShares(r: RoundResult, ks: seq<string>): real
    decreases |ks|
  {
    if |ks| == 0 then 0.0 else SumShares(r, ks[..|ks| - 1]) + Share(r, ks[|ks| - 1])
  }

  /** How many of `ks` lie in `s`. */
  function CountIn(ks: seq<string>, s: set<string>): nat
    decreases |ks|
  {
    if |ks| == 0 then 0 else CountIn(ks[..|ks| - 1], s) + if ks[|ks| - 1] in s then 1 else 0
  }

  function Elems(ks: seq<string>): set<string> {
    set k | k in ks
  }

  lemma {:induction false} SharesCount(r: RoundResult, ks: seq<string>)
    requires |r.winnerNames| > 0
    ensures SumShares(r, ks) == CountIn(ks, Elems(r.winnerNames)) as real * (1.0 / |r.winnerNames| as real)
    decreases |ks|
  {
    if |ks| > 0 {
      SharesCount(r, ks[..|ks| - 1]);
      var c := 1.0 / |r.winnerNames| as real;
      var n := CountIn(ks[..|ks| - 1], Elems(r.winnerNames));
      assert (n + 1) as real * c == n as real * c + c;
    }
  }

  /** Over distinct names, counting members is measuring the intersection. */
  lemma {:induction false} CountDistinct(ks: seq<string>, s: set<string>)
    requires StringsAscending(ks)
    ensures CountIn(ks, s) == |s * Elems(ks)|
    decreases |ks|
  {
    if |ks| > 0 {
      var pre := ks[..|ks| - 1];
      var last := ks[|ks| - 1];
      LastIsNew(ks);
      CountDistinct(pre, s);
      hide StringsAscending, CountIn;
      if last in s {
        assert s * Elems(ks) == (s * Elems(pre)) + {last};
      } else {
        assert s * Elems(ks) == s * Elems(pre);
      }
    }
  }

  /** The last of an ascending list is not among the ones before it. */
  lemma LastIsNew(ks: seq<string>)
    requires StringsAscending(ks) && |ks| > 0
    ensures StringsAscending(ks[..|ks| - 1])
    ensures Elems(ks) == Elems(ks[..|ks| - 1]) + {ks[|ks| - 1]}
    ensures ks[|ks| - 1] !in Elems(ks[..|ks| - 1])
  {
    var pre := ks[..|ks| - 1];
    var last := ks[|ks| - 1];
    forall k | 0 <= k < |pre|
      ensures pre[k] != last
    {
      AscendingDistinct(ks, k, |ks| - 1);
    }
    assert ks == pre + [last];
  }

  /** Ascending strings are as many as their set. */
  lemma DistinctCard(ks: seq<string>)
    requires StringsAscending(ks)
    ensures |Elems(ks)| == |ks|
  {
    CountDistinct(ks, Elems(ks));
    CountAll(ks, Elems(ks));
    assert Elems(ks) * Elems(ks) == Elems(ks);
  }

  lemma {:induction false} CountAll(ks: seq<string>, s: set<string>)
    requires forall i :: 0 <= i < |ks| ==> ks[i] in s
    ensures CountIn(ks, s) == |ks|
    decreases |ks|
  {
    if |ks| > 0 {
      CountAll(ks[..|ks| - 1], s);
    }
  }

  lemma UnitShare(n: nat)
    requires n > 0
    ensures n as real * (1.0 / n as real) == 1.0
  {
  }

  /** One round hands out exactly one win in total, however many share it. */
  lemma RoundSharesSumToOne(r: RoundResult, names: set<string>, ks: seq<string>)
    requires WellFormedRound(r, names)
    requires StringsAscending(ks) && Elems(ks) == names
    ensures SumShares(r, ks) == 1.0
  {
    WinnersCounted(r, names, ks);
    SharesCount(r, ks);
    hide SumShares, CountIn, Elems;
    UnitShare(|r.winnerNames|);
  }

  /** Every winner is counted once among the names. */
  lemma WinnersCounted(r: RoundResult, names: set<string>, ks: seq<string>)
    requires WellFormedRound(r, names)
    requires StringsAscending(ks) && Elems(ks) == names
    ensures CountIn(ks, Elems(r.winnerNames)) == |r.winnerNames|
  {
    var w := Elems(r.winnerNames);
    CountDistinct(ks, w);
    assert w * Elems(ks) == w;
    DistinctCard(r.winnerNames);
  }

  /** The win totals of the names `ks`, added up. */
  function TotalWins(results: seq<RoundResult>, ks: seq<string>): real
    decreases |ks|
  {
    if |ks| == 0 then 0.0 else TotalWins(results, ks[..|ks| - 1]) + WinTotal(results, ks[|ks| - 1])
  }

  lemma {:induction false} TotalWinsLastRound(results: seq<RoundResult>, ks: seq<string>)
    requires |results| > 0
    ensures TotalWins(results, ks)
            == TotalWins(results[..|results| - 1], ks) + SumShares(results[|results| - 1], ks)
    decreases |ks|
  {
    if |ks| > 0 {
      TotalWinsLastRound(results, ks[..|ks| - 1]);
    }
  }

  lemma {:induction false} TotalWinsNoRounds(ks: seq<string>)
    ensures TotalWins([], ks) == 0.0
    decreases |ks|
  {
    if |ks| > 0 {
      TotalWinsNoRounds(ks[..|ks| - 1]);
    }
  }

  /** All wins together: one per round. */
  lemma {:induction false} TotalWinsIsRounds(results: seq<RoundResult>, names: set<string>, ks: seq<string>)
    requires WellFormedRounds(results, names)
    requires StringsAscending(ks) && Elems(ks) == names
    ensures TotalWins(results, ks) == |results| as real
    decreases |results|
  {
    if |results| > 0 {
      var pre := results[..|results| - 1];
      assert WellFormedRounds(pre, names) by {
        forall i | 0 <= i < |pre|
          ensures WellFormedRound(pre[i], names)
        {
          assert pre[i] == results[i];
        }
      }
      TotalWinsIsRounds(pre, names, ks);
      TotalWinsLastRound(results, ks);
      RoundSharesSumToOne(results[|results| - 1], names, ks);
    } else {
      TotalWinsNoRounds(ks);
    }
  }

  /** `{name: value / rounds for name, value in wins.items()}` */
  function WinRates(results: seq<RoundResult>, names: set<string>): (m: map<string, real>)
    requires |results| > 0
    ensures m.Keys == names
  {
    map name | name in names :: WinTotal(results, name) / |results| as real
  }

  /** The values of `m` at those of the keys `ks` it holds, added up. */
  function SumAt(m: map<string, real>, ks: seq<string>): real
    decreases |ks|
  {
    if |ks| == 0 then 0.0
    else SumAt(m, ks[..|ks| - 1]) + if ks[|ks| - 1] in m then m[ks[|ks| - 1]] else 0.0
  }

  lemma DivAdd(a: real, b: real, d: real)
    requires d > 0.0
    ensures a / d + b / d == (a + b) / d
  {
  }

  lemma {:induction false} RatesAreTotalsOverRounds(results: seq<RoundResult>, names: set<string>, ks: seq<string>)
    requires |results| > 0 && forall i :: 0 <= i < |ks| ==> ks[i] in names
    ensures SumAt(WinRates(results, names), ks) == TotalWins(results, ks) / |results| as real
    decreases |ks|
  {
    if |ks| > 0 {
      RatesAreTotalsOverRounds(results, names, ks[..|ks| - 1]);
      DivAdd(TotalWins(results, ks[..|ks| - 1]), WinTotal(results, ks[|ks| - 1]), |results| as real);
    }
  }

  /** The win rates of all agents add up to 1. */
  lemma WinRatesSumToOne(results: seq<RoundResult>, names: set<string>)
    requires |results| > 0 && WellFormedRounds(results, names)
    ensures SumAt(WinRates(results, names), SortedStrings(names)) == 1.0
  {
    var ks := SortedStrings(names);
    assert Elems(ks) == names;
    TotalWinsIsRounds(results, names, ks);
    RatesAreTotalsOverRounds(results, names, ks);
    hide SumAt, TotalWins, WinRates;
    SelfRatio(TotalWins(results, ks), |results| as real);
  }

  lemma SelfRatio(x: real, d: real)
    requires x == d && d > 0.0
    ensures x / d == 1.0
  {
  }

  // ---------------------------------------------------------------------------
  // Head-to-head
  // ---------------------------------------------------------------------------

  /** What one round adds to `matrix_counts[a][b]`: 1 for a strictly lower
      score, 0.5 for a tie. */
  function Points(r: RoundResult, a: string, b: string): (p: real)
    requires a in r.scoresByAgent && b in r.scoresByAgent
    ensures 0.0 <= p <= 1.0
    ensures p == 1.0 <==> r.scoresByAgent[a] < r.scoresByAgent[b]
    ensures p == 0.0 <==> r.scoresByAgent[b] < r.scoresByAgent[a]
    ensures r.scoresByAgent[a] == r.scoresByAgent[b] ==> p == 0.5
  {
    if r.scoresByAgent[a] < r.scoresByAgent[b] then 1.0
    else if r.scoresByAgent[a] == r.scoresByAgent[b] then 0.5
    else 0.0
  }

  /** The two players of a pair split each round's point between them. */
  lemma PointsComplement(r: RoundResult, a: string, b: string)
    requires a in r.scoresByAgent && b in r.scoresByAgent
    ensures Points(r, a, b) + Points(r, b, a) == 1.0
    ensures Points(r, a, a) == 0.5
  {
  }

  function PairTotal(results: seq<RoundResult>, names: set<string>, a: string, b: string): real
    requires WellFormedRounds(results, names) && a in names && b in names
    decreases |results|
  {
    if |results| == 0 then 0.0
    else PairTotal(results[..|results| - 1], names, a, b) + Points(results[|results| - 1], a, b)
  }

  /** `a` and `b` split every round between them. */
  lemma {:induction false} PairTotalsComplement(results: seq<RoundResult>, names: set<string>, a: string, b: string)
    requires WellFormedRounds(results, names) && a in names && b in names
    ensures PairTotal(results, names, a, b) + PairTotal(results, names, b, a) == |results| as real
    ensures 0.0 <= PairTotal(results, names, a, b) <= |results| as real
    decreases |results|
  {
    if |results| > 0 {
      PairTotalsComplement(results[..|results| - 1], names, a, b);
    }
  }

  /** `{a: {b: value / rounds ...} ...}` over the pairs of distinct names. */
  function Matrix(results: seq<RoundResult>, names: set<string>): (m: map<string, map<string, real>>)
    requires |results| > 0 && WellFormedRounds(results, names)
    ensures m.Keys == names
    ensures forall a :: a in m ==> m[a].Keys == names - {a}
  {
    map a | a in names ::
      map b | b in names && b != a :: PairTotal(results, names, a, b) / |results| as real
  }

  lemma UnitFraction(x: real, d: real)
    requires d > 0.0 && 0.0 <= x <= d
    ensures 0.0 <= x / d <= 1.0
  {
    assert x / d * d == x;
  }

  /** Each cell is a rate, and the two cells of a pair add up to 1. */
  lemma MatrixPairs(results: seq<RoundResult>, names: set<string>, a: string, b: string)
    requires |results| > 0 && WellFormedRounds(results, names)
    requires a in names && b in names && a != b
    ensures var m := Matrix(results, names);
            && 0.0 <= m[a][b] <= 1.0
            && m[a][b] + m[b][a] == 1.0
  {
    hide PairTotal;
    var n := |results| as real;
    var m := Matrix(results, names);
    assert m[a][b] == PairTotal(results, names, a, b) / n;
    assert m[b][a] == PairTotal(results, names, b, a) / n;
    PairTotalsComplement(results, names, a, b);
    PairTotalsComplement(results, names, b, a);
    UnitFraction(PairTotal(results, names, a, b), n);
    DivAdd(PairTotal(results, names, a, b), PairTotal(results, names, b, a), n);
  }

  // ---------------------------------------------------------------------------
  // Score summaries
  // ---------------------------------------------------------------------------

  /** `per_agent_scores[name]`: the agent's score in each round, in order. */
  function ScoresOf(results: seq<RoundResult>, name: string): (xs: seq<int>)
    requires forall i :: 0 <= i < |results| ==> name in results[i].scoresByAgent
    ensures |xs| == |results|
    ensures forall i :: 0 <= i < |results| ==> xs[i] == results[i].scoresByAgent[name]
  {
    seq(|results|, i requires 0 <= i < |results| => results[i].scoresByAgent[name])
  }

  /** `per_agent_scores` as the loop builds it: start from an empty list per
      name and, round after round, append each name's score. */
  function CollectScores(results: seq<RoundResult>, names: set<string>): (m: map<string, seq<int>>)
    requires WellFormedRounds(results, names)
    ensures m.Keys == names
    decreases |results|
  {
    if |results| == 0 then map nm | nm in names :: []
    else
      var before := CollectScores(results[..|results| - 1], names);
      var last := results[|results| - 1];
      map nm | nm in names :: before[nm] + [last.scoresByAgent[nm]]
  }

  /** The appending loop leaves every name with its score from each round, in
      round order. */
  lemma {:induction false} CollectScoresIsScoresOf(results: seq<RoundResult>, names: set<string>, nm: string)
    requires WellFormedRounds(results, names) && nm in names
    ensures CollectScores(results, names)[nm] == ScoresOf(results, nm)
    decreases |results|
  {
    if |results| > 0 {
      var prefix := results[..|results| - 1];
      CollectScoresIsScoresOf(prefix, names, nm);
      assert ScoresOf(results, nm) == ScoresOf(prefix, nm) + [results[|results| - 1].scoresByAgent[nm]];
    }
  }

  /** `mean_scores`: each agent's average score over the rounds. */
  function Means(results: seq<RoundResult>, names: set<string>): (m: map<string, real>)
    requires |results| > 0 && WellFormedRounds(results, names)
    ensures m.Keys == names
    ensures forall nm :: nm in names ==> WithinRange(ScoresOf(results, nm), m[nm])
  {
    map nm | nm in names :: Mean(ScoresOf(results, nm))
  }

  /** `median_scores`: each agent's median score over the rounds. */
  function Medians(results: seq<RoundResult>, names: set<string>): (m: map<string, real>)
    requires |results| > 0 && WellFormedRounds(results, names)
    ensures m.Keys == names
    ensures forall nm :: nm in names ==>
              && WithinRange(ScoresOf(results, nm), m[nm])
              && (|results| % 2 == 1 ==> exists i :: 0 <= i < |results| && m[nm] == ScoresOf(results, nm)[i] as real)
  {
    map nm | nm in names :: Median(ScoresOf(results, nm))
  }

  /** `tail95_scores`: each agent's 95th-percentile score over the rounds. */
  function Tails(results: seq<RoundResult>, names: set<string>): (m: map<string, real>)
    requires |results| > 0 && WellFormedRounds(results, names)
    ensures m.Keys == names
    ensures forall nm :: nm in names ==> WithinRange(ScoresOf(results, nm), m[nm])
    ensures |results| == 1 ==> forall nm :: nm in names ==> m[nm] == results[0].scoresByAgent[nm] as real
  {
    map nm | nm in names :: Tail95(ScoresOf(results, nm))
  }

  /** `_percentile(scores, 0.95)` of a non-empty list of scores. */
  function Tail95(xs: seq<int>): (r: real)
    requires |xs| > 0
    ensures WithinRange(xs, r)
    ensures |xs| == 1 ==> r == xs[0] as real
  {
    Percentile(xs, Tail).value
  }

  /** The summaries `run_tournament` builds once the rounds are played. */
  function Summarize(results: seq<RoundResult>, names: set<string>): (t: TournamentResult)
    requires |results| > 0 && WellFormedRounds(results, names)
    ensures t.rounds == results
    ensures t.meanScoreByAgent.Keys == names && t.medianScoreByAgent.Keys == names
    ensures t.tail95ScoreByAgent.Keys == names
    ensures forall nm :: nm in names ==>
              && WithinRange(ScoresOf(results, nm), t.meanScoreByAgent[nm])
              && WithinRange(ScoresOf(results, nm), t.medianScoreByAgent[nm])
              && WithinRange(ScoresOf(results, nm), t.tail95ScoreByAgent[nm])
    ensures t.winRateByAgent == WinRates(results, names)
    ensures t.winRateMatrix == Matrix(results, names)
  {
    hide Means, Medians, Tails, WinRates, Matrix;
    TournamentResult(results, Means(results, names), Medians(results, names), Tails(results, names),
                     WinRates(results, names), Matrix(results, names))
  }

  // ---------------------------------------------------------------------------
  // The tournament
  // ---------------------------------------------------------------------------

  /** `run_tournament(agents, rounds=rounds, seed=seed, rules=rules)`. */
  function RunTournament(agents: seq<Agent>, rounds: int, seed: int, rules: Option<RulesConfig>, o: Oracle)
    : (r: Result<TournamentResult, HarnessError>)
    requires OracleFits(o)
    ensures r == Err(NonPositiveRounds) <==> rounds <= 0
    ensures rounds > 0 && |agents| == 0 ==> r == Err(NoAgents)
    ensures rounds > 0 && |agents| == 1 ==> r == Err(TooFewAgents)
    ensures r.Ok? ==>
              && |agents| >= 2 && |r.value.rounds| == rounds
              && PlayRounds(agents, seed, rules, o, rounds).Ok?
              && r.value.rounds == PlayRounds(agents, seed, rules, o, rounds).value
              && WellFormedRounds(r.value.rounds, Names(agents))
              && r.value == Summarize(r.value.rounds, Names(agents))
  {
    hide PlayRounds, Summarize, RunRound, Rotate;
    if rounds <= 0 then Err(NonPositiveRounds)
    else
      var results :- PlayRounds(agents, seed, rules, o, rounds);
      PlayedRoundsWellFormed(agents, seed, rules, o, rounds);
      Ok(Summarize(results, Names(agents)))
  }

  /** A tournament's win rates cover the roster and add up to 1. */
  lemma TournamentWinRates(agents: seq<Agent>, rounds: int, seed: int, rules: Option<RulesConfig>, o: Oracle)
    requires OracleFits(o) && RunTournament(agents, rounds, seed, rules, o).Ok?
    ensures var t := RunTournament(agents, rounds, seed, rules, o).value;
            && t.winRateByAgent.Keys == Names(agents)
            && SumAt(t.winRateByAgent, SortedStrings(Names(agents))) == 1.0
  {
    var t := RunTournament(agents, rounds, seed, rules, o).value;
    WinRatesSumToOne(t.rounds, Names(agents));
  }

  /** A tournament's head-to-head matrix: a row per agent over the other
      agents, each cell a rate, and the two cells of a pair adding up to 1. */
  lemma TournamentMatrix(agents: seq<Agent>, rounds: int, seed: int, rules: Option<RulesConfig>, o: Oracle, a: string, b: string)
    requires OracleFits(o) && RunTournament(agents, rounds, seed, rules, o).Ok?
    requires a in Names(agents) && b in Names(agents) && a != b
    ensures var m := RunTournament(agents, rounds, seed, rules, o).value.winRateMatrix;
            && m.Keys == Names(agents) && m[a].Keys == Names(agents) - {a}
            && 0.0 <= m[a][b] <= 1.0
            && m[a][b] + m[b][a] == 1.0
  {
    var t := RunTournament(agents, rounds, seed, rules, o).value;
    MatrixPairs(t.rounds, Names(agents), a, b);
  }
}
