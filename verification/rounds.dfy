/** One round between baseline agents (simulation/baseline.py `run_round`):
    deal, let the seated agent choose among the legal actions until the
    countdown reaches 0 or the turn budget runs out, then score every hand
    and name the lowest scorers.

    Both generators of the source become an `Oracle`: `deal` is what
    `initialize_round` draws from `Random(seed)` (a shuffle and one face-up
    sample per player), and `draws(seed, k)` is the `k`-th number the
    round's own `Random(seed)` hands to `rng.choice`. */
module Rounds {
  import opened Wrappers
  import opened Ordering
  import opened Config
  import opened Engine
  import opened EngineInvariants
  import opened Stats
  import opened Agents

  datatype Oracle = Oracle(deal: (int, RulesConfig, int) -> Dealing, draws: (int, nat) -> nat)

  /** The dealing generator only produces what `random.shuffle` and
      `random.sample` can produce. */
  ghost predicate OracleFits(o: Oracle) {
    forall seed: int, rules: RulesConfig, playerCount: int ::
      DealingFits(o.deal(seed, rules, playerCount), rules, playerCount)
  }

  /** The exceptions `run_round` and `run_tournament` raise, by cause. */
  datatype HarnessError =
    | EngineFailure(cause: EngineError)
    | TooFewAgents
    | NoAgents
    | NonTerminatingRound
    | NonPositiveRounds

  datatype RoundResult = RoundResult(scoresByAgent: map<string, int>, winnerNames: seq<string>, turns: int)

  /** `max_turns`' default. */
  const DefaultMaxTurns: int := 1000

  /** `rules or RulesConfig()`: given rules are used as they are (a dataclass
      instance is always truthy); without them, the default bundle, which
      validates and holds the 150-card deck. */
  function RulesOrDefault(rules: Option<RulesConfig>): (config: RulesConfig)
    ensures rules.Some? ==> config == rules.value
    ensures rules.None? ==> Validate(config) == Pass && TotalCards(config.deckComposition) == 150
  {
    if rules.Some? then rules.value
    else
      DefaultRulesValid();
      DefaultRules()
  }

  /** The names seated at a table. */
  function Names(agents: seq<Agent>): set<string> {
    set a | a in agents :: a.name
  }

  // ---------------------------------------------------------------------------
  // Snapshots agents can act on
  // ---------------------------------------------------------------------------

  /** Every card a hand holds is filed under its id. */
  predicate HandFiled(s: RoundState, p: int)
    requires 0 <= p < |s.players|
  {
    forall i :: 0 <= i < |s.players[p].slots| ==> s.players[p].slots[i] in s.cards
  }

  /** A consistent snapshot in which no hand is empty and every hand is filed. */
  predicate Seated(s: RoundState) {
    && Consistent(s)
    && (forall p :: 0 <= p < |s.players| ==> |s.players[p].slots| > 0)
    && (forall p :: 0 <= p < |s.players| ==> HandFiled(s, p))
  }

  lemma SeatedConsistent(s: RoundState)
    requires Seated(s)
    ensures Consistent(s)
  {
  }

  lemma SeatedFiled(s: RoundState)
    requires Seated(s)
    ensures forall p :: 0 <= p < |s.players| ==> HandFiled(s, p)
  {
  }

  lemma {:induction false} HandInFlatten(players: seq<PlayerState>, p: int, i: int)
    requires 0 <= p < |players| && 0 <= i < |players[p].slots|
    ensures players[p].slots[i] in Flatten(players)
    decreases |players|
  {
    var last := |players| - 1;
    assert Flatten(players) == Flatten(players[..last]) + players[last].slots;
    if p == last {
      assert Flatten(players)[|Flatten(players[..last])| + i] == players[p].slots[i];
    } else {
      HandInFlatten(players[..last], p, i);
    }
  }

  /** In a consistent snapshot every hand and the discard top are filed. */
  lemma ConsistentFiled(s: RoundState)
    requires Consistent(s)
    ensures forall p :: 0 <= p < |s.players| ==> HandFiled(s, p)
    ensures HandKnown(s)
  {
    forall p, i | 0 <= p < |s.players| && 0 <= i < |s.players[p].slots|
      ensures s.players[p].slots[i] in s.cards
    {
      HandInFlatten(s.players, p, i);
      var f := Flatten(s.players);
      var k :| 0 <= k < |f| && f[k] == s.players[p].slots[i];
      assert Located(s)[k] == f[k];
    }
    var f := Flatten(s.players);
    assert Located(s)[|f| + |s.discardPile| - 1] == s.discardPile[|s.discardPile| - 1];
  }

  lemma ApplyKeepsSeated(s: RoundState, a: Action)
    requires Seated(s) && Apply(s, a).Ok?
    ensures Seated(Apply(s, a).value)
  {
    var t := Apply(s, a).value;
    ApplyPreservesConsistent(s, a);
    ConsistentFiled(t);
    forall p | 0 <= p < |t.players|
      ensures |t.players[p].slots| > 0
    {
      assert p != s.activePlayer ==> t.players[p] == s.players[p];
    }
  }

  /** A dealt round is seated: the hands hold `cards_per_player > 0` cards. */
  lemma InitSeated(rules: RulesConfig, playerCount: int, d: Dealing)
    requires DealingFits(d, rules, playerCount)
    requires InitializeRound(rules, playerCount, d).Ok?
    ensures Seated(InitializeRound(rules, playerCount, d).value)
  {
    InitConsistent(rules, playerCount, d);
    ConsistentFiled(InitializeRound(rules, playerCount, d).value);
  }

  // ---------------------------------------------------------------------------
  // The turn loop
  // ---------------------------------------------------------------------------

  /** One pass of the loop body: the seated agent chooses among the legal
      actions and the engine applies the choice. */
  datatype Turn = Turn(action: Action, next: RoundState, drawsUsed: nat)

  function Step(agents: seq<Agent>, s: RoundState, o: Oracle, seed: int, k: nat): (r: Result<Turn, HarnessError>)
    requires Seated(s) && |agents| == |s.players|
    ensures r.Ok? ==>
              && Seated(r.value.next) && |r.value.next.players| == |s.players|
              && r.value.next.turnCount == s.turnCount + 1
              && r.value.next.cards == s.cards && r.value.next.rules == s.rules
              && k <= r.value.drawsUsed <= k + 1
    ensures r.Err? ==> r.error == EngineFailure(DeckExhausted)
  {
    ConsistentFiled(s);
    var c := Choose(agents[s.activePlayer], s, LegalActions(s), o.draws(seed, k)).value;
    match Apply(s, c.action)
    case Err(e) => Err(EngineFailure(e))
    case Ok(t) =>
      ApplyKeepsSeated(s, c.action);
      Ok(Turn(c.action, t, if c.drewRandom then k + 1 else k))
  }

  /** The turn the loop body plays is the engine applying the agent's choice. */
  lemma StepApplies(agents: seq<Agent>, s: RoundState, o: Oracle, seed: int, k: nat)
    requires Seated(s) && |agents| == |s.players| && Step(agents, s, o, seed, k).Ok?
    ensures Apply(s, Step(agents, s, o, seed, k).value.action) == Ok(Step(agents, s, o, seed, k).value.next)
  {
  }

  /** `for _ in range(max_turns): ... else: raise`: with `fuel` turns left,
      stop when the round is over, and fail once the budget is spent before
      that check. `k` is how many numbers the round's generator has handed
      out. */
  function Play(agents: seq<Agent>, s: RoundState, o: Oracle, seed: int, k: nat, fuel: nat)
    : (r: Result<RoundState, HarnessError>)
    requires Seated(s) && |agents| == |s.players|
    ensures r.Ok? ==>
              && IsRoundOver(r.value) && Seated(r.value)
              && s.turnCount <= r.value.turnCount < s.turnCount + fuel
              && |r.value.players| == |s.players| && r.value.cards == s.cards && r.value.rules == s.rules
    ensures r.Err? ==> r.error == NonTerminatingRound || r.error == EngineFailure(DeckExhausted)
    decreases fuel
  {
    if fuel == 0 then Err(NonTerminatingRound)
    else if IsRoundOver(s) then Ok(s)
    else
      match Step(agents, s, o, seed, k)
      case Err(e) => Err(e)
      case Ok(turn) => Play(agents, turn.next, o, seed, turn.drawsUsed, fuel - 1)
  }

  /** A finished round is the engine applying the agents' actions one after
      another, one action per turn. */
  lemma {:induction false} PlayFollowsEngine(agents: seq<Agent>, s: RoundState, o: Oracle, seed: int, k: nat, fuel: nat)
    returns (actions: seq<Action>)
    requires Seated(s) && |agents| == |s.players|
    requires Play(agents, s, o, seed, k, fuel).Ok?
    ensures ApplyAll(s, actions) == Ok(Play(agents, s, o, seed, k, fuel).value)
    ensures |actions| == Play(agents, s, o, seed, k, fuel).value.turnCount - s.turnCount
    decreases fuel
  {
    hide Step, Apply, Seated, Consistent;
    SeatedConsistent(s);
    if IsRoundOver(s) {
      actions := [];
    } else {
      var turn := Step(agents, s, o, seed, k).value;
      StepApplies(agents, s, o, seed, k);
      SeatedConsistent(turn.next);
      var rest := PlayFollowsEngine(agents, turn.next, o, seed, turn.drawsUsed, fuel - 1);
      actions := [turn.action] + rest;
      assert actions[0] == turn.action && actions[1..] == rest;
    }
  }

  /** A larger turn budget does not change a round that finished within a
      smaller one. */
  lemma {:induction false} PlayMoreFuel(agents: seq<Agent>, s: RoundState, o: Oracle, seed: int, k: nat, fuel: nat, more: nat)
    requires Seated(s) && |agents| == |s.players|
    requires Play(agents, s, o, seed, k, fuel).Ok? && fuel <= more
    ensures Play(agents, s, o, seed, k, more) == Play(agents, s, o, seed, k, fuel)
    decreases fuel
  {
    hide Step;
    if !IsRoundOver(s) {
      var turn := Step(agents, s, o, seed, k).value;
      PlayMoreFuel(agents, turn.next, o, seed, turn.drawsUsed, fuel - 1, more - 1);
    }
  }

  /** A budget no larger than the turns the round takes is exceeded. */
  lemma {:induction false} PlayLessFuel(agents: seq<Agent>, s: RoundState, o: Oracle, seed: int, k: nat, fuel: nat, less: nat)
    requires Seated(s) && |agents| == |s.players|
    requires Play(agents, s, o, seed, k, fuel).Ok?
    requires less <= Play(agents, s, o, seed, k, fuel).value.turnCount - s.turnCount
    ensures Play(agents, s, o, seed, k, less) == Err(NonTerminatingRound)
    decreases less
  {
    hide Step;
    if less > 0 {
      var turn := Step(agents, s, o, seed, k).value;
      PlayLessFuel(agents, turn.next, o, seed, turn.drawsUsed, fuel - 1, less - 1);
    }
  }

  // ---------------------------------------------------------------------------
  // Scoring
  // ---------------------------------------------------------------------------

  /** `_score_player`: the sum of the hand's values, face-up or not. */
  function ScorePlayer(s: RoundState, p: int): int
    requires 0 <= p < |s.players| && HandFiled(s, p)
  {
    Sum(CardValues(s.cards, s.players[p].slots))
  }

  /** Hidden cards count: revealing or hiding slots never changes a score. */
  lemma ScoreCountsHiddenCards(s: RoundState, p: int, faceUp: set<int>)
    requires 0 <= p < |s.players| && HandFiled(s, p)
    ensures var t := s.(players := s.players[p := s.players[p].(faceUp := faceUp)]);
            HandFiled(t, p) && ScorePlayer(t, p) == ScorePlayer(s, p)
  {
  }

  lemma {:induction false} SumUpdate(xs: seq<int>, i: int, v: int)
    requires 0 <= i < |xs|
    ensures Sum(xs[i := v]) == Sum(xs) - xs[i] + v
    decreases |xs|
  {
    var last := |xs| - 1;
    if i < last {
      assert xs[i := v][..last] == xs[..last][i := v];
      SumUpdate(xs[..last], i, v);
    } else {
      assert xs[i := v][..last] == xs[..last];
    }
  }

  /** A move changes only the acting hand's score: a swap by the value that
      came in less the value that went out (the discard top, for a
      take-discard swap), a flip not at all. */
  lemma ScoreAfterAction(s: RoundState, a: Action)
    requires Seated(s) && Apply(s, a).Ok?
    ensures Seated(Apply(s, a).value)
    ensures var t := Apply(s, a).value;
            var act := s.activePlayer;
            var before := s.players[act].slots;
            var after := t.players[act].slots;
            && (forall p :: 0 <= p < |s.players| && p != act ==> ScorePlayer(t, p) == ScorePlayer(s, p))
            && (a.kind == DrawDiscardFlip ==> ScorePlayer(t, act) == ScorePlayer(s, act))
            && (a.kind != DrawDiscardFlip ==>
                  ScorePlayer(t, act)
                  == ScorePlayer(s, act) - s.cards[before[a.slotIndex]].value + s.cards[after[a.slotIndex]].value)
            && (a.kind == TakeDiscardSwap ==>
                  ScorePlayer(t, act) == ScorePlayer(s, act) - s.cards[before[a.slotIndex]].value + DiscardTop(s))
  {
    hide Apply;
    var t := Apply(s, a).value;
    ApplyKeepsSeated(s, a);
    var act := s.activePlayer;
    var before := s.players[act].slots;
    var after := t.players[act].slots;
    forall p | 0 <= p < |s.players| && p != act
      ensures ScorePlayer(t, p) == ScorePlayer(s, p)
    {
      assert t.players[p] == s.players[p];
    }
    if a.kind == DrawDiscardFlip {
      ApplyFlipDropsDrawnCard(s, a);
    } else {
      ApplySwapShape(s, a);
      assert HandFiled(t, act);
      SumOfSwappedHand(s.cards, before, after, a.slotIndex);
    }
  }

  /** Replacing one card of a hand changes its sum by the difference. */
  lemma SumOfSwappedHand(cards: map<int, Card>, before: seq<int>, after: seq<int>, i: int)
    requires 0 <= i < |before| == |after|
    requires forall j :: 0 <= j < |before| ==> before[j] in cards
    requires forall j :: 0 <= j < |after| ==> after[j] in cards
    requires forall j :: 0 <= j < |before| && j != i ==> after[j] == before[j]
    ensures Sum(CardValues(cards, after)) == Sum(CardValues(cards, before)) - cards[before[i]].value + cards[after[i]].value
  {
    assert CardValues(cards, after) == CardValues(cards, before)[i := cards[after[i]].value];
    SumUpdate(CardValues(cards, before), i, cards[after[i]].value);
  }

  /** The dict comprehension `{agent.name: _score_player(state, idx) ...}`
      over the first `n` seats: a later seat with the same name overwrites
      an earlier one. */
  function ScoresFrom(agents: seq<Agent>, s: RoundState, n: nat): (m: map<string, int>)
    requires n <= |agents| == |s.players|
    requires forall p :: 0 <= p < |s.players| ==> HandFiled(s, p)
    ensures forall nm :: nm in m <==> exists i :: 0 <= i < n && agents[i].name == nm
  {
    if n == 0 then map[]
    else ScoresFrom(agents, s, n - 1)[agents[n - 1].name := ScorePlayer(s, n - 1)]
  }

  /** A seat no later seat shares its name with keeps its own score. */
  lemma {:induction false} ScoresFromLastSeat(agents: seq<Agent>, s: RoundState, n: nat, i: int)
    requires n <= |agents| == |s.players|
    requires forall p :: 0 <= p < |s.players| ==> HandFiled(s, p)
    requires 0 <= i < n && forall j :: i < j < n ==> agents[j].name != agents[i].name
    ensures agents[i].name in ScoresFrom(agents, s, n)
    ensures ScoresFrom(agents, s, n)[agents[i].name] == ScorePlayer(s, i)
  {
    if i < n - 1 {
      ScoresFromLastSeat(agents, s, n - 1, i);
    }
  }

  /** The scores of a finished round, by agent name. */
  function Scores(agents: seq<Agent>, s: RoundState): (m: map<string, int>)
    requires |agents| == |s.players|
    requires forall p :: 0 <= p < |s.players| ==> HandFiled(s, p)
    ensures m.Keys == Names(agents)
  {
    var m := ScoresFrom(agents, s, |agents|);
    assert forall nm :: nm in m.Keys <==> nm in Names(agents) by {
      forall nm
        ensures nm in m.Keys <==> nm in Names(agents)
      {
        if nm in Names(agents) {
          var a :| a in agents && a.name == nm;
          var i :| 0 <= i < |agents| && agents[i] == a;
        }
      }
    }
    m
  }

  /** `tuple(sorted(name for name, score in scores.items() if score ==
      best_score))`: every lowest scorer, in ascending name order. */
  function Winners(scores: map<string, int>): (r: seq<string>)
    requires scores.Keys != {}
    ensures |r| > 0 && StringsAscending(r)
    ensures forall nm :: nm in r <==> nm in scores && forall o :: o in scores ==> scores[nm] <= scores[o]
  {
    var nm0 :| nm0 in scores.Keys;
    assert scores[nm0] in scores.Values;
    var best := MinOf(scores.Values);
    var lowest := set nm | nm in scores.Keys && scores[nm] == best;
    assert forall o :: o in scores ==> best <= scores[o] by {
      forall o | o in scores
        ensures best <= scores[o]
      {
        assert scores[o] in scores.Values;
      }
    }
    assert lowest != {} by {
      var nm :| nm in scores.Keys && scores[nm] == best;
      assert nm in lowest;
    }
    SortedStrings(lowest)
  }

  // ---------------------------------------------------------------------------
  // A round
  // ---------------------------------------------------------------------------

  /** `initialize_round(config, player_count=len(agents), seed=seed)`, with
      the engine's exceptions wrapped. */
  function DealRound(agents: seq<Agent>, seed: int, config: RulesConfig, o: Oracle): (r: Result<RoundState, HarnessError>)
    requires OracleFits(o) && 2 <= |agents|
    ensures r.Err? ==> r.error.EngineFailure?
    ensures r.Err? && r.error.cause.InvalidConfiguration? <==> !WellFormedRules(config)
    ensures r.Ok? ==> Seated(r.value) && |r.value.players| == |agents| && r.value.turnCount == 0
  {
    hide InitializeRound;
    var d := o.deal(seed, config, |agents|);
    match InitializeRound(config, |agents|, d)
    case Err(e) => Err(EngineFailure(e))
    case Ok(s) =>
      InitSeated(config, |agents|, d);
      Ok(s)
  }

  /** The winners of a round are exactly its lowest scorers, listed in
      ascending name order. */
  ghost predicate LowestWin(res: RoundResult) {
    && |res.winnerNames| > 0 && StringsAscending(res.winnerNames)
    && forall nm :: nm in res.winnerNames <==>
         && nm in res.scoresByAgent
         && forall o :: o in res.scoresByAgent ==> res.scoresByAgent[nm] <= res.scoresByAgent[o]
  }

  /** `run_round(agents, seed=seed, rules=rules, max_turns=max_turns)`. */
  function RunRound(agents: seq<Agent>, seed: int, rules: Option<RulesConfig>, maxTurns: int, o: Oracle)
    : (r: Result<RoundResult, HarnessError>)
    requires OracleFits(o)
    ensures r == Err(TooFewAgents) <==> |agents| < 2
    ensures 2 <= |agents| && !WellFormedRules(RulesOrDefault(rules)) ==>
              r.Err? && r.error.EngineFailure? && r.error.cause.InvalidConfiguration?
    ensures 2 <= |agents| && WellFormedRules(RulesOrDefault(rules)) && maxTurns <= 0 ==> r.Err?
    ensures r.Err? ==> r.error.TooFewAgents? || r.error.EngineFailure? || r.error.NonTerminatingRound?
    ensures r.Ok? ==>
              && r.value.scoresByAgent.Keys == Names(agents)
              && LowestWin(r.value)
              && 0 <= r.value.turns < maxTurns
  {
    hide DealRound, PlayOut;
    if |agents| < 2 then Err(TooFewAgents)
    else
      var s :- DealRound(agents, seed, RulesOrDefault(rules), o);
      PlayOut(agents, s, o, seed, maxTurns)
  }

  /** The play-and-score part of `run_round`, from the dealt snapshot `s`. */
  function PlayOut(agents: seq<Agent>, s: RoundState, o: Oracle, seed: int, maxTurns: int)
    : (r: Result<RoundResult, HarnessError>)
    requires Seated(s) && |agents| == |s.players| && s.turnCount == 0
    ensures maxTurns <= 0 ==> r.Err?
    ensures r.Err? ==> r.error.EngineFailure? || r.error.NonTerminatingRound?
    ensures r.Ok? ==>
              && r.value.scoresByAgent.Keys == Names(agents)
              && LowestWin(r.value)
              && 0 <= r.value.turns < maxTurns
  {
    hide Play, Tabulate, Seated;
    var fin :- Play(agents, s, o, seed, 0, if maxTurns < 0 then 0 else maxTurns);
    SeatedFiled(fin);
    assert 0 < |agents| by {
      SeatedTwo(s);
    }
    Ok(Tabulate(agents, fin))
  }

  lemma SeatedTwo(s: RoundState)
    requires Seated(s)
    ensures 2 <= |s.players|
  {
  }

  /** The result of a finished round: every agent's score and the lowest
      scorers. */
  function Tabulate(agents: seq<Agent>, fin: RoundState): (res: RoundResult)
    requires 0 < |agents| == |fin.players|
    requires forall p :: 0 <= p < |fin.players| ==> HandFiled(fin, p)
    ensures res.scoresByAgent == Scores(agents, fin) && res.turns == fin.turnCount
    ensures res.scoresByAgent.Keys == Names(agents)
    ensures LowestWin(res)
  {
    var scores := Scores(agents, fin);
    assert agents[0].name in Names(agents);
    RoundResult(scores, Winners(scores), fin.turnCount)
  }

  /** A finished round is a deal followed by `turns` legal engine actions
      that end the round, and its scores are the final hands' sums. */
  lemma RoundFromDeal(agents: seq<Agent>, seed: int, rules: Option<RulesConfig>, maxTurns: int, o: Oracle)
    returns (start: RoundState, actions: seq<Action>, final: RoundState)
    requires OracleFits(o) && RunRound(agents, seed, rules, maxTurns, o).Ok?
    ensures var config := RulesOrDefault(rules);
            && InitializeRound(config, |agents|, o.deal(seed, config, |agents|)) == Ok(start)
            && Consistent(start)
            && ApplyAll(start, actions) == Ok(final)
            && IsRoundOver(final) && |final.players| == |agents|
            && |actions| == RunRound(agents, seed, rules, maxTurns, o).value.turns
            && (forall p :: 0 <= p < |final.players| ==> HandFiled(final, p))
            && RunRound(agents, seed, rules, maxTurns, o).value.scoresByAgent == Scores(agents, final)
  {
    hide InitializeRound, Play, Tabulate;
    var config := RulesOrDefault(rules);
    start := DealRound(agents, seed, config, o).value;
    assert InitializeRound(config, |agents|, o.deal(seed, config, |agents|)) == Ok(start);
    assert maxTurns > 0;
    var fuel: nat := maxTurns;
    final := Play(agents, start, o, seed, 0, fuel).value;
    actions := PlayFollowsEngine(agents, start, o, seed, 0, fuel);
  }

  // ---------------------------------------------------------------------------
  // Seating
  // ---------------------------------------------------------------------------

  lemma ModShift(j: int, shift: int, n: int)
    requires n > 0
    ensures (j + shift % n) % n == (j + shift) % n
  {
    var y := j + shift % n;
    ModUnique(j + shift, n, y / n + shift / n, y % n);
  }

  /** The remainder is the unique one: `x = q * n + r` with `0 <= r < n`. */
  lemma ModUnique(x: int, n: int, q: int, r: int)
    requires n > 0 && 0 <= r < n && x == q * n + r
    ensures x % n == r
  {
    var k := q - x / n;
    assert k * n == x % n - r by {
      assert k * n == q * n - (x / n) * n;
    }
    MultipleBounds(k, n);
  }

  /** A non-zero multiple of `n` is at least `n` away from 0. */
  lemma MultipleBounds(k: int, n: int)
    requires n > 0
    ensures k > 0 ==> k * n >= n
    ensures k < 0 ==> k * n <= -n
  {
    if k > 0 {
      assert (k - 1) * n >= 0;
    } else if k < 0 {
      assert (-k - 1) * n >= 0;
    }
  }

  /** `_rotate_agents`: `agents[offset:] + agents[:offset]` with
      `offset = shift % len(agents)`; `None` is the `ZeroDivisionError` of an
      empty roster. */
  function Rotate<T>(xs: seq<T>, shift: int): (r: Option<seq<T>>)
    ensures r.None? <==> |xs| == 0
    ensures r.Some? ==> |r.value| == |xs|
    ensures r.Some? ==> forall j :: 0 <= j < |xs| ==> r.value[j] == xs[(j + shift) % |xs|]
    ensures r.Some? ==> multiset(r.value) == multiset(xs)
  {
    if |xs| == 0 then None
    else
      var n := |xs|;
      var offset := shift % n;
      var r := xs[offset..] + xs[..offset];
      assert xs == xs[..offset] + xs[offset..];
      forall j | 0 <= j < n
        ensures r[j] == xs[(j + shift) % n]
      {
        ModShift(j, shift, n);
        if j < n - offset {
          ModUnique(j + offset, n, 0, j + offset);
        } else {
          ModUnique(j + offset, n, 1, j + offset - n);
        }
      }
      Some(r)
  }

  /** Rotating by `a` and then by `b` is rotating by `a + b`. */
  lemma RotateTwice<T>(xs: seq<T>, a: int, b: int)
    requires |xs| > 0
    ensures Rotate(Rotate(xs, a).value, b) == Rotate(xs, a + b)
  {
    hide Rotate;
    var n := |xs|;
    var once := Rotate(xs, a).value;
    var twice := Rotate(once, b).value;
    var direct := Rotate(xs, a + b).value;
    forall j | 0 <= j < n
      ensures twice[j] == direct[j]
    {
      var m := (j + b) % n;
      ModShift(a, j + b, n);
      assert twice[j] == once[m] == xs[(m + a) % n];
      assert (m + a) % n == (a + m) % n == (a + (j + b)) % n;
      assert a + (j + b) == j + (a + b);
    }
    assert twice == direct;
  }

  /** Seats rotate back to the original order after a full turn of the table. */
  lemma RotateFull<T>(xs: seq<T>, k: int)
    requires |xs| > 0
    ensures Rotate(xs, k * |xs|) == Some(xs)
  {
    hide Rotate;
    var n := |xs|;
    forall j | 0 <= j < n
      ensures Rotate(xs, k * n).value[j] == xs[j]
    {
      ModUnique(j + k * n, n, k, j);
    }
    assert Rotate(xs, k * n).value == xs;
  }

  /** Rotation keeps the set of names at the table. */
  lemma RotateKeepsNames(agents: seq<Agent>, shift: int)
    requires |agents| > 0
    ensures Names(Rotate(agents, shift).value) == Names(agents)
  {
    var r := Rotate(agents, shift).value;
    forall a
      ensures a in r <==> a in agents
    {
      assert a in r <==> a in multiset(r);
      assert a in agents <==> a in multiset(agents);
    }
  }
}
