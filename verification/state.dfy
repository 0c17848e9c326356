/** The round engine (engine/state.py): immutable round snapshots, deck
    construction, the deal, legal-action enumeration, action application,
    draw-pile recycling and the end-of-round countdown.

    Python's seeded `Random` is not modelled: the shuffled card order and the
    face-up samples of the deal arrive as a `Dealing` parameter. */
module Engine {
  import opened Wrappers
  import opened Ordering
  import opened Config

  datatype Card = Card(cardId: int, value: int)

  /** A hand: the card id in each slot, and the revealed slot indices. */
  datatype PlayerState = PlayerState(slots: seq<int>, faceUp: set<int>)

  /** Piles are stacks whose top is the last element. */
  datatype RoundState = RoundState(
    rules: RulesConfig,
    cards: map<int, Card>,
    players: seq<PlayerState>,
    drawPile: seq<int>,
    discardPile: seq<int>,
    activePlayer: int,
    turnCount: int,
    finalTurnsRemaining: Option<int>,
    roundEnder: Option<int>)

  datatype ActionKind = TakeDiscardSwap | DrawSwap | DrawDiscardFlip

  datatype Action = Action(kind: ActionKind, slotIndex: int)

  datatype EngineError =
    | InvalidConfiguration(reason: ConfigError)
    | TooFewPlayers
    | DeckTooSmall
    | IllegalAction
    | DeckExhausted

  /** What the seeded generator decides during a deal: the shuffled card ids
      and, per player, the sampled face-up slot indices. */
  datatype Dealing = Dealing(order: seq<int>, faceUp: seq<set<int>>)

  /** The outcome of drawing: the card drawn and the two piles afterwards. */
  datatype Draw = Draw(card: int, drawPile: seq<int>, discardPile: seq<int>)

  // ---------------------------------------------------------------------------
  // Deck construction
  // ---------------------------------------------------------------------------

  function Values(cards: seq<Card>): seq<int> {
    seq(|cards|, i requires 0 <= i < |cards| => cards[i].value)
  }

  /** The number of cards of value `v` a composition asks for. */
  function CompositionCount(comp: map<int, int>, v: int): int {
    if v in comp then comp[v] else 0
  }

  /** `count` cards of one value with consecutive ids from `firstId`. */
  function CardRun(value: int, count: nat, firstId: int): seq<Card> {
    seq(count, i => Card(firstId + i, value))
  }

  lemma {:induction false} CardRunValues(value: int, count: nat, firstId: int)
    ensures forall v :: multiset(Values(CardRun(value, count, firstId)))[v] == if v == value then count else 0
    decreases count
  {
    if count > 0 {
      var run := CardRun(value, count, firstId);
      CardRunValues(value, count - 1, firstId);
      assert Values(run) == Values(CardRun(value, count - 1, firstId)) + [value];
    } else {
      assert Values(CardRun(value, count, firstId)) == [];
    }
  }

  lemma ValuesAppend(a: seq<Card>, b: seq<Card>)
    ensures Values(a + b) == Values(a) + Values(b)
  {
  }

  /** The cards for the values `keys`, ids counted up from `firstId`. */
  function DeckFrom(comp: map<int, int>, keys: seq<int>, firstId: int): (deck: seq<Card>)
    requires forall i :: 0 <= i < |keys| ==> keys[i] in comp && comp[keys[i]] >= 0
    ensures |deck| == SumCounts(comp, keys)
    ensures forall i :: 0 <= i < |deck| ==> deck[i].cardId == firstId + i
    decreases |keys|
  {
    if |keys| == 0 then []
    else CardRun(keys[0], comp[keys[0]], firstId) + DeckFrom(comp, keys[1..], firstId + comp[keys[0]])
  }

  /** Every card of `DeckFrom` carries one of the requested values, and for
      ascending `keys` the values come out in ascending order. */
  lemma {:induction false} DeckFromSorted(comp: map<int, int>, keys: seq<int>, firstId: int)
    requires forall i :: 0 <= i < |keys| ==> keys[i] in comp && comp[keys[i]] >= 0
    requires StrictlyIncreasing(keys)
    ensures forall i :: 0 <= i < |DeckFrom(comp, keys, firstId)| ==> DeckFrom(comp, keys, firstId)[i].value in keys
    ensures Sorted(Values(DeckFrom(comp, keys, firstId)))
    decreases |keys|
  {
    if |keys| > 0 {
      var v := keys[0];
      var run := CardRun(v, comp[v], firstId);
      var rest := DeckFrom(comp, keys[1..], firstId + comp[v]);
      DeckFromSorted(comp, keys[1..], firstId + comp[v]);
      assert DeckFrom(comp, keys, firstId) == run + rest;
      ValuesAppend(run, rest);
      forall i | 0 <= i < |rest|
        ensures v < rest[i].value && rest[i].value in keys
      {
        var k :| 0 <= k < |keys[1..]| && keys[1..][k] == rest[i].value;
        assert keys[1..][k] == keys[k + 1];
      }
      assert v in keys;
    }
  }

  /** `DeckFrom` holds exactly `comp[v]` cards of each requested value `v`. */
  lemma {:induction false} DeckFromCount(comp: map<int, int>, keys: seq<int>, firstId: int, w: int)
    requires forall i :: 0 <= i < |keys| ==> keys[i] in comp && comp[keys[i]] >= 0
    requires StrictlyIncreasing(keys)
    ensures multiset(Values(DeckFrom(comp, keys, firstId)))[w] == if w in keys then comp[w] else 0
    decreases |keys|
  {
    if |keys| == 0 {
      assert Values(DeckFrom(comp, keys, firstId)) == [];
    } else {
      var v := keys[0];
      var run := CardRun(v, comp[v], firstId);
      var rest := DeckFrom(comp, keys[1..], firstId + comp[v]);
      DeckFromCount(comp, keys[1..], firstId + comp[v], w);
      CardRunValues(v, comp[v], firstId);
      ValuesAppend(run, rest);
      assert DeckFrom(comp, keys, firstId) == run + rest;
      assert keys == [v] + keys[1..];
      if w == v {
        forall k | 0 <= k < |keys[1..]|
          ensures keys[1..][k] != v
        {
          assert keys[1..][k] == keys[k + 1];
        }
      }
    }
  }

  /** `build_deck`: validate, then lay out every value's cards in ascending
      value order with ids 0, 1, 2, ... */
  function BuildDeck(rules: RulesConfig): (r: Result<seq<Card>, EngineError>)
    ensures match Validate(rules)
            case Fail(e) => r == Err(InvalidConfiguration(e))
            case Pass => r.Ok?
    ensures r.Ok? ==> |r.value| == TotalCards(rules.deckComposition)
    ensures r.Ok? ==> forall i :: 0 <= i < |r.value| ==> r.value[i].cardId == i
    ensures r.Ok? ==> Sorted(Values(r.value))
    ensures r.Ok? ==> forall v ::
              multiset(Values(r.value))[v] == CompositionCount(rules.deckComposition, v)
  {
    hide Validate;
    match Validate(rules)
    case Fail(e) => Err(InvalidConfiguration(e))
    case Pass => Ok(Composed(rules.deckComposition))
  }

  /** The deck of a composition with non-negative counts, laid out value by
      ascending value with ids 0, 1, 2, ... */
  function Composed(comp: map<int, int>): (deck: seq<Card>)
    requires forall v :: v in comp ==> comp[v] >= 0
    ensures |deck| == TotalCards(comp)
    ensures forall i :: 0 <= i < |deck| ==> deck[i].cardId == i
    ensures Sorted(Values(deck))
    ensures forall v :: multiset(Values(deck))[v] == CompositionCount(comp, v)
  {
    var keys := SortedElements(comp.Keys);
    DeckFromSorted(comp, keys, 0);
    ComposedCounts(comp, keys);
    DeckFrom(comp, keys, 0)
  }

  lemma ComposedCounts(comp: map<int, int>, keys: seq<int>)
    requires forall v :: v in comp ==> comp[v] >= 0
    requires keys == SortedElements(comp.Keys)
    ensures forall v :: multiset(Values(DeckFrom(comp, keys, 0)))[v] == CompositionCount(comp, v)
  {
    forall v
      ensures multiset(Values(DeckFrom(comp, keys, 0)))[v] == CompositionCount(comp, v)
    {
      DeckFromCount(comp, keys, 0, v);
    }
  }

  // ---------------------------------------------------------------------------
  // Dealing
  // ---------------------------------------------------------------------------

  /** `range(n)` as a list. */
  function Range(n: nat): (r: seq<int>)
    ensures |r| == n
    ensures forall i :: 0 <= i < n ==> r[i] == i
  {
    seq(n, i => i)
  }

  /** What `Random.sample(range(n), k)` can return, as a set. */
  predicate IsSample(s: set<int>, n: int, k: int) {
    |s| == k && forall x :: x in s ==> 0 <= x < n
  }

  /** The generator's decisions are a shuffle of all card ids and one sample
      per player; this binds only when the deal is actually reached. */
  predicate DealingFits(d: Dealing, rules: RulesConfig, playerCount: int) {
    var n := TotalCards(rules.deckComposition);
    (2 <= playerCount && WellFormedRules(rules) && 0 <= n && playerCount * rules.cardsPerPlayer + 1 <= n) ==>
      && multiset(d.order) == multiset(Range(n))
      && |d.faceUp| == playerCount
      && forall p :: 0 <= p < playerCount ==>
           IsSample(d.faceUp[p], rules.cardsPerPlayer, rules.startingFaceUpCards)
  }

  /** The card ids held by `players`, player by player, slot by slot. */
  function Flatten(players: seq<PlayerState>): seq<int>
    decreases |players|
  {
    if |players| == 0 then [] else Flatten(players[..|players| - 1]) + players[|players| - 1].slots
  }

  /** Every location a card id can occupy: hands, discard pile, draw pile. */
  function Located(s: RoundState): seq<int> {
    Flatten(s.players) + s.discardPile + s.drawPile
  }

  /** `card_location_counts`: how often each id occurs across all locations.
      Every slot and pile entry is counted once, and an id is counted iff it
      sits in a hand, the discard pile or the draw pile. */
  function CardLocationCounts(s: RoundState): (c: multiset<int>)
    ensures |c| == |Flatten(s.players)| + |s.discardPile| + |s.drawPile|
    ensures forall id :: id in c <==> id in Flatten(s.players) || id in s.discardPile || id in s.drawPile
  {
    multiset(Located(s))
  }

  /** The first `count` hands of `cardsPerPlayer` consecutive ids each. */
  function Deal(ids: seq<int>, faceUp: seq<set<int>>, count: nat, cardsPerPlayer: nat): (hands: seq<PlayerState>)
    requires count * cardsPerPlayer <= |ids| && count <= |faceUp|
    ensures |hands| == count
    ensures forall p :: 0 <= p < count ==>
              |hands[p].slots| == cardsPerPlayer && hands[p].faceUp == faceUp[p]
    ensures Flatten(hands) == ids[..count * cardsPerPlayer]
    decreases count
  {
    if count == 0 then []
    else
      var start := (count - 1) * cardsPerPlayer;
      MultipleStep(count, cardsPerPlayer);
      var hands := Deal(ids, faceUp, count - 1, cardsPerPlayer) + [PlayerState(ids[start..start + cardsPerPlayer], faceUp[count - 1])];
      assert hands[..count - 1] == Deal(ids, faceUp, count - 1, cardsPerPlayer);
      assert ids[..count * cardsPerPlayer] == ids[..start] + ids[start..start + cardsPerPlayer];
      hands
  }

  lemma MultipleStep(count: nat, c: nat)
    requires count > 0
    ensures (count - 1) * c + c == count * c
    ensures (count - 1) * c <= count * c
  {
  }

  /** `{card.card_id: card for card in deck}` for a deck whose ids are its positions. */
  function CardsById(deck: seq<Card>): (cards: map<int, Card>)
    requires forall i :: 0 <= i < |deck| ==> deck[i].cardId == i
    ensures forall id :: id in cards <==> 0 <= id < |deck|
    ensures forall id :: id in cards ==> cards[id] == deck[id]
  {
    var cards := map i | 0 <= i < |deck| :: deck[i].cardId := deck[i];
    assert forall id :: 0 <= id < |deck| ==> id in cards by {
      forall id | 0 <= id < |deck|
        ensures id in cards
      {
        assert deck[id].cardId == id;
      }
    }
    cards
  }

  /** The snapshot right after the deal, from the shuffled ids `d.order`. */
  function Dealt(rules: RulesConfig, deck: seq<Card>, d: Dealing, playerCount: nat): (s: RoundState)
    requires forall i :: 0 <= i < |deck| ==> deck[i].cardId == i
    requires |d.order| == |deck| && |d.faceUp| >= playerCount
    requires 0 <= rules.cardsPerPlayer && playerCount * rules.cardsPerPlayer + 1 <= |deck|
    ensures |s.players| == playerCount
    ensures forall p :: 0 <= p < playerCount ==>
              |s.players[p].slots| == rules.cardsPerPlayer && s.players[p].faceUp == d.faceUp[p]
    ensures |s.discardPile| == 1
    ensures Located(s) == d.order
  {
    hide Deal, CardsById;
    var ids := d.order;
    var dealt := playerCount * rules.cardsPerPlayer;
    var players := Deal(ids, d.faceUp, playerCount, rules.cardsPerPlayer);
    SplitAt(ids, dealt);
    RoundState(rules, CardsById(deck), players, ids[dealt + 1..], [ids[dealt]], 0, 0, None, None)
  }

  lemma SameLength(a: seq<int>, b: seq<int>)
    requires multiset(a) == multiset(b)
    ensures |a| == |b|
  {
    assert |multiset(a)| == |multiset(b)|;
  }

  lemma SplitAt(ids: seq<int>, k: nat)
    requires k < |ids|
    ensures ids[..k] + [ids[k]] + ids[k + 1..] == ids
  {
  }

  /** What a round looks like right after the deal of `deck` to `playerCount`
      players: full hands with sampled face-up slots, one discard, the
      countdown unset, and every card id `0 .. |deck| - 1` in exactly one
      location and filed under its card. */
  ghost predicate FreshlyDealt(s: RoundState, rules: RulesConfig, playerCount: int, deck: seq<Card>) {
    && s.rules == rules
    && |s.players| == playerCount
    && (forall p :: 0 <= p < playerCount ==>
          && |s.players[p].slots| == rules.cardsPerPlayer
          && IsSample(s.players[p].faceUp, rules.cardsPerPlayer, rules.startingFaceUpCards))
    && |s.discardPile| == 1
    && s.activePlayer == 0 && s.turnCount == 0
    && s.finalTurnsRemaining == None && s.roundEnder == None
    && multiset(Located(s)) == multiset(Range(|deck|))
    && (forall id :: id in s.cards <==> 0 <= id < |deck|)
    && (forall id :: id in s.cards ==> s.cards[id] == deck[id])
  }

  /** `initialize_round`: deal `cardsPerPlayer` cards to each player in turn
      order, one face-up card to the discard pile, the rest to the draw pile. */
  function InitializeRound(rules: RulesConfig, playerCount: int, d: Dealing): (r: Result<RoundState, EngineError>)
    requires DealingFits(d, rules, playerCount)
    ensures r == Err(TooFewPlayers) <==> playerCount < 2
    ensures (exists e :: r == Err(InvalidConfiguration(e))) <==> 2 <= playerCount && !WellFormedRules(rules)
    ensures r == Err(DeckTooSmall) <==>
              && 2 <= playerCount && WellFormedRules(rules)
              && TotalCards(rules.deckComposition) < playerCount * rules.cardsPerPlayer + 1
    ensures r.Ok? ==>
              && BuildDeck(rules).Ok?
              && |BuildDeck(rules).value| == TotalCards(rules.deckComposition)
              && FreshlyDealt(r.value, rules, playerCount, BuildDeck(rules).value)
  {
    hide BuildDeck, Dealt, Validate, FreshlyDealt;
    if playerCount < 2 then Err(TooFewPlayers)
    else
      var deck :- BuildDeck(rules);
      if |deck| < playerCount * rules.cardsPerPlayer + 1 then Err(DeckTooSmall)
      else
        SameLength(d.order, Range(|deck|));
        DealtFresh(rules, deck, d, playerCount);
        Ok(Dealt(rules, deck, d, playerCount))
  }

  lemma DealtFresh(rules: RulesConfig, deck: seq<Card>, d: Dealing, playerCount: int)
    requires forall i :: 0 <= i < |deck| ==> deck[i].cardId == i
    requires multiset(d.order) == multiset(Range(|deck|)) && |d.order| == |deck|
    requires |d.faceUp| == playerCount
    requires forall p :: 0 <= p < playerCount ==>
               IsSample(d.faceUp[p], rules.cardsPerPlayer, rules.startingFaceUpCards)
    requires 0 <= playerCount && 0 <= rules.cardsPerPlayer
    requires playerCount * rules.cardsPerPlayer + 1 <= |deck|
    ensures FreshlyDealt(Dealt(rules, deck, d, playerCount), rules, playerCount, deck)
  {
  }

  // ---------------------------------------------------------------------------
  // Legal actions
  // ---------------------------------------------------------------------------

  /** The rule `legal_actions` enumerates: any slot may be swapped into, and a
      hidden slot may also be flipped. */
  predicate IsLegalFor(p: PlayerState, a: Action) {
    && 0 <= a.slotIndex < |p.slots|
    && (a.kind == DrawDiscardFlip ==> a.slotIndex !in p.faceUp)
  }

  function KindRank(k: ActionKind): int {
    match k
    case TakeDiscardSwap => 0
    case DrawSwap => 1
    case DrawDiscardFlip => 2
  }

  /** Enumeration order: by slot, then take-discard, draw-swap, flip. */
  function ActionKey(a: Action): int {
    3 * a.slotIndex + KindRank(a.kind)
  }

  predicate KeysAscending(actions: seq<Action>) {
    forall j, k :: 0 <= j < k < |actions| ==> ActionKey(actions[j]) < ActionKey(actions[k])
  }

  /** The hidden slot indices of `p` from `from` on, ascending. */
  function HiddenFrom(p: PlayerState, from: nat): (r: seq<int>)
    requires from <= |p.slots|
    ensures forall x :: x in r <==> from <= x < |p.slots| && x !in p.faceUp
    ensures forall j :: 0 <= j < |r| ==> from <= r[j] < |p.slots| && r[j] !in p.faceUp
    ensures StrictlyIncreasing(r)
    decreases |p.slots| - from
  {
    if from == |p.slots| then []
    else if from in p.faceUp then HiddenFrom(p, from + 1)
    else [from] + HiddenFrom(p, from + 1)
  }

  /** `hidden_slots`: the face-down slot indices in ascending order. */
  function HiddenSlots(p: PlayerState): seq<int> {
    HiddenFrom(p, 0)
  }

  function SlotActions(p: PlayerState, i: int): seq<Action> {
    [Action(TakeDiscardSwap, i), Action(DrawSwap, i)]
      + if i !in p.faceUp then [Action(DrawDiscardFlip, i)] else []
  }

  /** The moves on slots `from` onwards, in enumeration order. */
  function ActionsFrom(p: PlayerState, from: nat): seq<Action>
    requires from <= |p.slots|
    decreases |p.slots| - from
  {
    if from == |p.slots| then [] else SlotActions(p, from) + ActionsFrom(p, from + 1)
  }

  /** Exactly the legal moves on slots `from` onwards are enumerated. */
  lemma {:induction false} ActionsFromMember(p: PlayerState, from: nat, a: Action)
    requires from <= |p.slots|
    ensures a in ActionsFrom(p, from) <==> IsLegalFor(p, a) && from <= a.slotIndex
    decreases |p.slots| - from
  {
    if from < |p.slots| {
      ActionsFromMember(p, from + 1, a);
      assert ActionsFrom(p, from) == SlotActions(p, from) + ActionsFrom(p, from + 1);
    }
  }

  /** Two moves per slot plus one per hidden slot. */
  lemma {:induction false} ActionsFromLength(p: PlayerState, from: nat)
    requires from <= |p.slots|
    ensures |ActionsFrom(p, from)| == 2 * (|p.slots| - from) + |HiddenFrom(p, from)|
    decreases |p.slots| - from
  {
    if from == |p.slots| {
      assert ActionsFrom(p, from) == [] && HiddenFrom(p, from) == [];
    } else {
      ActionsFromLength(p, from + 1);
      var extra := if from in p.faceUp then 0 else 1;
      assert |SlotActions(p, from)| == 2 + extra;
      assert |ActionsFrom(p, from)| == 2 + extra + |ActionsFrom(p, from + 1)|;
      assert |HiddenFrom(p, from)| == extra + |HiddenFrom(p, from + 1)|;
    }
  }

  /** The enumeration is strictly ordered by slot, then by kind. */
  lemma {:induction false} ActionsFromOrdered(p: PlayerState, from: nat)
    requires from <= |p.slots|
    ensures forall j :: 0 <= j < |ActionsFrom(p, from)| ==> 3 * from <= ActionKey(ActionsFrom(p, from)[j])
    ensures KeysAscending(ActionsFrom(p, from))
    decreases |p.slots| - from
  {
    if from < |p.slots| {
      ActionsFromOrdered(p, from + 1);
      var here := SlotActions(p, from);
      var rest := ActionsFrom(p, from + 1);
      assert forall j :: 0 <= j < |here| ==> 3 * from <= ActionKey(here[j]) < 3 * (from + 1);
      assert ActionsFrom(p, from) == here + rest;
    }
  }

  /** `legal_actions`: the active player's moves in enumeration order. */
  function LegalActions(s: RoundState): (r: seq<Action>)
    requires 0 <= s.activePlayer < |s.players|
    ensures forall a :: a in r <==> IsLegalFor(s.players[s.activePlayer], a)
    ensures |r| == 2 * |s.players[s.activePlayer].slots| + |HiddenSlots(s.players[s.activePlayer])|
    ensures KeysAscending(r)
  {
    assert forall a :: a in ActionsFrom(s.players[s.activePlayer], 0) <==> IsLegalFor(s.players[s.activePlayer], a) by {
      forall a
        ensures a in ActionsFrom(s.players[s.activePlayer], 0) <==> IsLegalFor(s.players[s.activePlayer], a)
      {
        ActionsFromMember(s.players[s.activePlayer], 0, a);
      }
    }
    ActionsFromLength(s.players[s.activePlayer], 0);
    ActionsFromOrdered(s.players[s.activePlayer], 0);
    ActionsFrom(s.players[s.activePlayer], 0)
  }

  // ---------------------------------------------------------------------------
  // Drawing and turn advancement
  // ---------------------------------------------------------------------------

  /** `_draw_card`: pop the draw pile; when it is empty, keep the discard top
      alone on the discard pile and turn the rest into the draw pile first. */
  function DrawCard(drawPile: seq<int>, discardPile: seq<int>): (r: Result<Draw, EngineError>)
    ensures r.Err? <==> |drawPile| == 0 && |discardPile| <= 1
    ensures r.Err? ==> r.error == DeckExhausted
    ensures r.Ok? ==>
              multiset(drawPile) + multiset(discardPile)
              == multiset(r.value.drawPile) + multiset(r.value.discardPile) + multiset{r.value.card}
    ensures r.Ok? && |drawPile| > 0 ==>
              && r.value.drawPile + [r.value.card] == drawPile
              && r.value.discardPile == discardPile
    ensures r.Ok? && |drawPile| == 0 ==>
              && r.value.discardPile == [discardPile[|discardPile| - 1]]
              && r.value.drawPile + [r.value.card] == discardPile[..|discardPile| - 1]
  {
    if |drawPile| == 0 && |discardPile| <= 1 then Err(DeckExhausted)
    else
      var (source, discard) :=
        if |drawPile| > 0 then (drawPile, discardPile)
        else (discardPile[..|discardPile| - 1], [discardPile[|discardPile| - 1]]);
      assert |drawPile| == 0 ==> discardPile == source + discard;
      assert source == source[..|source| - 1] + [source[|source| - 1]];
      Ok(Draw(source[|source| - 1], source[..|source| - 1], discard))
  }

  /** The source's end-game test: as many face-up indices as slots. */
  predicate FullyRevealed(p: PlayerState) {
    |p.faceUp| == |p.slots|
  }

  /** The lowest index from `from` on whose hand is fully revealed. */
  function FirstFullyRevealed(players: seq<PlayerState>, from: nat): (r: Option<int>)
    requires from <= |players|
    ensures r.None? <==> forall i :: from <= i < |players| ==> !FullyRevealed(players[i])
    ensures r.Some? ==>
              && from <= r.value < |players| && FullyRevealed(players[r.value])
              && forall i :: from <= i < r.value ==> !FullyRevealed(players[i])
    decreases |players| - from
  {
    if from == |players| then None
    else if FullyRevealed(players[from]) then Some(from)
    else FirstFullyRevealed(players, from + 1)
  }

  /** `_advance_turn`: pass the turn on and run the end-of-round countdown. */
  function AdvanceTurn(s: RoundState): (r: RoundState)
    requires |s.players| > 0
    ensures r == s.(activePlayer := r.activePlayer, turnCount := r.turnCount,
                    finalTurnsRemaining := r.finalTurnsRemaining, roundEnder := r.roundEnder)
    ensures r.activePlayer == (s.activePlayer + 1) % |s.players|
    ensures r.turnCount == s.turnCount + 1
    ensures s.finalTurnsRemaining.None? ==>
              (r.finalTurnsRemaining.None? <==> forall i :: 0 <= i < |s.players| ==> !FullyRevealed(s.players[i]))
    ensures s.finalTurnsRemaining.None? && r.finalTurnsRemaining.None? ==> r.roundEnder == s.roundEnder
    ensures s.finalTurnsRemaining.None? && r.finalTurnsRemaining.Some? ==>
              && r.finalTurnsRemaining.value == |s.players| - 1
              && r.roundEnder.Some?
              && 0 <= r.roundEnder.value < |s.players|
              && FullyRevealed(s.players[r.roundEnder.value])
              && forall i :: 0 <= i < r.roundEnder.value ==> !FullyRevealed(s.players[i])
    ensures s.finalTurnsRemaining.Some? ==>
              && r.roundEnder == s.roundEnder
              && r.finalTurnsRemaining.Some?
              && r.finalTurnsRemaining.value
                 == if s.finalTurnsRemaining.value > 0 then s.finalTurnsRemaining.value - 1
                    else s.finalTurnsRemaining.value
  {
    var (remaining, ender) :=
      match s.finalTurnsRemaining
      case None =>
        (match FirstFullyRevealed(s.players, 0)
         case Some(i) => (Some(|s.players| - 1), Some(i))
         case None => (None, s.roundEnder))
      case Some(n) =>
        (if n > 0 then Some(n - 1) else Some(n), s.roundEnder);
    s.(activePlayer := (s.activePlayer + 1) % |s.players|,
       turnCount := s.turnCount + 1,
       finalTurnsRemaining := remaining,
       roundEnder := ender)
  }

  /** `is_round_over`. */
  predicate IsRoundOver(s: RoundState) {
    s.finalTurnsRemaining == Some(0)
  }

  // ---------------------------------------------------------------------------
  // Applying an action
  // ---------------------------------------------------------------------------

  /** What `apply_action` needs of a snapshot to run without an index error:
      an active player that exists and a discard pile to take from. */
  predicate Playable(s: RoundState) {
    0 <= s.activePlayer < |s.players| && |s.discardPile| > 0
  }

  /** The snapshot after the acting player's hand became `hand` and the piles
      became `drawPile` and `discardPile`, before the turn advances. */
  function WithHand(s: RoundState, hand: PlayerState, drawPile: seq<int>, discardPile: seq<int>): RoundState
    requires 0 <= s.activePlayer < |s.players|
  {
    s.(players := s.players[s.activePlayer := hand], drawPile := drawPile, discardPile := discardPile)
  }

  /** The move itself, before the turn advances: the acting player's new hand
      and the piles `apply_action` rebuilds. A swap puts the incoming card in
      the slot and the outgoing card on the discard pile; a flip only reveals
      the slot, and the card it drew is not put anywhere. */
  function Move(s: RoundState, a: Action): (r: Result<RoundState, EngineError>)
    requires Playable(s) && IsLegalFor(s.players[s.activePlayer], a)
    ensures r.Err? <==> a.kind != TakeDiscardSwap && |s.drawPile| == 0 && |s.discardPile| <= 1
    ensures r.Err? ==> r.error == DeckExhausted
    ensures r.Ok? ==>
              var u := r.value;
              && u == s.(players := u.players, drawPile := u.drawPile, discardPile := u.discardPile)
              && |u.players| == |s.players|
              && u.players == s.players[s.activePlayer := u.players[s.activePlayer]]
              && u.players[s.activePlayer].faceUp == s.players[s.activePlayer].faceUp + {a.slotIndex}
              && |u.players[s.activePlayer].slots| == |s.players[s.activePlayer].slots|
              && |u.discardPile| > 0
  {
    var p := s.players[s.activePlayer];
    var revealed := p.faceUp + {a.slotIndex};
    match a.kind
    case TakeDiscardSwap =>
      var incoming := s.discardPile[|s.discardPile| - 1];
      var outgoing := p.slots[a.slotIndex];
      var hand := PlayerState(p.slots[a.slotIndex := incoming], revealed);
      Ok(WithHand(s, hand, s.drawPile, s.discardPile[..|s.discardPile| - 1] + [outgoing]))
    case DrawSwap =>
      var d :- DrawCard(s.drawPile, s.discardPile);
      var outgoing := p.slots[a.slotIndex];
      var hand := PlayerState(p.slots[a.slotIndex := d.card], revealed);
      Ok(WithHand(s, hand, d.drawPile, d.discardPile + [outgoing]))
    case DrawDiscardFlip =>
      var d :- DrawCard(s.drawPile, s.discardPile);
      var hand := PlayerState(p.slots, revealed);
      Ok(WithHand(s, hand, d.drawPile, d.discardPile))
  }

  /** `apply_action`: reject anything not in `legal_actions`, perform the move
      on the acting player's hand and the piles, then advance the turn. */
  function Apply(s: RoundState, a: Action): (r: Result<RoundState, EngineError>)
    requires Playable(s)
    ensures r == Err(IllegalAction) <==> !IsLegalFor(s.players[s.activePlayer], a)
    ensures r.Err? ==>
              || r == Err(IllegalAction)
              || (&& r == Err(DeckExhausted) && a.kind != TakeDiscardSwap
                  && |s.drawPile| == 0 && |s.discardPile| <= 1)
    ensures (&& IsLegalFor(s.players[s.activePlayer], a)
             && (a.kind == TakeDiscardSwap || |s.drawPile| > 0 || |s.discardPile| > 1)) ==> r.Ok?
    ensures r.Ok? ==>
              var t := r.value;
              && t.rules == s.rules && t.cards == s.cards
              && t.turnCount == s.turnCount + 1
              && t.activePlayer == (s.activePlayer + 1) % |s.players|
              && |t.players| == |s.players|
              && (forall j :: 0 <= j < |s.players| && j != s.activePlayer ==> t.players[j] == s.players[j])
              && t.players[s.activePlayer].faceUp == s.players[s.activePlayer].faceUp + {a.slotIndex}
              && |t.players[s.activePlayer].slots| == |s.players[s.activePlayer].slots|
              && |t.discardPile| > 0
  {
    if a !in LegalActions(s) then Err(IllegalAction)
    else
      var u :- Move(s, a);
      Ok(AdvanceTurn(u))
  }
}
