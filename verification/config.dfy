/** The rules bundle of a round (engine/config.py): hand size, face-up start,
    end-of-round penalty mode and the deck's value -> count composition,
    with its validation and the deck size it implies. */
module Config {
  import opened Wrappers
  import opened Ordering

  datatype RulesConfig = RulesConfig(
    cardsPerPlayer: int,
    startingFaceUpCards: int,
    targetMatchScore: int,
    enderPenaltyMode: string,
    deckComposition: map<int, int>)

  /** Why `validate` rejects a rules bundle, in the order the checks run. */
  datatype ConfigError =
    | NonPositiveHandSize
    | NegativeFaceUpCount
    | FaceUpExceedsHand
    | UnknownPenaltyMode
    | EmptyComposition
    | NonPositiveCount

  const StrictLowestRequired: string := "strict_lowest_required"
  const PenaltyOff: string := "off"

  /** The card values of the default deck: -2 up to 12. */
  function DefaultValues(): seq<int> {
    seq(15, i => i - 2)
  }

  /** How many cards of value `v` the default deck holds, for `v` in -2..12. */
  function DefaultCount(v: int): int {
    if v == -2 then 5 else if v == -1 then 10 else if v == 0 then 15 else 10
  }

  /** Five -2s, ten -1s, fifteen 0s and ten of each value 1..12. */
  function DefaultDeckComposition(): map<int, int> {
    map v | -2 <= v <= 12 :: DefaultCount(v)
  }

  function DefaultRules(): RulesConfig {
    RulesConfig(12, 2, 100, StrictLowestRequired, DefaultDeckComposition())
  }

  /** Every constraint `validate` enforces, stated at once. */
  predicate WellFormedRules(r: RulesConfig) {
    && 0 < r.cardsPerPlayer
    && 0 <= r.startingFaceUpCards <= r.cardsPerPlayer
    && (r.enderPenaltyMode == StrictLowestRequired || r.enderPenaltyMode == PenaltyOff)
    && |r.deckComposition| > 0
    && forall v :: v in r.deckComposition ==> r.deckComposition[v] > 0
  }

  /** `RulesConfig.validate`: the first violated constraint, in source order. */
  function Validate(r: RulesConfig): (o: Outcome<ConfigError>)
    ensures o.Pass? <==> WellFormedRules(r)
    ensures o == Fail(NonPositiveHandSize) <==> r.cardsPerPlayer <= 0
    ensures o == Fail(NegativeFaceUpCount) <==> 0 < r.cardsPerPlayer && r.startingFaceUpCards < 0
    ensures o == Fail(FaceUpExceedsHand) <==>
              0 < r.cardsPerPlayer && 0 <= r.startingFaceUpCards && r.cardsPerPlayer < r.startingFaceUpCards
    ensures o == Fail(UnknownPenaltyMode) <==>
              && 0 < r.cardsPerPlayer && 0 <= r.startingFaceUpCards <= r.cardsPerPlayer
              && r.enderPenaltyMode != StrictLowestRequired && r.enderPenaltyMode != PenaltyOff
    ensures o == Fail(EmptyComposition) <==>
              && 0 < r.cardsPerPlayer && 0 <= r.startingFaceUpCards <= r.cardsPerPlayer
              && (r.enderPenaltyMode == StrictLowestRequired || r.enderPenaltyMode == PenaltyOff)
              && |r.deckComposition| == 0
    ensures o == Fail(NonPositiveCount) <==>
              && 0 < r.cardsPerPlayer && 0 <= r.startingFaceUpCards <= r.cardsPerPlayer
              && (r.enderPenaltyMode == StrictLowestRequired || r.enderPenaltyMode == PenaltyOff)
              && |r.deckComposition| > 0
              && exists v :: v in r.deckComposition && r.deckComposition[v] <= 0
  {
    if r.cardsPerPlayer <= 0 then Fail(NonPositiveHandSize)
    else if r.startingFaceUpCards < 0 then Fail(NegativeFaceUpCount)
    else if r.startingFaceUpCards > r.cardsPerPlayer then Fail(FaceUpExceedsHand)
    else if r.enderPenaltyMode != StrictLowestRequired && r.enderPenaltyMode != PenaltyOff then Fail(UnknownPenaltyMode)
    else if |r.deckComposition| == 0 then Fail(EmptyComposition)
    else if exists v :: v in r.deckComposition && r.deckComposition[v] <= 0 then Fail(NonPositiveCount)
    else Pass
  }

  /** Sum of the counts of `keys` in `comp`. */
  function SumCounts(comp: map<int, int>, keys: seq<int>): int
    requires forall i :: 0 <= i < |keys| ==> keys[i] in comp
  {
    if |keys| == 0 then 0 else comp[keys[0]] + SumCounts(comp, keys[1..])
  }

  /** `RulesConfig.total_cards`: the sum of all composition counts. */
  function TotalCards(comp: map<int, int>): int {
    SumCounts(comp, SortedElements(comp.Keys))
  }

  lemma {:induction false} SumCountsAppend(comp: map<int, int>, a: seq<int>, b: seq<int>)
    requires forall i :: 0 <= i < |a| ==> a[i] in comp
    requires forall i :: 0 <= i < |b| ==> b[i] in comp
    ensures SumCounts(comp, a + b) == SumCounts(comp, a) + SumCounts(comp, b)
    decreases |a|
  {
    if |a| == 0 {
      assert a + b == b;
    } else {
      assert (a + b)[0] == a[0];
      assert (a + b)[1..] == a[1..] + b;
      SumCountsAppend(comp, a[1..], b);
    }
  }

  lemma {:induction false} SumCountsUniform(comp: map<int, int>, keys: seq<int>, c: int)
    requires forall i :: 0 <= i < |keys| ==> keys[i] in comp && comp[keys[i]] == c
    ensures SumCounts(comp, keys) == c * |keys|
    decreases |keys|
  {
    if |keys| > 0 {
      SumCountsUniform(comp, keys[1..], c);
    }
  }

  /** A validated composition has a positive count per value, so at least one card per value. */
  lemma {:induction false} SumCountsPositive(comp: map<int, int>, keys: seq<int>)
    requires forall i :: 0 <= i < |keys| ==> keys[i] in comp && comp[keys[i]] > 0
    ensures SumCounts(comp, keys) >= |keys|
    decreases |keys|
  {
    if |keys| > 0 {
      SumCountsPositive(comp, keys[1..]);
    }
  }

  lemma TotalCardsAtLeastOnePerValue(r: RulesConfig)
    requires WellFormedRules(r)
    ensures TotalCards(r.deckComposition) >= |r.deckComposition| > 0
  {
    SumCountsPositive(r.deckComposition, SortedElements(r.deckComposition.Keys));
  }

  lemma DefaultKeysAscending()
    ensures SortedElements(DefaultDeckComposition().Keys) == DefaultValues()
  {
    var comp := DefaultDeckComposition();
    var keys := DefaultValues();
    forall k
      ensures k in keys <==> k in comp
    {
      if -2 <= k <= 12 {
        assert keys[k + 2] == k;
      }
    }
    StrictlyIncreasingUnique(keys, SortedElements(comp.Keys));
  }

  lemma DefaultRulesPassValidation()
    ensures Validate(DefaultRules()) == Pass
  {
    assert -2 in DefaultDeckComposition();
  }

  lemma DefaultLowValues()
    ensures SumCounts(DefaultDeckComposition(), [-2, -1, 0]) == 30
  {
    var comp := DefaultDeckComposition();
    assert comp[-2] == 5 && comp[-1] == 10 && comp[0] == 15;
    var low := [-2, -1, 0];
    assert low[1..] == [-1, 0] && low[1..][1..] == [0] && low[1..][1..][1..] == [];
  }

  lemma DefaultHighValues()
    ensures forall i :: 0 <= i < |DefaultValues()[3..]| ==> DefaultValues()[3..][i] in DefaultDeckComposition()
    ensures SumCounts(DefaultDeckComposition(), DefaultValues()[3..]) == 120
  {
    var comp := DefaultDeckComposition();
    var high := DefaultValues()[3..];
    assert forall i :: 0 <= i < |high| ==> high[i] in comp && comp[high[i]] == 10 by {
      forall i | 0 <= i < |high|
        ensures high[i] in comp && comp[high[i]] == 10
      {
        assert high[i] == DefaultValues()[i + 3];
      }
    }
    SumCountsUniform(comp, high, 10);
  }

  lemma DefaultValuesSplit()
    ensures DefaultValues() == [-2, -1, 0] + DefaultValues()[3..]
  {
    var keys := DefaultValues();
    assert keys[..3] == [-2, -1, 0];
    assert keys == keys[..3] + keys[3..];
  }

  lemma DefaultSumSplit(comp: map<int, int>, low: seq<int>, high: seq<int>)
    requires comp == DefaultDeckComposition()
    requires low == [-2, -1, 0] && high == DefaultValues()[3..]
    ensures SumCounts(comp, low + high) == 150
  {
    DefaultLowValues();
    DefaultHighValues();
    SumCountsAppend(comp, low, high);
  }

  /** The default deck holds 150 cards. */
  lemma DefaultDeckSize()
    ensures TotalCards(DefaultDeckComposition()) == 150
  {
    var comp := DefaultDeckComposition();
    var keys := DefaultValues();
    assert TotalCards(comp) == SumCounts(comp, keys) by {
      DefaultKeysAscending();
    }
    DefaultValuesSplit();
    DefaultSumSplit(comp, [-2, -1, 0], keys[3..]);
  }

  /** The default rules pass validation and describe a 150-card deck. */
  lemma DefaultRulesValid()
    ensures Validate(DefaultRules()) == Pass
    ensures TotalCards(DefaultDeckComposition()) == 150
  {
    DefaultRulesPassValidation();
    DefaultDeckSize();
  }
}
