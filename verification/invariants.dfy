/** What stays true of a round snapshot from the deal through every action
    (engine/state.py): no card id sits in two places, the discard pile is
    never empty, face-up sets only grow, and the end-of-round countdown, once
    started, runs down to 0 and stays there.

    Cards are conserved only by the deal and by the two swap moves: a
    draw-and-flip move draws a card and discards it nowhere, so that card's id
    leaves every location. */
module EngineInvariants {
  import opened Wrappers
  import opened Ordering
  import opened Config
  import opened Engine

  /** No id occurs twice. */
  predicate Distinct(ids: seq<int>) {
    forall id :: id in ids ==> multiset(ids)[id] <= 1
  }

  /** Every face-up index names a slot of the hand. */
  predicate FaceUpInRange(p: PlayerState) {
    forall i :: i in p.faceUp ==> 0 <= i < |p.slots|
  }

  /** The countdown and the recorded ender are set together, and both are in range. */
  predicate CountdownShape(s: RoundState) {
    && (s.finalTurnsRemaining.None? <==> s.roundEnder.None?)
    && (s.finalTurnsRemaining.Some? ==>
          && 0 <= s.finalTurnsRemaining.value < |s.players|
          && 0 <= s.roundEnder.value < |s.players|)
  }

  /** The invariant of every snapshot reachable from a deal. */
  predicate Consistent(s: RoundState) {
    && 2 <= |s.players|
    && Playable(s)
    && (forall p :: 0 <= p < |s.players| ==> FaceUpInRange(s.players[p]))
    && Distinct(Located(s))
    && (forall id :: id in Located(s) ==> id in s.cards)
    && CountdownShape(s)
  }

  lemma ConsistentPlayable(s: RoundState)
    requires Consistent(s)
    ensures Playable(s) && 2 <= |s.players| && CountdownShape(s)
  {
  }

  // ---------------------------------------------------------------------------
  // The deal
  // ---------------------------------------------------------------------------

  lemma {:induction false} RangeCount(n: nat, x: int)
    ensures multiset(Range(n))[x] == if 0 <= x < n then 1 else 0
    decreases n
  {
    if n == 0 {
      assert Range(n) == [];
    } else {
      RangeCount(n - 1, x);
      assert Range(n) == Range(n - 1) + [n - 1];
    }
  }

  /** A rearrangement of `0 .. n - 1` holds each of those ids once and nothing else. */
  lemma PermutationOfRange(ids: seq<int>, n: nat)
    requires multiset(ids) == multiset(Range(n))
    ensures Distinct(ids)
    ensures forall id :: id in ids <==> 0 <= id < n
    ensures forall id :: 0 <= id < n ==> multiset(ids)[id] == 1
  {
    forall id
      ensures multiset(ids)[id] == if 0 <= id < n then 1 else 0
      ensures id in ids <==> 0 <= id < n
    {
      RangeCount(n, id);
      assert id in ids <==> id in multiset(ids);
    }
  }

  /** A successful deal yields a consistent snapshot in which every card id
      `0 .. total_cards - 1` sits in exactly one location. */
  lemma InitConsistent(rules: RulesConfig, playerCount: int, d: Dealing)
    requires DealingFits(d, rules, playerCount)
    requires InitializeRound(rules, playerCount, d).Ok?
    ensures Consistent(InitializeRound(rules, playerCount, d).value)
    ensures forall id :: 0 <= id < TotalCards(rules.deckComposition) ==>
              multiset(Located(InitializeRound(rules, playerCount, d).value))[id] == 1
  {
    hide InitializeRound;
    var s := InitializeRound(rules, playerCount, d).value;
    assert 2 <= playerCount;
    FreshConsistent(s, rules, playerCount, BuildDeck(rules).value);
  }

  /** A freshly dealt round of at least two hands is consistent, and holds
      each id of the deck exactly once. */
  lemma FreshConsistent(s: RoundState, rules: RulesConfig, playerCount: int, deck: seq<Card>)
    requires FreshlyDealt(s, rules, playerCount, deck) && 2 <= playerCount
    ensures Consistent(s)
    ensures forall id :: 0 <= id < |deck| ==> multiset(Located(s))[id] == 1
  {
    PermutationOfRange(Located(s), |deck|);
    assert forall p :: 0 <= p < |s.players| ==> FaceUpInRange(s.players[p]);
  }

  /** The values of the cards at the ids `ids`. */
  function CardValues(cards: map<int, Card>, ids: seq<int>): seq<int>
    requires forall i :: 0 <= i < |ids| ==> ids[i] in cards
  {
    seq(|ids|, i requires 0 <= i < |ids| => cards[ids[i]].value)
  }

  lemma CardValuesAppend(cards: map<int, Card>, a: seq<int>, b: seq<int>)
    requires forall i :: 0 <= i < |a| ==> a[i] in cards
    requires forall i :: 0 <= i < |b| ==> b[i] in cards
    ensures CardValues(cards, a + b) == CardValues(cards, a) + CardValues(cards, b)
  {
  }

  lemma Cancel(a: multiset<int>, b: multiset<int>, x: int)
    requires a + multiset{x} == b + multiset{x}
    ensures a == b
  {
    forall o
      ensures a[o] == b[o]
    {
      assert (a + multiset{x})[o] == (b + multiset{x})[o];
    }
  }

  /** Rearranging ids rearranges their values the same way. */
  lemma {:induction false} CardValuesPermutation(cards: map<int, Card>, a: seq<int>, b: seq<int>)
    requires forall i :: 0 <= i < |a| ==> a[i] in cards
    requires forall i :: 0 <= i < |b| ==> b[i] in cards
    requires multiset(a) == multiset(b)
    ensures multiset(CardValues(cards, a)) == multiset(CardValues(cards, b))
    decreases |a|
  {
    hide CardValues;
    if |a| == 0 {
      assert |multiset(b)| == 0;
      assert b == [];
    } else {
      var x := a[|a| - 1];
      var a' := Without(a, |a| - 1);
      assert x in multiset(b) by {
        SpliceOut(a, |a| - 1);
      }
      var k :| 0 <= k < |b| && b[k] == x;
      var b' := Without(b, k);
      SpliceOut(b, k);
      SpliceOut(a, |a| - 1);
      Cancel(multiset(a'), multiset(b'), x);
      SpliceOutValues(cards, a, |a| - 1);
      SpliceOutValues(cards, b, k);
      CardValuesPermutation(cards, a', b');
    }
  }

  /** `b` without position `k`. */
  function Without(b: seq<int>, k: int): (r: seq<int>)
    requires 0 <= k < |b|
    ensures |r| == |b| - 1
    ensures forall i :: 0 <= i < |r| ==> r[i] == if i < k then b[i] else b[i + 1]
  {
    b[..k] + b[k + 1..]
  }

  /** Taking out position `k` takes one copy of its id out of the multiset. */
  lemma SpliceOut(b: seq<int>, k: int)
    requires 0 <= k < |b|
    ensures multiset(b) == multiset(Without(b, k)) + multiset{b[k]}
  {
    assert b == b[..k] + [b[k]] + b[k + 1..];
  }

  /** Taking out position `k` takes one copy of its value out of the values. */
  lemma SpliceOutValues(cards: map<int, Card>, b: seq<int>, k: int)
    requires 0 <= k < |b|
    requires forall i :: 0 <= i < |b| ==> b[i] in cards
    ensures forall i :: 0 <= i < |Without(b, k)| ==> Without(b, k)[i] in cards
    ensures multiset(CardValues(cards, b))
            == multiset(CardValues(cards, Without(b, k))) + multiset{cards[b[k]].value}
  {
    var rest := Without(b, k);
    assert CardValues(cards, b)
           == CardValues(cards, b[..k]) + [cards[b[k]].value] + CardValues(cards, b[k + 1..]);
    assert CardValues(cards, rest) == CardValues(cards, b[..k]) + CardValues(cards, b[k + 1..]);
  }

  /** After the deal the values over all locations are exactly the composition:
      `composition[v]` cards of each value `v`. */
  lemma InitValuesMatchComposition(rules: RulesConfig, playerCount: int, d: Dealing, v: int)
    requires DealingFits(d, rules, playerCount)
    requires InitializeRound(rules, playerCount, d).Ok?
    ensures var s := InitializeRound(rules, playerCount, d).value;
            && (forall i :: 0 <= i < |Located(s)| ==> Located(s)[i] in s.cards)
            && multiset(CardValues(s.cards, Located(s)))[v] == CompositionCount(rules.deckComposition, v)
  {
    hide InitializeRound;
    var s := InitializeRound(rules, playerCount, d).value;
    FreshValues(s, rules, playerCount, BuildDeck(rules).value, v);
  }

  /** The values over all locations of a fresh deal are the deck's values. */
  lemma FreshValues(s: RoundState, rules: RulesConfig, playerCount: int, deck: seq<Card>, v: int)
    requires FreshlyDealt(s, rules, playerCount, deck)
    requires forall v :: multiset(Values(deck))[v] == CompositionCount(rules.deckComposition, v)
    ensures forall i :: 0 <= i < |Located(s)| ==> Located(s)[i] in s.cards
    ensures multiset(CardValues(s.cards, Located(s)))[v] == CompositionCount(rules.deckComposition, v)
  {
    var n := |deck|;
    PermutationOfRange(Located(s), n);
    assert forall i :: 0 <= i < |Located(s)| ==> Located(s)[i] in s.cards by {
      forall i | 0 <= i < |Located(s)|
        ensures Located(s)[i] in s.cards
      {
        var id := Located(s)[i];
        assert id in Located(s);
        assert 0 <= id < n;
      }
    }
    DeckValues(s.cards, deck);
    CardValuesPermutation(s.cards, Located(s), Range(n));
  }

  /** Looking the ids `0 .. n - 1` up in a map that files each card of the
      deck under its position gives the deck's values in order. */
  lemma DeckValues(cards: map<int, Card>, deck: seq<Card>)
    requires forall id :: id in cards <==> 0 <= id < |deck|
    requires forall id :: id in cards ==> cards[id] == deck[id]
    ensures forall i :: 0 <= i < |deck| ==> Range(|deck|)[i] in cards
    ensures CardValues(cards, Range(|deck|)) == Values(deck)
  {
  }

  lemma AddBoth(a: multiset<int>, b: multiset<int>, c: multiset<int>, d: multiset<int>, e: multiset<int>)
    requires a + b == c + d
    ensures (a + e) + b == (c + e) + d
  {
    forall o
      ensures ((a + e) + b)[o] == ((c + e) + d)[o]
    {
      assert (a + b)[o] == (c + d)[o];
    }
  }

  /** Replacing hand `i` trades its ids for the new hand's ids. */
  lemma {:induction false} FlattenUpdate(players: seq<PlayerState>, i: int, hand: PlayerState)
    requires 0 <= i < |players|
    ensures multiset(Flatten(players[i := hand])) + multiset(players[i].slots)
            == multiset(Flatten(players)) + multiset(hand.slots)
    decreases |players|
  {
    var last := |players| - 1;
    var updated := players[i := hand];
    var front := players[..last];
    var front' := updated[..last];
    assert multiset(Flatten(updated)) == multiset(Flatten(front')) + multiset(updated[last].slots);
    assert multiset(Flatten(players)) == multiset(Flatten(front)) + multiset(players[last].slots);
    if i == last {
      assert front' == front;
      assert updated[last] == hand;
    } else {
      assert front' == front[i := hand];
      assert front[i] == players[i];
      FlattenUpdate(front, i, hand);
      assert updated[last] == players[last];
      AddBoth(multiset(Flatten(front')), multiset(players[i].slots), multiset(Flatten(front)),
              multiset(hand.slots), multiset(players[last].slots));
    }
  }

  /** Swapping `x` into slot `i` trades the old occupant for `x`. */
  lemma SwapSlot(slots: seq<int>, i: int, x: int)
    requires 0 <= i < |slots|
    ensures multiset(slots[i := x]) + multiset{slots[i]} == multiset(slots) + multiset{x}
  {
  }

  /** Rewriting the acting hand and the piles trades the old hand's ids and
      piles for the new ones. */
  lemma LocatedWithHand(s: RoundState, hand: PlayerState, drawPile: seq<int>, discardPile: seq<int>)
    requires 0 <= s.activePlayer < |s.players|
    ensures multiset(Located(WithHand(s, hand, drawPile, discardPile))) + multiset(s.players[s.activePlayer].slots)
            == multiset(Flatten(s.players)) + multiset(hand.slots) + (multiset(discardPile) + multiset(drawPile))
    ensures multiset(Located(s)) == multiset(Flatten(s.players)) + (multiset(s.discardPile) + multiset(s.drawPile))
  {
    FlattenUpdate(s.players, s.activePlayer, hand);
  }

  // Multiset bookkeeping for the three moves, stated over plain multisets:
  // `moved` is the located ids after the move, `hand`/`hand'` the acting
  // hand before and after, `rest` the other hands, and `draw`/`discard` the
  // piles.

  lemma SwapBalance(moved: multiset<int>, hand: multiset<int>, hand': multiset<int>, rest: multiset<int>,
                    piles: multiset<int>, piles': multiset<int>, incoming: int, outgoing: int)
    requires moved + hand == rest + hand' + piles'
    requires hand' + multiset{outgoing} == hand + multiset{incoming}
    requires piles' + multiset{incoming} == piles + multiset{outgoing}
    ensures moved == rest + piles
  {
    forall o
      ensures moved[o] == (rest + piles)[o]
    {
      assert (moved + hand)[o] == (rest + hand' + piles')[o];
      assert (hand' + multiset{outgoing})[o] == (hand + multiset{incoming})[o];
      assert (piles' + multiset{incoming})[o] == (piles + multiset{outgoing})[o];
    }
  }

  lemma FlipBalance(moved: multiset<int>, hand: multiset<int>, rest: multiset<int>,
                    piles: multiset<int>, piles': multiset<int>, drawn: int)
    requires moved + hand == rest + hand + piles'
    requires piles' + multiset{drawn} == piles
    ensures moved + multiset{drawn} == rest + piles
  {
    forall o
      ensures (moved + multiset{drawn})[o] == (rest + piles)[o]
    {
      assert (moved + hand)[o] == (rest + hand + piles')[o];
      assert (piles' + multiset{drawn})[o] == piles[o];
    }
  }

  lemma DrawBalance(draw: multiset<int>, discard: multiset<int>, draw': multiset<int>, discard': multiset<int>,
                    card: int, outgoing: int)
    requires draw + discard == draw' + discard' + multiset{card}
    ensures (discard' + draw') + multiset{card} == discard + draw
    ensures ((discard' + multiset{outgoing}) + draw') + multiset{card} == (discard + draw) + multiset{outgoing}
  {
    forall o
      ensures ((discard' + draw') + multiset{card})[o] == (discard + draw)[o]
    {
      assert (draw + discard)[o] == (draw' + discard' + multiset{card})[o];
    }
  }

  /** Taking the discard top keeps every id located. */
  lemma TakeDiscardKeepsLocations(s: RoundState, a: Action)
    requires Playable(s) && IsLegalFor(s.players[s.activePlayer], a) && a.kind == TakeDiscardSwap
    ensures Move(s, a).Ok? && multiset(Located(Move(s, a).value)) == multiset(Located(s))
  {
    var p := s.players[s.activePlayer];
    var i := a.slotIndex;
    var top := s.discardPile[|s.discardPile| - 1];
    var below := s.discardPile[..|s.discardPile| - 1];
    var hand := PlayerState(p.slots[i := top], p.faceUp + {i});
    var discard' := below + [p.slots[i]];
    var u := WithHand(s, hand, s.drawPile, discard');
    assert Move(s, a).value == u;
    LocatedWithHand(s, hand, s.drawPile, discard');
    assert s.discardPile == below + [top];
    SwapSlot(p.slots, i, top);
    SwapBalance(multiset(Located(u)), multiset(p.slots), multiset(hand.slots), multiset(Flatten(s.players)),
                multiset(s.discardPile) + multiset(s.drawPile), multiset(discard') + multiset(s.drawPile),
                top, p.slots[i]);
  }

  /** Drawing and swapping keeps every id located: the drawn card goes into
      the slot and the slot's card onto the discard pile. */
  lemma DrawSwapKeepsLocations(s: RoundState, a: Action)
    requires Playable(s) && IsLegalFor(s.players[s.activePlayer], a) && a.kind == DrawSwap
    requires Move(s, a).Ok?
    ensures multiset(Located(Move(s, a).value)) == multiset(Located(s))
  {
    var p := s.players[s.activePlayer];
    var i := a.slotIndex;
    var d := DrawCard(s.drawPile, s.discardPile).value;
    var hand := PlayerState(p.slots[i := d.card], p.faceUp + {i});
    var discard' := d.discardPile + [p.slots[i]];
    var u := WithHand(s, hand, d.drawPile, discard');
    assert Move(s, a).value == u;
    LocatedWithHand(s, hand, d.drawPile, discard');
    SwapSlot(p.slots, i, d.card);
    DrawBalance(multiset(s.drawPile), multiset(s.discardPile), multiset(d.drawPile), multiset(d.discardPile),
                d.card, p.slots[i]);
    SwapBalance(multiset(Located(u)), multiset(p.slots), multiset(hand.slots), multiset(Flatten(s.players)),
                multiset(s.discardPile) + multiset(s.drawPile), multiset(discard') + multiset(d.drawPile),
                d.card, p.slots[i]);
  }

  /** Drawing and flipping loses the drawn card and keeps the hand's ids. */
  lemma FlipDropsDrawnCard(s: RoundState, a: Action)
    requires Playable(s) && IsLegalFor(s.players[s.activePlayer], a) && a.kind == DrawDiscardFlip
    requires Move(s, a).Ok?
    ensures DrawCard(s.drawPile, s.discardPile).Ok?
    ensures multiset(Located(Move(s, a).value)) + multiset{DrawCard(s.drawPile, s.discardPile).value.card}
            == multiset(Located(s))
    ensures Move(s, a).value.players[s.activePlayer].slots == s.players[s.activePlayer].slots
  {
    var p := s.players[s.activePlayer];
    var d := DrawCard(s.drawPile, s.discardPile).value;
    var hand := PlayerState(p.slots, p.faceUp + {a.slotIndex});
    var u := WithHand(s, hand, d.drawPile, d.discardPile);
    assert Move(s, a).value == u;
    LocatedWithHand(s, hand, d.drawPile, d.discardPile);
    DrawBalance(multiset(s.drawPile), multiset(s.discardPile), multiset(d.drawPile), multiset(d.discardPile),
                d.card, d.card);
    FlipBalance(multiset(Located(u)), multiset(p.slots), multiset(Flatten(s.players)),
                multiset(s.discardPile) + multiset(s.drawPile), multiset(d.discardPile) + multiset(d.drawPile),
                d.card);
  }

  lemma ApplyIsMoveThenAdvance(s: RoundState, a: Action)
    requires Playable(s) && Apply(s, a).Ok?
    ensures IsLegalFor(s.players[s.activePlayer], a)
    ensures Move(s, a).Ok? && Apply(s, a).value == AdvanceTurn(Move(s, a).value)
    ensures Located(Apply(s, a).value) == Located(Move(s, a).value)
  {
  }

  /** The two swap moves keep every located id where some location holds it:
      the multiset of located ids is unchanged. */
  lemma ApplySwapKeepsLocations(s: RoundState, a: Action)
    requires Playable(s) && Apply(s, a).Ok? && a.kind != DrawDiscardFlip
    ensures multiset(Located(Apply(s, a).value)) == multiset(Located(s))
  {
    ApplyIsMoveThenAdvance(s, a);
    if a.kind == TakeDiscardSwap {
      TakeDiscardKeepsLocations(s, a);
    } else {
      DrawSwapKeepsLocations(s, a);
    }
  }

  /** A draw-and-flip move loses exactly the drawn card: the multiset of
      located ids shrinks by that one id, and the hand keeps its cards. */
  lemma ApplyFlipDropsDrawnCard(s: RoundState, a: Action)
    requires Playable(s) && Apply(s, a).Ok? && a.kind == DrawDiscardFlip
    ensures DrawCard(s.drawPile, s.discardPile).Ok?
    ensures multiset(Located(Apply(s, a).value)) + multiset{DrawCard(s.drawPile, s.discardPile).value.card}
            == multiset(Located(s))
    ensures Apply(s, a).value.players[s.activePlayer].slots == s.players[s.activePlayer].slots
  {
    ApplyIsMoveThenAdvance(s, a);
    FlipDropsDrawnCard(s, a);
  }

  /** A swap replaces exactly the target slot and leaves the card that was
      there on top of the discard pile; taking the discard brings its old top
      into the slot. */
  lemma ApplySwapShape(s: RoundState, a: Action)
    requires Playable(s) && Apply(s, a).Ok? && a.kind != DrawDiscardFlip
    ensures var t := Apply(s, a).value;
            var before := s.players[s.activePlayer].slots;
            var after := t.players[s.activePlayer].slots;
            && |after| == |before|
            && (forall j :: 0 <= j < |before| && j != a.slotIndex ==> after[j] == before[j])
            && t.discardPile[|t.discardPile| - 1] == before[a.slotIndex]
            && (a.kind == TakeDiscardSwap ==>
                  && after[a.slotIndex] == s.discardPile[|s.discardPile| - 1]
                  && t.discardPile[..|t.discardPile| - 1] == s.discardPile[..|s.discardPile| - 1]
                  && t.drawPile == s.drawPile)
  {
    ApplyIsMoveThenAdvance(s, a);
  }

  lemma DistinctShrinks(a: seq<int>, b: seq<int>)
    requires Distinct(b) && multiset(a) <= multiset(b)
    ensures Distinct(a)
    ensures forall id :: id in a ==> id in b
  {
    forall id | id in a
      ensures id in b
    {
      assert multiset(a)[id] > 0;
    }
  }

  /** The located ids after an action are distinct ids of known cards. */
  lemma ApplyKeepsIdsDistinct(s: RoundState, a: Action)
    requires Consistent(s) && Apply(s, a).Ok?
    ensures Distinct(Located(Apply(s, a).value))
    ensures forall id :: id in Located(Apply(s, a).value) ==> id in Apply(s, a).value.cards
  {
    var t := Apply(s, a).value;
    if a.kind == DrawDiscardFlip {
      ApplyFlipDropsDrawnCard(s, a);
    } else {
      ApplySwapKeepsLocations(s, a);
    }
    DistinctShrinks(Located(t), Located(s));
  }

  /** Every successful action keeps a consistent snapshot consistent. */
  lemma ApplyPreservesConsistent(s: RoundState, a: Action)
    requires Consistent(s) && Apply(s, a).Ok?
    ensures Consistent(Apply(s, a).value)
  {
    var t := Apply(s, a).value;
    ApplyKeepsIdsDistinct(s, a);
    if s.finalTurnsRemaining.Some? {
      ApplyCountdownStep(s, a);
    } else {
      ApplyCountdownStart(s, a);
    }
    assert forall p :: 0 <= p < |t.players| ==> FaceUpInRange(t.players[p]) by {
      forall p | 0 <= p < |t.players|
        ensures FaceUpInRange(t.players[p])
      {
        assert p != s.activePlayer ==> t.players[p] == s.players[p];
      }
    }
  }

  // ---------------------------------------------------------------------------
  // Playing several actions
  // ---------------------------------------------------------------------------

  /** Apply `actions` one after another, stopping at the first failure. */
  function ApplyAll(s: RoundState, actions: seq<Action>): (r: Result<RoundState, EngineError>)
    requires Consistent(s)
    ensures r.Ok? ==> Consistent(r.value)
    ensures r.Ok? ==> r.value.turnCount == s.turnCount + |actions|
    ensures r.Ok? ==> |r.value.players| == |s.players| && r.value.cards == s.cards && r.value.rules == s.rules
    decreases |actions|
  {
    if |actions| == 0 then Ok(s)
    else
      var t :- Apply(s, actions[0]);
      ApplyPreservesConsistent(s, actions[0]);
      ApplyAll(t, actions[1..])
  }

  /** Face-up sets only grow, over any number of actions. */
  lemma {:induction false} FaceUpGrows(s: RoundState, actions: seq<Action>, p: int)
    requires Consistent(s) && ApplyAll(s, actions).Ok? && 0 <= p < |s.players|
    ensures s.players[p].faceUp <= ApplyAll(s, actions).value.players[p].faceUp
    ensures |ApplyAll(s, actions).value.players[p].slots| == |s.players[p].slots|
    decreases |actions|
  {
    if |actions| > 0 {
      var t := Apply(s, actions[0]).value;
      ApplyPreservesConsistent(s, actions[0]);
      FaceUpGrows(t, actions[1..], p);
    }
  }

  // ---------------------------------------------------------------------------
  // The end-of-round countdown
  // ---------------------------------------------------------------------------

  /** One action moves a running countdown one step towards 0, never unsets
      it, and leaves the recorded ender alone. */
  lemma ApplyCountdownStep(s: RoundState, a: Action)
    requires Playable(s) && Apply(s, a).Ok? && s.finalTurnsRemaining.Some?
    ensures var t := Apply(s, a).value;
            var v := s.finalTurnsRemaining.value;
            && t.finalTurnsRemaining == Some(if v > 0 then v - 1 else v)
            && t.roundEnder == s.roundEnder
  {
    ApplyIsMoveThenAdvance(s, a);
  }

  /** An unset countdown starts, at `N - 1`, exactly when some hand is fully
      revealed after the move, and the ender is the lowest such player. */
  lemma ApplyCountdownStart(s: RoundState, a: Action)
    requires Playable(s) && Apply(s, a).Ok? && s.finalTurnsRemaining.None?
    ensures var t := Apply(s, a).value;
            && (t.finalTurnsRemaining.Some? <==> exists i :: 0 <= i < |t.players| && FullyRevealed(t.players[i]))
            && (t.finalTurnsRemaining.None? ==> t.roundEnder == s.roundEnder)
            && (t.finalTurnsRemaining.Some? ==>
                  && t.finalTurnsRemaining.value == |t.players| - 1
                  && t.roundEnder.Some?
                  && 0 <= t.roundEnder.value < |t.players|
                  && FullyRevealed(t.players[t.roundEnder.value])
                  && forall i :: 0 <= i < t.roundEnder.value ==> !FullyRevealed(t.players[i]))
  {
    ApplyIsMoveThenAdvance(s, a);
  }

  function Max(a: int, b: int): int {
    if a < b then b else a
  }

  /** Over `k` actions a running countdown `v` reaches `max(v - k, 0)`, and
      the ender never changes. */
  lemma {:induction false} CountdownRunsDown(s: RoundState, actions: seq<Action>)
    requires Consistent(s) && ApplyAll(s, actions).Ok? && s.finalTurnsRemaining.Some?
    ensures ApplyAll(s, actions).value.finalTurnsRemaining
            == Some(Max(s.finalTurnsRemaining.value - |actions|, 0))
    ensures ApplyAll(s, actions).value.roundEnder == s.roundEnder
    decreases |actions|
  {
    hide Apply, Consistent;
    ConsistentPlayable(s);
    if |actions| > 0 {
      var t := Apply(s, actions[0]).value;
      ApplyCountdownStep(s, actions[0]);
      ApplyPreservesConsistent(s, actions[0]);
      CountdownRunsDown(t, actions[1..]);
      assert ApplyAll(s, actions) == ApplyAll(t, actions[1..]);
    }
  }

  /** A finished round stays finished whatever is played on it. */
  lemma RoundOverStays(s: RoundState, actions: seq<Action>)
    requires Consistent(s) && ApplyAll(s, actions).Ok? && IsRoundOver(s)
    ensures IsRoundOver(ApplyAll(s, actions).value)
  {
    CountdownRunsDown(s, actions);
  }

  /** Once started, the round ends after exactly `N - 1` further actions and
      not before. */
  lemma RoundEndsAfterLastTurns(s: RoundState, actions: seq<Action>)
    requires Consistent(s) && ApplyAll(s, actions).Ok?
    requires s.finalTurnsRemaining == Some(|s.players| - 1)
    ensures IsRoundOver(ApplyAll(s, actions).value) <==> |actions| >= |s.players| - 1
  {
    CountdownRunsDown(s, actions);
  }

  /** Before the countdown starts the round is not over, and it stays open for
      at least one more action per player: every seat gets its last turn. */
  lemma {:induction false} RoundLastsPastCountdownStart(s: RoundState, actions: seq<Action>)
    requires Consistent(s) && ApplyAll(s, actions).Ok? && s.finalTurnsRemaining.None?
    ensures !IsRoundOver(s)
    ensures IsRoundOver(ApplyAll(s, actions).value) ==> |actions| >= |s.players|
    decreases |actions|
  {
    hide Apply, Consistent;
    ConsistentPlayable(s);
    if |actions| > 0 {
      var t := Apply(s, actions[0]).value;
      ApplyCountdownStart(s, actions[0]);
      ApplyPreservesConsistent(s, actions[0]);
      assert ApplyAll(s, actions) == ApplyAll(t, actions[1..]);
      if t.finalTurnsRemaining.None? {
        RoundLastsPastCountdownStart(t, actions[1..]);
      } else {
        RoundEndsAfterLastTurns(t, actions[1..]);
      }
    }
  }

  // ---------------------------------------------------------------------------
  // Revealed hands
  // ---------------------------------------------------------------------------

  /** The face-up indices from `from` on. */
  function UpFrom(p: PlayerState, from: int): set<int> {
    set i | i in p.faceUp && from <= i
  }

  /** From any slot on, each slot is either face-up or hidden. */
  lemma {:induction false} UpAndHiddenFrom(p: PlayerState, from: nat)
    requires FaceUpInRange(p) && from <= |p.slots|
    ensures |UpFrom(p, from)| + |HiddenFrom(p, from)| == |p.slots| - from
    decreases |p.slots| - from
  {
    if from == |p.slots| {
      assert UpFrom(p, from) == {};
    } else {
      UpAndHiddenFrom(p, from + 1);
      if from in p.faceUp {
        assert UpFrom(p, from) == UpFrom(p, from + 1) + {from};
      } else {
        assert UpFrom(p, from) == UpFrom(p, from + 1);
      }
    }
  }

  /** The source's end-of-round test counts face-up indices; for a hand whose
      face-up indices are slot indices that means no slot is hidden, and in
      general the hidden slots are the ones not face-up. */
  lemma FullyRevealedIffNoHidden(p: PlayerState)
    requires FaceUpInRange(p)
    ensures |HiddenSlots(p)| == |p.slots| - |p.faceUp|
    ensures FullyRevealed(p) <==> HiddenSlots(p) == []
  {
    UpAndHiddenFrom(p, 0);
    assert UpFrom(p, 0) == p.faceUp;
  }
}
