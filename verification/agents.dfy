/** The two baseline players of simulation/baseline.py: one that picks a legal
    action uniformly at random, and a simple value-seeking heuristic.

    The round's shared `random.Random` is replaced by the next number it would
    draw: `rng.choice(actions)` becomes `actions[draw % len(actions)]`, and a
    choice reports whether it consumed that draw, so the caller can advance
    its position in the stream. An exception an agent would raise (an empty
    action list, `max` of an empty hand) is `None`. */
module Agents {
  import opened Wrappers
  import opened Ordering
  import opened Engine
  import opened EngineInvariants

  datatype Strategy = RandomChoice | SimpleHeuristic

  datatype Agent = Agent(name: string, strategy: Strategy)

  /** The action an agent chose, and whether choosing it drew from the generator. */
  datatype Choice = Choice(action: Action, drewRandom: bool)

  /** `rng.choice(actions)`, given the generator's next draw. */
  function PickFrom(actions: seq<Action>, draw: nat): (a: Action)
    requires |actions| > 0
    ensures a in actions
  {
    actions[draw % |actions|]
  }

  /** The loop `for action in actions: if action.kind == kind and
      action.slot_index == slot: return action`. */
  function {:induction false} FindAction(actions: seq<Action>, kind: ActionKind, slot: int): (r: Option<Action>)
    ensures r.Some? <==> Action(kind, slot) in actions
    ensures r.Some? ==> r.value == Action(kind, slot)
  {
    if |actions| == 0 then None
    else if actions[0].kind == kind && actions[0].slotIndex == slot then Some(actions[0])
    else
      assert actions == [actions[0]] + actions[1..];
      FindAction(actions[1..], kind, slot)
  }

  /** What the heuristic needs to look up: the acting hand's cards and the
      top of the discard pile are all filed under their ids. */
  predicate HandKnown(s: RoundState) {
    && Playable(s)
    && (forall i :: 0 <= i < |s.players[s.activePlayer].slots| ==> s.players[s.activePlayer].slots[i] in s.cards)
    && s.discardPile[|s.discardPile| - 1] in s.cards
  }

  /** The values of the acting player's cards, slot by slot. */
  function HandValues(s: RoundState): (r: seq<int>)
    requires HandKnown(s)
    ensures |r| == |s.players[s.activePlayer].slots|
  {
    CardValues(s.cards, s.players[s.activePlayer].slots)
  }

  /** The value showing on the discard pile. */
  function DiscardTop(s: RoundState): int
    requires HandKnown(s)
  {
    s.cards[s.discardPile[|s.discardPile| - 1]].value
  }

  /** `SimpleHeuristicAgent.choose_action`: with a low discard top (at most
      2), take it into the first hidden slot, or over the highest card when
      every slot is revealed; otherwise flip the first hidden slot; with the
      whole hand revealed, draw and swap over the highest card; when none of
      these is offered, pick at random. */
  function Heuristic(s: RoundState, actions: seq<Action>, draw: nat): (r: Option<Choice>)
    requires HandKnown(s)
    ensures r.None? <==> |s.players[s.activePlayer].slots| == 0 || |actions| == 0
    ensures r.Some? ==> r.value.action in actions
    ensures r.Some? && !r.value.drewRandom ==>
              var hidden := HiddenSlots(s.players[s.activePlayer]);
              var a := r.value.action;
              || (&& a.kind == TakeDiscardSwap && DiscardTop(s) <= 2
                  && a.slotIndex == if |hidden| > 0 then hidden[0] else FirstMax(HandValues(s)))
              || (&& a.kind == DrawDiscardFlip && |hidden| > 0 && a.slotIndex == hidden[0])
              || (&& a.kind == DrawSwap && a.slotIndex == FirstMax(HandValues(s)))
  {
    var values := HandValues(s);
    var hidden := HiddenSlots(s.players[s.activePlayer]);
    assert |hidden| > 0 ==> |values| > 0 by {
      if |hidden| > 0 {
        assert hidden[0] < |s.players[s.activePlayer].slots|;
      }
    }
    if DiscardTop(s) <= 2 && |hidden| == 0 && |values| == 0 then None
    else
      var take :=
        if DiscardTop(s) <= 2 then
          var preferred := if |hidden| > 0 then hidden[0] else FirstMax(values);
          FindAction(actions, TakeDiscardSwap, preferred)
        else None;
      if take.Some? then Some(Choice(take.value, false))
      else
        var flip := if |hidden| > 0 then FindAction(actions, DrawDiscardFlip, hidden[0]) else None;
        if flip.Some? then Some(Choice(flip.value, false))
        else if |values| == 0 then None
        else
          var swap := FindAction(actions, DrawSwap, FirstMax(values));
          if swap.Some? then Some(Choice(swap.value, false))
          else if |actions| == 0 then None
          else Some(Choice(PickFrom(actions, draw), true))
  }

  /** `agent.choose_action(state, actions, rng)`. */
  function Choose(agent: Agent, s: RoundState, actions: seq<Action>, draw: nat): (r: Option<Choice>)
    requires HandKnown(s)
    ensures r.None? <==> |actions| == 0 || (agent.strategy == SimpleHeuristic && |s.players[s.activePlayer].slots| == 0)
    ensures r.Some? ==> r.value.action in actions
  {
    match agent.strategy
    case RandomChoice => if |actions| == 0 then None else Some(Choice(PickFrom(actions, draw), true))
    case SimpleHeuristic => Heuristic(s, actions, draw)
  }

  /** Offered the engine's legal actions, the heuristic never needs the
      generator: with a hidden slot it takes the low discard into the first
      hidden slot or else flips that slot, and with the whole hand revealed
      it swaps over the first highest card, from the discard pile when that
      shows at most 2 and from the draw pile otherwise. */
  lemma HeuristicOnLegalActions(s: RoundState, draw: nat)
    requires HandKnown(s)
    requires |s.players[s.activePlayer].slots| > 0
    ensures var r := Heuristic(s, LegalActions(s), draw);
            var hidden := HiddenSlots(s.players[s.activePlayer]);
            var highest := FirstMax(HandValues(s));
            && r.Some? && !r.value.drewRandom
            && (|hidden| > 0 && DiscardTop(s) <= 2 ==> r.value.action == Action(TakeDiscardSwap, hidden[0]))
            && (|hidden| > 0 && DiscardTop(s) > 2 ==> r.value.action == Action(DrawDiscardFlip, hidden[0]))
            && (|hidden| == 0 && DiscardTop(s) <= 2 ==> r.value.action == Action(TakeDiscardSwap, highest))
            && (|hidden| == 0 && DiscardTop(s) > 2 ==> r.value.action == Action(DrawSwap, highest))
  {
    var p := s.players[s.activePlayer];
    var hidden := HiddenSlots(p);
    var highest := FirstMax(HandValues(s));
    assert IsLegalFor(p, Action(DrawSwap, highest));
    if |hidden| > 0 {
      assert hidden[0] in hidden;
      assert IsLegalFor(p, Action(TakeDiscardSwap, hidden[0]));
      assert IsLegalFor(p, Action(DrawDiscardFlip, hidden[0]));
    } else {
      assert IsLegalFor(p, Action(TakeDiscardSwap, highest));
    }
  }
}
