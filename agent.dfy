// The greedy player of game/agent.py: it takes the move with the largest
// reward, the earliest one among equals.

module Agent {
  import opened Wrappers
  import opened SageBoard
  import opened SageHands
  import opened SageMoves

  /** Position i holds the largest reward of the list, and every earlier entry pays strictly less. */
  ghost predicate IsFirstBest(acts: seq<Action>, i: int)
  {
    && 0 <= i < |acts|
    && (forall j :: 0 <= j < |acts| ==> acts[j].reward <= acts[i].reward)
    && (forall j :: 0 <= j < i ==> acts[j].reward < acts[i].reward)
  }

  /**
   * The loop of `GreedyGameAgent.choose_action`: a running maximum that starts
   * at -1 and is replaced only by a strictly larger reward.
   */
  method ChooseBest(acts: seq<Action>) returns (best: Option<Action>)
    ensures best.None? <==> forall j :: 0 <= j < |acts| ==> acts[j].reward <= -1
    ensures best.Some? ==> exists i :: IsFirstBest(acts, i) && acts[i] == best.value
  {
    var maxReward := -1;
    best := None;
    ghost var at := -1;
    for i := 0 to |acts|
      invariant forall j :: 0 <= j < i ==> acts[j].reward <= maxReward
      invariant best.None? <==> maxReward == -1
      invariant best.Some? ==> 0 <= at < i && acts[at] == best.value && maxReward == acts[at].reward
      invariant best.Some? ==> forall j :: 0 <= j < at ==> acts[j].reward < maxReward
      invariant maxReward >= -1
    {
      if acts[i].reward > maxReward {
        maxReward := acts[i].reward;
        best := Some(acts[i]);
        at := i;
      }
    }
    if best.Some? {
      assert IsFirstBest(acts, at);
    }
  }

  /** A discard pays a pile's bonus or nothing, and a hand pays a positive reward. */
  lemma RewardsNonNegative(s: GameState, acts: seq<Action>)
    requires ActionsSound(s, acts)
    requires forall i :: 0 <= i < 9 ==> s.bonus[i] >= 0
    ensures forall j :: 0 <= j < |acts| ==> acts[j].reward >= 0
  {
    forall j | 0 <= j < |acts|
      ensures acts[j].reward >= 0
    {
      if !IsDiscardAction(s, acts[j]) {
        var kind :| IsHandAction(s, acts[j], kind);
      }
    }
  }

  /** A discard of a visible pile is on the list, with the reward `discard_from_pile` pays. */
  lemma DiscardListed(s: GameState, acts: seq<Action>, p: Pos)
    requires ActionsSound(s, acts)
    requires HasSingle(acts, p) && s.discards > 0 && Visible(s, p)
    ensures exists j :: 0 <= j < |acts| && acts[j].reward == DiscardFromPile(s, p).1
  {
    var j :| 0 <= j < |acts| && acts[j].hand == {p};
    if !IsDiscardAction(s, acts[j]) {
      var kind :| IsHandAction(s, acts[j], kind);
      HandActionIsNoSingle(s, acts[j], kind, p);
    }
    var q :| acts[j].hand == {q} && Visible(s, q) && s.discards > 0 && (acts[j].next, acts[j].reward) == DiscardFromPile(s, q);
    assert q in {p};
  }

  /** A legal hand is on the list with the reward of its kind. */
  lemma HandListed(s: GameState, acts: seq<Action>, kind: Kind, h: set<Pos>)
    requires KindCovered(s, acts, kind) && IsKind(s, h, kind)
    ensures exists j :: 0 <= j < |acts| && acts[j].reward == Reward(kind, Lucky(s, h))
  {
    var j :| 0 <= j < |acts| && acts[j].hand == h && IsHandAction(s, acts[j], kind);
  }

  /** The first best entry of a complete move list pays at least as much as every legal move. */
  lemma BestBeatsLegalMoves(s: GameState, acts: seq<Action>, i: int)
    requires ActionsSound(s, acts)
    requires forall p :: OnBoard(p) ==> (HasSingle(acts, p) <==> s.discards > 0 && Visible(s, p))
    requires forall kind :: KindCovered(s, acts, kind)
    requires IsFirstBest(acts, i)
    ensures forall kind, h :: IsKind(s, h, kind) ==> Reward(kind, Lucky(s, h)) <= acts[i].reward
    ensures forall p :: s.discards > 0 && Visible(s, p) ==> DiscardFromPile(s, p).1 <= acts[i].reward
  {
    forall kind, h | IsKind(s, h, kind)
      ensures Reward(kind, Lucky(s, h)) <= acts[i].reward
    {
      HandListed(s, acts, kind, h);
    }
    forall p | s.discards > 0 && Visible(s, p)
      ensures DiscardFromPile(s, p).1 <= acts[i].reward
    {
      assert HasSingle(acts, p);
      DiscardListed(s, acts, p);
    }
  }

  /**
   * `GreedyGameAgent.choose_action`: the chosen move is legal, pays at least as
   * much as every legal hand and every legal discard, and (with no negative
   * bonus on the board) there is none exactly when the game is over.
   */
  method ChooseAction(s: GameState) returns (best: Option<Action>)
    ensures best.Some? ==> IsDiscardAction(s, best.value) || exists kind :: IsHandAction(s, best.value, kind)
    ensures forall kind, h :: IsKind(s, h, kind) ==> best.Some? && Reward(kind, Lucky(s, h)) <= best.value.reward
    ensures best.Some? ==> forall p :: s.discards > 0 && Visible(s, p) ==> DiscardFromPile(s, p).1 <= best.value.reward
    ensures (forall i :: 0 <= i < 9 ==> s.bonus[i] >= 0) ==>
              (best.None? <==> (s.discards <= 0 || BoardEmpty(s)) && NoHands(s))
  {
    var acts := Actions(s);
    best := ChooseBest(acts);
    if !NoHands(s) {
      ghost var kind, h :| IsKind(s, h, kind);
      HandListed(s, acts, kind, h);
      assert best.Some?;
    }
    if best.Some? {
      ghost var i :| IsFirstBest(acts, i) && acts[i] == best.value;
      BestBeatsLegalMoves(s, acts, i);
    }
    if forall i :: 0 <= i < 9 ==> s.bonus[i] >= 0 {
      RewardsNonNegative(s, acts);
      NoActionsIffOver(s, acts);
      if |acts| > 0 {
        assert acts[0].reward > -1;
      }
    }
  }

  /** The move list is empty exactly when no discard and no hand is possible. */
  lemma NoActionsIffOver(s: GameState, acts: seq<Action>)
    requires ActionsSound(s, acts)
    requires forall p :: OnBoard(p) ==> (HasSingle(acts, p) <==> s.discards > 0 && Visible(s, p))
    requires forall kind :: KindCovered(s, acts, kind)
    ensures |acts| == 0 <==> (s.discards <= 0 || BoardEmpty(s)) && NoHands(s)
  {
    if |acts| == 0 {
      forall i | 0 <= i < 9 && s.discards > 0
        ensures |s.piles[i]| == 0
      {
        PositionsOnBoard(Positions[i]);
        assert !HasSingle(acts, Positions[i]);
      }
      forall kind, h
        ensures !IsKind(s, h, kind)
      {
        assert KindCovered(s, acts, kind);
      }
    } else if IsDiscardAction(s, acts[0]) {
      var p :| acts[0].hand == {p} && Visible(s, p) && s.discards > 0 && (acts[0].next, acts[0].reward) == DiscardFromPile(s, p);
      assert |s.piles[Idx(p)]| > 0;
    } else {
      var kind :| IsHandAction(s, acts[0], kind);
    }
  }
}
