/**
 * The move list and the end-of-game test of game/gamestate.py. A move is a
 * discard from one pile or a scoring hand; it comes with the board it leads
 * to and its reward. A hand's reward is the base reward of its kind, doubled
 * when one of its upcards is in the lucky suit (the source multiplies by the
 * float 2.0; the rewards here are the same numbers as integers).
 */
module SageMoves {
  import opened Combinatorics
  import opened SageBoard
  import opened SageHands

  const PAIR_REWARD: int := 10
  const THREE_STRAIGHT_REWARD: int := 20
  const TRIP_REWARD: int := 30
  const FIVE_STRAIGHT_REWARD: int := 50
  const FULL_HOUSE_REWARD: int := 70
  const FLUSH_REWARD: int := 90
  const QUAD_REWARD: int := 100
  const STRAIGHT_FLUSH_REWARD: int := 150

  /** The eight scoring patterns, in the order `actions` lists them. */
  datatype Kind = Pair | Trip | Quad | FullHouse | SmallStraight | LargeStraight | Flush | StraightFlush

  function BaseReward(kind: Kind): int
  {
    match kind
    case Pair => PAIR_REWARD
    case Trip => TRIP_REWARD
    case Quad => QUAD_REWARD
    case FullHouse => FULL_HOUSE_REWARD
    case SmallStraight => THREE_STRAIGHT_REWARD
    case LargeStraight => FIVE_STRAIGHT_REWARD
    case Flush => FLUSH_REWARD
    case StraightFlush => STRAIGHT_FLUSH_REWARD
  }

  /** h is a hand of the given kind on board s. */
  ghost predicate IsKind(s: GameState, h: set<Pos>, kind: Kind)
  {
    match kind
    case Pair => IsSameRankHand(s, h, 2)
    case Trip => IsSameRankHand(s, h, 3)
    case Quad => IsSameRankHand(s, h, 4)
    case FullHouse => IsFullHouse(s, h)
    case SmallStraight => IsStraight(s, h, 3)
    case LargeStraight => IsStraight(s, h, 5)
    case Flush => IsFlush(s, h)
    case StraightFlush => IsStraightFlush(s, h)
  }

  /** Every hand a detector lists meets the conditions `make_hand` asserts. */
  lemma KindIsPlayable(s: GameState, h: set<Pos>, kind: Kind)
    requires IsKind(s, h, kind)
    ensures |h| > 1 && AllVisible(s, h) && |Rows(h)| > 1
  {
    match kind
    case FullHouse =>
      var t, q :| 0 <= t < 13 && 0 <= q < 13 && FullHouseOf(s, h, t, q);
      assert RankPart(s, h, t) <= h;
      SubsetCard(RankPart(s, h, t), h);
      SpansRowsIffRows(h);
    case Flush =>
      FlushSpansRows(s, h);
      SpansRowsIffRows(h);
    case _ =>
      SpansRowsIffRows(h);
  }

  /** Some upcard of the hand is in the lucky suit. */
  ghost predicate Lucky(s: GameState, h: set<Pos>)
  {
    exists p :: p in h && Visible(s, p) && Key(s, p, true) == s.luckySuit
  }

  /** `_is_lucky_hand(piles)`: whether some selected upcard is in the lucky suit. */
  method IsLuckyHand(s: GameState, hand: set<Pos>) returns (lucky: bool)
    requires AllVisible(s, hand)
    ensures lucky == Lucky(s, hand)
  {
    var rest := hand;
    while rest != {}
      invariant rest <= hand
      invariant forall p :: p in hand - rest ==> Key(s, p, true) != s.luckySuit
      decreases |rest|
    {
      var pile :| pile in rest;
      if Key(s, pile, true) == s.luckySuit {
        return true;
      }
      rest := rest - {pile};
    }
    return false;
  }

  /** The reward of a hand of the given kind. */
  function Reward(kind: Kind, lucky: bool): int
  {
    if lucky then BaseReward(kind) * 2 else BaseReward(kind)
  }

  /** An entry of the move list: the selected positions, the next board and the reward. */
  datatype Action = Action(hand: set<Pos>, next: GameState, reward: int)

  /** A discard from the one selected pile. */
  ghost predicate IsDiscardAction(s: GameState, a: Action)
  {
    exists p :: a.hand == {p} && Visible(s, p) && s.discards > 0 && (a.next, a.reward) == DiscardFromPile(s, p)
  }

  /** A hand of the given kind, the board `make_hand` leaves and the kind's reward. */
  ghost predicate IsHandAction(s: GameState, a: Action, kind: Kind)
  {
    && IsKind(s, a.hand, kind)
    && AllVisible(s, a.hand)
    && IsHandResult(s, a.hand, a.next)
    && a.reward == Reward(kind, Lucky(s, a.hand))
  }

  /** Every move of the list is a discard or a hand. */
  ghost predicate ActionsSound(s: GameState, acts: seq<Action>)
  {
    forall i :: 0 <= i < |acts| ==> IsDiscardAction(s, acts[i]) || exists kind :: IsHandAction(s, acts[i], kind)
  }

  /** Every hand of the kind is on the list with its board and reward. */
  ghost predicate KindCovered(s: GameState, acts: seq<Action>, kind: Kind)
  {
    forall h :: IsKind(s, h, kind) ==> exists i :: 0 <= i < |acts| && acts[i].hand == h && IsHandAction(s, acts[i], kind)
  }

  /** acts' is acts followed by one entry for each of the first n hands, in order, each with property P. */
  ghost predicate AppendedFor(acts: seq<Action>, hands: seq<set<Pos>>, n: int, P: Action -> bool, acts': seq<Action>)
  {
    && 0 <= n <= |hands|
    && |acts'| == |acts| + n && acts'[..|acts|] == acts
    && (forall i :: |acts| <= i < |acts'| ==> acts'[i].hand == hands[i - |acts|] && P(acts'[i]))
  }

  /** Appending the entry of the next hand extends `AppendedFor` by one. */
  lemma AppendedForStep(acts: seq<Action>, hands: seq<set<Pos>>, n: int, P: Action -> bool, acts': seq<Action>, a: Action)
    requires AppendedFor(acts, hands, n, P, acts') && n < |hands|
    requires a.hand == hands[n] && P(a)
    ensures AppendedFor(acts, hands, n + 1, P, acts' + [a])
  {
    var more := acts' + [a];
    assert more[..|acts|] == acts'[..|acts|];
    forall i | |acts| <= i < |more|
      ensures more[i].hand == hands[i - |acts|] && P(more[i])
    {
      if i < |acts'| {
        assert more[i] == acts'[i];
      }
    }
  }

  /** The hands of one kind, each turned into its move (one of the eight loops of `actions`). */
  method AddHandActions(s: GameState, acts: seq<Action>, hands: seq<set<Pos>>, kind: Kind)
    returns (acts': seq<Action>)
    requires forall h :: h in hands ==> IsKind(s, h, kind)
    ensures |acts'| == |acts| + |hands| && acts'[..|acts|] == acts
    ensures forall i :: |acts| <= i < |acts'| ==> acts'[i].hand == hands[i - |acts|]
    ensures forall i :: |acts| <= i < |acts'| ==> IsHandAction(s, acts'[i], kind)
  {
    ghost var P := b => IsHandAction(s, b, kind);
    acts' := acts;
    for j := 0 to |hands|
      invariant AppendedFor(acts, hands, j, P, acts')
    {
      var a := HandAction(s, hands[j], kind);
      AppendedForStep(acts, hands, j, P, acts', a);
      acts' := acts' + [a];
    }
  }

  /** The move of one hand: the board after `make_hand`, and the reward, doubled when the hand is lucky. */
  method HandAction(s: GameState, hand: set<Pos>, kind: Kind) returns (a: Action)
    requires IsKind(s, hand, kind)
    ensures a.hand == hand && IsHandAction(s, a, kind)
  {
    KindIsPlayable(s, hand, kind);
    var next := MakeHand(s, hand);
    var reward := BaseReward(kind);
    var lucky := IsLuckyHand(s, hand);
    if lucky {
      reward := reward * 2;
    }
    a := Action(hand, next, reward);
  }

  /** A hand move never selects a single pile. */
  lemma HandActionIsNoSingle(s: GameState, a: Action, kind: Kind, p: Pos)
    requires IsHandAction(s, a, kind)
    ensures a.hand != {p}
  {
    KindIsPlayable(s, a.hand, kind);
  }

  /** Pile p has a discard move among the moves. */
  ghost predicate HasSingle(acts: seq<Action>, p: Pos)
  {
    exists i :: 0 <= i < |acts| && acts[i].hand == {p}
  }

  /** The discard moves once the positions before row-major index k have been visited. */
  ghost predicate DiscardsBefore(s: GameState, acts: seq<Action>, k: int)
  {
    && (forall i :: 0 <= i < |acts| ==> IsDiscardAction(s, acts[i]))
    && (forall p :: OnBoard(p) ==> (HasSingle(acts, p) <==> Visible(s, p) && Idx(p) < k))
    && (forall i, j :: 0 <= i < j < |acts| ==> acts[i].hand != acts[j].hand)
  }

  lemma DiscardsStep(s: GameState, acts: seq<Action>, p: Pos, k: int)
    requires s.discards > 0 && OnBoard(p) && k == Idx(p)
    requires DiscardsBefore(s, acts, k)
    ensures Visible(s, p) ==>
      DiscardsBefore(s, acts + [Action({p}, DiscardFromPile(s, p).0, DiscardFromPile(s, p).1)], k + 1)
    ensures !Visible(s, p) ==> DiscardsBefore(s, acts, k + 1)
  {
    if Visible(s, p) {
      var acts' := acts + [Action({p}, DiscardFromPile(s, p).0, DiscardFromPile(s, p).1)];
      assert IsDiscardAction(s, acts'[|acts|]);
      forall q | OnBoard(q)
        ensures HasSingle(acts', q) <==> Visible(s, q) && Idx(q) < k + 1
      {
        if HasSingle(acts', q) && !HasSingle(acts, q) {
          var i :| 0 <= i < |acts'| && acts'[i].hand == {q};
          assert i == |acts|;
          assert q in {p};
        }
        if q == p {
          assert acts'[|acts|].hand == {q};
        } else if HasSingle(acts, q) {
          var i :| 0 <= i < |acts| && acts[i].hand == {q};
          assert acts'[i].hand == {q};
        }
      }
    } else {
      forall q | OnBoard(q)
        ensures HasSingle(acts, q) <==> Visible(s, q) && Idx(q) < k + 1
      {
      }
    }
  }

  /** The first loop of `actions`: one discard move per non-empty pile, in row-major order. */
  method DiscardActions(s: GameState) returns (acts: seq<Action>)
    requires s.discards > 0
    ensures forall i :: 0 <= i < |acts| ==> IsDiscardAction(s, acts[i])
    ensures forall p :: OnBoard(p) ==> (HasSingle(acts, p) <==> Visible(s, p))
    ensures forall i, j :: 0 <= i < j < |acts| ==> acts[i].hand != acts[j].hand
  {
    acts := [];
    for r := 0 to 3
      invariant DiscardsBefore(s, acts, 3 * r)
    {
      for c := 0 to 3
        invariant DiscardsBefore(s, acts, 3 * r + c)
      {
        DiscardsStep(s, acts, (r, c), 3 * r + c);
        if !IsPileEmpty(s, (r, c)) {
          var (next, reward) := DiscardFromPile(s, (r, c));
          acts := acts + [Action({(r, c)}, next, reward)];
        }
      }
    }
  }

  /** What adding the moves of one kind's hands keeps and adds. */
  lemma AfterAdd(s: GameState, acts: seq<Action>, hands: seq<set<Pos>>, kind: Kind, acts': seq<Action>)
    requires forall h :: h in hands <==> IsKind(s, h, kind)
    requires |acts'| == |acts| + |hands| && acts'[..|acts|] == acts
    requires forall i :: |acts| <= i < |acts'| ==> acts'[i].hand == hands[i - |acts|]
    requires forall i :: |acts| <= i < |acts'| ==> IsHandAction(s, acts'[i], kind)
    ensures ActionsSound(s, acts) ==> ActionsSound(s, acts')
    ensures forall k :: KindCovered(s, acts, k) ==> KindCovered(s, acts', k)
    ensures KindCovered(s, acts', kind)
    ensures forall p :: HasSingle(acts', p) <==> HasSingle(acts, p)
  {
    assert forall i :: 0 <= i < |acts| ==> acts'[i] == acts[i];
    forall k | KindCovered(s, acts, k)
      ensures KindCovered(s, acts', k)
    {
      forall h | IsKind(s, h, k)
        ensures exists i :: 0 <= i < |acts'| && acts'[i].hand == h && IsHandAction(s, acts'[i], k)
      {
        var i :| 0 <= i < |acts| && acts[i].hand == h && IsHandAction(s, acts[i], k);
        assert acts'[i] == acts[i];
      }
    }
    forall h | IsKind(s, h, kind)
      ensures exists i :: 0 <= i < |acts'| && acts'[i].hand == h && IsHandAction(s, acts'[i], kind)
    {
      var j :| 0 <= j < |hands| && hands[j] == h;
      assert acts'[|acts| + j].hand == h;
    }
    forall p | HasSingle(acts', p)
      ensures HasSingle(acts, p)
    {
      var i :| 0 <= i < |acts'| && acts'[i].hand == {p};
      if i >= |acts| {
        HandActionIsNoSingle(s, acts'[i], kind, p);
      }
    }
    forall p | HasSingle(acts, p)
      ensures HasSingle(acts', p)
    {
      var i :| 0 <= i < |acts| && acts[i].hand == {p};
      assert acts'[i].hand == {p};
    }
  }

  /** No discard move is listed twice. */
  ghost predicate DiscardsOnce(s: GameState, acts: seq<Action>)
  {
    forall i, j :: 0 <= i < j < |acts| && IsDiscardAction(s, acts[i]) && IsDiscardAction(s, acts[j]) ==> acts[i].hand != acts[j].hand
  }

  /** No hand is listed twice as a move of the same kind. */
  ghost predicate HandsOnce(s: GameState, acts: seq<Action>)
  {
    forall i, j, kind :: 0 <= i < j < |acts| && IsHandAction(s, acts[i], kind) && IsHandAction(s, acts[j], kind) ==> acts[i].hand != acts[j].hand
  }

  /** The position of the kind in the order `actions` lists them. */
  function KindOrder(kind: Kind): nat
  {
    match kind
    case Pair => 0
    case Trip => 1
    case Quad => 2
    case FullHouse => 3
    case SmallStraight => 4
    case LargeStraight => 5
    case Flush => 6
    case StraightFlush => 7
  }

  /** No kind from position n of the order on has a move on the list yet. */
  ghost predicate KindsFrom(s: GameState, acts: seq<Action>, n: nat)
  {
    forall k :: KindOrder(k) >= n ==> KindAbsent(s, acts, k)
  }

  /** No move of the list is a hand move of the kind. */
  ghost predicate KindAbsent(s: GameState, acts: seq<Action>, kind: Kind)
  {
    forall i :: 0 <= i < |acts| ==> !IsHandAction(s, acts[i], kind)
  }

  /** A move's reward fixes its kind: the eight base rewards differ, and luck depends on the hand alone. */
  lemma HandActionKind(s: GameState, a: Action, k1: Kind, k2: Kind)
    requires IsHandAction(s, a, k1) && IsHandAction(s, a, k2)
    ensures k1 == k2
  {
  }

  /** A move is never both a discard and a hand move. */
  lemma DiscardIsNoHand(s: GameState, a: Action, kind: Kind)
    ensures !(IsDiscardAction(s, a) && IsHandAction(s, a, kind))
  {
    if IsDiscardAction(s, a) && IsHandAction(s, a, kind) {
      var p :| a.hand == {p};
      HandActionIsNoSingle(s, a, kind, p);
    }
  }

  /** Appending the moves of a list of distinct hands of a kind not yet listed repeats nothing. */
  lemma AfterAddOnce(s: GameState, acts: seq<Action>, hands: seq<set<Pos>>, kind: Kind, acts': seq<Action>)
    requires Distinct(hands)
    requires |acts'| == |acts| + |hands| && acts'[..|acts|] == acts
    requires forall i :: |acts| <= i < |acts'| ==> acts'[i].hand == hands[i - |acts|]
    requires forall i :: |acts| <= i < |acts'| ==> IsHandAction(s, acts'[i], kind)
    ensures DiscardsOnce(s, acts) ==> DiscardsOnce(s, acts')
    ensures HandsOnce(s, acts) && KindAbsent(s, acts, kind) ==> HandsOnce(s, acts')
    ensures forall k :: k != kind && KindAbsent(s, acts, k) ==> KindAbsent(s, acts', k)
  {
    assert forall i :: 0 <= i < |acts| ==> acts'[i] == acts[i];
    forall i | |acts| <= i < |acts'|
      ensures !IsDiscardAction(s, acts'[i])
    {
      DiscardIsNoHand(s, acts'[i], kind);
    }
    forall k, i | k != kind && |acts| <= i < |acts'|
      ensures !IsHandAction(s, acts'[i], k)
    {
      if IsHandAction(s, acts'[i], k) {
        HandActionKind(s, acts'[i], kind, k);
      }
    }
    if HandsOnce(s, acts) && KindAbsent(s, acts, kind) {
      forall i, j, k | 0 <= i < j < |acts'| && IsHandAction(s, acts'[i], k) && IsHandAction(s, acts'[j], k)
        ensures acts'[i].hand != acts'[j].hand
      {
        if j >= |acts| {
          HandActionKind(s, acts'[j], kind, k);
          if i >= |acts| {
            assert hands[i - |acts|] != hands[j - |acts|];
          }
        }
      }
    }
  }

  /** The detector of each kind: `_get_pair_hands`, `_get_trip_hands`, and so on. */
  method DetectHands(s: GameState, kind: Kind) returns (hands: seq<set<Pos>>)
    ensures forall h :: h in hands <==> IsKind(s, h, kind)
    ensures Distinct(hands)
  {
    match kind
    case Pair => hands := SameRankHands(s, 2);
    case Trip => hands := SameRankHands(s, 3);
    case Quad => hands := SameRankHands(s, 4);
    case FullHouse => hands := FullHouseHands(s);
    case SmallStraight => hands := StraightHands(s, 3);
    case LargeStraight => hands := StraightHands(s, 5);
    case Flush => hands := FlushHands(s);
    case StraightFlush => hands := StraightFlushHands(s);
  }

  /** One of the eight hand loops of `actions`: the moves of every hand of the kind, appended. */
  method AddKind(s: GameState, acts: seq<Action>, kind: Kind) returns (acts': seq<Action>)
    ensures ActionsSound(s, acts) ==> ActionsSound(s, acts')
    ensures forall k :: KindCovered(s, acts, k) ==> KindCovered(s, acts', k)
    ensures KindCovered(s, acts', kind)
    ensures forall p :: HasSingle(acts', p) <==> HasSingle(acts, p)
    ensures DiscardsOnce(s, acts) ==> DiscardsOnce(s, acts')
    ensures HandsOnce(s, acts) && KindsFrom(s, acts, KindOrder(kind)) ==> HandsOnce(s, acts')
    ensures KindsFrom(s, acts, KindOrder(kind)) ==> KindsFrom(s, acts', KindOrder(kind) + 1)
  {
    var hands := DetectHands(s, kind);
    acts' := AddHandActions(s, acts, hands, kind);
    AfterAdd(s, acts, hands, kind, acts');
    AfterAddOnce(s, acts, hands, kind, acts');
  }

  /**
   * `actions()`: the discard moves when discards remain, then the hands of
   * each kind (pairs, trips, quads, full houses, 3-straights, 5-straights,
   * flushes, straight flushes), each with the board `make_hand` leaves and the
   * kind's reward, doubled for a lucky hand.
   */
  method Actions(s: GameState) returns (acts: seq<Action>)
    ensures ActionsSound(s, acts)
    ensures forall p :: OnBoard(p) ==> (HasSingle(acts, p) <==> s.discards > 0 && Visible(s, p))
    ensures forall kind :: KindCovered(s, acts, kind)
    ensures DiscardsOnce(s, acts)
    ensures HandsOnce(s, acts)
  {
    acts := [];
    if s.discards > 0 {
      acts := DiscardActions(s);
    }
    forall i, kind | 0 <= i < |acts|
      ensures !IsHandAction(s, acts[i], kind)
    {
      DiscardIsNoHand(s, acts[i], kind);
    }
    assert KindsFrom(s, acts, 0);
    acts := AddKind(s, acts, Pair);
    acts := AddKind(s, acts, Trip);
    acts := AddKind(s, acts, Quad);
    acts := AddKind(s, acts, FullHouse);
    acts := AddKind(s, acts, SmallStraight);
    acts := AddKind(s, acts, LargeStraight);
    acts := AddKind(s, acts, Flush);
    acts := AddKind(s, acts, StraightFlush);
    forall kind
      ensures KindCovered(s, acts, kind)
    {
      match kind
      case Pair =>
      case Trip =>
      case Quad =>
      case FullHouse =>
      case SmallStraight =>
      case LargeStraight =>
      case Flush =>
      case StraightFlush =>
    }
  }

  /** No hand of any kind lies on the board. */
  ghost predicate NoHands(s: GameState)
  {
    forall kind, h :: !IsKind(s, h, kind)
  }

  /** A board with every pile empty has no hand, so its game is over. */
  lemma EmptyBoardHasNoHands(s: GameState)
    requires BoardEmpty(s)
    ensures NoHands(s)
  {
    forall kind, h | IsKind(s, h, kind)
      ensures false
    {
      KindIsPlayable(s, h, kind);
    }
  }

  /** The piles visited by the row-major loops are all empty, so the board is. */
  lemma AllPilesEmpty(s: GameState)
    requires forall p :: OnBoard(p) ==> IsPileEmpty(s, p)
    ensures BoardEmpty(s)
  {
    forall i | 0 <= i < 9
      ensures |s.piles[i]| == 0
    {
      PositionsOnBoard(Positions[i]);
      assert IsPileEmpty(s, Positions[i]);
    }
  }

  /**
   * `is_game_over()`: not over while a discard remains and some pile holds
   * a card; otherwise over exactly when no move is left.
   */
  method IsGameOver(s: GameState) returns (over: bool)
    ensures over <==> (s.discards <= 0 || BoardEmpty(s)) && NoHands(s)
  {
    if s.discards > 0 {
      for r := 0 to 3
        invariant forall p :: OnBoard(p) && p.0 < r ==> IsPileEmpty(s, p)
      {
        for c := 0 to 3
          invariant forall p :: OnBoard(p) && (p.0 < r || (p.0 == r && p.1 < c)) ==> IsPileEmpty(s, p)
        {
          if !IsPileEmpty(s, (r, c)) {
            assert |s.piles[Idx((r, c))]| > 0;
            return false;
          }
        }
      }
      AllPilesEmpty(s);
    }
    var acts := Actions(s);
    over := |acts| == 0;
    GameOverIffNoActions(s, acts);
  }

  /** Once the early exit is passed, the move list is empty exactly when no hand is left. */
  lemma GameOverIffNoActions(s: GameState, acts: seq<Action>)
    requires s.discards <= 0 || BoardEmpty(s)
    requires ActionsSound(s, acts) && forall kind :: KindCovered(s, acts, kind)
    ensures |acts| == 0 <==> NoHands(s)
  {
    if |acts| > 0 && !IsDiscardAction(s, acts[0]) {
      var kind :| IsHandAction(s, acts[0], kind);
    }
    if !NoHands(s) {
      var kind, h :| IsKind(s, h, kind);
      assert KindCovered(s, acts, kind);
    }
  }
}
