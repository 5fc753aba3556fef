/**
 * The Sage solitaire board of game/gamestate.py: nine piles of card numbers
 * laid out in three rows of three, the clear bonus of each pile, the lucky
 * suit, the discards left and the set of "dead" card numbers (cards known not
 * to be hidden in any pile).
 *
 * The source copies a board and then mutates the copy, so a board is a value
 * here: the transitions return a new `GameState` and the old one is untouched
 * by construction. The source's 3x3 lists are stored row-major, pile (r, c)
 * at index 3 * r + c. A pile lists its cards from the visible upcard (index 0)
 * down.
 */
module SageBoard {
  import opened Wrappers
  import Cards

  const INITIAL_DISCARDS: int := 2
  const MAX_DISCARDS: int := 2

  /** A board position (row, column). */
  type Pos = (int, int)

  predicate OnBoard(p: Pos)
  {
    0 <= p.0 < 3 && 0 <= p.1 < 3
  }

  /** Where pile p sits in the row-major lists. */
  function Idx(p: Pos): (i: int)
    requires OnBoard(p)
    ensures 0 <= i < 9
  {
    3 * p.0 + p.1
  }

  /** The nine positions in the order of the source's nested row/column loops. */
  const Positions: seq<Pos> := [(0, 0), (0, 1), (0, 2), (1, 0), (1, 1), (1, 2), (2, 0), (2, 1), (2, 2)]

  /** `Positions` lists exactly the board's positions, position p at index `Idx(p)`. */
  lemma PositionsOnBoard(p: Pos)
    ensures p in Positions <==> OnBoard(p)
    ensures OnBoard(p) ==> Positions[Idx(p)] == p
  {
  }

  type Piles = s: seq<seq<Cards.CardNum>> | |s| == 9 witness [[], [], [], [], [], [], [], [], []]
  type Bonuses = s: seq<int> | |s| == 9 witness [0, 0, 0, 0, 0, 0, 0, 0, 0]

  /** Rank index 0..12 (A, 2, ..., K) and suit index 0..3 (c, d, h, s) of a card number. */
  function Rank(n: Cards.CardNum): (r: int)
    ensures 0 <= r < 13
  {
    n % 13
  }

  function Suit(n: Cards.CardNum): (r: int)
    ensures 0 <= r < 4
  {
    n / 13
  }

  /** The rank and suit the source reads through `int_to_card` are these. */
  lemma DecodedRankSuit(n: Cards.CardNum)
    ensures Cards.RankIdx(Cards.Decode(n)) == Rank(n)
    ensures Cards.SuitIdx(Cards.Decode(n)) == Suit(n)
  {
    Cards.EncodeDecode(n);
  }

  /**
   * The board. A fresh board of the source has `None` for the bonuses and the
   * lucky suit; here they are 0 and -1, which no card's suit equals.
   */
  datatype GameState = GameState(
    piles: Piles,
    bonus: Bonuses,
    luckySuit: int,
    discards: int,
    dead: set<Cards.CardNum>)

  /** The board `GameState()` builds before a game is started. */
  const NEW_GAME_STATE: GameState :=
    GameState([[], [], [], [], [], [], [], [], []], [0, 0, 0, 0, 0, 0, 0, 0, 0], -1, 0, {})

  /** `PILE_CLEAR_BONUSES`: 150 on the top row, 100 in the middle, 50 at the bottom. */
  const CLEAR_BONUSES: Bonuses := [150, 150, 150, 100, 100, 100, 50, 50, 50]

  function Pile(s: GameState, p: Pos): seq<Cards.CardNum>
    requires OnBoard(p)
  {
    s.piles[Idx(p)]
  }

  predicate IsPileEmpty(s: GameState, p: Pos)
    requires OnBoard(p)
  {
    |Pile(s, p)| == 0
  }

  /** The visible card of a non-empty pile. */
  function Upcard(s: GameState, p: Pos): Cards.CardNum
    requires OnBoard(p) && !IsPileEmpty(s, p)
  {
    Pile(s, p)[0]
  }

  /** Every selected position is on the board and its pile holds a card. */
  predicate AllVisible(s: GameState, hand: set<Pos>)
  {
    forall p :: p in hand ==> OnBoard(p) && !IsPileEmpty(s, p)
  }

  /** The rows a set of positions touches. */
  function Rows(hand: set<Pos>): set<int>
  {
    set p | p in hand :: p.0
  }

  /** Every pile is empty. */
  predicate BoardEmpty(s: GameState)
  {
    forall i :: 0 <= i < 9 ==> |s.piles[i]| == 0
  }

  /** The board invariant: the discard count is in range and every upcard is dead. */
  ghost predicate Valid(s: GameState)
  {
    && 0 <= s.discards <= MAX_DISCARDS
    && forall p :: OnBoard(p) && !IsPileEmpty(s, p) ==> Upcard(s, p) in s.dead
  }

  /** The number of cards on the board. */
  function CardsLeft(piles: seq<seq<Cards.CardNum>>): nat
  {
    if piles == [] then 0 else |piles[0]| + CardsLeft(piles[1..])
  }

  /** Changing one pile changes the card count by the change of that pile's size. */
  lemma {:induction false} CardsLeftUpdate(piles: seq<seq<Cards.CardNum>>, i: int, pile: seq<Cards.CardNum>)
    requires 0 <= i < |piles|
    ensures CardsLeft(piles[i := pile]) == CardsLeft(piles) - |piles[i]| + |pile|
  {
    if i > 0 {
      assert piles[i := pile][1..] == piles[1..][i - 1 := pile];
      CardsLeftUpdate(piles[1..], i - 1, pile);
    }
  }

  // ----- start_new_game -----

  /** The given piles have at least three rows of at least three columns. */
  predicate IsDeal<T>(cardPiles: seq<seq<seq<T>>>)
  {
    |cardPiles| >= 3 && forall r :: 0 <= r < 3 ==> |cardPiles[r]| >= 3
  }

  /** A pile of card numbers, as `[card_to_int(card) for card in pile]`. */
  function EncodePile(cards: seq<Cards.Card>): (r: seq<Cards.CardNum>)
    ensures |r| == |cards|
  {
    seq(|cards|, (i: int) requires 0 <= i < |cards| => Cards.Encode(cards[i]))
  }

  /** Decoding a dealt pile gives back its cards. */
  lemma EncodePileDecodes(cards: seq<Cards.Card>, i: int)
    requires 0 <= i < |cards|
    ensures Cards.Decode(EncodePile(cards)[i]) == cards[i]
  {
    Cards.DecodeEncode(cards[i]);
  }

  /** Every dealt pile as card numbers. */
  function EncodeDeal(cardPiles: seq<seq<seq<Cards.Card>>>): (nums: seq<seq<seq<Cards.CardNum>>>)
    requires IsDeal(cardPiles)
    ensures IsDeal(nums)
    ensures forall p :: OnBoard(p) ==> nums[p.0][p.1] == EncodePile(cardPiles[p.0][p.1])
  {
    seq(3, (r: int) requires 0 <= r < 3 =>
      seq(3, (c: int) requires 0 <= c < 3 => EncodePile(cardPiles[r][c])))
  }

  /** The piles once the first k positions (row-major) have been dealt. */
  ghost predicate PilesDealt(prev: GameState, nums: seq<seq<seq<Cards.CardNum>>>, k: int, piles: Piles)
    requires IsDeal(nums)
  {
    forall p :: OnBoard(p) ==>
      piles[Idx(p)] == if Idx(p) < k && |nums[p.0][p.1]| > 0 then nums[p.0][p.1] else Pile(prev, p)
  }

  /** n tops a non-empty given pile among the first k positions (row-major). */
  ghost predicate DealtUpcard(nums: seq<seq<seq<Cards.CardNum>>>, k: int, n: Cards.CardNum)
    requires IsDeal(nums)
  {
    exists p :: OnBoard(p) && Idx(p) < k && |nums[p.0][p.1]| > 0 && nums[p.0][p.1][0] == n
  }

  /** The upcards collected once the first k positions (row-major) have been dealt. */
  ghost predicate UpcardsDealt(nums: seq<seq<seq<Cards.CardNum>>>, k: int, upcards: seq<Cards.CardNum>)
    requires IsDeal(nums)
  {
    forall n :: n in upcards <==> DealtUpcard(nums, k, n)
  }

  /** Dealing pile (r, c) takes the piles from one position to the next. */
  lemma PilesDealtStep(prev: GameState, nums: seq<seq<seq<Cards.CardNum>>>, r: int, c: int, piles: Piles)
    requires IsDeal(nums) && OnBoard((r, c))
    requires PilesDealt(prev, nums, Idx((r, c)), piles)
    ensures PilesDealt(prev, nums, Idx((r, c)) + 1,
                       if |nums[r][c]| > 0 then piles[Idx((r, c)) := nums[r][c]] else piles)
  {
  }

  /** Dealing pile (r, c) adds its upcard, if any, and nothing else. */
  lemma DealtUpcardStep(nums: seq<seq<seq<Cards.CardNum>>>, r: int, c: int, k: int, n: Cards.CardNum)
    requires IsDeal(nums) && OnBoard((r, c)) && k == Idx((r, c))
    ensures DealtUpcard(nums, k + 1, n) <==> DealtUpcard(nums, k, n) || (|nums[r][c]| > 0 && nums[r][c][0] == n)
  {
    if DealtUpcard(nums, k + 1, n) && !DealtUpcard(nums, k, n) {
      var p :| OnBoard(p) && Idx(p) < k + 1 && |nums[p.0][p.1]| > 0 && nums[p.0][p.1][0] == n;
      assert p == (r, c);
    }
    if |nums[r][c]| > 0 && nums[r][c][0] == n {
      assert OnBoard((r, c)) && Idx((r, c)) < k + 1;
    }
  }

  /** Dealing pile (r, c) takes the collected upcards from one position to the next. */
  lemma UpcardsDealtStep(nums: seq<seq<seq<Cards.CardNum>>>, r: int, c: int, upcards: seq<Cards.CardNum>)
    requires IsDeal(nums) && OnBoard((r, c))
    requires UpcardsDealt(nums, Idx((r, c)), upcards)
    ensures UpcardsDealt(nums, Idx((r, c)) + 1, if |nums[r][c]| > 0 then upcards + [nums[r][c][0]] else upcards)
  {
    var k := Idx((r, c));
    forall n: Cards.CardNum
      ensures DealtUpcard(nums, k + 1, n) <==> DealtUpcard(nums, k, n) || (|nums[r][c]| > 0 && nums[r][c][0] == n)
    {
      DealtUpcardStep(nums, r, c, k, n);
    }
  }

  /**
   * The board `start_new_game` leaves: the lucky card's suit, two discards,
   * the fixed clear bonuses, each non-empty given pile dealt (an empty one
   * leaves the old pile), and as dead cards the lucky card and the upcard of
   * every non-empty given pile.
   */
  ghost predicate IsNewGame(prev: GameState, luckyCard: Cards.Card, cardPiles: seq<seq<seq<Cards.Card>>>, s: GameState)
    requires IsDeal(cardPiles)
  {
    && s.luckySuit == Cards.SuitIdx(luckyCard)
    && s.discards == INITIAL_DISCARDS
    && s.bonus == CLEAR_BONUSES
    && (forall p :: OnBoard(p) ==>
          Pile(s, p) == if |cardPiles[p.0][p.1]| > 0 then EncodePile(cardPiles[p.0][p.1]) else Pile(prev, p))
    && (forall n :: n in s.dead <==> n == Cards.Encode(luckyCard) || DealtUpcard(EncodeDeal(cardPiles), 9, n))
  }

  /**
   * A game started on a board whose piles are empty wherever the deal is
   * empty (as on a fresh `GameState()`) satisfies the board invariant.
   */
  lemma NewGameValid(prev: GameState, luckyCard: Cards.Card, cardPiles: seq<seq<seq<Cards.Card>>>, s: GameState)
    requires IsDeal(cardPiles) && IsNewGame(prev, luckyCard, cardPiles, s)
    requires forall p :: OnBoard(p) && |cardPiles[p.0][p.1]| == 0 ==> IsPileEmpty(prev, p)
    ensures Valid(s)
  {
    var nums := EncodeDeal(cardPiles);
    forall p | OnBoard(p) && !IsPileEmpty(s, p)
      ensures Upcard(s, p) in s.dead
    {
      assert |nums[p.0][p.1]| > 0 && nums[p.0][p.1][0] == Upcard(s, p);
      assert DealtUpcard(nums, 9, Upcard(s, p));
    }
  }

  /**
   * `start_new_game`: deal the given piles, fix bonuses, discards and lucky
   * suit, and mark the lucky card and the dealt upcards dead. A given pile
   * that is empty does not replace the board's pile, so `prev` supplies it.
   */
  method StartNewGame(prev: GameState, luckyCard: Cards.Card, cardPiles: seq<seq<seq<Cards.Card>>>)
    returns (s: GameState)
    requires IsDeal(cardPiles)
    ensures IsNewGame(prev, luckyCard, cardPiles, s)
  {
    var nums := EncodeDeal(cardPiles);
    var piles, upcards := DealPiles(prev, nums);
    s := GameState(piles, CLEAR_BONUSES, Cards.SuitIdx(luckyCard), INITIAL_DISCARDS,
                   {Cards.Encode(luckyCard)} + set n | n in upcards);
  }

  /** The loops of `start_new_game`, over the dealt piles as card numbers. */
  method DealPiles(prev: GameState, nums: seq<seq<seq<Cards.CardNum>>>)
    returns (piles: Piles, upcards: seq<Cards.CardNum>)
    requires IsDeal(nums)
    ensures PilesDealt(prev, nums, 9, piles)
    ensures UpcardsDealt(nums, 9, upcards)
  {
    piles := prev.piles;
    upcards := [];
    var r := 0;
    while r < 3
      invariant 0 <= r <= 3
      invariant PilesDealt(prev, nums, 3 * r, piles)
      invariant UpcardsDealt(nums, 3 * r, upcards)
    {
      var c := 0;
      while c < 3
        invariant 0 <= c <= 3
        invariant PilesDealt(prev, nums, 3 * r + c, piles)
        invariant UpcardsDealt(nums, 3 * r + c, upcards)
      {
        PilesDealtStep(prev, nums, r, c, piles);
        UpcardsDealtStep(nums, r, c, upcards);
        if |nums[r][c]| > 0 {
          piles := piles[Idx((r, c)) := nums[r][c]];
          upcards := upcards + [nums[r][c][0]];
        }
        c := c + 1;
      }
      r := r + 1;
    }
  }

  // ----- the two transitions -----

  /**
   * `discard_from_pile(r, c)`: spend a discard on the upcard of pile p. The
   * source asserts that a discard is left and that the pile holds a card.
   * The reward is the pile's clear bonus when the discarded card was its
   * last one, and 0 otherwise; a newly revealed upcard becomes dead.
   */
  function DiscardFromPile(s: GameState, p: Pos): (res: (GameState, int))
    requires s.discards > 0
    requires OnBoard(p) && !IsPileEmpty(s, p)
    ensures res.0.discards == s.discards - 1
    ensures Pile(res.0, p) == Pile(s, p)[1..]
    ensures forall q :: OnBoard(q) && q != p ==> Pile(res.0, q) == Pile(s, q)
    ensures res.0.bonus == s.bonus && res.0.luckySuit == s.luckySuit
    ensures forall n :: n in res.0.dead <==> n in s.dead || (|Pile(s, p)| > 1 && n == Pile(s, p)[1])
    ensures res.1 == if |Pile(s, p)| == 1 then s.bonus[Idx(p)] else 0
  {
    var reward := if |Pile(s, p)| == 1 then s.bonus[Idx(p)] else 0;
    var pile := Pile(s, p)[1..];
    var dead := if |pile| > 0 then s.dead + {pile[0]} else s.dead;
    (s.(discards := s.discards - 1, piles := s.piles[Idx(p) := pile], dead := dead), reward)
  }

  /** A discard keeps the board invariant and removes exactly one card from the board. */
  lemma DiscardKeepsValid(s: GameState, p: Pos)
    requires s.discards > 0 && OnBoard(p) && !IsPileEmpty(s, p)
    ensures Valid(s) ==> Valid(DiscardFromPile(s, p).0)
    ensures CardsLeft(DiscardFromPile(s, p).0.piles) == CardsLeft(s.piles) - 1
  {
    CardsLeftUpdate(s.piles, Idx(p), Pile(s, p)[1..]);
  }

  /** The clear bonus is paid exactly when the discard empties the pile. */
  lemma DiscardBonusWhenCleared(s: GameState, p: Pos)
    requires s.discards > 0 && OnBoard(p) && !IsPileEmpty(s, p)
    requires s.bonus == CLEAR_BONUSES
    ensures DiscardFromPile(s, p).1 > 0 <==> IsPileEmpty(DiscardFromPile(s, p).0, p)
  {
  }

  /** The cards that become upcards when the piles of `hand` lose their top card. */
  function Revealed(s: GameState, hand: set<Pos>): set<Cards.CardNum>
  {
    set p | p in hand && OnBoard(p) && |Pile(s, p)| > 1 :: Pile(s, p)[1]
  }

  /**
   * The board `make_hand(hand)` produces: one more discard up to the cap,
   * each selected pile without its top card, every other pile, the bonuses
   * and the lucky suit as before, and the revealed upcards added to the dead
   * cards.
   */
  ghost predicate IsHandResult(s: GameState, hand: set<Pos>, t: GameState)
    requires AllVisible(s, hand)
  {
    && t.discards == (if s.discards + 1 < MAX_DISCARDS then s.discards + 1 else MAX_DISCARDS)
    && t.bonus == s.bonus && t.luckySuit == s.luckySuit
    && (forall p :: OnBoard(p) ==> Pile(t, p) == if p in hand then Pile(s, p)[1..] else Pile(s, p))
    && t.dead == s.dead + Revealed(s, hand)
  }

  /** The piles once the piles in `done` have lost their top card. */
  ghost predicate TopsTaken(s: GameState, done: set<Pos>, t: GameState)
    requires AllVisible(s, done)
  {
    forall p :: OnBoard(p) ==> Pile(t, p) == if p in done then Pile(s, p)[1..] else Pile(s, p)
  }

  /** One pass of the loop body of `make_hand`: pile p loses its top card, a revealed card dies. */
  function TakeTop(t: GameState, p: Pos): GameState
    requires OnBoard(p) && !IsPileEmpty(t, p)
  {
    var pile := Pile(t, p)[1..];
    t.(piles := t.piles[Idx(p) := pile], dead := if |pile| > 0 then t.dead + {pile[0]} else t.dead)
  }

  lemma TopsTakenStep(s: GameState, done: set<Pos>, t: GameState, p: Pos)
    requires AllVisible(s, done + {p}) && p !in done
    requires TopsTaken(s, done, t)
    ensures TopsTaken(s, done + {p}, TakeTop(t, p))
  {
  }

  lemma RevealedStep(s: GameState, done: set<Pos>, t: GameState, p: Pos)
    requires AllVisible(s, done + {p}) && p !in done
    requires TopsTaken(s, done, t) && t.dead == s.dead + Revealed(s, done)
    ensures TakeTop(t, p).dead == s.dead + Revealed(s, done + {p})
  {
    RevealedAdd(s, done, p);
  }

  lemma CountStep(s: GameState, done: set<Pos>, t: GameState, p: Pos)
    requires AllVisible(s, done + {p}) && p !in done
    requires TopsTaken(s, done, t) && CardsLeft(t.piles) == CardsLeft(s.piles) - |done|
    ensures CardsLeft(TakeTop(t, p).piles) == CardsLeft(s.piles) - |done + {p}|
  {
    CardsLeftUpdate(t.piles, Idx(p), Pile(t, p)[1..]);
  }

  /**
   * `make_hand(piles)`: the source asserts at least two positions, all with
   * a card, on at least two rows; it then removes the top card of every
   * selected pile. Exactly |hand| cards leave the board.
   */
  method MakeHand(s: GameState, hand: set<Pos>) returns (t: GameState)
    requires |hand| > 1
    requires AllVisible(s, hand)
    requires |Rows(hand)| > 1
    ensures IsHandResult(s, hand, t)
    ensures CardsLeft(t.piles) == CardsLeft(s.piles) - |hand|
  {
    t := s.(discards := if s.discards + 1 < MAX_DISCARDS then s.discards + 1 else MAX_DISCARDS);
    var todo := hand;
    ghost var done: set<Pos> := {};
    while todo != {}
      invariant done + todo == hand && done !! todo
      invariant t.discards == (if s.discards + 1 < MAX_DISCARDS then s.discards + 1 else MAX_DISCARDS)
      invariant t.bonus == s.bonus && t.luckySuit == s.luckySuit
      invariant TopsTaken(s, done, t)
      invariant t.dead == s.dead + Revealed(s, done)
      invariant CardsLeft(t.piles) == CardsLeft(s.piles) - |done|
      decreases |todo|
    {
      var p :| p in todo;
      HandStep(s, hand, done, todo, t, p);
      t := TakeTop(t, p);
      todo := todo - {p};
      done := done + {p};
    }
  }

  /** One pass of the loop of `make_hand` keeps its invariant. */
  lemma HandStep(s: GameState, hand: set<Pos>, done: set<Pos>, todo: set<Pos>, t: GameState, p: Pos)
    requires AllVisible(s, hand) && done + todo == hand && done !! todo && p in todo
    requires TopsTaken(s, done, t)
    requires t.dead == s.dead + Revealed(s, done)
    requires CardsLeft(t.piles) == CardsLeft(s.piles) - |done|
    ensures (done + {p}) + (todo - {p}) == hand && (done + {p}) !! (todo - {p}) && |todo - {p}| < |todo|
    ensures OnBoard(p) && !IsPileEmpty(t, p)
    ensures TopsTaken(s, done + {p}, TakeTop(t, p))
    ensures TakeTop(t, p).dead == s.dead + Revealed(s, done + {p})
    ensures CardsLeft(TakeTop(t, p).piles) == CardsLeft(s.piles) - |done + {p}|
  {
    assert AllVisible(s, done + {p});
    TopsTakenStep(s, done, t, p);
    RevealedStep(s, done, t, p);
    CountStep(s, done, t, p);
    MoveToDone(done, todo, hand, p);
  }

  /** Moving one position from the to-do set to the done set keeps the two a partition of the hand. */
  lemma MoveToDone(done: set<Pos>, todo: set<Pos>, hand: set<Pos>, p: Pos)
    requires done + todo == hand && done !! todo && p in todo
    ensures (done + {p}) + (todo - {p}) == hand && (done + {p}) !! (todo - {p}) && |todo - {p}| < |todo|
  {
  }

  /** Taking one more pile's top card reveals that pile's next card, if any. */
  lemma RevealedAdd(s: GameState, done: set<Pos>, p: Pos)
    requires OnBoard(p) && p !in done
    ensures Revealed(s, done + {p}) == Revealed(s, done) + if |Pile(s, p)| > 1 then {Pile(s, p)[1]} else {}
  {
  }

  /** A hand keeps the board invariant. */
  lemma HandResultValid(s: GameState, hand: set<Pos>, t: GameState)
    requires AllVisible(s, hand) && IsHandResult(s, hand, t)
    requires Valid(s)
    ensures Valid(t)
  {
    forall p | OnBoard(p) && !IsPileEmpty(t, p)
      ensures Upcard(t, p) in t.dead
    {
      if p in hand {
        assert Upcard(t, p) in Revealed(s, hand);
      }
    }
  }

  // ----- queries -----

  /**
   * `upcard_nums()`: the upcard of every pile, `None` for an empty pile, as
   * a 3x3 list.
   */
  method UpcardNums(s: GameState) returns (u: seq<seq<Option<Cards.CardNum>>>)
    ensures |u| == 3 && forall r :: 0 <= r < 3 ==> |u[r]| == 3
    ensures forall p :: OnBoard(p) ==>
      u[p.0][p.1] == if IsPileEmpty(s, p) then None else Some(Upcard(s, p))
  {
    u := [[None, None, None], [None, None, None], [None, None, None]];
    var r := 0;
    while r < 3
      invariant 0 <= r <= 3
      invariant |u| == 3 && forall i :: 0 <= i < 3 ==> |u[i]| == 3
      invariant forall p :: OnBoard(p) ==>
        u[p.0][p.1] == if p.0 >= r || IsPileEmpty(s, p) then None else Some(Upcard(s, p))
    {
      var c := 0;
      while c < 3
        invariant 0 <= c <= 3
        invariant |u| == 3 && forall i :: 0 <= i < 3 ==> |u[i]| == 3
        invariant forall p :: OnBoard(p) ==>
          u[p.0][p.1] == if p.0 > r || (p.0 == r && p.1 >= c) || IsPileEmpty(s, p) then None else Some(Upcard(s, p))
      {
        if !IsPileEmpty(s, (r, c)) {
          u := u[r := u[r][c := Some(Upcard(s, (r, c)))]];
        }
        c := c + 1;
      }
      r := r + 1;
    }
  }
}
