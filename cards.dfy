/**
 * Cards, their integer identifiers, and the deck they are dealt from
 * (game/deck.py).
 */
module Cards {
  import opened Wrappers

  /** Ranks in index order: A, 2..9, T, J, Q, K. */
  const RANKS: string := "A23456789TJQK"
  /** Suits in index order: clubs, diamonds, hearts, spades. */
  const SUITS: string := "cdhs"

  /** A (rank, suit) pair before the constructor's checks. */
  datatype CardFace = CardFace(rank: char, suit: char)

  /** A card that passed the constructor's checks: its rank and suit are known. */
  type Card = c: CardFace | c.rank in RANKS && c.suit in SUITS witness CardFace('A', 'c')

  /** A dense card identifier. */
  type CardNum = n: int | 0 <= n < 52

  /** Decoding an identifier outside the table raises IndexError. */
  datatype CodecError = IndexError

  /** Position of the first occurrence of `x` in `s` (Python's `list.index`). */
  function IndexOf(s: string, x: char): (i: nat)
    requires x in s
    ensures i < |s| && s[i] == x
    ensures forall k :: 0 <= k < i ==> s[k] != x
  {
    if s[0] == x then 0 else 1 + IndexOf(s[1..], x)
  }

  /** In a string without repeated characters, `IndexOf` inverts indexing. */
  lemma IndexOfDistinct(s: string, i: nat)
    requires i < |s|
    requires forall a, b :: 0 <= a < b < |s| ==> s[a] != s[b]
    ensures IndexOf(s, s[i]) == i
  {
  }

  /** `Card.__init__`: the asserts on rank and suit, as an error path. */
  function NewCard(rank: char, suit: char): (r: Option<Card>)
    ensures r.Some? <==> rank in RANKS && suit in SUITS
    ensures r.Some? ==> r.value == CardFace(rank, suit)
  {
    if rank in RANKS && suit in SUITS then Some(CardFace(rank, suit)) else None
  }

  /** `Card.suit_idx`. */
  function SuitIdx(c: Card): (i: nat)
    ensures i < 4 && SUITS[i] == c.suit
  {
    IndexOf(SUITS, c.suit)
  }

  /** `Card.rank_idx`. */
  function RankIdx(c: Card): (i: nat)
    ensures i < 13 && RANKS[i] == c.rank
  {
    IndexOf(RANKS, c.rank)
  }

  /** The identifier of a card: `suit_idx * 13 + rank_idx`. */
  function Encode(c: Card): (n: CardNum)
    ensures n / 13 == SuitIdx(c) && n % 13 == RankIdx(c)
  {
    DeckIndex(SuitIdx(c), RankIdx(c));
    13 * SuitIdx(c) + RankIdx(c)
  }

  /** The card an in-range identifier stands for. */
  function Decode(n: CardNum): (c: Card)
    ensures c.rank == RANKS[n % 13] && c.suit == SUITS[n / 13]
  {
    CardFace(RANKS[n % 13], SUITS[n / 13])
  }

  /** `card_to_int`: `None` stays `None`. */
  function CardToInt(c: Option<Card>): (r: Option<CardNum>)
    ensures r.None? <==> c.None?
    ensures c.Some? ==> r.value / 13 == SuitIdx(c.value) && r.value % 13 == RankIdx(c.value)
    ensures c.Some? ==> Decode(r.value) == c.value
  {
    match c
    case None => None
    case Some(card) => Some(Encode(card))
  }

  /** Python's `int(a / b)` for a positive divisor: the quotient truncated toward zero. */
  function TruncDiv(a: int, b: int): int
    requires b > 0
  {
    if a >= 0 then a / b else -((-a) / b)
  }

  /** Python's `s[i]`: a negative index counts from the end; out of range is an IndexError. */
  function PyIndex<T>(s: seq<T>, i: int): (r: Option<T>)
    ensures r.Some? <==> -|s| <= i < |s|
  {
    if 0 <= i < |s| then Some(s[i])
    else if -|s| <= i < 0 then Some(s[|s| + i])
    else None
  }

  /**
   * `int_to_card`: `None` stays `None`; the suit index is `int(n / 13)` and the
   * rank index `n % 13` (Python's `%` is never negative for a positive divisor,
   * like Dafny's).
   */
  function IntToCard(n: Option<int>): (r: Result<Option<Card>, CodecError>)
    ensures n.None? ==> r == Ok(None)
    ensures n.Some? ==> (r.Ok? <==> -65 < n.value < 52)
    ensures n.Some? && r.Ok? ==> r.value.Some?
    ensures n.Some? && 0 <= n.value < 52 ==> r == Ok(Some(Decode(n.value)))
  {
    match n
    case None => Ok(None)
    case Some(k) =>
      var suit := PyIndex(SUITS, TruncDiv(k, |RANKS|));
      var rank := PyIndex(RANKS, k % |RANKS|);
      if suit.Some? && rank.Some? then Ok(Some(CardFace(rank.value, suit.value)))
      else Err(IndexError)
  }

  /** No rank and no suit is listed twice. */
  lemma TablesDistinct()
    ensures forall a, b :: 0 <= a < b < |RANKS| ==> RANKS[a] != RANKS[b]
    ensures forall a, b :: 0 <= a < b < |SUITS| ==> SUITS[a] != SUITS[b]
  {
  }

  /** Decoding then encoding an identifier gives it back. */
  lemma EncodeDecode(n: CardNum)
    ensures Encode(Decode(n)) == n
  {
    var c := Decode(n);
    TablesDistinct();
    IndexOfDistinct(RANKS, n % 13);
    IndexOfDistinct(SUITS, n / 13);
    assert RankIdx(c) == n % 13;
    assert SuitIdx(c) == n / 13;
  }

  /** Encoding then decoding a card gives it back. */
  lemma DecodeEncode(c: Card)
    ensures Decode(Encode(c)) == c
  {
  }

  /** `int_to_card(card_to_int(c)) == c` for every card and for `None`. */
  lemma CardToIntRoundTrip(c: Option<Card>)
    ensures IntToCard(CardToInt(c)) == Ok(c)
  {
    if c.Some? {
      DecodeEncode(c.value);
    }
  }

  /** `card_to_int(int_to_card(n)) == n` on the 52 identifiers, and for `None`. */
  lemma IntToCardRoundTrip(n: Option<int>)
    requires n.Some? ==> 0 <= n.value < 52
    ensures IntToCard(n).Ok? && CardToInt(IntToCard(n).value) == n
  {
    if n.Some? {
      EncodeDecode(n.value);
    }
  }

  /** Different cards have different identifiers. */
  lemma EncodeInjective(c: Card, d: Card)
    requires Encode(c) == Encode(d)
    ensures c == d
  {
    DecodeEncode(c);
    DecodeEncode(d);
  }

  /** The order `Deck.__init__` builds: for each suit, for each rank. */
  function NewDeckOrder(): (d: seq<Card>)
    ensures |d| == 52
    ensures forall n :: 0 <= n < 52 ==> d[n] == Decode(n)
  {
    seq(52, (n: int) requires 0 <= n < 52 => Decode(n))
  }

  /** In a list without repeats, every entry occurs exactly once. */
  lemma {:induction false} DistinctCount<T>(s: seq<T>, i: nat)
    requires i < |s|
    requires forall a, b :: 0 <= a < b < |s| ==> s[a] != s[b]
    ensures multiset(s)[s[i]] == 1
  {
    var x := s[i];
    assert s == s[..i] + [x] + s[i + 1..];
    assert x !in s[..i];
    assert x !in s[i + 1..];
    assert multiset(s) == multiset(s[..i]) + multiset{x} + multiset(s[i + 1..]);
  }

  /** A fresh deck holds each of the 52 cards exactly once. */
  lemma NewDeckHasEachCardOnce(c: Card)
    ensures multiset(NewDeckOrder())[c] == 1
  {
    var d := NewDeckOrder();
    forall a, b | 0 <= a < b < 52
      ensures d[a] != d[b]
    {
      EncodeDecode(a);
      EncodeDecode(b);
    }
    DecodeEncode(c);
    DistinctCount(d, Encode(c));
  }

  /** Python's `s[0:n]`. */
  function PyPrefix<T>(s: seq<T>, n: int): (r: seq<T>)
    ensures n >= 0 ==> r == s[..if n < |s| then n else |s|]
    ensures n < 0 ==> r == s[..if |s| + n > 0 then |s| + n else 0]
  {
    var k := if n >= 0 then n else |s| + n;
    if k <= 0 then [] else if k >= |s| then s else s[..k]
  }

  /** Python's `s[n:]`. */
  function PySuffix<T>(s: seq<T>, n: int): (r: seq<T>)
    ensures n >= 0 ==> r == s[if n < |s| then n else |s|..]
    ensures n < 0 ==> r == s[if |s| + n > 0 then |s| + n else 0..]
  {
    var k := if n >= 0 then n else |s| + n;
    if k <= 0 then s else if k >= |s| then [] else s[k..]
  }

  /** What `take` hands out and what it leaves behind split the deck in two, in order. */
  lemma PrefixSuffixSplit<T>(s: seq<T>, n: int)
    ensures PyPrefix(s, n) + PySuffix(s, n) == s
  {
    var k := if n >= 0 then n else |s| + n;
    if 0 < k < |s| {
      assert s[..k] + s[k..] == s;
    }
  }

  /** `list.remove(x)`: drop the first occurrence of `x`, if any. */
  function RemoveFirst<T(==)>(s: seq<T>, x: T): (r: seq<T>)
  {
    if s == [] then []
    else if s[0] == x then s[1..]
    else [s[0]] + RemoveFirst(s[1..], x)
  }

  /** Removing a present card shortens the list by one and drops exactly that card. */
  lemma {:induction false} RemoveFirstEffect<T>(s: seq<T>, x: T)
    ensures x in s ==> |RemoveFirst(s, x)| == |s| - 1
    ensures x in s ==> multiset(RemoveFirst(s, x)) == multiset(s) - multiset{x}
    ensures x !in s ==> RemoveFirst(s, x) == s
  {
    if s != [] {
      RemoveFirstEffect(s[1..], x);
      assert s == [s[0]] + s[1..];
      if s[0] != x {
        assert x in s ==> x in s[1..];
      }
    }
  }

  /** `random.shuffle`'s own loop: position i swaps with draw j in 0..i, from the back. */
  predicate ValidDraws(n: nat, draws: seq<nat>)
  {
    |draws| == (if n == 0 then 0 else n - 1) &&
    forall k :: 0 <= k < |draws| ==> draws[k] <= n - 1 - k
  }

  /** Swap two entries of a list. */
  function Swap<T>(s: seq<T>, i: nat, j: nat): (r: seq<T>)
    requires i < |s| && j < |s|
    ensures |r| == |s| && multiset(r) == multiset(s)
  {
    s[i := s[j]][j := s[i]]
  }

  /** The card of suit s and rank r comes next after the cards before it. */
  lemma NewDeckStep(s: nat, r: nat)
    requires s < 4 && r < 13
    ensures NewDeckOrder()[..13 * s + r + 1] == NewDeckOrder()[..13 * s + r] + [CardFace(RANKS[r], SUITS[s])]
  {
    var n := 13 * s + r;
    DeckIndex(s, r);
    assert NewDeckOrder()[n] == CardFace(RANKS[r], SUITS[s]);
  }

  /** Entry 13 * s + r of the deck is in suit s and of rank r. */
  lemma DeckIndex(s: nat, r: nat)
    requires r < 13
    ensures (13 * s + r) / 13 == s && (13 * s + r) % 13 == r
  {
  }

  /** The loop of `Deck.__init__` that lists the 52 cards, for each suit, for each rank. */
  method BuildNewDeck() returns (built: seq<Card>)
    ensures built == NewDeckOrder()
  {
    built := [];
    var s := 0;
    while s < 4
      invariant 0 <= s <= 4
      invariant built == NewDeckOrder()[..13 * s]
    {
      var r := 0;
      while r < 13
        invariant 0 <= r <= 13
        invariant built == NewDeckOrder()[..13 * s + r]
      {
        NewDeckStep(s, r);
        built := built + [CardFace(RANKS[r], SUITS[s])];
        r := r + 1;
      }
      s := s + 1;
    }
  }

  /**
   * `random.shuffle`: from the back, position i swaps with a drawn position in
   * 0..i. The draws of the random generator are a parameter.
   */
  method Shuffle<T>(s: seq<T>, draws: seq<nat>) returns (r: seq<T>)
    requires ValidDraws(|s|, draws)
    ensures |r| == |s| && multiset(r) == multiset(s)
  {
    r := s;
    var i := |s| - 1;
    while i >= 1
      invariant -1 <= i < |s| || |s| == 0
      invariant |s| > 0 ==> 0 <= i + 1
      invariant |r| == |s| && multiset(r) == multiset(s)
    {
      r := Swap(r, i, draws[|s| - 1 - i]);
      i := i - 1;
    }
  }

  /** A list of cards used as a buffer: the front card is dealt first. */
  class Deck {
    var cards: seq<Card>

    /** `Deck(seed, cards)`: the given cards, or the 52 cards of a new deck, then shuffled. */
    constructor (given: Option<seq<Card>>, draws: seq<nat>)
      requires ValidDraws(if given.Some? then |given.value| else 52, draws)
      ensures multiset(cards) == multiset(if given.Some? then given.value else NewDeckOrder())
    {
      var start: seq<Card>;
      if given.Some? {
        start := given.value;
      } else {
        start := BuildNewDeck();
      }
      var shuffled := Shuffle(start, draws);
      cards := shuffled;
    }

    /** `len(deck)`. */
    function Length(): (n: nat)
      reads this
      ensures n == |cards|
    {
      |cards|
    }

    /** `peek(n)`: the first n cards (Python slice rules), leaving the deck alone. */
    function Peek(n: int): (r: seq<Card>)
      reads this
      ensures n >= 0 ==> r == cards[..if n < |cards| then n else |cards|]
      ensures r <= cards
    {
      PyPrefix(cards, n)
    }

    /** `take(n)`: hand out the first min(n, len) cards and keep the rest in order. */
    method Take(n: int) returns (taken: seq<Card>)
      modifies this
      ensures taken + cards == old(cards)
      ensures n >= 0 ==> taken == old(cards)[..if n < |old(cards)| then n else |old(cards)|]
      ensures n >= 0 ==> cards == old(cards)[if n < |old(cards)| then n else |old(cards)|..]
    {
      var m := if |cards| < n then |cards| else n;
      PrefixSuffixSplit(cards, m);
      taken := PyPrefix(cards, m);
      cards := PySuffix(cards, m);
    }

    /** `remove(card)`: drop the first equal card when there is one. */
    method Remove(card: Card)
      modifies this
      ensures cards == RemoveFirst(old(cards), card)
      ensures card in old(cards) ==> |cards| == |old(cards)| - 1
      ensures card !in old(cards) ==> cards == old(cards)
      ensures multiset(cards) == multiset(old(cards)) - multiset{card}
    {
      RemoveFirstEffect(cards, card);
      if card in cards {
        cards := RemoveFirst(cards, card);
      }
    }
  }
}
