/**
 * The hand detectors of game/gamestate.py. A hand is a set of board
 * positions whose upcards form a scoring pattern. Every detector first
 * groups the visible positions by the rank (or suit) of their upcards, in
 * row-major order, then enumerates candidate hands with `combinations` or
 * `product`, and the rank-based detectors finally drop the hands that lie in
 * a single row.
 *
 * The source groups by the rank letter and the suit letter; as the letters
 * are distinct, grouping by rank index and suit index is the same grouping.
 * The source walks the ranks that qualify as a Python set, whose order is not
 * fixed; here they are walked in ascending order, and the properties proved
 * are the ones that do not depend on that order: which hands are listed, and
 * that none is listed twice.
 */
module SageHands {
  import opened Wrappers
  import opened Combinatorics
  import opened SageBoard

  /** Pile p is on the board and shows a card. */
  predicate Visible(s: GameState, p: Pos)
  {
    OnBoard(p) && !IsPileEmpty(s, p)
  }

  /** The grouping key of the upcard at p: its suit index, or else its rank index. */
  function Key(s: GameState, p: Pos, bySuit: bool): (key: int)
    requires Visible(s, p)
    ensures 0 <= key < KeyCount(bySuit)
  {
    if bySuit then Suit(Upcard(s, p)) else Rank(Upcard(s, p))
  }

  /** How many keys there are: 4 suits or 13 ranks. */
  function KeyCount(bySuit: bool): int
  {
    if bySuit then 4 else 13
  }

  /** Every position of h shows a card whose key is `key`. */
  ghost predicate AllKeyed(s: GameState, h: set<Pos>, bySuit: bool, key: int)
  {
    forall p :: p in h ==> Visible(s, p) && Key(s, p, bySuit) == key
  }

  /** The hand does not lie in a single row. */
  ghost predicate SpansRows(h: set<Pos>)
  {
    exists p, q :: p in h && q in h && p.0 != q.0
  }

  /** `SpansRows` is the condition `make_hand` asserts on the selected rows. */
  lemma SpansRowsIffRows(h: set<Pos>)
    ensures SpansRows(h) <==> |Rows(h)| > 1
  {
    if SpansRows(h) {
      var p, q :| p in h && q in h && p.0 != q.0;
      assert {p.0, q.0} <= Rows(h);
      SubsetCard({p.0, q.0}, Rows(h));
    }
    if |Rows(h)| > 1 {
      assert Rows(h) != {};
      var a :| a in Rows(h);
      if forall b :: b in Rows(h) ==> b == a {
        SubsetCard(Rows(h), {a});
      }
      var b :| b in Rows(h) && b != a;
      var p :| p in h && p.0 == a;
      var q :| q in h && q.0 == b;
      assert p.0 != q.0;
    }
  }

  /** Five positions of the board never lie in one row, which holds only three. */
  lemma FiveSpanRows(h: set<Pos>)
    requires |h| == 5 && forall p :: p in h ==> OnBoard(p)
    ensures SpansRows(h)
  {
    var p :| p in h;
    if !SpansRows(h) {
      assert h <= {(p.0, 0), (p.0, 1), (p.0, 2)};
      SubsetCard(h, {(p.0, 0), (p.0, 1), (p.0, 2)});
    }
  }

  // ----- grouping the visible positions -----

  /** Positions on the board, in strictly increasing row-major order. */
  predicate RowMajor(l: seq<Pos>)
  {
    && (forall i :: 0 <= i < |l| ==> OnBoard(l[i]))
    && (forall i, j :: 0 <= i < j < |l| ==> Idx(l[i]) < Idx(l[j]))
  }

  lemma RowMajorDistinct(l: seq<Pos>)
    requires RowMajor(l)
    ensures Distinct(l)
  {
  }

  /** The grouping after the positions before row-major index k have been visited. */
  ghost predicate GroupedBefore(s: GameState, bySuit: bool, locs: seq<seq<Pos>>, k: int)
  {
    && |locs| == KeyCount(bySuit)
    && (forall key :: 0 <= key < |locs| ==> RowMajor(locs[key]))
    && (forall key, i :: 0 <= key < |locs| && 0 <= i < |locs[key]| ==> Idx(locs[key][i]) < k)
    && (forall key, p :: 0 <= key < |locs| ==>
          (p in locs[key] <==> Visible(s, p) && Idx(p) < k && Key(s, p, bySuit) == key))
  }

  /** Visiting a position that shows a card appends it to the list of its key. */
  lemma GroupedAdd(s: GameState, bySuit: bool, locs: seq<seq<Pos>>, p: Pos, k: int)
    requires OnBoard(p) && k == Idx(p) && Visible(s, p)
    requires GroupedBefore(s, bySuit, locs, k)
    ensures GroupedBefore(s, bySuit, locs[Key(s, p, bySuit) := locs[Key(s, p, bySuit)] + [p]], k + 1)
  {
    var key := Key(s, p, bySuit);
    var locs' := locs[key := locs[key] + [p]];
    forall key', q | 0 <= key' < |locs'|
      ensures q in locs'[key'] <==> Visible(s, q) && Idx(q) < k + 1 && Key(s, q, bySuit) == key'
    {
      if OnBoard(q) && Idx(q) == k {
        IdxInjective(p, q);
      }
    }
  }

  /** Visiting an empty pile changes no list. */
  lemma GroupedSkip(s: GameState, bySuit: bool, locs: seq<seq<Pos>>, p: Pos, k: int)
    requires OnBoard(p) && k == Idx(p) && !Visible(s, p)
    requires GroupedBefore(s, bySuit, locs, k)
    ensures GroupedBefore(s, bySuit, locs, k + 1)
  {
    forall key', q | 0 <= key' < |locs|
      ensures q in locs[key'] <==> Visible(s, q) && Idx(q) < k + 1 && Key(s, q, bySuit) == key'
    {
      if OnBoard(q) && Idx(q) == k {
        IdxInjective(p, q);
      }
    }
  }

  lemma IdxInjective(p: Pos, q: Pos)
    requires OnBoard(p) && OnBoard(q) && Idx(p) == Idx(q)
    ensures p == q
  {
  }

  /**
   * The `card_rank_locations` (or `card_suit_locations`) dictionary every
   * detector builds: for each key, the visible positions whose upcard has
   * that key, in row-major order. A key no upcard has maps to the empty list,
   * which every detector treats like a missing key.
   */
  method GroupLocations(s: GameState, bySuit: bool) returns (locs: seq<seq<Pos>>)
    ensures Grouped(s, bySuit, locs)
  {
    locs := seq(KeyCount(bySuit), _ => []);
    var r := 0;
    while r < 3
      invariant 0 <= r <= 3
      invariant GroupedBefore(s, bySuit, locs, 3 * r)
    {
      var c := 0;
      while c < 3
        invariant 0 <= c <= 3
        invariant GroupedBefore(s, bySuit, locs, 3 * r + c)
      {
        locs := VisitPile(s, bySuit, locs, r, c);
        c := c + 1;
      }
      r := r + 1;
    }
    GroupedAll(s, bySuit, locs);
  }

  /** One pass of the inner loop of the grouping: the upcard of pile (r, c), if any, joins the list of its key. */
  method VisitPile(s: GameState, bySuit: bool, locs: seq<seq<Pos>>, r: int, c: int) returns (locs': seq<seq<Pos>>)
    requires 0 <= r < 3 && 0 <= c < 3 && GroupedBefore(s, bySuit, locs, 3 * r + c)
    ensures GroupedBefore(s, bySuit, locs', 3 * r + c + 1)
  {
    assert Idx((r, c)) == 3 * r + c;
    if !IsPileEmpty(s, (r, c)) {
      GroupedAdd(s, bySuit, locs, (r, c), 3 * r + c);
      var key := Key(s, (r, c), bySuit);
      locs' := locs[key := locs[key] + [(r, c)]];
    } else {
      GroupedSkip(s, bySuit, locs, (r, c), 3 * r + c);
      locs' := locs;
    }
  }

  /**
   * For each key, the visible positions whose upcard has that key, in
   * row-major order.
   */
  ghost predicate Grouped(s: GameState, bySuit: bool, locs: seq<seq<Pos>>)
  {
    && |locs| == KeyCount(bySuit)
    && (forall key :: 0 <= key < |locs| ==> RowMajor(locs[key]))
    && (forall key, p :: 0 <= key < |locs| ==> (p in locs[key] <==> Visible(s, p) && Key(s, p, bySuit) == key))
  }

  /** Once all nine positions are visited, the grouping covers every visible position. */
  lemma GroupedAll(s: GameState, bySuit: bool, locs: seq<seq<Pos>>)
    requires GroupedBefore(s, bySuit, locs, 9)
    ensures Grouped(s, bySuit, locs)
  {
  }

  // ----- `_ignore_invalid_hands` -----

  /** The hands that do not lie in a single row, in their original order. */
  ghost function KeepSpanning(hands: seq<set<Pos>>): seq<set<Pos>>
  {
    if hands == [] then []
    else KeepSpanning(hands[..|hands| - 1]) + if SpansRows(hands[|hands| - 1]) then [hands[|hands| - 1]] else []
  }

  /** The filter keeps exactly the hands that span rows, and lists none twice that was listed once. */
  lemma {:induction false} KeepSpanningMembers(hands: seq<set<Pos>>)
    ensures forall h :: h in KeepSpanning(hands) <==> h in hands && SpansRows(h)
    ensures Distinct(hands) ==> Distinct(KeepSpanning(hands))
  {
    if hands != [] {
      var init := hands[..|hands| - 1];
      var last := hands[|hands| - 1];
      assert hands == init + [last];
      KeepSpanningMembers(init);
      if Distinct(hands) {
        assert Distinct(init);
        assert last !in init;
        DistinctConcat(KeepSpanning(init), if SpansRows(last) then [last] else []);
      }
    }
  }

  /** Whether the positions of a hand are not all in one row, scanning the set as the source does. */
  method ScanSpansRows(hand: set<Pos>) returns (valid: bool)
    ensures valid == SpansRows(hand)
  {
    valid := false;
    var handRow: Option<int> := None;
    var rest := hand;
    ghost var seen: set<Pos> := {};
    ghost var first: Pos, other: Pos := (0, 0), (0, 0);
    while rest != {}
      invariant seen + rest == hand && seen !! rest
      invariant handRow.None? <==> seen == {}
      invariant handRow.None? ==> !valid
      invariant handRow.Some? ==> first in seen && handRow.value == first.0
      invariant valid ==> other in seen && other.0 != first.0
      invariant handRow.Some? && !valid ==> forall q :: q in seen ==> q.0 == first.0
      decreases |rest|
    {
      var loc :| loc in rest;
      if handRow.None? {
        handRow := Some(loc.0);
        first := loc;
      } else if loc.0 != handRow.value {
        valid := true;
        other := loc;
      }
      rest := rest - {loc};
      seen := seen + {loc};
    }
    assert seen == hand;
  }

  /** `_ignore_invalid_hands(hands)`: drop the hands whose positions all lie in one row. */
  method IgnoreInvalidHands(hands: seq<set<Pos>>) returns (valid: seq<set<Pos>>)
    ensures valid == KeepSpanning(hands)
  {
    valid := [];
    var i := 0;
    while i < |hands|
      invariant 0 <= i <= |hands|
      invariant valid == KeepSpanning(hands[..i])
    {
      assert hands[..i + 1][..i] == hands[..i];
      var spans := ScanSpansRows(hands[i]);
      if spans {
        valid := valid + [hands[i]];
      }
      i := i + 1;
    }
    assert hands[..i] == hands;
  }

  // ----- hands of one key: pairs, trips, quads and flushes -----

  /** `combinations(locations, k)` of one key's locations: the k-sets of positions showing that key, each once. */
  lemma KeyedCombinations(s: GameState, bySuit: bool, l: seq<Pos>, key: int, k: nat)
    requires RowMajor(l)
    requires forall p :: p in l <==> Visible(s, p) && Key(s, p, bySuit) == key
    ensures forall h :: h in SetsOf(Combinations(l, k)) <==> |h| == k && AllKeyed(s, h, bySuit, key)
    ensures Distinct(SetsOf(Combinations(l, k)))
  {
    RowMajorDistinct(l);
    forall h
      ensures h in SetsOf(Combinations(l, k)) <==> |h| == k && AllKeyed(s, h, bySuit, key)
    {
      KeyedCombinationsMember(s, bySuit, l, key, k, h);
    }
    CombinationsDistinct(l, k);
  }

  lemma KeyedCombinationsMember(s: GameState, bySuit: bool, l: seq<Pos>, key: int, k: nat, h: set<Pos>)
    requires Distinct(l)
    requires forall p :: p in l <==> Visible(s, p) && Key(s, p, bySuit) == key
    ensures h in SetsOf(Combinations(l, k)) <==> |h| == k && AllKeyed(s, h, bySuit, key)
  {
    if h in SetsOf(Combinations(l, k)) {
      CombinationsSound(l, k, h);
      forall p | p in h ensures Visible(s, p) && Key(s, p, bySuit) == key { assert p in l; }
    }
    if |h| == k && AllKeyed(s, h, bySuit, key) {
      forall p | p in h ensures p in Elems(l) { assert p in l; }
      CombinationsComplete(l, k, h);
    }
  }

  /** The hands collected once the keys below `key` have been visited. */
  ghost predicate KeyedBefore(s: GameState, bySuit: bool, k: nat, all: seq<set<Pos>>, key: int)
  {
    && Distinct(all)
    && forall h :: h in all <==> |h| == k && exists key' :: 0 <= key' < key && AllKeyed(s, h, bySuit, key')
  }

  lemma KeyedStep(s: GameState, bySuit: bool, k: nat, all: seq<set<Pos>>, more: seq<set<Pos>>, key: int)
    requires k > 0
    requires KeyedBefore(s, bySuit, k, all, key)
    requires Distinct(more) && forall h :: h in more <==> |h| == k && AllKeyed(s, h, bySuit, key)
    ensures KeyedBefore(s, bySuit, k, all + more, key + 1)
  {
    forall h | h in all
      ensures h !in more
    {
      var key' :| 0 <= key' < key && AllKeyed(s, h, bySuit, key');
      assert h != {};
      var p :| p in h;
    }
    DistinctConcat(all, more);
  }

  /**
   * The hands of k positions whose upcards share a key: for each key held by
   * at least k upcards, `combinations(locations, k)` as sets.
   */
  method KeyedSubsets(s: GameState, bySuit: bool, k: nat) returns (all: seq<set<Pos>>)
    requires k > 0
    ensures Distinct(all)
    ensures forall h :: h in all <==>
      |h| == k && exists key :: 0 <= key < KeyCount(bySuit) && AllKeyed(s, h, bySuit, key)
  {
    var locs := GroupLocations(s, bySuit);
    all := [];
    var key := 0;
    while key < |locs|
      invariant 0 <= key <= |locs|
      invariant KeyedBefore(s, bySuit, k, all, key)
    {
      KeyedCombinations(s, bySuit, locs[key], key, k);
      if |locs[key]| >= k {
        KeyedStep(s, bySuit, k, all, SetsOf(Combinations(locs[key], k)), key);
        all := all + SetsOf(Combinations(locs[key], k));
      } else {
        KeyedStep(s, bySuit, k, all, [], key);
        assert all + [] == all;
      }
      key := key + 1;
    }
  }

  /** k positions, not all in one row, whose upcards share a rank. */
  ghost predicate IsSameRankHand(s: GameState, h: set<Pos>, k: nat)
  {
    && |h| == k
    && (exists rank :: 0 <= rank < 13 && AllKeyed(s, h, false, rank))
    && SpansRows(h)
  }

  /**
   * `_get_pair_hands` (k = 2), `_get_trip_hands` (k = 3) and
   * `_get_quad_hands` (k = 4): the k-sets of same-rank upcards, without those
   * lying in one row.
   */
  method SameRankHands(s: GameState, k: nat) returns (hands: seq<set<Pos>>)
    requires 2 <= k <= 4
    ensures forall h :: h in hands <==> IsSameRankHand(s, h, k)
    ensures Distinct(hands)
  {
    var all := KeyedSubsets(s, false, k);
    hands := IgnoreInvalidHands(all);
    KeepSpanningMembers(all);
  }

  /** Five positions whose upcards share a suit. */
  ghost predicate IsFlush(s: GameState, h: set<Pos>)
  {
    |h| == 5 && exists suit :: 0 <= suit < 4 && AllKeyed(s, h, true, suit)
  }

  /** `_get_flush_hands`: the 5-sets of same-suit upcards, with no row filter. */
  method FlushHands(s: GameState) returns (hands: seq<set<Pos>>)
    ensures forall h :: h in hands <==> IsFlush(s, h)
    ensures Distinct(hands)
  {
    hands := KeyedSubsets(s, true, 5);
  }

  /** The flush detector needs no row filter: a flush never lies in one row. */
  lemma FlushSpansRows(s: GameState, h: set<Pos>)
    requires IsFlush(s, h)
    ensures SpansRows(h)
  {
    FiveSpanRows(h);
  }

  // ----- straights -----

  /** `wrapping_card_ranks`: A, 2, ..., K and A again, as rank indices. */
  const WRAPPING_RANKS: seq<int> := [0, 1, 2, 3, 4, 5, 6, 7, 8, 9, 10, 11, 12, 0]

  /** The wrapping list is the rank indices read around the circle from the ace. */
  lemma WrappingRanksMod(k: int)
    requires 0 <= k < |WRAPPING_RANKS|
    ensures WRAPPING_RANKS[k] == k % 13
  {
  }

  /** The ranks of the straight starting at entry i of the wrapping list. */
  function Window(len: nat, i: int): (w: seq<int>)
    requires 0 <= i <= |WRAPPING_RANKS| - len
    ensures |w| == len
  {
    WRAPPING_RANKS[i..i + len]
  }

  /** A window of at most 13 ranks has no repeated rank. */
  lemma WindowDistinct(len: nat, i: int)
    requires len <= 13 && 0 <= i <= |WRAPPING_RANKS| - len
    ensures Distinct(Window(len, i))
  {
    forall a, b | 0 <= a < b < len
      ensures Window(len, i)[a] != Window(len, i)[b]
    {
      WrappingRanksMod(i + a);
      WrappingRanksMod(i + b);
    }
  }

  /** A later window holds a rank an earlier one of the same length lacks. */
  lemma WindowsDiffer(len: nat, i: int, i': int)
    requires 2 <= len <= 5 && 0 <= i < i' <= |WRAPPING_RANKS| - len
    ensures exists j :: 0 <= j < len && Window(len, i')[j] !in Window(len, i)
  {
    var j := if i' + len - 1 <= 12 || i != 0 then len - 1 else len - 2;
    WrappingRanksMod(i' + j);
    assert Window(len, i')[j] == WRAPPING_RANKS[i' + j];
    forall a | 0 <= a < len
      ensures Window(len, i)[a] != Window(len, i')[j]
    {
      WrappingRanksMod(i + a);
      assert Window(len, i)[a] == WRAPPING_RANKS[i + a];
    }
  }

  /** h holds exactly one visible position for each rank of the window w. */
  ghost predicate StraightOf(s: GameState, h: set<Pos>, w: seq<int>)
  {
    && |h| == |w|
    && (forall p :: p in h ==> Visible(s, p) && Key(s, p, false) in w)
    && (forall j :: 0 <= j < |w| ==> exists p :: p in h && Visible(s, p) && Key(s, p, false) == w[j])
  }

  /** A straight of `len` cards: one position per rank of a window, not all in one row. */
  ghost predicate IsStraight(s: GameState, h: set<Pos>, len: nat)
  {
    && (exists i :: 0 <= i <= |WRAPPING_RANKS| - len && StraightOf(s, h, Window(len, i)))
    && SpansRows(h)
  }

  /** The lists handed to `product` for a window: the locations of each of its ranks. */
  ghost predicate WindowLocations(s: GameState, w: seq<int>, lists: seq<seq<Pos>>)
  {
    && |lists| == |w|
    && (forall j :: 0 <= j < |w| ==> RowMajor(lists[j]))
    && (forall j, p :: 0 <= j < |w| ==> (p in lists[j] <==> Visible(s, p) && Key(s, p, false) == w[j]))
  }

  /** Two sets of the same size, one inside the other, are equal. */
  lemma SubsetSameCard<T>(a: set<T>, b: set<T>)
    requires a <= b && |a| == |b|
    ensures a == b
  {
    assert b == a + (b - a);
  }

  /** A tuple of the product picks positions of pairwise different ranks, so it has no repeats. */
  lemma PickDistinct(s: GameState, w: seq<int>, lists: seq<seq<Pos>>, t: seq<Pos>)
    requires Distinct(w) && WindowLocations(s, w, lists) && PicksFrom(t, lists)
    ensures Distinct(t)
  {
    forall a, b | 0 <= a < b < |t|
      ensures t[a] != t[b]
    {
      assert t[a] in lists[a] && t[b] in lists[b];
      assert Key(s, t[a], false) == w[a] && Key(s, t[b], false) == w[b];
    }
  }

  /** A visible position of h for the given rank. */
  ghost function PickOfRank(s: GameState, h: set<Pos>, rank: int): (p: Pos)
    requires exists p :: p in h && Visible(s, p) && Key(s, p, false) == rank
    ensures p in h && Visible(s, p) && Key(s, p, false) == rank
  {
    var p :| p in h && Visible(s, p) && Key(s, p, false) == rank; p
  }

  /** The sets of `product(*lists)` for a window are exactly the straights of that window. */
  lemma WindowHandsMember(s: GameState, w: seq<int>, lists: seq<seq<Pos>>, h: set<Pos>)
    requires Distinct(w) && WindowLocations(s, w, lists)
    ensures h in SetsOf(Product(lists)) <==> StraightOf(s, h, w)
  {
    if h in SetsOf(Product(lists)) {
      var n :| 0 <= n < |Product(lists)| && SetsOf(Product(lists))[n] == h;
      ProductMembers(lists);
      WindowHandSound(s, w, lists, Product(lists)[n]);
    }
    if StraightOf(s, h, w) {
      WindowHandComplete(s, w, lists, h);
    }
  }

  /** The set of a tuple that picks one location per rank of the window is a straight of that window. */
  lemma WindowHandSound(s: GameState, w: seq<int>, lists: seq<seq<Pos>>, t: seq<Pos>)
    requires Distinct(w) && WindowLocations(s, w, lists) && PicksFrom(t, lists)
    ensures StraightOf(s, Elems(t), w)
  {
    var h := Elems(t);
    PickDistinct(s, w, lists, t);
    ElemsCard(t);
    forall p | p in h
      ensures Visible(s, p) && Key(s, p, false) in w
    {
      var j :| 0 <= j < |t| && t[j] == p;
      assert p in lists[j];
    }
    forall j | 0 <= j < |w|
      ensures exists p :: p in h && Visible(s, p) && Key(s, p, false) == w[j]
    {
      assert t[j] in lists[j] && t[j] in h;
    }
  }

  /** Every straight of the window is the set of a tuple of `product(*lists)`. */
  lemma WindowHandComplete(s: GameState, w: seq<int>, lists: seq<seq<Pos>>, h: set<Pos>)
    requires Distinct(w) && WindowLocations(s, w, lists) && StraightOf(s, h, w)
    ensures h in SetsOf(Product(lists))
  {
    var t := PicksOfRanks(s, w, lists, h);
    PickedInSets(lists, t);
  }

  /** A straight of the window, read one rank at a time, is a tuple that picks from every list. */
  lemma PicksOfRanks(s: GameState, w: seq<int>, lists: seq<seq<Pos>>, h: set<Pos>) returns (t: seq<Pos>)
    requires Distinct(w) && WindowLocations(s, w, lists) && StraightOf(s, h, w)
    ensures PicksFrom(t, lists) && Elems(t) == h
  {
    t := seq(|w|, j requires 0 <= j < |w| => PickOfRank(s, h, w[j]));
    forall j | 0 <= j < |w|
      ensures t[j] in lists[j]
    {
      assert t[j] == PickOfRank(s, h, w[j]);
    }
    PickDistinct(s, w, lists, t);
    ElemsCard(t);
    SubsetSameCard(Elems(t), h);
  }

  /** The set of a tuple that picks from every list is a set of the product. */
  lemma PickedInSets(lists: seq<seq<Pos>>, t: seq<Pos>)
    requires PicksFrom(t, lists)
    ensures Elems(t) in SetsOf(Product(lists))
  {
    ProductMembers(lists);
    var n := Find(Product(lists), t);
    assert SetsOf(Product(lists))[n] == Elems(t);
  }

  /** Different tuples of the product have different sets, so the window lists no hand twice. */
  lemma WindowHandsDistinct(s: GameState, w: seq<int>, lists: seq<seq<Pos>>)
    requires Distinct(w) && WindowLocations(s, w, lists)
    ensures Distinct(SetsOf(Product(lists)))
  {
    forall j | 0 <= j < |lists|
      ensures Distinct(lists[j])
    {
      RowMajorDistinct(lists[j]);
    }
    ProductMembers(lists);
    var P := Product(lists);
    forall a, b | 0 <= a < b < |P|
      ensures SetsOf(P)[a] != SetsOf(P)[b]
    {
      if SetsOf(P)[a] == SetsOf(P)[b] {
        assert P[a] in P && P[b] in P;
        PicksElemsInjective(s, w, lists, P[a], P[b]);
      }
    }
  }

  /** Two tuples picking one location per rank of the window with the same set are the same tuple. */
  lemma PicksElemsInjective(s: GameState, w: seq<int>, lists: seq<seq<Pos>>, t: seq<Pos>, u: seq<Pos>)
    requires Distinct(w) && WindowLocations(s, w, lists)
    requires PicksFrom(t, lists) && PicksFrom(u, lists) && Elems(t) == Elems(u)
    ensures t == u
  {
    forall j | 0 <= j < |t|
      ensures t[j] == u[j]
    {
      assert t[j] in Elems(u);
      var j' :| 0 <= j' < |u| && u[j'] == t[j];
      assert t[j] in lists[j] && u[j'] in lists[j'];
      assert Key(s, t[j], false) == w[j] && Key(s, u[j'], false) == w[j'];
    }
  }

  /** When some rank of the window shows on no pile, the window has no straight. */
  lemma NoStraightWithout(s: GameState, w: seq<int>, lists: seq<seq<Pos>>, j: int)
    requires WindowLocations(s, w, lists) && 0 <= j < |w| && |lists[j]| == 0
    ensures forall h :: !StraightOf(s, h, w)
  {
  }

  /** The straights collected once the windows starting before entry i have been visited. */
  ghost predicate StraightsBefore(s: GameState, len: nat, all: seq<set<Pos>>, i: int)
    requires 0 <= i <= |WRAPPING_RANKS| - len + 1
  {
    && Distinct(all)
    && forall h :: h in all <==> exists i' :: 0 <= i' < i && StraightOf(s, h, Window(len, i'))
  }

  lemma StraightsStep(s: GameState, len: nat, all: seq<set<Pos>>, more: seq<set<Pos>>, i: int)
    requires 2 <= len <= 5 && 0 <= i <= |WRAPPING_RANKS| - len
    requires StraightsBefore(s, len, all, i)
    requires Distinct(more) && forall h :: h in more <==> StraightOf(s, h, Window(len, i))
    ensures StraightsBefore(s, len, all + more, i + 1)
  {
    forall h | h in all
      ensures h !in more
    {
      var i' :| 0 <= i' < i && StraightOf(s, h, Window(len, i'));
      WindowsDiffer(len, i', i);
    }
    DistinctConcat(all, more);
  }

  /** Every entry of a window is a rank index. */
  lemma WindowRanks(len: nat, i: int)
    requires 0 <= i <= |WRAPPING_RANKS| - len
    ensures forall j :: 0 <= j < len ==> 0 <= Window(len, i)[j] < 13
  {
    forall j | 0 <= j < len
      ensures 0 <= Window(len, i)[j] < 13
    {
      WrappingRanksMod(i + j);
    }
  }

  /** `straight_rank_locations`: the location list of each rank of the window. */
  function RankLists(locs: seq<seq<Pos>>, w: seq<int>): (lists: seq<seq<Pos>>)
    requires forall j :: 0 <= j < |w| ==> 0 <= w[j] < |locs|
    ensures |lists| == |w|
  {
    seq(|w|, j requires 0 <= j < |w| => locs[w[j]])
  }

  /** A window whose ranks all show contributes the sets of `product(*lists)`, which are its straights. */
  lemma WindowFound(s: GameState, len: nat, locs: seq<seq<Pos>>, all: seq<set<Pos>>, i: int)
    requires 2 <= len <= 5 && 0 <= i <= |WRAPPING_RANKS| - len
    requires Grouped(s, false, locs) && StraightsBefore(s, len, all, i)
    requires forall j :: 0 <= j < len ==> 0 <= Window(len, i)[j] < 13
    ensures StraightsBefore(s, len, all + SetsOf(Product(RankLists(locs, Window(len, i)))), i + 1)
  {
    var w := Window(len, i);
    var lists := RankLists(locs, w);
    WindowDistinct(len, i);
    assert WindowLocations(s, w, lists);
    forall h
      ensures h in SetsOf(Product(lists)) <==> StraightOf(s, h, w)
    {
      WindowHandsMember(s, w, lists, h);
    }
    WindowHandsDistinct(s, w, lists);
    StraightsStep(s, len, all, SetsOf(Product(lists)), i);
  }

  /** A window with a rank that shows nowhere has no straight. */
  lemma WindowMissing(s: GameState, len: nat, locs: seq<seq<Pos>>, all: seq<set<Pos>>, i: int, missing: int)
    requires 2 <= len <= 5 && 0 <= i <= |WRAPPING_RANKS| - len
    requires Grouped(s, false, locs) && StraightsBefore(s, len, all, i)
    requires forall j :: 0 <= j < len ==> 0 <= Window(len, i)[j] < 13
    requires 0 <= missing < len && |locs[Window(len, i)[missing]]| == 0
    ensures StraightsBefore(s, len, all, i + 1)
  {
    var w := Window(len, i);
    var lists := RankLists(locs, w);
    assert WindowLocations(s, w, lists);
    NoStraightWithout(s, w, lists, missing);
    StraightsStep(s, len, all, [], i);
    assert all + [] == all;
  }

  /**
   * `_get_sm_straight_hands` (len = 3) and `_get_lg_straight_hands`
   * (len = 5): for every window of the wrapping rank list whose ranks all show,
   * every choice of one location per rank, without the hands lying in one row.
   */
  method StraightHands(s: GameState, len: nat) returns (hands: seq<set<Pos>>)
    requires len == 3 || len == 5
    ensures forall h :: h in hands <==> IsStraight(s, h, len)
    ensures Distinct(hands)
  {
    var locs := GroupLocations(s, false);
    var all: seq<set<Pos>> := [];
    var i := 0;
    while i < |WRAPPING_RANKS| - (len - 1)
      invariant 0 <= i <= |WRAPPING_RANKS| - (len - 1)
      invariant StraightsBefore(s, len, all, i)
    {
      var window := WRAPPING_RANKS[i..i + len];
      assert window == Window(len, i);
      WindowRanks(len, i);
      var possible := true;
      ghost var missing := 0;
      for j := 0 to len
        invariant !possible ==> 0 <= missing < len && |locs[window[missing]]| == 0
      {
        if |locs[window[j]]| == 0 {
          possible := false;
          missing := j;
        }
      }
      if possible {
        WindowFound(s, len, locs, all, i);
        var lists := RankLists(locs, window);
        all := all + SetsOf(Product(lists));
      } else {
        WindowMissing(s, len, locs, all, i, missing);
      }
      i := i + 1;
    }
    hands := IgnoreInvalidHands(all);
    KeepSpanningMembers(all);
  }

  /** K-A-2 is no 3-straight: the only windows through the second ace end there. */
  lemma KingAceTwoIsNoWindow()
    ensures forall i :: 0 <= i <= |WRAPPING_RANKS| - 3 ==> Window(3, i) != [12, 0, 1]
  {
    forall i | 0 <= i <= |WRAPPING_RANKS| - 3
      ensures Window(3, i) != [12, 0, 1]
    {
      if Window(3, i) == [12, 0, 1] {
        WrappingRanksMod(i);
        WrappingRanksMod(i + 1);
      }
    }
  }

  // ----- straight flushes -----

  /** All the upcards of the hand share one suit. */
  ghost predicate SameSuit(s: GameState, h: set<Pos>)
  {
    exists suit :: 0 <= suit < 4 && AllKeyed(s, h, true, suit)
  }

  /** A 5-straight whose cards share a suit. */
  ghost predicate IsStraightFlush(s: GameState, h: set<Pos>)
  {
    IsStraight(s, h, 5) && SameSuit(s, h)
  }

  /** Whether the upcards of a hand share a suit, scanning the set as the source does. */
  method ScanSameSuit(s: GameState, hand: set<Pos>) returns (valid: bool)
    requires forall p :: p in hand ==> Visible(s, p)
    ensures valid == SameSuit(s, hand)
  {
    valid := true;
    var handSuit: Option<int> := None;
    var rest := hand;
    ghost var seen: set<Pos> := {};
    ghost var first: Pos, other: Pos := (0, 0), (0, 0);
    while rest != {}
      invariant seen + rest == hand && seen !! rest
      invariant handSuit.None? <==> seen == {}
      invariant handSuit.Some? ==> first in seen && handSuit.value == Key(s, first, true)
      invariant !valid ==> other in seen && Key(s, other, true) != handSuit.value
      invariant valid && handSuit.Some? ==> AllKeyed(s, seen, true, handSuit.value)
      decreases |rest|
    {
      var loc :| loc in rest;
      var suit := Key(s, loc, true);
      if handSuit.None? {
        handSuit := Some(suit);
        first := loc;
      } else if suit != handSuit.value {
        valid := false;
        other := loc;
      }
      if valid {
        KeyedAdd(s, seen, loc, handSuit.value);
      }
      MoveOne(seen, rest, loc);
      rest := rest - {loc};
      seen := seen + {loc};
    }
    if !valid {
      MixedSuits(s, hand, first, other);
    } else if handSuit.None? {
      assert AllKeyed(s, hand, true, 0);
    } else {
      assert AllKeyed(s, hand, true, handSuit.value);
    }
  }

  /** Moving one position from the unvisited set to the visited set keeps their union. */
  lemma MoveOne(seen: set<Pos>, rest: set<Pos>, p: Pos)
    requires p in rest && seen !! rest
    ensures (seen + {p}) + (rest - {p}) == seen + rest && (seen + {p}) !! (rest - {p})
    ensures |rest - {p}| < |rest|
  {
  }

  /** One more position of the suit keeps a set of one suit. */
  lemma KeyedAdd(s: GameState, seen: set<Pos>, p: Pos, key: int)
    requires AllKeyed(s, seen, true, key) && Visible(s, p) && Key(s, p, true) == key
    ensures AllKeyed(s, seen + {p}, true, key)
  {
  }

  /** Two upcards of different suits rule out a common suit. */
  lemma MixedSuits(s: GameState, h: set<Pos>, p: Pos, q: Pos)
    requires p in h && q in h && Visible(s, p) && Visible(s, q) && Key(s, p, true) != Key(s, q, true)
    ensures !SameSuit(s, h)
  {
  }

  /** `_get_straight_flush_hands`: the 5-straights whose upcards share a suit, in their order. */
  method StraightFlushHands(s: GameState) returns (hands: seq<set<Pos>>)
    ensures forall h :: h in hands <==> IsStraightFlush(s, h)
    ensures Distinct(hands)
  {
    var straights := StraightHands(s, 5);
    hands := [];
    for i := 0 to |straights|
      invariant forall h :: h in hands <==> h in straights[..i] && SameSuit(s, h)
      invariant Distinct(hands)
    {
      var h := straights[i];
      StraightVisible(s, h, 5);
      var valid := ScanSameSuit(s, h);
      if valid {
        assert h !in straights[..i];
        DistinctConcat(hands, [h]);
        hands := hands + [h];
      }
    }
    assert straights[..|straights|] == straights;
  }

  /** The positions of a straight show cards. */
  lemma StraightVisible(s: GameState, h: set<Pos>, len: nat)
    requires IsStraight(s, h, len)
    ensures forall p :: p in h ==> Visible(s, p)
  {
  }

  // ----- full houses -----

  /** The positions of h whose upcard has the given rank. */
  ghost function RankPart(s: GameState, h: set<Pos>, rank: int): set<Pos>
  {
    set p | p in h && Visible(s, p) && Key(s, p, false) == rank
  }

  /** Three upcards of rank `trip` and two of the different rank `pair`, and nothing else. */
  ghost predicate FullHouseOf(s: GameState, h: set<Pos>, trip: int, pair: int)
  {
    && trip != pair
    && (forall p :: p in h ==> Visible(s, p) && (Key(s, p, false) == trip || Key(s, p, false) == pair))
    && |RankPart(s, h, trip)| == 3
    && |RankPart(s, h, pair)| == 2
  }

  /** A full house whose positions are not all in one row. */
  ghost predicate IsFullHouse(s: GameState, h: set<Pos>)
  {
    && (exists trip, pair :: 0 <= trip < 13 && 0 <= pair < 13 && FullHouseOf(s, h, trip, pair))
    && SpansRows(h)
  }

  /** `set(combo[0]).union(set(combo[1]))`. */
  function ComboHand(combo: seq<seq<Pos>>): set<Pos>
    requires |combo| == 2
  {
    Elems(combo[0]) + Elems(combo[1])
  }

  /** The hands of the combos whose union has five positions, in order. */
  ghost function FiveUnions(combos: seq<seq<seq<Pos>>>): seq<set<Pos>>
    requires forall n :: 0 <= n < |combos| ==> |combos[n]| == 2
  {
    if combos == [] then []
    else
      var last := combos[|combos| - 1];
      FiveUnions(combos[..|combos| - 1]) + if |ComboHand(last)| == 5 then [ComboHand(last)] else []
  }

  lemma {:induction false} FiveUnionsMember(combos: seq<seq<seq<Pos>>>, h: set<Pos>)
    requires forall n :: 0 <= n < |combos| ==> |combos[n]| == 2
    ensures h in FiveUnions(combos) <==> |h| == 5 && HasCombo(combos, h)
  {
    if combos != [] {
      var init := combos[..|combos| - 1];
      FiveUnionsMember(init, h);
      HasComboSnoc(combos, h);
    }
  }

  /** Some combo of the list has hand h. */
  ghost predicate HasCombo(combos: seq<seq<seq<Pos>>>, h: set<Pos>)
    requires forall n :: 0 <= n < |combos| ==> |combos[n]| == 2
  {
    exists n :: 0 <= n < |combos| && ComboHand(combos[n]) == h
  }

  lemma HasComboSnoc(combos: seq<seq<seq<Pos>>>, h: set<Pos>)
    requires combos != [] && forall n :: 0 <= n < |combos| ==> |combos[n]| == 2
    ensures HasCombo(combos, h) <==>
      HasCombo(combos[..|combos| - 1], h) || ComboHand(combos[|combos| - 1]) == h
  {
    var init := combos[..|combos| - 1];
    if HasCombo(combos, h) {
      var n :| 0 <= n < |combos| && ComboHand(combos[n]) == h;
      if n < |init| {
        assert ComboHand(init[n]) == h;
      }
    }
    if HasCombo(init, h) {
      var n :| 0 <= n < |init| && ComboHand(init[n]) == h;
      assert ComboHand(combos[n]) == h;
    }
  }

  lemma {:induction false} FiveUnionsDistinct(combos: seq<seq<seq<Pos>>>)
    requires forall n :: 0 <= n < |combos| ==> |combos[n]| == 2
    requires forall n, m :: 0 <= n < m < |combos| ==> ComboHand(combos[n]) != ComboHand(combos[m])
    ensures Distinct(FiveUnions(combos))
  {
    if combos != [] {
      var init := combos[..|combos| - 1];
      var last := combos[|combos| - 1];
      FiveUnionsDistinct(init);
      FiveUnionsMember(init, ComboHand(last));
      DistinctConcat(FiveUnions(init), if |ComboHand(last)| == 5 then [ComboHand(last)] else []);
    }
  }

  /** The two lists `product` pairs up for a trip rank and a pair rank. */
  function FullHouseLists(locs: seq<seq<Pos>>, trip: int, pair: int): seq<seq<seq<Pos>>>
    requires 0 <= trip < |locs| && 0 <= pair < |locs|
  {
    [Combinations(locs[trip], 3), Combinations(locs[pair], 2)]
  }

  /** Every combo of the product is a pair (trip tuple, pair tuple). */
  lemma CombosArePairs(locs: seq<seq<Pos>>, trip: int, pair: int)
    requires 0 <= trip < |locs| && 0 <= pair < |locs|
    ensures forall n :: 0 <= n < |Product(FullHouseLists(locs, trip, pair))| ==>
      |Product(FullHouseLists(locs, trip, pair))[n]| == 2
  {
    var P := Product(FullHouseLists(locs, trip, pair));
    ProductMembers(FullHouseLists(locs, trip, pair));
    assert |FullHouseLists(locs, trip, pair)| == 2;
    forall n | 0 <= n < |P|
      ensures |P[n]| == 2
    {
      assert P[n] in P;
      assert PicksFrom(P[n], FullHouseLists(locs, trip, pair));
    }
  }

  /** A tuple of `combinations` over the positions of one rank is a set of that many upcards of that rank. */
  lemma TupleIsPart(s: GameState, locs: seq<seq<Pos>>, rank: int, k: nat, t: seq<Pos>)
    requires Grouped(s, false, locs) && 0 <= rank < 13 && t in Combinations(locs[rank], k)
    ensures |Elems(t)| == k && AllKeyed(s, Elems(t), false, rank)
  {
    var C := Combinations(locs[rank], k);
    KeyedCombinations(s, false, locs[rank], rank, k);
    var i := Find(C, t);
    assert SetsOf(C)[i] == Elems(t);
  }

  /** A set of k upcards of one rank is the set of some tuple of `combinations` over that rank's positions. */
  lemma PartTuple(s: GameState, locs: seq<seq<Pos>>, rank: int, k: nat, a: set<Pos>) returns (t: seq<Pos>)
    requires Grouped(s, false, locs) && 0 <= rank < 13 && |a| == k && AllKeyed(s, a, false, rank)
    ensures t in Combinations(locs[rank], k) && Elems(t) == a
  {
    var C := Combinations(locs[rank], k);
    KeyedCombinations(s, false, locs[rank], rank, k);
    var i := Find(SetsOf(C), a);
    t := C[i];
  }

  /** The upcards of two different ranks split a union back into its parts. */
  lemma UnionParts(s: GameState, a: set<Pos>, b: set<Pos>, trip: int, pair: int)
    requires trip != pair && AllKeyed(s, a, false, trip) && AllKeyed(s, b, false, pair)
    ensures a !! b && |a + b| == |a| + |b|
    ensures RankPart(s, a + b, trip) == a && RankPart(s, a + b, pair) == b
  {
  }

  /** A full house is the union of its two rank parts. */
  lemma FullHouseParts(s: GameState, h: set<Pos>, trip: int, pair: int)
    requires FullHouseOf(s, h, trip, pair)
    ensures h == RankPart(s, h, trip) + RankPart(s, h, pair)
    ensures AllKeyed(s, RankPart(s, h, trip), false, trip) && AllKeyed(s, RankPart(s, h, pair), false, pair)
  {
  }

  /** A combo's hand is a full house of the two ranks. */
  lemma ComboSound(s: GameState, locs: seq<seq<Pos>>, trip: int, pair: int, combo: seq<seq<Pos>>)
    requires Grouped(s, false, locs) && 0 <= trip < 13 && 0 <= pair < 13 && trip != pair
    requires PicksFrom(combo, FullHouseLists(locs, trip, pair))
    ensures |ComboHand(combo)| == 5 && FullHouseOf(s, ComboHand(combo), trip, pair)
    ensures RankPart(s, ComboHand(combo), trip) == Elems(combo[0])
    ensures RankPart(s, ComboHand(combo), pair) == Elems(combo[1])
  {
    var L := FullHouseLists(locs, trip, pair);
    assert combo[0] in L[0] && combo[1] in L[1];
    TupleIsPart(s, locs, trip, 3, combo[0]);
    TupleIsPart(s, locs, pair, 2, combo[1]);
    UnionParts(s, Elems(combo[0]), Elems(combo[1]), trip, pair);
  }

  /** Every full house of the two ranks is the hand of a combo. */
  lemma ComboComplete(s: GameState, locs: seq<seq<Pos>>, trip: int, pair: int, h: set<Pos>)
    requires Grouped(s, false, locs) && 0 <= trip < 13 && 0 <= pair < 13
    requires FullHouseOf(s, h, trip, pair)
    ensures exists combo :: combo in Product(FullHouseLists(locs, trip, pair)) && |combo| == 2 && ComboHand(combo) == h
  {
    FullHouseParts(s, h, trip, pair);
    var ta := PartTuple(s, locs, trip, 3, RankPart(s, h, trip));
    var tb := PartTuple(s, locs, pair, 2, RankPart(s, h, pair));
    PairInProduct(FullHouseLists(locs, trip, pair), ta, tb);
    assert ComboHand([ta, tb]) == h;
  }

  /** A trip tuple and a pair tuple make a combo of `product`. */
  lemma PairInProduct(L: seq<seq<seq<Pos>>>, a: seq<Pos>, b: seq<Pos>)
    requires |L| == 2 && a in L[0] && b in L[1]
    ensures [a, b] in Product(L)
  {
    ProductMembers(L);
    assert PicksFrom([a, b], L);
  }

  /** Different combos of the product give different hands. */
  lemma CombosInjective(s: GameState, locs: seq<seq<Pos>>, trip: int, pair: int)
    requires Grouped(s, false, locs) && 0 <= trip < 13 && 0 <= pair < 13 && trip != pair
    ensures var P := Product(FullHouseLists(locs, trip, pair));
      forall n, m :: 0 <= n < m < |P| ==> |P[n]| == 2 && |P[m]| == 2 && ComboHand(P[n]) != ComboHand(P[m])
  {
    var L := FullHouseLists(locs, trip, pair);
    var P := Product(L);
    CombosArePairs(locs, trip, pair);
    CombinationListsDistinct(locs, trip, pair);
    ProductMembers(L);
    forall n, m | 0 <= n < m < |P|
      ensures ComboHand(P[n]) != ComboHand(P[m])
    {
      if ComboHand(P[n]) == ComboHand(P[m]) {
        ComboDetermined(s, locs, trip, pair, P[n], P[m]);
      }
    }
  }

  /** Both lists of combinations list no tuple twice, and no set twice. */
  lemma CombinationListsDistinct(locs: seq<seq<Pos>>, trip: int, pair: int)
    requires 0 <= trip < |locs| && 0 <= pair < |locs|
    requires RowMajor(locs[trip]) && RowMajor(locs[pair])
    ensures Distinct(SetsOf(Combinations(locs[trip], 3))) && Distinct(SetsOf(Combinations(locs[pair], 2)))
    ensures forall i :: 0 <= i < |FullHouseLists(locs, trip, pair)| ==> Distinct(FullHouseLists(locs, trip, pair)[i])
  {
    RowMajorDistinct(locs[trip]);
    RowMajorDistinct(locs[pair]);
    CombinationsDistinct(locs[trip], 3);
    CombinationsDistinct(locs[pair], 2);
    TuplesDistinct(Combinations(locs[trip], 3));
    TuplesDistinct(Combinations(locs[pair], 2));
  }

  /** A combo of the product is determined by its hand. */
  lemma ComboDetermined(s: GameState, locs: seq<seq<Pos>>, trip: int, pair: int, a: seq<seq<Pos>>, b: seq<seq<Pos>>)
    requires Grouped(s, false, locs) && 0 <= trip < 13 && 0 <= pair < 13 && trip != pair
    requires a in Product(FullHouseLists(locs, trip, pair)) && b in Product(FullHouseLists(locs, trip, pair))
    requires |a| == 2 && |b| == 2 && ComboHand(a) == ComboHand(b)
    ensures a == b
  {
    var L := FullHouseLists(locs, trip, pair);
    ProductMembers(L);
    assert PicksFrom(a, L) && PicksFrom(b, L);
    ComboSound(s, locs, trip, pair, a);
    ComboSound(s, locs, trip, pair, b);
    CombinationListsDistinct(locs, trip, pair);
    SameSetSameTuple(L[0], a[0], b[0]);
    SameSetSameTuple(L[1], a[1], b[1]);
    assert a == [a[0], a[1]] && b == [b[0], b[1]];
  }

  /** Tuples with different sets are different tuples. */
  lemma TuplesDistinct(C: seq<seq<Pos>>)
    requires Distinct(SetsOf(C))
    ensures Distinct(C)
  {
    forall i, j | 0 <= i < j < |C|
      ensures C[i] != C[j]
    {
      assert SetsOf(C)[i] != SetsOf(C)[j];
    }
  }

  /** In a list whose tuples have pairwise different sets, a tuple is determined by its set. */
  lemma SameSetSameTuple(C: seq<seq<Pos>>, a: seq<Pos>, b: seq<Pos>)
    requires Distinct(SetsOf(C)) && a in C && b in C && Elems(a) == Elems(b)
    ensures a == b
  {
    var i :| 0 <= i < |C| && C[i] == a;
    var j :| 0 <= j < |C| && C[j] == b;
    assert SetsOf(C)[i] == SetsOf(C)[j];
  }

  /** A hand is a full house of at most one pair of ranks. */
  lemma FullHouseRanksUnique(s: GameState, h: set<Pos>, t: int, q: int, t': int, q': int)
    requires FullHouseOf(s, h, t, q) && FullHouseOf(s, h, t', q')
    ensures t == t' && q == q'
  {
    forall r | RankPart(s, h, r) != {}
      ensures r == t || r == q
    {
      var p :| p in RankPart(s, h, r);
    }
    assert RankPart(s, h, t') != {} && RankPart(s, h, q') != {};
  }

  /** A full house of the two ranks needs three locations of the first and two of the second. */
  lemma FullHouseNeeds(s: GameState, locs: seq<seq<Pos>>, h: set<Pos>, trip: int, pair: int)
    requires Grouped(s, false, locs) && 0 <= trip < 13 && 0 <= pair < 13
    requires FullHouseOf(s, h, trip, pair)
    ensures |locs[trip]| >= 3 && |locs[pair]| >= 2
  {
    RowMajorDistinct(locs[trip]);
    RowMajorDistinct(locs[pair]);
    ElemsCard(locs[trip]);
    ElemsCard(locs[pair]);
    assert RankPart(s, h, trip) <= Elems(locs[trip]);
    assert RankPart(s, h, pair) <= Elems(locs[pair]);
    SubsetCard(RankPart(s, h, trip), Elems(locs[trip]));
    SubsetCard(RankPart(s, h, pair), Elems(locs[pair]));
  }

  /** The combos of one pair of ranks give exactly its full houses, each once. */
  lemma FullHousePair(s: GameState, locs: seq<seq<Pos>>, trip: int, pair: int)
    requires Grouped(s, false, locs) && 0 <= trip < 13 && 0 <= pair < 13 && trip != pair
    ensures var P := Product(FullHouseLists(locs, trip, pair));
      && (forall n :: 0 <= n < |P| ==> |P[n]| == 2)
      && (forall h :: h in FiveUnions(P) <==> FullHouseOf(s, h, trip, pair))
      && Distinct(FiveUnions(P))
  {
    var L := FullHouseLists(locs, trip, pair);
    var P := Product(L);
    CombosArePairs(locs, trip, pair);
    ProductMembers(L);
    forall h
      ensures h in FiveUnions(P) <==> FullHouseOf(s, h, trip, pair)
    {
      FiveUnionsMember(P, h);
      if h in FiveUnions(P) {
        var n :| 0 <= n < |P| && ComboHand(P[n]) == h;
        assert P[n] in P;
        ComboSound(s, locs, trip, pair, P[n]);
      }
      if FullHouseOf(s, h, trip, pair) {
        ComboComplete(s, locs, trip, pair, h);
        var combo :| combo in P && |combo| == 2 && ComboHand(combo) == h;
        ComboSound(s, locs, trip, pair, combo);
      }
    }
    CombosInjective(s, locs, trip, pair);
    FiveUnionsDistinct(P);
  }

  /** The full houses collected once the rank pairs before (trip, pair), in lexicographic order, are visited. */
  ghost predicate FullHousesBefore(s: GameState, all: seq<set<Pos>>, trip: int, pair: int)
  {
    && Distinct(all)
    && forall h :: h in all <==>
         exists t, q :: 0 <= t < 13 && 0 <= q < 13 && (t < trip || (t == trip && q < pair)) && FullHouseOf(s, h, t, q)
  }

  lemma FullHousesStep(s: GameState, all: seq<set<Pos>>, more: seq<set<Pos>>, trip: int, pair: int)
    requires 0 <= trip < 13 && 0 <= pair < 13
    requires FullHousesBefore(s, all, trip, pair)
    requires Distinct(more) && forall h :: h in more <==> FullHouseOf(s, h, trip, pair)
    ensures FullHousesBefore(s, all + more, trip, pair + 1)
  {
    forall h | h in all
      ensures h !in more
    {
      var t, q :| 0 <= t < 13 && 0 <= q < 13 && (t < trip || (t == trip && q < pair)) && FullHouseOf(s, h, t, q);
      if h in more {
        FullHouseRanksUnique(s, h, t, q, trip, pair);
      }
    }
    DistinctConcat(all, more);
  }

  lemma FullHousesSkip(s: GameState, locs: seq<seq<Pos>>, all: seq<set<Pos>>, trip: int, pair: int)
    requires Grouped(s, false, locs) && 0 <= trip < 13 && 0 <= pair < 13
    requires !(|locs[trip]| >= 3 && |locs[pair]| >= 2 && trip != pair)
    requires FullHousesBefore(s, all, trip, pair)
    ensures FullHousesBefore(s, all, trip, pair + 1)
  {
    forall h | FullHouseOf(s, h, trip, pair)
      ensures false
    {
      FullHouseNeeds(s, locs, h, trip, pair);
    }
  }

  lemma FullHousesNextTrip(s: GameState, all: seq<set<Pos>>, trip: int)
    requires FullHousesBefore(s, all, trip, 13)
    ensures FullHousesBefore(s, all, trip + 1, 0)
  {
  }

  /** The loop over `full_house_combos`: the union of each combo, kept when it has five positions. */
  method CollectFiveUnions(combos: seq<seq<seq<Pos>>>) returns (hands: seq<set<Pos>>)
    requires forall n :: 0 <= n < |combos| ==> |combos[n]| == 2
    ensures hands == FiveUnions(combos)
  {
    hands := [];
    for n := 0 to |combos|
      invariant hands == FiveUnions(combos[..n])
    {
      assert combos[..n + 1][..n] == combos[..n];
      var hand := ComboHand(combos[n]);
      if |hand| == 5 {
        hands := hands + [hand];
      }
    }
    assert combos[..|combos|] == combos;
  }

  /**
   * `_get_full_house_hands`: for every trip rank with three locations and
   * every other rank with two, the union of each 3-combination of the first
   * with each 2-combination of the second when it has five positions, without
   * the hands lying in one row.
   */
  method FullHouseHands(s: GameState) returns (hands: seq<set<Pos>>)
    ensures forall h :: h in hands <==> IsFullHouse(s, h)
    ensures Distinct(hands)
  {
    var locs := GroupLocations(s, false);
    var all: seq<set<Pos>> := [];
    for trip := 0 to 13
      invariant FullHousesBefore(s, all, trip, 0)
    {
      for pair := 0 to 13
        invariant FullHousesBefore(s, all, trip, pair)
      {
        if |locs[trip]| >= 3 && |locs[pair]| >= 2 && trip != pair {
          var combos := Product(FullHouseLists(locs, trip, pair));
          FullHousePair(s, locs, trip, pair);
          var more := CollectFiveUnions(combos);
          FullHousesStep(s, all, more, trip, pair);
          all := all + more;
        } else {
          FullHousesSkip(s, locs, all, trip, pair);
        }
      }
      FullHousesNextTrip(s, all, trip);
    }
    hands := IgnoreInvalidHands(all);
    KeepSpanningMembers(all);
  }
}
