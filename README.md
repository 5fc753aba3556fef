# sage-solitaire-bot in Dafny

A verified model of the game logic of sage-solitaire-bot. The project covers four parts:

- **The Sage Solitaire board** (`game/gamestate.py`). A 3×3 grid of piles of card numbers: the first card of each pile is its upcard. The board also holds per-pile clear bonuses, a lucky suit, a discard counter capped at 2 and a set of dead card numbers.
  - The board is the value type `SageBoard.GameState`. The source copies a board and then changes the copy, so the input is never touched; a value with functional updates behaves the same way.
  - `discard_from_pile` is a function; `make_hand`, `start_new_game` and `upcard_nums` are methods with loops.
  - The eight hand detectors, the row filter and the lucky-suit test are methods with loops in `SageHands` and `SageMoves`. Each is proved against a specification predicate saying which position sets are hands.
  - `actions` and `is_game_over` are in `SageMoves`.
  - `itertools.combinations` and `itertools.product` are the functions of `Combinatorics`.
- **The card codec and the deck** (`game/deck.py`), in `Cards`.
  - A card is a (rank, suit) pair. `card_to_int` and `int_to_card` map it to and from 0..51, with Python's truncating division and negative list indices.
  - `Deck` is a class whose `cards` list is a `seq` field that `take` and `remove` reassign. Shuffling is a Fisher–Yates pass driven by a list of draws that the caller supplies.
- **The 2048-style tile engine** (`game/game_engine.py`). Tiles are log2 exponents, and 0 is an empty cell.
  - `TileEngine.TileGame` is the class with fields `nrows`, `ncols`, `tiles`, `score` and `gameOver`. Its methods change the tiles cell by cell, with the same loops, branches and `break`s as the source.
  - Each method is proved against a value-level reference:
    - `TileLine.Slide` is how one line moves: drop the empty cells, merge equal neighbours once from the front, pad with empty cells.
    - `TileGrid.MoveGrid` applies `Slide` to every row or column of a move.
    - `TileGrid.CanMove` is the neighbour-pair test of `moves_available`.
    - `TileCsv` models the saved-line format that `append_game_state` writes and `from_csv_line` reads.
- **The greedy agent** (`game/agent.py`). `Agent.ChooseBest` is the argmax loop of `GreedyGameAgent.choose_action`: the first action wins a tie.

## Model

| member | source | states |
|---|---|---|
| Cards.NewCard | game/deck.py:8-13 | A card exists exactly when the rank is one of A23456789TJQK and the suit one of cdhs, and it then holds that rank and suit |
| Cards.SuitIdx | game/deck.py:27-28 | The suit index is below 4 and names the card's suit in `SUITS` |
| Cards.RankIdx | game/deck.py:30-31 | The rank index is below 13 and names the card's rank in `RANKS` |
| Cards.Encode | game/deck.py:34-40 | A card's number, divided by 13, gives its suit index; modulo 13 it gives its rank index |
| Cards.CardToInt | game/deck.py:34-40 | `None` maps to `None`. A card's number, divided by 13, gives its suit index with its rank index as remainder, and the number decodes back to the card |
| Cards.IntToCard | game/deck.py:43-49 | `None` maps to `None`. A number succeeds exactly when it is in -64..51, because negative list indices wrap and anything else raises IndexError. On 0..51 the result is the decoded card |
| Cards.EncodeDecode | game/deck.py:34-49 | Encoding the card that a number 0..51 decodes to gives the number back |
| Cards.DecodeEncode | game/deck.py:34-49 | Decoding a card's number gives the card back |
| Cards.CardToIntRoundTrip | game/deck.py:34-49 | `int_to_card(card_to_int(c)) == c` for every card and for `None` |
| Cards.IntToCardRoundTrip | game/deck.py:34-49 | `card_to_int(int_to_card(n)) == n` for 0 ≤ n < 52 and for `None` |
| Cards.EncodeInjective | game/deck.py:34-40 | Two cards with the same number are the same card |
| Cards.NewDeckHasEachCardOnce | game/deck.py:56-59 | Every (rank, suit) card occurs exactly once in a new deck |
| Cards.BuildNewDeck | game/deck.py:56-59 | The nested suit/rank loop builds exactly the new-deck order |
| Cards.Shuffle | game/deck.py:61-63 | Shuffling keeps the length and the multiset of cards: it only permutes |
| Cards.PrefixSuffixSplit | game/deck.py:71-75 | Python's `cards[0:n]` followed by `cards[n:]` is the whole list, for every integer n |
| Cards.RemoveFirstEffect | game/deck.py:77-79 | `list.remove` of a present card takes out one occurrence (length − 1, multiset minus that card); an absent card leaves the list unchanged |
| Cards.Deck.constructor | game/deck.py:51-63 | The deck holds a permutation of the given cards, or of the 52-card new deck when none are given |
| Cards.Deck.Length | game/deck.py:65-66 | `len(deck)` is the number of cards |
| Cards.Deck.Peek | game/deck.py:68-69 | `peek(n)` is a prefix of the deck: the first min(n, len) cards for n ≥ 0. It changes nothing |
| Cards.Deck.Take | game/deck.py:71-75 | The taken cards followed by the remaining deck are the old deck. For n ≥ 0 the taken cards are the first min(n, len) cards and the deck keeps the rest in order |
| Cards.Deck.Remove | game/deck.py:77-79 | A present card loses one occurrence (length − 1); an absent card leaves the deck unchanged |
| Combinatorics.CombinationsAreKSubsets | game/gamestate.py:280 | On a duplicate-free list, `combinations(l, k)` lists exactly the k-subsets of its elements, each once |
| Combinatorics.CombinationsSound | game/gamestate.py:280 | Every listed combination is a k-subset of the list |
| Combinatorics.CombinationsComplete | game/gamestate.py:280 | Every k-subset of the list is listed |
| Combinatorics.CombinationsDistinct | game/gamestate.py:280 | No combination is listed twice as a set |
| Combinatorics.ProductMembers | game/gamestate.py:427 | `product(*ls)` lists exactly the tuples with one entry from each list; they are all different when the lists have no repeated entry |
| SageBoard.PositionsOnBoard | game/gamestate.py:24 | The nine positions listed row-major are exactly the positions (r, c) with r, c in 0..2 |
| SageBoard.DecodedRankSuit | game/gamestate.py:264-266 | The rank and suit read through `int_to_card` of card number n are n % 13 and n / 13 |
| SageBoard.EncodePileDecodes | game/gamestate.py:56 | Each card number stored for a pile decodes to the card dealt there |
| SageBoard.StartNewGame | game/gamestate.py:48-69 | The new board has the lucky card's suit, 2 discards and the 150/100/50 bonuses by row. Each non-empty dealt pile is stored as card numbers, and an empty one leaves the old pile. The dead cards are the lucky card plus the upcard of every non-empty dealt pile |
| SageBoard.NewGameValid | game/gamestate.py:48-69 | A game started from a fresh board satisfies the board invariant: discards in 0..2 and every upcard dead |
| SageBoard.DiscardFromPile | game/gamestate.py:170-197 | Needs a discard left and a non-empty pile. The result has one discard fewer, the chosen pile without its first card, and every other pile, the bonuses and the lucky suit unchanged. Only the newly revealed upcard becomes dead. The reward is the pile's clear bonus when the pile held exactly one card, else 0 |
| SageBoard.DiscardKeepsValid | game/gamestate.py:170-197 | A discard keeps the board invariant and removes exactly one card from the board |
| SageBoard.DiscardBonusWhenCleared | game/gamestate.py:180-185 | With the standard bonuses, a discard pays a positive reward exactly when it empties the pile |
| SageBoard.MakeHand | game/gamestate.py:199-233 | Needs at least 2 positions, all showing a card, in at least 2 rows. The result has min(discards + 1, 2) discards, each selected pile without its first card, every other pile, the bonuses and the lucky suit unchanged, and only the revealed upcards added to the dead cards. The board loses one card per selected pile |
| SageBoard.HandResultValid | game/gamestate.py:199-233 | The board `make_hand` leaves keeps the board invariant |
| SageBoard.UpcardNums | game/gamestate.py:100-106 | A 3×3 grid holding each non-empty pile's upcard, and `None` for each empty pile |
| SageHands.SpansRowsIffRows | game/gamestate.py:212-219 | A hand "not all in one row" is exactly a hand touching more than one row, the condition `make_hand` asserts |
| SageHands.FiveSpanRows | game/gamestate.py:471-497 | Five positions of a 3×3 board always touch two rows |
| SageHands.GroupLocations | game/gamestate.py:261-269 | For each rank (or suit), the positions whose upcard has that rank (or suit), listed in row-major order |
| SageHands.ScanSpansRows | game/gamestate.py:243-249 | The scan of one hand's positions finds a second row exactly when the hand is not all in one row |
| SageHands.IgnoreInvalidHands | game/gamestate.py:235-252 | Keeps, in order, the hands that are not all in one row |
| SageHands.KeepSpanningMembers | game/gamestate.py:235-252 | The kept hands are exactly the input hands that are not all in one row; no hand is repeated if none was |
| SageHands.SameRankHands | game/gamestate.py:254-349 | The pair, trip and quad detectors (k = 2, 3, 4) list exactly the k-sets of positions whose upcards share a rank and that are not all in one row, each once |
| SageHands.FlushHands | game/gamestate.py:471-497 | Lists exactly the 5-sets of positions whose upcards share a suit, each once, with no row filter |
| SageHands.FlushSpansRows | game/gamestate.py:471-497 | A flush is never all in one row, so it meets `make_hand`'s assertion without the filter |
| SageHands.WindowDistinct | game/gamestate.py:414-419 | No straight window contains a rank twice |
| SageHands.WindowsDiffer | game/gamestate.py:418-419 | Two different windows of the same length differ in some rank, so no straight is found twice |
| SageHands.KingAceTwoIsNoWindow | game/gamestate.py:414-418 | K-A-2 is not one of the 3-straight windows: A only closes the list at its top end |
| SageHands.WindowHandsMember | game/gamestate.py:426-428 | The product of a window's rank locations gives exactly the hands holding one position for each rank of the window |
| SageHands.WindowHandsDistinct | game/gamestate.py:426-428 | The product of a window's rank locations lists no hand twice |
| SageHands.StraightHands | game/gamestate.py:401-469 | The 3-straight and 5-straight detectors list exactly the hands with one position per rank of a window of A,2..K,A that are not all in one row, each once |
| SageHands.ScanSameSuit | game/gamestate.py:505-514 | The scan of one hand's upcards keeps the hand exactly when they share a suit |
| SageHands.StraightFlushHands | game/gamestate.py:499-519 | Lists exactly the 5-straights whose upcards share a suit, each once |
| SageHands.StraightVisible | game/gamestate.py:505-510 | Every position of a straight shows a card, so the suit scan reads a card at each |
| SageHands.ComboSound | game/gamestate.py:382-392 | Each (trips, pair) combination of two different ranks unites into a 5-position full house of those ranks |
| SageHands.ComboComplete | game/gamestate.py:382-392 | Every full house of two given ranks comes from some (trips, pair) combination |
| SageHands.ComboDetermined | game/gamestate.py:382-392 | Two combinations with the same union are the same combination |
| SageHands.FiveUnionsMember | game/gamestate.py:388-392 | The unions kept from a list of combinations are exactly the 5-position unions of its combinations |
| SageHands.FullHouseRanksUnique | game/gamestate.py:372-378 | A full house determines its trips rank and its pair rank |
| SageHands.FullHouseNeeds | game/gamestate.py:364-370 | A full house of ranks (t, p) needs at least 3 positions of rank t and 2 of rank p, the conditions of `trip_ranks` and `pair_ranks` |
| SageHands.FullHousePair | game/gamestate.py:381-392 | For two different ranks, the 5-position unions of the product list exactly the full houses of those ranks, each once |
| SageHands.CollectFiveUnions | game/gamestate.py:388-392 | The union loop keeps, in order, exactly the unions of 5 positions |
| SageHands.FullHouseHands | game/gamestate.py:351-399 | Lists exactly the hands of 3 upcards of one rank and 2 of another rank that are not all in one row, each once |
| SageMoves.KindIsPlayable | game/gamestate.py:211-219 | Every hand any detector finds meets `make_hand`'s assertions: at least 2 positions, all showing a card, in more than one row |
| SageMoves.IsLuckyHand | game/gamestate.py:521-531 | True exactly when some selected upcard is in the lucky suit |
| SageMoves.HandAction | game/gamestate.py:558-564 | A hand's move has the board `make_hand` leaves and the kind's base reward, doubled when the hand is lucky |
| SageMoves.HandActionKind | game/gamestate.py:12-19 | The eight base rewards differ, so a hand move's reward fixes its kind |
| SageMoves.DiscardActions | game/gamestate.py:535-541 | With discards left, there is one discard move per non-empty pile and no other move. No pile is listed twice |
| SageMoves.AddHandActions | game/gamestate.py:559-564 | Appends, in order, one move per detected hand, each a valid hand move of the kind |
| SageMoves.AfterAdd | game/gamestate.py:558-620 | Appending the moves of a kind keeps the moves already listed and every kind already covered, and covers the new kind |
| SageMoves.DetectHands | game/gamestate.py:558-620 | Each kind's detector lists exactly the hands of that kind, each once |
| SageMoves.AfterAddOnce | game/gamestate.py:558-620 | Appending the moves of distinct hands of a kind not yet listed repeats no discard and no hand of a kind |
| SageMoves.AddKind | game/gamestate.py:558-620 | Appending one kind's moves keeps the list sound, keeps the kinds already covered, covers the new kind and adds no discard. When the kind and the kinds after it are not yet listed, it repeats no move |
| SageMoves.Actions | game/gamestate.py:533-622 | Every move is a discard or a hand move with the correct board and reward. There is a discard of a pile exactly when discards remain and the pile is non-empty. Every hand of every kind is on the list. No discard is listed twice, and no hand is listed twice as the same kind |
| SageMoves.EmptyBoardHasNoHands | game/gamestate.py:80-88 | An empty board has no hand of any kind |
| SageMoves.AllPilesEmpty | game/gamestate.py:97-98 | Every pile reporting `is_pile_empty` means the board is empty |
| SageMoves.IsGameOver | game/gamestate.py:80-88 | The game is over exactly when no hand exists and either no discard is left or the board is empty |
| SageMoves.GameOverIffNoActions | game/gamestate.py:80-88 | When the discard loop does not return early, `len(actions()) == 0` holds exactly when no hand exists |
| Agent.ChooseBest | game/agent.py:15-26 | Returns `None` exactly when no reward exceeds −1. Otherwise it returns the first action of the list with the maximal reward |
| Agent.RewardsNonNegative | game/agent.py:18 | Every reward of the move list is ≥ 0, so the −1 start is beaten by any move |
| Agent.DiscardListed | game/agent.py:20-24 | Every legal discard's reward appears on the move list |
| Agent.HandListed | game/agent.py:20-24 | Every hand's reward appears on the move list |
| Agent.BestBeatsLegalMoves | game/agent.py:20-24 | The chosen move's reward is at least that of every legal discard and every hand |
| Agent.ChooseAction | game/agent.py:15-26 | The chosen move is a legal discard or hand move and its reward is the best available. It is `None` exactly when the game is over |
| Agent.NoActionsIffOver | game/agent.py:15-26 | The move list is empty exactly when the game is over, so the agent returns `None` exactly then |
| TileLine.SlidePacked | game/game_engine.py:130-165 | After a move no empty cell lies in front of a tile in a line |
| TileLine.SlideKeepsValue | game/game_engine.py:148-154 | A move keeps the total face value of a line: merging two 2^v tiles gives one 2^(v+1) tile |
| TileLine.MergeGainBound | game/game_engine.py:151 | The score a line's merges earn is at most the line's total face value |
| TileLine.RunIsSlide | game/game_engine.py:126-165 | The cell-by-cell scan of `move_tiles`, with `last_tile_idx` and `merged_idx`, leaves exactly the reference slide of the line and earns exactly its merge score. A merged tile is not merged again |
| TileLine.SlideFixedIff | game/game_engine.py:176-187 | A line is left unchanged by a move exactly when no neighbour pair passes the test of `moves_available` |
| TileLine.MovesSplit | game/game_engine.py:176-189 | A line can move exactly when its first pair can move or the rest of the line can |
| TileGrid.MoveGridCell | game/game_engine.py:104-120 | After a move, cell k of group g (row or column, in the move's order) holds cell k of that group's slid line |
| TileGrid.MoveChangesIff | game/game_engine.py:125-166 | A move changes the board exactly when it changes some row or column group |
| TileGrid.CanMoveIffLines | game/game_engine.py:168-225 | A direction is available exactly when some group of that direction has a movable neighbour pair |
| TileGrid.CanMoveIffLanes | game/game_engine.py:173-224 | The pair test, scanned one lane at a time as `moves_available` does, gives the same verdict |
| TileGrid.CanMoveIffChanges | game/game_engine.py:168-225 | A direction is available exactly when moving that way changes the board |
| TileGrid.SetLineOf | game/game_engine.py:126-165 | Writing one group's line changes that group only |
| TileGrid.SlideFirstAll | game/game_engine.py:126-165 | Sliding the groups one after another, in order, gives the whole move |
| TileGrid.ChangedBeforeIff | game/game_engine.py:125-166 | The running `moved_any` flag over the first n groups is true exactly when one of those groups changes |
| TileGrid.MoveDone | game/game_engine.py:125-166 | At the end of the group loop the board is the moved board, and `moved_any` is true exactly when the board changed |
| TileGrid.FlattenRowMajor | game/game_engine.py:30-32 | Cell (i, j) of a board is entry i × ncols + j of its row-major list |
| TileGrid.RowMajorUnique | game/game_engine.py:30-32 | Two boards of the same size with the same row-major list are equal |
| TileGrid.CountsAddUp | game/game_engine.py:65-74 | The number of tiles plus the number of empty cells is the number of cells |
| TileGrid.BoardCountsAddUp | game/game_engine.py:65-74 | `num_tiles() + num_empty_tiles() == nrows * ncols` |
| TileGrid.MaxExpIsMax | game/game_engine.py:49-55 | The largest exponent is at least every cell, and it is 0 or one of the cells |
| TileGrid.NoTilesIffMaxZero | game/game_engine.py:49-55 | The largest exponent is 0 exactly when the board has no tile |
| TileGrid.DuplicatedZeroIff | game/game_engine.py:76-87 | The duplicated total is 0 exactly when no tile value occurs twice |
| TileCsv.Split | game/game_engine.py:26 | `str.split(',')` gives at least one piece, and no piece holds a comma |
| TileCsv.SplitComma | game/game_engine.py:26 | Splitting around a comma splits each side |
| TileCsv.ParseShowNat | game/game_engine.py:28 | `int` reads back every number `append_game_state` writes |
| TileCsv.ParseTiles | game/game_engine.py:30-32 | The tile tokens parse exactly when there are enough of them and each is an integer, giving nrows × ncols values |
| TileCsv.DecodeLineAsWritten | game/game_engine.py:24-33 | The reader as written succeeds only for a 4×4 board |
| TileCsv.DecodeLine | game/game_engine.py:24-33 | The corrected reader gives nrows × ncols tiles, and needs at least one row |
| TileCsv.DecodeEncode | game/game_engine.py:24-33 | Reading the line `append_game_state` writes (lines 292-300) gives back the flag, the score and the tiles, whatever follows the line |
| TileCsv.AsWrittenRejectsOtherSizes | game/game_engine.py:24-33 | For every saved board other than 4×4, the reader as written fails while the corrected one reads the board back |
| TileCsv.AsWrittenTwoByTwo | game/game_engine.py:24-33 | The saved empty 2×2 board `False,0,0,0,0,0,` is rejected as written and read back by the corrected reader |
| TileEngine.TileGame.constructor | game/game_engine.py:10-18 | Needs the stated size and a non-negative score; stores the fields as given |
| TileEngine.TileGame.Copy | game/game_engine.py:20-21 | A fresh game with the same size, tiles, score and flag |
| TileEngine.TileGame.ResetState | game/game_engine.py:89-92 | The board becomes an all-empty board of the given size, the score 0 and the flag false. The recorded size is not updated, so the board stays valid only when the sizes agree |
| TileEngine.TileGame.MoveTiles | game/game_engine.py:94-166 | On a finished game, returns `None` and changes nothing. Otherwise the tiles become the moved board, the score grows by the merge score of the move, and the result is true exactly when the board changed |
| TileEngine.TileGame.SlideNext | game/game_engine.py:126-165 | One pass of the group loop slides the next group, adds its merge score and updates `moved_any` |
| TileEngine.TileGame.SlideGroup | game/game_engine.py:127-165 | One group's scan writes the slid line into the board, adds the line's merge score, and reports a change exactly when the group changed |
| TileEngine.TileGame.ScanStep | game/game_engine.py:131-165 | One cell of the scan keeps the board equal to the reference scan's cells and the score equal to its gain |
| TileEngine.TileGame.PlaceAfter | game/game_engine.py:144-165 | A tile behind the last placed tile merges into it, moves up to the next cell, or stays, as the reference scan says |
| TileEngine.TileGame.MergeInto | game/game_engine.py:148-155 | A merge raises the front tile by one exponent, empties the cell, and adds `1 << (v + 1)` to the score |
| TileEngine.TileGame.MoveAfter | game/game_engine.py:156-163 | A tile moves into the cell just behind the last placed tile and leaves the score unchanged |
| TileEngine.TileGame.MaxTileValue | game/game_engine.py:49-55 | `1 << (largest exponent)`, which is 1 exactly when the board has no tile |
| TileEngine.TileGame.NumTiles | game/game_engine.py:65-71 | The number of non-empty cells |
| TileEngine.TileGame.NumEmptyTiles | game/game_engine.py:73-74 | The number of empty cells |
| TileEngine.TileGame.DuplicatedTileValues | game/game_engine.py:76-87 | The sum, over every tile whose value already occurred earlier in row-major order, of its exponent |
| TileEngine.TileGame.ScanColumn | game/game_engine.py:174-189 | One column's scan sets `up` and `down` exactly when that column can move up or down |
| TileEngine.TileGame.ScanRow | game/game_engine.py:200-218 | One row's scan sets `left` and `right` exactly when that row can move left or right |
| TileEngine.TileGame.ScanColumns | game/game_engine.py:170-195 | Adds Up and Down exactly when they are available, `break`s included |
| TileEngine.TileGame.ScanRows | game/game_engine.py:197-224 | Adds Left and Right exactly when they are available, `break`s included |
| TileEngine.TileGame.MovesAvailable | game/game_engine.py:168-225 | The result is exactly the set of directions in which some tile can slide or merge |
| TileEngine.FillTiles | game/game_engine.py:29-32 | Token k goes to cell (k / ncols, k % ncols): the board is the row-major reading of the tiles |
| TileEngine.FromCsvLine | game/game_engine.py:24-33 | Uses the corrected reader (see Findings). Fails with the reader's error, or builds a valid game of the requested size. The game has the saved flag and score, and tiles in row-major order |
| TileEngine.SaveThenRead | game/game_engine.py:24-33 | Saving a board and reading it back gives the same board |
| TileEngine.PlayMove | game/game_engine.py:306-311 | If `move_tiles(dir)` returns True, `dir` was among the directions `moves_available` gave before the move |

## Left out

- Randomness is not modelled:
  - `random.seed` and `random.shuffle` become a shuffle driven by draws the caller supplies, so only "the deck is a permutation" is stated.
  - `start_new_game_from_deck` (game/gamestate.py:31-46), `RandomGameAgent` (game/agent.py:8-12) and `spawn_tile` (game/game_engine.py:227-241) are not modelled, because they only draw random numbers.
- Floating point:
  - The lucky multiplier 2.0 is modelled as integer doubling, so a lucky reward is an integer rather than a float of the same value.
  - `pile_sizes` builds a numpy float array; the model uses integer pile lengths.
  - `avg_tile_value` and the probabilities of `successor_states` are not modelled.
- Display and I/O are not modelled:
  - `__repr__`, `__str__`, `full_info`, `__eq__` and `__hash__`;
  - the GUI, the game recorder and the analysis scripts;
  - the file, clock and directory handling of the `Game` class, whose only modelled part is the property of `move` at game/game_engine.py:311;
  - the message printed when a move is asked of a finished game.
- Sage board `copy`, `is_pile_empty` and board values:
  - The board is a value, so `copy` is the identity and needs no member.
  - `is_pile_empty` is the predicate `SageBoard.IsPileEmpty`.
  - The unset bonuses and lucky suit of a fresh `GameState()` are 0 and −1 instead of `None`.
- Iteration order of Python sets and dicts: the detectors walk qualifying ranks and suits in ascending order, and hands are sets. The properties state which moves are listed and that none is listed twice (per kind, for hands), not their order.
- TileEngine.TileGame.constructor: requires every row to have `ncols` cells, where the source asserts this only of the first row. Ragged boards are not modelled.
- TileCsv.DecodeLine: `int` also accepts surrounding whitespace and underscores between digits. The model reads an optional sign and decimal digits only.
- TileCsv.DecodeLine: a tile token below 0 is rejected with `NegativeTile`, which the source would store. The model's tiles are natural-number exponents.
- TileEngine.TileGame.MoveTiles: the assertion that `dir` is one of the four names becomes the type `Dir`. The unreachable "invalid direction" branch is not modelled.
- TileEngine.PlayMove: stops after the assertion at game/game_engine.py:311. Recording the move, spawning a tile and the game-over update are random or I/O and are not modelled.
- Cards.Deck.constructor: the source stores the caller's list and shuffles it in place, so caller and deck share it until the first `take`. The model copies the cards, so it does not capture that sharing.
- Default arguments: `peek(n=1)`, `take(n=1)` and `reset_state(nrows=4, ncols=4)` take their arguments explicitly in the model.
- Aliasing: `TileGame.tiles` is a value field that the methods reassign, so the model does not capture lists shared between two games.
- Cards.IntToCard: Python turns `card_num / 13` into a float. The model divides exactly and truncates, which gives the same index for every number the error boundary depends on.

## Findings

| source | as written | input that shows it | evidently intended | confidence | as-written member | corrected member |
|---|---|---|---|---|---|---|
| game/game_engine.py:24-33 | `from_csv_line` fills an nrows × ncols board but calls the constructor without `nrows`/`ncols`, so the defaults 4 × 4 are checked against it | the saved empty 2×2 board `False,0,0,0,0,0,` read with nrows = ncols = 2 fails the constructor's `len(tiles) == nrows` assertion | the board of the requested size is built and read back | not executed | TileCsv.DecodeLineAsWritten, TileCsv.AsWrittenTwoByTwo | TileCsv.DecodeLine, TileCsv.DecodeEncode, TileEngine.FromCsvLine, TileEngine.SaveThenRead |
