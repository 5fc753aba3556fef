// The `GameState` class of game/game_engine.py: a board of tile exponents
// (0 is an empty cell, e is a tile of value 2^e) that moves update in place.

module TileEngine {
  import opened Wrappers
  import opened TileLine
  import opened TileGrid
  import opened TileCsv

  /** The default board size. */
  const NUM_ROWS: nat := 4
  const NUM_COLS: nat := 4

  class TileGame {
    var nrows: nat
    var ncols: nat
    var tiles: Grid
    var score: nat
    var gameOver: bool

    /** The board has the recorded size, and at least one row. */
    predicate Valid()
      reads this
    {
      IsGrid(tiles, nrows, ncols) && nrows > 0
    }

    /**
     * `GameState(nrows, ncols, tiles, score, game_over)`. The source asserts the
     * number of rows, the length of the first row and a non-negative score.
     */
    constructor (nrows: nat, ncols: nat, tiles: Grid, score: int, gameOver: bool)
      requires IsGrid(tiles, nrows, ncols) && nrows > 0
      requires score >= 0
      ensures Valid()
      ensures this.nrows == nrows && this.ncols == ncols && this.tiles == tiles
      ensures this.score == score && this.gameOver == gameOver
    {
      this.nrows := nrows;
      this.ncols := ncols;
      this.tiles := tiles;
      this.score := score;
      this.gameOver := gameOver;
    }

    /** `copy`: a new game with the same size, tiles, score and status. */
    method Copy() returns (c: TileGame)
      requires Valid()
      ensures fresh(c) && c.Valid()
      ensures c.nrows == nrows && c.ncols == ncols && c.tiles == tiles
      ensures c.score == score && c.gameOver == gameOver
    {
      c := new TileGame(nrows, ncols, tiles, score, gameOver);
    }

    /**
     * `reset_state`: an empty r by c board, score 0, game not over. The recorded
     * size is not updated, so the game stays well formed only for its own size.
     */
    method ResetState(r: nat, c: nat)
      requires Valid()
      modifies this
      ensures IsGrid(tiles, r, c) && forall i, j :: 0 <= i < r && 0 <= j < c ==> tiles[i][j] == 0
      ensures score == 0 && !gameOver
      ensures nrows == old(nrows) && ncols == old(ncols)
      ensures Valid() <==> r == nrows && c == ncols
    {
      tiles := seq(r, _ => seq(c, _ => 0));
      score := 0;
      gameOver := false;
      if r > 0 {
        assert |tiles[0]| == c;
      }
    }

    /** Moves the tile of cell `from` of group g to cell `to` with exponent v, and touches no other cell. */
    method MoveCell(d: Dir, g: nat, from: nat, to: nat, v: nat)
      requires Valid() && g < Groups(d, nrows, ncols)
      requires to < from < GroupLen(d, nrows, ncols)
      modifies this`tiles
      ensures Valid()
      ensures tiles == SetLine(old(tiles), nrows, ncols, d, g, LineOf(old(tiles), nrows, ncols, d, g)[to := v][from := 0])
    {
      ghost var line := LineOf(tiles, nrows, ncols, d, g);
      ghost var before := tiles;
      var target := Cell(d, nrows, ncols, g, to);
      var source := Cell(d, nrows, ncols, g, from);
      SetCell(tiles, nrows, ncols, d, g, to, v);
      tiles := WriteCell(tiles, target.0, target.1, v);
      SetLineOf(before, nrows, ncols, d, g, line[to := v], g);
      SetCell(tiles, nrows, ncols, d, g, from, 0);
      tiles := WriteCell(tiles, source.0, source.1, 0);
      SetLineTwice(before, nrows, ncols, d, g, line[to := v], line[to := v][from := 0]);
    }

    /**
     * A tile at cell idx of group g with a tile placed before it, at `last`:
     * it merges into that tile when they are equal and that tile came from no
     * merge, moves into the cell after it when there is a gap, or stays.
     */
    method PlaceAfter(d: Dir, g: nat, idx: nat, x: nat, last: nat, mergedAt: Option<nat>, ghost st: Scan, ghost line: seq<nat>)
      returns (last': Option<nat>, mergedAt': Option<nat>, movedNow: bool)
      requires Valid() && g < Groups(d, nrows, ncols) && idx < GroupLen(d, nrows, ncols)
      requires |line| == GroupLen(d, nrows, ncols) && |st.out| <= idx
      requires Follows(st, Some(last), mergedAt) && LineOf(tiles, nrows, ncols, d, g) == Cells(st, line, idx)
      requires x == line[idx] > 0
      modifies this`tiles, this`score
      ensures Valid()
      ensures Follows(Step(st, x), last', mergedAt')
      ensures tiles == SetLine(old(tiles), nrows, ncols, d, g, Cells(Step(st, x), line, idx + 1))
      ensures score + st.gain == old(score) + Step(st, x).gain
      ensures movedNow <==> |st.out| < idx || Merges(st, x)
    {
      var prev := Cell(d, nrows, ncols, g, last);
      var y := tiles[prev.0][prev.1];
      assert y == LineOf(tiles, nrows, ncols, d, g)[last] == st.out[last];
      if y == x && mergedAt != Some(last) {
        last', mergedAt', movedNow := MergeInto(d, g, idx, x, last, mergedAt, st, line);
      } else if last + 1 < idx {
        last', mergedAt', movedNow := MoveAfter(d, g, idx, x, last, mergedAt, st, line);
      } else {
        CellsStay(st, line, idx, Some(last), mergedAt);
        SetLineSame(tiles, nrows, ncols, d, g);
        last', mergedAt', movedNow := Some(idx), mergedAt, false;
      }
    }

    /** The tile at cell idx merges into the tile at `last`, which came from no merge. */
    method MergeInto(d: Dir, g: nat, idx: nat, x: nat, last: nat, mergedAt: Option<nat>, ghost st: Scan, ghost line: seq<nat>)
      returns (last': Option<nat>, mergedAt': Option<nat>, movedNow: bool)
      requires Valid() && g < Groups(d, nrows, ncols) && idx < GroupLen(d, nrows, ncols)
      requires |line| == GroupLen(d, nrows, ncols) && |st.out| <= idx
      requires Follows(st, Some(last), mergedAt) && LineOf(tiles, nrows, ncols, d, g) == Cells(st, line, idx)
      requires x == line[idx] > 0 && Merges(st, x)
      modifies this`tiles, this`score
      ensures Valid()
      ensures Follows(Step(st, x), last', mergedAt')
      ensures tiles == SetLine(old(tiles), nrows, ncols, d, g, Cells(Step(st, x), line, idx + 1))
      ensures score + st.gain == old(score) + Step(st, x).gain
      ensures movedNow
    {
      CellsMerge(st, line, idx, mergedAt);
      score := score + Pow2(x + 1);
      MoveCell(d, g, idx, last, x + 1);
      last', mergedAt', movedNow := Some(last), Some(last), true;
    }

    /** The tile at cell idx moves into the empty cell after the tile at `last`. */
    method MoveAfter(d: Dir, g: nat, idx: nat, x: nat, last: nat, mergedAt: Option<nat>, ghost st: Scan, ghost line: seq<nat>)
      returns (last': Option<nat>, mergedAt': Option<nat>, movedNow: bool)
      requires Valid() && g < Groups(d, nrows, ncols) && idx < GroupLen(d, nrows, ncols)
      requires |line| == GroupLen(d, nrows, ncols) && |st.out| <= idx
      requires Follows(st, Some(last), mergedAt) && LineOf(tiles, nrows, ncols, d, g) == Cells(st, line, idx)
      requires x == line[idx] > 0 && !Merges(st, x) && last + 1 < idx
      modifies this`tiles, this`score
      ensures Valid()
      ensures Follows(Step(st, x), last', mergedAt')
      ensures tiles == SetLine(old(tiles), nrows, ncols, d, g, Cells(Step(st, x), line, idx + 1))
      ensures score == old(score) && Step(st, x).gain == st.gain
      ensures movedNow
    {
      CellsGap(st, line, idx, mergedAt);
      MoveCell(d, g, idx, last + 1, x);
      last', mergedAt', movedNow := Some(last + 1), mergedAt, true;
    }

    /**
     * One cell of the inner loop of `move_tiles` on group g, whose cells follow
     * the scan `st` of `line` up to idx: the writes follow the next scan state,
     * the score grows by what it earns, and the cell counts as a move when its
     * tile merges or moves forward.
     */
    method ScanCell(d: Dir, g: nat, idx: nat, last: Option<nat>, mergedAt: Option<nat>, ghost st: Scan, ghost line: seq<nat>)
      returns (last': Option<nat>, mergedAt': Option<nat>, movedNow: bool)
      requires Valid() && g < Groups(d, nrows, ncols) && idx < GroupLen(d, nrows, ncols)
      requires |line| == GroupLen(d, nrows, ncols) && |st.out| <= idx
      requires Follows(st, last, mergedAt) && LineOf(tiles, nrows, ncols, d, g) == Cells(st, line, idx)
      modifies this`tiles, this`score
      ensures Valid()
      ensures Follows(Step(st, line[idx]), last', mergedAt')
      ensures tiles == SetLine(old(tiles), nrows, ncols, d, g, Cells(Step(st, line[idx]), line, idx + 1))
      ensures score + st.gain == old(score) + Step(st, line[idx]).gain
      ensures movedNow <==> line[idx] > 0 && (|st.out| < idx || Merges(st, line[idx]))
    {
      var cell := Cell(d, nrows, ncols, g, idx);
      var x := tiles[cell.0][cell.1];
      assert x == LineOf(tiles, nrows, ncols, d, g)[idx] == line[idx];
      if x > 0 && last.Some? {
        last', mergedAt', movedNow := PlaceAfter(d, g, idx, x, last.value, mergedAt, st, line);
      } else if x > 0 && idx > 0 {
        CellsFront(st, line, idx, mergedAt);
        MoveCell(d, g, idx, 0, x);
        last', mergedAt', movedNow := Some(0), mergedAt, true;
      } else {
        CellsStay(st, line, idx, last, mergedAt);
        SetLineSame(tiles, nrows, ncols, d, g);
        last', mergedAt', movedNow := if x > 0 then Some(idx) else last, mergedAt, false;
      }
    }

    /**
     * One pass of the inner loop of `move_tiles` on group g, stated as the loop
     * invariant it keeps: the group is the cells of the scan of the first idx
     * cells of `line`, the rest of the board is `base`, the score holds what
     * the scan earned, and `moved` says whether the scanned cells changed.
     */
    method ScanStep(d: Dir, g: nat, idx: nat, last: Option<nat>, mergedAt: Option<nat>, moved: bool,
                    ghost st: Scan, ghost line: seq<nat>, ghost base: Grid, ghost score0: nat)
      returns (last': Option<nat>, mergedAt': Option<nat>, moved': bool, ghost st': Scan)
      requires Valid() && g < Groups(d, nrows, ncols) && idx < GroupLen(d, nrows, ncols)
      requires |line| == GroupLen(d, nrows, ncols) && IsGrid(base, nrows, ncols)
      requires st == Run(START, line[..idx]) && |st.out| <= idx && Follows(st, last, mergedAt)
      requires tiles == SetLine(base, nrows, ncols, d, g, Cells(st, line, idx))
      requires score == score0 + st.gain
      requires moved <==> Placed(st, idx) != line[..idx]
      modifies this`tiles, this`score
      ensures Valid()
      ensures st' == Run(START, line[..idx + 1]) && |st'.out| <= idx + 1 && Follows(st', last', mergedAt')
      ensures tiles == SetLine(base, nrows, ncols, d, g, Cells(st', line, idx + 1))
      ensures score == score0 + st'.gain
      ensures moved' <==> Placed(st', idx + 1) != line[..idx + 1]
    {
      PlacedStep(st, line, idx);
      RunPrefix(line, idx);
      SetLineOf(base, nrows, ncols, d, g, Cells(st, line, idx), g);
      var movedNow;
      last', mergedAt', movedNow := ScanCell(d, g, idx, last, mergedAt, st, line);
      st' := Step(st, line[idx]);
      SetLineTwice(base, nrows, ncols, d, g, Cells(st, line, idx), Cells(st', line, idx + 1));
      moved' := moved || movedNow;
    }

    /**
     * The inner loop of `move_tiles` on group g: tiles move to the front of the
     * group and equal neighbours merge once, as the reference `Slide` of the
     * group does, earning the reference score; no other group changes, and the
     * result says whether any tile moved or merged.
     */
    method SlideGroup(d: Dir, g: nat) returns (moved: bool)
      requires Valid() && g < Groups(d, nrows, ncols)
      modifies this`tiles, this`score
      ensures Valid()
      ensures tiles == SetLine(old(tiles), nrows, ncols, d, g, Slide(LineOf(old(tiles), nrows, ncols, d, g)))
      ensures score == old(score) + MergeGain(Compact(LineOf(old(tiles), nrows, ncols, d, g)))
      ensures moved <==> GroupChanges(old(tiles), nrows, ncols, d, g)
    {
      ghost var line := LineOf(tiles, nrows, ncols, d, g);
      ghost var base := tiles;
      var n := GroupLen(d, nrows, ncols);
      var last: Option<nat> := None;
      var mergedAt: Option<nat> := None;
      ghost var st := START;
      moved := false;
      ScanStart(line);
      SetLineSame(tiles, nrows, ncols, d, g);
      for idx := 0 to n
        invariant Valid()
        invariant st == Run(START, line[..idx]) && |st.out| <= idx && Follows(st, last, mergedAt)
        invariant tiles == SetLine(base, nrows, ncols, d, g, Cells(st, line, idx))
        invariant score == old(score) + st.gain
        invariant moved <==> Placed(st, idx) != line[..idx]
      {
        last, mergedAt, moved, st := ScanStep(d, g, idx, last, mergedAt, moved, st, line, base, old(score));
      }
      ScanDone(line);
    }

    /**
     * `move_tiles`: once the game is over nothing changes and there is no
     * result; otherwise the board becomes the reference move of the old board,
     * the score grows by the reference gain, and the result says whether the
     * board changed.
     */
    method MoveTiles(d: Dir) returns (moved: Option<bool>)
      requires Valid()
      modifies this`tiles, this`score
      ensures Valid()
      ensures old(gameOver) ==> moved.None? && tiles == old(tiles) && score == old(score)
      ensures !old(gameOver) ==> moved.Some? && tiles == MoveGrid(old(tiles), nrows, ncols, d)
      ensures !old(gameOver) ==> score == old(score) + MoveGain(old(tiles), nrows, ncols, d)
      ensures !old(gameOver) ==> (moved.value <==> tiles != old(tiles))
    {
      if gameOver {
        return None;
      }
      var movedAny := false;
      ghost var start, score0 := tiles, score;
      SlideFirstNone(tiles, nrows, ncols, d);
      ChangedBeforeNone(tiles, nrows, ncols, d);
      for g := 0 to Groups(d, nrows, ncols)
        invariant Valid()
        invariant tiles == SlideFirst(start, nrows, ncols, d, g)
        invariant score == score0 + GainBefore(start, nrows, ncols, d, g)
        invariant movedAny == ChangedBefore(start, nrows, ncols, d, g)
      {
        movedAny := SlideNext(d, g, movedAny, start, score0);
      }
      MoveDone(start, nrows, ncols, d, tiles, movedAny);
      moved := Some(movedAny);
    }

    /** One pass of the outer loop of `move_tiles`: group g slides, and the flag records whether it changed. */
    method SlideNext(d: Dir, g: nat, movedAny: bool, ghost start: Grid, ghost score0: nat) returns (movedAny': bool)
      requires Valid() && IsGrid(start, nrows, ncols) && g < Groups(d, nrows, ncols)
      requires tiles == SlideFirst(start, nrows, ncols, d, g)
      requires score == score0 + GainBefore(start, nrows, ncols, d, g)
      requires movedAny == ChangedBefore(start, nrows, ncols, d, g)
      modifies this`tiles, this`score
      ensures Valid()
      ensures tiles == SlideFirst(start, nrows, ncols, d, g + 1)
      ensures score == score0 + GainBefore(start, nrows, ncols, d, g + 1)
      ensures movedAny' == ChangedBefore(start, nrows, ncols, d, g + 1)
    {
      SlideFirstLine(start, nrows, ncols, d, g, g);
      SlideFirstStep(start, nrows, ncols, d, g);
      ChangedBeforeStep(start, nrows, ncols, d, g);
      var m := SlideGroup(d, g);
      movedAny' := movedAny || m;
    }

    /**
     * `max_tile_value`: 2 to the largest exponent on the board, read in
     * row-major order; 1 exactly when the board holds no tile.
     */
    method MaxTileValue() returns (value: nat)
      requires Valid()
      ensures value == Pow2(MaxExp(Flatten(tiles)))
      ensures value == 1 <==> CountTiles(Flatten(tiles)) == 0
    {
      var maxTile := 0;
      for i := 0 to nrows
        invariant maxTile == MaxExp(Flatten(tiles[..i]))
      {
        RowMajorStart(tiles, i);
        for j := 0 to ncols
          invariant maxTile == MaxExp(RowMajor(tiles, i, j))
        {
          RowMajorStep(tiles, i, j);
          Snoc(RowMajor(tiles, i, j), tiles[i][j]);
          if tiles[i][j] > maxTile {
            maxTile := tiles[i][j];
          }
        }
        RowMajorEnd(tiles, nrows, ncols, i);
      }
      RowMajorEnd(tiles, nrows, ncols, nrows - 1);
      NoTilesIffMaxZero(Flatten(tiles));
      value := Pow2(maxTile);
    }

    /** `num_tiles`: the number of non-empty cells. */
    method NumTiles() returns (count: nat)
      requires Valid()
      ensures count == CountTiles(Flatten(tiles))
    {
      count := 0;
      for i := 0 to nrows
        invariant count == CountTiles(Flatten(tiles[..i]))
      {
        RowMajorStart(tiles, i);
        for j := 0 to ncols
          invariant count == CountTiles(RowMajor(tiles, i, j))
        {
          RowMajorStep(tiles, i, j);
          Snoc(RowMajor(tiles, i, j), tiles[i][j]);
          if tiles[i][j] > 0 {
            count := count + 1;
          }
        }
        RowMajorEnd(tiles, nrows, ncols, i);
      }
      RowMajorEnd(tiles, nrows, ncols, nrows - 1);
    }

    /** `num_empty_tiles`: the board size less the tiles, which is the number of empty cells. */
    method NumEmptyTiles() returns (empty: nat)
      requires Valid()
      ensures empty == CountEmpty(Flatten(tiles))
    {
      var n := NumTiles();
      FlattenSize(tiles, nrows, ncols);
      CountsAddUp(Flatten(tiles));
      empty := nrows * ncols - n;
    }

    /**
     * `duplicated_tile_values`: the exponents seen so far are kept as the keys
     * of a count map, and every tile whose exponent is already a key adds its
     * exponent to the total.
     */
    method DuplicatedTileValues() returns (total: nat)
      requires Valid()
      ensures total == Duplicated(Flatten(tiles))
    {
      var counts: map<nat, nat> := map[];
      total := 0;
      for i := 0 to nrows
        invariant total == Duplicated(Flatten(tiles[..i]))
        invariant forall v :: v in counts <==> v > 0 && v in Flatten(tiles[..i])
      {
        RowMajorStart(tiles, i);
        for j := 0 to ncols
          invariant total == Duplicated(RowMajor(tiles, i, j))
          invariant forall v :: v in counts <==> v > 0 && v in RowMajor(tiles, i, j)
        {
          RowMajorStep(tiles, i, j);
          Snoc(RowMajor(tiles, i, j), tiles[i][j]);
          var v := tiles[i][j];
          if v > 0 {
            if v !in counts {
              counts := counts[v := 0];
            } else {
              total := total + v;
            }
            counts := counts[v := counts[v] + 1];
          }
        }
        RowMajorEnd(tiles, nrows, ncols, i);
      }
      RowMajorEnd(tiles, nrows, ncols, nrows - 1);
    }

    /**
     * The inner loop of the column scan of `moves_available` on column j: a
     * flag is raised when a pair of the column would move that way, and the
     * scan stops once both flags are raised.
     */
    method ScanColumn(j: nat, up: bool, down: bool) returns (up': bool, down': bool)
      requires Valid() && j < ncols
      ensures up' <==> up || LaneMoves(tiles, nrows, ncols, Up, j, nrows)
      ensures down' <==> down || LaneMoves(tiles, nrows, ncols, Down, j, nrows)
    {
      up', down' := up, down;
      var prev: Option<nat> := None;
      for i := 0 to nrows
        invariant prev == if i == 0 then None else Some(tiles[i - 1][j])
        invariant up' <==> up || LaneMoves(tiles, nrows, ncols, Up, j, i)
        invariant down' <==> down || LaneMoves(tiles, nrows, ncols, Down, j, i)
      {
        var cur := tiles[i][j];
        if prev == Some(cur) && cur > 0 {
          assert PairMoves(tiles, nrows, ncols, Up, i, j) && PairMoves(tiles, nrows, ncols, Down, i, j);
          up', down' := true, true;
        } else if prev.Some? {
          if cur == 0 && prev.value != 0 {
            assert PairMoves(tiles, nrows, ncols, Down, i, j);
            down' := true;
          }
          if cur != 0 && prev.value == 0 {
            assert PairMoves(tiles, nrows, ncols, Up, i, j);
            up' := true;
          }
        }
        prev := Some(cur);
        if up' && down' {
          assert LaneMoves(tiles, nrows, ncols, Up, j, i + 1) || up;
          assert LaneMoves(tiles, nrows, ncols, Down, j, i + 1) || down;
          LaneMovesGrow(tiles, nrows, ncols, Up, j, i + 1, nrows);
          LaneMovesGrow(tiles, nrows, ncols, Down, j, i + 1, nrows);
          break;
        }
      }
    }

    /**
     * The inner loop of the row scan of `moves_available` on row i, as
     * `ScanColumn` with left and right.
     */
    method ScanRow(i: nat, left: bool, right: bool) returns (left': bool, right': bool)
      requires Valid() && i < nrows
      ensures left' <==> left || LaneMoves(tiles, nrows, ncols, Left, i, ncols)
      ensures right' <==> right || LaneMoves(tiles, nrows, ncols, Right, i, ncols)
    {
      left', right' := left, right;
      var prev: Option<nat> := None;
      for j := 0 to ncols
        invariant prev == if j == 0 then None else Some(tiles[i][j - 1])
        invariant left' <==> left || LaneMoves(tiles, nrows, ncols, Left, i, j)
        invariant right' <==> right || LaneMoves(tiles, nrows, ncols, Right, i, j)
      {
        var cur := tiles[i][j];
        if prev == Some(cur) && cur > 0 {
          assert PairMoves(tiles, nrows, ncols, Left, i, j) && PairMoves(tiles, nrows, ncols, Right, i, j);
          left', right' := true, true;
        } else if prev.Some? {
          if cur == 0 && prev.value != 0 {
            assert PairMoves(tiles, nrows, ncols, Right, i, j);
            right' := true;
          }
          if cur != 0 && prev.value == 0 {
            assert PairMoves(tiles, nrows, ncols, Left, i, j);
            left' := true;
          }
        }
        prev := Some(cur);
        if left' && right' {
          assert LaneMoves(tiles, nrows, ncols, Left, i, j + 1) || left;
          assert LaneMoves(tiles, nrows, ncols, Right, i, j + 1) || right;
          LaneMovesGrow(tiles, nrows, ncols, Left, i, j + 1, ncols);
          LaneMovesGrow(tiles, nrows, ncols, Right, i, j + 1, ncols);
          break;
        }
      }
    }

    /**
     * The column half of `moves_available`: it adds Up and Down to `dirs` when
     * some column can move that way, and stops once both are found.
     */
    method ScanColumns(dirs: set<Dir>) returns (dirs': set<Dir>)
      requires Valid()
      ensures dirs' == dirs + (if CanMove(tiles, nrows, ncols, Up) then {Up} else {})
                            + (if CanMove(tiles, nrows, ncols, Down) then {Down} else {})
    {
      dirs' := dirs;
      var up, down := false, false;
      for j := 0 to ncols
        invariant dirs' == dirs + (if up then {Up} else {}) + (if down then {Down} else {})
        invariant up <==> exists k :: 0 <= k < j && LaneMoves(tiles, nrows, ncols, Up, k, nrows)
        invariant down <==> exists k :: 0 <= k < j && LaneMoves(tiles, nrows, ncols, Down, k, nrows)
      {
        up, down := ScanColumn(j, up, down);
        if up {
          dirs' := dirs' + {Up};
        }
        if down {
          dirs' := dirs' + {Down};
        }
        if up && down {
          break;
        }
      }
      CanMoveIffLanes(tiles, nrows, ncols, Up);
      CanMoveIffLanes(tiles, nrows, ncols, Down);
    }

    /**
     * The row half of `moves_available`: it adds Left and Right to `dirs` when
     * some row can move that way, and stops once both are found.
     */
    method ScanRows(dirs: set<Dir>) returns (dirs': set<Dir>)
      requires Valid()
      ensures dirs' == dirs + (if CanMove(tiles, nrows, ncols, Left) then {Left} else {})
                            + (if CanMove(tiles, nrows, ncols, Right) then {Right} else {})
    {
      dirs' := dirs;
      var left, right := false, false;
      for i := 0 to nrows
        invariant dirs' == dirs + (if left then {Left} else {}) + (if right then {Right} else {})
        invariant left <==> exists k :: 0 <= k < i && LaneMoves(tiles, nrows, ncols, Left, k, ncols)
        invariant right <==> exists k :: 0 <= k < i && LaneMoves(tiles, nrows, ncols, Right, k, ncols)
      {
        left, right := ScanRow(i, left, right);
        if left {
          dirs' := dirs' + {Left};
        }
        if right {
          dirs' := dirs' + {Right};
        }
        if left && right {
          break;
        }
      }
      CanMoveIffLanes(tiles, nrows, ncols, Left);
      CanMoveIffLanes(tiles, nrows, ncols, Right);
    }

    /**
     * `moves_available`: exactly the directions in which some neighbouring
     * pair would move, columns first and then rows.
     */
    method MovesAvailable() returns (dirs: set<Dir>)
      requires Valid()
      ensures forall d :: d in dirs <==> CanMove(tiles, nrows, ncols, d)
    {
      dirs := ScanColumns({});
      dirs := ScanRows(dirs);
    }
  }

  /** The cell at row i, column j once the first k tokens of the board are written into it. */
  function Filled(ts: seq<nat>, ncols: nat, k: nat, i: nat, j: nat): nat
    requires k <= |ts|
  {
    if i * ncols + j < k then ts[i * ncols + j] else 0
  }

  /** The board holds the first k tokens in row-major order and is empty elsewhere. */
  predicate FilledUpTo(tiles: Grid, ts: seq<nat>, nrows: nat, ncols: nat, k: nat)
    requires k <= |ts|
  {
    IsGrid(tiles, nrows, ncols) &&
    forall i: nat, j: nat :: i < nrows && j < ncols ==> tiles[i][j] == Filled(ts, ncols, k, i, j)
  }

  /** Writing token k to row k / ncols, column k % ncols extends the written prefix by one. */
  lemma FillNext(tiles: Grid, ts: seq<nat>, nrows: nat, ncols: nat, k: nat)
    requires k < |ts| == nrows * ncols && FilledUpTo(tiles, ts, nrows, ncols, k)
    ensures ncols > 0 && k / ncols < nrows && k % ncols < ncols
    ensures FilledUpTo(WriteCell(tiles, k / ncols, k % ncols, ts[k]), ts, nrows, ncols, k + 1)
  {
    RowBound(nrows, ncols, k);
    var next := WriteCell(tiles, k / ncols, k % ncols, ts[k]);
    forall i: nat, j: nat | i < nrows && j < ncols
      ensures next[i][j] == Filled(ts, ncols, k + 1, i, j)
    {
      CellIndex(ncols, k, i, j);
    }
  }

  /** A board filled with all its tokens holds them in row-major order. */
  lemma FillDone(tiles: Grid, ts: seq<nat>, nrows: nat, ncols: nat)
    requires |ts| == nrows * ncols && FilledUpTo(tiles, ts, nrows, ncols, |ts|)
    ensures RowMajorOf(tiles, ts, ncols)
  {
    forall i: nat, j: nat | i < |tiles| && j < |tiles[i]|
      ensures RowMajorAt(tiles, ts, ncols, i, j)
    {
      IndexBound(nrows, ncols, i, j);
      assert tiles[i][j] == Filled(ts, ncols, |ts|, i, j);
    }
  }

  /**
   * The loop of `GameState.from_csv_line`: an nrows by ncols board of empty
   * cells, then token k written to row k / ncols, column k % ncols.
   */
  method FillTiles(ts: seq<nat>, nrows: nat, ncols: nat) returns (tiles: Grid)
    requires |ts| == nrows * ncols
    ensures IsGrid(tiles, nrows, ncols) && RowMajorOf(tiles, ts, ncols)
  {
    tiles := seq(nrows, _ => seq(ncols, _ => 0));
    for k := 0 to nrows * ncols
      invariant FilledUpTo(tiles, ts, nrows, ncols, k)
    {
      FillNext(tiles, ts, nrows, ncols, k);
      tiles := WriteCell(tiles, k / ncols, k % ncols, ts[k]);
    }
    FillDone(tiles, ts, nrows, ncols);
  }

  /**
   * `GameState.from_csv_line` with the board size passed on to the
   * constructor: the fields are read as `DecodeLine` reads them, and token
   * 2 + i * ncols + j becomes the tile at row i, column j.
   */
  method FromCsvLine(line: string, nrows: nat, ncols: nat) returns (r: Result<TileGame, CsvError>)
    ensures DecodeLine(line, nrows, ncols).Err? ==> r == Err(DecodeLine(line, nrows, ncols).error)
    ensures DecodeLine(line, nrows, ncols).Ok? ==> r.Ok? && fresh(r.value) && r.value.Valid()
    ensures r.Ok? ==>
              var saved := DecodeLine(line, nrows, ncols).value;
              && r.value.nrows == nrows && r.value.ncols == ncols
              && r.value.score == saved.score && r.value.gameOver == saved.gameOver
              && RowMajorOf(r.value.tiles, saved.tiles, ncols)
  {
    var decoded := DecodeLine(line, nrows, ncols);
    if decoded.Err? {
      return Err(decoded.error);
    }
    var tiles := FillTiles(decoded.value.tiles, nrows, ncols);
    var game := new TileGame(nrows, ncols, tiles, decoded.value.score, decoded.value.gameOver);
    r := Ok(game);
  }

  /**
   * A board saved by `append_game_state` reads back as itself: the line
   * decodes to the saved fields, and a board that holds the decoded tiles in
   * row-major order, as `FromCsvLine` builds it, is the saved board.
   */
  lemma SaveThenRead(grid: Grid, nrows: nat, ncols: nat, gameOver: bool, score: nat, rest: string, loaded: Grid)
    requires IsGrid(grid, nrows, ncols) && nrows > 0
    requires IsGrid(loaded, nrows, ncols) && RowMajorOf(loaded, Flatten(grid), ncols)
    ensures DecodeLine(EncodeLine(Saved(gameOver, score, Flatten(grid))) + rest, nrows, ncols)
            == Ok(Saved(gameOver, score, Flatten(grid)))
    ensures loaded == grid
  {
    FlattenSize(grid, nrows, ncols);
    DecodeEncode(Saved(gameOver, score, Flatten(grid)), nrows, ncols, rest);
    FlattenRowMajor(grid, nrows, ncols);
    RowMajorUnique(loaded, grid, nrows, ncols, Flatten(grid));
  }

  /**
   * `Game.move` up to its assertion: the directions are computed before the
   * move, and a move that changed the board was among them.
   */
  method PlayMove(game: TileGame, d: Dir) returns (available: set<Dir>, moved: Option<bool>)
    requires game.Valid()
    modifies game`tiles, game`score
    ensures game.Valid()
    ensures forall e :: e in available <==> CanMove(old(game.tiles), game.nrows, game.ncols, e)
    ensures moved == Some(true) ==> d in available
    ensures moved == Some(true) <==> !game.gameOver && game.tiles != old(game.tiles)
  {
    available := game.MovesAvailable();
    moved := game.MoveTiles(d);
    if moved == Some(true) {
      CanMoveIffChanges(old(game.tiles), game.nrows, game.ncols, d);
      assert d in available;
    }
  }
}
