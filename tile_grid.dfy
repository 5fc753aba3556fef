// The board of the 2048-style engine of game/game_engine.py as a value:
// nrows rows of ncols exponents. A move works through groups (the columns
// for Up and Down, the rows for Left and Right), each read from the edge the
// move is toward.

module TileGrid {
  import opened TileLine

  /** The four move directions, the strings "Up", "Down", "Left" and "Right" of the source. */
  datatype Dir = Up | Down | Left | Right

  type Grid = seq<seq<nat>>

  predicate IsGrid(grid: Grid, R: nat, C: nat)
  {
    |grid| == R && forall i :: 0 <= i < R ==> |grid[i]| == C
  }

  /** The number of groups of a move. */
  function Groups(d: Dir, R: nat, C: nat): nat
  {
    if d == Up || d == Down then C else R
  }

  /** The number of cells in each group of a move. */
  function GroupLen(d: Dir, R: nat, C: nat): nat
  {
    if d == Up || d == Down then R else C
  }

  /** Whether cell (i, j) belongs to group g. */
  predicate InGroup(d: Dir, g: nat, i: nat, j: nat)
  {
    if d == Up || d == Down then j == g else i == g
  }

  /** Cell k of group g, counted from the edge the move is toward (the `groups` lists of `move_tiles`). */
  function Cell(d: Dir, R: nat, C: nat, g: nat, k: nat): (cell: (nat, nat))
    requires g < Groups(d, R, C) && k < GroupLen(d, R, C)
    ensures cell.0 < R && cell.1 < C && InGroup(d, g, cell.0, cell.1)
  {
    match d
    case Up => (k, g)
    case Down => (R - 1 - k, g)
    case Left => (g, k)
    case Right => (g, C - 1 - k)
  }

  /** The group of cell (i, j) and the cell's place in it. */
  function GroupOf(d: Dir, R: nat, C: nat, i: nat, j: nat): (gk: (nat, nat))
    requires i < R && j < C
    ensures gk.0 < Groups(d, R, C) && gk.1 < GroupLen(d, R, C)
    ensures Cell(d, R, C, gk.0, gk.1) == (i, j)
  {
    match d
    case Up => (j, i)
    case Down => (j, R - 1 - i)
    case Left => (i, j)
    case Right => (i, C - 1 - j)
  }

  /** The exponents of group g, in the order the move reads them. */
  function LineOf(grid: Grid, R: nat, C: nat, d: Dir, g: nat): (line: seq<nat>)
    requires IsGrid(grid, R, C) && g < Groups(d, R, C)
    ensures |line| == GroupLen(d, R, C)
  {
    seq(GroupLen(d, R, C), k requires 0 <= k < GroupLen(d, R, C) => grid[Cell(d, R, C, g, k).0][Cell(d, R, C, g, k).1])
  }

  // A reference definition of a whole move: a move Left slides every row,
  // and the other directions reduce to it by mirroring and transposing.

  function Reverse(s: seq<nat>): (r: seq<nat>)
    ensures |r| == |s|
  {
    seq(|s|, k requires 0 <= k < |s| => s[|s| - 1 - k])
  }

  function Transpose(grid: Grid, R: nat, C: nat): (t: Grid)
    requires IsGrid(grid, R, C)
    ensures IsGrid(t, C, R)
  {
    seq(C, j requires 0 <= j < C => seq(R, i requires 0 <= i < R => grid[i][j]))
  }

  function SlideRows(grid: Grid): (r: Grid)
    ensures |r| == |grid| && forall i :: 0 <= i < |grid| ==> |r[i]| == |grid[i]|
  {
    seq(|grid|, i requires 0 <= i < |grid| => Slide(grid[i]))
  }

  function MirrorRows(grid: Grid): (r: Grid)
    ensures |r| == |grid| && forall i :: 0 <= i < |grid| ==> |r[i]| == |grid[i]|
  {
    seq(|grid|, i requires 0 <= i < |grid| => Reverse(grid[i]))
  }

  function MoveGrid(grid: Grid, R: nat, C: nat, d: Dir): (r: Grid)
    requires IsGrid(grid, R, C)
    ensures IsGrid(r, R, C)
  {
    match d
    case Left => SlideRows(grid)
    case Right => MirrorRows(SlideRows(MirrorRows(grid)))
    case Up => Transpose(SlideRows(Transpose(grid, R, C)), C, R)
    case Down => Transpose(MirrorRows(SlideRows(MirrorRows(Transpose(grid, R, C)))), C, R)
  }

  /** In every direction, the reference move slides each group toward its front. */
  lemma MoveGridCell(grid: Grid, R: nat, C: nat, d: Dir, g: nat, k: nat)
    requires IsGrid(grid, R, C) && g < Groups(d, R, C) && k < GroupLen(d, R, C)
    ensures MoveGrid(grid, R, C, d)[Cell(d, R, C, g, k).0][Cell(d, R, C, g, k).1] == Slide(LineOf(grid, R, C, d, g))[k]
  {
    match d
    case Left => MoveLeftCell(grid, R, C, g, k);
    case Right => MoveRightCell(grid, R, C, g, k);
    case Up => MoveUpCell(grid, R, C, g, k);
    case Down => MoveDownCell(grid, R, C, g, k);
  }

  lemma MoveLeftCell(grid: Grid, R: nat, C: nat, g: nat, k: nat)
    requires IsGrid(grid, R, C) && g < R && k < C
    ensures MoveGrid(grid, R, C, Left)[g][k] == Slide(LineOf(grid, R, C, Left, g))[k]
  {
    assert grid[g] == LineOf(grid, R, C, Left, g);
  }

  lemma MoveRightCell(grid: Grid, R: nat, C: nat, g: nat, k: nat)
    requires IsGrid(grid, R, C) && g < R && k < C
    ensures MoveGrid(grid, R, C, Right)[g][C - 1 - k] == Slide(LineOf(grid, R, C, Right, g))[k]
  {
    assert MirrorRows(grid)[g] == LineOf(grid, R, C, Right, g);
  }

  lemma MoveUpCell(grid: Grid, R: nat, C: nat, g: nat, k: nat)
    requires IsGrid(grid, R, C) && g < C && k < R
    ensures MoveGrid(grid, R, C, Up)[k][g] == Slide(LineOf(grid, R, C, Up, g))[k]
  {
    assert Transpose(grid, R, C)[g] == LineOf(grid, R, C, Up, g);
  }

  lemma MoveDownCell(grid: Grid, R: nat, C: nat, g: nat, k: nat)
    requires IsGrid(grid, R, C) && g < C && k < R
    ensures MoveGrid(grid, R, C, Down)[R - 1 - k][g] == Slide(LineOf(grid, R, C, Down, g))[k]
  {
    assert MirrorRows(Transpose(grid, R, C))[g] == LineOf(grid, R, C, Down, g);
  }

  /** A grid whose every group is the slid group of another grid is that grid after the move. */
  lemma GridFromLines(after: Grid, before: Grid, R: nat, C: nat, d: Dir)
    requires IsGrid(after, R, C) && IsGrid(before, R, C)
    requires forall g :: 0 <= g < Groups(d, R, C) ==> LineOf(after, R, C, d, g) == Slide(LineOf(before, R, C, d, g))
    ensures after == MoveGrid(before, R, C, d)
  {
    var moved := MoveGrid(before, R, C, d);
    forall i | 0 <= i < R
      ensures after[i] == moved[i]
    {
      forall j | 0 <= j < C
        ensures after[i][j] == moved[i][j]
      {
        var gk := GroupOf(d, R, C, i, j);
        assert after[i][j] == LineOf(after, R, C, d, gk.0)[gk.1];
        MoveGridCell(before, R, C, d, gk.0, gk.1);
      }
    }
  }

  /** A move changes group g. */
  predicate GroupChanges(grid: Grid, R: nat, C: nat, d: Dir, g: nat)
    requires IsGrid(grid, R, C) && g < Groups(d, R, C)
  {
    Slide(LineOf(grid, R, C, d, g)) != LineOf(grid, R, C, d, g)
  }

  /** A group that a move changes makes the whole grid change. */
  lemma GroupChangeMoves(grid: Grid, R: nat, C: nat, d: Dir, g: nat)
    requires IsGrid(grid, R, C) && g < Groups(d, R, C) && GroupChanges(grid, R, C, d, g)
    ensures MoveGrid(grid, R, C, d) != grid
  {
    var line := LineOf(grid, R, C, d, g);
    assert Slide(line) != line;
    var k :| 0 <= k < |line| && Slide(line)[k] != line[k];
    MoveGridCell(grid, R, C, d, g, k);
  }

  /** A move changes the grid exactly when it changes some group. */
  lemma MoveChangesIff(grid: Grid, R: nat, C: nat, d: Dir)
    requires IsGrid(grid, R, C)
    ensures MoveGrid(grid, R, C, d) != grid <==>
              exists g :: 0 <= g < Groups(d, R, C) && GroupChanges(grid, R, C, d, g)
  {
    if exists g :: 0 <= g < Groups(d, R, C) && GroupChanges(grid, R, C, d, g) {
      var g :| 0 <= g < Groups(d, R, C) && GroupChanges(grid, R, C, d, g);
      GroupChangeMoves(grid, R, C, d, g);
    } else {
      forall g | 0 <= g < Groups(d, R, C)
        ensures LineOf(grid, R, C, d, g) == Slide(LineOf(grid, R, C, d, g))
      {
        assert !GroupChanges(grid, R, C, d, g);
      }
      GridFromLines(grid, grid, R, C, d);
    }
  }

  /** (i, j) has a neighbour before it along d: the cell above for a column, to the left for a row. */
  predicate PairAt(d: Dir, R: nat, C: nat, i: nat, j: nat)
  {
    i < R && j < C && if d == Up || d == Down then i > 0 else j > 0
  }

  /**
   * The check of `moves_available` on cell (i, j) and the neighbour before it,
   * the cell nearer the edge the move is toward first.
   */
  predicate PairMoves(grid: Grid, R: nat, C: nat, d: Dir, i: nat, j: nat)
    requires IsGrid(grid, R, C) && PairAt(d, R, C, i, j)
  {
    match d
    case Up => StepMoves(grid[i - 1][j], grid[i][j])
    case Down => StepMoves(grid[i][j], grid[i - 1][j])
    case Left => StepMoves(grid[i][j - 1], grid[i][j])
    case Right => StepMoves(grid[i][j], grid[i][j - 1])
  }

  /** The scan of `moves_available`: a move in direction d is offered when some neighbour pair along d passes. */
  predicate CanMove(grid: Grid, R: nat, C: nat, d: Dir)
    requires IsGrid(grid, R, C)
  {
    exists i: nat, j: nat :: i < R && j < C && PairAt(d, R, C, i, j) && PairMoves(grid, R, C, d, i, j)
  }

  lemma PairToLine(grid: Grid, R: nat, C: nat, d: Dir, i: nat, j: nat)
    requires IsGrid(grid, R, C) && PairAt(d, R, C, i, j) && PairMoves(grid, R, C, d, i, j)
    ensures exists g :: 0 <= g < Groups(d, R, C) && LineMoves(LineOf(grid, R, C, d, g))
  {
    var gk: (nat, nat) := match d
      case Up => (j, i)
      case Down => (j, R - i)
      case Left => (i, j)
      case Right => (i, C - j);
    var g, k := gk.0, gk.1;
    var line := LineOf(grid, R, C, d, g);
    assert StepMoves(line[k - 1], line[k]);
  }

  lemma LineToPair(grid: Grid, R: nat, C: nat, d: Dir, g: nat, k: nat)
    requires IsGrid(grid, R, C) && g < Groups(d, R, C) && 0 < k < GroupLen(d, R, C)
    requires StepMoves(LineOf(grid, R, C, d, g)[k - 1], LineOf(grid, R, C, d, g)[k])
    ensures CanMove(grid, R, C, d)
  {
    var ij: (nat, nat) := match d
      case Up => (k, g)
      case Down => (R - k, g)
      case Left => (g, k)
      case Right => (g, C - k);
    var i, j := ij.0, ij.1;
    assert PairMoves(grid, R, C, d, i, j);
  }

  lemma CanMoveIffLines(grid: Grid, R: nat, C: nat, d: Dir)
    requires IsGrid(grid, R, C)
    ensures CanMove(grid, R, C, d) <==> exists g :: 0 <= g < Groups(d, R, C) && LineMoves(LineOf(grid, R, C, d, g))
  {
    if CanMove(grid, R, C, d) {
      var i: nat, j: nat :| PairAt(d, R, C, i, j) && PairMoves(grid, R, C, d, i, j);
      PairToLine(grid, R, C, d, i, j);
    }
    if exists g :: 0 <= g < Groups(d, R, C) && LineMoves(LineOf(grid, R, C, d, g)) {
      var g :| 0 <= g < Groups(d, R, C) && LineMoves(LineOf(grid, R, C, d, g));
      var line := LineOf(grid, R, C, d, g);
      var k :| 0 < k < |line| && StepMoves(line[k - 1], line[k]);
      LineToPair(grid, R, C, d, g, k);
    }
  }

  /**
   * Some neighbouring pair among the first n cells of lane k would move in
   * direction d; lane k is column k for Up and Down and row k for Left and Right.
   */
  predicate LaneMoves(grid: Grid, R: nat, C: nat, d: Dir, k: nat, n: nat)
    requires IsGrid(grid, R, C) && k < Groups(d, R, C) && n <= GroupLen(d, R, C)
  {
    if d == Up || d == Down then exists i: nat :: 0 < i < n && PairMoves(grid, R, C, d, i, k)
    else exists j: nat :: 0 < j < n && PairMoves(grid, R, C, d, k, j)
  }

  /** A pair found among the first n cells of a lane is among any longer prefix. */
  lemma LaneMovesGrow(grid: Grid, R: nat, C: nat, d: Dir, k: nat, n: nat, n': nat)
    requires IsGrid(grid, R, C) && k < Groups(d, R, C) && n <= n' <= GroupLen(d, R, C)
    ensures LaneMoves(grid, R, C, d, k, n) ==> LaneMoves(grid, R, C, d, k, n')
  {
    if LaneMoves(grid, R, C, d, k, n) {
      if d == Up || d == Down {
        var i: nat :| 0 < i < n && PairMoves(grid, R, C, d, i, k);
        assert 0 < i < n';
      } else {
        var j: nat :| 0 < j < n && PairMoves(grid, R, C, d, k, j);
        assert 0 < j < n';
      }
    }
  }

  /** A direction can move exactly when some whole lane holds a pair that would move. */
  lemma CanMoveIffLanes(grid: Grid, R: nat, C: nat, d: Dir)
    requires IsGrid(grid, R, C)
    ensures CanMove(grid, R, C, d) <==>
              exists k :: 0 <= k < Groups(d, R, C) && LaneMoves(grid, R, C, d, k, GroupLen(d, R, C))
  {
    if CanMove(grid, R, C, d) {
      var i: nat, j: nat :| i < R && j < C && PairAt(d, R, C, i, j) && PairMoves(grid, R, C, d, i, j);
      if d == Up || d == Down {
        assert LaneMoves(grid, R, C, d, j, GroupLen(d, R, C));
      } else {
        assert LaneMoves(grid, R, C, d, i, GroupLen(d, R, C));
      }
    }
    if exists k :: 0 <= k < Groups(d, R, C) && LaneMoves(grid, R, C, d, k, GroupLen(d, R, C)) {
      var k :| 0 <= k < Groups(d, R, C) && LaneMoves(grid, R, C, d, k, GroupLen(d, R, C));
      if d == Up || d == Down {
        var i: nat :| 0 < i < R && PairMoves(grid, R, C, d, i, k);
        assert PairAt(d, R, C, i, k);
      } else {
        var j: nat :| 0 < j < C && PairMoves(grid, R, C, d, k, j);
        assert PairAt(d, R, C, k, j);
      }
    }
  }

  /** `moves_available` offers a direction exactly when moving that way changes the board. */
  lemma CanMoveIffChanges(grid: Grid, R: nat, C: nat, d: Dir)
    requires IsGrid(grid, R, C)
    ensures CanMove(grid, R, C, d) <==> MoveGrid(grid, R, C, d) != grid
  {
    CanMoveIffLines(grid, R, C, d);
    MoveChangesIff(grid, R, C, d);
    forall g | 0 <= g < Groups(d, R, C)
      ensures LineMoves(LineOf(grid, R, C, d, g)) <==> GroupChanges(grid, R, C, d, g)
    {
      SlideFixedIff(LineOf(grid, R, C, d, g));
    }
  }

  // Replacing one group of a grid: the state of the board while a move
  // works through that group.

  /** The grid with group g replaced by line. */
  function SetLine(grid: Grid, R: nat, C: nat, d: Dir, g: nat, line: seq<nat>): (r: Grid)
    requires IsGrid(grid, R, C) && g < Groups(d, R, C) && |line| == GroupLen(d, R, C)
    ensures IsGrid(r, R, C)
  {
    seq(R, i requires 0 <= i < R =>
      seq(C, j requires 0 <= i < R && 0 <= j < C =>
        if InGroup(d, g, i, j) then line[GroupOf(d, R, C, i, j).1] else grid[i][j]))
  }

  /** After the replacement group g reads as the new line, and every other group as before. */
  lemma SetLineOf(grid: Grid, R: nat, C: nat, d: Dir, g: nat, line: seq<nat>, h: nat)
    requires IsGrid(grid, R, C) && g < Groups(d, R, C) && |line| == GroupLen(d, R, C)
    requires h < Groups(d, R, C)
    ensures LineOf(SetLine(grid, R, C, d, g, line), R, C, d, h) == if h == g then line else LineOf(grid, R, C, d, h)
  {
    var r := SetLine(grid, R, C, d, g, line);
    forall k | 0 <= k < GroupLen(d, R, C)
      ensures LineOf(r, R, C, d, h)[k] == if h == g then line[k] else LineOf(grid, R, C, d, h)[k]
    {
      SetLineAt(grid, R, C, d, g, line, h, k);
    }
  }

  /** `SetLineOf` at cell k of group h. */
  lemma SetLineAt(grid: Grid, R: nat, C: nat, d: Dir, g: nat, line: seq<nat>, h: nat, k: nat)
    requires IsGrid(grid, R, C) && g < Groups(d, R, C) && |line| == GroupLen(d, R, C)
    requires h < Groups(d, R, C) && k < GroupLen(d, R, C)
    ensures LineOf(SetLine(grid, R, C, d, g, line), R, C, d, h)[k] == if h == g then line[k] else LineOf(grid, R, C, d, h)[k]
  {
    var cell := Cell(d, R, C, h, k);
    assert GroupOf(d, R, C, cell.0, cell.1) == (h, k);
  }

  /** Replacing a group by its own cells changes nothing. */
  lemma SetLineSame(grid: Grid, R: nat, C: nat, d: Dir, g: nat)
    requires IsGrid(grid, R, C) && g < Groups(d, R, C)
    ensures SetLine(grid, R, C, d, g, LineOf(grid, R, C, d, g)) == grid
  {
    var r := SetLine(grid, R, C, d, g, LineOf(grid, R, C, d, g));
    forall i | 0 <= i < R
      ensures r[i] == grid[i]
    {
      forall j | 0 <= j < C
        ensures r[i][j] == grid[i][j]
      {
        var gk := GroupOf(d, R, C, i, j);
      }
    }
  }

  /** A second replacement of the same group overrides the first. */
  lemma SetLineTwice(grid: Grid, R: nat, C: nat, d: Dir, g: nat, line: seq<nat>, line': seq<nat>)
    requires IsGrid(grid, R, C) && g < Groups(d, R, C)
    requires |line| == GroupLen(d, R, C) && |line'| == GroupLen(d, R, C)
    ensures SetLine(SetLine(grid, R, C, d, g, line), R, C, d, g, line') == SetLine(grid, R, C, d, g, line')
  {
    var a := SetLine(SetLine(grid, R, C, d, g, line), R, C, d, g, line');
    var b := SetLine(grid, R, C, d, g, line');
    forall i | 0 <= i < R
      ensures a[i] == b[i]
    {
    }
  }

  /** The grid with cell (i, j) set to v. */
  function WriteCell(grid: Grid, i: nat, j: nat, v: nat): (r: Grid)
    requires i < |grid| && j < |grid[i]|
  {
    var row: seq<nat> := grid[i][j := v];
    grid[i := row]
  }

  /** Writing one cell of group g is replacing the group by its line with that cell updated. */
  lemma SetCell(grid: Grid, R: nat, C: nat, d: Dir, g: nat, k: nat, v: nat)
    requires IsGrid(grid, R, C) && g < Groups(d, R, C) && k < GroupLen(d, R, C)
    ensures
      var cell := Cell(d, R, C, g, k);
      WriteCell(grid, cell.0, cell.1, v) == SetLine(grid, R, C, d, g, LineOf(grid, R, C, d, g)[k := v])
  {
    var cell := Cell(d, R, C, g, k);
    var a := WriteCell(grid, cell.0, cell.1, v);
    var b := SetLine(grid, R, C, d, g, LineOf(grid, R, C, d, g)[k := v]);
    forall i | 0 <= i < R
      ensures a[i] == b[i]
    {
      forall j | 0 <= j < C
        ensures a[i][j] == b[i][j]
      {
        SetCellAt(grid, R, C, d, g, k, v, i, j);
      }
    }
  }

  /** `SetCell` at one cell (i, j). */
  lemma SetCellAt(grid: Grid, R: nat, C: nat, d: Dir, g: nat, k: nat, v: nat, i: nat, j: nat)
    requires IsGrid(grid, R, C) && g < Groups(d, R, C) && k < GroupLen(d, R, C) && i < R && j < C
    ensures
      var cell := Cell(d, R, C, g, k);
      WriteCell(grid, cell.0, cell.1, v)[i][j] == SetLine(grid, R, C, d, g, LineOf(grid, R, C, d, g)[k := v])[i][j]
  {
    var gk := GroupOf(d, R, C, i, j);
    if InGroup(d, g, i, j) {
      assert gk.0 == g;
    }
  }

  /** The grid after a move has worked through its first n groups. */
  function SlideFirst(grid: Grid, R: nat, C: nat, d: Dir, n: nat): (r: Grid)
    requires IsGrid(grid, R, C) && n <= Groups(d, R, C)
    ensures IsGrid(r, R, C)
  {
    seq(R, i requires 0 <= i < R =>
      seq(C, j requires 0 <= i < R && 0 <= j < C =>
        var gk := GroupOf(d, R, C, i, j);
        if gk.0 < n then Slide(LineOf(grid, R, C, d, gk.0))[gk.1] else grid[i][j]))
  }

  /** Before the first group, the grid is as it was. */
  lemma SlideFirstNone(grid: Grid, R: nat, C: nat, d: Dir)
    requires IsGrid(grid, R, C)
    ensures SlideFirst(grid, R, C, d, 0) == grid
  {
    var r := SlideFirst(grid, R, C, d, 0);
    forall i | 0 <= i < R
      ensures r[i] == grid[i]
    {
    }
  }

  /** Part way through a move, the groups done are slid and the others are as they were. */
  lemma SlideFirstLine(grid: Grid, R: nat, C: nat, d: Dir, n: nat, h: nat)
    requires IsGrid(grid, R, C) && n <= Groups(d, R, C) && h < Groups(d, R, C)
    ensures LineOf(SlideFirst(grid, R, C, d, n), R, C, d, h) ==
              if h < n then Slide(LineOf(grid, R, C, d, h)) else LineOf(grid, R, C, d, h)
  {
    var r := SlideFirst(grid, R, C, d, n);
    var want := if h < n then Slide(LineOf(grid, R, C, d, h)) else LineOf(grid, R, C, d, h);
    forall k | 0 <= k < GroupLen(d, R, C)
      ensures LineOf(r, R, C, d, h)[k] == want[k]
    {
      SlideFirstCell(grid, R, C, d, n, h, k);
    }
  }

  /** One cell of `SlideFirstLine`. */
  lemma SlideFirstCell(grid: Grid, R: nat, C: nat, d: Dir, n: nat, h: nat, k: nat)
    requires IsGrid(grid, R, C) && n <= Groups(d, R, C) && h < Groups(d, R, C) && k < GroupLen(d, R, C)
    ensures LineOf(SlideFirst(grid, R, C, d, n), R, C, d, h)[k] ==
              if h < n then Slide(LineOf(grid, R, C, d, h))[k] else LineOf(grid, R, C, d, h)[k]
  {
    var cell := Cell(d, R, C, h, k);
    assert GroupOf(d, R, C, cell.0, cell.1) == (h, k);
  }

  /** Sliding group n of the grid part way through a move finishes that group. */
  lemma SlideFirstStep(grid: Grid, R: nat, C: nat, d: Dir, n: nat)
    requires IsGrid(grid, R, C) && n < Groups(d, R, C)
    ensures SetLine(SlideFirst(grid, R, C, d, n), R, C, d, n, Slide(LineOf(grid, R, C, d, n)))
            == SlideFirst(grid, R, C, d, n + 1)
  {
    var a := SetLine(SlideFirst(grid, R, C, d, n), R, C, d, n, Slide(LineOf(grid, R, C, d, n)));
    var b := SlideFirst(grid, R, C, d, n + 1);
    forall i | 0 <= i < R
      ensures a[i] == b[i]
    {
      forall j | 0 <= j < C
        ensures a[i][j] == b[i][j]
      {
        var gk := GroupOf(d, R, C, i, j);
        if InGroup(d, n, i, j) {
          assert gk.0 == n;
        }
      }
    }
  }

  /** Once every group is done, the grid is the reference move. */
  lemma SlideFirstAll(grid: Grid, R: nat, C: nat, d: Dir)
    requires IsGrid(grid, R, C)
    ensures SlideFirst(grid, R, C, d, Groups(d, R, C)) == MoveGrid(grid, R, C, d)
  {
    forall h | 0 <= h < Groups(d, R, C)
      ensures LineOf(SlideFirst(grid, R, C, d, Groups(d, R, C)), R, C, d, h) == Slide(LineOf(grid, R, C, d, h))
    {
      SlideFirstLine(grid, R, C, d, Groups(d, R, C), h);
    }
    GridFromLines(SlideFirst(grid, R, C, d, Groups(d, R, C)), grid, R, C, d);
  }

  /** Whether p holds for one of 0 .. n - 1, found by counting down from n - 1. */
  ghost predicate AnyBelow(p: nat -> bool, n: nat)
  {
    n > 0 && (AnyBelow(p, n - 1) || p(n - 1))
  }

  lemma {:induction false} AnyBelowIff(p: nat -> bool, n: nat)
    ensures AnyBelow(p, n) <==> exists h :: 0 <= h < n && p(h)
  {
    if n > 0 {
      AnyBelowIff(p, n - 1);
      if exists h :: 0 <= h < n && p(h) {
        var h :| 0 <= h < n && p(h);
        assert h == n - 1 || (0 <= h < n - 1 && p(h));
      }
    }
  }

  /** The groups a move changes. */
  ghost function Changes(grid: Grid, R: nat, C: nat, d: Dir): nat -> bool
  {
    (g: nat) => IsGrid(grid, R, C) && g < Groups(d, R, C) && GroupChanges(grid, R, C, d, g)
  }

  /** Whether a move changes one of the first n groups: the `moved_any` flag of `move_tiles`. */
  ghost predicate ChangedBefore(grid: Grid, R: nat, C: nat, d: Dir, n: nat)
  {
    AnyBelow(Changes(grid, R, C, d), n)
  }

  /** A move changes some of the first n groups exactly when one of them slides to something else. */
  lemma ChangedBeforeIff(grid: Grid, R: nat, C: nat, d: Dir, n: nat)
    requires IsGrid(grid, R, C) && n <= Groups(d, R, C)
    ensures ChangedBefore(grid, R, C, d, n) <==>
              exists h :: 0 <= h < n && GroupChanges(grid, R, C, d, h)
  {
    var p := Changes(grid, R, C, d);
    AnyBelowIff(p, n);
    if exists h :: 0 <= h < n && p(h) {
      var h :| 0 <= h < n && p(h);
      assert GroupChanges(grid, R, C, d, h);
    }
    if exists h :: 0 <= h < n && GroupChanges(grid, R, C, d, h) {
      var h :| 0 <= h < n && GroupChanges(grid, R, C, d, h);
      assert p(h);
    }
  }

  /** One more group: the flag of `move_tiles` is set when that group changes. */
  lemma ChangedBeforeStep(grid: Grid, R: nat, C: nat, d: Dir, n: nat)
    requires IsGrid(grid, R, C) && n < Groups(d, R, C)
    ensures ChangedBefore(grid, R, C, d, n + 1) == (ChangedBefore(grid, R, C, d, n) || GroupChanges(grid, R, C, d, n))
  {
    assert Changes(grid, R, C, d)(n) == GroupChanges(grid, R, C, d, n);
  }

  /** Before the first group nothing changed. */
  lemma ChangedBeforeNone(grid: Grid, R: nat, C: nat, d: Dir)
    ensures !ChangedBefore(grid, R, C, d, 0)
  {
  }

  /** Once every group is done, the grid is the reference move, and the flag says whether it differs from the start. */
  lemma MoveDone(start: Grid, R: nat, C: nat, d: Dir, grid: Grid, changed: bool)
    requires IsGrid(start, R, C)
    requires grid == SlideFirst(start, R, C, d, Groups(d, R, C))
    requires changed == ChangedBefore(start, R, C, d, Groups(d, R, C))
    ensures grid == MoveGrid(start, R, C, d)
    ensures changed <==> grid != start
  {
    SlideFirstAll(start, R, C, d);
    ChangedBeforeIff(start, R, C, d, Groups(d, R, C));
    MoveChangesIff(start, R, C, d);
  }

  /** The score earned in the first n groups of a move. */
  function GainBefore(grid: Grid, R: nat, C: nat, d: Dir, n: nat): nat
    requires IsGrid(grid, R, C) && n <= Groups(d, R, C)
  {
    if n == 0 then 0 else GainBefore(grid, R, C, d, n - 1) + MergeGain(Compact(LineOf(grid, R, C, d, n - 1)))
  }

  function MoveGain(grid: Grid, R: nat, C: nat, d: Dir): nat
    requires IsGrid(grid, R, C)
  {
    GainBefore(grid, R, C, d, Groups(d, R, C))
  }

  // The counters read the cells in row-major order.

  function Flatten(grid: Grid): seq<nat>
  {
    if |grid| == 0 then [] else Flatten(grid[..|grid| - 1]) + grid[|grid| - 1]
  }

  lemma {:induction false} FlattenSize(grid: Grid, R: nat, C: nat)
    requires IsGrid(grid, R, C)
    ensures |Flatten(grid)| == R * C
    decreases R
  {
    if R > 0 {
      FlattenSize(grid[..R - 1], R - 1, C);
      assert (R - 1) * C + C == R * C;
    }
  }

  /** Reading row i to its end extends the row-major prefix by that row. */
  lemma FlattenRow(grid: Grid, R: nat, C: nat, i: nat)
    requires IsGrid(grid, R, C) && i < R
    ensures Flatten(grid[..i + 1]) == Flatten(grid[..i]) + grid[i][..C]
  {
    assert grid[..i + 1][..i] == grid[..i];
  }

  /** The cells of the first i rows and the first j cells of row i, in the order the counters visit them. */
  function RowMajor(grid: Grid, i: nat, j: nat): seq<nat>
    requires i < |grid| && j <= |grid[i]|
  {
    Flatten(grid[..i]) + grid[i][..j]
  }

  /** A row starts where the previous rows end. */
  lemma RowMajorStart(grid: Grid, i: nat)
    requires i < |grid|
    ensures RowMajor(grid, i, 0) == Flatten(grid[..i])
  {
    assert grid[i][..0] == [];
  }

  /** Visiting cell (i, j) appends it. */
  lemma RowMajorStep(grid: Grid, i: nat, j: nat)
    requires i < |grid| && j < |grid[i]|
    ensures RowMajor(grid, i, j + 1) == RowMajor(grid, i, j) + [grid[i][j]]
  {
    assert grid[i][..j + 1] == grid[i][..j] + [grid[i][j]];
  }

  /** A finished row completes the prefix of i + 1 rows, and the last row the whole board. */
  lemma RowMajorEnd(grid: Grid, R: nat, C: nat, i: nat)
    requires IsGrid(grid, R, C) && i < R
    ensures RowMajor(grid, i, C) == Flatten(grid[..i + 1])
    ensures i + 1 == R ==> Flatten(grid[..i + 1]) == Flatten(grid)
  {
    FlattenRow(grid, R, C, i);
    assert grid[..R] == grid;
  }

  /** The last element of `xs + [x]` is x and the rest is xs. */
  lemma Snoc(xs: seq<nat>, x: nat)
    ensures (xs + [x])[..|xs|] == xs && (xs + [x])[|xs|] == x
  {
  }

  /** Arithmetic of row-major indices, i * C + j for row i and column j. */
  lemma MulMono(a: nat, b: nat, c: nat)
    requires a <= b
    ensures a * c <= b * c
  {
    var d := b - a;
    assert b * c == a * c + d * c;
  }

  lemma LessFromMul(a: nat, b: nat, c: nat)
    ensures a * c < b * c ==> a < b
  {
    if a >= b {
      MulMono(b, a, c);
    }
  }

  lemma IndexBound(R: nat, C: nat, i: nat, j: nat)
    requires i < R && j < C
    ensures i * C + j < R * C
  {
    MulMono(i + 1, R, C);
    assert (i + 1) * C == i * C + C;
  }

  lemma CellIndex(C: nat, k: nat, i: nat, j: nat)
    requires j < C
    ensures i * C + j == k <==> i == k / C && j == k % C
  {
    var q, m := k / C, k % C;
    assert k == q * C + m;
    if i * C + j == k {
      assert (i + 1) * C == i * C + C && (q + 1) * C == q * C + C;
      LessFromMul(q, i + 1, C);
      LessFromMul(i, q + 1, C);
    }
  }

  lemma RowBound(R: nat, C: nat, k: nat)
    requires k < R * C
    ensures C > 0 && k / C < R && k % C < C
  {
    assert C > 0;
    assert k == (k / C) * C + k % C;
    LessFromMul(k / C, R, C);
  }

  /** Cell (i, j) of the grid exists and holds entry i * C + j of the row-major sequence ts. */
  predicate RowMajorAt(grid: Grid, ts: seq<nat>, C: nat, i: nat, j: nat)
  {
    i < |grid| && j < |grid[i]| && i * C + j < |ts| && grid[i][j] == ts[i * C + j]
  }

  /** Every cell of the grid holds its entry of the row-major sequence ts. */
  predicate RowMajorOf(grid: Grid, ts: seq<nat>, C: nat)
  {
    forall i: nat, j: nat :: i < |grid| && j < |grid[i]| ==> RowMajorAt(grid, ts, C, i, j)
  }

  /** Every cell of a grid is at its row-major place in the flattened board. */
  lemma {:induction false} FlattenRowMajor(grid: Grid, R: nat, C: nat)
    requires IsGrid(grid, R, C)
    ensures RowMajorOf(grid, Flatten(grid), C)
    decreases R
  {
    if R > 0 {
      FlattenRowMajor(grid[..R - 1], R - 1, C);
      forall i: nat, j: nat | i < |grid| && j < |grid[i]|
        ensures RowMajorAt(grid, Flatten(grid), C, i, j)
      {
        FlattenCell(grid, R, C, i, j);
      }
    }
  }

  /** One cell of `FlattenRowMajor`, given the rows before the last. */
  lemma FlattenCell(grid: Grid, R: nat, C: nat, i: nat, j: nat)
    requires IsGrid(grid, R, C) && i < R && j < C
    requires RowMajorOf(grid[..R - 1], Flatten(grid[..R - 1]), C)
    ensures RowMajorAt(grid, Flatten(grid), C, i, j)
  {
    var init := grid[..R - 1];
    FlattenSize(init, R - 1, C);
    assert Flatten(grid) == Flatten(init) + grid[R - 1];
    IndexBound(R, C, i, j);
    FlattenSize(grid, R, C);
    if i < R - 1 {
      IndexBound(R - 1, C, i, j);
      assert init[i] == grid[i];
      assert RowMajorAt(init, Flatten(init), C, i, j);
    }
  }

  /** Two boards of one size that hold the same row-major sequence are equal. */
  lemma RowMajorUnique(a: Grid, b: Grid, R: nat, C: nat, ts: seq<nat>)
    requires IsGrid(a, R, C) && IsGrid(b, R, C)
    requires RowMajorOf(a, ts, C) && RowMajorOf(b, ts, C)
    ensures a == b
  {
    forall i | 0 <= i < R
      ensures a[i] == b[i]
    {
      forall j | 0 <= j < C
        ensures a[i][j] == b[i][j]
      {
        assert RowMajorAt(a, ts, C, i, j) && RowMajorAt(b, ts, C, i, j);
      }
    }
  }

  /** The tiles and the empty cells of a board add up to its size (`num_tiles() + num_empty_tiles()`). */
  lemma BoardCountsAddUp(grid: Grid, R: nat, C: nat)
    requires IsGrid(grid, R, C)
    ensures CountTiles(Flatten(grid)) + CountEmpty(Flatten(grid)) == R * C
  {
    FlattenSize(grid, R, C);
    CountsAddUp(Flatten(grid));
  }

  /** The non-empty cells (`num_tiles`). */
  function CountTiles(xs: seq<nat>): nat
  {
    if |xs| == 0 then 0 else CountTiles(xs[..|xs| - 1]) + (if xs[|xs| - 1] > 0 then 1 else 0)
  }

  /** The empty cells. */
  function CountEmpty(xs: seq<nat>): nat
  {
    if |xs| == 0 then 0 else CountEmpty(xs[..|xs| - 1]) + (if xs[|xs| - 1] == 0 then 1 else 0)
  }

  /** Every cell is a tile or empty, so the two counts add up to the board size. */
  lemma {:induction false} CountsAddUp(xs: seq<nat>)
    ensures CountTiles(xs) + CountEmpty(xs) == |xs|
    decreases |xs|
  {
    if |xs| > 0 {
      CountsAddUp(xs[..|xs| - 1]);
    }
  }

  /** The largest exponent on the board, 0 for an empty board. */
  function MaxExp(xs: seq<nat>): nat
  {
    if |xs| == 0 then 0
    else if xs[|xs| - 1] > MaxExp(xs[..|xs| - 1]) then xs[|xs| - 1]
    else MaxExp(xs[..|xs| - 1])
  }

  /** `MaxExp` bounds every cell and is either held by a cell or 0. */
  lemma {:induction false} MaxExpIsMax(xs: seq<nat>)
    ensures forall k :: 0 <= k < |xs| ==> xs[k] <= MaxExp(xs)
    ensures MaxExp(xs) == 0 || exists k :: 0 <= k < |xs| && xs[k] == MaxExp(xs)
    decreases |xs|
  {
    if |xs| > 0 {
      var init := xs[..|xs| - 1];
      MaxExpIsMax(init);
      forall k | 0 <= k < |xs| - 1
        ensures xs[k] <= MaxExp(xs)
      {
        assert xs[k] == init[k];
      }
      if MaxExp(xs) != 0 && xs[|xs| - 1] != MaxExp(xs) {
        var k :| 0 <= k < |init| && init[k] == MaxExp(init);
        assert xs[k] == MaxExp(xs);
      }
    }
  }

  /** The largest exponent is 0 exactly when the board holds no tile. */
  lemma {:induction false} NoTilesIffMaxZero(xs: seq<nat>)
    ensures CountTiles(xs) == 0 <==> MaxExp(xs) == 0
    decreases |xs|
  {
    if |xs| > 0 {
      NoTilesIffMaxZero(xs[..|xs| - 1]);
    }
  }

  /** `duplicated_tile_values`: the sum of the exponents of the tiles whose exponent was already seen. */
  function Duplicated(xs: seq<nat>): nat
  {
    if |xs| == 0 then 0
    else
      var x := xs[|xs| - 1];
      Duplicated(xs[..|xs| - 1]) + (if x > 0 && x in xs[..|xs| - 1] then x else 0)
  }

  /** The sum is 0 exactly when no exponent occurs on two tiles. */
  lemma {:induction false} DuplicatedZeroIff(xs: seq<nat>)
    ensures Duplicated(xs) == 0 <==> forall k, l :: 0 <= k < l < |xs| && xs[l] > 0 ==> xs[k] != xs[l]
    decreases |xs|
  {
    if |xs| > 0 {
      var init := xs[..|xs| - 1];
      var x := xs[|xs| - 1];
      DuplicatedZeroIff(init);
      if Duplicated(xs) == 0 {
        forall k, l | 0 <= k < l < |xs| && xs[l] > 0
          ensures xs[k] != xs[l]
        {
          if l < |xs| - 1 {
            assert xs[k] == init[k] && xs[l] == init[l];
          } else {
            assert x !in init;
            assert init[k] == xs[k];
          }
        }
      } else if Duplicated(init) == 0 {
        var k :| 0 <= k < |init| && init[k] == x;
        assert xs[k] == xs[|xs| - 1];
      } else {
        var k, l :| 0 <= k < l < |init| && init[l] > 0 && init[k] == init[l];
        assert xs[k] == xs[l] && xs[l] > 0;
      }
    }
  }
}
