// One row or column of the 2048-style board of game/game_engine.py, read in
// the order of a move: the front cell is the edge the tiles move toward.
// A cell holds the log2 exponent of its tile, 0 for an empty cell.

module TileLine {
  import opened Wrappers

  /** `1 << n`: the face value of a tile with exponent n. */
  function Pow2(n: nat): (r: nat)
    ensures r >= 1
  {
    if n == 0 then 1 else 2 * Pow2(n - 1)
  }

  /** The tiles of a line with the empty cells dropped, in order. */
  function Compact(line: seq<nat>): (xs: seq<nat>)
    ensures |xs| <= |line|
    ensures forall k :: 0 <= k < |xs| ==> xs[k] > 0
  {
    if |line| == 0 then []
    else if line[0] == 0 then Compact(line[1..])
    else [line[0]] + Compact(line[1..])
  }

  predicate AllPositive(xs: seq<nat>)
  {
    forall k :: 0 <= k < |xs| ==> xs[k] > 0
  }

  /**
   * Reference merge of packed tiles: scanning from the front, two equal
   * neighbours become one tile one exponent higher, and the new tile is not
   * merged again. Every output tile stands for one or two input tiles.
   */
  function Merge(xs: seq<nat>): (r: seq<nat>)
    ensures |r| <= |xs| <= 2 * |r|
    ensures AllPositive(xs) ==> AllPositive(r)
  {
    if |xs| < 2 then xs
    else if xs[0] == xs[1] then [xs[0] + 1] + Merge(xs[2..])
    else [xs[0]] + Merge(xs[1..])
  }

  /** The score the reference merge earns: `1 << (v + 1)` for each pair of v-tiles. */
  function MergeGain(xs: seq<nat>): nat
  {
    if |xs| < 2 then 0
    else if xs[0] == xs[1] then Pow2(xs[0] + 1) + MergeGain(xs[2..])
    else MergeGain(xs[1..])
  }

  function Zeros(n: nat): seq<nat>
  {
    seq(n, _ => 0)
  }

  /** The line after a move: the merged tiles packed against the front, then empty cells. */
  function Slide(line: seq<nat>): (r: seq<nat>)
    ensures |r| == |line|
  {
    var out := Merge(Compact(line));
    out + Zeros(|line| - |out|)
  }

  /** After a move no empty cell lies in front of a tile. */
  lemma SlidePacked(line: seq<nat>, k: int, l: int)
    requires 0 <= k < l < |line| && Slide(line)[k] == 0
    ensures Slide(line)[l] == 0
  {
    var out := Merge(Compact(line));
    assert AllPositive(out);
  }

  /** Sum of the face values of the tiles of a line. */
  function Value(line: seq<nat>): nat
  {
    if |line| == 0 then 0
    else (if line[0] > 0 then Pow2(line[0]) else 0) + Value(line[1..])
  }

  lemma {:induction false} ValueConcat(a: seq<nat>, b: seq<nat>)
    ensures Value(a + b) == Value(a) + Value(b)
    decreases |a|
  {
    if |a| == 0 {
      assert a + b == b;
    } else {
      assert (a + b)[1..] == a[1..] + b;
      ValueConcat(a[1..], b);
    }
  }

  lemma {:induction false} ZerosValue(n: nat)
    ensures Value(Zeros(n)) == 0
  {
    if n > 0 {
      assert Zeros(n)[1..] == Zeros(n - 1);
      ZerosValue(n - 1);
    }
  }

  lemma {:induction false} CompactKeepsValue(line: seq<nat>)
    ensures Value(Compact(line)) == Value(line)
    decreases |line|
  {
    if |line| > 0 {
      CompactKeepsValue(line[1..]);
      if line[0] > 0 {
        ValueConcat([line[0]], Compact(line[1..]));
      }
    }
  }

  lemma {:induction false} MergeKeepsValue(xs: seq<nat>)
    requires AllPositive(xs)
    ensures Value(Merge(xs)) == Value(xs)
    decreases |xs|
  {
    if |xs| >= 2 {
      if xs[0] == xs[1] {
        MergeKeepsValue(xs[2..]);
        ValueConcat([xs[0] + 1], Merge(xs[2..]));
        assert xs[1..][1..] == xs[2..];
      } else {
        MergeKeepsValue(xs[1..]);
        ValueConcat([xs[0]], Merge(xs[1..]));
      }
    }
  }

  /** A move neither creates nor destroys face value: merging 2^v and 2^v gives 2^(v+1). */
  lemma SlideKeepsValue(line: seq<nat>)
    ensures Value(Slide(line)) == Value(line)
  {
    var out := Merge(Compact(line));
    ValueConcat(out, Zeros(|line| - |out|));
    ZerosValue(|line| - |out|);
    MergeKeepsValue(Compact(line));
    CompactKeepsValue(line);
  }

  /** A move earns at most the face value of the line, each merge paying for the two tiles it consumes. */
  lemma {:induction false} MergeGainBound(xs: seq<nat>)
    requires AllPositive(xs)
    ensures MergeGain(xs) <= Value(xs)
    decreases |xs|
  {
    if |xs| >= 2 {
      if xs[0] == xs[1] {
        MergeGainBound(xs[2..]);
        assert xs[1..][1..] == xs[2..];
      } else {
        MergeGainBound(xs[1..]);
      }
    }
  }

  // The scan of `move_tiles`, one cell at a time: the tiles placed so far,
  // whether the last of them came from a merge, and the score earned.

  datatype Scan = Scan(out: seq<nat>, merged: bool, gain: nat)

  const START: Scan := Scan([], false, 0)

  /** One cell of the scan: an empty cell is skipped; a tile merges into the last placed tile or is placed after it. */
  function Step(st: Scan, x: nat): Scan
  {
    if x == 0 then st
    else if |st.out| > 0 && st.out[|st.out| - 1] == x && !st.merged then
      Scan(st.out[..|st.out| - 1] + [x + 1], true, st.gain + Pow2(x + 1))
    else Scan(st.out + [x], false, st.gain)
  }

  function Run(st: Scan, xs: seq<nat>): Scan
    decreases |xs|
  {
    if |xs| == 0 then st else Run(Step(st, xs[0]), xs[1..])
  }

  lemma {:induction false} RunSnoc(st: Scan, xs: seq<nat>, x: nat)
    ensures Run(st, xs + [x]) == Step(Run(st, xs), x)
    decreases |xs|
  {
    if |xs| == 0 {
      assert xs + [x] == [x];
      assert [x][1..] == [];
    } else {
      assert (xs + [x])[1..] == xs[1..] + [x];
      RunSnoc(Step(st, xs[0]), xs[1..], x);
    }
  }

  /** The scan of one more cell of a line. */
  lemma RunPrefix(line: seq<nat>, idx: nat)
    requires idx < |line|
    ensures Run(START, line[..idx + 1]) == Step(Run(START, line[..idx]), line[idx])
  {
    assert line[..idx + 1] == line[..idx] + [line[idx]];
    RunSnoc(START, line[..idx], line[idx]);
  }

  /** From a state whose last tile cannot merge, the scan places the reference merge of what follows. */
  lemma {:induction false} RunFresh(st: Scan, xs: seq<nat>)
    requires st.merged || |st.out| == 0
    ensures Run(st, xs).out == st.out + Merge(Compact(xs))
    ensures Run(st, xs).gain == st.gain + MergeGain(Compact(xs))
    decreases |xs|, 3
  {
    if |xs| == 0 {
    } else if xs[0] == 0 {
      RunFresh(st, xs[1..]);
    } else {
      RunPending(st.out, xs[0], st.gain, xs[1..]);
    }
  }

  /** Two equal tiles at the front of packed tiles merge into one. */
  lemma MergePair(y: nat, c: seq<nat>)
    requires |c| > 0 && c[0] == y
    ensures Merge([y] + c) == [y + 1] + Merge(c[1..])
    ensures MergeGain([y] + c) == Pow2(y + 1) + MergeGain(c[1..])
  {
    assert ([y] + c)[2..] == c[1..];
  }

  /** A front tile with no equal neighbour stays as it is. */
  lemma MergeSingle(y: nat, c: seq<nat>)
    requires |c| == 0 || c[0] != y
    ensures Merge([y] + c) == [y] + Merge(c)
    ensures MergeGain([y] + c) == MergeGain(c)
  {
    if |c| > 0 {
      assert ([y] + c)[1..] == c;
    }
  }

  /** With a tile y still open to a merge, the scan places the reference merge of y and what follows. */
  lemma {:induction false} RunPending(out: seq<nat>, y: nat, g: nat, xs: seq<nat>)
    requires y > 0
    ensures Run(Scan(out + [y], false, g), xs).out == out + Merge([y] + Compact(xs))
    ensures Run(Scan(out + [y], false, g), xs).gain == g + MergeGain([y] + Compact(xs))
    decreases |xs|, 2
  {
    if |xs| == 0 {
    } else if xs[0] == 0 {
      RunPending(out, y, g, xs[1..]);
    } else if xs[0] == y {
      RunPendingMerge(out, y, g, xs);
    } else {
      RunPendingPlace(out, y, g, xs);
    }
  }

  /** `RunPending` when the next tile equals the open one: they merge and the result is closed. */
  lemma {:induction false} RunPendingMerge(out: seq<nat>, y: nat, g: nat, xs: seq<nat>)
    requires y > 0 && |xs| > 0 && xs[0] == y
    ensures Run(Scan(out + [y], false, g), xs).out == out + Merge([y] + Compact(xs))
    ensures Run(Scan(out + [y], false, g), xs).gain == g + MergeGain([y] + Compact(xs))
    decreases |xs|, 0
  {
    var st := Scan(out + [y], false, g);
    assert (out + [y])[..|out|] == out;
    var st' := Scan(out + [y + 1], true, g + Pow2(y + 1));
    assert Step(st, xs[0]) == st';
    RunFresh(st', xs[1..]);
    CompactHead(xs);
    MergeAfter(out, y, Compact(xs));
  }

  /** An open tile merged with the equal next packed tile, then the rest merged. */
  lemma MergeAfter(out: seq<nat>, y: nat, c: seq<nat>)
    requires |c| > 0 && c[0] == y
    ensures (out + [y + 1]) + Merge(c[1..]) == out + Merge([y] + c)
    ensures Pow2(y + 1) + MergeGain(c[1..]) == MergeGain([y] + c)
  {
    MergePair(y, c);
  }

  lemma CompactHead(xs: seq<nat>)
    requires |xs| > 0 && xs[0] > 0
    ensures Compact(xs) == [xs[0]] + Compact(xs[1..])
  {
  }

  /** A tile that cannot merge with the open tile y is placed after it. */
  lemma RunPlaceStep(o: seq<nat>, x: nat, g: nat, xs: seq<nat>)
    requires |o| > 0 && |xs| > 0 && xs[0] == x && x > 0 && o[|o| - 1] != x
    ensures Run(Scan(o, false, g), xs) == Run(Scan(o + [x], false, g), xs[1..])
  {
  }

  /** `RunPending` when the next tile differs from the open one: it is placed and becomes the open one. */
  lemma {:induction false} RunPendingPlace(out: seq<nat>, y: nat, g: nat, xs: seq<nat>)
    requires y > 0 && |xs| > 0 && xs[0] > 0 && xs[0] != y
    ensures Run(Scan(out + [y], false, g), xs).out == out + Merge([y] + Compact(xs))
    ensures Run(Scan(out + [y], false, g), xs).gain == g + MergeGain([y] + Compact(xs))
    decreases |xs|, 1
  {
    var o := out + [y];
    assert o[|o| - 1] == y;
    RunPlaceThenPending(o, g, xs);
    CompactHead(xs);
    PlaceBefore(out, y, Compact(xs));
  }

  /** Placing a tile that differs from the next packed tile, then merging the rest. */
  lemma PlaceBefore(out: seq<nat>, y: nat, c: seq<nat>)
    requires |c| > 0 && c[0] != y
    ensures (out + [y]) + Merge(c) == out + Merge([y] + c)
    ensures MergeGain(c) == MergeGain([y] + c)
  {
    MergeSingle(y, c);
  }

  /** After a tile that cannot merge with the next one, the scan places the reference merge of the rest. */
  lemma {:induction false} RunPlaceThenPending(o: seq<nat>, g: nat, xs: seq<nat>)
    requires |o| > 0 && |xs| > 0 && xs[0] > 0 && o[|o| - 1] != xs[0]
    ensures Run(Scan(o, false, g), xs).out == o + Merge(Compact(xs))
    ensures Run(Scan(o, false, g), xs).gain == g + MergeGain(Compact(xs))
    decreases |xs|, 0
  {
    RunPlaceStep(o, xs[0], g, xs);
    RunPending(o, xs[0], g, xs[1..]);
    CompactHead(xs);
  }

  /** The cells of the line scanned so far: the placed tiles, then empty cells up to n. */
  function Placed(st: Scan, n: nat): seq<nat>
    requires |st.out| <= n
  {
    st.out + Zeros(n - |st.out|)
  }

  /** The scan of a whole line leaves the reference move and earns the reference score. */
  lemma RunIsSlide(line: seq<nat>)
    ensures |Run(START, line).out| <= |line|
    ensures Placed(Run(START, line), |line|) == Slide(line)
    ensures Run(START, line).gain == MergeGain(Compact(line))
  {
    RunFresh(START, line);
  }

  /**
   * The loop variables of `move_tiles` that follow a scan state: the index of
   * the last placed tile, and the index of the last merge, which is that tile
   * exactly when it came from a merge.
   */
  predicate Follows(st: Scan, last: Option<nat>, mergedAt: Option<nat>)
  {
    && last == (if |st.out| == 0 then None else Some(|st.out| - 1))
    && (st.merged <==> |st.out| > 0 && mergedAt == Some(|st.out| - 1))
    && (mergedAt.Some? ==> mergedAt.value < |st.out|)
  }

  /** Before the scan, the group is the line itself and nothing was placed. */
  lemma ScanStart(line: seq<nat>)
    ensures Run(START, line[..0]) == START
    ensures Cells(START, line, 0) == line
    ensures Placed(START, 0) == line[..0]
  {
    assert line[..0] == [];
  }

  /** At the end of the line the group holds the reference move, and the scan earned the reference score. */
  lemma ScanDone(line: seq<nat>)
    ensures |Run(START, line[..|line|]).out| <= |line|
    ensures Cells(Run(START, line[..|line|]), line, |line|) == Slide(line)
    ensures Placed(Run(START, line[..|line|]), |line|) == Slide(line)
    ensures Run(START, line[..|line|]).gain == MergeGain(Compact(line))
    ensures line[..|line|] == line
  {
    assert line[..|line|] == line;
    RunIsSlide(line);
    assert line[|line|..] == [];
  }

  /** Whether the scan merges tile x into the last placed tile. */
  predicate Merges(st: Scan, x: nat)
  {
    |st.out| > 0 && st.out[|st.out| - 1] == x && !st.merged
  }

  /**
   * One cell of the scan keeps the scanned cells as they were exactly when
   * they were so before and the cell's tile is neither merged nor moved
   * forward (the cases that set `moved_any`).
   */
  lemma PlacedStep(st: Scan, line: seq<nat>, idx: nat)
    requires idx < |line| && |st.out| <= idx
    ensures |Step(st, line[idx]).out| <= idx + 1
    ensures Placed(Step(st, line[idx]), idx + 1) == line[..idx + 1] <==>
              Placed(st, idx) == line[..idx] && !(line[idx] > 0 && (|st.out| < idx || Merges(st, line[idx])))
  {
    var x := line[idx];
    var st' := Step(st, x);
    assert line[..idx + 1] == line[..idx] + [x];
    if x == 0 {
      assert Placed(st', idx + 1) == Placed(st, idx) + [0];
    } else if Merges(st, x) || |st.out| < idx {
      assert Placed(st', idx + 1)[idx] == 0;
    } else {
      assert Placed(st', idx + 1) == Placed(st, idx) + [x];
    }
  }

  /** The cells of a group while the scan is at idx: the scanned cells, then the rest of the line as it was. */
  function Cells(st: Scan, line: seq<nat>, idx: nat): (cells: seq<nat>)
    requires |st.out| <= idx <= |line|
    ensures |cells| == |line|
  {
    Placed(st, idx) + line[idx..]
  }

  // The writes of one cell of `move_tiles`, on a group whose cells follow the
  // scan: each case leaves the group following the scan one cell on.

  /** An empty cell, or a tile that stays where it is, changes nothing. */
  lemma CellsStay(st: Scan, line: seq<nat>, idx: nat, last: Option<nat>, mergedAt: Option<nat>)
    requires idx < |line| && |st.out| <= idx
    requires line[idx] == 0 || (|st.out| == idx && !Merges(st, line[idx]))
    requires Follows(st, last, mergedAt)
    ensures |Step(st, line[idx]).out| <= idx + 1
    ensures Cells(Step(st, line[idx]), line, idx + 1) == Cells(st, line, idx)
    ensures Follows(Step(st, line[idx]), if line[idx] > 0 then Some(idx) else last, mergedAt)
    ensures Step(st, line[idx]).gain == st.gain
  {
    assert line[idx..] == [line[idx]] + line[idx + 1..];
  }

  /** A tile with no tile before it moves to the front cell. */
  lemma CellsFront(st: Scan, line: seq<nat>, idx: nat, mergedAt: Option<nat>)
    requires 0 < idx < |line| && |st.out| == 0 && line[idx] > 0
    requires Follows(st, None, mergedAt)
    ensures |Step(st, line[idx]).out| <= idx + 1
    ensures Cells(Step(st, line[idx]), line, idx + 1) == Cells(st, line, idx)[0 := line[idx]][idx := 0]
    ensures Follows(Step(st, line[idx]), Some(0), mergedAt)
    ensures Step(st, line[idx]).gain == st.gain
  {
    assert line[idx..] == [line[idx]] + line[idx + 1..];
  }

  /** A tile equal to the last placed tile, which came from no merge, merges into it. */
  lemma CellsMerge(st: Scan, line: seq<nat>, idx: nat, mergedAt: Option<nat>)
    requires idx < |line| && |st.out| <= idx && line[idx] > 0 && Merges(st, line[idx])
    requires Follows(st, Some(|st.out| - 1), mergedAt)
    ensures |Step(st, line[idx]).out| <= idx + 1
    ensures Cells(Step(st, line[idx]), line, idx + 1) == Cells(st, line, idx)[|st.out| - 1 := line[idx] + 1][idx := 0]
    ensures Follows(Step(st, line[idx]), Some(|st.out| - 1), Some(|st.out| - 1))
    ensures Step(st, line[idx]).gain == st.gain + Pow2(line[idx] + 1)
  {
    assert line[idx..] == [line[idx]] + line[idx + 1..];
  }

  /** Any other tile with a gap before it moves into the cell after the last placed tile. */
  lemma CellsGap(st: Scan, line: seq<nat>, idx: nat, mergedAt: Option<nat>)
    requires idx < |line| && 0 < |st.out| < idx && line[idx] > 0 && !Merges(st, line[idx])
    requires Follows(st, Some(|st.out| - 1), mergedAt)
    ensures |Step(st, line[idx]).out| <= idx + 1
    ensures Cells(Step(st, line[idx]), line, idx + 1) == Cells(st, line, idx)[|st.out| := line[idx]][idx := 0]
    ensures Follows(Step(st, line[idx]), Some(|st.out|), mergedAt)
    ensures Step(st, line[idx]).gain == st.gain
  {
    assert line[idx..] == [line[idx]] + line[idx + 1..];
  }

  // The check of `moves_available` on a pair of neighbours, the front one first.

  /** The back tile can reach the front cell: it is empty, or holds an equal tile. */
  predicate StepMoves(front: nat, back: nat)
  {
    (back == front && back > 0) || (front == 0 && back != 0)
  }

  predicate LineMoves(line: seq<nat>)
  {
    exists k :: 0 < k < |line| && StepMoves(line[k - 1], line[k])
  }

  lemma MovesSplit(line: seq<nat>)
    requires |line| > 0
    ensures LineMoves(line) <==> (|line| > 1 && StepMoves(line[0], line[1])) || LineMoves(line[1..])
  {
    if LineMoves(line) {
      var k :| 0 < k < |line| && StepMoves(line[k - 1], line[k]);
      if k > 1 {
        assert line[1..][k - 2] == line[k - 1] && line[1..][k - 1] == line[k];
      }
    }
    if LineMoves(line[1..]) {
      var k :| 0 < k < |line| - 1 && StepMoves(line[1..][k - 1], line[1..][k]);
      assert StepMoves(line[k], line[k + 1]);
    }
  }

  lemma {:induction false} CompactEmpty(line: seq<nat>)
    requires Compact(line) == []
    ensures forall k :: 0 <= k < |line| ==> line[k] == 0
    decreases |line|
  {
    if |line| > 0 {
      CompactEmpty(line[1..]);
      forall k | 1 <= k < |line|
        ensures line[k] == 0
      {
        assert line[k] == line[1..][k - 1];
      }
    }
  }

  /** An empty front cell with a tile somewhere behind it allows a move. */
  lemma {:induction false} FirstNonzeroMove(line: seq<nat>)
    requires |line| > 0 && line[0] == 0 && Compact(line) != []
    ensures LineMoves(line)
    decreases |line|
  {
    var rest := line[1..];
    MovesSplit(line);
    if rest[0] == 0 {
      FirstNonzeroMove(rest);
    }
  }

  /** The inductive step of `SlideFixedIff` for a line whose front cell is empty. */
  lemma EmptyFrontFixedIff(line: seq<nat>)
    requires |line| > 0 && line[0] == 0
    ensures Slide(line) == line <==> !LineMoves(line)
  {
    var rest := line[1..];
    var c := Compact(rest);
    assert Compact(line) == c;
    if c == [] {
      CompactEmpty(rest);
      assert forall k :: 0 <= k < |line| ==> line[k] == 0 by {
        forall k | 1 <= k < |line|
          ensures line[k] == 0
        {
          assert line[k] == rest[k - 1];
        }
      }
      assert Slide(line) == line;
    } else {
      assert AllPositive(Merge(c));
      assert Slide(line)[0] != line[0];
      FirstNonzeroMove(line);
    }
  }

  /** A front tile that cannot merge with the next tile stays in front of the move of the rest. */
  lemma SlideConsSingle(x: nat, rest: seq<nat>)
    requires x > 0 && (Compact(rest) == [] || Compact(rest)[0] != x)
    ensures Slide([x] + rest) == [x] + Slide(rest)
  {
    var c := Compact(rest);
    assert Compact([x] + rest) == [x] + c by {
      assert ([x] + rest)[1..] == rest;
    }
    MergeSingle(x, c);
  }

  /** A front tile equal to the next tile becomes one exponent higher. */
  lemma SlideConsMerge(x: nat, rest: seq<nat>)
    requires x > 0 && Compact(rest) != [] && Compact(rest)[0] == x
    ensures Slide([x] + rest)[0] == x + 1
  {
    var c := Compact(rest);
    assert Compact([x] + rest) == [x] + c by {
      assert ([x] + rest)[1..] == rest;
    }
    MergePair(x, c);
  }

  /** The first tile of a line is the first of its packed tiles. */
  lemma CompactFirst(rest: seq<nat>)
    requires |rest| > 0 && rest[0] > 0
    ensures Compact(rest) != [] && Compact(rest)[0] == rest[0]
  {
  }

  /** The inductive step of `SlideFixedIff` for a line whose front cell holds a tile. */
  lemma TileFrontFixedIff(line: seq<nat>)
    requires |line| > 0 && line[0] > 0
    requires Slide(line[1..]) == line[1..] <==> !LineMoves(line[1..])
    requires LineMoves(line) <==> (|line| > 1 && StepMoves(line[0], line[1])) || LineMoves(line[1..])
    ensures Slide(line) == line <==> !LineMoves(line)
  {
    var rest := line[1..];
    var x := line[0];
    assert line == [x] + rest;
    if |rest| > 0 && rest[0] > 0 {
      CompactFirst(rest);
    }
    if Compact(rest) != [] && Compact(rest)[0] == x {
      SlideConsMerge(x, rest);
      if rest[0] == 0 {
        FirstNonzeroMove(rest);
      }
    } else {
      SlideConsSingle(x, rest);
      assert Slide(line) == line <==> Slide(rest) == rest by {
        if Slide(line) == line {
          assert Slide(rest) == ([x] + Slide(rest))[1..];
        }
      }
    }
  }

  /**
   * A move leaves a line unchanged exactly when no neighbour pair passes the
   * check of `moves_available`.
   */
  lemma {:induction false} SlideFixedIff(line: seq<nat>)
    ensures Slide(line) == line <==> !LineMoves(line)
    decreases |line|
  {
    if |line| > 0 {
      MovesSplit(line);
      if line[0] == 0 {
        EmptyFrontFixedIff(line);
      } else {
        SlideFixedIff(line[1..]);
        TileFrontFixedIff(line);
      }
    }
  }
}
