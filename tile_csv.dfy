// The saved-game line of game/game_engine.py: `Game.append_game_state` writes
// "game_over,score," followed by every tile exponent in row-major order, each
// followed by a comma, and `GameState.from_csv_line` reads such a line back.

module TileCsv {
  import opened Wrappers

  /** Why a line cannot be read back. */
  datatype CsvError =
    | MissingField    // a token index past the end of the split line (IndexError)
    | BadNumber       // a token that is not an integer (ValueError from `int`)
    | ShapeMismatch   // the board fails the constructor's size assertions
    | NegativeScore   // the constructor's `score >= 0` assertion
    | NegativeTile    // a tile exponent below 0, which this model does not represent

  /** The fields of one saved line: the game-over flag, the score and the tiles in row-major order. */
  datatype Saved = Saved(gameOver: bool, score: nat, tiles: seq<nat>)

  /** `str.split(',')`: the pieces between commas, at least one, possibly empty. */
  function Split(s: string): (parts: seq<string>)
    ensures |parts| >= 1
    ensures forall k :: 0 <= k < |parts| ==> ',' !in parts[k]
  {
    if |s| == 0 then [""]
    else if s[0] == ',' then [""] + Split(s[1..])
    else
      var rest := Split(s[1..]);
      [[s[0]] + rest[0]] + rest[1..]
  }

  /** A piece without a comma splits to itself. */
  lemma {:induction false} SplitPlain(s: string)
    requires ',' !in s
    ensures Split(s) == [s]
    decreases |s|
  {
    if |s| > 0 {
      assert ',' !in s[1..] by {
        forall k | 0 <= k < |s[1..]| ensures s[1..][k] != ',' {
          assert s[1..][k] == s[k + 1];
        }
      }
      SplitPlain(s[1..]);
      assert [s[0]] + s[1..] == s;
    }
  }

  /** A comma separates what is before it from what is after it. */
  lemma {:induction false} SplitComma(x: string, y: string)
    ensures Split(x + [','] + y) == Split(x) + Split(y)
    decreases |x|
  {
    if |x| == 0 {
      assert x + [','] + y == [','] + y;
      assert ([','] + y)[1..] == y;
    } else {
      var s := x + [','] + y;
      assert s[0] == x[0] && s[1..] == x[1..] + [','] + y;
      SplitComma(x[1..], y);
      if x[0] != ',' {
        assert Split(x) == [[x[0]] + Split(x[1..])[0]] + Split(x[1..])[1..];
      }
    }
  }

  function DigitChar(d: nat): char
    requires d < 10
  {
    "0123456789"[d]
  }

  predicate IsDigit(c: char)
  {
    '0' <= c <= '9'
  }

  /** `str(n)` for a non-negative n: its decimal digits, most significant first, without leading zeros. */
  function ShowNat(n: nat): (s: string)
    ensures |s| > 0 && forall k :: 0 <= k < |s| ==> IsDigit(s[k])
  {
    if n < 10 then [DigitChar(n)] else ShowNat(n / 10) + [DigitChar(n % 10)]
  }

  /** `str(b)` for a bool. */
  function ShowBool(b: bool): string
  {
    if b then "True" else "False"
  }

  /** The value of a string of decimal digits. */
  function DigitsValue(s: string): nat
    requires forall k :: 0 <= k < |s| ==> IsDigit(s[k])
  {
    if |s| == 0 then 0
    else
      assert IsDigit(s[|s| - 1]);
      10 * DigitsValue(s[..|s| - 1]) + (s[|s| - 1] as int - '0' as int)
  }

  /**
   * `int(s)` on an optional sign followed by decimal digits; any other text is
   * not a number.
   */
  function ParseInt(s: string): (r: Option<int>)
    ensures r.Some? ==> |s| > 0
  {
    if |s| > 0 && (s[0] == '-' || s[0] == '+') then
      var digits := s[1..];
      if |digits| > 0 && forall k :: 0 <= k < |digits| ==> IsDigit(digits[k]) then
        var v: int := DigitsValue(digits);
        Some(if s[0] == '-' then -v else v)
      else None
    else if |s| > 0 && forall k :: 0 <= k < |s| ==> IsDigit(s[k]) then Some(DigitsValue(s))
    else None
  }

  /** Reading back a written number gives the number. */
  lemma {:induction false} ParseShowNat(n: nat)
    ensures ParseInt(ShowNat(n)) == Some(n as int)
    ensures ',' !in ShowNat(n)
  {
    ShowNatValue(n);
  }

  lemma {:induction false} ShowNatValue(n: nat)
    ensures DigitsValue(ShowNat(n)) == n
    decreases n
  {
    var s := ShowNat(n);
    if n >= 10 {
      ShowNatValue(n / 10);
      assert s[..|s| - 1] == ShowNat(n / 10);
    }
  }

  /** A written number is a single token. */
  lemma SplitShowNat(n: nat)
    ensures Split(ShowNat(n)) == [ShowNat(n)]
  {
    var s := ShowNat(n);
    assert ',' !in s by {
      forall k | 0 <= k < |s| ensures s[k] != ',' {
        assert IsDigit(s[k]);
      }
    }
    SplitPlain(s);
  }

  /** The tiles as `append_game_state` writes them: each exponent followed by a comma. */
  function EncodeTiles(ts: seq<nat>): string
  {
    if |ts| == 0 then "" else ShowNat(ts[0]) + "," + EncodeTiles(ts[1..])
  }

  /** `append_game_state`: the game-over flag, the score and the tiles, each followed by a comma. */
  function EncodeLine(s: Saved): string
  {
    ShowBool(s.gameOver) + "," + ShowNat(s.score) + "," + EncodeTiles(s.tiles)
  }

  /** Reads the first n tokens as tile exponents, in order, failing on the first missing or malformed one. */
  function ParseTiles(tokens: seq<string>, n: nat): (r: Result<seq<int>, CsvError>)
    ensures r.Ok? ==> |r.value| == n
    ensures r.Ok? <==> n <= |tokens| && forall k :: 0 <= k < n ==> ParseInt(tokens[k]).Some?
  {
    if n == 0 then Ok([])
    else if |tokens| == 0 then Err(MissingField)
    else match ParseInt(tokens[0])
      case None => Err(BadNumber)
      case Some(t) =>
        match ParseTiles(tokens[1..], n - 1)
        case Err(e) => Err(e)
        case Ok(rest) => Ok([t] + rest)
  }

  /** Every tile of a parsed board is an exponent (0 or more). */
  predicate AllNat(ts: seq<int>)
  {
    forall k :: 0 <= k < |ts| ==> ts[k] >= 0
  }

  function ToNats(ts: seq<int>): (r: seq<nat>)
    requires AllNat(ts)
    ensures r == ts
  {
    seq(|ts|, k requires 0 <= k < |ts| => ts[k] as nat)
  }

  /**
   * The tokens of a line read with a given board size: the flag, the score
   * and the tiles, in the order and with the failures of `from_csv_line`.
   * The size checks are passed in, since they are where the two versions of
   * the reader differ.
   */
  function DecodeWith(line: string, n: nat, shapeOk: bool): (r: Result<Saved, CsvError>)
  {
    var tokens := Split(line);
    if |tokens| < 2 then Err(MissingField)
    else match ParseInt(tokens[1])
      case None => Err(BadNumber)
      case Some(score) =>
        match ParseTiles(tokens[2..], n)
        case Err(e) => Err(e)
        case Ok(ts) =>
          if !shapeOk then Err(ShapeMismatch)
          else if score < 0 then Err(NegativeScore)
          else if !AllNat(ts) then Err(NegativeTile)
          else Ok(Saved(tokens[0] == "True", score, ToNats(ts)))
  }

  /**
   * `from_csv_line` as written: it fills an nrows by ncols board but builds the
   * state with the default size, so the constructor's assertions fail for any
   * size other than 4 by 4.
   */
  function DecodeLineAsWritten(line: string, nrows: nat, ncols: nat): (r: Result<Saved, CsvError>)
    ensures r.Ok? ==> nrows == 4 && ncols == 4
  {
    DecodeWith(line, nrows * ncols, nrows == 4 && ncols == 4)
  }

  /**
   * `from_csv_line` with the size passed on to the constructor: the board has
   * nrows rows, and the constructor reads its first row, so it needs at least one.
   */
  function DecodeLine(line: string, nrows: nat, ncols: nat): (r: Result<Saved, CsvError>)
    ensures r.Ok? ==> nrows > 0 && |r.value.tiles| == nrows * ncols
  {
    DecodeWith(line, nrows * ncols, nrows > 0)
  }

  /** A field that is a single token, then a comma: the field is the first token. */
  lemma SplitField(x: string, y: string)
    requires Split(x) == [x]
    ensures Split(x + [','] + y) == [x] + Split(y)
  {
    SplitComma(x, y);
  }

  /** The written flag is a single token. */
  lemma SplitShowBool(b: bool)
    ensures Split(ShowBool(b)) == [ShowBool(b)]
  {
    if b {
      SplitPlain("True");
    } else {
      SplitPlain("False");
    }
  }

  /** A written line and what follows it, as its first field, a comma and the rest. */
  lemma LineText(s: Saved, rest: string)
    ensures EncodeLine(s) + rest
         == ShowBool(s.gameOver) + [','] + (ShowNat(s.score) + [','] + (EncodeTiles(s.tiles) + rest))
  {
    var flag, score, tiles := ShowBool(s.gameOver), ShowNat(s.score), EncodeTiles(s.tiles);
    assert "," == [','];
    calc {
      EncodeLine(s) + rest;
      (flag + [','] + score + [','] + tiles) + rest;
      { SeqAssoc5(flag, score, tiles, rest); }
      flag + [','] + (score + [','] + (tiles + rest));
    }
  }

  lemma SeqAssoc5(a: string, b: string, c: string, d: string)
    ensures (a + [','] + b + [','] + c) + d == a + [','] + (b + [','] + (c + d))
  {
  }

  /** The written form of every tile, one token each. */
  function ShowAll(ts: seq<nat>): (r: seq<string>)
    ensures |r| == |ts|
  {
    if |ts| == 0 then [] else [ShowNat(ts[0])] + ShowAll(ts[1..])
  }

  /** The tokens of written tiles are the written numbers, followed by the tokens of what comes after. */
  lemma {:induction false} SplitEncodedTiles(ts: seq<nat>, rest: string)
    ensures Split(EncodeTiles(ts) + rest) == ShowAll(ts) + Split(rest)
    decreases |ts|
  {
    if |ts| > 0 {
      var head := ShowNat(ts[0]);
      var tail := EncodeTiles(ts[1..]) + rest;
      assert EncodeTiles(ts) + rest == head + [','] + tail by {
        assert EncodeTiles(ts) == head + "," + EncodeTiles(ts[1..]);
      }
      SplitShowNat(ts[0]);
      SplitField(head, tail);
      SplitEncodedTiles(ts[1..], rest);
      assert ShowAll(ts) == [head] + ShowAll(ts[1..]);
    } else {
      assert EncodeTiles(ts) + rest == rest;
    }
  }

  /** Written tiles parse back to themselves. */
  lemma {:induction false} ParseEncodedTiles(ts: seq<nat>, tokens: seq<string>)
    requires ShowAll(ts) <= tokens
    ensures ParseTiles(tokens, |ts|) == Ok(ts)
    decreases |ts|
  {
    if |ts| > 0 {
      assert tokens[0] == ShowAll(ts)[0];
      assert ShowAll(ts[1..]) <= tokens[1..];
      ParseShowNat(ts[0]);
      ParseEncodedTiles(ts[1..], tokens[1..]);
      assert [ts[0] as int] + ts[1..] == ts;
    }
  }

  /** The tokens of a written line: flag, score, tiles, then whatever follows the line's last comma. */
  lemma EncodedTokens(s: Saved, rest: string)
    ensures Split(EncodeLine(s) + rest) == [ShowBool(s.gameOver), ShowNat(s.score)] + (ShowAll(s.tiles) + Split(rest))
  {
    var flag, score := ShowBool(s.gameOver), ShowNat(s.score);
    var tail := EncodeTiles(s.tiles) + rest;
    var after := score + [','] + tail;
    LineText(s, rest);
    var tiles := ShowAll(s.tiles) + Split(rest);
    assert Split(after) == [score] + tiles by {
      SplitShowNat(s.score);
      SplitField(score, tail);
      SplitEncodedTiles(s.tiles, rest);
    }
    SplitShowBool(s.gameOver);
    SplitField(flag, after);
    ConsTwo(flag, score, tiles);
  }

  lemma ConsTwo(a: string, b: string, xs: seq<string>)
    ensures [a] + ([b] + xs) == [a, b] + xs
  {
  }

  /**
   * Reading a written line with the board's own size gives back the saved
   * game, whatever follows the last comma (`Game.append_game_action` puts the
   * direction of the next move there).
   */
  lemma DecodeEncode(s: Saved, nrows: nat, ncols: nat, rest: string)
    requires nrows > 0 && |s.tiles| == nrows * ncols
    ensures DecodeLine(EncodeLine(s) + rest, nrows, ncols) == Ok(s)
  {
    var tokens := Split(EncodeLine(s) + rest);
    EncodedTokens(s, rest);
    ParseShowNat(s.score);
    assert tokens[1] == ShowNat(s.score);
    assert tokens[2..] == ShowAll(s.tiles) + Split(rest);
    ParseEncodedTiles(s.tiles, tokens[2..]);
    assert tokens[0] == "True" <==> s.gameOver;
  }

  /**
   * As written, a line saved from any board that is not 4 by 4 cannot be read
   * back, although every token is well formed.
   */
  lemma AsWrittenRejectsOtherSizes(s: Saved, nrows: nat, ncols: nat, rest: string)
    requires nrows > 0 && |s.tiles| == nrows * ncols && (nrows != 4 || ncols != 4)
    ensures DecodeLineAsWritten(EncodeLine(s) + rest, nrows, ncols) == Err(ShapeMismatch)
    ensures DecodeLine(EncodeLine(s) + rest, nrows, ncols) == Ok(s)
  {
    var tokens := Split(EncodeLine(s) + rest);
    EncodedTokens(s, rest);
    ParseShowNat(s.score);
    assert tokens[1] == ShowNat(s.score);
    assert tokens[2..] == ShowAll(s.tiles) + Split(rest);
    ParseEncodedTiles(s.tiles, tokens[2..]);
    DecodeEncode(s, nrows, ncols, rest);
  }

  /** n empty cells, as written. */
  function ZerosText(n: nat): string
  {
    if n == 0 then "" else "0," + ZerosText(n - 1)
  }

  lemma {:induction false} EncodeZeros(n: nat)
    ensures EncodeTiles(seq(n, _ => 0)) == ZerosText(n)
  {
    if n > 0 {
      assert seq(n, _ => 0)[1..] == seq(n - 1, _ => 0);
      EncodeZeros(n - 1);
    }
  }

  /** A concrete instance: an empty 2 by 2 board with score 0. */
  lemma AsWrittenTwoByTwo()
    ensures DecodeLineAsWritten("False,0,0,0,0,0,", 2, 2) == Err(ShapeMismatch)
    ensures DecodeLine("False,0,0,0,0,0,", 2, 2) == Ok(Saved(false, 0, seq(4, _ => 0)))
  {
    var s := Saved(false, 0, seq(4, _ => 0));
    EmptyTwoText(s);
    AsWrittenRejectsOtherSizes(s, 2, 2, "");
  }

  /** The written line of an empty 2 by 2 board with score 0. */
  lemma EmptyTwoText(s: Saved)
    requires s == Saved(false, 0, seq(4, _ => 0))
    ensures EncodeLine(s) + "" == "False,0,0,0,0,0,"
  {
    EncodeZeros(4);
    assert ShowNat(0) == "0";
    assert EncodeLine(s) == "False,0," + ZerosText(4);
  }
}
