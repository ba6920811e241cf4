/**
 * validatePlacement: the word is written into a copy of the board, and at
 * every letter the run of tiles at right angles to the word must be a
 * single tile or a dictionary word. The live board is not touched.
 */
module CrossWords {
  import opened Letters
  import opened Board
  import opened Dictionary

  /** The line a cross run lies on, and the position of (cx, cy) along it. */
  function CrossLine(g: Grid, cx: int, cy: int, dir: Dir): (line: seq<char>)
    ensures |line| == |g|
  {
    if dir == H then ColLine(g, cx) else RowLine(g, cy)
  }

  function CrossPos(cx: int, cy: int, dir: Dir): int {
    if dir == H then cy else cx
  }

  /**
   * The cross run at (cx, cy), stretching over lo..hi of its line, is a
   * single tile or a word of the dictionary.
   */
  ghost predicate CrossRunOk(s: Grid, cx: int, cy: int, dir: Dir, lex: Lexicon) {
    OnBoard(|s|, cx, cy) &&
    var line := CrossLine(s, cx, cy, dir);
    var lo := RunStart(line, CrossPos(cx, cy, dir));
    var hi := RunEnd(line, CrossPos(cx, cy, dir));
    hi == lo || Accepts(lex, line[lo..hi + 1])
  }

  /** In terms of the run itself: a cross run on the board passes when it is one tile long or a word. */
  lemma CrossRunOkMeans(s: Grid, cx: int, cy: int, dir: Dir, lex: Lexicon)
    requires OnBoard(|s|, cx, cy)
    ensures CrossRunOk(s, cx, cy, dir, lex) <==>
      var run := CrossRun(s, cx, cy, dir);
      |run| <= 1 || Accepts(lex, run)
  {
    var line := CrossLine(s, cx, cy, dir);
    var p := CrossPos(cx, cy, dir);
    var lo, hi := RunStart(line, p), RunEnd(line, p);
    assert CrossRun(s, cx, cy, dir) == line[lo..hi + 1] by {
      if dir == H {
        assert CrossRun(s, cx, cy, dir) == RunThrough(ColLine(s, cx), cy);
      } else {
        assert CrossRun(s, cx, cy, dir) == RunThrough(RowLine(s, cy), cx);
      }
    }
    assert |line[lo..hi + 1]| == hi + 1 - lo;
    CrossRunOkAt(s, cx, cy, dir, lex, lo, hi);
  }

  /** The cross runs at the first k letters of a word anchored at (x, y) are acceptable. */
  ghost predicate CrossRunsOk(s: Grid, x: int, y: int, dir: Dir, lex: Lexicon, k: nat)
    decreases k
  {
    k == 0 ||
    (CrossRunsOk(s, x, y, dir, lex, k - 1) && CrossRunOk(s, ColOf(x, dir, k - 1), RowOf(y, dir, k - 1), dir, lex))
  }

  lemma {:induction false} CrossRunsOkMeans(s: Grid, x: int, y: int, dir: Dir, lex: Lexicon, k: nat)
    ensures CrossRunsOk(s, x, y, dir, lex, k) <==>
      forall i :: 0 <= i < k ==> CrossRunOk(s, ColOf(x, dir, i), RowOf(y, dir, i), dir, lex)
    decreases k
  {
    if k > 0 {
      CrossRunsOkMeans(s, x, y, dir, lex, k - 1);
    }
  }

  /** One unacceptable cross run among the first j letters fails all longer prefixes. */
  lemma {:induction false} FailedRunStaysFailed(s: Grid, x: int, y: int, dir: Dir, lex: Lexicon, i: nat, k: nat)
    requires i < k && !CrossRunOk(s, ColOf(x, dir, i), RowOf(y, dir, i), dir, lex)
    ensures !CrossRunsOk(s, x, y, dir, lex, k)
  {
    CrossRunsOkMeans(s, x, y, dir, lex, k);
  }

  /** Every letter of the word lies on the board and every cross run of the placed word is acceptable. */
  ghost predicate CrossWordsOk(g: Grid, word: string, x: int, y: int, dir: Dir, lex: Lexicon) {
    Fits(|g|, x, y, dir, |word|) && CrossRunsOk(Placed(g, word, x, y, dir), x, y, dir, lex, |word|)
  }

  /** Cell k of the cross line through (cx, cy), read from the array. */
  method CrossCell(temp: array2<char>, cx: int, cy: int, dir: Dir, k: int, ghost s: Grid) returns (ch: char)
    requires temp.Length0 == temp.Length1 && s == Snapshot(temp) && OnBoard(temp.Length0, cx, cy)
    requires 0 <= k < temp.Length0
    ensures ch == CrossLine(s, cx, cy, dir)[k]
  {
    if dir == H {
      ch := temp[k, cx];
      SnapshotAt(temp, k, cx);
      ColLineAt(s, cx, k);
    } else {
      ch := temp[cy, k];
      SnapshotAt(temp, cy, k);
      RowLineAt(s, cy, k);
    }
  }

  /** The first index of the run through (cx, cy), walking back while the previous cell holds a tile. */
  method RunLow(temp: array2<char>, cx: int, cy: int, dir: Dir, ghost s: Grid) returns (lo: int)
    requires temp.Length0 == temp.Length1 && s == Snapshot(temp) && OnBoard(temp.Length0, cx, cy)
    ensures lo == RunStart(CrossLine(s, cx, cy, dir), CrossPos(cx, cy, dir))
  {
    ghost var line := CrossLine(s, cx, cy, dir);
    var p := CrossPos(cx, cy, dir);
    lo := p;
    while lo > 0
      invariant 0 <= lo <= p && RunStart(line, lo) == RunStart(line, p)
    {
      var ch := CrossCell(temp, cx, cy, dir, lo - 1, s);
      if ch == Empty {
        break;
      }
      RunStartStep(line, lo);
      lo := lo - 1;
    }
  }

  /** The last index of the run through (cx, cy), walking on while the next cell holds a tile. */
  method RunHigh(temp: array2<char>, cx: int, cy: int, dir: Dir, ghost s: Grid) returns (hi: int)
    requires temp.Length0 == temp.Length1 && s == Snapshot(temp) && OnBoard(temp.Length0, cx, cy)
    ensures hi == RunEnd(CrossLine(s, cx, cy, dir), CrossPos(cx, cy, dir))
  {
    var n := temp.Length0;
    ghost var line := CrossLine(s, cx, cy, dir);
    var p := CrossPos(cx, cy, dir);
    hi := p;
    while hi < n - 1
      invariant p <= hi < n && RunEnd(line, hi) == RunEnd(line, p)
    {
      var ch := CrossCell(temp, cx, cy, dir, hi + 1, s);
      if ch == Empty {
        break;
      }
      RunEndStep(line, hi);
      hi := hi + 1;
    }
  }

  /** The characters lo..hi of the cross line through (cx, cy). */
  method ReadRun(temp: array2<char>, cx: int, cy: int, dir: Dir, lo: int, hi: int, ghost s: Grid)
    returns (run: string)
    requires temp.Length0 == temp.Length1 && s == Snapshot(temp) && OnBoard(temp.Length0, cx, cy)
    requires 0 <= lo <= hi < temp.Length0
    ensures run == CrossLine(s, cx, cy, dir)[lo..hi + 1]
  {
    ghost var line := CrossLine(s, cx, cy, dir);
    run := [];
    for k := lo to hi + 1
      invariant run == line[lo..k]
    {
      var ch := CrossCell(temp, cx, cy, dir, k, s);
      assert line[lo..k + 1] == line[lo..k] + [ch];
      run := run + [ch];
    }
  }

  /** One cross run checked as validatePlacement does: a run of two or more tiles must be a word. */
  method CheckCrossRun(temp: array2<char>, cx: int, cy: int, dir: Dir, lex: Lexicon, ghost s: Grid)
    returns (ok: bool)
    requires temp.Length0 == temp.Length1 && s == Snapshot(temp) && OnBoard(temp.Length0, cx, cy)
    requires WellFormed(lex)
    ensures ok == CrossRunOk(s, cx, cy, dir, lex)
  {
    var lo := RunLow(temp, cx, cy, dir, s);
    var hi := RunHigh(temp, cx, cy, dir, s);
    CrossRunOkAt(s, cx, cy, dir, lex, lo, hi);
    ok := true;
    if hi - lo + 1 > 1 {
      var run := ReadRun(temp, cx, cy, dir, lo, hi, s);
      ok := Lookup(lex, run);
    }
  }

  /** CrossRunOk once the bounds of the run are known. */
  lemma CrossRunOkAt(s: Grid, cx: int, cy: int, dir: Dir, lex: Lexicon, lo: int, hi: int)
    requires OnBoard(|s|, cx, cy)
    requires lo == RunStart(CrossLine(s, cx, cy, dir), CrossPos(cx, cy, dir))
    requires hi == RunEnd(CrossLine(s, cx, cy, dir), CrossPos(cx, cy, dir))
    ensures CrossRunOk(s, cx, cy, dir, lex) <==> hi == lo || Accepts(lex, CrossLine(s, cx, cy, dir)[lo..hi + 1])
  {
  }

  /**
   * The simulation step of validatePlacement: the word's tiles written into
   * the copy `temp`, failing when a letter would land off the board.
   */
  method Simulate(word: string, x: int, y: int, dir: Dir, temp: array2<char>, ghost g: Grid)
    returns (fits: bool)
    requires temp.Length0 == temp.Length1 && g == Snapshot(temp)
    modifies temp
    ensures fits == Fits(temp.Length0, x, y, dir, |word|)
    ensures fits ==> Snapshot(temp) == Placed(g, word, x, y, dir)
  {
    var n := temp.Length0;
    WrittenFromStart(temp, g, word, x, y, dir);
    var i := 0;
    while i < |word|
      invariant 0 <= i <= |word| && Fits(n, x, y, dir, i)
      invariant WrittenUpTo(temp, g, word, x, y, dir, i)
    {
      if ColOf(x, dir, i) < 0 || ColOf(x, dir, i) >= n || RowOf(y, dir, i) < 0 || RowOf(y, dir, i) >= n {
        return false;
      }
      var written := WriteLetter(temp, word, i, x, y, dir, g);
      i := i + 1;
    }
    WrittenAll(temp, g, word, x, y, dir);
    return true;
  }

  /** The scratch copy of the board that validatePlacement writes into. */
  method CopyBoard(board: array2<char>) returns (temp: array2<char>)
    requires board.Length0 == board.Length1
    ensures fresh(temp) && temp.Length0 == temp.Length1 == board.Length0
    ensures Snapshot(temp) == Snapshot(board)
  {
    var n := board.Length0;
    temp := new char[n, n]((r, c) reads board requires 0 <= r < n && 0 <= c < n => board[r, c]);
    SnapshotCells(temp);
    SnapshotCells(board);
    GridExt(Snapshot(temp), Snapshot(board));
  }

  /** The check step of validatePlacement: every cross run of the placed word is acceptable. */
  method CheckCrossRuns(word: string, x: int, y: int, dir: Dir, temp: array2<char>, lex: Lexicon, ghost s: Grid)
    returns (ok: bool)
    requires temp.Length0 == temp.Length1 && s == Snapshot(temp) && WellFormed(lex)
    requires Fits(temp.Length0, x, y, dir, |word|)
    ensures ok == CrossRunsOk(s, x, y, dir, lex, |word|)
  {
    var k := 0;
    while k < |word|
      invariant 0 <= k <= |word| && CrossRunsOk(s, x, y, dir, lex, k)
    {
      ok := CheckCrossRun(temp, ColOf(x, dir, k), RowOf(y, dir, k), dir, lex, s);
      if !ok {
        FailedRunStaysFailed(s, x, y, dir, lex, k, |word|);
        return;
      }
      k := k + 1;
    }
    ok := true;
  }

  /**
   * validatePlacement of board.c (with the hash dictionary, Lexicon.Exact)
   * and of scrabble.c (with the sorted array, Lexicon.Sorted). The board
   * itself is left as it was.
   */
  method ValidatePlacement(word: string, x: int, y: int, dir: Dir, board: array2<char>, lex: Lexicon)
    returns (valid: bool)
    requires board.Length0 == board.Length1 && WellFormed(lex)
    ensures valid == CrossWordsOk(Snapshot(board), word, x, y, dir, lex)
  {
    ghost var g := Snapshot(board);
    var temp := CopyBoard(board);
    var fits := Simulate(word, x, y, dir, temp, g);
    if !fits {
      return false;
    }
    valid := CheckCrossRuns(word, x, y, dir, temp, lex, Placed(g, word, x, y, dir));
  }
}
