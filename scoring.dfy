/**
 * Scoring: the score findBestMove computes for a candidate move (bestmove.c,
 * and its copy in board.c), and recalcTotalScore of board.c, which values
 * every word already on the board.
 */
module Scoring {
  import opened Letters
  import opened Board
  import opened Placement

  /** A bonus grid, read bonus[y][x] like the board. */
  type BonusGrid = seq<seq<int>>

  /** The bonus codes of the game. */
  const TripleWord: int := 1
  const DoubleWord: int := 2
  const TripleLetter: int := 3
  const DoubleLetter: int := 4

  /** The bonus grid a game starts with. */
  const StandardBonus: BonusGrid := [
    [1, 0, 0, 4, 0, 0, 0, 1, 0, 0, 0, 4, 0, 0, 1],
    [0, 2, 0, 0, 0, 3, 0, 0, 0, 3, 0, 0, 0, 2, 0],
    [0, 0, 2, 0, 0, 0, 4, 0, 4, 0, 0, 0, 2, 0, 0],
    [4, 0, 0, 2, 0, 0, 0, 4, 0, 0, 0, 2, 0, 0, 4],
    [0, 0, 0, 0, 2, 0, 0, 0, 0, 0, 2, 0, 0, 0, 0],
    [0, 3, 0, 0, 0, 3, 0, 0, 0, 3, 0, 0, 0, 3, 0],
    [0, 0, 4, 0, 0, 0, 4, 0, 4, 0, 0, 0, 4, 0, 0],
    [1, 0, 0, 4, 0, 0, 0, 2, 0, 0, 0, 4, 0, 0, 1],
    [0, 0, 4, 0, 0, 0, 4, 0, 4, 0, 0, 0, 4, 0, 0],
    [0, 3, 0, 0, 0, 3, 0, 0, 0, 3, 0, 0, 0, 3, 0],
    [0, 0, 0, 0, 2, 0, 0, 0, 0, 0, 2, 0, 0, 0, 0],
    [4, 0, 0, 2, 0, 0, 0, 4, 0, 0, 0, 2, 0, 0, 4],
    [0, 0, 2, 0, 0, 0, 4, 0, 4, 0, 0, 0, 2, 0, 0],
    [0, 2, 0, 0, 0, 3, 0, 0, 0, 3, 0, 0, 0, 2, 0],
    [1, 0, 0, 4, 0, 0, 0, 1, 0, 0, 0, 4, 0, 0, 1]
  ]

  /** The standard grid is 15 by 15, holds only the codes 0..4, and its centre is a double word. */
  lemma StandardBonusShape()
    ensures Square(StandardBonus, 15) && StandardBonus[7][7] == DoubleWord
    ensures forall r, c :: 0 <= r < 15 && 0 <= c < 15 ==> 0 <= StandardBonus[r][c] <= 4
  {
  }

  /** The code at column cx and row cy; a cell off the grid has none. */
  function BonusAt(b: BonusGrid, cx: int, cy: int): int {
    if 0 <= cy < |b| && 0 <= cx < |b[cy]| then b[cy][cx] else 0
  }

  /** What a code multiplies the letter on its cell by. */
  function LetterFactor(code: int): (f: nat)
    ensures 1 <= f <= 3
    ensures f > 1 <==> code == TripleLetter || code == DoubleLetter
  {
    if code == TripleLetter then 3 else if code == DoubleLetter then 2 else 1
  }

  /** What a code multiplies the whole word by. */
  function WordFactor(code: int): (f: nat)
    ensures 1 <= f <= 3
    ensures f > 1 <==> code == TripleWord || code == DoubleWord
  {
    if code == TripleWord then 3 else if code == DoubleWord then 2 else 1
  }

  /** The factors the codes stand for: triple and double word, triple and double letter. */
  lemma BonusFactors()
    ensures WordFactor(TripleWord) == 3 && WordFactor(DoubleWord) == 2
    ensures LetterFactor(TripleLetter) == 3 && LetterFactor(DoubleLetter) == 2
    ensures WordFactor(TripleLetter) == 1 && WordFactor(DoubleLetter) == 1
    ensures LetterFactor(TripleWord) == 1 && LetterFactor(DoubleWord) == 1
  {
  }

  // The score of a candidate move

  /**
   * What letter i adds to the sum: on an empty cell, the value of the
   * upper-cased letter times the letter bonus of the cell; on an occupied
   * cell, the value of the tile already there.
   */
  function TilePoints(g: Grid, b: BonusGrid, word: string, x: int, y: int, dir: Dir, i: int): nat
    requires 0 <= i < |word|
  {
    var t := Target(g, x, y, dir, i);
    if t == Empty then LetterScore(Upper(word[i])) * LetterFactor(BonusAt(b, ColOf(x, dir, i), RowOf(y, dir, i)))
    else LetterScore(t)
  }

  /** What letter i multiplies the word by: the word bonus of its cell when that cell is empty. */
  function TileFactor(g: Grid, b: BonusGrid, x: int, y: int, dir: Dir, i: int): nat {
    if Target(g, x, y, dir, i) == Empty then WordFactor(BonusAt(b, ColOf(x, dir, i), RowOf(y, dir, i))) else 1
  }

  function PointSum(g: Grid, b: BonusGrid, word: string, x: int, y: int, dir: Dir, k: nat): nat
    requires k <= |word|
    decreases k
  {
    if k == 0 then 0 else PointSum(g, b, word, x, y, dir, k - 1) + TilePoints(g, b, word, x, y, dir, k - 1)
  }

  function WordMultiplier(g: Grid, b: BonusGrid, x: int, y: int, dir: Dir, k: nat): (m: nat)
    ensures m >= 1
    decreases k
  {
    if k == 0 then 1 else WordMultiplier(g, b, x, y, dir, k - 1) * TileFactor(g, b, x, y, dir, k - 1)
  }

  /** The score of laying `word` from (x, y): its point sum times its word multiplier, with no bonus for using all seven tiles. */
  function Score(g: Grid, b: BonusGrid, word: string, x: int, y: int, dir: Dir): nat {
    PointSum(g, b, word, x, y, dir, |word|) * WordMultiplier(g, b, x, y, dir, |word|)
  }

  /** The plain value of the first k letters of a word, without any bonus. */
  function FaceValue(word: string, k: nat): nat
    requires k <= |word|
    decreases k
  {
    if k == 0 then 0 else FaceValue(word, k - 1) + LetterScore(word[k - 1])
  }

  /** A letter is worth at least its plain value wherever it lands, when an occupied cell holds the same letter. */
  lemma TilePointsAtLeastFace(g: Grid, b: BonusGrid, word: string, x: int, y: int, dir: Dir, i: int)
    requires 0 <= i < |word|
    requires Target(g, x, y, dir, i) != Empty ==> Upper(Target(g, x, y, dir, i)) == Upper(word[i])
    ensures TilePoints(g, b, word, x, y, dir, i) >= LetterScore(word[i])
    ensures (Target(g, x, y, dir, i) != Empty || LetterFactor(BonusAt(b, ColOf(x, dir, i), RowOf(y, dir, i))) == 1)
            ==> TilePoints(g, b, word, x, y, dir, i) == LetterScore(word[i])
  {
    var t := Target(g, x, y, dir, i);
    if t == Empty {
      UpperIdempotent(word[i]);
      LetterScoreIgnoresCase(Upper(word[i]), word[i]);
    } else {
      LetterScoreIgnoresCase(t, word[i]);
    }
  }

  lemma {:induction false} PointSumAtLeastFace(g: Grid, b: BonusGrid, word: string, x: int, y: int, dir: Dir, k: nat)
    requires k <= |word| && MatchesUpTo(g, word, x, y, dir, k)
    ensures PointSum(g, b, word, x, y, dir, k) >= FaceValue(word, k)
    decreases k
  {
    if k > 0 {
      PointSumAtLeastFace(g, b, word, x, y, dir, k - 1);
      TilePointsAtLeastFace(g, b, word, x, y, dir, k - 1);
    }
  }

  /** A move whose occupied cells hold its own letters scores at least the plain value of the word. */
  lemma ScoreAtLeastFace(g: Grid, b: BonusGrid, word: string, x: int, y: int, dir: Dir)
    requires MatchesUpTo(g, word, x, y, dir, |word|)
    ensures Score(g, b, word, x, y, dir) >= FaceValue(word, |word|)
  {
    PointSumAtLeastFace(g, b, word, x, y, dir, |word|);
    TimesAtLeast(PointSum(g, b, word, x, y, dir, |word|), WordMultiplier(g, b, x, y, dir, |word|));
  }

  lemma TimesAtLeast(p: nat, m: nat)
    requires m >= 1
    ensures p * m >= p
  {
    assert p * m == p * (m - 1) + p;
  }

  /** A word of letters has a positive plain value. */
  lemma {:induction false} FaceValuePositive(word: string, k: nat)
    requires 0 < k <= |word| && LettersOnly(word)
    ensures FaceValue(word, k) > 0
    decreases k
  {
    if k > 1 {
      FaceValuePositive(word, k - 1);
    }
  }

  /** A move of a non-empty word of letters whose occupied cells hold its own letters scores above 0. */
  lemma ScorePositive(g: Grid, b: BonusGrid, word: string, x: int, y: int, dir: Dir)
    requires |word| > 0 && LettersOnly(word) && MatchesUpTo(g, word, x, y, dir, |word|)
    ensures Score(g, b, word, x, y, dir) > 0
  {
    ScoreAtLeastFace(g, b, word, x, y, dir);
    FaceValuePositive(word, |word|);
  }

  /** The first k empty targets carry no bonus code. */
  ghost predicate NoBonusUnder(g: Grid, b: BonusGrid, x: int, y: int, dir: Dir, k: nat) {
    forall i :: 0 <= i < k && Target(g, x, y, dir, i) == Empty ==> BonusAt(b, ColOf(x, dir, i), RowOf(y, dir, i)) == 0
  }

  lemma {:induction false} PlainPointSum(g: Grid, b: BonusGrid, word: string, x: int, y: int, dir: Dir, k: nat)
    requires k <= |word| && MatchesUpTo(g, word, x, y, dir, k) && NoBonusUnder(g, b, x, y, dir, k)
    ensures PointSum(g, b, word, x, y, dir, k) == FaceValue(word, k)
    ensures WordMultiplier(g, b, x, y, dir, k) == 1
    decreases k
  {
    if k > 0 {
      PlainPointSum(g, b, word, x, y, dir, k - 1);
      TilePointsAtLeastFace(g, b, word, x, y, dir, k - 1);
    }
  }

  /** Without bonus codes under its new tiles, a move scores exactly the plain value of the word. */
  lemma PlainScore(g: Grid, b: BonusGrid, word: string, x: int, y: int, dir: Dir)
    requires MatchesUpTo(g, word, x, y, dir, |word|) && NoBonusUnder(g, b, x, y, dir, |word|)
    ensures Score(g, b, word, x, y, dir) == FaceValue(word, |word|)
  {
    PlainPointSum(g, b, word, x, y, dir, |word|);
  }

  /** Two grids that agree under the empty targets of the first k letters. */
  ghost predicate SameBonusUnder(g: Grid, b1: BonusGrid, b2: BonusGrid, x: int, y: int, dir: Dir, k: nat) {
    forall i :: 0 <= i < k && Target(g, x, y, dir, i) == Empty ==>
      BonusAt(b1, ColOf(x, dir, i), RowOf(y, dir, i)) == BonusAt(b2, ColOf(x, dir, i), RowOf(y, dir, i))
  }

  lemma {:induction false} SameBonusSameSums(g: Grid, b1: BonusGrid, b2: BonusGrid, word: string,
                                             x: int, y: int, dir: Dir, k: nat)
    requires k <= |word| && SameBonusUnder(g, b1, b2, x, y, dir, k)
    ensures PointSum(g, b1, word, x, y, dir, k) == PointSum(g, b2, word, x, y, dir, k)
    ensures WordMultiplier(g, b1, x, y, dir, k) == WordMultiplier(g, b2, x, y, dir, k)
    decreases k
  {
    if k > 0 {
      SameBonusSameSums(g, b1, b2, word, x, y, dir, k - 1);
    }
  }

  /** Only the codes under the new tiles matter: the codes of occupied cells never change a score. */
  lemma SameBonusSameScore(g: Grid, b1: BonusGrid, b2: BonusGrid, word: string, x: int, y: int, dir: Dir)
    requires SameBonusUnder(g, b1, b2, x, y, dir, |word|)
    ensures Score(g, b1, word, x, y, dir) == Score(g, b2, word, x, y, dir)
  {
    SameBonusSameSums(g, b1, b2, word, x, y, dir, |word|);
  }

  /**
   * One pass of the score loop: what letter i adds to the sum and what it
   * multiplies the word by, read from the cell it lands on.
   */
  method ScoreTile(word: string, i: int, x: int, y: int, dir: Dir, board: array2<char>, bonus: array2<int>)
    returns (points: int, factor: int)
    requires board.Length0 == board.Length1 && bonus.Length0 == board.Length0 && bonus.Length1 == board.Length1
    requires 0 <= i < |word| && OnBoard(board.Length0, ColOf(x, dir, i), RowOf(y, dir, i))
    ensures points == TilePoints(Snapshot(board), Snapshot(bonus), word, x, y, dir, i)
    ensures factor == TileFactor(Snapshot(board), Snapshot(bonus), x, y, dir, i)
  {
    var xx, yy := ColOf(x, dir, i), RowOf(y, dir, i);
    SnapshotAt(board, yy, xx);
    SnapshotAt(bonus, yy, xx);
    factor := 1;
    if board[yy, xx] == Empty {
      var code := bonus[yy, xx];
      var letterMult := 1;
      if code == 1 {
        factor := 3;
      } else if code == 2 {
        factor := 2;
      } else if code == 3 {
        letterMult := 3;
      } else if code == 4 {
        letterMult := 2;
      }
      points := LetterScore(Upper(word[i])) * letterMult;
    } else {
      points := LetterScore(board[yy, xx]);
    }
  }

  /** The score loop of findBestMove, for a move whose letters all land on the board. */
  method ScoreMove(word: string, x: int, y: int, dir: Dir, board: array2<char>, bonus: array2<int>)
    returns (score: int)
    requires board.Length0 == board.Length1 && bonus.Length0 == board.Length0 && bonus.Length1 == board.Length1
    requires Fits(board.Length0, x, y, dir, |word|)
    ensures score == Score(Snapshot(board), Snapshot(bonus), word, x, y, dir)
  {
    ghost var g, b := Snapshot(board), Snapshot(bonus);
    var currentScore, wordMultiplier := 0, 1;
    for i := 0 to |word|
      invariant currentScore == PointSum(g, b, word, x, y, dir, i)
      invariant wordMultiplier == WordMultiplier(g, b, x, y, dir, i)
    {
      var points, factor := ScoreTile(word, i, x, y, dir, board, bonus);
      currentScore := currentScore + points;
      wordMultiplier := wordMultiplier * factor;
    }
    score := currentScore * wordMultiplier;
  }

  // The value of the words on the board

  /** Cell i of a line belongs to a word: it holds a tile, and so does a cell next to it along the line. */
  predicate InWord(line: seq<char>, i: int)
    requires 0 <= i < |line|
  {
    line[i] != Empty && ((i > 0 && line[i - 1] != Empty) || (i + 1 < |line| && line[i + 1] != Empty))
  }

  /** The values of the tiles among the first k cells of a line that belong to a word. */
  function LineValue(line: seq<char>, k: nat): nat
    requires k <= |line|
    decreases k
  {
    if k == 0 then 0 else LineValue(line, k - 1) + (if InWord(line, k - 1) then LetterScore(line[k - 1]) else 0)
  }

  /** The values of the tiles in cells lo..hi-1. */
  function RawSum(line: seq<char>, lo: nat, hi: nat): nat
    requires lo <= hi <= |line|
    decreases hi
  {
    if hi == lo then 0 else RawSum(line, lo, hi - 1) + LetterScore(line[hi - 1])
  }

  /** Row k (along H) or column k (along V) of the board. */
  function Line(g: Grid, k: int, d: Dir): (l: seq<char>)
    ensures |l| == |g|
  {
    if d == H then RowLine(g, k) else ColLine(g, k)
  }

  /** The values of the first k rows, or of the first k columns. */
  function LinesValue(g: Grid, d: Dir, k: nat): nat
    decreases k
  {
    if k == 0 then 0 else LinesValue(g, d, k - 1) + LineValue(Line(g, k - 1, d), |g|)
  }

  /**
   * What recalcTotalScore computes: every tile counted once for the row it
   * lies in when it is part of a horizontal word, and once more for its
   * column when it is part of a vertical one.
   */
  function BoardValue(g: Grid): nat {
    LinesValue(g, H, |g|) + LinesValue(g, V, |g|)
  }

  lemma {:induction false} RunPrefixValue(line: seq<char>, lo: nat, hi: nat, k: nat)
    requires lo <= k <= hi <= |line| && hi - lo > 1
    requires forall i :: lo <= i < hi ==> line[i] != Empty
    ensures LineValue(line, k) == LineValue(line, lo) + RawSum(line, lo, k)
    decreases k
  {
    if k > lo {
      RunPrefixValue(line, lo, hi, k - 1);
      assert InWord(line, k - 1) by {
        if k - 1 == lo {
          assert line[lo + 1] != Empty;
        } else {
          assert line[k - 2] != Empty;
        }
      }
    }
  }

  /**
   * A maximal run of tiles in cells lo..hi-1 adds the value of all its
   * tiles when it is two or more long, and nothing when it is one tile.
   */
  lemma MaximalRunValue(line: seq<char>, lo: nat, hi: nat)
    requires lo <= hi <= |line|
    requires lo == 0 || line[lo - 1] == Empty
    requires hi == |line| || line[hi] == Empty
    requires forall i :: lo <= i < hi ==> line[i] != Empty
    ensures LineValue(line, hi) == LineValue(line, lo) + (if hi - lo > 1 then RawSum(line, lo, hi) else 0)
  {
    if hi - lo > 1 {
      RunPrefixValue(line, lo, hi, hi);
    } else if hi - lo == 1 {
      assert !InWord(line, lo);
    }
  }

  /** An empty cell adds nothing. */
  lemma EmptyCellValue(line: seq<char>, j: nat)
    requires j < |line| && line[j] == Empty
    ensures LineValue(line, j + 1) == LineValue(line, j)
  {
  }

  lemma {:induction false} EmptyLineValue(line: seq<char>, k: nat)
    requires k <= |line| && forall i :: 0 <= i < |line| ==> line[i] == Empty
    ensures LineValue(line, k) == 0
    decreases k
  {
    if k > 0 {
      EmptyLineValue(line, k - 1);
    }
  }

  lemma {:induction false} EmptyLinesValue(g: Grid, d: Dir, k: nat)
    requires forall r, c :: 0 <= r < |g| && 0 <= c < |g[r]| ==> g[r][c] == Empty
    ensures LinesValue(g, d, k) == 0
    decreases k
  {
    if k > 0 {
      EmptyLinesValue(g, d, k - 1);
      var line := Line(g, k - 1, d);
      forall i | 0 <= i < |line|
        ensures line[i] == Empty
      {
        if d == H {
          RowLineAt(g, k - 1, i);
        } else {
          ColLineAt(g, k - 1, i);
        }
      }
      EmptyLineValue(line, |g|);
    }
  }

  /** An empty board is worth nothing. */
  lemma EmptyBoardValue(g: Grid)
    requires forall r, c :: 0 <= r < |g| && 0 <= c < |g[r]| ==> g[r][c] == Empty
    ensures BoardValue(g) == 0
  {
    EmptyLinesValue(g, H, |g|);
    EmptyLinesValue(g, V, |g|);
  }

  /** Cell t of row k (along H) or column k (along V) of the array. */
  function ArrayCell(board: array2<char>, k: int, d: Dir, t: int): char
    requires 0 <= k < board.Length0 && 0 <= t < board.Length0 && board.Length0 == board.Length1
    reads board
  {
    if d == H then board[k, t] else board[t, k]
  }

  lemma ArrayCellIsLine(board: array2<char>, k: int, d: Dir, t: int)
    requires 0 <= k < board.Length0 && 0 <= t < board.Length0 && board.Length0 == board.Length1
    ensures ArrayCell(board, k, d, t) == Line(Snapshot(board), k, d)[t]
  {
    var g := Snapshot(board);
    if d == H {
      SnapshotAt(board, k, t);
      RowLineAt(g, k, t);
    } else {
      SnapshotAt(board, t, k);
      ColLineAt(g, k, t);
    }
  }

  /**
   * One row or one column of recalcTotalScore: empty cells are skipped,
   * the values of a run of tiles are summed, and the sum is kept when the
   * run is two or more tiles long.
   */
  method LineTotal(board: array2<char>, k: int, d: Dir) returns (v: int)
    requires board.Length0 == board.Length1 && 0 <= k < board.Length0
    ensures v == LineValue(Line(Snapshot(board), k, d), board.Length0)
  {
    var n := board.Length0;
    ghost var line := Line(Snapshot(board), k, d);
    forall t | 0 <= t < n
      ensures ArrayCell(board, k, d, t) == line[t]
    {
      ArrayCellIsLine(board, k, d, t);
    }
    v := 0;
    var j := 0;
    while j < n
      invariant 0 <= j <= n && v == LineValue(line, j)
      invariant j == 0 || j == n || line[j] == Empty
      decreases n - j
    {
      ghost var j0 := j;
      while j < n && ArrayCell(board, k, d, j) == Empty
        invariant j0 <= j <= n && v == LineValue(line, j)
        invariant j == j0 || line[j - 1] == Empty
      {
        EmptyCellValue(line, j);
        j := j + 1;
      }
      var start := j;
      var wordScore := 0;
      while j < n && ArrayCell(board, k, d, j) != Empty
        invariant start <= j <= n && wordScore == RawSum(line, start, j)
        invariant forall i :: start <= i < j ==> line[i] != Empty
      {
        wordScore := wordScore + LetterScore(ArrayCell(board, k, d, j));
        j := j + 1;
      }
      MaximalRunValue(line, start, j);
      if j - start > 1 {
        v := v + wordScore;
      }
    }
  }

  /** recalcTotalScore of board.c: the rows first, then the columns. */
  method RecalcTotalScore(board: array2<char>) returns (total: int)
    requires board.Length0 == board.Length1
    ensures total == BoardValue(Snapshot(board))
  {
    var n := board.Length0;
    ghost var g := Snapshot(board);
    total := 0;
    for i := 0 to n
      invariant total == LinesValue(g, H, i)
    {
      var v := LineTotal(board, i, H);
      total := total + v;
    }
    for j := 0 to n
      invariant total == LinesValue(g, H, n) + LinesValue(g, V, j)
    {
      var v := LineTotal(board, j, V);
      total := total + v;
    }
  }
}
