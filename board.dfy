/**
 * The board as a value: a square grid of cells indexed g[row][column]
 * (board[y][x] in the game), where ' ' marks an empty cell. Also the
 * geometry of a word laid from an anchor cell, the board that results from
 * writing a word's tiles, and the maximal runs of tiles along a line.
 */
module Board {
  import opened Letters

  const Empty: char := ' '

  type Grid = seq<seq<char>>

  /** 'h' lays a word left to right; every other direction character lays it top to bottom. */
  datatype Dir = H | V

  function DirOf(c: char): (d: Dir)
    ensures d == H <==> c == 'h'
  {
    if c == 'h' then H else V
  }

  ghost predicate Square<T>(g: seq<seq<T>>, n: nat) {
    |g| == n && forall r :: 0 <= r < n ==> |g[r]| == n
  }

  /** The first k cells of row r of an array2. */
  ghost function RowPrefix<T>(a: array2<T>, r: nat, k: nat): (row: seq<T>)
    requires r < a.Length0 && k <= a.Length1
    reads a
    ensures |row| == k
    decreases k
  {
    if k == 0 then [] else RowPrefix(a, r, k - 1) + [a[r, k - 1]]
  }

  /** The first k rows of an array2. */
  ghost function RowsPrefix<T>(a: array2<T>, k: nat): (g: seq<seq<T>>)
    requires k <= a.Length0
    reads a
    ensures |g| == k && forall r :: 0 <= r < k ==> |g[r]| == a.Length1
    decreases k
  {
    if k == 0 then [] else RowsPrefix(a, k - 1) + [RowPrefix(a, k - 1, a.Length1)]
  }

  /**
   * The contents of an array2 as a sequence of rows. Its cells are those of
   * the array (SnapshotAt, SnapshotCells).
   */
  ghost function Snapshot<T>(a: array2<T>): (g: seq<seq<T>>)
    reads a
    ensures |g| == a.Length0 && forall r :: 0 <= r < a.Length0 ==> |g[r]| == a.Length1
  {
    RowsPrefix(a, a.Length0)
  }

  lemma {:induction false} RowPrefixAt<T>(a: array2<T>, r: nat, k: nat, c: nat)
    requires r < a.Length0 && c < k <= a.Length1
    ensures RowPrefix(a, r, k)[c] == a[r, c]
    decreases k
  {
    if c < k - 1 {
      RowPrefixAt(a, r, k - 1, c);
    }
  }

  lemma {:induction false} RowsPrefixAt<T>(a: array2<T>, k: nat, r: nat, c: nat)
    requires r < k <= a.Length0 && c < a.Length1
    ensures RowsPrefix(a, k)[r][c] == a[r, c]
    decreases k
  {
    if r < k - 1 {
      RowsPrefixAt(a, k - 1, r, c);
    } else {
      RowPrefixAt(a, r, a.Length1, c);
    }
  }

  /** Cell (r, c) of the snapshot is a[r, c]. */
  lemma SnapshotAt<T>(a: array2<T>, r: int, c: int)
    requires 0 <= r < a.Length0 && 0 <= c < a.Length1
    ensures Snapshot(a)[r][c] == a[r, c]
  {
    RowsPrefixAt(a, a.Length0, r, c);
  }

  lemma SnapshotCells<T>(a: array2<T>)
    ensures forall r, c :: 0 <= r < a.Length0 && 0 <= c < a.Length1 ==> Snapshot(a)[r][c] == a[r, c]
  {
    forall r, c | 0 <= r < a.Length0 && 0 <= c < a.Length1 {
      SnapshotAt(a, r, c);
    }
  }

  /** Column and row of the i-th letter of a word anchored at (x, y). */
  function ColOf(x: int, dir: Dir, i: int): int { if dir == H then x + i else x }
  function RowOf(y: int, dir: Dir, i: int): int { if dir == V then y + i else y }

  predicate OnBoard(n: int, cx: int, cy: int) { 0 <= cx < n && 0 <= cy < n }

  /** The first `len` letters of a word anchored at (x, y) all land on an n-by-n board. */
  predicate Fits(n: int, x: int, y: int, dir: Dir, len: nat) {
    forall i :: 0 <= i < len ==> OnBoard(n, ColOf(x, dir, i), RowOf(y, dir, i))
  }

  /** A word fits exactly when its first and last letters land on the board. */
  lemma FitsByEnds(n: int, x: int, y: int, dir: Dir, len: nat)
    requires len > 0
    ensures Fits(n, x, y, dir, len) <==>
      OnBoard(n, x, y) && OnBoard(n, ColOf(x, dir, len - 1), RowOf(y, dir, len - 1))
  {
    if Fits(n, x, y, dir, len) {
      assert OnBoard(n, ColOf(x, dir, 0), RowOf(y, dir, 0));
      assert OnBoard(n, ColOf(x, dir, len - 1), RowOf(y, dir, len - 1));
    }
    if OnBoard(n, x, y) && OnBoard(n, ColOf(x, dir, len - 1), RowOf(y, dir, len - 1)) {
      forall i | 0 <= i < len
        ensures OnBoard(n, ColOf(x, dir, i), RowOf(y, dir, i))
      {
      }
    }
  }

  /** The cell at column cx and row cy; a cell off the board reads as empty. */
  function Cell(g: Grid, cx: int, cy: int): char {
    if 0 <= cy < |g| && 0 <= cx < |g[cy]| then g[cy][cx] else Empty
  }

  /** The cell the i-th letter of a word anchored at (x, y) lands on. */
  function Target(g: Grid, x: int, y: int, dir: Dir, i: int): char {
    Cell(g, ColOf(x, dir, i), RowOf(y, dir, i))
  }

  /**
   * The tiles the first k letters of `word` take from the rack: the
   * upper-cased letter of every empty target, in word order.
   */
  function NewTiles(g: Grid, word: string, x: int, y: int, dir: Dir, k: nat): (t: seq<char>)
    requires k <= |word|
    ensures |t| <= k
    decreases k
  {
    if k == 0 then []
    else
      var added := if Target(g, x, y, dir, k - 1) == Empty then [Upper(word[k - 1])] else [];
      NewTiles(g, word, x, y, dir, k - 1) + added
  }

  /** The tiles a longer prefix takes include those of a shorter one. */
  lemma {:induction false} NewTilesGrow(g: Grid, word: string, x: int, y: int, dir: Dir, i: nat, j: nat)
    requires i <= j <= |word|
    ensures NewTiles(g, word, x, y, dir, i) <= NewTiles(g, word, x, y, dir, j)
    ensures forall c :: Count(NewTiles(g, word, x, y, dir, i), c) <= Count(NewTiles(g, word, x, y, dir, j), c)
    decreases j
  {
    if i < j {
      NewTilesGrow(g, word, x, y, dir, i, j - 1);
    }
    forall c {
      CountPrefix(NewTiles(g, word, x, y, dir, i), NewTiles(g, word, x, y, dir, j), c);
    }
  }

  /** Index of (cx, cy) within a word anchored at (x, y), or -1 when the word's line misses it. */
  function OffsetOf(x: int, y: int, dir: Dir, cx: int, cy: int): int {
    if dir == H then (if cy == y then cx - x else -1)
    else (if cx == x then cy - y else -1)
  }

  /** Cell (cx, cy) once the tiles of `word` have been written into the empty targets. */
  function PlacedCell(g: Grid, word: string, x: int, y: int, dir: Dir, cx: int, cy: int): char {
    var i := OffsetOf(x, y, dir, cx, cy);
    if 0 <= i < |word| && Cell(g, cx, cy) == Empty then Upper(word[i]) else Cell(g, cx, cy)
  }

  /**
   * The board after writing toupper(word[i]) into every empty target of the
   * word; occupied targets and all other cells keep their contents.
   */
  function Placed(g: Grid, word: string, x: int, y: int, dir: Dir): (s: Grid)
    ensures |s| == |g| && forall r :: 0 <= r < |g| ==> |s[r]| == |g[r]|
    ensures forall i ::
      (0 <= i < |word| && Target(g, x, y, dir, i) == Empty && OnBoard(|g|, ColOf(x, dir, i), RowOf(y, dir, i)) &&
       |g[RowOf(y, dir, i)]| == |g|) ==>
      Target(s, x, y, dir, i) == Upper(word[i])
    ensures forall i :: 0 <= i < |word| && Target(g, x, y, dir, i) != Empty ==>
      Target(s, x, y, dir, i) == Target(g, x, y, dir, i)
    ensures forall cx, cy :: !(0 <= OffsetOf(x, y, dir, cx, cy) < |word|) ==> Cell(s, cx, cy) == Cell(g, cx, cy)
  {
    PlacedRows(g, word, x, y, dir, |g|)
  }

  function PlacedRows(g: Grid, word: string, x: int, y: int, dir: Dir, k: nat): (s: Grid)
    requires k <= |g|
    ensures |s| == k && forall r :: 0 <= r < k ==> |s[r]| == |g[r]|
    ensures forall r, c :: 0 <= r < k && 0 <= c < |g[r]| ==> s[r][c] == PlacedCell(g, word, x, y, dir, c, r)
    decreases k
  {
    if k == 0 then [] else PlacedRows(g, word, x, y, dir, k - 1) + [PlacedRow(g, word, x, y, dir, k - 1, |g[k - 1]|)]
  }

  function PlacedRow(g: Grid, word: string, x: int, y: int, dir: Dir, r: int, k: nat): (row: seq<char>)
    ensures |row| == k && forall c :: 0 <= c < k ==> row[c] == PlacedCell(g, word, x, y, dir, c, r)
    decreases k
  {
    if k == 0 then [] else PlacedRow(g, word, x, y, dir, r, k - 1) + [PlacedCell(g, word, x, y, dir, k - 1, r)]
  }

  /** The array holds g with the tiles of the first i letters of the word written in. */
  ghost predicate WrittenUpTo(board: array2<char>, g: Grid, word: string, x: int, y: int, dir: Dir, i: int)
    reads board
  {
    forall r, c :: 0 <= r < board.Length0 && 0 <= c < board.Length1 ==>
      board[r, c] == (if OffsetOf(x, y, dir, c, r) < i then PlacedCell(g, word, x, y, dir, c, r) else Cell(g, c, r))
  }

  lemma WrittenFromStart(board: array2<char>, g: Grid, word: string, x: int, y: int, dir: Dir)
    requires g == Snapshot(board)
    ensures WrittenUpTo(board, g, word, x, y, dir, 0)
  {
    SnapshotCells(board);
  }

  lemma WrittenAll(board: array2<char>, g: Grid, word: string, x: int, y: int, dir: Dir)
    requires |g| == board.Length0 && forall r :: 0 <= r < |g| ==> |g[r]| == board.Length1
    requires WrittenUpTo(board, g, word, x, y, dir, |word|)
    ensures Snapshot(board) == Placed(g, word, x, y, dir)
  {
    var s := Snapshot(board);
    var p := Placed(g, word, x, y, dir);
    SnapshotCells(board);
    forall r, c | 0 <= r < |s| && 0 <= c < |s[r]|
      ensures s[r][c] == p[r][c]
    {
      if !(OffsetOf(x, y, dir, c, r) < |word|) {
        assert PlacedCell(g, word, x, y, dir, c, r) == Cell(g, c, r);
      }
    }
    GridExt(s, p);
  }

  /**
   * One step of writing a word: letter i, which lands on the board, is
   * written in upper case when its cell is empty. Reports whether it was.
   */
  method WriteLetter(board: array2<char>, word: string, i: int, x: int, y: int, dir: Dir, ghost g: Grid)
    returns (wasEmpty: bool)
    requires 0 <= i < |word| && OnBoard(board.Length0, ColOf(x, dir, i), RowOf(y, dir, i))
    requires board.Length0 == board.Length1 && WrittenUpTo(board, g, word, x, y, dir, i)
    modifies board
    ensures WrittenUpTo(board, g, word, x, y, dir, i + 1)
    ensures wasEmpty == (Target(g, x, y, dir, i) == Empty)
  {
    var cx, cy := ColOf(x, dir, i), RowOf(y, dir, i);
    assert OffsetOf(x, y, dir, cx, cy) == i;
    wasEmpty := board[cy, cx] == Empty;
    if wasEmpty {
      board[cy, cx] := Upper(word[i]);
    }
  }

  /** Two grids with the same shape and the same cells are equal. */
  lemma GridExt<T>(a: seq<seq<T>>, b: seq<seq<T>>)
    requires |a| == |b|
    requires forall r :: 0 <= r < |a| ==> |a[r]| == |b[r]|
    requires forall r, c :: 0 <= r < |a| && 0 <= c < |a[r]| ==> a[r][c] == b[r][c]
    ensures a == b
  {
    forall r | 0 <= r < |a|
      ensures a[r] == b[r]
    {
    }
  }

  /** Writing the same word a second time changes nothing. */
  lemma PlacedIdempotent(g: Grid, word: string, x: int, y: int, dir: Dir)
    ensures Placed(Placed(g, word, x, y, dir), word, x, y, dir) == Placed(g, word, x, y, dir)
  {
    var s := Placed(g, word, x, y, dir);
    var t := Placed(s, word, x, y, dir);
    forall r, c | 0 <= r < |t| && 0 <= c < |t[r]|
      ensures t[r][c] == s[r][c]
    {
      UpperIdempotent(if 0 <= OffsetOf(x, y, dir, c, r) < |word| then word[OffsetOf(x, y, dir, c, r)] else ' ');
    }
    GridExt(t, s);
  }

  /** Every cell a word covers holds a tile once the word is placed. */
  lemma PlacedCovers(g: Grid, word: string, x: int, y: int, dir: Dir, cx: int, cy: int)
    requires Square(g, |g|) && LettersOnly(word) && OnBoard(|g|, cx, cy)
    requires 0 <= OffsetOf(x, y, dir, cx, cy) < |word|
    ensures Cell(Placed(g, word, x, y, dir), cx, cy) != Empty
  {
    var i := OffsetOf(x, y, dir, cx, cy);
    assert Placed(g, word, x, y, dir)[cy][cx] == PlacedCell(g, word, x, y, dir, cx, cy);
    UpperIdempotent(word[i]);
  }

  // Lines and runs

  /** Row cy and column cx of an n-by-n grid, read through Cell. */
  function RowLine(g: Grid, cy: int): (l: seq<char>)
    ensures |l| == |g|
  {
    RowLineUpTo(g, cy, |g|)
  }

  function RowLineUpTo(g: Grid, cy: int, k: nat): (l: seq<char>)
    ensures |l| == k
    decreases k
  {
    if k == 0 then [] else RowLineUpTo(g, cy, k - 1) + [Cell(g, k - 1, cy)]
  }

  function ColLine(g: Grid, cx: int): (l: seq<char>)
    ensures |l| == |g|
  {
    ColLineUpTo(g, cx, |g|)
  }

  function ColLineUpTo(g: Grid, cx: int, k: nat): (l: seq<char>)
    ensures |l| == k
    decreases k
  {
    if k == 0 then [] else ColLineUpTo(g, cx, k - 1) + [Cell(g, cx, k - 1)]
  }

  lemma {:induction false} RowLineUpToAt(g: Grid, cy: int, k: nat, c: nat)
    requires c < k
    ensures RowLineUpTo(g, cy, k)[c] == Cell(g, c, cy)
    decreases k
  {
    if c < k - 1 {
      RowLineUpToAt(g, cy, k - 1, c);
    }
  }

  lemma {:induction false} ColLineUpToAt(g: Grid, cx: int, k: nat, r: nat)
    requires r < k
    ensures ColLineUpTo(g, cx, k)[r] == Cell(g, cx, r)
    decreases k
  {
    if r < k - 1 {
      ColLineUpToAt(g, cx, k - 1, r);
    }
  }

  /** Cell c of row cy, and cell r of column cx. */
  lemma RowLineAt(g: Grid, cy: int, c: int)
    requires 0 <= c < |g|
    ensures RowLine(g, cy)[c] == Cell(g, c, cy)
  {
    RowLineUpToAt(g, cy, |g|, c);
  }

  lemma ColLineAt(g: Grid, cx: int, r: int)
    requires 0 <= r < |g|
    ensures ColLine(g, cx)[r] == Cell(g, cx, r)
  {
    ColLineUpToAt(g, cx, |g|, r);
  }

  /** First index of the run of tiles that ends just before index p (p itself when line[p-1] is empty). */
  function RunStart(line: seq<char>, p: nat): (lo: nat)
    requires p <= |line|
    ensures lo <= p
    decreases p
  {
    if p > 0 && line[p - 1] != Empty then RunStart(line, p - 1) else p
  }

  /** Last index of the run of tiles that starts just after index p (p itself when line[p+1] is empty). */
  function RunEnd(line: seq<char>, p: nat): (hi: nat)
    requires p < |line|
    ensures p <= hi < |line|
    decreases |line| - p
  {
    if p < |line| - 1 && line[p + 1] != Empty then RunEnd(line, p + 1) else p
  }

  /** One step of the walks that compute RunStart and RunEnd. */
  lemma RunStartStep(line: seq<char>, p: nat)
    requires 0 < p <= |line| && line[p - 1] != Empty
    ensures RunStart(line, p) == RunStart(line, p - 1)
  {
  }

  lemma RunEndStep(line: seq<char>, p: nat)
    requires p + 1 < |line| && line[p + 1] != Empty
    ensures RunEnd(line, p) == RunEnd(line, p + 1)
  {
  }

  /** RunStart stops at the edge or at an empty cell, with tiles all the way from there to p. */
  lemma {:induction false} RunStartMaximal(line: seq<char>, p: nat)
    requires p <= |line|
    ensures RunStart(line, p) == 0 || line[RunStart(line, p) - 1] == Empty
    ensures forall k :: RunStart(line, p) <= k < p ==> line[k] != Empty
    decreases p
  {
    if p > 0 && line[p - 1] != Empty {
      RunStartMaximal(line, p - 1);
    }
  }

  /** RunEnd stops at the edge or before an empty cell, with tiles all the way from p to there. */
  lemma {:induction false} RunEndMaximal(line: seq<char>, p: nat)
    requires p < |line|
    ensures RunEnd(line, p) == |line| - 1 || line[RunEnd(line, p) + 1] == Empty
    ensures forall k :: p < k <= RunEnd(line, p) ==> line[k] != Empty
    decreases |line| - p
  {
    if p < |line| - 1 && line[p + 1] != Empty {
      RunEndMaximal(line, p + 1);
    }
  }

  /** The extent that RunStart and RunEnd compute is the only maximal one. */
  lemma {:induction false} RunBoundsUnique(line: seq<char>, p: nat, lo: nat, hi: nat)
    requires lo <= p <= hi < |line|
    requires lo == 0 || line[lo - 1] == Empty
    requires hi == |line| - 1 || line[hi + 1] == Empty
    requires forall k :: lo <= k < p ==> line[k] != Empty
    requires forall k :: p < k <= hi ==> line[k] != Empty
    ensures RunStart(line, p) == lo && RunEnd(line, p) == hi
  {
    RunStartMaximal(line, p);
    RunEndMaximal(line, p);
  }

  /** The whole run through index p: the maximal stretch of tiles around it, p included. */
  function RunThrough(line: seq<char>, p: nat): (run: seq<char>)
    requires p < |line|
    ensures |run| >= 1
  {
    line[RunStart(line, p)..RunEnd(line, p) + 1]
  }

  /**
   * The word crossing cell (cx, cy) at right angles to `dir`: its column for
   * a horizontal word, its row for a vertical one.
   */
  function CrossRun(g: Grid, cx: int, cy: int, dir: Dir): seq<char>
    requires OnBoard(|g|, cx, cy)
  {
    if dir == H then RunThrough(ColLine(g, cx), cy) else RunThrough(RowLine(g, cy), cx)
  }

  /** The run through (cx, cy) along `dir` itself. */
  function MainRun(g: Grid, cx: int, cy: int, dir: Dir): seq<char>
    requires OnBoard(|g|, cx, cy)
  {
    if dir == H then RunThrough(RowLine(g, cy), cx) else RunThrough(ColLine(g, cx), cy)
  }
}
