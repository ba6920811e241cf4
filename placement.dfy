/**
 * canPlaceWord: may a word be laid from (x, y) in direction dir with the
 * tiles of the rack? Two variants: the strict one of board.c, which also
 * demands free cells at both ends, at least one new tile and contact by
 * overlap or by a side neighbour, and the lenient one of scrabble.c (and of
 * scrabble_pasutf8.c, whose copy is identical), which only demands overlap.
 */
module Placement {
  import opened Letters
  import opened Board

  // The conditions, stated on the board as a value

  // Each condition on the first k letters of a word is defined letter by
  // letter, as the scan computes it; the lemmas below give its meaning as
  // a statement about all (or some) of the k letters.

  /** Every occupied target among the first k holds the word's letter, ignoring case. */
  ghost predicate MatchesUpTo(g: Grid, word: string, x: int, y: int, dir: Dir, k: nat)
    requires k <= |word|
    decreases k
  {
    k == 0 ||
    (MatchesUpTo(g, word, x, y, dir, k - 1) &&
     (Target(g, x, y, dir, k - 1) != Empty ==> Upper(Target(g, x, y, dir, k - 1)) == Upper(word[k - 1])))
  }

  /** The rack holds, letter by letter, at least the upper-case tiles the word needs; other rack characters are not tiles. */
  ghost predicate RackCovers(tiles: seq<char>, rack: seq<char>) {
    forall c :: IsUpperLetter(c) ==> Count(tiles, c) <= Count(rack, c)
  }

  /** Some of the first k letters lands on an occupied cell. */
  ghost predicate Overlaps(g: Grid, x: int, y: int, dir: Dir, k: nat)
    decreases k
  {
    k > 0 && (Overlaps(g, x, y, dir, k - 1) || Target(g, x, y, dir, k - 1) != Empty)
  }

  /** Some of the first k letters lands on an empty cell. */
  ghost predicate PlacesNewTile(g: Grid, x: int, y: int, dir: Dir, k: nat)
    decreases k
  {
    k > 0 && (PlacesNewTile(g, x, y, dir, k - 1) || Target(g, x, y, dir, k - 1) == Empty)
  }

  /** Cell (cx, cy) has a tile beside it, across the direction of the word. */
  predicate SideContact(g: Grid, cx: int, cy: int, dir: Dir) {
    if dir == H then Cell(g, cx, cy - 1) != Empty || Cell(g, cx, cy + 1) != Empty
    else Cell(g, cx - 1, cy) != Empty || Cell(g, cx + 1, cy) != Empty
  }

  /** Letter i lands on a tile, or on an empty cell with a tile beside it. */
  predicate TouchesAt(g: Grid, x: int, y: int, dir: Dir, i: int) {
    Target(g, x, y, dir, i) != Empty || SideContact(g, ColOf(x, dir, i), RowOf(y, dir, i), dir)
  }

  /** Some of the first k letters touches the tiles on the board. */
  ghost predicate Touches(g: Grid, x: int, y: int, dir: Dir, k: nat)
    decreases k
  {
    k > 0 && (Touches(g, x, y, dir, k - 1) || TouchesAt(g, x, y, dir, k - 1))
  }

  /** Letter i lands on the cell (mid, mid), the centre of a board of size 2 * mid or 2 * mid + 1. */
  predicate AtCenter(mid: int, x: int, y: int, dir: Dir, i: int) {
    ColOf(x, dir, i) == mid && RowOf(y, dir, i) == mid
  }

  /** Some of the first k letters lands on the cell (mid, mid). */
  ghost predicate CoversCenter(mid: int, x: int, y: int, dir: Dir, k: nat)
    decreases k
  {
    k > 0 && (CoversCenter(mid, x, y, dir, k - 1) || AtCenter(mid, x, y, dir, k - 1))
  }

  lemma {:induction false} MatchesUpToMeans(g: Grid, word: string, x: int, y: int, dir: Dir, k: nat)
    requires k <= |word|
    ensures MatchesUpTo(g, word, x, y, dir, k) <==>
      forall i :: 0 <= i < k && Target(g, x, y, dir, i) != Empty ==> Upper(Target(g, x, y, dir, i)) == Upper(word[i])
    decreases k
  {
    if k > 0 { MatchesUpToMeans(g, word, x, y, dir, k - 1); }
  }

  lemma {:induction false} OverlapsMeans(g: Grid, x: int, y: int, dir: Dir, k: nat)
    ensures Overlaps(g, x, y, dir, k) <==> exists i :: 0 <= i < k && Target(g, x, y, dir, i) != Empty
    decreases k
  {
    if k > 0 { OverlapsMeans(g, x, y, dir, k - 1); }
  }

  lemma {:induction false} PlacesNewTileMeans(g: Grid, x: int, y: int, dir: Dir, k: nat)
    ensures PlacesNewTile(g, x, y, dir, k) <==> exists i :: 0 <= i < k && Target(g, x, y, dir, i) == Empty
    decreases k
  {
    if k > 0 { PlacesNewTileMeans(g, x, y, dir, k - 1); }
  }

  lemma {:induction false} TouchesMeans(g: Grid, x: int, y: int, dir: Dir, k: nat)
    ensures Touches(g, x, y, dir, k) <==> exists i :: 0 <= i < k && TouchesAt(g, x, y, dir, i)
    decreases k
  {
    if k > 0 { TouchesMeans(g, x, y, dir, k - 1); }
  }

  lemma {:induction false} CoversCenterMeans(mid: int, x: int, y: int, dir: Dir, k: nat)
    ensures CoversCenter(mid, x, y, dir, k) <==> exists i :: 0 <= i < k && AtCenter(mid, x, y, dir, i)
    decreases k
  {
    if k > 0 { CoversCenterMeans(mid, x, y, dir, k - 1); }
  }

  /** The cells just before the first letter and just after the last one are empty (or off the board). */
  predicate EndsFree(g: Grid, x: int, y: int, dir: Dir, len: nat) {
    Target(g, x, y, dir, -1) == Empty && Target(g, x, y, dir, len) == Empty
  }

  /** The part both variants share: on the board, matching, and paid for by the rack. */
  ghost predicate Playable(g: Grid, word: string, x: int, y: int, dir: Dir, rack: seq<char>) {
    Fits(|g|, x, y, dir, |word|) &&
    MatchesUpTo(g, word, x, y, dir, |word|) &&
    RackCovers(NewTiles(g, word, x, y, dir, |word|), rack)
  }

  /**
   * board.c: the word also has free ends and lays at least one tile; after
   * the first move (totalPoints > 0) it touches the board; on the first move
   * (totalPoints == 0) it covers the centre.
   */
  ghost predicate StrictCanPlace(g: Grid, word: string, x: int, y: int, dir: Dir, rack: seq<char>, totalPoints: int) {
    Playable(g, word, x, y, dir, rack) &&
    EndsFree(g, x, y, dir, |word|) &&
    PlacesNewTile(g, x, y, dir, |word|) &&
    (totalPoints > 0 ==> Touches(g, x, y, dir, |word|)) &&
    (totalPoints == 0 ==> CoversCenter(|g| / 2, x, y, dir, |word|))
  }

  /** scrabble.c: after the first move the word overlaps a tile; on the first move it covers the centre. */
  ghost predicate LenientCanPlace(g: Grid, word: string, x: int, y: int, dir: Dir, rack: seq<char>, totalPoints: int) {
    Playable(g, word, x, y, dir, rack) &&
    (totalPoints > 0 ==> Overlaps(g, x, y, dir, |word|)) &&
    (totalPoints == 0 ==> CoversCenter(|g| / 2, x, y, dir, |word|))
  }

  /**
   * What canPlaceWord needs to stay inside its arrays: every letter that
   * would land on an empty cell of the board is an ASCII letter, since
   * toupper of it indexes the 26-entry frequency table.
   */
  ghost predicate TilesIndexable(g: Grid, word: string, x: int, y: int, dir: Dir) {
    forall i ::
      (0 <= i < |word| && OnBoard(|g|, ColOf(x, dir, i), RowOf(y, dir, i)) && Target(g, x, y, dir, i) == Empty) ==>
      IsLetter(word[i])
  }

  /**
   * What the strict variant needs on top: the probe of the cell before the
   * word, made before any bounds test when the word does not start at the
   * edge, reads inside the board, and so does the probe of the cell after
   * an empty word, which nothing else guards.
   */
  predicate ProbesOnBoard(n: int, x: int, y: int, dir: Dir, len: nat) {
    if dir == H then (x > 0 ==> 0 <= y < n && x <= n) && (len == 0 && x < n ==> 0 <= x && 0 <= y < n)
    else (y > 0 ==> 0 <= x < n && y <= n) && (len == 0 && y < n ==> 0 <= y && 0 <= x < n)
  }

  // The scan both variants perform

  /** Rack tiles of letter LetterAt(c) left over once `tiles` are paid for. */
  ghost function Balance(rack: seq<char>, tiles: seq<char>, c: int): int
    requires 0 <= c < 26
  {
    Count(rack, LetterAt(c)) as int - Count(tiles, LetterAt(c))
  }

  /** `f` is the whole frequency table: entry c is Balance(rack, tiles, c). */
  ghost predicate Tallies(f: seq<int>, rack: seq<char>, tiles: seq<char>) {
    |f| == 26 && forall c :: 0 <= c < 26 ==> f[c] == Balance(rack, tiles, c)
  }

  /** Paying for one more tile t lowers entry t - 'A' of the table by one. */
  lemma TalliesStep(f: seq<int>, rack: seq<char>, tiles: seq<char>, t: char)
    requires IsUpperLetter(t) && Tallies(f, rack, tiles)
    ensures Tallies(f[t as int - 'A' as int := f[t as int - 'A' as int] - 1], rack, tiles + [t])
  {
    forall c {
      CountSnoc(tiles, t, c);
    }
    assert LetterAt(t as int - 'A' as int) == t;
  }

  /** One more tile t is covered exactly when the rack has a tile of t left over. */
  lemma CoversExtend(rack: seq<char>, tiles: seq<char>, t: char)
    requires IsUpperLetter(t)
    ensures RackCovers(tiles + [t], rack) <==> RackCovers(tiles, rack) && Balance(rack, tiles, t as int - 'A' as int) > 0
  {
    forall c {
      CountSnoc(tiles, t, c);
    }
    assert LetterAt(t as int - 'A' as int) == t;
  }

  /** Fewer tiles are covered whenever more are. */
  lemma CoversFewer(rack: seq<char>, a: seq<char>, b: seq<char>)
    requires forall c :: Count(a, c) <= Count(b, c)
    ensures RackCovers(b, rack) ==> RackCovers(a, rack)
  {
  }

  /** One more rack character adds one to its entry of the table when it is an upper-case letter. */
  lemma TalliesRackStep(f: seq<int>, rack: seq<char>, ch: char)
    requires Tallies(f, rack, [])
    ensures Tallies(if IsUpperLetter(ch) then f[ch as int - 'A' as int := f[ch as int - 'A' as int] + 1] else f,
                    rack + [ch], [])
  {
    forall c {
      CountSnoc(rack, ch, c);
    }
    if IsUpperLetter(ch) {
      assert LetterAt(ch as int - 'A' as int) == ch;
    }
  }

  /** The frequency table of the rack's upper-case letters, as canPlaceWord builds it. */
  method RackFrequencies(rack: array<char>) returns (freq: array<int>)
    requires rack.Length == 7
    ensures fresh(freq) && Tallies(freq[..], rack[..], [])
  {
    freq := new int[26](_ => 0);
    assert rack[..0] == [];
    for k := 0 to 7
      invariant freq.Length == 26 && Tallies(freq[..], rack[..k], [])
    {
      var ch := rack[k];
      assert rack[..k + 1] == rack[..k] + [ch];
      TalliesRackStep(freq[..], rack[..k], ch);
      if 'A' <= ch <= 'Z' {
        freq[ch as int - 'A' as int] := freq[ch as int - 'A' as int] + 1;
      }
    }
    assert rack[..7] == rack[..];
  }

  /**
   * One empty target of letter t: fails when the frequency table has no t
   * left, otherwise takes one t from it.
   */
  method TakeTile(freq: array<int>, t: char, ghost rack: seq<char>, ghost tiles: seq<char>) returns (paid: bool)
    requires IsUpperLetter(t) && Tallies(freq[..], rack, tiles) && RackCovers(tiles, rack)
    modifies freq
    ensures paid == RackCovers(tiles + [t], rack)
    ensures paid ==> Tallies(freq[..], rack, tiles + [t])
    ensures !paid ==> freq[..] == old(freq[..])
  {
    var idx := t as int - 'A' as int;
    CoversExtend(rack, tiles, t);
    if freq[idx] <= 0 {
      return false;
    }
    TalliesStep(freq[..], rack, tiles, t);
    freq[idx] := freq[idx] - 1;
    paid := true;
  }

  /** The probe of the two cells beside (cx, cy), across the direction of the word. */
  method SideProbe(board: array2<char>, cx: int, cy: int, dir: Dir) returns (side: bool)
    requires board.Length0 == board.Length1 && OnBoard(board.Length0, cx, cy)
    ensures side == SideContact(Snapshot(board), cx, cy, dir)
  {
    var n := board.Length0;
    SnapshotCells(board);
    if dir == H {
      side := (cy > 0 && board[cy - 1, cx] != Empty) || (cy < n - 1 && board[cy + 1, cx] != Empty);
    } else {
      side := (cx > 0 && board[cy, cx - 1] != Empty) || (cx < n - 1 && board[cy, cx + 1] != Empty);
    }
  }

  /** A letter off the board makes the word unplayable. */
  lemma OffBoardNotPlayable(g: Grid, word: string, x: int, y: int, dir: Dir, rack: seq<char>, i: nat)
    requires i < |word| && !OnBoard(|g|, ColOf(x, dir, i), RowOf(y, dir, i))
    ensures !Playable(g, word, x, y, dir, rack)
  {
  }

  /** An occupied target holding another letter makes the word unplayable. */
  lemma MismatchNotPlayable(g: Grid, word: string, x: int, y: int, dir: Dir, rack: seq<char>, i: nat)
    requires i < |word| && Target(g, x, y, dir, i) != Empty
    requires Upper(Target(g, x, y, dir, i)) != Upper(word[i])
    ensures !Playable(g, word, x, y, dir, rack)
  {
    MatchesUpToMeans(g, word, x, y, dir, |word|);
  }

  /** A prefix the rack cannot pay for makes the word unplayable. */
  lemma UnpaidNotPlayable(g: Grid, word: string, x: int, y: int, dir: Dir, rack: seq<char>, i: nat)
    requires i < |word| && !RackCovers(NewTiles(g, word, x, y, dir, i + 1), rack)
    ensures !Playable(g, word, x, y, dir, rack)
  {
    NewTilesGrow(g, word, x, y, dir, i + 1, |word|);
    CoversFewer(rack, NewTiles(g, word, x, y, dir, i + 1), NewTiles(g, word, x, y, dir, |word|));
  }

  /** One more letter on the board whose target is empty or matches extends the scanned prefix. */
  lemma ScanStep(g: Grid, word: string, x: int, y: int, dir: Dir, i: nat)
    requires i < |word| && Fits(|g|, x, y, dir, i) && MatchesUpTo(g, word, x, y, dir, i)
    requires OnBoard(|g|, ColOf(x, dir, i), RowOf(y, dir, i))
    requires Target(g, x, y, dir, i) != Empty ==> Upper(Target(g, x, y, dir, i)) == Upper(word[i])
    ensures Fits(|g|, x, y, dir, i + 1) && MatchesUpTo(g, word, x, y, dir, i + 1)
  {
  }

  /**
   * An empty target of letter i takes a tile of toupper(word[i]) from the
   * frequency table, failing when none is left.
   */
  method PayTile(word: string, i: nat, x: int, y: int, dir: Dir, freq: array<int>,
                 ghost g: Grid, ghost rack: seq<char>)
    returns (paid: bool)
    requires i < |word| && IsLetter(word[i]) && Target(g, x, y, dir, i) == Empty
    requires Tallies(freq[..], rack, NewTiles(g, word, x, y, dir, i))
    requires RackCovers(NewTiles(g, word, x, y, dir, i), rack)
    modifies freq
    ensures !paid ==> !Playable(g, word, x, y, dir, rack)
    ensures paid ==> Tallies(freq[..], rack, NewTiles(g, word, x, y, dir, i + 1))
    ensures paid ==> RackCovers(NewTiles(g, word, x, y, dir, i + 1), rack)
  {
    var wordLetter := Upper(word[i]);
    UpperIdempotent(word[i]);
    ghost var tiles := NewTiles(g, word, x, y, dir, i);
    assert NewTiles(g, word, x, y, dir, i + 1) == tiles + [wordLetter];
    paid := TakeTile(freq, wordLetter, rack, tiles);
    if !paid {
      UnpaidNotPlayable(g, word, x, y, dir, rack, i);
    }
  }

  /**
   * The body of the scan for letter i: the target must be on the board; an
   * empty target takes a tile of toupper(word[i]) from the frequency table,
   * an occupied one must hold the same letter ignoring case. Reports whether
   * the target was occupied and whether it has a tile beside it.
   */
  method ScanLetter(word: string, i: nat, x: int, y: int, dir: Dir, board: array2<char>, freq: array<int>,
                    ghost g: Grid, ghost rack: seq<char>)
    returns (ok: bool, onTile: bool, side: bool)
    requires board.Length0 == board.Length1 && g == Snapshot(board) && i < |word|
    requires TilesIndexable(g, word, x, y, dir)
    requires Fits(board.Length0, x, y, dir, i) && MatchesUpTo(g, word, x, y, dir, i)
    requires Tallies(freq[..], rack, NewTiles(g, word, x, y, dir, i))
    requires RackCovers(NewTiles(g, word, x, y, dir, i), rack)
    modifies freq
    ensures !ok ==> !Playable(g, word, x, y, dir, rack)
    ensures ok ==> Fits(board.Length0, x, y, dir, i + 1) && MatchesUpTo(g, word, x, y, dir, i + 1)
    ensures ok ==> Tallies(freq[..], rack, NewTiles(g, word, x, y, dir, i + 1))
    ensures ok ==> RackCovers(NewTiles(g, word, x, y, dir, i + 1), rack)
    ensures ok ==> onTile == (Target(g, x, y, dir, i) != Empty)
    ensures ok && !onTile ==> side == SideContact(g, ColOf(x, dir, i), RowOf(y, dir, i), dir)
    ensures onTile ==> !side
  {
    var n := board.Length0;
    var cx, cy := ColOf(x, dir, i), RowOf(y, dir, i);
    if cx < 0 || cx >= n || cy < 0 || cy >= n {
      OffBoardNotPlayable(g, word, x, y, dir, rack, i);
      return false, false, false;
    }
    var boardLetter := board[cy, cx];
    SnapshotAt(board, cy, cx);
    assert boardLetter == Target(g, x, y, dir, i);
    if boardLetter == Empty {
      var paid := PayTile(word, i, x, y, dir, freq, g, rack);
      if !paid {
        return false, false, false;
      }
      ScanStep(g, word, x, y, dir, i);
      side := SideProbe(board, cx, cy, dir);
      return true, false, side;
    } else {
      if Upper(boardLetter) != Upper(word[i]) {
        MismatchNotPlayable(g, word, x, y, dir, rack, i);
        return false, true, false;
      }
      ScanStep(g, word, x, y, dir, i);
      assert NewTiles(g, word, x, y, dir, i + 1) == NewTiles(g, word, x, y, dir, i);
      return true, true, false;
    }
  }

  /**
   * The loop over the word's letters shared by both variants: counts the
   * rack's upper-case letters, then checks every target in order.
   */
  method ScanTargets(word: string, x: int, y: int, dir: Dir, board: array2<char>, rack: array<char>)
    returns (playable: bool, overlap: bool, touch: bool, center: bool, placed: bool)
    requires board.Length0 == board.Length1 && rack.Length == 7
    requires TilesIndexable(Snapshot(board), word, x, y, dir)
    ensures playable == Playable(Snapshot(board), word, x, y, dir, rack[..])
    ensures playable ==> overlap == Overlaps(Snapshot(board), x, y, dir, |word|)
    ensures playable ==> touch == Touches(Snapshot(board), x, y, dir, |word|)
    ensures playable ==> center == CoversCenter(board.Length0 / 2, x, y, dir, |word|)
    ensures playable ==> placed == PlacesNewTile(Snapshot(board), x, y, dir, |word|)
  {
    var n := board.Length0;
    ghost var g := Snapshot(board);
    ghost var r := rack[..];
    var mid := n / 2;
    var freq := RackFrequencies(rack);
    overlap, touch, center, placed := false, false, false, false;
    var i := 0;
    ghost var tiles: seq<char> := [];
    while i < |word|
      invariant 0 <= i <= |word| && Snapshot(board) == g
      invariant Fits(n, x, y, dir, i) && MatchesUpTo(g, word, x, y, dir, i)
      invariant tiles == NewTiles(g, word, x, y, dir, i)
      invariant Tallies(freq[..], r, tiles) && RackCovers(tiles, r)
      invariant overlap == Overlaps(g, x, y, dir, i)
      invariant touch == Touches(g, x, y, dir, i)
      invariant center == CoversCenter(mid, x, y, dir, i)
      invariant placed == PlacesNewTile(g, x, y, dir, i)
    {
      var ok, onTile, side := ScanLetter(word, i, x, y, dir, board, freq, g, r);
      if !ok {
        return false, overlap, touch, center, placed;
      }
      tiles := NewTiles(g, word, x, y, dir, i + 1);
      overlap := overlap || onTile;
      touch := touch || onTile || side;
      placed := placed || !onTile;
      center := center || (ColOf(x, dir, i) == mid && RowOf(y, dir, i) == mid);
      i := i + 1;
    }
    playable := true;
  }

  /** canPlaceWord of board.c. */
  method CanPlaceWordStrict(word: string, x: int, y: int, dir: Dir,
                            board: array2<char>, rack: array<char>, totalPoints: int) returns (ok: bool)
    requires board.Length0 == board.Length1 && rack.Length == 7
    requires TilesIndexable(Snapshot(board), word, x, y, dir)
    requires ProbesOnBoard(board.Length0, x, y, dir, |word|)
    ensures ok == StrictCanPlace(Snapshot(board), word, x, y, dir, rack[..], totalPoints)
  {
    var n := board.Length0;
    ghost var g := Snapshot(board);
    SnapshotCells(board);
    if dir == H {
      if x > 0 && board[y, x - 1] != Empty { return false; }
    } else {
      if y > 0 && board[y - 1, x] != Empty { return false; }
    }
    assert Target(g, x, y, dir, -1) == Empty;
    var playable, overlap, touch, center, placed := ScanTargets(word, x, y, dir, board, rack);
    if !playable { return false; }
    if dir == H {
      var endX := x + |word|;
      if endX < n && board[y, endX] != Empty { return false; }
    } else {
      var endY := y + |word|;
      if endY < n && board[endY, x] != Empty { return false; }
    }
    assert Target(g, x, y, dir, |word|) == Empty;
    if !placed { return false; }
    if totalPoints > 0 && !touch { return false; }
    if totalPoints == 0 && !center { return false; }
    return true;
  }

  /** canPlaceWord of scrabble.c and scrabble_pasutf8.c. */
  method CanPlaceWordLenient(word: string, x: int, y: int, dir: Dir,
                             board: array2<char>, rack: array<char>, totalPoints: int) returns (ok: bool)
    requires board.Length0 == board.Length1 && rack.Length == 7
    requires TilesIndexable(Snapshot(board), word, x, y, dir)
    ensures ok == LenientCanPlace(Snapshot(board), word, x, y, dir, rack[..], totalPoints)
  {
    var playable, overlap, touch, center, placed := ScanTargets(word, x, y, dir, board, rack);
    if !playable { return false; }
    if totalPoints > 0 && !overlap { return false; }
    if totalPoints == 0 && !center { return false; }
    return true;
  }
}
