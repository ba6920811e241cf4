/**
 * How the two canPlaceWord variants relate. The lenient one of scrabble.c
 * demands overlap where the strict one of board.c accepts side contact, and
 * it has neither the free-ends test nor the new-tile test.
 */
module Variants {
  import opened Letters
  import opened Board
  import opened Dictionary
  import opened Placement
  import opened CrossWords

  /** Free ends and one new tile, added to the lenient conditions, give the strict ones: overlap is contact. */
  lemma LenientToStrict(g: Grid, word: string, x: int, y: int, dir: Dir, rack: seq<char>, totalPoints: int)
    requires LenientCanPlace(g, word, x, y, dir, rack, totalPoints)
    requires EndsFree(g, x, y, dir, |word|) && PlacesNewTile(g, x, y, dir, |word|)
    ensures StrictCanPlace(g, word, x, y, dir, rack, totalPoints)
  {
    if totalPoints > 0 {
      OverlapsMeans(g, x, y, dir, |word|);
      TouchesMeans(g, x, y, dir, |word|);
      var i :| 0 <= i < |word| && Target(g, x, y, dir, i) != Empty;
      assert TouchesAt(g, x, y, dir, i);
    }
  }

  /** A word that lands only on occupied cells takes no tile from the rack. */
  lemma {:induction false} NoEmptyTargetNoTiles(g: Grid, word: string, x: int, y: int, dir: Dir, k: nat)
    requires k <= |word|
    requires forall i :: 0 <= i < k ==> Target(g, x, y, dir, i) != Empty
    ensures NewTiles(g, word, x, y, dir, k) == []
    decreases k
  {
    if k > 0 {
      NoEmptyTargetNoTiles(g, word, x, y, dir, k - 1);
    }
  }

  /**
   * After the first move, a word lying entirely on matching tiles is
   * accepted by the lenient variant whatever the rack holds, and rejected by
   * the strict one, which wants a new tile.
   */
  lemma FullOverlap(g: Grid, word: string, x: int, y: int, dir: Dir, rack: seq<char>, totalPoints: int)
    requires |word| > 0 && totalPoints > 0
    requires Fits(|g|, x, y, dir, |word|) && MatchesUpTo(g, word, x, y, dir, |word|)
    requires forall i :: 0 <= i < |word| ==> Target(g, x, y, dir, i) != Empty
    ensures LenientCanPlace(g, word, x, y, dir, rack, totalPoints)
    ensures !StrictCanPlace(g, word, x, y, dir, rack, totalPoints)
  {
    NoEmptyTargetNoTiles(g, word, x, y, dir, |word|);
    OverlapsMeans(g, x, y, dir, |word|);
    assert Target(g, x, y, dir, 0) != Empty;
    PlacesNewTileMeans(g, x, y, dir, |word|);
  }

  // Finding: the lenient variant lets a word extend a run on the board.

  /**
   * As written in scrabble.c: "AX" laid on the "A" of "CA" passes the
   * lenient canPlaceWord and validatePlacement, which only looks up the
   * runs across the word. Yet the word the move forms along its own line is
   * "CAX", which is not in the dictionary. The strict variant rejects it,
   * because the cell before the word holds a tile.
   */
  lemma LenientExtendsRun()
    ensures var g := ["   ", "CA ", "   "];
      var lex := Sorted(["AX"]);
      LenientCanPlace(g, "AX", 1, 1, H, "XXXXXXX", 1) &&
      CrossWordsOk(g, "AX", 1, 1, H, lex) &&
      MainRun(Placed(g, "AX", 1, 1, H), 1, 1, H) == "CAX" &&
      !Accepts(lex, "CAX") &&
      !StrictCanPlace(g, "AX", 1, 1, H, "XXXXXXX", 1)
  {
    ExampleLenient();
    ExampleCrossRuns();
    ExampleMainRun();
    assert !EqualIgnoringCase("AX", "CAX");
  }

  lemma ExampleLenient()
    ensures LenientCanPlace(["   ", "CA ", "   "], "AX", 1, 1, H, "XXXXXXX", 1)
  {
    var g := ["   ", "CA ", "   "];
    assert NewTiles(g, "AX", 1, 1, H, 2) == ['X'];
    ExampleRack();
  }

  lemma ExampleRack()
    ensures RackCovers(['X'], "XXXXXXX")
  {
    assert Count("XXXXXXX", 'X') == Count("XXXXXX", 'X') + 1 by {
      assert "XXXXXXX"[..6] == "XXXXXX";
    }
    forall c | IsUpperLetter(c)
      ensures Count(['X'], c) <= Count("XXXXXXX", c)
    {
      assert Count(['X'], c) == Count([], c) + (if c == 'X' then 1 else 0);
    }
  }

  lemma ExampleCrossRuns()
    ensures CrossWordsOk(["   ", "CA ", "   "], "AX", 1, 1, H, Sorted(["AX"]))
  {
    ExtendedBoard();
    ExtendedLines();
    var s := ["   ", "CAX", "   "];
    assert CrossRunOk(s, 1, 1, H, Sorted(["AX"]));
    assert CrossRunOk(s, 2, 1, H, Sorted(["AX"]));
  }

  lemma ExampleMainRun()
    ensures MainRun(Placed(["   ", "CA ", "   "], "AX", 1, 1, H), 1, 1, H) == "CAX"
  {
    ExtendedBoard();
    ExtendedLines();
  }

  /** The lines of that board the example reads. */
  lemma ExtendedLines()
    ensures RowLine(["   ", "CAX", "   "], 1) == "CAX"
    ensures ColLine(["   ", "CAX", "   "], 1) == " A "
    ensures ColLine(["   ", "CAX", "   "], 2) == " X "
  {
    var s := ["   ", "CAX", "   "];
    forall k | 0 <= k < 3
      ensures RowLine(s, 1)[k] == "CAX"[k] && ColLine(s, 1)[k] == " A "[k] && ColLine(s, 2)[k] == " X "[k]
    {
      RowLineAt(s, 1, k);
      ColLineAt(s, 1, k);
      ColLineAt(s, 2, k);
    }
  }

  /** The board of that example once "AX" is placed. */
  lemma ExtendedBoard()
    ensures Placed(["   ", "CA ", "   "], "AX", 1, 1, H) == ["   ", "CAX", "   "]
  {
    var g := ["   ", "CA ", "   "];
    var s := Placed(g, "AX", 1, 1, H);
    var t := ["   ", "CAX", "   "];
    assert s == PlacedRows(g, "AX", 1, 1, H, 3);
    forall r, c | 0 <= r < 3 && 0 <= c < 3
      ensures s[r][c] == t[r][c]
    {
      assert s[r][c] == PlacedCell(g, "AX", 1, 1, H, c, r);
    }
    assert s[0] == t[0] && s[1] == t[1] && s[2] == t[2];
  }

  /** The line a word lies along, and the index of its first letter in that line. */
  function MainLine(s: Grid, x: int, y: int, dir: Dir): seq<char> {
    if dir == H then RowLine(s, y) else ColLine(s, x)
  }

  function MainPos(x: int, y: int, dir: Dir): int {
    if dir == H then x else y
  }

  lemma MainLineAt(s: Grid, x: int, y: int, dir: Dir, i: int)
    requires 0 <= MainPos(x, y, dir) + i < |s|
    ensures MainLine(s, x, y, dir)[MainPos(x, y, dir) + i] == Target(s, x, y, dir, i)
  {
    if dir == H { RowLineAt(s, y, x + i); } else { ColLineAt(s, x, y + i); }
  }

  /** Once a matching word is placed, its cells hold its letters, ignoring case. */
  lemma PlacedLetters(g: Grid, word: string, x: int, y: int, dir: Dir, i: int)
    requires Square(g, |g|) && LettersOnly(word) && Fits(|g|, x, y, dir, |word|)
    requires MatchesUpTo(g, word, x, y, dir, |word|) && 0 <= i < |word|
    ensures Target(Placed(g, word, x, y, dir), x, y, dir, i) != Empty
    ensures Upper(Target(Placed(g, word, x, y, dir), x, y, dir, i)) == Upper(word[i])
  {
    var cx, cy := ColOf(x, dir, i), RowOf(y, dir, i);
    assert OnBoard(|g|, cx, cy);
    assert OffsetOf(x, y, dir, cx, cy) == i;
    PlacedCovers(g, word, x, y, dir, cx, cy);
    MatchesUpToMeans(g, word, x, y, dir, |word|);
    UpperIdempotent(word[i]);
  }

  /** Placing the word leaves the cells just before and just after it as they were. */
  lemma PlacedEnds(g: Grid, word: string, x: int, y: int, dir: Dir)
    ensures Target(Placed(g, word, x, y, dir), x, y, dir, -1) == Target(g, x, y, dir, -1)
    ensures Target(Placed(g, word, x, y, dir), x, y, dir, |word|) == Target(g, x, y, dir, |word|)
  {
    assert OffsetOf(x, y, dir, ColOf(x, dir, -1), RowOf(y, dir, -1)) == -1;
    assert OffsetOf(x, y, dir, ColOf(x, dir, |word|), RowOf(y, dir, |word|)) == |word|;
  }

  /** The run through the first letter covers the word's cells and nothing more. */
  lemma MainRunSpan(s: Grid, x: int, y: int, dir: Dir, n: nat)
    requires n > 0 && Fits(|s|, x, y, dir, n)
    requires Target(s, x, y, dir, -1) == Empty && Target(s, x, y, dir, n) == Empty
    requires forall i :: 0 <= i < n ==> Target(s, x, y, dir, i) != Empty
    ensures OnBoard(|s|, x, y)
    ensures |MainRun(s, x, y, dir)| == n
    ensures forall i :: 0 <= i < n ==> MainRun(s, x, y, dir)[i] == Target(s, x, y, dir, i)
  {
    var line := MainLine(s, x, y, dir);
    var p := MainPos(x, y, dir);
    assert OnBoard(|s|, ColOf(x, dir, 0), RowOf(y, dir, 0));
    assert OnBoard(|s|, ColOf(x, dir, n - 1), RowOf(y, dir, n - 1));
    if p > 0 { MainLineAt(s, x, y, dir, -1); }
    if p + n < |line| { MainLineAt(s, x, y, dir, n); }
    forall k | p <= k < p + n
      ensures line[k] != Empty
    {
      MainLineAt(s, x, y, dir, k - p);
    }
    RunBoundsUnique(line, p, p, p + n - 1);
    assert MainRun(s, x, y, dir) == line[p..p + n];
    forall i | 0 <= i < n
      ensures MainRun(s, x, y, dir)[i] == Target(s, x, y, dir, i)
    {
      MainLineAt(s, x, y, dir, i);
    }
  }

  /**
   * Corrected, as board.c does it: with the free-ends test, the run the move
   * forms along its own line is exactly the word, ignoring case.
   */
  lemma StrictFormsWord(g: Grid, word: string, x: int, y: int, dir: Dir, rack: seq<char>, totalPoints: int)
    requires Square(g, |g|) && LettersOnly(word)
    requires StrictCanPlace(g, word, x, y, dir, rack, totalPoints)
    ensures OnBoard(|g|, x, y)
    ensures UpperStr(MainRun(Placed(g, word, x, y, dir), x, y, dir)) == UpperStr(word)
  {
    var n := |word|;
    PlacesNewTileMeans(g, x, y, dir, n);
    var s := Placed(g, word, x, y, dir);
    forall i | 0 <= i < n
      ensures Target(s, x, y, dir, i) != Empty && Upper(Target(s, x, y, dir, i)) == Upper(word[i])
    {
      PlacedLetters(g, word, x, y, dir, i);
    }
    PlacedEnds(g, word, x, y, dir);
    MainRunSpan(s, x, y, dir, n);
  }
}
