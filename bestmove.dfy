/**
 * findBestMove (bestmove.c; board.c holds a copy of it): every word of the
 * dictionary short enough for the board is tried at every cell in both
 * directions, in that order. A candidate must pass canPlaceWord (the strict
 * variant of board.c) and validatePlacement, and it replaces the best so far
 * only when it scores strictly more. The best move, if it scores above 0,
 * is then placed, the bonus codes of its cells are cleared and its score is
 * added to the player's total.
 */
module BestMove {
  import opened Letters
  import opened Board
  import opened Dictionary
  import opened Placement
  import opened CrossWords
  import opened Scoring
  import opened Commit

  datatype Move = Move(word: string, x: int, y: int, dir: Dir)

  /** What the search reads: the board, the bonus grid, the rack, the player's total and the dictionary. */
  datatype Game = Game(board: Grid, bonus: BonusGrid, rack: seq<char>, totalPoints: int, lex: Lexicon)

  /** The best candidate so far and its score (bestScore, bestWord, bestX, bestY, bestDir). */
  datatype Best = Best(score: int, move: Move)

  /** Where the search starts: score 0, no word, position (-1, -1), direction 'h'. */
  const NoMove: Best := Best(0, Move("", -1, -1, H))

  /** A candidate that both checks accept. */
  ghost predicate Legal(game: Game, m: Move) {
    StrictCanPlace(game.board, m.word, m.x, m.y, m.dir, game.rack, game.totalPoints) &&
    CrossWordsOk(game.board, m.word, m.x, m.y, m.dir, game.lex)
  }

  function MoveScore(game: Game, m: Move): nat {
    Score(game.board, game.bonus, m.word, m.x, m.y, m.dir)
  }

  /** What the checks and the score say about one candidate. */
  datatype Verdict = Verdict(legal: bool, score: int)

  /** The verdicts of findBestMove on a given game. */
  ghost function JudgeOf(game: Game): Move -> Verdict {
    m => Verdict(Legal(game, m), MoveScore(game, m))
  }

  /** One candidate examined: it becomes the best when it is legal and scores strictly more. */
  ghost function Consider(judge: Move -> Verdict, best: Best, m: Move): Best {
    if judge(m).legal && judge(m).score > best.score then Best(judge(m).score, m) else best
  }

  /** The candidates s examined in order, starting from st. */
  ghost function Fold(judge: Move -> Verdict, st: Best, s: seq<Move>): Best
    decreases |s|
  {
    if |s| == 0 then st else Consider(judge, Fold(judge, st, s[..|s| - 1]), s[|s| - 1])
  }

  // The order of the candidates

  /** Direction 'h' (d = 0), then 'v' (d = 1), at one cell: the first k of them. */
  function DirMoves(w: string, x: int, y: int, k: nat): seq<Move>
    requires k <= 2
  {
    if k == 0 then [] else if k == 1 then [Move(w, x, y, H)] else [Move(w, x, y, H), Move(w, x, y, V)]
  }

  /** The cells x < k of row y, left to right. */
  function RowMoves(w: string, y: int, k: nat): seq<Move>
    decreases k
  {
    if k == 0 then [] else RowMoves(w, y, k - 1) + DirMoves(w, k - 1, y, 2)
  }

  /** The rows y < k of an n-by-n board, top to bottom. */
  function BoardMoves(w: string, n: nat, k: nat): seq<Move>
    decreases k
  {
    if k == 0 then [] else BoardMoves(w, n, k - 1) + RowMoves(w, k - 1, n)
  }

  /** Every placement of one word, or none when the word is longer than the board. */
  function WordMoves(w: string, n: nat): seq<Move> {
    if |w| > n then [] else BoardMoves(w, n, n)
  }

  /** The candidates of the first k words of the dictionary, in the order the search examines them. */
  function Enumeration(words: seq<string>, n: nat, k: nat): seq<Move>
    requires k <= |words|
    decreases k
  {
    if k == 0 then [] else Enumeration(words, n, k - 1) + WordMoves(words[k - 1], n)
  }

  /** A word of the dictionary that fits the board length, at a cell of the board. */
  predicate Candidate(words: seq<string>, n: nat, m: Move) {
    m.word in words && |m.word| <= n && OnBoard(n, m.x, m.y)
  }

  lemma {:induction false} RowMovesHas(w: string, y: int, k: nat, m: Move)
    ensures m in RowMoves(w, y, k) <==> m.word == w && m.y == y && 0 <= m.x < k
    decreases k
  {
    if k > 0 {
      var last := DirMoves(w, k - 1, y, 2);
      assert RowMoves(w, y, k) == RowMoves(w, y, k - 1) + last;
      assert last == [Move(w, k - 1, y, H), Move(w, k - 1, y, V)];
      RowMovesHas(w, y, k - 1, m);
      if m.word == w && m.y == y && m.x == k - 1 {
        if m.dir == H { assert m == last[0]; } else { assert m == last[1]; }
      }
    }
  }

  lemma {:induction false} BoardMovesHas(w: string, n: nat, k: nat, m: Move)
    ensures m in BoardMoves(w, n, k) <==> m.word == w && 0 <= m.y < k && 0 <= m.x < n
    decreases k
  {
    if k > 0 {
      var before, row := BoardMoves(w, n, k - 1), RowMoves(w, k - 1, n);
      assert BoardMoves(w, n, k) == before + row;
      assert m in before + row <==> m in before || m in row;
      BoardMovesHas(w, n, k - 1, m);
      RowMovesHas(w, k - 1, n, m);
    }
  }

  lemma WordMovesHas(w: string, n: nat, m: Move)
    ensures m in WordMoves(w, n) <==> m.word == w && |w| <= n && OnBoard(n, m.x, m.y)
  {
    BoardMovesHas(w, n, n, m);
  }

  /** A candidate of the first k words is a placement of one of them, at position i of the dictionary. */
  lemma {:induction false} EnumerationWord(words: seq<string>, n: nat, k: nat, m: Move) returns (i: int)
    requires k <= |words| && m in Enumeration(words, n, k)
    ensures 0 <= i < k && words[i] == m.word && |m.word| <= n && OnBoard(n, m.x, m.y)
    decreases k
  {
    assert Enumeration(words, n, k) == Enumeration(words, n, k - 1) + WordMoves(words[k - 1], n);
    if m in WordMoves(words[k - 1], n) {
      WordMovesHas(words[k - 1], n, m);
      i := k - 1;
    } else {
      i := EnumerationWord(words, n, k - 1, m);
    }
  }

  /** Every placement of word i that fits is a candidate of the first k words when i < k. */
  lemma {:induction false} EnumerationHits(words: seq<string>, n: nat, k: nat, i: int, m: Move)
    requires 0 <= i < k <= |words| && words[i] == m.word && |m.word| <= n && OnBoard(n, m.x, m.y)
    ensures m in Enumeration(words, n, k)
    decreases k
  {
    assert Enumeration(words, n, k) == Enumeration(words, n, k - 1) + WordMoves(words[k - 1], n);
    if i == k - 1 {
      WordMovesHas(words[k - 1], n, m);
    } else {
      EnumerationHits(words, n, k - 1, i, m);
    }
  }

  /** The search examines exactly the candidates: every word of length at most n, at every cell, in both directions. */
  lemma EnumerationIsCandidates(words: seq<string>, n: nat, m: Move)
    ensures m in Enumeration(words, n, |words|) <==> Candidate(words, n, m)
  {
    if m in Enumeration(words, n, |words|) {
      var i := EnumerationWord(words, n, |words|, m);
    }
    if Candidate(words, n, m) {
      var i :| 0 <= i < |words| && words[i] == m.word;
      EnumerationHits(words, n, |words|, i, m);
    }
  }

  // What the fold keeps

  /** s[j] is the first candidate of s with the best score r. */
  ghost predicate FirstBest(judge: Move -> Verdict, s: seq<Move>, j: int, r: Best) {
    0 <= j < |s| && s[j] == r.move && judge(s[j]).legal && judge(s[j]).score == r.score &&
    forall i :: 0 <= i < j && judge(s[i]).legal ==> judge(s[i]).score < r.score
  }

  lemma {:induction false} FoldConcat(judge: Move -> Verdict, st: Best, s: seq<Move>, t: seq<Move>)
    ensures Fold(judge, st, s + t) == Fold(judge, Fold(judge, st, s), t)
    decreases |t|
  {
    if |t| == 0 {
      assert s + t == s;
    } else {
      assert (s + t)[..|s + t| - 1] == s + t[..|t| - 1];
      FoldConcat(judge, st, s, t[..|t| - 1]);
    }
  }

  /**
   * Folding over s never lowers the score; it keeps st when no candidate
   * beats it; every legal candidate of s scores at most the result; and a
   * result above st is the first candidate of s with that score.
   */
  lemma {:induction false} FoldBest(judge: Move -> Verdict, st: Best, s: seq<Move>)
    ensures Fold(judge, st, s).score >= st.score
    ensures Fold(judge, st, s).score == st.score ==> Fold(judge, st, s) == st
    ensures forall i :: 0 <= i < |s| && judge(s[i]).legal ==> judge(s[i]).score <= Fold(judge, st, s).score
    ensures Fold(judge, st, s).score > st.score ==> exists j :: FirstBest(judge, s, j, Fold(judge, st, s))
    decreases |s|
  {
    if |s| > 0 {
      var p := s[..|s| - 1];
      var m := s[|s| - 1];
      var prev := Fold(judge, st, p);
      var r := Fold(judge, st, s);
      FoldBest(judge, st, p);
      assert forall i :: 0 <= i < |p| ==> s[i] == p[i];
      if judge(m).legal && judge(m).score > prev.score {
        assert FirstBest(judge, s, |s| - 1, r);
      } else if r.score > st.score {
        var j :| FirstBest(judge, p, j, prev);
        assert FirstBest(judge, s, j, r);
      }
    }
  }

  /** The result of findBestMove's search. */
  ghost function Search(game: Game, words: seq<string>): Best {
    Fold(JudgeOf(game), NoMove, Enumeration(words, |game.board|, |words|))
  }

  /**
   * The search result is a maximum: no legal candidate scores more; a
   * result above 0 is a legal candidate with that score; a result of 0
   * leaves the starting values.
   */
  lemma SearchIsBest(game: Game, words: seq<string>)
    ensures var r := Search(game, words);
      (forall m :: Candidate(words, |game.board|, m) && Legal(game, m) ==> MoveScore(game, m) <= r.score) &&
      (r.score > 0 ==> Candidate(words, |game.board|, r.move) && Legal(game, r.move) && MoveScore(game, r.move) == r.score) &&
      (r.score <= 0 ==> r == NoMove)
  {
    var judge := JudgeOf(game);
    var s := Enumeration(words, |game.board|, |words|);
    var r := Search(game, words);
    FoldBest(judge, NoMove, s);
    forall m | Candidate(words, |game.board|, m) && Legal(game, m)
      ensures MoveScore(game, m) <= r.score
    {
      EnumerationIsCandidates(words, |game.board|, m);
      var i :| 0 <= i < |s| && s[i] == m;
      assert judge(s[i]).legal;
    }
    if r.score > 0 {
      var j :| FirstBest(judge, s, j, r);
      EnumerationIsCandidates(words, |game.board|, r.move);
    }
  }

  /** On a tie the search keeps the candidate it examined first: j is its position in the enumeration. */
  lemma SearchKeepsFirst(game: Game, words: seq<string>) returns (j: int)
    requires Search(game, words).score > 0
    ensures FirstBest(JudgeOf(game), Enumeration(words, |game.board|, |words|), j, Search(game, words))
  {
    var judge := JudgeOf(game);
    var s := Enumeration(words, |game.board|, |words|);
    FoldBest(judge, NoMove, s);
    j :| FirstBest(judge, s, j, Fold(judge, NoMove, s));
  }

  /** The search finds a move exactly when some legal candidate scores above 0. */
  lemma SearchFinds(game: Game, words: seq<string>)
    ensures Search(game, words).score > 0 <==>
      exists m :: Candidate(words, |game.board|, m) && Legal(game, m) && MoveScore(game, m) > 0
  {
    SearchIsBest(game, words);
    var r := Search(game, words);
    if r.score > 0 {
      assert Candidate(words, |game.board|, r.move) && Legal(game, r.move) && MoveScore(game, r.move) > 0;
    }
  }

  // The search on the arrays

  /** The dictionary as the hash table looks words up: exactly. */
  function LexiconOf(words: seq<string>): Lexicon {
    Exact(set w | w in words)
  }

  ghost function GameOf(board: array2<char>, bonus: array2<int>, rack: array<char>, totalPoints: int,
                        words: seq<string>): Game
    reads board, bonus, rack
  {
    Game(Snapshot(board), Snapshot(bonus), rack[..], totalPoints, LexiconOf(words))
  }

  /** The arrays the search reads, the game they hold, and the dictionary looked up exactly. */
  ghost predicate SearchState(board: array2<char>, rack: array<char>, totalPoints: int, bonus: array2<int>,
                              lex: Lexicon, game: Game)
    reads board, rack, bonus
  {
    board.Length0 == board.Length1 && rack.Length == 7 &&
    bonus.Length0 == board.Length0 && bonus.Length1 == board.Length1 &&
    game == Game(Snapshot(board), Snapshot(bonus), rack[..], totalPoints, lex) && lex.Exact?
  }

  /**
   * judge gives the verdicts of the game. The trigger keeps the verdicts
   * closed until a proof names Legal(game, m) itself.
   */
  ghost predicate Judges(judge: Move -> Verdict, game: Game) {
    forall m {:trigger Legal(game, m)} :: judge(m) == Verdict(Legal(game, m), MoveScore(game, m))
  }

  /** The body of the innermost loop: both checks, then the score, kept when it beats the best so far. */
  method ConsiderMove(m: Move, board: array2<char>, rack: array<char>, totalPoints: int, bonus: array2<int>,
                      lex: Lexicon, best: Best, ghost game: Game, ghost judge: Move -> Verdict)
    returns (next: Best)
    requires SearchState(board, rack, totalPoints, bonus, lex, game) && Judges(judge, game)
    requires LettersOnly(m.word) && OnBoard(board.Length0, m.x, m.y)
    ensures next == Consider(judge, best, m)
  {
    assert judge(m) == Verdict(Legal(game, m), MoveScore(game, m));
    next := best;
    var ok := CanPlaceWordStrict(m.word, m.x, m.y, m.dir, board, rack, totalPoints);
    if ok {
      var valid := ValidatePlacement(m.word, m.x, m.y, m.dir, board, lex);
      if valid {
        var currentScore := ScoreMove(m.word, m.x, m.y, m.dir, board, bonus);
        if currentScore > best.score {
          next := Best(currentScore, m);
        }
      }
    }
  }

  /** One more cell of a row, one more row of the board. */
  lemma RowStep(judge: Move -> Verdict, st: Best, w: string, y: int, x: nat)
    ensures Fold(judge, st, RowMoves(w, y, x + 1)) == Fold(judge, Fold(judge, st, RowMoves(w, y, x)), DirMoves(w, x, y, 2))
  {
    FoldConcat(judge, st, RowMoves(w, y, x), DirMoves(w, x, y, 2));
  }

  lemma BoardStep(judge: Move -> Verdict, st: Best, w: string, n: nat, y: nat)
    ensures Fold(judge, st, BoardMoves(w, n, y + 1)) == Fold(judge, Fold(judge, st, BoardMoves(w, n, y)), RowMoves(w, y, n))
  {
    FoldConcat(judge, st, BoardMoves(w, n, y), RowMoves(w, y, n));
  }

  /** One more candidate examined. */
  lemma FoldStep(judge: Move -> Verdict, st: Best, s: seq<Move>, m: Move)
    ensures Fold(judge, st, s + [m]) == Consider(judge, Fold(judge, st, s), m)
  {
    assert (s + [m])[..|s|] == s;
  }

  /** The loop over the two directions at cell (x, y). */
  method SearchCell(word: string, x: int, y: int, board: array2<char>, rack: array<char>, totalPoints: int,
                    bonus: array2<int>, lex: Lexicon, best: Best, ghost game: Game,
                    ghost judge: Move -> Verdict)
    returns (next: Best)
    requires SearchState(board, rack, totalPoints, bonus, lex, game) && Judges(judge, game)
    requires LettersOnly(word) && OnBoard(board.Length0, x, y)
    ensures next == Fold(judge, best, DirMoves(word, x, y, 2))
  {
    next := best;
    for d := 0 to 2
      invariant next == Fold(judge, best, DirMoves(word, x, y, d))
    {
      var m := Move(word, x, y, if d == 0 then H else V);
      FoldStep(judge, best, DirMoves(word, x, y, d), m);
      assert DirMoves(word, x, y, d + 1) == DirMoves(word, x, y, d) + [m];
      next := ConsiderMove(m, board, rack, totalPoints, bonus, lex, next, game, judge);
    }
  }

  /** The loop over the cells of row y. */
  method SearchRow(word: string, y: int, board: array2<char>, rack: array<char>, totalPoints: int,
                   bonus: array2<int>, lex: Lexicon, best: Best, ghost game: Game,
                    ghost judge: Move -> Verdict)
    returns (next: Best)
    requires SearchState(board, rack, totalPoints, bonus, lex, game) && Judges(judge, game)
    requires LettersOnly(word) && 0 <= y < board.Length0
    ensures next == Fold(judge, best, RowMoves(word, y, board.Length0))
  {
    var n := board.Length0;
    next := best;
    for x := 0 to n
      invariant next == Fold(judge, best, RowMoves(word, y, x))
    {
      next := SearchCell(word, x, y, board, rack, totalPoints, bonus, lex, next, game, judge);
      RowStep(judge, best, word, y, x);
    }
  }

  /** The loops over the rows and columns for one word that fits the board. */
  method SearchWord(word: string, board: array2<char>, rack: array<char>, totalPoints: int,
                    bonus: array2<int>, lex: Lexicon, best: Best, ghost game: Game,
                    ghost judge: Move -> Verdict)
    returns (next: Best)
    requires SearchState(board, rack, totalPoints, bonus, lex, game) && Judges(judge, game)
    requires LettersOnly(word)
    ensures next == Fold(judge, best, BoardMoves(word, board.Length0, board.Length0))
  {
    var n := board.Length0;
    next := best;
    for y := 0 to n
      invariant next == Fold(judge, best, BoardMoves(word, n, y))
    {
      next := SearchRow(word, y, board, rack, totalPoints, bonus, lex, next, game, judge);
      BoardStep(judge, best, word, n, y);
    }
  }

  /** The search loops of findBestMove, which change nothing. */
  method SearchBestMove(board: array2<char>, words: seq<string>, rack: array<char>, totalPoints: int,
                        bonus: array2<int>)
    returns (best: Best)
    requires board.Length0 == board.Length1 && rack.Length == 7
    requires bonus.Length0 == board.Length0 && bonus.Length1 == board.Length1
    requires forall k :: 0 <= k < |words| ==> LettersOnly(words[k])
    ensures best == Search(GameOf(board, bonus, rack, totalPoints, words), words)
  {
    ghost var game := GameOf(board, bonus, rack, totalPoints, words);
    ghost var judge := JudgeOf(game);
    var lex := LexiconOf(words);
    assert SearchState(board, rack, totalPoints, bonus, lex, game) && Judges(judge, game);
    best := NoMove;
    for k := 0 to |words|
      invariant best == Fold(judge, NoMove, Enumeration(words, board.Length0, k))
    {
      FoldConcat(judge, NoMove, Enumeration(words, board.Length0, k), WordMoves(words[k], board.Length0));
      if |words[k]| <= board.Length0 {
        best := SearchWord(words[k], board, rack, totalPoints, bonus, lex, best, game, judge);
      }
    }
  }

  // The commit

  /** `after` is `before` with the codes of the cells of move m set to 0. */
  ghost predicate Cleared(after: BonusGrid, before: BonusGrid, m: Move) {
    |after| == |before| && (forall r :: 0 <= r < |before| ==> |after[r]| == |before[r]|) &&
    forall r, c :: 0 <= r < |before| && 0 <= c < |before[r]| ==>
      after[r][c] == (if 0 <= OffsetOf(m.x, m.y, m.dir, c, r) < |m.word| then 0 else before[r][c])
  }

  /** The loop of findBestMove that disables the bonuses of the cells the word covers. */
  method ClearBonus(word: string, x: int, y: int, dir: Dir, bonus: array2<int>)
    requires bonus.Length0 == bonus.Length1 && Fits(bonus.Length0, x, y, dir, |word|)
    modifies bonus
    ensures Cleared(Snapshot(bonus), old(Snapshot(bonus)), Move(word, x, y, dir))
  {
    ghost var b := Snapshot(bonus);
    SnapshotCells(bonus);
    for i := 0 to |word|
      invariant forall r, c :: 0 <= r < bonus.Length0 && 0 <= c < bonus.Length1 ==>
        bonus[r, c] == (if 0 <= OffsetOf(x, y, dir, c, r) < i then 0 else b[r][c])
    {
      var xx, yy := ColOf(x, dir, i), RowOf(y, dir, i);
      assert OffsetOf(x, y, dir, xx, yy) == i;
      bonus[yy, xx] := 0;
    }
    SnapshotCells(bonus);
  }

  /**
   * findBestMove: searches, and when the best move scores above 0 places
   * it, clears the bonus codes of its cells and returns the player's total
   * plus its score; otherwise nothing changes. Also returns how many random
   * numbers the refill of the rack consumed.
   */
  method FindBestMove(board: array2<char>, words: seq<string>, rack: array<char>, totalPoints: int,
                      bonus: array2<int>, rng: nat -> nat)
    returns (newTotal: int, draws: nat)
    requires board.Length0 == board.Length1 && rack.Length == 7
    requires bonus.Length0 == board.Length0 && bonus.Length1 == board.Length1
    requires forall k :: 0 <= k < |words| ==> LettersOnly(words[k])
    modifies board, rack, bonus
    ensures var game := old(GameOf(board, bonus, rack, totalPoints, words));
      var r := Search(game, words);
      if r.score > 0 then
        Snapshot(board) == Placed(game.board, r.move.word, r.move.x, r.move.y, r.move.dir) &&
        Refilled(rack[..], draws) ==
          RackAfter(game.board, r.move.word, r.move.x, r.move.y, r.move.dir, game.rack, rng, |r.move.word|) &&
        Cleared(Snapshot(bonus), game.bonus, r.move) &&
        newTotal == totalPoints + r.score
      else
        Snapshot(board) == game.board && rack[..] == game.rack && Snapshot(bonus) == game.bonus &&
        newTotal == totalPoints && draws == 0
  {
    ghost var game := GameOf(board, bonus, rack, totalPoints, words);
    var best := SearchBestMove(board, words, rack, totalPoints, bonus);
    newTotal, draws := totalPoints, 0;
    if best.score > 0 {
      SearchIsBest(game, words);
      var m := best.move;
      draws := PlaceWord(m.word, m.x, m.y, m.dir, board, rack, rng);
      ClearBonus(m.word, m.x, m.y, m.dir, bonus);
      newTotal := totalPoints + best.score;
    }
  }

  // After the commit

  /**
   * Clearing the codes of a placed word changes no later score: every move
   * on the new board scores the same with the old grid and the cleared one.
   */
  lemma ClearingKeepsScores(g: Grid, b: BonusGrid, b2: BonusGrid, m: Move, next: Move)
    requires Square(g, |g|) && LettersOnly(m.word) && Fits(|g|, m.x, m.y, m.dir, |m.word|)
    requires Cleared(b2, b, m)
    ensures Score(Placed(g, m.word, m.x, m.y, m.dir), b2, next.word, next.x, next.y, next.dir) ==
            Score(Placed(g, m.word, m.x, m.y, m.dir), b, next.word, next.x, next.y, next.dir)
  {
    var s := Placed(g, m.word, m.x, m.y, m.dir);
    forall i | 0 <= i < |next.word| && Target(s, next.x, next.y, next.dir, i) == Empty
      ensures BonusAt(b2, ColOf(next.x, next.dir, i), RowOf(next.y, next.dir, i)) ==
              BonusAt(b, ColOf(next.x, next.dir, i), RowOf(next.y, next.dir, i))
    {
      var cx, cy := ColOf(next.x, next.dir, i), RowOf(next.y, next.dir, i);
      var k := OffsetOf(m.x, m.y, m.dir, cx, cy);
      if 0 <= k < |m.word| {
        assert ColOf(m.x, m.dir, k) == cx && RowOf(m.y, m.dir, k) == cy;
        assert OnBoard(|g|, cx, cy);
        PlacedCovers(g, m.word, m.x, m.y, m.dir, cx, cy);
        assert false;
      }
    }
    SameBonusSameScore(s, b2, b, next.word, next.x, next.y, next.dir);
  }

  /** A placed move cannot be played again where it lies: it would lay no new tile. */
  lemma NoReplay(g: Grid, m: Move, rack: seq<char>, totalPoints: int)
    requires Square(g, |g|) && LettersOnly(m.word) && Fits(|g|, m.x, m.y, m.dir, |m.word|)
    ensures !StrictCanPlace(Placed(g, m.word, m.x, m.y, m.dir), m.word, m.x, m.y, m.dir, rack, totalPoints)
  {
    var s := Placed(g, m.word, m.x, m.y, m.dir);
    PlacesNewTileMeans(s, m.x, m.y, m.dir, |m.word|);
    forall i | 0 <= i < |m.word|
      ensures Target(s, m.x, m.y, m.dir, i) != Empty
    {
      var cx, cy := ColOf(m.x, m.dir, i), RowOf(m.y, m.dir, i);
      assert OffsetOf(m.x, m.y, m.dir, cx, cy) == i;
      PlacedCovers(g, m.word, m.x, m.y, m.dir, cx, cy);
    }
  }
}
