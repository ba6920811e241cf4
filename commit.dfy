/**
 * placeWord: the word's letters are written, upper-cased, into the empty
 * cells it crosses, and for each of them the first rack tile equal to it
 * ignoring case is replaced by a freshly drawn letter. The values of rand()
 * the draws consume are the function `rng`, the k-th draw of the call
 * using rng(k).
 */
module Commit {
  import opened Letters
  import opened Board
  import opened Placement

  /** The position of the first rack tile equal to c ignoring case, or -1 when there is none. */
  function FirstMatch(rack: seq<char>, c: char): (j: int)
    ensures -1 <= j < |rack|
    ensures j >= 0 ==> Upper(rack[j]) == Upper(c) && forall k :: 0 <= k < j ==> Upper(rack[k]) != Upper(c)
    ensures j == -1 ==> forall k :: 0 <= k < |rack| ==> Upper(rack[k]) != Upper(c)
  {
    if |rack| == 0 then -1
    else if Upper(rack[0]) == Upper(c) then 0
    else
      var j := FirstMatch(rack[1..], c);
      if j < 0 then -1 else j + 1
  }

  /** The rack after some tiles were replaced, and how many letters were drawn for it. */
  datatype Refilled = Refilled(rack: seq<char>, draws: nat)

  /**
   * One letter of the word placed: when it lands on an empty cell, its
   * first match in the rack, if any, is replaced by the letter drawn from
   * the next random number.
   */
  function Refill(prev: Refilled, target: char, letter: char, rng: nat -> nat): (r: Refilled)
    ensures |r.rack| == |prev.rack| && prev.draws <= r.draws <= prev.draws + 1
  {
    if target != Empty then prev
    else
      var j := FirstMatch(prev.rack, letter);
      if j < 0 then prev
      else Refilled(prev.rack[j := DrawnLetter(rng(prev.draws))], prev.draws + 1)
  }

  /** The rack once the first k letters of the word are placed, starting from `rack` with no draws made. */
  function RackAfter(g: Grid, word: string, x: int, y: int, dir: Dir, rack: seq<char>, rng: nat -> nat, k: nat)
    : (r: Refilled)
    requires k <= |word|
    ensures |r.rack| == |rack| && r.draws <= k
    decreases k
  {
    if k == 0 then Refilled(rack, 0)
    else Refill(RackAfter(g, word, x, y, dir, rack, rng, k - 1), Target(g, x, y, dir, k - 1), word[k - 1], rng)
  }

  /** Refilling keeps a rack of upper-case letters one. */
  lemma RefillLetters(prev: Refilled, target: char, letter: char, rng: nat -> nat)
    requires forall i :: 0 <= i < |prev.rack| ==> IsUpperLetter(prev.rack[i])
    ensures forall i :: 0 <= i < |prev.rack| ==> IsUpperLetter(Refill(prev, target, letter, rng).rack[i])
  {
  }

  /** A rack holding a tile of letter Upper(c) has a match for c. */
  lemma FirstMatchFinds(rack: seq<char>, c: char)
    requires Count(rack, Upper(c)) > 0
    ensures FirstMatch(rack, c) >= 0
  {
    CountFound(rack, Upper(c));
    var idx :| 0 <= idx < |rack| && rack[idx] == Upper(c);
    UpperIdempotent(c);
    assert Upper(rack[idx]) == Upper(c);
  }

  /** The tile count of c after one more placed letter. */
  lemma TilesStep(g: Grid, word: string, x: int, y: int, dir: Dir, k: nat, c: char)
    requires 0 < k <= |word|
    ensures Count(NewTiles(g, word, x, y, dir, k), c) ==
            Count(NewTiles(g, word, x, y, dir, k - 1), c) +
            (if Target(g, x, y, dir, k - 1) == Empty && c == Upper(word[k - 1]) then 1 else 0)
  {
    if Target(g, x, y, dir, k - 1) == Empty {
      CountSnoc(NewTiles(g, word, x, y, dir, k - 1), Upper(word[k - 1]), c);
    } else {
      assert NewTiles(g, word, x, y, dir, k) == NewTiles(g, word, x, y, dir, k - 1);
    }
  }

  /** How one refill changes the count of letter c, when the placed tile t is in the rack. */
  lemma RefillStock(prev: Refilled, letter: char, rng: nat -> nat, c: char)
    requires IsLetter(letter) && Count(prev.rack, Upper(letter)) > 0 && IsUpperLetter(c)
    ensures Refill(prev, Empty, letter, rng).draws == prev.draws + 1
    ensures Count(Refill(prev, Empty, letter, rng).rack, c) + (if c == Upper(letter) then 1 else 0) >=
            Count(prev.rack, c)
  {
    FirstMatchFinds(prev.rack, letter);
    var j := FirstMatch(prev.rack, letter);
    CountUpdate(prev.rack, j, DrawnLetter(rng(prev.draws)), c);
  }

  /**
   * When the rack covers the tiles the word takes, every one of them finds
   * its match: one letter is drawn per tile, and of every letter the rack
   * keeps at least what it had minus what the word took.
   */
  lemma {:induction false} RackAfterStock(g: Grid, word: string, x: int, y: int, dir: Dir,
                                          rack: seq<char>, rng: nat -> nat, k: nat)
    requires k <= |word| && LettersOnly(word)
    requires RackCovers(NewTiles(g, word, x, y, dir, k), rack)
    ensures RackAfter(g, word, x, y, dir, rack, rng, k).draws == |NewTiles(g, word, x, y, dir, k)|
    ensures forall c :: IsUpperLetter(c) ==>
      Count(RackAfter(g, word, x, y, dir, rack, rng, k).rack, c) + Count(NewTiles(g, word, x, y, dir, k), c) >=
      Count(rack, c)
    decreases k
  {
    if k > 0 {
      var prev := RackAfter(g, word, x, y, dir, rack, rng, k - 1);
      var target := Target(g, x, y, dir, k - 1);
      var letter := word[k - 1];
      NewTilesGrow(g, word, x, y, dir, k - 1, k);
      CoversFewer(rack, NewTiles(g, word, x, y, dir, k - 1), NewTiles(g, word, x, y, dir, k));
      RackAfterStock(g, word, x, y, dir, rack, rng, k - 1);
      UpperIdempotent(letter);
      if target == Empty {
        TilesStep(g, word, x, y, dir, k, Upper(letter));
        assert Count(prev.rack, Upper(letter)) > 0;
        RefillStock(prev, letter, rng, Upper(letter));
      }
      forall c | IsUpperLetter(c)
        ensures Count(RackAfter(g, word, x, y, dir, rack, rng, k).rack, c) + Count(NewTiles(g, word, x, y, dir, k), c) >=
                Count(rack, c)
      {
        TilesStep(g, word, x, y, dir, k, c);
        if target == Empty {
          RefillStock(prev, letter, rng, c);
        }
      }
    }
  }

  /** A rack of upper-case letters stays one: every drawn letter is upper case. */
  lemma {:induction false} RackAfterLetters(g: Grid, word: string, x: int, y: int, dir: Dir,
                                            rack: seq<char>, rng: nat -> nat, k: nat)
    requires k <= |word| && forall i :: 0 <= i < |rack| ==> IsUpperLetter(rack[i])
    ensures forall i :: 0 <= i < |rack| ==> IsUpperLetter(RackAfter(g, word, x, y, dir, rack, rng, k).rack[i])
    decreases k
  {
    if k > 0 {
      RackAfterLetters(g, word, x, y, dir, rack, rng, k - 1);
      RefillLetters(RackAfter(g, word, x, y, dir, rack, rng, k - 1), Target(g, x, y, dir, k - 1), word[k - 1], rng);
    }
  }

  /**
   * The inner loop of placeWord for one tile c: the first rack position
   * equal to c ignoring case gets the letter drawn from rng(draws).
   */
  method ReplaceTile(rack: array<char>, c: char, rng: nat -> nat, draws: nat) returns (after: nat)
    requires rack.Length == 7
    modifies rack
    ensures var j := FirstMatch(old(rack[..]), c);
      if j < 0 then rack[..] == old(rack[..]) && after == draws
      else rack[..] == old(rack[..])[j := DrawnLetter(rng(draws))] && after == draws + 1
  {
    ghost var r := rack[..];
    for j := 0 to 7
      invariant rack[..] == r
      invariant forall k :: 0 <= k < j ==> Upper(r[k]) != Upper(c)
    {
      if Upper(rack[j]) == Upper(c) {
        assert FirstMatch(r, c) == j;
        rack[j] := DrawRandomLetter(rng(draws));
        return draws + 1;
      }
    }
    return draws;
  }

  /**
   * placeWord of board.c and scrabble.c. Returns the number of random
   * numbers consumed. The C code does no bounds test: every letter must land
   * on the board.
   */
  method PlaceWord(word: string, x: int, y: int, dir: Dir, board: array2<char>, rack: array<char>, rng: nat -> nat)
    returns (draws: nat)
    requires board.Length0 == board.Length1 && rack.Length == 7
    requires Fits(board.Length0, x, y, dir, |word|)
    modifies board, rack
    ensures Snapshot(board) == Placed(old(Snapshot(board)), word, x, y, dir)
    ensures Refilled(rack[..], draws) == RackAfter(old(Snapshot(board)), word, x, y, dir, old(rack[..]), rng, |word|)
  {
    ghost var g := Snapshot(board);
    ghost var r0 := rack[..];
    WrittenFromStart(board, g, word, x, y, dir);
    draws := 0;
    for i := 0 to |word|
      invariant WrittenUpTo(board, g, word, x, y, dir, i)
      invariant Refilled(rack[..], draws) == RackAfter(g, word, x, y, dir, r0, rng, i)
    {
      draws := PlaceLetter(word, i, x, y, dir, board, rack, rng, draws, g, r0);
    }
    WrittenAll(board, g, word, x, y, dir);
  }

  /** One pass of placeWord's loop: letter i written, and its tile replaced when its cell was empty. */
  method PlaceLetter(word: string, i: nat, x: int, y: int, dir: Dir, board: array2<char>, rack: array<char>,
                     rng: nat -> nat, draws: nat, ghost g: Grid, ghost r0: seq<char>)
    returns (after: nat)
    requires board.Length0 == board.Length1 && rack.Length == 7 && |r0| == 7
    requires i < |word| && OnBoard(board.Length0, ColOf(x, dir, i), RowOf(y, dir, i))
    requires WrittenUpTo(board, g, word, x, y, dir, i)
    requires Refilled(rack[..], draws) == RackAfter(g, word, x, y, dir, r0, rng, i)
    modifies board, rack
    ensures WrittenUpTo(board, g, word, x, y, dir, i + 1)
    ensures Refilled(rack[..], after) == RackAfter(g, word, x, y, dir, r0, rng, i + 1)
  {
    ghost var prev := RackAfter(g, word, x, y, dir, r0, rng, i);
    assert RackAfter(g, word, x, y, dir, r0, rng, i + 1) == Refill(prev, Target(g, x, y, dir, i), word[i], rng);
    var wasEmpty := WriteLetter(board, word, i, x, y, dir, g);
    after := draws;
    if wasEmpty {
      after := ReplaceTile(rack, word[i], rng, draws);
    }
  }
}
