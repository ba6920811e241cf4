/**
 * Tile letters: case handling in the C locale, the point value of a letter
 * and the draw of a random letter from the fixed tile distribution.
 */
module Letters {

  /** toupper in the C locale: only 'a'..'z' change. */
  function Upper(c: char): (u: char)
    ensures 'a' <= c <= 'z' ==> u as int == c as int - 32
    ensures !('a' <= c <= 'z') ==> u == c
  {
    if 'a' <= c <= 'z' then (c as int - 32) as char else c
  }

  /** tolower in the C locale: only 'A'..'Z' change. */
  function Lower(c: char): (l: char)
    ensures 'A' <= c <= 'Z' ==> l as int == c as int + 32
    ensures !('A' <= c <= 'Z') ==> l == c
  {
    if 'A' <= c <= 'Z' then (c as int + 32) as char else c
  }

  predicate IsUpperLetter(c: char) { 'A' <= c <= 'Z' }

  predicate IsLetter(c: char) { 'A' <= c <= 'Z' || 'a' <= c <= 'z' }

  /** Every character of `w` is an ASCII letter. */
  predicate LettersOnly(w: string) {
    forall i :: 0 <= i < |w| ==> IsLetter(w[i])
  }

  function UpperStr(w: string): (u: string)
    ensures |u| == |w| && forall i :: 0 <= i < |w| ==> u[i] == Upper(w[i])
    decreases |w|
  {
    if |w| == 0 then [] else UpperStr(w[..|w| - 1]) + [Upper(w[|w| - 1])]
  }

  lemma UpperIdempotent(c: char)
    ensures Upper(Upper(c)) == Upper(c)
    ensures IsLetter(c) ==> IsUpperLetter(Upper(c))
    ensures Upper(Lower(c)) == Upper(c) && Lower(Upper(c)) == Lower(c)
  {
  }

  /** How many of the tiles in s show the character c. */
  function Count(s: seq<char>, c: char): nat
    decreases |s|
  {
    if |s| == 0 then 0 else Count(s[..|s| - 1], c) + (if s[|s| - 1] == c then 1 else 0)
  }

  lemma CountSnoc(s: seq<char>, t: char, c: char)
    ensures Count(s + [t], c) == Count(s, c) + (if t == c then 1 else 0)
  {
    assert (s + [t])[..|s|] == s;
  }

  /** A prefix holds at most as many of every character. */
  lemma {:induction false} CountPrefix(a: seq<char>, b: seq<char>, c: char)
    requires a <= b
    ensures Count(a, c) <= Count(b, c)
    decreases |b|
  {
    if |a| < |b| {
      assert a <= b[..|b| - 1];
      CountPrefix(a, b[..|b| - 1], c);
    } else {
      assert a == b;
    }
  }

  /** Overwriting position j trades one s[j] for one d. */
  lemma {:induction false} CountUpdate(s: seq<char>, j: int, d: char, c: char)
    requires 0 <= j < |s|
    ensures Count(s[j := d], c) + (if s[j] == c then 1 else 0) == Count(s, c) + (if d == c then 1 else 0)
    decreases |s|
  {
    var last := |s| - 1;
    if j < last {
      assert s[j := d][..last] == s[..last][j := d];
      CountUpdate(s[..last], j, d, c);
    } else {
      assert s[j := d][..last] == s[..last];
    }
  }

  /** A character counted at least once occurs in s. */
  lemma {:induction false} CountFound(s: seq<char>, c: char)
    requires Count(s, c) > 0
    ensures exists i :: 0 <= i < |s| && s[i] == c
    decreases |s|
  {
    var last := |s| - 1;
    if s[last] != c {
      CountFound(s[..last], c);
      var i :| 0 <= i < last && s[..last][i] == c;
      assert s[i] == c;
    }
  }

  /** The k-th capital letter, 'A' + k. */
  function LetterAt(k: int): (c: char)
    requires 0 <= k < 26
    ensures IsUpperLetter(c) && c as int - 'A' as int == k
  {
    ('A' as int + k) as char
  }

  /** Point values of 'A'..'Z', in alphabetical order, as the game assigns them. */
  const PointTable: seq<nat> :=
    [1, 3, 3, 2, 1, 4, 2, 4, 1, 8, 10, 1, 2, 1, 1, 3, 8, 1, 1, 1, 1, 4, 10, 10, 10, 10]

  /** getLetterScore of board.c: a switch on toupper(c); anything not a letter is worth 0. */
  function LetterScore(c: char): (s: nat)
    ensures s > 0 <==> IsLetter(c)
    ensures IsLetter(c) ==> s == PointTable[Upper(c) as int - 'A' as int]
  {
    match Upper(c)
    case 'A' | 'E' | 'I' | 'L' | 'N' | 'O' | 'R' | 'S' | 'T' | 'U' => 1
    case 'D' | 'G' | 'M' => 2
    case 'B' | 'C' | 'P' => 3
    case 'F' | 'H' | 'V' => 4
    case 'J' | 'Q' => 8
    case 'K' | 'W' | 'X' | 'Y' | 'Z' => 10
    case _ => 0
  }

  /** The value of a letter does not depend on its case. */
  lemma LetterScoreIgnoresCase(a: char, b: char)
    requires Upper(a) == Upper(b)
    ensures LetterScore(a) == LetterScore(b)
  {
    UpperIdempotent(a);
    UpperIdempotent(b);
  }

  /**
   * strchr(s, c) != NULL: strchr also finds the terminating NUL, so the
   * NUL character is found in every string.
   */
  predicate Strchr(s: string, c: char) {
    c == '\0' || c in s
  }

  /** getLetterScore of scrabble.c: a chain of strchr tests on toupper(c). */
  function LetterScoreStrchr(c: char): nat {
    var u := Upper(c);
    if Strchr("AEILNORSTU", u) then 1
    else if Strchr("DGM", u) then 2
    else if Strchr("BCP", u) then 3
    else if Strchr("FHV", u) then 4
    else if Strchr("JQ", u) then 8
    else if Strchr("KWXYZ", u) then 10
    else 0
  }

  /** The two versions agree on every character except NUL, which the strchr version values 1. */
  lemma StrchrScoreAgrees(c: char)
    ensures c != '\0' ==> LetterScoreStrchr(c) == LetterScore(c)
    ensures LetterScoreStrchr('\0') == 1 && LetterScore('\0') == 0
  {
  }

  /** The number of tiles of each letter in the bag, in alphabetical order. */
  const TileCounts: seq<nat> :=
    [9, 2, 2, 4, 12, 2, 3, 2, 9, 1, 1, 4, 2, 6, 8, 2, 1, 6, 4, 6, 4, 2, 2, 1, 2, 1]

  /** Number of tiles of the first k letters. */
  function Cumulative(k: nat): nat
    requires k <= 26
  {
    if k == 0 then 0 else Cumulative(k - 1) + TileCounts[k - 1]
  }

  const BagSize: nat := 98

  lemma CumulativeTotal()
    ensures Cumulative(26) == BagSize
  {
    CumulativeHalf();
    var t := TileCounts;
    assert t[13] == 6 && t[14] == 8 && t[15] == 2 && t[16] == 1 && t[17] == 6 && t[18] == 4 && t[19] == 6;
    assert t[20] == 4 && t[21] == 2 && t[22] == 2 && t[23] == 1 && t[24] == 2 && t[25] == 1;
    assert Cumulative(14) == 59;
    assert Cumulative(15) == 67;
    assert Cumulative(16) == 69;
    assert Cumulative(17) == 70;
    assert Cumulative(18) == 76;
    assert Cumulative(19) == 80;
    assert Cumulative(20) == 86;
    assert Cumulative(21) == 90;
    assert Cumulative(22) == 92;
    assert Cumulative(23) == 94;
    assert Cumulative(24) == 95;
    assert Cumulative(25) == 97;
  }

  /** The tiles of A to M. */
  lemma CumulativeHalf()
    ensures Cumulative(13) == 53
  {
    var t := TileCounts;
    assert t[0] == 9 && t[1] == 2 && t[2] == 2 && t[3] == 4 && t[4] == 12 && t[5] == 2 && t[6] == 3;
    assert t[7] == 2 && t[8] == 9 && t[9] == 1 && t[10] == 1 && t[11] == 4 && t[12] == 2;
    assert Cumulative(1) == 9;
    assert Cumulative(2) == 11;
    assert Cumulative(3) == 13;
    assert Cumulative(4) == 17;
    assert Cumulative(5) == 29;
    assert Cumulative(6) == 31;
    assert Cumulative(7) == 34;
    assert Cumulative(8) == 36;
    assert Cumulative(9) == 45;
    assert Cumulative(10) == 46;
    assert Cumulative(11) == 47;
    assert Cumulative(12) == 51;
  }

  /** Each letter adds at least one tile, so Cumulative is strictly increasing. */
  lemma {:induction false} CumulativeIncreasing(i: nat, j: nat)
    requires i < j <= 26
    ensures Cumulative(i) < Cumulative(j)
  {
    if i < j - 1 {
      CumulativeIncreasing(i, j - 1);
    }
  }

  /** The letter index whose interval [Cumulative(k), Cumulative(k+1)) holds r, searching from k. */
  function IntervalFrom(r: nat, k: nat): (j: nat)
    requires k < 26 && Cumulative(k) <= r < BagSize
    ensures k <= j < 26 && Cumulative(j) <= r < Cumulative(j + 1)
    decreases 26 - k
  {
    if r < Cumulative(k + 1) then k
    else (CumulativeTotal(); IntervalFrom(r, k + 1))
  }

  /** The intervals are disjoint: only one letter index holds r. */
  lemma IntervalUnique(r: nat, k: nat, j: nat)
    requires k < 26 && j < 26
    requires Cumulative(k) <= r < Cumulative(k + 1)
    requires Cumulative(j) <= r < Cumulative(j + 1)
    ensures k == j
  {
    if k < j {
      CumulativeIncreasing(k + 1, j + 1);
      if k + 1 < j { CumulativeIncreasing(k + 1, j); }
    } else if j < k {
      CumulativeIncreasing(j + 1, k + 1);
      if j + 1 < k { CumulativeIncreasing(j + 1, k); }
    }
  }

  /**
   * The letter drawn for the random number `rnd`: rnd % 98 selects one of the 98 tiles
   * of the bag, and letters own consecutive slices in alphabetical order.
   */
  function DrawnLetter(rnd: nat): (c: char)
    ensures IsUpperLetter(c)
  {
    var k := IntervalFrom(rnd % BagSize, 0);
    LetterAt(k)
  }

  /** The drawn letter is the one whose slice of the bag holds rnd % 98. */
  lemma DrawnLetterSlice(rnd: nat)
    ensures exists k ::
      0 <= k < 26 && DrawnLetter(rnd) == LetterAt(k) && Cumulative(k) <= rnd % BagSize < Cumulative(k + 1)
  {
    var k := IntervalFrom(rnd % BagSize, 0);
    assert DrawnLetter(rnd) == LetterAt(k);
  }

  /**
   * drawRandomLetter, with the value of rand() passed in as `rnd`. It sums
   * the tile counts, reduces rnd modulo the sum and walks the counts.
   */
  method DrawRandomLetter(rnd: nat) returns (c: char)
    ensures c == DrawnLetter(rnd)
  {
    var total := 0;
    for i := 0 to 26
      invariant total == Cumulative(i)
    {
      total := total + TileCounts[i];
    }
    CumulativeTotal();
    var r := rnd % total;
    for i := 0 to 26
      invariant Cumulative(i) <= rnd % BagSize
      invariant r == rnd % BagSize - Cumulative(i)
    {
      if r < TileCounts[i] {
        IntervalUnique(rnd % BagSize, i, IntervalFrom(rnd % BagSize, 0));
        return LetterAt(i);
      }
      r := r - TileCounts[i];
    }
    // The walk returns before its end: the fallback 'A' is never reached.
    assert false;
    c := 'A';
  }
}
