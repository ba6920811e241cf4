/**
 * Word lookup. The dictionary of board.c is a hash table keyed by the exact
 * word; the one of scrabble.c is an array sorted with strcasecmp and searched
 * by bisection, so its lookups ignore case.
 */
module Dictionary {
  import opened Letters

  function LowerStr(s: string): (l: string)
    ensures |l| == |s| && forall i :: 0 <= i < |s| ==> l[i] == Lower(s[i])
    decreases |s|
  {
    if |s| == 0 then [] else LowerStr(s[..|s| - 1]) + [Lower(s[|s| - 1])]
  }

  predicate EqualIgnoringCase(a: string, b: string) {
    LowerStr(a) == LowerStr(b)
  }

  /**
   * The sign of a lexicographic comparison by character code, a proper
   * prefix ordering first: the sign of strcmp.
   */
  function Compare(a: string, b: string): (r: int)
    ensures -1 <= r <= 1
    decreases |a|
  {
    if |a| == 0 then (if |b| == 0 then 0 else -1)
    else if |b| == 0 then 1
    else if a[0] < b[0] then -1
    else if a[0] > b[0] then 1
    else Compare(a[1..], b[1..])
  }

  /** The sign of strcasecmp: strcmp on the lower-cased strings. */
  function CaseCompare(a: string, b: string): int {
    Compare(LowerStr(a), LowerStr(b))
  }

  lemma {:induction false} CompareZero(a: string, b: string)
    ensures Compare(a, b) == 0 <==> a == b
    decreases |a|
  {
    if |a| > 0 && |b| > 0 {
      CompareZero(a[1..], b[1..]);
      if a[0] == b[0] && a[1..] == b[1..] {
        assert a == [a[0]] + a[1..] && b == [b[0]] + b[1..];
      }
    }
  }

  lemma {:induction false} CompareAntisymmetric(a: string, b: string)
    ensures Compare(a, b) == -Compare(b, a)
    decreases |a|
  {
    if |a| > 0 && |b| > 0 && a[0] == b[0] {
      CompareAntisymmetric(a[1..], b[1..]);
    }
  }

  lemma {:induction false} CompareTransitive(a: string, b: string, c: string)
    requires Compare(a, b) <= 0 && Compare(b, c) <= 0
    ensures Compare(a, c) <= 0
    ensures Compare(a, b) < 0 || Compare(b, c) < 0 ==> Compare(a, c) < 0
    decreases |a|
  {
    if |a| > 0 && |b| > 0 && |c| > 0 && a[0] == b[0] && b[0] == c[0] {
      CompareTransitive(a[1..], b[1..], c[1..]);
    }
  }

  /** strcasecmp returns 0 exactly for strings equal up to case. */
  lemma CaseCompareZero(a: string, b: string)
    ensures CaseCompare(a, b) == 0 <==> EqualIgnoringCase(a, b)
  {
    CompareZero(LowerStr(a), LowerStr(b));
  }

  /** The order qsort leaves the array in with caseInsensitiveCompare. */
  predicate SortedIgnoringCase(a: seq<string>) {
    forall i, j :: 0 <= i < j < |a| ==> CaseCompare(a[i], a[j]) <= 0
  }

  /** Some entry equals w up to case. */
  predicate ContainsIgnoringCase(a: seq<string>, w: string) {
    exists i :: 0 <= i < |a| && EqualIgnoringCase(a[i], w)
  }

  /**
   * binarySearch of scrabble.c: an index whose entry equals `target` up to
   * case, or -1 when there is none.
   */
  method BinarySearch(a: seq<string>, target: string) returns (index: int)
    requires SortedIgnoringCase(a)
    ensures -1 <= index < |a|
    ensures index >= 0 ==> EqualIgnoringCase(a[index], target)
    ensures index == -1 <==> !ContainsIgnoringCase(a, target)
  {
    var low, high := 0, |a| - 1;
    while low <= high
      invariant 0 <= low <= high + 1 <= |a|
      invariant forall i :: 0 <= i < low ==> CaseCompare(a[i], target) < 0
      invariant forall i :: high < i < |a| ==> CaseCompare(a[i], target) > 0
      decreases high - low
    {
      var mid := (low + high) / 2;
      var cmp := CaseCompare(a[mid], target);
      if cmp == 0 {
        CaseCompareZero(a[mid], target);
        return mid;
      } else if cmp < 0 {
        forall i | 0 <= i <= mid
          ensures CaseCompare(a[i], target) < 0
        {
          if i < mid {
            CompareTransitive(LowerStr(a[i]), LowerStr(a[mid]), LowerStr(target));
          }
        }
        low := mid + 1;
      } else {
        forall i | mid <= i < |a|
          ensures CaseCompare(a[i], target) > 0
        {
          if mid < i {
            CompareAntisymmetric(LowerStr(a[mid]), LowerStr(target));
            CompareTransitive(LowerStr(target), LowerStr(a[mid]), LowerStr(a[i]));
            CompareAntisymmetric(LowerStr(target), LowerStr(a[i]));
          }
        }
        high := mid - 1;
      }
    }
    forall i | 0 <= i < |a|
      ensures !EqualIgnoringCase(a[i], target)
    {
      CaseCompareZero(a[i], target);
    }
    return -1;
  }

  /** isValidWordBinary of scrabble.c. */
  method IsValidWordBinary(word: string, dictionary: seq<string>) returns (found: bool)
    requires SortedIgnoringCase(dictionary)
    ensures found <==> ContainsIgnoringCase(dictionary, word)
  {
    var index := BinarySearch(dictionary, word);
    found := index >= 0;
  }

  /** The two dictionaries the placement checks consult. */
  datatype Lexicon =
    | Exact(words: set<string>)         // the uthash table of board.c
    | Sorted(entries: seq<string>)      // the sorted array of scrabble.c

  predicate WellFormed(lex: Lexicon) {
    lex.Sorted? ==> SortedIgnoringCase(lex.entries)
  }

  predicate Accepts(lex: Lexicon, w: string) {
    match lex
    case Exact(words) => w in words
    case Sorted(entries) => ContainsIgnoringCase(entries, w)
  }

  /** isValidWordHash (an exact, case-sensitive lookup) or isValidWordBinary, by dictionary kind. */
  method Lookup(lex: Lexicon, w: string) returns (found: bool)
    requires WellFormed(lex)
    ensures found == Accepts(lex, w)
  {
    match lex
    case Exact(words) =>
      found := w in words;
    case Sorted(entries) =>
      found := IsValidWordBinary(w, entries);
  }
}
