# Scrabble word-placement engine, modelled in Dafny

This project models the engine of the C Scrabble game Maxtrxn/scrabble: how
letters are valued and drawn, whether a word may be laid on the board, how it
is laid, how the words it crosses are looked up in the dictionary, how a move
and a whole board are scored, and how the hint function `findBestMove` picks
and plays the best move.

The board is a square `array2<char>`, read `board[y, x]`, and a space is an
empty cell. The rack is an `array<char>` of 7 tiles. The bonus grid is an
`array2<int>` holding the codes 1 (triple word), 2 (double word),
3 (triple letter) and 4 (double letter). Every operation that touches these
arrays is a method. Each method is proved against a specification function
on values: the board as `seq<seq<char>>`, tied to the array by the ghost
function `Board.Snapshot`.

Modules, in dependency order:

- `Letters`: case handling in the C locale, the two `getLetterScore`
  versions, and `drawRandomLetter`, with the value of `rand()` passed in.
- `Board`: board geometry, the cells a word lands on, the board after a
  word is written, and runs of tiles along a line.
- `Dictionary`: `strcmp`/`strcasecmp` signs, `binarySearch`,
  `isValidWordBinary`, and the two dictionary kinds: the exact hash table of
  board.c and the case-insensitive sorted array of scrabble.c.
- `Placement`: both `canPlaceWord` variants, the strict one of board.c and
  the lenient one of scrabble.c and scrabble_pasutf8.c.
- `CrossWords`: `validatePlacement`.
- `Commit`: `placeWord`, including the refill of the rack.
- `Scoring`: the move score inside `findBestMove`, and `recalcTotalScore`.
- `BestMove`: `findBestMove`, split into its search (a fold over the
  candidates in loop order) and its commit.
- `Variants`: how the two `canPlaceWord` variants relate, and the finding
  below.

The tile counts of board.c:60-71 sum to 98, not the 100 of a standard bag;
the model follows the code: a drawn letter is chosen by `rand() % 98`.

## Model

| member | source | states |
|---|---|---|
| Letters.LetterScore | board.c:19-47 | a character has a positive value exactly when it is an ASCII letter, and then its value is the point table's entry for its upper-case form |
| Letters.LetterScoreIgnoresCase | board.c:19-47 | a letter is worth the same in upper and lower case |
| Letters.StrchrScoreAgrees | scrabble.c:37-52 | the strchr version agrees with the switch version on every character except NUL, which the strchr version values 1 and the switch version 0 |
| Letters.CumulativeTotal | board.c:60-71 | the tile distribution holds 98 tiles |
| Letters.IntervalUnique | board.c:73-79 | the slices of the bag owned by the letters are disjoint, so at most one letter owns a given tile number |
| Letters.DrawnLetterSlice | board.c:73-79 | the drawn letter is the one whose slice of the bag holds rnd % 98 |
| Letters.DrawRandomLetter | board.c:58-80 | both loops (summing the counts, then walking them) return the letter that owns tile rnd % 98, which is always an upper-case letter; the fallback 'A' after the walk is unreachable |
| Dictionary.CaseCompareZero | scrabble.c:207-210 | strcasecmp returns 0 exactly for two strings equal up to case |
| Dictionary.CompareTransitive | scrabble.c:197 | the strcmp order is transitive, and strict when either step is strict; applied to lower-cased strings it is the strcasecmp order that qsort sorts the dictionary by |
| Dictionary.BinarySearch | scrabble.c:203-217 | on an array sorted ignoring case, it returns an index whose entry equals the target up to case, and it returns -1 exactly when no entry does |
| Dictionary.IsValidWordBinary | scrabble.c:220-222 | true exactly when some dictionary entry equals the word up to case |
| Dictionary.Lookup | dictionary.c:70-74 | the hash lookup finds exactly the words of its set, case-sensitively; the sorted lookup ignores case |
| Board.FitsByEnds | board.c:139-146 | every letter lands on the board exactly when the first and the last letter do |
| Board.Placed | board.c:228-237 | the placed board has the same shape; each empty target on the board holds the upper-cased letter; occupied targets keep their tile; every other cell is unchanged |
| Board.PlacedIdempotent | board.c:236-237 | writing the same word twice gives the board that writing it once gives |
| Board.PlacedCovers | board.c:236-237 | once a word of letters is written, every cell it covers holds a tile |
| Board.WriteLetter | board.c:236-237 | one letter is written in upper case exactly when its cell is empty, and the method reports whether it was |
| Board.RunStartMaximal | board.c:318-319 | the start of a run is preceded by an empty cell or the edge, and every cell from it to the probed cell holds a tile |
| Board.RunEndMaximal | board.c:321-322 | the end of a run is followed by an empty cell or the edge, and every cell from the probed cell to it holds a tile |
| Board.RunBoundsUnique | board.c:318-322 | any bounds of a maximal run of tiles around a cell are the ones the two walks find |
| Placement.MatchesUpToMeans | board.c:172-173 | the letter-by-letter match test holds exactly when every occupied target holds the word's letter, ignoring case |
| Placement.TouchesMeans | board.c:159-169 | the contact flag is set exactly when some letter lands on a tile or beside one, across the direction of the word |
| Placement.CoversCenterMeans | board.c:177-178 | the centre flag is set exactly when some letter lands on cell (n/2, n/2) |
| Placement.PlacesNewTileMeans | board.c:151-155 | the new-tile flag is set exactly when some letter lands on an empty cell |
| Placement.OverlapsMeans | scrabble.c:108-111 | the lenient intersection flag is set exactly when some letter lands on a tile |
| Placement.RackFrequencies | board.c:117-121 | the 26-entry table counts each upper-case letter of the rack, and it ignores every other rack character |
| Placement.TakeTile | board.c:151-155 | a tile is paid for exactly when the rack still covers all the tiles taken so far plus this one; a paid tile is taken off the table, and an unpaid one leaves the table as it was |
| Placement.SideProbe | board.c:159-169 | the side probe reports whether the cell has a tile beside it, across the direction of the word |
| Placement.OffBoardNotPlayable | board.c:145-146 | a word with a letter off the board is rejected |
| Placement.MismatchNotPlayable | board.c:172-173 | a word with a letter that differs from the occupied cell it lands on is rejected |
| Placement.UnpaidNotPlayable | board.c:151-155 | a word whose new tiles, up to some letter, the rack cannot pay for is rejected |
| Placement.ScanTargets | board.c:137-179 | the scan reports whether the word fits, matches and is paid for; when it is, the overlap, contact, centre and new-tile flags take their meaning |
| Placement.CanPlaceWordStrict | board.c:110-203 | returns the strict rule exactly: the word fits, matches and is paid for by the rack; both end cells are free; at least one tile is new; after the first move it touches a tile; on the first move it covers the centre |
| Placement.CanPlaceWordLenient | scrabble.c:83-121 | returns the lenient rule exactly: the word fits, matches and is paid for; after the first move it overlaps a tile; on the first move it covers the centre |
| CrossWords.CrossRunOkMeans | board.c:316-332 | the run at right angles through a letter passes exactly when it is at most one tile long or it is a dictionary word |
| CrossWords.CrossRunsOkMeans | board.c:309-351 | the letter-by-letter cross check holds exactly when the cross run of every letter passes |
| CrossWords.FailedRunStaysFailed | board.c:329-332 | one failing cross run fails the whole placement |
| CrossWords.Simulate | board.c:290-306 | on the copy, it reports whether every letter lands on the board, and when they all do the copy holds the placed board |
| CrossWords.CopyBoard | board.c:275-287 | the copy is a fresh array holding the same board |
| CrossWords.ValidatePlacement | board.c:270-359 | true exactly when every letter lands on the board and, on the board with the word placed, every cross run is one tile or a word (hash lookup in board.c, sorted lookup in scrabble.c:227-311); the board is left as it was |
| Commit.FirstMatch | board.c:239-243 | the first rack position equal to the letter ignoring case, or -1 when there is none |
| Commit.ReplaceTile | board.c:239-244 | the first rack tile equal to the letter ignoring case is replaced by the letter drawn from the next random number; with no such tile the rack is unchanged and nothing is drawn |
| Commit.RackAfterStock | board.c:236-244 | when the rack covers the word's new tiles, one letter is drawn per new tile, and of every letter the rack keeps at least what it had minus what the word took |
| Commit.RackAfterLetters | board.c:241 | a rack of upper-case letters stays one, since every drawn letter is upper case |
| Commit.FirstMatchFinds | board.c:239-240 | a rack holding a tile of the letter has a match for it |
| Commit.PlaceWord | board.c:224-247 | the new board is the old one with the word placed; the new rack and the number of draws are those of refilling each empty target's tile in word order |
| Scoring.StandardBonusShape | main.c:45-61 | the standard bonus grid is 15 by 15, holds only the codes 0 to 4, and has a double word at the centre |
| Scoring.LetterFactor | bestmove.c:84-89 | a letter is multiplied by 1 to 3, and by more than 1 exactly for the letter codes 3 and 4 |
| Scoring.WordFactor | bestmove.c:78-83 | a word is multiplied by 1 to 3, and by more than 1 exactly for the word codes 1 and 2 |
| Scoring.BonusFactors | bestmove.c:77-92 | code 1 triples and code 2 doubles the word, code 3 triples and code 4 doubles the letter, and no code does both |
| Scoring.ScoreTile | bestmove.c:66-98 | one pass of the score loop adds the letter's points, multiplied by the cell's letter bonus when the cell is empty, and the cell's word factor |
| Scoring.ScoreMove | bestmove.c:61-102 | the loop computes the sum of the letter points times the product of the word factors of the empty cells |
| Scoring.ScoreAtLeastFace | bestmove.c:73-98 | a matching word scores at least the plain sum of its letter values |
| Scoring.ScorePositive | bestmove.c:61-102 | a non-empty matching word of letters scores above 0 |
| Scoring.PlainScore | bestmove.c:73-98 | with no bonus code under its new tiles, a matching word scores exactly the plain sum of its letter values |
| Scoring.SameBonusSameScore | bestmove.c:74-75 | the score depends on the bonus grid only through the cells under the new tiles |
| Scoring.MaximalRunValue | board.c:380-388 | a maximal run of tiles adds the values of all of its tiles when it is at least two tiles long, and nothing when it is one tile |
| Scoring.EmptyBoardValue | board.c:366-414 | an empty board is worth 0 |
| Scoring.LineTotal | board.c:370-390 | one row (or column) pass sums the tiles of its runs of two or more |
| Scoring.RecalcTotalScore | board.c:366-414 | the total is the value of the horizontal words plus the value of the vertical words |
| BestMove.EnumerationIsCandidates | bestmove.c:44-55 | the search examines exactly the candidates: a dictionary word no longer than the board, at a cell of the board, in either direction |
| BestMove.FoldBest | bestmove.c:104-111 | the strict-improvement scan never lowers the score, keeps its start when nothing beats it, ends with a score no legal candidate exceeds, and ends on the first candidate with that score |
| BestMove.SearchIsBest | bestmove.c:37-117 | the search result is a maximum: no legal candidate scores more; a result above 0 is itself a legal candidate with that score; a result of 0 is the initial (0, "", -1, -1, 'h') |
| BestMove.SearchKeepsFirst | bestmove.c:105 | on a tie the candidate examined first is kept |
| BestMove.SearchFinds | bestmove.c:120 | a move is played exactly when some legal candidate scores above 0 |
| BestMove.ConsiderMove | bestmove.c:58-111 | the innermost step keeps a candidate exactly when both checks accept it and it scores strictly more than the best so far |
| BestMove.SearchCell | bestmove.c:54-55 | the direction loop examines the two candidates at a cell, 'h' then 'v' |
| BestMove.SearchRow | bestmove.c:51 | the loop over a row examines its cells left to right |
| BestMove.SearchWord | bestmove.c:50 | the loop over the rows examines them top to bottom |
| BestMove.SearchBestMove | bestmove.c:37-117 | the search loops compute the search result over the dictionary in iteration order, skipping words longer than the board |
| BestMove.ClearBonus | bestmove.c:124-130 | the bonus codes of the cells the word covers become 0, and every other code is unchanged |
| BestMove.FindBestMove | bestmove.c:31-143 | when the best score is above 0, the move is placed, the rack is refilled, its bonus codes are cleared and its score is added to the total; otherwise nothing changes |
| BestMove.ClearingKeepsScores | bestmove.c:124-130 | clearing the codes of a placed word changes the score of no later move |
| BestMove.NoReplay | bestmove.c:121 | a move just placed cannot be accepted again where it lies, because it would lay no new tile |
| Variants.LenientToStrict | scrabble.c:83-121 | the lenient rule, with free ends and one new tile added, implies the strict rule |
| Variants.NoEmptyTargetNoTiles | scrabble.c:104-107 | a word that lands only on tiles takes nothing from the rack |
| Variants.FullOverlap | scrabble.c:108-119 | after the first move, a word lying entirely on matching tiles is accepted by the lenient rule whatever the rack holds, and rejected by the strict rule |
| Variants.LenientExtendsRun | scrabble.c:83-121 | as written: "AX" laid on the "A" of "CA" passes the lenient rule and validatePlacement, yet it forms "CAX", which the dictionary lacks, and the strict rule rejects it |
| Variants.MainRunSpan | board.c:182-190 | with both ends free, the run along the word's line is exactly its cells |
| Variants.StrictFormsWord | board.c:127-133 | under the strict rule, the run the move forms along its own line is the word itself, ignoring case |

## Left out

- I/O is left out: printing, SDL drawing, reading the dictionary file (`loadDictionary`), `main` and its input loop.
- `rand()` is a parameter: `DrawRandomLetter` takes its value, and `PlaceWord` and `FindBestMove` take a function `rng` whose k-th value the k-th draw uses.
- The uthash table is modelled as a set of strings. `HASH_ITER` visits its entries as a sequence in the order the table holds them, and that order is a parameter.
- Allocation failures in `validatePlacement` (`malloc` returning NULL, which makes it return false) are left out.
- `findBestMove` appears twice, in bestmove.c and in board.c:425-518. The two copies are the same code and are modelled once. The engine functions of scrabble_pasutf8.c copy those of scrabble.c and are also modelled once.
- Letters.LetterScoreStrchr: the strchr version of scrabble.c also finds the terminating NUL, so it values NUL 1. The model keeps that; see `StrchrScoreAgrees`.
- Scoring.Score: no 50-point bonus for playing all seven tiles, as in the source.
- C `int` overflow of scores and totals is not modelled; integers are unbounded.
- The 100-character `cross` buffer of `validatePlacement` is not modelled. A run longer than 99 tiles would overflow it, which needs a board wider than the 15 the game uses.
- The bonus grid is `int[15][15]` in the source. The model takes it to have the board's dimensions.
- Placement.CanPlaceWordStrict requires `ProbesOnBoard`, which excludes exactly the inputs on which board.c reads outside the board. A horizontal word with x > 0 has the cell before it read before any bounds test, so its row must be on the board and x at most n; likewise a vertical word with y > 0. An empty word has the cell at its start read by the probe after it whenever that cell's index is below n, with no bounds test at all.
- Both `canPlaceWord` variants require `TilesIndexable`: `freq[toupper(c) - 'A']` indexes outside the table for a non-letter on an empty cell.
- The search methods require dictionary words made of letters, for the same reason.
- `Dir` stands for the direction character. The source treats anything other than 'h' as vertical, and `Board.DirOf` maps characters that way.

## Findings

| source | as written | input that shows it | evidently intended | confidence | as-written member | corrected member |
|---|---|---|---|---|---|---|
| scrabble.c:83-121 | the lenient `canPlaceWord` has no test on the cells just before and just after the word, and `validatePlacement` looks up only the runs across the word, so a word may extend a run on the board into a string nothing checks | board row "CA ", word "AX" laid horizontally on the "A" at (1, 1), dictionary {"AX"}, rack "XXXXXXX", total 1: both checks pass and the row then reads "CAX" | the word the move forms along its own line is the word played, as the free-ends probes of board.c:127-133 and 182-190 ensure | medium, not executed | Variants.LenientExtendsRun | Variants.StrictFormsWord |
