/** The grid side of the word engine (src/lib/words.ts): scanning a board of
    string cells ("" is an empty cell) for the maximal runs of filled cells
    through a position, validating every run met along a placement path, and
    collecting the words a move forms.

    The board is `board[y][x]`: a sequence of rows. Every routine indexes it
    with coordinates taken from its arguments, so the model asks for a square
    board and in-range coordinates, which is what every caller supplies. */
module WordGrid {
  import opened Common
  import opened Letters

  type Board = seq<seq<string>>

  datatype Pos = Pos(x: int, y: int)

  /** A tile of the move: where it goes and its letter. */
  datatype PlacedLetter = PlacedLetter(x: int, y: int, letter: string)

  /** A run found on the board: its word, whether it touches the move, and its cells. */
  datatype WordInfo = WordInfo(word: string, isNew: bool, positions: seq<Pos>)

  datatype Direction = Horizontal | Vertical

  /** A segment [start, end) of one row (Horizontal, line = y) or one column
      (Vertical, line = x). */
  datatype Run = Run(dir: Direction, line: int, start: int, end: int)

  // ---------------------------------------------------------------------------
  // Geometry
  // ---------------------------------------------------------------------------

  predicate IsSquare(board: Board)
  {
    forall i | 0 <= i < |board| :: |board[i]| == |board|
  }

  predicate InBounds(board: Board, p: Pos)
  {
    0 <= p.x < |board| && 0 <= p.y < |board|
  }

  predicate AllInBounds(board: Board, ps: seq<Pos>)
  {
    forall p | p in ps :: InBounds(board, p)
  }

  function Cell(board: Board, p: Pos): string
    requires IsSquare(board) && InBounds(board, p)
  {
    board[p.y][p.x]
  }

  /** The cell at index `i` of line `k` in direction `dir`. */
  function At(dir: Direction, k: int, i: int): Pos
  {
    if dir == Horizontal then Pos(i, k) else Pos(k, i)
  }

  /** The coordinate that varies along `dir`, and the one that stays fixed. */
  function Along(dir: Direction, p: Pos): int
  {
    if dir == Horizontal then p.x else p.y
  }

  function Across(dir: Direction, p: Pos): int
  {
    if dir == Horizontal then p.y else p.x
  }

  function Perpendicular(dir: Direction): Direction
  {
    if dir == Horizontal then Vertical else Horizontal
  }

  /** Row `k` (Horizontal) or column `k` (Vertical) of the board. */
  function Line(board: Board, dir: Direction, k: int): (line: seq<string>)
    requires IsSquare(board) && 0 <= k < |board|
    ensures |line| == |board|
  {
    seq(|board|, i requires 0 <= i < |board| => Cell(board, At(dir, k, i)))
  }

  predicate ValidRun(board: Board, r: Run)
  {
    0 <= r.line < |board| && 0 <= r.start <= r.end <= |board|
  }

  function RunPositions(r: Run): (ps: seq<Pos>)
    requires r.start <= r.end
    ensures |ps| == r.end - r.start
    ensures forall i | 0 <= i < |ps| :: ps[i] == At(r.dir, r.line, r.start + i)
  {
    seq(r.end - r.start, i requires 0 <= i < r.end - r.start => At(r.dir, r.line, r.start + i))
  }

  /** The contents of the cells at `ps`, in order. */
  function CellsAt(board: Board, ps: seq<Pos>): (cells: seq<string>)
    requires IsSquare(board) && AllInBounds(board, ps)
    ensures |cells| == |ps|
  {
    seq(|ps|, i requires 0 <= i < |ps| => Cell(board, ps[i]))
  }

  /** The word the cells of a run spell. */
  function RunWord(board: Board, r: Run): string
    requires IsSquare(board) && ValidRun(board, r)
  {
    Concat(Line(board, r.dir, r.line)[r.start..r.end])
  }

  /** A run's cells lie on the board and read, in order, as its segment of the line. */
  lemma RunCells(board: Board, r: Run)
    requires IsSquare(board) && ValidRun(board, r)
    ensures AllInBounds(board, RunPositions(r))
    ensures CellsAt(board, RunPositions(r)) == Line(board, r.dir, r.line)[r.start..r.end]
  {
    var ps := RunPositions(r);
    forall p | p in ps
      ensures InBounds(board, p)
    {
      var i :| 0 <= i < |ps| && ps[i] == p;
    }
  }

  /** A non-empty run of filled cells whose neighbours before its start and
      after its end are empty or off the board. */
  predicate IsMaximalRun(board: Board, r: Run)
    requires IsSquare(board)
  {
    && ValidRun(board, r)
    && r.start < r.end
    && (forall i | r.start <= i < r.end :: Line(board, r.dir, r.line)[i] != "")
    && (r.start == 0 || Line(board, r.dir, r.line)[r.start - 1] == "")
    && (r.end == |board| || Line(board, r.dir, r.line)[r.end] == "")
  }

  /** Two maximal runs on the same line that share a cell are the same run. */
  lemma MaximalRunUnique(board: Board, r1: Run, r2: Run, i: int)
    requires IsSquare(board)
    requires IsMaximalRun(board, r1) && IsMaximalRun(board, r2)
    requires r1.dir == r2.dir && r1.line == r2.line
    requires r1.start <= i < r1.end && r2.start <= i < r2.end
    ensures r1 == r2
  {
  }

  // ---------------------------------------------------------------------------
  // The two scans every routine is built from
  // ---------------------------------------------------------------------------

  /** Moving back from index `i` while the cell just before is filled: the
      first index of the stretch of filled cells that ends just before `i`. */
  function RunStartBefore(line: seq<string>, i: int): (s: int)
    requires 0 <= i <= |line|
    ensures 0 <= s <= i
    ensures s == 0 || line[s - 1] == ""
    ensures forall k | s <= k < i :: line[k] != ""
    decreases i
  {
    if i > 0 && line[i - 1] != "" then RunStartBefore(line, i - 1) else i
  }

  /** Moving forward from index `i` while the cell is filled: the first empty
      index at or after `i`, or the end of the line. */
  function RunEnd(line: seq<string>, i: int): (e: int)
    requires 0 <= i <= |line|
    ensures i <= e <= |line|
    ensures e == |line| || line[e] == ""
    ensures forall k | i <= k < e :: line[k] != ""
    decreases |line| - i
  {
    if i < |line| && line[i] != "" then RunEnd(line, i + 1) else i
  }

  /** The run from the start found by moving back from `i` to the end found by
      moving forward from there. */
  function ScannedRun(board: Board, dir: Direction, k: int, i: int): (r: Run)
    requires IsSquare(board) && 0 <= k < |board| && 0 <= i <= |board|
    ensures ValidRun(board, r) && r.dir == dir && r.line == k
    ensures r.start < r.end ==> IsMaximalRun(board, r)
  {
    var line := Line(board, dir, k);
    var s := RunStartBefore(line, i);
    Run(dir, k, s, RunEnd(line, s))
  }

  /** Moving back from `i` along line `k` while the previous cell is filled. */
  method ScanBack(board: Board, dir: Direction, k: int, i: int) returns (s: int)
    requires IsSquare(board) && 0 <= k < |board| && 0 <= i <= |board|
    ensures s == RunStartBefore(Line(board, dir, k), i)
  {
    s := i;
    while s > 0 && Cell(board, At(dir, k, s - 1)) != ""
      invariant 0 <= s <= i
      invariant RunStartBefore(Line(board, dir, k), s) == RunStartBefore(Line(board, dir, k), i)
    {
      s := s - 1;
    }
  }

  /** Extending a run by the cell at its end extends its word by that cell and
      its positions by that position. */
  lemma ReadStep(board: Board, dir: Direction, k: int, s: int, e: int)
    requires IsSquare(board) && 0 <= k < |board| && 0 <= s <= e < |board|
    ensures Concat(Line(board, dir, k)[s..e + 1])
         == Concat(Line(board, dir, k)[s..e]) + Cell(board, At(dir, k, e))
    ensures RunPositions(Run(dir, k, s, e + 1)) == RunPositions(Run(dir, k, s, e)) + [At(dir, k, e)]
  {
    var line := Line(board, dir, k);
    assert line[s..e + 1] == line[s..e] + [line[e]];
    ConcatSnoc(line[s..e], line[e]);
    RunPositionsSnoc(dir, k, s, e);
  }

  lemma RunPositionsSnoc(dir: Direction, k: int, s: int, e: int)
    requires s <= e
    ensures RunPositions(Run(dir, k, s, e + 1)) == RunPositions(Run(dir, k, s, e)) + [At(dir, k, e)]
  {
    var longer, shorter := RunPositions(Run(dir, k, s, e + 1)), RunPositions(Run(dir, k, s, e));
    assert forall i | 0 <= i < |shorter| :: longer[i] == shorter[i];
  }

  /** Moving forward from `s` along line `k` while the cell is filled, appending
      each cell to the word and its position to the positions. */
  method ReadRun(board: Board, dir: Direction, k: int, s: int)
    returns (e: int, word: string, positions: seq<Pos>)
    requires IsSquare(board) && 0 <= k < |board| && 0 <= s <= |board|
    ensures e == RunEnd(Line(board, dir, k), s)
    ensures positions == RunPositions(Run(dir, k, s, e))
    ensures word == RunWord(board, Run(dir, k, s, e))
  {
    ghost var line := Line(board, dir, k);
    e, word, positions := s, "", [];
    while e < |board| && Cell(board, At(dir, k, e)) != ""
      invariant s <= e <= |board|
      invariant RunEnd(line, e) == RunEnd(line, s)
      invariant positions == RunPositions(Run(dir, k, s, e))
      invariant word == Concat(line[s..e])
    {
      ReadStep(board, dir, k, s, e);
      word := word + Cell(board, At(dir, k, e));
      positions := positions + [At(dir, k, e)];
      e := e + 1;
    }
  }

  // ---------------------------------------------------------------------------
  // findWordsAtPosition
  // ---------------------------------------------------------------------------

  predicate Touches(ps: seq<Pos>, marked: set<Pos>)
  {
    exists i | 0 <= i < |ps| :: ps[i] in marked
  }

  /** The run in direction `dir` that findWordsAtPosition reads at (x, y): its
      backward scan starts on (x, y) itself, so the run begins just after the
      last empty cell at or before (x, y). */
  function RunAt(board: Board, dir: Direction, x: int, y: int): Run
    requires IsSquare(board) && InBounds(board, Pos(x, y))
  {
    ScannedRun(board, dir, Across(dir, Pos(x, y)), Along(dir, Pos(x, y)) + 1)
  }

  function InfoOf(board: Board, r: Run, newPositions: set<Pos>): WordInfo
    requires IsSquare(board) && ValidRun(board, r)
  {
    WordInfo(RunWord(board, r), Touches(RunPositions(r), newPositions), RunPositions(r))
  }

  /** The entry for a run when its word's JavaScript length is more than 1. */
  function Found(board: Board, r: Run, newPositions: set<Pos>): seq<WordInfo>
    requires IsSquare(board) && ValidRun(board, r)
  {
    if Utf16Length(RunWord(board, r)) > 1 then [InfoOf(board, r, newPositions)] else []
  }

  /** What findWordsAtPosition returns: the horizontal run, then the vertical one. */
  function WordsAt(board: Board, x: int, y: int, newPositions: set<Pos>): seq<WordInfo>
    requires IsSquare(board) && InBounds(board, Pos(x, y))
  {
    Found(board, RunAt(board, Horizontal, x, y), newPositions)
      + Found(board, RunAt(board, Vertical, x, y), newPositions)
  }

  /** The cells of `w` are a segment of row `y`, left to right. */
  predicate IsRowSegment(w: WordInfo, y: int)
  {
    forall i | 0 <= i < |w.positions| ::
      w.positions[i].y == y && w.positions[i].x == w.positions[0].x + i
  }

  /** The cells of `w` are a segment of column `x`, top to bottom. */
  predicate IsColumnSegment(w: WordInfo, x: int)
  {
    forall i | 0 <= i < |w.positions| ::
      w.positions[i].x == x && w.positions[i].y == w.positions[0].y + i
  }

  /** Its cells lie on the board, are filled, and spell its word; it is new iff
      one of its cells is a position of the move. */
  predicate DescribesBoard(board: Board, w: WordInfo, newPositions: set<Pos>)
    requires IsSquare(board)
  {
    && Utf16Length(w.word) > 1
    && AllInBounds(board, w.positions)
    && (forall p | p in w.positions :: Cell(board, p) != "")
    && w.word == Concat(CellsAt(board, w.positions))
    && (w.isNew <==> Touches(w.positions, newPositions))
  }

  lemma FoundDescribes(board: Board, r: Run, newPositions: set<Pos>)
    requires IsSquare(board) && ValidRun(board, r)
    requires forall i | r.start <= i < r.end :: Line(board, r.dir, r.line)[i] != ""
    ensures forall w | w in Found(board, r, newPositions) :: DescribesBoard(board, w, newPositions)
    ensures forall w | w in Found(board, r, newPositions) ::
      if r.dir == Horizontal then IsRowSegment(w, r.line) else IsColumnSegment(w, r.line)
  {
    RunCells(board, r);
    RunFilled(board, r);
  }

  /** Every cell of a run whose segment of the line is filled is filled. */
  lemma RunFilled(board: Board, r: Run)
    requires IsSquare(board) && ValidRun(board, r)
    requires forall i | r.start <= i < r.end :: Line(board, r.dir, r.line)[i] != ""
    ensures forall p | p in RunPositions(r) :: InBounds(board, p) && Cell(board, p) != ""
  {
    var ps := RunPositions(r);
    forall p | p in ps
      ensures InBounds(board, p) && Cell(board, p) != ""
    {
      var i :| 0 <= i < |ps| && ps[i] == p;
      assert Cell(board, p) == Line(board, r.dir, r.line)[r.start + i];
    }
  }

  /** findWordsAtPosition returns at most two words, the horizontal one first;
      each has a JavaScript length above 1 and is spelled by consecutive filled
      cells of one row or column, and is new iff it touches the move. */
  lemma WordsAtShape(board: Board, x: int, y: int, newPositions: set<Pos>)
    requires IsSquare(board) && InBounds(board, Pos(x, y))
    ensures var ws := WordsAt(board, x, y, newPositions);
      && |ws| <= 2
      && (forall w | w in ws :: DescribesBoard(board, w, newPositions))
      && (forall w | w in ws :: IsRowSegment(w, y) || IsColumnSegment(w, x))
      && (|ws| == 2 ==> IsRowSegment(ws[0], y) && IsColumnSegment(ws[1], x))
  {
    var h := RunAt(board, Horizontal, x, y);
    var v := RunAt(board, Vertical, x, y);
    FoundDescribes(board, h, newPositions);
    FoundDescribes(board, v, newPositions);
  }

  /** On a filled cell, the run read in direction `dir` is the maximal run
      through (x, y). */
  lemma RunAtMaximal(board: Board, dir: Direction, x: int, y: int)
    requires IsSquare(board) && InBounds(board, Pos(x, y)) && board[y][x] != ""
    ensures IsMaximalRun(board, RunAt(board, dir, x, y))
    ensures var r := RunAt(board, dir, x, y);
      r.start <= Along(dir, Pos(x, y)) < r.end && Pos(x, y) in RunPositions(r)
  {
    var p := Pos(x, y);
    var line := Line(board, dir, Across(dir, p));
    assert line[Along(dir, p)] == board[y][x];
    var r := RunAt(board, dir, x, y);
    assert RunPositions(r)[Along(dir, p) - r.start] == p;
  }

  /** On a filled cell, the maximal run through (x, y) in a direction is among
      the words found exactly when its word's JavaScript length is more than 1. */
  lemma MaximalRunFound(board: Board, x: int, y: int, r: Run, newPositions: set<Pos>)
    requires IsSquare(board) && InBounds(board, Pos(x, y)) && board[y][x] != ""
    requires IsMaximalRun(board, r) && r.line == Across(r.dir, Pos(x, y))
    requires r.start <= Along(r.dir, Pos(x, y)) < r.end
    ensures InfoOf(board, r, newPositions) in WordsAt(board, x, y, newPositions) <==> Utf16Length(RunWord(board, r)) > 1
  {
    var own := RunAt(board, r.dir, x, y);
    RunAtMaximal(board, r.dir, x, y);
    MaximalRunUnique(board, r, own, Along(r.dir, Pos(x, y)));
    var other := RunAt(board, Perpendicular(r.dir), x, y);
    var info := InfoOf(board, r, newPositions);
    var found := Found(board, other, newPositions);
    assert forall w | w in found :: Utf16Length(w.word) > 1;
    if Utf16Length(RunWord(board, r)) > 1 {
      assert Found(board, own, newPositions) == [info];
    } else {
      assert Found(board, own, newPositions) == [];
    }
  }

  /** On a filled cell, each word found is the word of a maximal run through (x, y). */
  lemma WordsAtMaximal(board: Board, x: int, y: int, newPositions: set<Pos>)
    requires IsSquare(board) && InBounds(board, Pos(x, y)) && board[y][x] != ""
    ensures forall w | w in WordsAt(board, x, y, newPositions) ::
      Pos(x, y) in w.positions &&
      exists r :: IsMaximalRun(board, r) && w == InfoOf(board, r, newPositions)
  {
    var h := RunAt(board, Horizontal, x, y);
    var v := RunAt(board, Vertical, x, y);
    RunAtMaximal(board, Horizontal, x, y);
    RunAtMaximal(board, Vertical, x, y);
    forall w | w in WordsAt(board, x, y, newPositions)
      ensures Pos(x, y) in w.positions
      ensures exists r :: IsMaximalRun(board, r) && w == InfoOf(board, r, newPositions)
    {
      if w in Found(board, h, newPositions) {
        assert w == InfoOf(board, h, newPositions);
      } else {
        assert w == InfoOf(board, v, newPositions);
      }
    }
  }

  /** On an empty cell the backward scan stops at once and the runs read start
      one cell past (x, y): the cell itself is never part of a word found. */
  lemma WordsAtEmptyCell(board: Board, x: int, y: int, newPositions: set<Pos>)
    requires IsSquare(board) && InBounds(board, Pos(x, y)) && board[y][x] == ""
    ensures forall w | w in WordsAt(board, x, y, newPositions) ::
      Pos(x, y) !in w.positions &&
      (w.positions[0] == Pos(x + 1, y) || w.positions[0] == Pos(x, y + 1))
  {
    EmptyCellRun(board, Horizontal, x, y, newPositions);
    EmptyCellRun(board, Vertical, x, y, newPositions);
  }

  /** WordsAtEmptyCell for the run read in one direction. */
  lemma EmptyCellRun(board: Board, dir: Direction, x: int, y: int, newPositions: set<Pos>)
    requires IsSquare(board) && InBounds(board, Pos(x, y)) && board[y][x] == ""
    ensures forall w | w in Found(board, RunAt(board, dir, x, y), newPositions) ::
      Pos(x, y) !in w.positions && w.positions[0] == At(dir, Across(dir, Pos(x, y)), Along(dir, Pos(x, y)) + 1)
  {
    var p := Pos(x, y);
    assert Line(board, dir, Across(dir, p))[Along(dir, p)] == "";
    var r := RunAt(board, dir, x, y);
    assert r.start == Along(dir, p) + 1;
  }

  /** The backward loop of findWordsAtPosition: step back from `i` while the
      cell is filled, then one step forward. */
  method BackUp(board: Board, dir: Direction, k: int, i: int) returns (start: int)
    requires IsSquare(board) && 0 <= k < |board| && 0 <= i < |board|
    ensures start == RunStartBefore(Line(board, dir, k), i + 1)
  {
    ghost var line := Line(board, dir, k);
    start := i;
    while start >= 0 && Cell(board, At(dir, k, start)) != ""
      invariant -1 <= start <= i
      invariant RunStartBefore(line, start + 1) == RunStartBefore(line, i + 1)
    {
      start := start - 1;
    }
    start := start + 1;
  }

  /** A single cell holding a character outside the Basic Multilingual Plane
      is a word: its JavaScript length is 2, so it is found in both directions. */
  lemma OneCellAstralWord(newPositions: set<Pos>)
    ensures var board: Board := [["\U{1F600}"]];
      var info := WordInfo("\U{1F600}", Pos(0, 0) in newPositions, [Pos(0, 0)]);
      IsSquare(board) && InBounds(board, Pos(0, 0)) && WordsAt(board, 0, 0, newPositions) == [info, info]
  {
    var w := "\U{1F600}";
    assert w == ['\U{1F600}'];
    Utf16LengthOfChar('\U{1F600}');
    OneCellWords(w, newPositions);
  }

  /** On a one-cell board holding a word of JavaScript length above 1, that
      cell is found as a word in both directions. */
  lemma OneCellWords(w: string, newPositions: set<Pos>)
    requires Utf16Length(w) > 1
    ensures var board: Board := [[w]];
      var info := WordInfo(w, Pos(0, 0) in newPositions, [Pos(0, 0)]);
      IsSquare(board) && InBounds(board, Pos(0, 0)) && WordsAt(board, 0, 0, newPositions) == [info, info]
  {
    OneCellFound(w, Horizontal, newPositions);
    OneCellFound(w, Vertical, newPositions);
  }

  /** On a one-cell board holding a word of JavaScript length above 1, the run
      read in either direction is that cell, and it is found. */
  lemma OneCellFound(w: string, dir: Direction, newPositions: set<Pos>)
    requires Utf16Length(w) > 1
    ensures var board: Board := [[w]];
      IsSquare(board) && InBounds(board, Pos(0, 0)) &&
      Found(board, RunAt(board, dir, 0, 0), newPositions) == [WordInfo(w, Pos(0, 0) in newPositions, [Pos(0, 0)])]
  {
    var r := Run(dir, 0, 0, 1);
    OneCellRun(w, dir);
    assert Touches(RunPositions(r), newPositions) == (Pos(0, 0) in newPositions) by {
      assert RunPositions(r)[0] == Pos(0, 0);
    }
  }

  /** The run read on a one-cell board whose cell is filled is that cell. */
  lemma OneCellRun(w: string, dir: Direction)
    requires w != ""
    ensures var board: Board := [[w]];
      IsSquare(board) && InBounds(board, Pos(0, 0)) &&
      RunAt(board, dir, 0, 0) == Run(dir, 0, 0, 1) &&
      RunWord(board, Run(dir, 0, 0, 1)) == w && RunPositions(Run(dir, 0, 0, 1)) == [Pos(0, 0)]
  {
    var board: Board := [[w]];
    OneCellLine(w, dir);
    assert RunAt(board, dir, 0, 0) == Run(dir, 0, 0, 1);
    assert RunWord(board, Run(dir, 0, 0, 1)) == w by {
      assert Line(board, dir, 0)[0..1] == [w];
      var none: seq<string> := [];
      assert [w][..0] == none;
      assert Concat([w]) == Concat(none) + w;
      assert "" + w == w;
    }
  }

  lemma OneCellLine(w: string, dir: Direction)
    requires w != ""
    ensures IsSquare([[w]]) && Line([[w]], dir, 0) == [w]
  {
    assert Line([[w]], dir, 0)[0] == Cell([[w]], At(dir, 0, 0));
  }

  /** One half of findWordsAtPosition: back from (x, y) while the cell is
      filled, one step forward, then read the run. */
  method FindWordAlong(board: Board, dir: Direction, x: int, y: int, newPositions: set<Pos>)
    returns (found: seq<WordInfo>)
    requires IsSquare(board) && InBounds(board, Pos(x, y))
    ensures found == Found(board, RunAt(board, dir, x, y), newPositions)
  {
    var k := Across(dir, Pos(x, y));
    var start := BackUp(board, dir, k, Along(dir, Pos(x, y)));
    var end, word, positions := ReadRun(board, dir, k, start);
    assert RunAt(board, dir, x, y) == Run(dir, k, start, end);
    if Utf16Length(word) > 1 {
      var isNew := exists i | 0 <= i < |positions| :: positions[i] in newPositions;
      assert isNew == Touches(positions, newPositions);
      found := [WordInfo(word, isNew, positions)];
    } else {
      found := [];
    }
  }

  /** findWordsAtPosition. */
  method FindWordsAtPosition(board: Board, x: int, y: int, newPositions: set<Pos>)
    returns (words: seq<WordInfo>)
    requires IsSquare(board) && InBounds(board, Pos(x, y))
    ensures words == WordsAt(board, x, y, newPositions)
  {
    var horizontal := FindWordAlong(board, Horizontal, x, y, newPositions);
    var vertical := FindWordAlong(board, Vertical, x, y, newPositions);
    words := horizontal + vertical;
  }

  // ---------------------------------------------------------------------------
  // validateAllWords
  // ---------------------------------------------------------------------------

  function PositionSet(path: seq<Pos>): set<Pos>
  {
    set p | p in path
  }

  /** The words found at each position of `ps`, in order. */
  function CollectWords(board: Board, ps: seq<Pos>, newPositions: set<Pos>): seq<WordInfo>
    requires IsSquare(board) && AllInBounds(board, ps)
  {
    if |ps| == 0 then []
    else
      CollectWords(board, ps[..|ps| - 1], newPositions)
        + WordsAt(board, ps[|ps| - 1].x, ps[|ps| - 1].y, newPositions)
  }

  lemma CollectWordsSnoc(board: Board, ps: seq<Pos>, p: Pos, newPositions: set<Pos>)
    requires IsSquare(board) && AllInBounds(board, ps) && InBounds(board, p)
    ensures CollectWords(board, ps + [p], newPositions)
         == CollectWords(board, ps, newPositions) + WordsAt(board, p.x, p.y, newPositions)
  {
    assert (ps + [p])[..|ps|] == ps;
  }

  lemma DedupSnoc<T(!new)>(s: seq<T>, x: T)
    ensures Dedup(s + [x]) == AddOnce(Dedup(s), x)
  {
    assert (s + [x])[..|s|] == s;
  }

  /** The collected words that are not in the dictionary. */
  function InvalidWords(dict: Dictionary, words: seq<WordInfo>): (bad: seq<WordInfo>)
    ensures forall w | w in bad :: w in words && !IsWordValid(dict, w.word)
    ensures forall w | w in words && !IsWordValid(dict, w.word) :: w in bad
  {
    if |words| == 0 then []
    else
      var last := words[|words| - 1];
      InvalidWords(dict, words[..|words| - 1]) + (if IsWordValid(dict, last.word) then [] else [last])
  }

  /** Every word found at any position of `ps` is among the collected words. */
  lemma {:induction false} CollectWordsContains(board: Board, ps: seq<Pos>, newPositions: set<Pos>, p: Pos)
    requires IsSquare(board) && AllInBounds(board, ps) && p in ps
    ensures forall w | w in WordsAt(board, p.x, p.y, newPositions) :: w in CollectWords(board, ps, newPositions)
    decreases |ps|
  {
    if p != ps[|ps| - 1] {
      var front := ps[..|ps| - 1];
      assert ps == front + [ps[|ps| - 1]];
      assert p in front;
      CollectWordsContains(board, front, newPositions, p);
    }
  }

  /** Every collected word was found at some position of `ps`. */
  lemma {:induction false} CollectWordsFrom(board: Board, ps: seq<Pos>, newPositions: set<Pos>)
    requires IsSquare(board) && AllInBounds(board, ps)
    ensures forall w | w in CollectWords(board, ps, newPositions) ::
      exists p | p in ps :: w in WordsAt(board, p.x, p.y, newPositions)
    decreases |ps|
  {
    if |ps| > 0 {
      var front := ps[..|ps| - 1];
      assert forall p | p in front :: p in ps;
      CollectWordsFrom(board, front, newPositions);
    }
  }

  /** One more path position: it is new to the visited set iff it is new to
      the deduplicated prefix, which it then extends. */
  lemma VisitStep(board: Board, path: seq<Pos>, i: int)
    requires IsSquare(board) && AllInBounds(board, path) && 0 <= i < |path|
    ensures AllInBounds(board, Dedup(path[..i + 1]))
    ensures PositionSet(path[..i + 1]) == PositionSet(path[..i]) + {path[i]}
    ensures path[i] in PositionSet(path[..i]) ==> Dedup(path[..i + 1]) == Dedup(path[..i])
    ensures path[i] !in PositionSet(path[..i]) ==> Dedup(path[..i + 1]) == Dedup(path[..i]) + [path[i]]
  {
    assert path[..i + 1] == path[..i] + [path[i]];
    DedupSnoc(path[..i], path[i]);
    assert forall q | q in path[..i + 1] :: q in path;
  }

  /** validateAllWords: the words found at each distinct position of the path,
      in order of first occurrence, and whether all of them are in the dictionary. */
  method ValidateAllWords(dict: Dictionary, board: Board, path: seq<Pos>)
    returns (isValid: bool, words: seq<WordInfo>)
    requires IsSquare(board) && AllInBounds(board, path)
    ensures words == CollectWords(board, Dedup(path), PositionSet(path))
    ensures isValid <==> forall i | 0 <= i < |words| :: IsWordValid(dict, words[i].word)
  {
    words := CollectPathWords(board, path);
    var invalidWords := InvalidWords(dict, words);
    isValid := |invalidWords| == 0;
    NoInvalidWords(dict, words);
  }

  /** The loop of validateAllWords over the path. */
  method CollectPathWords(board: Board, path: seq<Pos>) returns (words: seq<WordInfo>)
    requires IsSquare(board) && AllInBounds(board, path)
    ensures words == CollectWords(board, Dedup(path), PositionSet(path))
  {
    words := [];
    var visitedPositions: set<Pos> := {};
    var newPositions := PositionSet(path);
    ghost var visited: seq<Pos> := [];
    for i := 0 to |path|
      invariant visitedPositions == PositionSet(path[..i])
      invariant visited == Dedup(path[..i]) && AllInBounds(board, visited)
      invariant words == CollectWords(board, visited, newPositions)
    {
      visitedPositions, words, visited := VisitPosition(board, path, i, newPositions, visitedPositions, words, visited);
    }
    assert path[..|path|] == path;
  }

  /** The body of the loop of validateAllWords, for the path position `i`. */
  method VisitPosition(board: Board, path: seq<Pos>, i: int, newPositions: set<Pos>,
                       visitedPositions: set<Pos>, words: seq<WordInfo>, ghost visited: seq<Pos>)
    returns (visitedPositions': set<Pos>, words': seq<WordInfo>, ghost visited': seq<Pos>)
    requires IsSquare(board) && AllInBounds(board, path) && 0 <= i < |path|
    requires visitedPositions == PositionSet(path[..i])
    requires visited == Dedup(path[..i]) && AllInBounds(board, visited)
    requires words == CollectWords(board, visited, newPositions)
    ensures visitedPositions' == PositionSet(path[..i + 1])
    ensures visited' == Dedup(path[..i + 1]) && AllInBounds(board, visited')
    ensures words' == CollectWords(board, visited', newPositions)
  {
    var p := path[i];
    VisitStep(board, path, i);
    visitedPositions', words', visited' := visitedPositions, words, visited;
    if p !in visitedPositions {
      var wordsAtPos := FindWordsAtPosition(board, p.x, p.y, newPositions);
      CollectWordsSnoc(board, visited, p, newPositions);
      words' := words + wordsAtPos;
      visitedPositions' := visitedPositions + {p};
      visited' := visited + [p];
    }
  }

  /** No collected word is invalid exactly when every collected word is valid. */
  lemma NoInvalidWords(dict: Dictionary, words: seq<WordInfo>)
    ensures |InvalidWords(dict, words)| == 0 <==> forall i | 0 <= i < |words| :: IsWordValid(dict, words[i].word)
  {
    var bad := InvalidWords(dict, words);
    if |bad| > 0 {
      assert bad[0] in bad;
    }
    if exists i | 0 <= i < |words| :: !IsWordValid(dict, words[i].word) {
      var i :| 0 <= i < |words| && !IsWordValid(dict, words[i].word);
      assert words[i] in words;
    }
  }

  /** validateAllWords looks at each distinct path position exactly once and
      validates every run found there, whether or not it touches the move. */
  lemma ValidateCoversPath(board: Board, path: seq<Pos>)
    requires IsSquare(board) && AllInBounds(board, path)
    ensures NoDuplicates(Dedup(path)) && forall p :: p in Dedup(path) <==> p in path
    ensures forall p, w | p in path && w in WordsAt(board, p.x, p.y, PositionSet(path)) ::
      w in CollectWords(board, Dedup(path), PositionSet(path))
    ensures forall w | w in CollectWords(board, Dedup(path), PositionSet(path)) ::
      exists p | p in path :: w in WordsAt(board, p.x, p.y, PositionSet(path))
  {
    var ps := Dedup(path);
    forall p, w | p in path && w in WordsAt(board, p.x, p.y, PositionSet(path))
      ensures w in CollectWords(board, ps, PositionSet(path))
    {
      CollectWordsContains(board, ps, PositionSet(path), p);
    }
    CollectWordsFrom(board, ps, PositionSet(path));
  }

  // ---------------------------------------------------------------------------
  // getPathDirection
  // ---------------------------------------------------------------------------

  predicate SameRow(path: seq<Pos>)
  {
    forall i, j | 0 <= i < |path| && 0 <= j < |path| :: path[i].y == path[j].y
  }

  predicate SameColumn(path: seq<Pos>)
  {
    forall i, j | 0 <= i < |path| && 0 <= j < |path| :: path[i].x == path[j].x
  }

  /** getPathDirection: no direction for fewer than two positions or a path off
      a single line; horizontal whenever all rows agree, even when all columns
      agree too; vertical otherwise when all columns agree. */
  function GetPathDirection(path: seq<Pos>): (r: Option<Direction>)
    ensures r == Some(Horizontal) <==> |path| >= 2 && SameRow(path)
    ensures r == Some(Vertical) <==> |path| >= 2 && !SameRow(path) && SameColumn(path)
    ensures r == None <==> |path| < 2 || (!SameRow(path) && !SameColumn(path))
  {
    if |path| < 2 then None
    else
      var allSameY := forall i | 0 <= i < |path| :: path[i].y == path[0].y;
      var allSameX := forall i | 0 <= i < |path| :: path[i].x == path[0].x;
      if allSameY then Some(Horizontal)
      else if allSameX then Some(Vertical)
      else None
  }

  // ---------------------------------------------------------------------------
  // getMainWord, getPerpendicularWord, getNewWordsFormed
  // ---------------------------------------------------------------------------

  /** `Math.min` of the coordinates of the path along `dir`. */
  function MinAlong(path: seq<Pos>, dir: Direction): (m: int)
    requires |path| > 0
    ensures forall p | p in path :: m <= Along(dir, p)
    ensures exists p | p in path :: m == Along(dir, p)
  {
    if |path| == 1 then Along(dir, path[0])
    else
      var rest := MinAlong(path[1..], dir);
      assert forall p | p in path[1..] :: p in path;
      assert forall p | p in path :: p == path[0] || p in path[1..];
      if Along(dir, path[0]) <= rest then Along(dir, path[0]) else rest
  }

  /** The main word's run: from the smallest path coordinate along `dir`, back
      while the previous cell is filled, then forward while the cell is filled,
      on the line of the first path position. */
  function MainRun(board: Board, path: seq<Pos>, dir: Direction): (r: Run)
    requires IsSquare(board) && AllInBounds(board, path) && |path| > 0
    ensures ValidRun(board, r) && r.dir == dir
  {
    assert path[0] in path;
    ScannedRun(board, dir, Across(dir, path[0]), MinAlong(path, dir))
  }

  /** getMainWord: "" for a path without a direction. */
  function MainWord(board: Board, path: seq<Pos>): string
    requires IsSquare(board) && AllInBounds(board, path)
  {
    match GetPathDirection(path)
    case None => ""
    case Some(dir) => RunWord(board, MainRun(board, path, dir))
  }

  /** The run across `dir` through (x, y): back from (x, y) while the previous
      cell is filled, then forward while the cell is filled. */
  function PerpRun(board: Board, x: int, y: int, dir: Direction): (r: Run)
    requires IsSquare(board) && InBounds(board, Pos(x, y))
    ensures ValidRun(board, r) && r.dir == Perpendicular(dir)
  {
    var pd := Perpendicular(dir);
    ScannedRun(board, pd, Across(pd, Pos(x, y)), Along(pd, Pos(x, y)))
  }

  /** getPerpendicularWord: the word of that run when its JavaScript length is more than 1. */
  function PerpWord(board: Board, x: int, y: int, dir: Direction): Option<string>
    requires IsSquare(board) && InBounds(board, Pos(x, y))
  {
    var word := RunWord(board, PerpRun(board, x, y, dir));
    if Utf16Length(word) > 1 then Some(word) else None
  }

  function PlacedPos(l: PlacedLetter): Pos
  {
    Pos(l.x, l.y)
  }

  predicate PlacedInBounds(board: Board, placed: seq<PlacedLetter>)
  {
    forall l | l in placed :: InBounds(board, PlacedPos(l))
  }

  function PlacedSet(placed: seq<PlacedLetter>): set<Pos>
  {
    set l | l in placed :: PlacedPos(l)
  }

  /** The main word when its JavaScript length is more than 1 and it touches a placed tile. */
  function MainCandidate(board: Board, path: seq<Pos>, dir: Direction, placedSet: set<Pos>): seq<string>
    requires IsSquare(board) && AllInBounds(board, path) && |path| > 0
  {
    var r := MainRun(board, path, dir);
    if Utf16Length(RunWord(board, r)) > 1 && Touches(RunPositions(r), placedSet) then [RunWord(board, r)] else []
  }

  /** The perpendicular word at one placed tile when there is one and it touches a placed tile. */
  function PerpCandidate(board: Board, l: PlacedLetter, dir: Direction, placedSet: set<Pos>): seq<string>
    requires IsSquare(board) && InBounds(board, PlacedPos(l))
  {
    var r := PerpRun(board, l.x, l.y, dir);
    if Utf16Length(RunWord(board, r)) > 1 && Touches(RunPositions(r), placedSet) then [RunWord(board, r)] else []
  }

  function PerpCandidates(board: Board, placed: seq<PlacedLetter>, dir: Direction, placedSet: set<Pos>): seq<string>
    requires IsSquare(board) && PlacedInBounds(board, placed)
  {
    if |placed| == 0 then []
    else
      assert placed[|placed| - 1] in placed;
      PerpCandidates(board, placed[..|placed| - 1], dir, placedSet)
        + PerpCandidate(board, placed[|placed| - 1], dir, placedSet)
  }

  /** getNewWordsFormed: no words for a path without a direction; otherwise the
      main word and the perpendicular words, each once, in order of first insertion. */
  function NewWordsFormed(board: Board, path: seq<Pos>, placed: seq<PlacedLetter>): seq<string>
    requires IsSquare(board) && AllInBounds(board, path) && PlacedInBounds(board, placed)
  {
    match GetPathDirection(path)
    case None => []
    case Some(dir) =>
      Dedup(MainCandidate(board, path, dir, PlacedSet(placed))
              + PerpCandidates(board, placed, dir, PlacedSet(placed)))
  }

  /** A word formed by the move: the word of a maximal run that has a placed tile. */
  ghost predicate FormedByMove(board: Board, w: string, placedSet: set<Pos>)
    requires IsSquare(board)
  {
    exists r :: IsMaximalRun(board, r) && RunWord(board, r) == w && Touches(RunPositions(r), placedSet)
  }

  lemma {:induction false} PerpCandidatesFormed(board: Board, placed: seq<PlacedLetter>, dir: Direction, placedSet: set<Pos>)
    requires IsSquare(board) && PlacedInBounds(board, placed)
    ensures forall w | w in PerpCandidates(board, placed, dir, placedSet) ::
      Utf16Length(w) > 1 && FormedByMove(board, w, placedSet)
    decreases |placed|
  {
    if |placed| > 0 {
      var l := placed[|placed| - 1];
      assert l in placed;
      assert forall m | m in placed[..|placed| - 1] :: m in placed;
      PerpCandidatesFormed(board, placed[..|placed| - 1], dir, placedSet);
      CandidateFormed(board, PerpRun(board, l.x, l.y, dir), placedSet);
    }
  }

  /** The word of a scanned run that is kept as a candidate is formed by the move. */
  lemma CandidateFormed(board: Board, r: Run, placedSet: set<Pos>)
    requires IsSquare(board) && ValidRun(board, r) && (r.start < r.end ==> IsMaximalRun(board, r))
    ensures Utf16Length(RunWord(board, r)) > 1 && Touches(RunPositions(r), placedSet) ==>
      FormedByMove(board, RunWord(board, r), placedSet)
  {
    if Utf16Length(RunWord(board, r)) > 1 {
      assert r.start < r.end;
    }
  }

  lemma PerpCandidatesStep(board: Board, placed: seq<PlacedLetter>, j: int, dir: Direction, placedSet: set<Pos>)
    requires IsSquare(board) && PlacedInBounds(board, placed) && 0 <= j < |placed|
    ensures PlacedInBounds(board, placed[..j]) && PlacedInBounds(board, placed[..j + 1])
    ensures InBounds(board, PlacedPos(placed[j]))
    ensures PerpCandidates(board, placed[..j + 1], dir, placedSet)
         == PerpCandidates(board, placed[..j], dir, placedSet) + PerpCandidate(board, placed[j], dir, placedSet)
  {
    assert placed[j] in placed;
    assert forall m | m in placed[..j + 1] :: m in placed;
    assert placed[..j + 1][..j] == placed[..j];
  }

  /** getNewWordsFormed returns nothing for a path without a direction;
      otherwise each word once, each of JavaScript length above 1 and each the word
      of a maximal run of filled cells that holds a placed tile. */
  lemma NewWordsFormedProperties(board: Board, path: seq<Pos>, placed: seq<PlacedLetter>)
    requires IsSquare(board) && AllInBounds(board, path) && PlacedInBounds(board, placed)
    ensures GetPathDirection(path) == None ==> NewWordsFormed(board, path, placed) == []
    ensures NoDuplicates(NewWordsFormed(board, path, placed))
    ensures forall w | w in NewWordsFormed(board, path, placed) ::
      Utf16Length(w) > 1 && FormedByMove(board, w, PlacedSet(placed))
  {
    var placedSet := PlacedSet(placed);
    match GetPathDirection(path)
    case None =>
    case Some(dir) =>
      PerpCandidatesFormed(board, placed, dir, placedSet);
      CandidateFormed(board, MainRun(board, path, dir), placedSet);
  }

  /** getMainWord. */
  method GetMainWord(board: Board, path: seq<Pos>) returns (word: string)
    requires IsSquare(board) && AllInBounds(board, path)
    ensures word == MainWord(board, path)
  {
    if |path| == 0 {
      return "";
    }
    var dir := GetPathDirection(path);
    if dir.None? {
      return "";
    }
    var p0 := path[0];
    assert p0 in path;
    var startAlong := MinAlong(path, dir.value);
    startAlong := ScanBack(board, dir.value, Across(dir.value, p0), startAlong);
    var _, w, _ := ReadRun(board, dir.value, Across(dir.value, p0), startAlong);
    word := w;
  }

  /** getPerpendicularWord. */
  method GetPerpendicularWord(board: Board, x: int, y: int, dir: Direction) returns (word: Option<string>)
    requires IsSquare(board) && InBounds(board, Pos(x, y))
    ensures word == PerpWord(board, x, y, dir)
  {
    var pd := Perpendicular(dir);
    var start := ScanBack(board, pd, Across(pd, Pos(x, y)), Along(pd, Pos(x, y)));
    var _, w, _ := ReadRun(board, pd, Across(pd, Pos(x, y)), start);
    word := if Utf16Length(w) > 1 then Some(w) else None;
  }

  /** getMainWordPositions: the cells of the main word's run. */
  method GetMainWordPositions(board: Board, path: seq<Pos>, dir: Direction) returns (positions: seq<Pos>)
    requires IsSquare(board) && AllInBounds(board, path) && |path| > 0
    ensures positions == RunPositions(MainRun(board, path, dir))
  {
    var p0 := path[0];
    assert p0 in path;
    var start := ScanBack(board, dir, Across(dir, p0), MinAlong(path, dir));
    var _, _, ps := ReadRun(board, dir, Across(dir, p0), start);
    positions := ps;
  }

  /** The positions of the perpendicular word at (x, y), scanned again. */
  method GetPerpendicularPositions(board: Board, x: int, y: int, dir: Direction) returns (positions: seq<Pos>)
    requires IsSquare(board) && InBounds(board, Pos(x, y))
    ensures positions == RunPositions(PerpRun(board, x, y, dir))
  {
    var pd := Perpendicular(dir);
    var start := ScanBack(board, pd, Across(pd, Pos(x, y)), Along(pd, Pos(x, y)));
    var _, _, ps := ReadRun(board, pd, Across(pd, Pos(x, y)), start);
    positions := ps;
  }

  /** The first step of getNewWordsFormed: the main word, when its JavaScript
      length is more than 1 and one of its cells holds a placed tile. */
  method MainWordEntry(board: Board, path: seq<Pos>, dir: Direction, placedSet: set<Pos>)
    returns (words: seq<string>)
    requires IsSquare(board) && AllInBounds(board, path) && GetPathDirection(path) == Some(dir)
    ensures words == Dedup(MainCandidate(board, path, dir, placedSet))
  {
    var mainWord := GetMainWord(board, path);
    words := [];
    if Utf16Length(mainWord) > 1 {
      var mainPositions := GetMainWordPositions(board, path, dir);
      if exists i | 0 <= i < |mainPositions| :: mainPositions[i] in placedSet {
        words := AddOnce(words, mainWord);
      }
    }
    assert MainCandidate(board, path, dir, placedSet) == [] <==> words == [];
    if words != [] {
      DedupSnoc([], mainWord);
    }
  }

  /** One pass of getNewWordsFormed's loop: the perpendicular word at a placed
      tile, when there is one and one of its cells holds a placed tile, is
      added to the set of words. */
  method AddPerpendicularEntry(board: Board, l: PlacedLetter, dir: Direction, placedSet: set<Pos>, words: seq<string>)
    returns (words': seq<string>)
    requires IsSquare(board) && InBounds(board, PlacedPos(l))
    ensures var part := PerpCandidate(board, l, dir, placedSet);
      words' == if part == [] then words else AddOnce(words, part[0])
  {
    words' := words;
    var perp := GetPerpendicularWord(board, l.x, l.y, dir);
    if perp.Some? {
      var positions := GetPerpendicularPositions(board, l.x, l.y, dir);
      if exists i | 0 <= i < |positions| :: positions[i] in placedSet {
        words' := AddOnce(words', perp.value);
      }
    }
  }

  /** The loop invariant of getNewWordsFormed carries over one placed tile. */
  lemma NewWordsStep(board: Board, mainPart: seq<string>, placed: seq<PlacedLetter>, j: int,
                     dir: Direction, placedSet: set<Pos>, words: seq<string>)
    requires IsSquare(board) && PlacedInBounds(board, placed) && 0 <= j < |placed|
    requires PlacedInBounds(board, placed[..j])
    requires words == Dedup(mainPart + PerpCandidates(board, placed[..j], dir, placedSet))
    ensures PlacedInBounds(board, placed[..j + 1]) && InBounds(board, PlacedPos(placed[j]))
    ensures var part := PerpCandidate(board, placed[j], dir, placedSet);
      (if part == [] then words else AddOnce(words, part[0]))
        == Dedup(mainPart + PerpCandidates(board, placed[..j + 1], dir, placedSet))
  {
    PerpCandidatesStep(board, placed, j, dir, placedSet);
    var prev := PerpCandidates(board, placed[..j], dir, placedSet);
    var before := mainPart + prev;
    var part := PerpCandidate(board, placed[j], dir, placedSet);
    AppendAssoc(mainPart, prev, part);
    if part == [] {
      assert before + part == before;
    } else {
      assert part == [part[0]];
      DedupSnoc(before, part[0]);
    }
  }

  /** getNewWordsFormed. */
  method GetNewWordsFormed(board: Board, path: seq<Pos>, placed: seq<PlacedLetter>)
    returns (result: seq<string>)
    requires IsSquare(board) && AllInBounds(board, path) && PlacedInBounds(board, placed)
    ensures result == NewWordsFormed(board, path, placed)
  {
    var dir := GetPathDirection(path);
    if dir.None? {
      return [];
    }
    var placedSet := PlacedSet(placed);
    var words := MainWordEntry(board, path, dir.value, placedSet);
    ghost var mainPart := MainCandidate(board, path, dir.value, placedSet);

    for j := 0 to |placed|
      invariant PlacedInBounds(board, placed[..j])
      invariant words == Dedup(mainPart + PerpCandidates(board, placed[..j], dir.value, placedSet))
    {
      NewWordsStep(board, mainPart, placed, j, dir.value, placedSet, words);
      words := AddPerpendicularEntry(board, placed[j], dir.value, placedSet, words);
    }
    assert placed[..|placed|] == placed;
    result := words;
  }
}
