/**
 * Reading words off one line of the board. A line is a sequence of
 * cells, each empty or holding a tile's letter (a string). Both word
 * scanners walk a line left to right, appending letters to the current
 * word and, at each empty cell, emitting the current word when it is
 * longer than one UTF-16 code unit (JavaScript's `length > 1`) and starting a new one.
 */
module Runs {
  import opened Wrappers
  import opened Text

  type Line = seq<Option<string>>

  /** What a scan sees of a board: the letter, if any, at each cell. */
  type Cells = (int, int) -> Option<string>

  /** The line cut at its empty cells: the letters between consecutive empty cells. */
  function Segments(line: Line): (segs: seq<seq<string>>)
    ensures |segs| > 0
    decreases |line|
  {
    if |line| == 0 then [[]]
    else
      var segs := Segments(line[..|line| - 1]);
      match line[|line| - 1]
      case None => segs + [[]]
      case Some(letter) => segs[..|segs| - 1] + [segs[|segs| - 1] + [letter]]
  }

  /** Every letter as a filled cell. */
  function Filled(seg: seq<string>): (cells: Line)
    ensures |cells| == |seg| && forall i :: 0 <= i < |seg| ==> cells[i] == Some(seg[i])
  {
    seq(|seg|, i requires 0 <= i < |seg| => Some(seg[i]))
  }

  /** The line the segments come from: the segments' letters with an empty cell between neighbours. */
  function Unsplit(segs: seq<seq<string>>): Line
    requires |segs| > 0
    decreases |segs|
  {
    if |segs| == 1 then Filled(segs[0])
    else Unsplit(segs[..|segs| - 1]) + [None] + Filled(segs[|segs| - 1])
  }

  /** Cutting a line loses nothing: gluing the segments back with empty cells gives the line. */
  lemma {:induction false} UnsplitSegments(line: Line)
    ensures Unsplit(Segments(line)) == line
    decreases |line|
  {
    if |line| > 0 {
      var init := line[..|line| - 1];
      UnsplitSegments(init);
      assert line == init + [line[|line| - 1]];
      match line[|line| - 1]
      case None =>
        UnsplitCut(Segments(init));
      case Some(letter) =>
        UnsplitExtend(Segments(init), letter);
    }
  }

  lemma {:induction false} UnsplitCut(segs: seq<seq<string>>)
    requires |segs| > 0
    ensures Unsplit(segs + [[]]) == Unsplit(segs) + [None]
  {
    assert (segs + [[]])[..|segs|] == segs;
  }

  lemma {:induction false} UnsplitExtend(segs: seq<seq<string>>, letter: string)
    requires |segs| > 0
    ensures var n := |segs|;
      Unsplit(segs[..n - 1] + [segs[n - 1] + [letter]]) == Unsplit(segs) + [Some(letter)]
  {
    var n := |segs|;
    var segs' := segs[..n - 1] + [segs[n - 1] + [letter]];
    assert Filled(segs[n - 1] + [letter]) == Filled(segs[n - 1]) + [Some(letter)];
    if n > 1 {
      assert segs'[..n - 1] == segs[..n - 1];
    }
  }

  /** The letters of a segment joined into one string. */
  function Concat(seg: seq<string>): string
    decreases |seg|
  {
    if |seg| == 0 then "" else Concat(seg[..|seg| - 1]) + seg[|seg| - 1]
  }

  /** What the scanner emits for one finished segment: its word when longer than one UTF-16 code unit. */
  function Emit(seg: seq<string>, upper: bool): seq<string> {
    var word := Concat(seg);
    if Utf16Length(word) > 1 then [if upper then Upper(word) else word] else []
  }

  /** The words of the given segments, in order. */
  function Words(segs: seq<seq<string>>, upper: bool): seq<string>
    decreases |segs|
  {
    if |segs| == 0 then [] else Words(segs[..|segs| - 1], upper) + Emit(segs[|segs| - 1], upper)
  }

  /** `seg` joins to the word `w` (upper-cased if asked), which is longer than one UTF-16 code unit. */
  predicate Yields(seg: seq<string>, upper: bool, w: string) {
    Utf16Length(Concat(seg)) > 1 && w == (if upper then Upper(Concat(seg)) else Concat(seg))
  }

  /** A word is listed exactly when some segment yields it. */
  lemma {:induction false} WordsMembers(segs: seq<seq<string>>, upper: bool, w: string)
    ensures w in Words(segs, upper) <==> exists i :: 0 <= i < |segs| && Yields(segs[i], upper, w)
    decreases |segs|
  {
    if |segs| > 0 {
      var n := |segs|;
      var init := segs[..n - 1];
      WordsMembers(init, upper, w);
      assert w in Emit(segs[n - 1], upper) <==> Yields(segs[n - 1], upper, w);
      if w in Words(init, upper) {
        var i :| 0 <= i < |init| && Yields(init[i], upper, w);
        assert segs[i] == init[i];
      }
      if exists i :: 0 <= i < n && Yields(segs[i], upper, w) {
        var i :| 0 <= i < n && Yields(segs[i], upper, w);
        if i < n - 1 {
          assert init[i] == segs[i];
        }
      }
    }
  }

  /** The words of a whole line: one for every segment longer than one UTF-16 code unit. */
  function LineWords(line: Line, upper: bool): seq<string> {
    Words(Segments(line), upper)
  }

  /** The segments the scan has finished: every one but the last, which no empty cell closed. */
  function Closed(line: Line): seq<seq<string>> {
    var segs := Segments(line);
    segs[..|segs| - 1]
  }

  /** Scanning a line followed by an empty cell finishes every segment, giving all of the line's words. */
  lemma {:induction false} TerminatedScan(line: Line, upper: bool)
    ensures Words(Closed(line + [None]), upper) == LineWords(line, upper)
  {
    var segs := Segments(line);
    assert (line + [None])[..|line|] == line;
    assert Segments(line + [None]) == segs + [[]];
    assert (segs + [[]])[..|segs|] == segs;
  }

  /**
   * The scan of one line: the current word grows at each filled cell, and
   * each empty cell emits it (when longer than one UTF-16 code unit) and starts
   * a new one. A word still open when the line ends is not emitted; it
   * is returned as `current`.
   */
  method ScanLine(line: Line, upper: bool) returns (words: seq<string>, current: string)
    ensures words == Words(Closed(line), upper)
    ensures current == Concat(Segments(line)[|Segments(line)| - 1])
  {
    words := [];
    current := "";
    for i := 0 to |line|
      invariant ScanInvariant(line[..i], upper, words, current)
    {
      ScanStep(line[..i], line[i], upper, words, current);
      assert line[..i + 1] == line[..i] + [line[i]];
      match line[i]
      case Some(letter) =>
        current := current + letter;
      case None =>
        if Utf16Length(current) > 1 {
          words := words + [if upper then Upper(current) else current];
        }
        current := "";
    }
    assert line[..|line|] == line;
  }

  /** After scanning `done`: the emitted words are those of its finished segments, and `current` joins the open one. */
  predicate ScanInvariant(done: Line, upper: bool, words: seq<string>, current: string) {
    var segs := Segments(done);
    current == Concat(segs[|segs| - 1]) && words == Words(segs[..|segs| - 1], upper)
  }

  /** One cell of `ScanLine`. */
  lemma {:induction false} ScanStep(done: Line, cell: Option<string>, upper: bool, words: seq<string>, current: string)
    requires ScanInvariant(done, upper, words, current)
    ensures cell.Some? ==> ScanInvariant(done + [cell], upper, words, current + cell.value)
    ensures cell.None? ==> ScanInvariant(done + [cell], upper,
      words + (if Utf16Length(current) > 1 then [if upper then Upper(current) else current] else []), "")
  {
    var line := done + [cell];
    assert line[..|line| - 1] == done;
    var segs := Segments(done);
    var n := |segs|;
    match cell
    case Some(letter) =>
      var last := segs[n - 1] + [letter];
      assert last[..|last| - 1] == segs[n - 1];
      assert (segs[..n - 1] + [last])[..n - 1] == segs[..n - 1];
    case None =>
      assert (segs + [[]])[..n] == segs;
      assert Emit(segs[n - 1], upper) == (if Utf16Length(current) > 1 then [if upper then Upper(current) else current] else []);
  }

  /** The words of a line are the closed segments' words followed by whatever the last, open segment yields. */
  lemma {:induction false} LineWordsSplit(line: Line, upper: bool)
    ensures var segs := Segments(line);
      LineWords(line, upper) == Words(Closed(line), upper) + Emit(segs[|segs| - 1], upper)
  {
  }

  /** `n` empty cells. */
  function Blank(n: nat): (line: Line)
    ensures |line| == n && forall i :: 0 <= i < n ==> line[i] == None
  {
    seq(n, i => None)
  }

  /** `n` empty segments. */
  function EmptySegments(n: nat): (segs: seq<seq<string>>)
    ensures |segs| == n && forall i :: 0 <= i < n ==> segs[i] == []
  {
    seq(n, i => [])
  }

  /** `n` empty cells cut into `n + 1` empty segments. */
  lemma {:induction false} SegmentsOfBlank(n: nat)
    ensures Segments(Blank(n)) == EmptySegments(n + 1)
    decreases n
  {
    if n > 0 {
      SegmentsOfBlank(n - 1);
      assert Blank(n)[..n - 1] == Blank(n - 1);
      assert EmptySegments(n) + [[]] == EmptySegments(n + 1);
    }
  }

  /** Empty segments yield no word. */
  lemma {:induction false} WordsOfEmptySegments(n: nat, upper: bool)
    ensures Words(EmptySegments(n), upper) == []
    decreases n
  {
    if n > 0 {
      WordsOfEmptySegments(n - 1, upper);
      assert EmptySegments(n)[..n - 1] == EmptySegments(n - 1);
    }
  }

  /** `n` empty cells followed by the letters of `seg`: `n` empty segments, then `seg`. */
  lemma {:induction false} SegmentsOfBlankThenRun(n: nat, seg: seq<string>)
    ensures Segments(Blank(n) + Filled(seg)) == EmptySegments(n) + [seg]
    decreases |seg|
  {
    if |seg| == 0 {
      SegmentsOfBlank(n);
      assert Blank(n) + Filled(seg) == Blank(n);
      assert EmptySegments(n + 1) == EmptySegments(n) + [[]];
    } else {
      var init := seg[..|seg| - 1];
      var letter := seg[|seg| - 1];
      SegmentsOfBlankThenRun(n, init);
      assert Filled(seg) == Filled(init) + [Some(letter)];
      assert Blank(n) + Filled(seg) == (Blank(n) + Filled(init)) + [Some(letter)];
      SegmentsSnocLetter(Blank(n) + Filled(init), letter);
      assert (EmptySegments(n) + [init])[..n] == EmptySegments(n);
      assert init + [letter] == seg;
    }
  }

  /** A filled cell at the end extends the last segment by its letter. */
  lemma {:induction false} SegmentsSnocLetter(line: Line, letter: string)
    ensures var segs := Segments(line);
      Segments(line + [Some(letter)]) == segs[..|segs| - 1] + [segs[|segs| - 1] + [letter]]
  {
    assert (line + [Some(letter)])[..|line|] == line;
  }

  /**
   * A line whose only run ends at the last cell: the scan, which emits a
   * run only at an empty cell, finds no word, while the line holds the
   * run's word.
   */
  lemma {:induction false} RunAtEnd(n: nat, seg: seq<string>, upper: bool)
    ensures Words(Closed(Blank(n) + Filled(seg)), upper) == []
    ensures LineWords(Blank(n) + Filled(seg), upper) == Emit(seg, upper)
  {
    SegmentsOfBlankThenRun(n, seg);
    assert (EmptySegments(n) + [seg])[..n] == EmptySegments(n);
    WordsOfEmptySegments(n, upper);
  }
}
