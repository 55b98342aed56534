/** The line-dropping compressors for diffs and test output, and the head-and-tail summary. */
module LineFilters {
  import opened Sequences
  import opened Text

  predicate StartsWith(s: string, prefix: string) {
    |s| >= |prefix| && s[..|prefix|] == prefix
  }

  // ---- Diffs ----

  predicate IsFileHeader(line: string) {
    StartsWith(line, "diff ") || StartsWith(line, "index ") || StartsWith(line, "--- ") || StartsWith(line, "+++ ")
  }

  // \s of the regular expression engine.
  predicate IsBlank(c: char) { c == ' ' || c == '\t' || c == '\n' || c as int == 12 || c == '\r' }

  // The middle class of the hunk pattern, which contains all blanks.
  predicate IsHunkChar(c: char) {
    c == '-' || c == '+' || '0' <= c <= '9' || c == ',' || IsBlank(c)
  }

  // ^@@\s*[\-\+0-9,\s]+\s*@@ : a non-empty stretch of hunk characters between two markers.
  predicate IsHunkHeader(line: string) {
    StartsWith(line, "@@") && exists k :: 3 <= k <= |line| - 2 && ClosesHunk(line, k)
  }

  predicate ClosesHunk(line: string, k: nat)
    requires k + 2 <= |line|
  {
    line[k..k+2] == "@@" && forall i :: 2 <= i < k ==> IsHunkChar(line[i])
  }

  // A hunk header reads "@@", one or more of its characters, "@@", and anything.
  lemma HunkHeaderMeans(line: string)
    ensures IsHunkHeader(line) <==>
              exists ranges: string, rest: string :: line == "@@" + ranges + "@@" + rest && AreRanges(ranges)
  {
    if IsHunkHeader(line) {
      var k :| 3 <= k <= |line| - 2 && ClosesHunk(line, k);
      HunkParts(line, k);
    }
    if ranges: string, rest: string :| line == "@@" + ranges + "@@" + rest && AreRanges(ranges) {
      PartsOfHunk(ranges, rest);
    }
  }

  lemma HunkParts(line: string, k: nat)
    requires StartsWith(line, "@@") && 3 <= k <= |line| - 2 && ClosesHunk(line, k)
    ensures line == "@@" + line[2..k] + "@@" + line[k+2..] && AreRanges(line[2..k])
  {
    assert line == line[..2] + line[2..k] + line[k..k+2] + line[k+2..];
    assert forall i :: 0 <= i < k - 2 ==> line[2..k][i] == line[i+2];
  }

  lemma PartsOfHunk(ranges: string, rest: string)
    requires AreRanges(ranges)
    ensures IsHunkHeader("@@" + ranges + "@@" + rest)
  {
    var line, k := "@@" + ranges + "@@" + rest, |ranges| + 2;
    assert line[..2] == "@@" && line[k..k+2] == "@@";
    assert forall i :: 2 <= i < k ==> line[i] == ranges[i-2];
    assert ClosesHunk(line, k);
  }

  predicate AreRanges(s: string) {
    s != "" && forall i :: 0 <= i < |s| ==> s[i] in "+-0123456789, \t\n\r" || s[i] as int == 12
  }

  // A file header starts with one of four words.
  lemma FileHeaderMeans(line: string)
    ensures IsFileHeader(line) <==>
              exists word: string, rest: string :: word in ["diff ", "index ", "--- ", "+++ "] && line == word + rest
  {
    if IsFileHeader(line) {
      var word := if StartsWith(line, "diff ") then "diff " else if StartsWith(line, "index ") then "index "
                  else if StartsWith(line, "--- ") then "--- " else "+++ ";
      assert line == word + line[|word|..];
    }
  }

  const ELISION := "..."

  // The loop of the diff filter, as a function of the lines.
  function Compress(lines: seq<string>): seq<string> {
    if lines == [] then []
    else
      var result, line := Compress(lines[..|lines|-1]), lines[|lines|-1];
      if IsFileHeader(line) then result
      else if IsHunkHeader(line) then
        if |result| > 0 && result[|result|-1] != ELISION then result + [ELISION] else result
      else result + [line]
  }

  // The same lines, each with where it comes from: the line kept, or the hunk header it stands for.
  datatype Piece = Kept(position: nat) | Inserted(position: nat)

  function Pieces(lines: seq<string>): seq<Piece> {
    if lines == [] then []
    else
      var n := |lines| - 1;
      var pieces, result, line := Pieces(lines[..n]), Compress(lines[..n]), lines[n];
      if IsFileHeader(line) then pieces
      else if IsHunkHeader(line) then
        if |result| > 0 && result[|result|-1] != ELISION then pieces + [Inserted(n)] else pieces
      else pieces + [Kept(n)]
  }

  predicate Survives(line: string) { !IsFileHeader(line) && !IsHunkHeader(line) }

  // The positions of the surviving lines, and of the kept pieces.
  function Positions(lines: seq<string>): seq<nat> {
    if lines == [] then []
    else
      var n := |lines| - 1;
      Positions(lines[..n]) + if Survives(lines[n]) then [n] else []
  }

  function KeptPositions(pieces: seq<Piece>): seq<nat> {
    if pieces == [] then []
    else
      var p := pieces[|pieces|-1];
      KeptPositions(pieces[..|pieces|-1]) + if p.Kept? then [p.position] else []
  }

  predicate DroppedHunk(line: string) { !IsFileHeader(line) && IsHunkHeader(line) }

  // A hunk header at position n follows a line of output that is no elision.
  predicate NeedsMark(lines: seq<string>, n: nat)
    requires n <= |lines|
  {
    var out := Compress(lines[..n]);
    out != [] && out[|out|-1] != ELISION
  }

  ghost predicate PieceFits(lines: seq<string>, out: seq<string>, pieces: seq<Piece>, i: nat)
    requires i < |pieces| == |out|
  {
    match pieces[i]
    case Kept(n) => n < |lines| && out[i] == lines[n]
    case Inserted(n) => n < |lines| && DroppedHunk(lines[n]) && out[i] == ELISION && i > 0 && out[i-1] != ELISION
  }

  // The output is the surviving input lines and elisions, in the order of their positions in the
  // input. An elision stands where a hunk header was dropped, never first and never after a line
  // that reads "...", and every hunk header that is neither gets one.
  lemma ElisionsAreSeparated(lines: seq<string>)
    ensures |Pieces(lines)| == |Compress(lines)|
    ensures forall i :: 0 <= i < |Pieces(lines)| ==> PieceFits(lines, Compress(lines), Pieces(lines), i)
    ensures KeptPositions(Pieces(lines)) == Positions(lines)
    ensures InOrder(Pieces(lines), |lines|)
    ensures forall n :: 0 <= n < |lines| && DroppedHunk(lines[n]) ==>
              (Inserted(n) in Pieces(lines) <==> NeedsMark(lines, n))
  {
    PiecesFit(lines);
    PiecesKeepSurvivors(lines);
    PiecesInOrder(lines);
    HunksAreMarked(lines);
  }

  ghost predicate InOrder(pieces: seq<Piece>, n: nat) {
    && (forall i :: 0 <= i < |pieces| ==> pieces[i].position < n)
    && (forall i, j :: 0 <= i < j < |pieces| ==> pieces[i].position < pieces[j].position)
  }

  lemma {:induction false} PiecesInOrder(lines: seq<string>)
    ensures InOrder(Pieces(lines), |lines|)
  {
    if lines != [] { PiecesInOrder(lines[..|lines|-1]); }
  }

  lemma {:induction false} HunksAreMarked(lines: seq<string>)
    ensures forall n :: 0 <= n < |lines| && DroppedHunk(lines[n]) ==>
              (Inserted(n) in Pieces(lines) <==> NeedsMark(lines, n))
  {
    if lines != [] {
      var last := |lines| - 1;
      var front := lines[..last];
      HunksAreMarked(front);
      PiecesInOrder(front);
      forall n | 0 <= n < |lines| && DroppedHunk(lines[n])
        ensures Inserted(n) in Pieces(lines) <==> NeedsMark(lines, n)
      {
        LastPiece(lines);
        if n < last {
          assert front[n] == lines[n] && front[..n] == lines[..n];
          assert Inserted(n) in Pieces(lines) <==> Inserted(n) in Pieces(front);
        }
      }
    }
  }

  lemma LastPiece(lines: seq<string>)
    requires lines != []
    ensures var n := |lines| - 1;
            Pieces(lines) == Pieces(lines[..n])
                             + if !DroppedHunk(lines[n]) then (if IsFileHeader(lines[n]) then [] else [Kept(n)])
                               else if NeedsMark(lines, n) then [Inserted(n)] else []
  {
  }

  lemma {:induction false} PiecesFit(lines: seq<string>)
    ensures |Pieces(lines)| == |Compress(lines)|
    ensures forall i :: 0 <= i < |Pieces(lines)| ==> PieceFits(lines, Compress(lines), Pieces(lines), i)
  {
    if lines != [] {
      var n := |lines| - 1;
      PiecesFit(lines[..n]);
      var pieces, out := Pieces(lines[..n]), Compress(lines[..n]);
      forall i | 0 <= i < |Pieces(lines)|
        ensures PieceFits(lines, Compress(lines), Pieces(lines), i)
      {
        if i < |pieces| { assert PieceFits(lines[..n], out, pieces, i); }
      }
    }
  }

  lemma {:induction false} PiecesKeepSurvivors(lines: seq<string>)
    ensures |Pieces(lines)| == |Compress(lines)|
    ensures KeptPositions(Pieces(lines)) == Positions(lines)
  {
    if lines != [] {
      var n := |lines| - 1;
      PiecesKeepSurvivors(lines[..n]);
      var pieces := Pieces(lines[..n]);
      assert (pieces + [Inserted(n)])[..|pieces|] == pieces && (pieces + [Kept(n)])[..|pieces|] == pieces;
    }
  }

  lemma ElisionSurvives()
    ensures Survives(ELISION) && Survives("")
  {
    assert ELISION[0] == '.' && "diff "[0] == 'd' && "index "[0] == 'i';
    assert "--- "[0] == '-' && "+++ "[0] == '+' && "@@"[0] == '@';
    assert forall prefix :: StartsWith(ELISION, prefix) && prefix != "" ==> prefix[0] == ELISION[0];
  }

  lemma {:induction false} CompressedSurvive(lines: seq<string>)
    ensures forall i :: 0 <= i < |Compress(lines)| ==> Survives(Compress(lines)[i])
  {
    ElisionSurvives();
    if lines != [] { CompressedSurvive(lines[..|lines|-1]); }
  }

  lemma {:induction false} SurvivorsStay(lines: seq<string>)
    requires forall i :: 0 <= i < |lines| ==> Survives(lines[i])
    ensures Compress(lines) == lines
  {
    if lines != [] { SurvivorsStay(lines[..|lines|-1]); }
  }

  lemma {:induction false} CompressedUnbroken(lines: seq<string>)
    requires forall i :: 0 <= i < |lines| ==> Unbroken(lines[i])
    ensures forall i :: 0 <= i < |Compress(lines)| ==> Unbroken(Compress(lines)[i])
  {
    if lines != [] { CompressedUnbroken(lines[..|lines|-1]); }
  }

  function DiffText(content: string): string { Join(Compress(Split(content))) }

  method ProcessDiff(content: string) returns (compressed: string, saved: int)
    ensures compressed == DiffText(content) && saved == |content| - |compressed|
  {
    var lines := Split(content);
    var result: seq<string> := [];
    for n := 0 to |lines|
      invariant result == Compress(lines[..n])
    {
      TakeSnoc(lines, n);
      var line := lines[n];
      if StartsWith(line, "diff ") || StartsWith(line, "index ") || StartsWith(line, "--- ")
        || StartsWith(line, "+++ ") {
        continue;
      }
      if IsHunkHeader(line) {
        if |result| > 0 && result[|result|-1] != "..." { result := result + ["..."]; }
        continue;
      }
      result := result + [line];
    }
    assert lines[..|lines|] == lines;
    compressed := Join(result);
    saved := |content| - |compressed|;
  }

  // Splitting the joined text gives the lines back, up to the one empty line that empty text has.
  lemma SplitOutput(lines: seq<string>)
    requires forall i :: 0 <= i < |lines| ==> Unbroken(lines[i])
    ensures Split(Join(lines)) == if lines == [] then [""] else lines
  {
    if lines != [] { SplitJoin(lines); }
  }

  // Filtering a filtered diff changes nothing.
  lemma DiffFilterIsIdempotent(content: string)
    ensures DiffText(DiffText(content)) == DiffText(content)
  {
    var out := Compress(Split(content));
    LinesAreUnbroken(content);
    CompressedUnbroken(Split(content));
    CompressedSurvive(Split(content));
    SplitOutput(out);
    ElisionSurvives();
    if out == [] {
      SurvivorsStay([""]);
    } else {
      SurvivorsStay(out);
    }
  }

  // ---- Test output ----

  type Pattern = string -> bool

  predicate MatchesAny(patterns: seq<Pattern>, line: string) {
    exists i :: 0 <= i < |patterns| && patterns[i](line)
  }

  // Empty lines and lines of failures or summaries stay; of the others, passing lines go.
  predicate KeepsLine(failures: seq<Pattern>, passes: seq<Pattern>, line: string) {
    line == "" || MatchesAny(failures, line) || !MatchesAny(passes, line)
  }

  function TestText(failures: seq<Pattern>, passes: seq<Pattern>, content: string): string {
    Join(Filter((line: string) => KeepsLine(failures, passes, line), Split(content)))
  }

  // A line goes exactly when it is not empty, reads like no failure, and does read like a pass;
  // the others stay in order.
  lemma TestTextMeans(failures: seq<Pattern>, passes: seq<Pattern>, content: string)
    returns (kept: seq<nat>, lines: seq<string>)
    ensures TestText(failures, passes, content) == Join(lines)
    ensures Picks((line: string) => !Goes(failures, passes, line), Split(content), lines, kept)
  {
    var keeps := (line: string) => KeepsLine(failures, passes, line);
    lines := Filter(keeps, Split(content));
    kept := FilterMeans(keeps, Split(content));
  }

  predicate Goes(failures: seq<Pattern>, passes: seq<Pattern>, line: string) {
    && line != "" && (forall i :: 0 <= i < |failures| ==> !failures[i](line))
    && exists i :: 0 <= i < |passes| && passes[i](line)
  }

  method FirstMatch(patterns: seq<Pattern>, line: string) returns (found: bool)
    ensures found <==> MatchesAny(patterns, line)
  {
    for i := 0 to |patterns|
      invariant forall j :: 0 <= j < i ==> !patterns[j](line)
    {
      if patterns[i](line) { return true; }
    }
    return false;
  }

  method ProcessTest(failures: seq<Pattern>, passes: seq<Pattern>, content: string)
    returns (compressed: string, saved: int)
    ensures compressed == TestText(failures, passes, content) && saved == |content| - |compressed|
  {
    var lines := Split(content);
    var result: seq<string> := [];
    ghost var keeps := (line: string) => KeepsLine(failures, passes, line);
    for n := 0 to |lines|
      invariant result == Filter(keeps, lines[..n])
    {
      TakeSnoc(lines, n);
      var line := lines[n];
      if line == "" {
        result := result + [line];
        continue;
      }
      var keep := FirstMatch(failures, line);
      if keep {
        result := result + [line];
        continue;
      }
      var shouldDrop := FirstMatch(passes, line);
      if !shouldDrop { result := result + [line]; }
    }
    assert lines[..|lines|] == lines;
    compressed := Join(result);
    saved := |content| - |compressed|;
  }

  // Whatever the patterns are, filtering filtered test output changes nothing.
  lemma TestFilterIsIdempotent(failures: seq<Pattern>, passes: seq<Pattern>, content: string)
    ensures TestText(failures, passes, TestText(failures, passes, content)) == TestText(failures, passes, content)
  {
    var keeps := (line: string) => KeepsLine(failures, passes, line);
    var lines := Split(content);
    var out := Filter(keeps, lines);
    LinesAreUnbroken(content);
    forall i | 0 <= i < |out|
      ensures Unbroken(out[i])
    {
      FilterMembers(keeps, lines, out[i]);
    }
    SplitOutput(out);
    FilterFilter(keeps, keeps, lines);
    if out == [] {
      assert [""][..0] == [];
      assert Filter(keeps, [""]) == [""];
    }
  }

  // ---- The summary ----

  // A Go slice from the start of its backing array; its capacity is the array's length.
  datatype Slice = Slice(arr: array<string>, len: nat)

  // append: writes in place while the capacity lasts, else into a fresh array.
  method Append(s: Slice, xs: seq<string>) returns (r: Slice)
    requires s.len <= s.arr.Length
    modifies s.arr
    ensures r.len == s.len + |xs| <= r.arr.Length
    ensures r.arr[..r.len] == old(s.arr[..s.len]) + xs
    ensures if r.len <= s.arr.Length
            then r.arr == s.arr && s.arr[r.len..] == old(s.arr[r.len..])
            else fresh(r.arr) && s.arr[..] == old(s.arr[..])
  {
    var n := s.len + |xs|;
    if n <= s.arr.Length {
      forall i | 0 <= i < |xs| { s.arr[s.len + i] := xs[i]; }
      r := Slice(s.arr, n);
    } else {
      var fresh' := new string[n](i requires 0 <= i < n reads s.arr => if i < s.len then s.arr[i] else xs[i - s.len]);
      r := Slice(fresh', n);
    }
  }

  const MARKERS := ["...", "--- TRUNCATED ---", "..."]

  // What processSummary joins, for more than 20 lines: its last ten lines are read after the
  // markers have overwritten lines 10 to 12 of the shared array.
  function SummaryLines(lines: seq<string>): seq<string>
    requires |lines| > 20
  {
    lines[..10] + MARKERS + (lines[..10] + MARKERS + lines[13..])[|lines|-10..]
  }

  method ProcessSummary(content: string) returns (compressed: string, saved: int)
    ensures |Split(content)| <= 20 ==> compressed == content && saved == 0
    ensures |Split(content)| > 20 ==>
              compressed == Join(SummaryLines(Split(content))) && saved == |content| - |compressed|
  {
    var split := Split(content);
    if |split| <= 20 {
      return content, 0;
    }
    var lines := new string[|split|](i requires 0 <= i < |split| => split[i]);
    assert lines[..] == split;
    var result := Append(Slice(lines, 10), ["...", "--- TRUNCATED ---", "..."]);
    assert lines[..13] == split[..10] + MARKERS;
    assert lines[..] == lines[..13] + lines[13..];
    result := Append(result, lines[lines.Length-10..]);
    assert result.arr[..result.len] == SummaryLines(split);
    compressed := Join(result.arr[..result.len]);
    saved := |content| - |compressed|;
  }

  // What the last ten lines have become once the markers are written.
  lemma TailOfMarked(lines: seq<string>)
    requires |lines| > 20
    ensures var n := |lines|;
            (lines[..10] + MARKERS + lines[13..])[n-10..]
            == if n >= 23 then lines[n-10..] else MARKERS[n-20..] + lines[13..]
  {
    var after := lines[..10] + MARKERS + lines[13..];
    assert forall i :: 13 <= i < |lines| ==> after[i] == lines[i];
    assert forall i :: 10 <= i < 13 ==> after[i] == MARKERS[i-10];
  }

  // The summary is the first ten lines, the markers and the last ten lines exactly from 23
  // lines on, or when the overwritten lines happen to read like the markers.
  lemma SummaryIsHeadAndTail(lines: seq<string>)
    requires |lines| > 20
    ensures SummaryLines(lines) == lines[..10] + MARKERS + lines[|lines|-10..] <==>
              || |lines| >= 23
              || (|lines| == 22 && lines[12] == "...")
              || (|lines| == 21 && lines[11] == "--- TRUNCATED ---" && lines[12] == "...")
    ensures |lines| < 23 ==> SummaryLines(lines) == lines[..10] + MARKERS + (MARKERS[|lines|-20..] + lines[13..])
  {
    var n := |lines|;
    var after := lines[..10] + MARKERS + lines[13..];
    var tail := after[n-10..];
    TailOfMarked(lines);
    var head := lines[..10] + MARKERS;
    assert (head + tail)[13..] == tail && (head + lines[n-10..])[13..] == lines[n-10..];
    if n == 22 {
      assert tail[0] == "..." && lines[n-10..][0] == lines[12];
      assert tail[1..] == lines[13..] == lines[n-10..][1..];
    } else if n == 21 {
      assert tail[0] == "--- TRUNCATED ---" && tail[1] == "...";
      assert lines[n-10..][0] == lines[11] && lines[n-10..][1] == lines[12];
      assert tail[2..] == lines[13..] == lines[n-10..][2..];
    } else {
      assert tail == lines[n-10..];
    }
  }
}
