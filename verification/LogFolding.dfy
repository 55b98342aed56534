/** The log compressor: equal neighbouring lines are folded into one line with a count. */
module LogFolding {
  import opened Sequences
  import opened Text

  datatype Run = Run(line: string, count: nat)

  // The runs of a list of lines.
  function Runs(lines: seq<string>): seq<Run> {
    if lines == [] then [] else Extend(Runs(lines[..|lines|-1]), lines[|lines|-1])
  }

  function Extend(runs: seq<Run>, line: string): seq<Run> {
    if runs != [] && runs[|runs|-1].line == line
    then runs[..|runs|-1] + [Run(line, runs[|runs|-1].count + 1)]
    else runs + [Run(line, 1)]
  }

  function Repeat(line: string, n: nat): seq<string> {
    if n == 0 then [] else Repeat(line, n - 1) + [line]
  }

  function Expand(runs: seq<Run>): seq<string> {
    if runs == [] then []
    else Expand(runs[..|runs|-1]) + Repeat(runs[|runs|-1].line, runs[|runs|-1].count)
  }

  // No run is empty and neighbouring runs differ.
  ghost predicate Canonical(runs: seq<Run>) {
    && (forall i :: 0 <= i < |runs| ==> runs[i].count >= 1)
    && (forall i :: 0 < i < |runs| ==> runs[i-1].line != runs[i].line)
  }

  lemma RunsAreCanonical(lines: seq<string>)
    ensures Canonical(Runs(lines)) && Expand(Runs(lines)) == lines
  {
    RunsAreSeparated(lines);
    RunsExpand(lines);
  }

  lemma {:induction false} RunsAreSeparated(lines: seq<string>)
    ensures Canonical(Runs(lines))
  {
    if lines != [] {
      RunsAreSeparated(lines[..|lines|-1]);
      ExtendIsCanonical(Runs(lines[..|lines|-1]), lines[|lines|-1]);
    }
  }

  lemma {:induction false} RunsExpand(lines: seq<string>)
    ensures Expand(Runs(lines)) == lines
  {
    if lines != [] {
      RunsExpand(lines[..|lines|-1]);
      ExpandExtend(Runs(lines[..|lines|-1]), lines[|lines|-1]);
    }
  }

  lemma ExtendIsCanonical(runs: seq<Run>, line: string)
    requires Canonical(runs)
    ensures Canonical(Extend(runs, line))
  {
  }

  lemma ExpandSnoc(runs: seq<Run>, r: Run)
    ensures Expand(runs + [r]) == Expand(runs) + Repeat(r.line, r.count)
  {
    assert (runs + [r])[..|runs|] == runs;
  }

  lemma ExpandExtend(runs: seq<Run>, line: string)
    ensures Expand(Extend(runs, line)) == Expand(runs) + [line]
  {
    if runs != [] && runs[|runs|-1].line == line {
      var front, n := runs[..|runs|-1], runs[|runs|-1].count;
      ExpandSnoc(front, Run(line, n + 1));
      assert Repeat(line, n + 1) == Repeat(line, n) + [line];
      assert Expand(front) + (Repeat(line, n) + [line]) == (Expand(front) + Repeat(line, n)) + [line];
    } else {
      ExpandSnoc(runs, Run(line, 1));
      assert Repeat(line, 1) == Repeat(line, 0) + [line] == [line];
    }
  }

  lemma RunsSnoc(lines: seq<string>, line: string)
    ensures Runs(lines + [line]) == Extend(Runs(lines), line)
  {
    assert (lines + [line])[..|lines|] == lines;
  }

  // The runs after the same line comes n more times.
  function Lengthen(runs: seq<Run>, line: string, n: nat): seq<Run> {
    if n == 0 then runs
    else if runs != [] && runs[|runs|-1].line == line
    then runs[..|runs|-1] + [Run(line, runs[|runs|-1].count + n)]
    else runs + [Run(line, n)]
  }

  lemma {:induction false} RunsRepeat(lines: seq<string>, line: string, n: nat)
    ensures Runs(lines + Repeat(line, n)) == Lengthen(Runs(lines), line, n)
  {
    if n == 0 {
      assert lines + Repeat(line, 0) == lines;
    } else {
      RunsRepeat(lines, line, n - 1);
      RunsRepeatStep(lines, line, n, Runs(lines));
    }
  }

  lemma RunsRepeatStep(lines: seq<string>, line: string, n: nat, runs: seq<Run>)
    requires n > 0 && Runs(lines + Repeat(line, n - 1)) == Lengthen(runs, line, n - 1)
    ensures Runs(lines + Repeat(line, n)) == Lengthen(runs, line, n)
  {
    RepeatSnoc(lines, line, n);
    RunsSnoc(lines + Repeat(line, n - 1), line);
    LengthenOnce(runs, line, n);
  }

  lemma RepeatSnoc(lines: seq<string>, line: string, n: nat)
    requires n > 0
    ensures lines + Repeat(line, n) == (lines + Repeat(line, n - 1)) + [line]
  {
  }

  lemma LengthenOnce(runs: seq<Run>, line: string, n: nat)
    requires n > 0
    ensures Extend(Lengthen(runs, line, n - 1), line) == Lengthen(runs, line, n)
  {
    if runs != [] && runs[|runs|-1].line == line {
      ExtendLast(runs[..|runs|-1], Run(line, runs[|runs|-1].count + n - 1));
      assert n == 1 ==> runs == runs[..|runs|-1] + [runs[|runs|-1]];
    } else if n > 1 {
      ExtendLast(runs, Run(line, n - 1));
    }
  }

  lemma ExtendLast(front: seq<Run>, r: Run)
    ensures Extend(front + [r], r.line) == front + [Run(r.line, r.count + 1)]
  {
    assert (front + [r])[..|front|] == front;
  }

  // No run list that expands to the same lines is shorter.
  lemma {:induction false} RunsAreShortest(runs: seq<Run>)
    ensures |Runs(Expand(runs))| <= |runs|
  {
    if runs != [] {
      RunsAreShortest(runs[..|runs|-1]);
      RunsRepeat(Expand(runs[..|runs|-1]), runs[|runs|-1].line, runs[|runs|-1].count);
    }
  }

  // The runs are the only canonical list that expands to the lines.
  lemma {:induction false} RunsAreUnique(runs: seq<Run>)
    requires Canonical(runs)
    ensures Runs(Expand(runs)) == runs
  {
    if runs != [] {
      var front, last := runs[..|runs|-1], runs[|runs|-1];
      FrontIsCanonical(runs);
      RunsAreUnique(front);
      RunsRepeat(Expand(front), last.line, last.count);
    }
  }

  lemma FrontIsCanonical(runs: seq<Run>)
    requires runs != [] && Canonical(runs)
    ensures Canonical(runs[..|runs|-1])
    ensures Lengthen(runs[..|runs|-1], runs[|runs|-1].line, runs[|runs|-1].count) == runs
  {
    var n := |runs| - 1;
    assert runs == runs[..n] + [runs[n]];
    if n > 0 { assert runs[n-1].line != runs[n].line; }
  }

  // ---- Text ----

  function FormatRun(r: Run): string {
    if r.count > 1 then r.line + " (x" + Decimal(r.count) + ")" else r.line
  }

  function FoldLines(lines: seq<string>): seq<string> { Map(FormatRun, Runs(lines)) }

  function Folded(content: string): string { Join(FoldLines(Split(content))) }

  // The folded text and the number of characters saved.
  method ProcessLog(content: string) returns (compressed: string, saved: int)
    ensures compressed == Folded(content)
    ensures saved == |content| - |compressed|
  {
    var lines := Split(content);
    var result: seq<string> := [];
    ghost var runs: seq<Run> := [];
    var count := 1;
    var lastLine := lines[0];
    assert lines[..1] == [lines[0]] && [lines[0]][..0] == [];
    for i := 1 to |lines|
      invariant count >= 1 && Runs(lines[..i]) == runs + [Run(lastLine, count)]
      invariant result == Map(FormatRun, runs)
    {
      assert lines[..i+1] == lines[..i] + [lines[i]];
      RunsSnoc(lines[..i], lines[i]);
      if lines[i] == lastLine {
        count := count + 1;
      } else {
        MapSnoc(FormatRun, runs, Run(lastLine, count));
        if count > 1 {
          result := result + [lastLine + " (x" + Decimal(count) + ")"];
        } else {
          result := result + [lastLine];
        }
        runs := runs + [Run(lastLine, count)];
        lastLine := lines[i];
        count := 1;
      }
    }
    assert lines[..|lines|] == lines;
    MapSnoc(FormatRun, runs, Run(lastLine, count));
    if count > 1 {
      result := result + [lastLine + " (x" + Decimal(count) + ")"];
    } else {
      result := result + [lastLine];
    }
    compressed := Join(result);
    saved := |content| - |compressed|;
  }

  // A line that reads like a folded one.
  ghost predicate LooksFolded(line: string) {
    exists r: Run :: r.count > 1 && line == FormatRun(r)
  }

  lemma FoldedRunInjective(r: Run, r': Run)
    requires r.count > 1 && r'.count > 1 && FormatRun(r) == FormatRun(r')
    ensures r == r'
  {
    var s := FormatRun(r);
    var d, d' := Decimal(r.count), Decimal(r'.count);
    LastMark(r, s);
    LastMark(r', s);
    assert |d| == |d'|;
    assert r.line == s[..|s|-|d|-4] == r'.line;
    assert d == s[|s|-|d|-1..|s|-1] == d';
    DecimalMeans(r.count);
    DecimalMeans(r'.count);
  }

  // The x of the count is the last one in a folded line.
  lemma LastMark(r: Run, s: string)
    requires r.count > 1 && s == FormatRun(r)
    ensures var p := |s| - |Decimal(r.count)| - 2; p >= 0 && s[p] == 'x' && forall i :: p < i < |s| ==> s[i] != 'x'
  {
    var d := Decimal(r.count);
    DecimalMeans(r.count);
    var p := |s| - |d| - 2;
    assert s == (r.line + " (x") + d + ")";
    forall i | p < i < |s|
      ensures s[i] != 'x'
    {
      if i < |s| - 1 { assert s[i] == d[i-p-1]; }
    }
  }

  // One of two runs is folded and the other is a single line that reads like it.
  ghost predicate Alike(r: Run, r': Run) {
    || r == r'
    || (r.count > 1 && r' == Run(FormatRun(r), 1))
    || (r'.count > 1 && r == Run(FormatRun(r'), 1))
  }

  ghost predicate AllAlike(runs: seq<Run>, runs': seq<Run>) {
    |runs| == |runs'| && forall i :: 0 <= i < |runs| ==> Alike(runs[i], runs'[i])
  }

  lemma FormatAlike(r: Run, r': Run)
    requires r.count >= 1 && r'.count >= 1
    ensures FormatRun(r) == FormatRun(r') <==> Alike(r, r')
  {
    if FormatRun(r) == FormatRun(r') && r.count > 1 && r'.count > 1 {
      FoldedRunInjective(r, r');
    }
  }

  // Two texts fold to the same if and only if their runs are pairwise equal, or one a folded
  // run and the other a single line that reads like it.
  lemma FoldAlikeIff(content: string, content': string)
    ensures Folded(content) == Folded(content') <==> AllAlike(Runs(Split(content)), Runs(Split(content')))
  {
    var runs, runs' := Runs(Split(content)), Runs(Split(content'));
    FoldUnbroken(content);
    FoldUnbroken(content');
    SplitJoin(FoldLines(Split(content)));
    SplitJoin(FoldLines(Split(content')));
    RunLines(Split(content));
    RunLines(Split(content'));
    SameFormats(runs, runs');
  }

  lemma SameFormats(runs: seq<Run>, runs': seq<Run>)
    requires forall i :: 0 <= i < |runs| ==> runs[i].count >= 1
    requires forall i :: 0 <= i < |runs'| ==> runs'[i].count >= 1
    ensures Map(FormatRun, runs) == Map(FormatRun, runs') <==> AllAlike(runs, runs')
  {
    var m, m' := Map(FormatRun, runs), Map(FormatRun, runs');
    forall i | 0 <= i < |runs| && i < |runs'|
      ensures m[i] == m'[i] <==> Alike(runs[i], runs'[i])
    {
      FormatAlike(runs[i], runs'[i]);
    }
  }

  // So on texts without lines that already read like folded ones, folding loses nothing.
  lemma FoldingIsLossless(content: string, content': string)
    requires forall i :: 0 <= i < |Split(content)| ==> !LooksFolded(Split(content)[i])
    requires forall i :: 0 <= i < |Split(content')| ==> !LooksFolded(Split(content')[i])
    requires Folded(content) == Folded(content')
    ensures content == content'
  {
    var runs, runs' := Runs(Split(content)), Runs(Split(content'));
    FoldAlikeIff(content, content');
    RunLines(Split(content));
    RunLines(Split(content'));
    forall i | 0 <= i < |runs|
      ensures runs[i] == runs'[i]
    {
      assert Alike(runs[i], runs'[i]);
      assert runs[i].count > 1 ==> LooksFolded(FormatRun(runs[i]));
      assert runs'[i].count > 1 ==> LooksFolded(FormatRun(runs'[i]));
    }
    assert runs == runs';
    RunsAreCanonical(Split(content));
    RunsAreCanonical(Split(content'));
    JoinSplit(content);
    JoinSplit(content');
  }

  // Every run is of a line of the text.
  lemma RunLines(lines: seq<string>)
    ensures forall i :: 0 <= i < |Runs(lines)| ==>
              Runs(lines)[i].count >= 1 && exists j :: 0 <= j < |lines| && lines[j] == Runs(lines)[i].line
  {
    RunsAreCanonical(lines);
    forall i | 0 <= i < |Runs(lines)|
      ensures exists j :: 0 <= j < |lines| && lines[j] == Runs(lines)[i].line
    {
      ExpandHas(Runs(lines), i);
    }
  }

  lemma {:induction false} ExpandHas(runs: seq<Run>, i: nat)
    requires i < |runs| && runs[i].count >= 1
    ensures runs[i].line in Expand(runs)
  {
    if i < |runs| - 1 {
      ExpandHas(runs[..|runs|-1], i);
    } else {
      assert Repeat(runs[i].line, runs[i].count)[runs[i].count - 1] == runs[i].line by {
        RepeatSize(runs[i].line, runs[i].count - 1);
      }
    }
  }

  lemma {:induction false} RepeatSize(line: string, n: nat)
    ensures |Repeat(line, n)| == n
  {
    if n > 0 { RepeatSize(line, n - 1); }
  }

  lemma FoldUnbroken(content: string)
    ensures FoldLines(Split(content)) != []
    ensures forall i :: 0 <= i < |FoldLines(Split(content))| ==> Unbroken(FoldLines(Split(content))[i])
  {
    var lines := Split(content);
    LinesAreUnbroken(content);
    RunLines(lines);
    RunsAreCanonical(lines);
    forall i | 0 <= i < |FoldLines(lines)|
      ensures Unbroken(FoldLines(lines)[i])
    {
      FormatUnbroken(Runs(lines)[i]);
    }
  }

  lemma FormatUnbroken(r: Run)
    requires Unbroken(r.line)
    ensures Unbroken(FormatRun(r))
  {
    DecimalIsUnbroken(r.count);
  }

  // A text of one line folds to itself, and another text does so too exactly when that line
  // reads like a folded one.
  lemma SecondTextIff(line: string)
    requires Unbroken(line)
    ensures Folded(line) == line
    ensures (exists content :: content != line && Folded(content) == line) <==> LooksFolded(line)
  {
    UnbrokenIsTail(line);
    OneRun(line, 1);
    assert FoldLines([line]) == [line];
    if LooksFolded(line) {
      Unfolded(line);
    }
    if exists content :: content != line && Folded(content) == line {
      var content :| content != line && Folded(content) == line;
      OtherRunIsFolded(content, line);
    }
  }

  lemma OneRun(line: string, n: nat)
    requires n > 0
    ensures Runs(Repeat(line, n)) == [Run(line, n)] && (n == 1 ==> Repeat(line, n) == [line])
  {
    RunsRepeat([], line, n);
    assert [] + Repeat(line, n) == Repeat(line, n);
    assert n == 1 ==> Repeat(line, n) == Repeat(line, 0) + [line];
  }

  // The lines that a folded line stands for.
  lemma Unfolded(line: string)
    requires Unbroken(line) && LooksFolded(line)
    ensures exists content :: content != line && Folded(content) == line
  {
    var r: Run :| r.count > 1 && line == FormatRun(r);
    assert r.line == line[..|r.line|];
    var lines := Repeat(r.line, r.count);
    RepeatSize(r.line, r.count);
    RepeatHas(r.line, r.count);
    var content := Join(lines);
    SplitJoin(lines);
    UnbrokenIsTail(line);
    OneRun(r.line, r.count);
    assert FoldLines(lines) == [line];
    assert |Split(content)| > 1 == |Split(line)|;
    assert content != line && Folded(content) == line;
  }

  lemma {:induction false} RepeatHas(line: string, n: nat)
    ensures forall i :: 0 <= i < |Repeat(line, n)| ==> Repeat(line, n)[i] == line
  {
    if n > 0 { RepeatHas(line, n - 1); }
  }

  lemma OtherRunIsFolded(content: string, line: string)
    requires Unbroken(line) && content != line && Folded(content) == line
    ensures LooksFolded(line)
  {
    var runs := Runs(Split(content));
    FoldUnbroken(content);
    SplitJoin(FoldLines(Split(content)));
    UnbrokenIsTail(line);
    assert FoldLines(Split(content)) == [line];
    assert [line][0] == FormatRun(runs[0]);
    RunLines(Split(content));
    assert Join([line]) == line;
    if runs[0].count == 1 {
      assert runs == [Run(line, 1)];
      RunsAreCanonical(Split(content));
      RunsAreCanonical([line]);
      OneRun(line, 1);
      JoinSplit(content);
    }
  }

  // For instance, two lines "a" and the one line they fold to.
  lemma FoldingMayLose()
    ensures exists a: string, b: string :: a != b && Folded(a) == Folded(b)
  {
    var line := FormatRun(Run("a", 2));
    FormatUnbroken(Run("a", 2));
    assert LooksFolded(line);
    SecondTextIff(line);
    var content :| content != line && Folded(content) == line;
  }

  // The folded text has one line for each run: the line alone, or with the length of the run.
  lemma FoldedMeans(content: string) returns (runs: seq<Run>)
    ensures Canonical(runs) && Expand(runs) == Split(content)
    ensures Folded(content)
         == Join(Map((r: Run) => if r.count == 1 then r.line else r.line + " (x" + Decimal(r.count) + ")", runs))
  {
    runs := Runs(Split(content));
    RunsAreCanonical(Split(content));
    assert FoldLines(Split(content))
        == Map((r: Run) => if r.count == 1 then r.line else r.line + " (x" + Decimal(r.count) + ")", runs);
  }
}
