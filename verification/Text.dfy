/** Splitting text into lines, joining it again, and writing numbers. */
module Text {
  // The text before the first line break, the pieces between breaks, and the rest: never empty.
  function Split(s: string): (lines: seq<string>)
    ensures lines != []
  {
    if s == "" then [""]
    else
      var r := Split(s[..|s|-1]);
      if s[|s|-1] == '\n' then r + [""] else r[|r|-1 := r[|r|-1] + [s[|s|-1]]]
  }

  function CompleteLines(s: string): seq<string> { Split(s)[..|Split(s)|-1] }

  function Tail(s: string): string { Split(s)[|Split(s)|-1] }

  function Join(lines: seq<string>): string {
    if lines == [] then ""
    else if |lines| == 1 then lines[0]
    else Join(lines[..|lines|-1]) + "\n" + lines[|lines|-1]
  }

  function Concat(parts: seq<string>): string {
    if parts == [] then "" else Concat(parts[..|parts|-1]) + parts[|parts|-1]
  }

  lemma ConcatSnoc(parts: seq<string>, last: string)
    ensures Concat(parts + [last]) == Concat(parts) + last
  {
    assert (parts + [last])[..|parts|] == parts;
  }

  lemma SplitSnoc(s: string, c: char)
    ensures CompleteLines(s + [c]) == if c == '\n' then CompleteLines(s) + [Tail(s)] else CompleteLines(s)
    ensures Tail(s + [c]) == if c == '\n' then "" else Tail(s) + [c]
  {
    assert (s + [c])[..|s|] == s;
    var r := Split(s);
    if c == '\n' {
      assert Split(s + [c]) == r + [""];
      assert r == CompleteLines(s) + [Tail(s)];
    }
  }

  // Splitting in two steps, carrying the unfinished line over, is splitting at once.
  lemma {:induction false} SplitCarries(s: string, t: string)
    ensures CompleteLines(s + t) == CompleteLines(s) + CompleteLines(Tail(s) + t)
    ensures Tail(s + t) == Tail(Tail(s) + t)
  {
    if t == "" {
      assert s + t == s && Tail(s) + t == Tail(s);
      TailIsUnbroken(s);
      UnbrokenIsTail(Tail(s));
    } else {
      var front, c := t[..|t|-1], t[|t|-1];
      SplitCarries(s, front);
      CarryOne(CompleteLines(s), s + front, Tail(s) + front, c);
      assert s + t == (s + front) + [c] && Tail(s) + t == (Tail(s) + front) + [c];
    }
  }

  lemma CarryOne(head: seq<string>, a: string, b: string, c: char)
    requires CompleteLines(a) == head + CompleteLines(b) && Tail(a) == Tail(b)
    ensures CompleteLines(a + [c]) == head + CompleteLines(b + [c]) && Tail(a + [c]) == Tail(b + [c])
  {
    SplitSnoc(a, c);
    SplitSnoc(b, c);
  }

  predicate Unbroken(s: string) { forall i :: 0 <= i < |s| ==> s[i] != '\n' }

  lemma {:induction false} TailIsUnbroken(s: string)
    ensures Unbroken(Tail(s))
  {
    if s != "" {
      TailIsUnbroken(s[..|s|-1]);
      SplitSnoc(s[..|s|-1], s[|s|-1]);
      assert s == s[..|s|-1] + [s[|s|-1]];
    }
  }

  lemma {:induction false} UnbrokenIsTail(s: string)
    requires Unbroken(s)
    ensures CompleteLines(s) == [] && Tail(s) == s && Split(s) == [s]
  {
    if s != "" {
      UnbrokenIsTail(s[..|s|-1]);
      SplitSnoc(s[..|s|-1], s[|s|-1]);
      assert s == s[..|s|-1] + [s[|s|-1]];
    }
    assert Split(s) == CompleteLines(s) + [Tail(s)];
  }

  lemma {:induction false} LinesAreUnbroken(s: string)
    ensures forall i :: 0 <= i < |Split(s)| ==> Unbroken(Split(s)[i])
  {
    if s != "" {
      LinesAreUnbroken(s[..|s|-1]);
    }
  }

  // Splitting undoes joining on lines without breaks, and joining undoes splitting on any text.
  lemma {:induction false} SplitJoin(lines: seq<string>)
    requires lines != [] && forall i :: 0 <= i < |lines| ==> Unbroken(lines[i])
    ensures Split(Join(lines)) == lines
  {
    var last := lines[|lines|-1];
    UnbrokenIsTail(last);
    if |lines| > 1 {
      var front := lines[..|lines|-1];
      SplitJoin(front);
      SplitLine(Join(front), last);
      assert front + [last] == lines;
    }
  }

  lemma SplitLine(s: string, line: string)
    requires Unbroken(line)
    ensures Split(s + "\n" + line) == Split(s) + [line]
  {
    SplitSnoc(s, '\n');
    SplitAtBreak(s + "\n", line);
    SplitParts(s + "\n" + line);
    SplitParts(s);
  }

  lemma SplitAtBreak(t: string, line: string)
    requires Tail(t) == "" && Unbroken(line)
    ensures CompleteLines(t + line) == CompleteLines(t) && Tail(t + line) == line
  {
    SplitCarries(t, line);
    assert "" + line == line;
    UnbrokenIsTail(line);
  }

  lemma SplitParts(s: string)
    ensures Split(s) == CompleteLines(s) + [Tail(s)]
  {
  }

  lemma {:induction false} JoinSplit(s: string)
    ensures Join(Split(s)) == s
  {
    if s != "" {
      var front, c := s[..|s|-1], s[|s|-1];
      JoinSplit(front);
      var r := Split(front);
      if c == '\n' {
        assert (r + [""])[..|r|] == r;
        assert Join(r + [""]) == Join(r) + "\n" + "";
      } else {
        var r' := r[|r|-1 := r[|r|-1] + [c]];
        assert r'[..|r'|-1] == r[..|r|-1];
        assert Join(r') == Join(r) + [c];
      }
    }
  }

  lemma LineBlock(line: string)
    requires Unbroken(line)
    ensures CompleteLines(line + "\n") == [line] && Tail(line + "\n") == ""
  {
    UnbrokenIsTail(line);
    SplitSnoc(line, '\n');
  }

  // Text that ends with a break splits on its own.
  lemma BlockLines(block: string, rest: string)
    requires Tail(block) == ""
    ensures CompleteLines(block + rest) == CompleteLines(block) + CompleteLines(rest)
    ensures Tail(block + rest) == Tail(rest)
  {
    SplitCarries(block, rest);
    assert "" + rest == rest;
  }

  function Digit(n: nat): char
    requires n < 10
  {
    ['0', '1', '2', '3', '4', '5', '6', '7', '8', '9'][n]
  }

  function Decimal(n: nat): string {
    if n < 10 then [Digit(n)] else Decimal(n / 10) + [Digit(n % 10)]
  }

  // The number that decimal digits stand for.
  function ValueOf(digits: string): int {
    if digits == "" then 0 else 10 * ValueOf(digits[..|digits|-1]) + (digits[|digits|-1] as int - '0' as int)
  }

  // A number is written as the digits that stand for it, without leading zeros.
  lemma {:induction false} DecimalMeans(n: nat)
    ensures ValueOf(Decimal(n)) == n && Decimal(n) != ""
    ensures forall i :: 0 <= i < |Decimal(n)| ==> '0' <= Decimal(n)[i] <= '9'
    ensures n > 0 ==> Decimal(n)[0] != '0'
    ensures n == 0 ==> Decimal(n) == "0"
  {
    if n < 10 {
      assert Decimal(n)[..0] == "";
    } else {
      DecimalMeans(n / 10);
      assert Decimal(n)[..|Decimal(n)|-1] == Decimal(n / 10);
    }
  }

  lemma {:induction false} DecimalIsUnbroken(n: nat)
    ensures Unbroken(Decimal(n))
  {
    if n >= 10 { DecimalIsUnbroken(n / 10); }
  }
}
