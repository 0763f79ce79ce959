/** `quote` and `indentBy` of src/text.ts. */
module Text {
  import opened Js

  /** `quote(s)`: `s` between double quotes. */
  function Quote(s: string): (r: string)
    ensures |r| == |s| + 2
    ensures r[0] == '"' && r[|r| - 1] == '"'
    ensures r[1..|r| - 1] == s
  {
    "\"" + s + "\""
  }

  /** One line of `indentBy(n)`: empty lines stay empty, others get `n` spaces in front. */
  function IndentLine(n: nat, line: string): string
  {
    if line == "" then "" else Spaces(n) + line
  }

  /** `IndentLine` applied to every line. */
  function IndentLines(n: nat, lines: seq<string>): (r: seq<string>)
    ensures |r| == |lines|
    ensures forall k :: 0 <= k < |lines| ==> r[k] == IndentLine(n, lines[k])
  {
    seq(|lines|, k requires 0 <= k < |lines| => IndentLine(n, lines[k]))
  }

  /** `indentBy(n)(s)`: split at `\n`, indent every non-empty line, join again. */
  function IndentBy(n: nat, s: string): string
  {
    Join(IndentLines(n, Split(s, '\n')), "\n")
  }

  lemma IndentLinesAppend(n: nat, a: seq<string>, b: seq<string>)
    ensures IndentLines(n, a + b) == IndentLines(n, a) + IndentLines(n, b)
  {
  }

  /** Indenting never adds a line break to a line. */
  lemma IndentLinesHaveNoBreak(n: nat, lines: seq<string>)
    requires forall k :: 0 <= k < |lines| ==> '\n' !in lines[k]
    ensures forall k :: 0 <= k < |lines| ==> '\n' !in IndentLines(n, lines)[k]
  {
    forall k | 0 <= k < |lines| ensures '\n' !in IndentLines(n, lines)[k] {
      if lines[k] != "" {
        assert IndentLines(n, lines)[k] == Spaces(n) + lines[k];
      }
    }
  }

  /**
   * The lines of `indentBy(n)(s)` are the lines of `s`, each indented:
   * as many lines as before, empty ones left empty, the others behind `n` spaces.
   */
  lemma {:induction false} IndentByLines(n: nat, s: string)
    ensures Split(IndentBy(n, s), '\n') == IndentLines(n, Split(s, '\n'))
    ensures |Split(IndentBy(n, s), '\n')| == |Split(s, '\n')|
    ensures forall k :: 0 <= k < |Split(s, '\n')| && Split(s, '\n')[k] == "" ==>
      Split(IndentBy(n, s), '\n')[k] == ""
    ensures forall k :: 0 <= k < |Split(s, '\n')| && Split(s, '\n')[k] != "" ==>
      Split(IndentBy(n, s), '\n')[k] == Spaces(n) + Split(s, '\n')[k]
      && Split(IndentBy(n, s), '\n')[k][n..] == Split(s, '\n')[k]
  {
    var lines := Split(s, '\n');
    IndentLinesHaveNoBreak(n, lines);
    SplitJoin(IndentLines(n, lines), '\n');
    forall k | 0 <= k < |lines| && lines[k] != ""
      ensures (Spaces(n) + lines[k])[n..] == lines[k]
    {
    }
  }

  /** `indentBy(0)` is the identity. */
  lemma {:induction false} IndentByZero(s: string)
    ensures IndentBy(0, s) == s
  {
    var lines := Split(s, '\n');
    forall k | 0 <= k < |lines| ensures IndentLine(0, lines[k]) == lines[k] {
      assert Spaces(0) + lines[k] == lines[k];
    }
    assert IndentLines(0, lines) == lines;
    JoinSplit(s, '\n');
  }

  /** Indenting by `b` and then by `a` is indenting by `a + b`. */
  lemma {:induction false} IndentByCompose(a: nat, b: nat, s: string)
    ensures IndentBy(a, IndentBy(b, s)) == IndentBy(a + b, s)
  {
    var lines := Split(s, '\n');
    IndentByLines(b, s);
    forall k | 0 <= k < |lines|
      ensures IndentLine(a, IndentLine(b, lines[k])) == IndentLine(a + b, lines[k])
    {
      if lines[k] != "" {
        assert Spaces(a) + (Spaces(b) + lines[k]) == Spaces(a + b) + lines[k];
      }
    }
    assert IndentLines(a, IndentLines(b, lines)) == IndentLines(a + b, lines);
  }

  /** Indenting adds only spaces: any other character that is not a line break occurs as often as before. */
  lemma IndentByCount(c: char, n: nat, s: string)
    requires c != ' ' && c != '\n'
    ensures Count(c, IndentBy(n, s)) == Count(c, s)
  {
    var lines := Split(s, '\n');
    CountAbsent(c, "\n");
    CountJoin(c, IndentLines(n, lines), "\n");
    CountJoin(c, lines, "\n");
    JoinSplit(s, '\n');
    IndentLinesCount(c, n, lines);
  }

  lemma {:induction false} IndentLinesCount(c: char, n: nat, lines: seq<string>)
    requires c != ' '
    ensures CountAll(c, IndentLines(n, lines)) == CountAll(c, lines)
  {
    if lines != [] {
      IndentLinesCount(c, n, lines[1..]);
      assert IndentLines(n, lines)[1..] == IndentLines(n, lines[1..]);
      if lines[0] != "" {
        CountAppend(c, Spaces(n), lines[0]);
        CountAbsent(c, Spaces(n));
      }
    }
  }

  /**
   * Lines each followed by a line break: indenting the text indents each
   * line and keeps the breaks.
   */
  function Terminated(lines: seq<string>): string
  {
    if lines == [] then "" else lines[0] + "\n" + Terminated(lines[1..])
  }

  lemma {:induction false} TerminatedAppend(a: seq<string>, b: seq<string>)
    ensures Terminated(a + b) == Terminated(a) + Terminated(b)
  {
    if a != [] {
      TerminatedAppend(a[1..], b);
      assert (a + b)[1..] == a[1..] + b;
    } else {
      assert a + b == b;
    }
  }

  /** Break-free lines, the last of them followed by a break, make `Join(lines, "\n") + "\n"`. */
  lemma {:induction false} TerminatedNonEmpty(lines: seq<string>)
    requires lines != []
    ensures Terminated(lines) == Join(lines, "\n") + "\n"
  {
    if |lines| > 1 {
      TerminatedNonEmpty(lines[1..]);
    }
  }

  lemma {:induction false} TerminatedIsJoin(lines: seq<string>)
    ensures Terminated(lines) == Join(lines + [""], "\n")
  {
    if lines != [] {
      TerminatedIsJoin(lines[1..]);
      assert (lines + [""])[1..] == lines[1..] + [""];
    }
  }

  /** Indenting text joined from break-free lines indents each line. */
  lemma IndentByJoin(n: nat, parts: seq<string>)
    requires |parts| >= 1
    requires forall k :: 0 <= k < |parts| ==> '\n' !in parts[k]
    ensures IndentBy(n, Join(parts, "\n")) == Join(IndentLines(n, parts), "\n")
  {
    SplitJoin(parts, '\n');
  }

  lemma IndentTerminated(n: nat, lines: seq<string>)
    requires forall k :: 0 <= k < |lines| ==> '\n' !in lines[k]
    ensures IndentBy(n, Terminated(lines)) == Terminated(IndentLines(n, lines))
  {
    NoBreakWithBlank(lines);
    TerminatedIsJoin(lines);
    IndentByJoin(n, lines + [""]);
    IndentLinesWithBlank(n, lines);
    TerminatedIsJoin(IndentLines(n, lines));
  }

  lemma NoBreakWithBlank(lines: seq<string>)
    requires forall k :: 0 <= k < |lines| ==> '\n' !in lines[k]
    ensures forall k :: 0 <= k < |lines + [""]| ==> '\n' !in (lines + [""])[k]
  {
    forall k | 0 <= k < |lines + [""]| ensures '\n' !in (lines + [""])[k] {
      if k < |lines| {
        assert (lines + [""])[k] == lines[k];
      }
    }
  }

  lemma IndentLinesWithBlank(n: nat, lines: seq<string>)
    ensures IndentLines(n, lines + [""]) == IndentLines(n, lines) + [""]
  {
    IndentLinesAppend(n, lines, [""]);
    assert IndentLines(n, [""]) == [""];
  }
}
