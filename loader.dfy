/**
 * The reporting half of src/loader.ts: the text of a report for one rule's
 * restricted imports, and the loop that hands each rule's report to the host
 * as a fatal error, an error or a warning.
 */
module Loader {
  import opened Js
  import opened Text
  import opened Utilities

  /** `DEFAULT.info` */
  const DefaultInfo: string := "Found restricted imports:"

  /** `DEFAULT.detailedErrorMessages` */
  const DefaultDetailedErrorMessages: bool := true

  /** `Severity`: a closed set of three, so no other value can reach the dispatch. */
  datatype Severity = Fatal | Error | Warning

  /**
   * One restricted import as the scanner hands it to the loader: the path,
   * its 1-based line, the text of the statement it was found in and the
   * decider's optional explanation.
   */
  datatype RestrictedImport = RestrictedImport(path: string, line: nat, statementText: string, info: Option<string>)

  /** A rule without its decider (the scanner has already applied it): optional severity and info. */
  datatype Rule = Rule(severity: Option<Severity>, info: Option<string>)

  /** The options the loader reads once they have been validated. */
  datatype LoaderOptions = LoaderOptions(detailedErrorMessages: Option<bool>, severity: Severity, rules: seq<Rule>)

  /** The outcome handed to the host's completion callback: an error or none, and the unchanged source. */
  datatype Completion = Completion(err: Option<string>, source: string)

  /** Whether `i.info` is truthy: present and not the empty string. */
  predicate HasInfo(i: RestrictedImport)
  {
    i.info.Some? && i.info.value != ""
  }

  /** The head of a bullet: `• "<path>", imported on line <n>`. */
  function Bullet(i: RestrictedImport): string
  {
    "• " + Quote(i.path) + ", imported on line " + DecimalString(i.line)
  }

  /** The info part of the details: the info indented by 2 and a blank line, when there is info. */
  function InfoBlock(i: RestrictedImport): string
  {
    if HasInfo(i) then IndentBy(2, i.info.value) + "\n\n" else ""
  }

  /** The lines of the info block (none without info). */
  function InfoLines(i: RestrictedImport): seq<string>
  {
    if HasInfo(i) then IndentLines(2, Split(i.info.value, '\n')) + [""] else []
  }

  /** `details(i)` inside `errorMessage`: the statement and the info, or nothing. */
  function Details(setParentNodesWasUsed: bool, i: RestrictedImport): string
  {
    if setParentNodesWasUsed then
      Join([ ":",
             "",
             IndentBy(6, i.statementText),
             "",
             InfoBlock(i) ], "\n")
    else ""
  }

  /** `errorMessage(setParentNodesWasUsed)(i)`: one bullet. */
  function ErrorMessage(setParentNodesWasUsed: bool, i: RestrictedImport): string
  {
    Bullet(i) + Details(setParentNodesWasUsed, i) + "\n"
  }

  /** `imports.map(errorMessage(setParentNodesWasUsed)).join("")` */
  function ErrorMessages(setParentNodesWasUsed: bool, imports: seq<RestrictedImport>): string
  {
    Join(seq(|imports|, k requires 0 <= k < |imports| => ErrorMessage(setParentNodesWasUsed, imports[k])), "")
  }

  /** `errorMessageForAll(imports, info, setParentNodesWasUsed)`: the whole report. */
  function ErrorMessageForAll(imports: seq<RestrictedImport>, info: string, setParentNodesWasUsed: bool): string
  {
    Join([ info,
           "",
           TrimEnd(IndentBy(2, ErrorMessages(setParentNodesWasUsed, imports))),
           "",
           "" ], "\n")
  }

  /**
   * The report is the info, a blank line, the indented bullets without
   * trailing whitespace, and a final blank line: it always begins with
   * `info + "\n\n"` and ends with `"\n\n"`.
   */
  lemma MessageShape(imports: seq<RestrictedImport>, info: string, setParentNodesWasUsed: bool)
    ensures var body := TrimEnd(IndentBy(2, ErrorMessages(setParentNodesWasUsed, imports)));
      ErrorMessageForAll(imports, info, setParentNodesWasUsed) == info + "\n\n" + body + "\n\n"
    ensures var m := ErrorMessageForAll(imports, info, setParentNodesWasUsed);
      |m| >= |info| + 4 && m[..|info| + 2] == info + "\n\n" && m[|m| - 2..] == "\n\n"
  {
    var body := TrimEnd(IndentBy(2, ErrorMessages(setParentNodesWasUsed, imports)));
    var nl := "\n";
    calc {
      ErrorMessageForAll(imports, info, setParentNodesWasUsed);
      Join([info, "", body, "", ""], nl);
      { JoinFive(info, "", body, "", "", nl); }
      info + nl + "" + nl + body + nl + "" + nl + "";
      { EmptyGlue(info, body, nl);
        assert nl + nl == "\n\n"; }
      info + "\n\n" + body + "\n\n";
    }
    Framed(info, body);
  }

  lemma EmptyGlue(info: string, body: string, nl: string)
    ensures info + nl + "" + nl + body + nl + "" + nl + "" == info + (nl + nl) + body + (nl + nl)
  {
    assert info + nl + "" == info + nl;
    assert body + nl + "" == body + nl;
  }

  lemma Framed(info: string, body: string)
    ensures var m := info + "\n\n" + body + "\n\n";
      |m| >= |info| + 4 && m[..|info| + 2] == info + "\n\n" && m[|m| - 2..] == "\n\n"
  {
    var m := info + "\n\n" + body + "\n\n";
    assert m == (info + "\n\n") + (body + "\n\n");
  }

  /**
   * The lines of one bullet. Without details: the head alone. With details:
   * the head and a colon, a blank line, the statement indented by 6, a blank
   * line, the info indented by 2 and a blank line when there is info, and a
   * final blank line.
   */
  function BulletLines(setParentNodesWasUsed: bool, i: RestrictedImport): seq<string>
  {
    if !setParentNodesWasUsed then [Bullet(i)]
    else
      [Bullet(i) + ":", ""] + IndentLines(6, Split(i.statementText, '\n')) + [""]
      + InfoLines(i) + [""]
  }

  /** The info block of a detailed bullet is its indented lines and a blank line, each terminated. */
  lemma InfoBlockIsItsLines(i: RestrictedImport)
    ensures Terminated(InfoLines(i)) == InfoBlock(i)
  {
    if HasInfo(i) {
      var lines := IndentLines(2, Split(i.info.value, '\n'));
      TerminatedNonEmpty(lines);
      TerminatedAppend(lines, [""]);
    }
  }

  /** The line structure of a detailed bullet, over any head, statement lines and info lines. */
  lemma DetailedLayout(bullet: string, statement: seq<string>, info: seq<string>)
    requires statement != []
    ensures Terminated([bullet + ":", ""] + statement + [""] + info + [""])
         == bullet + Join([":", "", Join(statement, "\n"), "", Terminated(info)], "\n") + "\n"
  {
    var head := [bullet + ":", ""];
    var tail := [""] + info + [""];
    var nl, lines, rest := "\n", Join(statement, "\n"), Terminated(info);
    calc {
      Terminated(head + statement + [""] + info + [""]);
      { assert head + statement + [""] + info + [""] == (head + statement) + tail;
        TerminatedAppend(head + statement, tail); }
      Terminated(head + statement) + Terminated(tail);
      { TerminatedAppend(head, statement);
        TerminatedAppend([""] + info, [""]);
        TerminatedAppend([""], info); }
      Terminated(head) + Terminated(statement) + (Terminated([""]) + Terminated(info) + Terminated([""]));
      { TerminatedNonEmpty(statement);
        assert Terminated([""]) == nl;
        assert Terminated(head) == bullet + ":" + nl + nl; }
      (bullet + ":" + nl + nl) + (lines + nl) + (nl + rest + nl);
      bullet + (":" + nl + "" + nl + lines + nl + "" + nl + rest) + nl;
      { JoinFive(":", "", lines, "", rest, nl); }
      bullet + Join([":", "", lines, "", rest], nl) + nl;
    }
  }

  /** A bullet is exactly its lines, each followed by a line break. */
  lemma BulletIsItsLines(setParentNodesWasUsed: bool, i: RestrictedImport)
    ensures ErrorMessage(setParentNodesWasUsed, i) == Terminated(BulletLines(setParentNodesWasUsed, i))
  {
    if !setParentNodesWasUsed {
      assert Terminated([Bullet(i)]) == Bullet(i) + "\n" + Terminated([]);
    } else {
      InfoBlockIsItsLines(i);
      DetailedLayout(Bullet(i), IndentLines(6, Split(i.statementText, '\n')), InfoLines(i));
    }
  }

  /** The lines of all bullets, one bullet after the other. */
  function ReportLines(setParentNodesWasUsed: bool, imports: seq<RestrictedImport>): seq<string>
  {
    if imports == [] then []
    else BulletLines(setParentNodesWasUsed, imports[0]) + ReportLines(setParentNodesWasUsed, imports[1..])
  }

  lemma ErrorMessagesCons(setParentNodesWasUsed: bool, imports: seq<RestrictedImport>)
    requires imports != []
    ensures ErrorMessages(setParentNodesWasUsed, imports)
         == ErrorMessage(setParentNodesWasUsed, imports[0]) + ErrorMessages(setParentNodesWasUsed, imports[1..])
  {
    var messages := seq(|imports|, k requires 0 <= k < |imports| => ErrorMessage(setParentNodesWasUsed, imports[k]));
    var rest := imports[1..];
    var tail := seq(|rest|, k requires 0 <= k < |rest| => ErrorMessage(setParentNodesWasUsed, rest[k]));
    assert messages[1..] == tail;
    if |imports| == 1 {
      assert Join(tail, "") == [];
      assert messages[0] + [] == messages[0];
    } else {
      assert Join(messages, "") == messages[0] + "" + Join(tail, "");
      assert messages[0] + "" == messages[0];
    }
  }

  /** The bullets joined together are the lines of all bullets, each terminated. */
  lemma {:induction false} ErrorMessagesAreLines(setParentNodesWasUsed: bool, imports: seq<RestrictedImport>)
    ensures ErrorMessages(setParentNodesWasUsed, imports) == Terminated(ReportLines(setParentNodesWasUsed, imports))
  {
    if imports != [] {
      ErrorMessagesCons(setParentNodesWasUsed, imports);
      ErrorMessagesAreLines(setParentNodesWasUsed, imports[1..]);
      BulletIsItsLines(setParentNodesWasUsed, imports[0]);
      TerminatedAppend(BulletLines(setParentNodesWasUsed, imports[0]), ReportLines(setParentNodesWasUsed, imports[1..]));
    }
  }

  /** A bullet head holds a line break only if its path does. */
  lemma BulletHasNoBreak(i: RestrictedImport)
    requires '\n' !in i.path
    ensures '\n' !in Bullet(i) && '\n' !in Bullet(i) + ":"
  {
    var digits := DecimalString(i.line);
    assert '\n' !in digits by {
      forall k | 0 <= k < |digits| ensures digits[k] != '\n' {
      }
    }
  }

  /** No line among `lines` holds a line break. */
  predicate NoBreaks(lines: seq<string>)
  {
    forall k :: 0 <= k < |lines| ==> '\n' !in lines[k]
  }

  lemma NoBreaksAppend(a: seq<string>, b: seq<string>)
    requires NoBreaks(a) && NoBreaks(b)
    ensures NoBreaks(a + b)
  {
    forall k | 0 <= k < |a + b| ensures '\n' !in (a + b)[k] {
      if k >= |a| {
        assert (a + b)[k] == b[k - |a|];
      }
    }
  }

  lemma BulletLinesHaveNoBreak(setParentNodesWasUsed: bool, i: RestrictedImport)
    requires '\n' !in i.path
    ensures NoBreaks(BulletLines(setParentNodesWasUsed, i))
  {
    BulletHasNoBreak(i);
    if setParentNodesWasUsed {
      var statement := IndentLines(6, Split(i.statementText, '\n'));
      IndentLinesHaveNoBreak(6, Split(i.statementText, '\n'));
      var head := [Bullet(i) + ":", ""];
      assert NoBreaks([""]) && NoBreaks(head);
      if HasInfo(i) {
        IndentLinesHaveNoBreak(2, Split(i.info.value, '\n'));
        NoBreaksAppend(IndentLines(2, Split(i.info.value, '\n')), [""]);
      }
      NoBreaksAppend(head, statement);
      NoBreaksAppend(head + statement, [""]);
      NoBreaksAppend(head + statement + [""], InfoLines(i));
      NoBreaksAppend(head + statement + [""] + InfoLines(i), [""]);
    }
  }

  lemma {:induction false} ReportLinesHaveNoBreak(setParentNodesWasUsed: bool, imports: seq<RestrictedImport>)
    requires forall k :: 0 <= k < |imports| ==> '\n' !in imports[k].path
    ensures forall k :: 0 <= k < |ReportLines(setParentNodesWasUsed, imports)| ==> '\n' !in ReportLines(setParentNodesWasUsed, imports)[k]
  {
    if imports != [] {
      BulletLinesHaveNoBreak(setParentNodesWasUsed, imports[0]);
      ReportLinesHaveNoBreak(setParentNodesWasUsed, imports[1..]);
    }
  }

  /**
   * The report as lines: the info, a blank line, then every line of every
   * bullet indented by 2, with the whitespace at the very end removed, and a
   * closing blank line. Paths with line breaks in them would add lines, so
   * they are excluded. The scanner can report such a path: a line comment
   * before the literal stays in the path read from its full text, and a
   * backslash line continuation inside the literal is kept, not unescaped.
   */
  lemma ReportIsLines(imports: seq<RestrictedImport>, info: string, setParentNodesWasUsed: bool)
    requires forall k :: 0 <= k < |imports| ==> '\n' !in imports[k].path
    ensures ErrorMessageForAll(imports, info, setParentNodesWasUsed)
         == info + "\n\n" + TrimEnd(Terminated(IndentLines(2, ReportLines(setParentNodesWasUsed, imports)))) + "\n\n"
  {
    MessageShape(imports, info, setParentNodesWasUsed);
    ErrorMessagesAreLines(setParentNodesWasUsed, imports);
    ReportLinesHaveNoBreak(setParentNodesWasUsed, imports);
    IndentTerminated(2, ReportLines(setParentNodesWasUsed, imports));
  }

  /** No `•` in the path, the statement or the info of a restricted import. */
  predicate NoBulletSign(i: RestrictedImport)
  {
    '•' !in i.path && '•' !in i.statementText && (i.info.Some? ==> '•' !in i.info.value)
  }

  /** The details of a bullet add no `•` of their own. */
  lemma DetailsCount(setParentNodesWasUsed: bool, i: RestrictedImport)
    requires NoBulletSign(i)
    ensures Count('•', Details(setParentNodesWasUsed, i)) == 0
  {
    if setParentNodesWasUsed {
      var c := '•';
      var statement, infoBlock := IndentBy(6, i.statementText), InfoBlock(i);
      CountAbsent(c, i.statementText);
      IndentByCount(c, 6, i.statementText);
      if HasInfo(i) {
        CountAbsent(c, i.info.value);
        IndentByCount(c, 2, i.info.value);
        CountAbsent(c, "\n\n");
        CountAppend(c, IndentBy(2, i.info.value), "\n\n");
      }
      CountAbsent(c, "\n");
      CountAbsent(c, ":");
      CountAbsent(c, "");
      CountJoin(c, [":", "", statement, "", infoBlock], "\n");
      CountAllFive(c, ":", "", statement, "", infoBlock);
    }
  }

  /** The sign that opens a bullet is its only `•`; the other fixed pieces hold none. */
  lemma FixedPiecesCount(sign: string, middle: string, newline: string)
    requires sign == "• " && middle == ", imported on line " && newline == "\n"
    ensures Count('•', sign) == 1 && Count('•', middle) == 0 && Count('•', newline) == 0
  {
    assert sign[1..] == " ";
    CountAbsent('•', " ");
    CountAbsent('•', middle);
    CountAbsent('•', newline);
  }

  lemma CountAllFive(c: char, a: string, b: string, d: string, e: string, f: string)
    ensures CountAll(c, [a, b, d, e, f]) == Count(c, a) + Count(c, b) + Count(c, d) + Count(c, e) + Count(c, f)
  {
    assert CountAll(c, [f]) == Count(c, f) by { assert [f][1..] == []; }
    assert CountAll(c, [e, f]) == Count(c, e) + CountAll(c, [f]) by { assert [e, f][1..] == [f]; }
    assert CountAll(c, [d, e, f]) == Count(c, d) + CountAll(c, [e, f]) by { assert [d, e, f][1..] == [e, f]; }
    assert CountAll(c, [b, d, e, f]) == Count(c, b) + CountAll(c, [d, e, f]) by { assert [b, d, e, f][1..] == [d, e, f]; }
    assert CountAll(c, [a, b, d, e, f]) == Count(c, a) + CountAll(c, [b, d, e, f]) by { assert [a, b, d, e, f][1..] == [b, d, e, f]; }
  }

  /** Every bullet holds exactly one `•`, the one it starts with. */
  lemma ErrorMessageCount(setParentNodesWasUsed: bool, i: RestrictedImport)
    requires NoBulletSign(i)
    ensures Count('•', ErrorMessage(setParentNodesWasUsed, i)) == 1
  {
    var c, head, details := '•', Bullet(i), Details(setParentNodesWasUsed, i);
    BulletHeadCount(i);
    DetailsCount(setParentNodesWasUsed, i);
    FixedPiecesCount("• ", ", imported on line ", "\n");
    CountAppend(c, head, details);
    CountAppend(c, head + details, "\n");
  }

  /** The head of a bullet holds one `•`, the sign it starts with. */
  lemma BulletHeadCount(i: RestrictedImport)
    requires '•' !in i.path
    ensures Count('•', Bullet(i)) == 1
  {
    HeadCount(i.path, i.line);
  }

  lemma HeadCount(path: string, line: nat)
    requires '•' !in path
    ensures Count('•', "• " + Quote(path) + ", imported on line " + DecimalString(line)) == 1
  {
    var c, quoted, digits := '•', Quote(path), DecimalString(line);
    assert c !in quoted by { assert quoted == "\"" + path + "\""; }
    assert c !in digits by {
      forall k | 0 <= k < |digits| ensures digits[k] != c {
      }
    }
    CountAbsent(c, quoted);
    CountAbsent(c, digits);
    FixedPiecesCount("• ", ", imported on line ", "\n");
    OneAmongFour(c, "• ", quoted, ", imported on line ", digits);
  }

  /** Four pieces of which only the first holds `c`, once, hold `c` once together. */
  lemma OneAmongFour(c: char, a: string, b: string, d: string, e: string)
    requires Count(c, a) == 1 && Count(c, b) == 0 && Count(c, d) == 0 && Count(c, e) == 0
    ensures Count(c, a + b + d + e) == 1
  {
    CountAppend(c, a, b);
    CountAppend(c, a + b, d);
    CountAppend(c, a + b + d, e);
  }

  /** The bullets together hold one `•` per import. */
  lemma {:induction false} ErrorMessagesCount(setParentNodesWasUsed: bool, imports: seq<RestrictedImport>)
    requires forall k :: 0 <= k < |imports| ==> NoBulletSign(imports[k])
    ensures Count('•', ErrorMessages(setParentNodesWasUsed, imports)) == |imports|
  {
    if imports != [] {
      ErrorMessagesCons(setParentNodesWasUsed, imports);
      ErrorMessageCount(setParentNodesWasUsed, imports[0]);
      ErrorMessagesCount(setParentNodesWasUsed, imports[1..]);
      CountAppend('•', ErrorMessage(setParentNodesWasUsed, imports[0]), ErrorMessages(setParentNodesWasUsed, imports[1..]));
    } else {
      assert ErrorMessages(setParentNodesWasUsed, imports) == "";
    }
  }

  /**
   * When no path, statement or info holds a `•`, the report holds exactly
   * one `•` per restricted import, with or without details.
   */
  lemma BulletCount(imports: seq<RestrictedImport>, info: string, setParentNodesWasUsed: bool)
    requires '•' !in info
    requires forall k :: 0 <= k < |imports| ==> NoBulletSign(imports[k])
    ensures Count('•', ErrorMessageForAll(imports, info, setParentNodesWasUsed)) == |imports|
  {
    var c := '•';
    var messages := ErrorMessages(setParentNodesWasUsed, imports);
    var body := TrimEnd(IndentBy(2, messages));
    MessageShape(imports, info, setParentNodesWasUsed);
    ErrorMessagesCount(setParentNodesWasUsed, imports);
    IndentByCount(c, 2, messages);
    CountTrimEnd(c, IndentBy(2, messages));
    CountAbsent(c, info);
    CountAbsent(c, "\n\n");
    CountAppend(c, info, "\n\n");
    CountAppend(c, info + "\n\n", body);
    CountAppend(c, info + "\n\n" + body, "\n\n");
  }

  /** The bullet heads, one per import. */
  function Bullets(imports: seq<RestrictedImport>): (r: seq<string>)
    ensures |r| == |imports|
  {
    seq(|imports|, k requires 0 <= k < |imports| => Bullet(imports[k]))
  }

  lemma {:induction false} BriefLinesAreBullets(imports: seq<RestrictedImport>)
    ensures ReportLines(false, imports) == Bullets(imports)
  {
    if imports != [] {
      BriefLinesAreBullets(imports[1..]);
      assert Bullets(imports) == [Bullet(imports[0])] + Bullets(imports[1..]);
    }
  }

  /** A bullet head ends in the last digit of its line number. */
  lemma BulletEndsInDigit(i: RestrictedImport)
    ensures var b := Bullet(i); b != "" && '0' <= b[|b| - 1] <= '9' && !IsWhiteSpace(b[|b| - 1])
  {
    var digits := DecimalString(i.line);
    assert Bullet(i)[|Bullet(i)| - 1] == digits[|digits| - 1];
  }

  /** Without details every bullet is one line: two spaces and the head. */
  lemma BriefLinesIndented(imports: seq<RestrictedImport>)
    ensures |IndentLines(2, Bullets(imports))| == |imports|
    ensures forall k :: 0 <= k < |imports| ==> IndentLines(2, Bullets(imports))[k] == "  " + Bullet(imports[k])
  {
    assert Spaces(2) == "  ";
    forall k | 0 <= k < |imports| ensures IndentLines(2, Bullets(imports))[k] == "  " + Bullet(imports[k]) {
      BulletEndsInDigit(imports[k]);
    }
  }

  /**
   * Without details the report is the info, a blank line, one line per
   * import (two spaces, then `• "<path>", imported on line <n>`) and a
   * closing blank line.
   */
  lemma BriefReport(imports: seq<RestrictedImport>, info: string)
    requires imports != []
    requires forall k :: 0 <= k < |imports| ==> '\n' !in imports[k].path
    ensures ErrorMessageForAll(imports, info, false)
         == info + "\n\n" + Join(IndentLines(2, Bullets(imports)), "\n") + "\n\n"
    ensures forall k :: 0 <= k < |imports| ==> IndentLines(2, Bullets(imports))[k] == "  " + Bullet(imports[k])
  {
    ReportIsLines(imports, info, false);
    BriefLinesAreBullets(imports);
    BriefLinesIndented(imports);
    var lines := IndentLines(2, Bullets(imports));
    var last := Bullet(imports[|imports| - 1]);
    BulletEndsInDigit(imports[|imports| - 1]);
    assert lines[|lines| - 1] == "  " + last;
    assert lines + [] == lines;
    TrimTerminated(lines, []);
  }

  /** `defaultTo(options.severity, rule.severity)`: the rule's own severity, else the loader-wide one. */
  function EffectiveSeverity(options: LoaderOptions, rule: Rule): (severity: Severity)
    ensures rule.severity.Some? ==> severity == rule.severity.value
    ensures rule.severity.None? ==> severity == options.severity
  {
    DefaultTo(Some(options.severity), rule.severity).value
  }

  /** `defaultTo(DEFAULT.info, rule.info)`: the rule's own info, else the default info. */
  function EffectiveInfo(rule: Rule): (info: string)
    ensures rule.info.Some? ==> info == rule.info.value
    ensures rule.info.None? ==> info == DefaultInfo
  {
    DefaultTo(Some(DefaultInfo), rule.info).value
  }

  /** `defaultTo(DEFAULT.detailedErrorMessages, options.detailedErrorMessages)` */
  function Detailed(options: LoaderOptions): (detailed: bool)
    ensures options.detailedErrorMessages.Some? ==> detailed == options.detailedErrorMessages.value
    ensures options.detailedErrorMessages.None? ==> detailed == DefaultDetailedErrorMessages
  {
    DefaultTo(Some(DefaultDetailedErrorMessages), options.detailedErrorMessages).value
  }

  /** Does rule `k` have restricted imports, and is its effective severity `severity`? */
  predicate FiresAs(options: LoaderOptions, badImportMatrix: seq<seq<RestrictedImport>>, k: nat, severity: Severity)
    requires |badImportMatrix| == |options.rules| && k < |options.rules|
  {
    |badImportMatrix[k]| > 0 && EffectiveSeverity(options, options.rules[k]) == severity
  }

  /** The report for rule `k`. */
  function Report(options: LoaderOptions, badImportMatrix: seq<seq<RestrictedImport>>, k: nat): string
    requires |badImportMatrix| == |options.rules| && k < |options.rules|
  {
    ErrorMessageForAll(badImportMatrix[k], EffectiveInfo(options.rules[k]), Detailed(options))
  }

  /** The first rule at or after `from` that fires as fatal, or the number of rules if there is none. */
  function FirstFatal(options: LoaderOptions, badImportMatrix: seq<seq<RestrictedImport>>, from: nat): (stop: nat)
    requires |badImportMatrix| == |options.rules| && from <= |options.rules|
    ensures from <= stop <= |options.rules|
    ensures stop < |options.rules| ==> FiresAs(options, badImportMatrix, stop, Fatal)
    ensures forall k :: from <= k < stop ==> !FiresAs(options, badImportMatrix, k, Fatal)
    decreases |options.rules| - from
  {
    if from == |options.rules| then from
    else if FiresAs(options, badImportMatrix, from, Fatal) then from
    else FirstFatal(options, badImportMatrix, from + 1)
  }

  /** The reports of the rules before `upto` that fire as `severity`, in rule order. */
  function Emitted(options: LoaderOptions, badImportMatrix: seq<seq<RestrictedImport>>, upto: nat, severity: Severity): (reports: seq<string>)
    requires |badImportMatrix| == |options.rules| && upto <= |options.rules|
    ensures |reports| <= upto
  {
    if upto == 0 then []
    else
      Emitted(options, badImportMatrix, upto - 1, severity)
      + (if FiresAs(options, badImportMatrix, upto - 1, severity) then [Report(options, badImportMatrix, upto - 1)] else [])
  }

  /** One more rule: its report joins the reports of its severity when it fires. */
  lemma EmittedStep(options: LoaderOptions, badImportMatrix: seq<seq<RestrictedImport>>, i: nat, severity: Severity)
    requires |badImportMatrix| == |options.rules| && i < |options.rules|
    ensures Emitted(options, badImportMatrix, i + 1, severity)
         == Emitted(options, badImportMatrix, i, severity)
            + (if FiresAs(options, badImportMatrix, i, severity) then [Report(options, badImportMatrix, i)] else [])
  {
  }

  /**
   * The dispatch once every rule's restricted imports are known
   * (`badImportMatrix[k]` for rule `k`). Rules are visited in order; a rule
   * without restricted imports is skipped; otherwise its report is emitted as
   * an error or a warning, or, when its severity is fatal, becomes the error
   * the completion callback receives and ends the visit. `errors` and
   * `warnings` are what the host was handed, in order.
   */
  method Dispatch(options: LoaderOptions, badImportMatrix: seq<seq<RestrictedImport>>, source: string)
    returns (errors: seq<string>, warnings: seq<string>, completion: Completion)
    requires |badImportMatrix| == |options.rules|
    ensures var stop := FirstFatal(options, badImportMatrix, 0);
      && errors == Emitted(options, badImportMatrix, stop, Error)
      && warnings == Emitted(options, badImportMatrix, stop, Warning)
      && completion.source == source
      && (stop < |options.rules| ==> completion.err == Some(Report(options, badImportMatrix, stop)))
      && (stop == |options.rules| ==> completion.err == None)
  {
    var rules := options.rules;
    var detailedErrorMessages := DefaultTo(Some(DefaultDetailedErrorMessages), options.detailedErrorMessages).value;
    ghost var stop := FirstFatal(options, badImportMatrix, 0);
    errors, warnings := [], [];
    for i := 0 to |rules|
      invariant i <= stop
      invariant errors == Emitted(options, badImportMatrix, i, Error)
      invariant warnings == Emitted(options, badImportMatrix, i, Warning)
    {
      var badImports := badImportMatrix[i];
      EmittedStep(options, badImportMatrix, i, Error);
      EmittedStep(options, badImportMatrix, i, Warning);
      if |badImports| > 0 {
        var severity := DefaultTo(Some(options.severity), rules[i].severity).value;
        var info := DefaultTo(Some(DefaultInfo), rules[i].info).value;
        var err := ErrorMessageForAll(badImports, info, detailedErrorMessages);
        RuleReport(options, badImportMatrix, i, severity, info, detailedErrorMessages);
        match severity
        case Fatal =>
          completion := Completion(Some(err), source);
          return;
        case Error =>
          errors := errors + [err];
        case Warning =>
          warnings := warnings + [err];
      }
    }
    completion := Completion(None, source);
  }

  /** What the loop computes for a rule with restricted imports is that rule's severity and report. */
  lemma RuleReport(options: LoaderOptions, badImportMatrix: seq<seq<RestrictedImport>>, k: nat,
                   severity: Severity, info: string, detailed: bool)
    requires |badImportMatrix| == |options.rules| && k < |options.rules| && |badImportMatrix[k]| > 0
    requires severity == DefaultTo(Some(options.severity), options.rules[k].severity).value
    requires info == DefaultTo(Some(DefaultInfo), options.rules[k].info).value
    requires detailed == DefaultTo(Some(DefaultDetailedErrorMessages), options.detailedErrorMessages).value
    ensures FiresAs(options, badImportMatrix, k, severity)
    ensures ErrorMessageForAll(badImportMatrix[k], info, detailed) == Report(options, badImportMatrix, k)
  {
  }

  /** The number of rules before `upto` that have restricted imports. */
  function Firing(badImportMatrix: seq<seq<RestrictedImport>>, upto: nat): nat
    requires upto <= |badImportMatrix|
  {
    if upto == 0 then 0
    else Firing(badImportMatrix, upto - 1) + (if |badImportMatrix[upto - 1]| > 0 then 1 else 0)
  }

  /** Every rule with restricted imports is reported exactly once, under its own severity. */
  lemma {:induction false} EmittedPartition(options: LoaderOptions, badImportMatrix: seq<seq<RestrictedImport>>, upto: nat)
    requires |badImportMatrix| == |options.rules| && upto <= |options.rules|
    ensures |Emitted(options, badImportMatrix, upto, Fatal)| + |Emitted(options, badImportMatrix, upto, Error)|
          + |Emitted(options, badImportMatrix, upto, Warning)| == Firing(badImportMatrix, upto)
  {
    if upto > 0 {
      var k := upto - 1;
      EmittedPartition(options, badImportMatrix, k);
      EmittedCount(options, badImportMatrix, k, Fatal);
      EmittedCount(options, badImportMatrix, k, Error);
      EmittedCount(options, badImportMatrix, k, Warning);
      match EffectiveSeverity(options, options.rules[k])
      case Fatal =>
      case Error =>
      case Warning =>
    }
  }

  /** One more rule adds one report to the reports of its severity when it fires, and none otherwise. */
  lemma EmittedCount(options: LoaderOptions, badImportMatrix: seq<seq<RestrictedImport>>, k: nat, severity: Severity)
    requires |badImportMatrix| == |options.rules| && k < |options.rules|
    ensures |Emitted(options, badImportMatrix, k + 1, severity)|
         == |Emitted(options, badImportMatrix, k, severity)| + (if FiresAs(options, badImportMatrix, k, severity) then 1 else 0)
  {
  }

  /** Before the first fatal rule nothing fires as fatal. */
  lemma {:induction false} NoFatalBeforeStop(options: LoaderOptions, badImportMatrix: seq<seq<RestrictedImport>>, upto: nat)
    requires |badImportMatrix| == |options.rules|
    requires upto <= FirstFatal(options, badImportMatrix, 0)
    ensures Emitted(options, badImportMatrix, upto, Fatal) == []
  {
    if upto > 0 {
      NoFatalBeforeStop(options, badImportMatrix, upto - 1);
    }
  }

  /**
   * The host is handed one error or warning per rule with restricted imports
   * before the first fatal one; the fatal one, if any, is the single
   * completion error.
   */
  lemma DiagnosticsCount(options: LoaderOptions, badImportMatrix: seq<seq<RestrictedImport>>)
    requires |badImportMatrix| == |options.rules|
    ensures var stop := FirstFatal(options, badImportMatrix, 0);
      |Emitted(options, badImportMatrix, stop, Error)| + |Emitted(options, badImportMatrix, stop, Warning)|
        == Firing(badImportMatrix, stop)
  {
    var stop := FirstFatal(options, badImportMatrix, 0);
    EmittedPartition(options, badImportMatrix, stop);
    NoFatalBeforeStop(options, badImportMatrix, stop);
  }

  /**
   * No rule with restricted imports: no rule stops the visit as fatal, so the
   * completion carries no error, and nothing is emitted under any severity.
   */
  lemma NothingRestricted(options: LoaderOptions, badImportMatrix: seq<seq<RestrictedImport>>)
    requires |badImportMatrix| == |options.rules|
    requires forall k :: 0 <= k < |badImportMatrix| ==> badImportMatrix[k] == []
    ensures FirstFatal(options, badImportMatrix, 0) == |options.rules|
    ensures forall severity :: Emitted(options, badImportMatrix, |options.rules|, severity) == []
  {
    NothingRestrictedFrom(options, badImportMatrix, |options.rules|);
  }

  /** The same for the last `upto` rules' search and the first `upto` rules' emissions. */
  lemma {:induction false} NothingRestrictedFrom(options: LoaderOptions, badImportMatrix: seq<seq<RestrictedImport>>, upto: nat)
    requires |badImportMatrix| == |options.rules| && upto <= |options.rules|
    requires forall k :: 0 <= k < |badImportMatrix| ==> badImportMatrix[k] == []
    ensures FirstFatal(options, badImportMatrix, |options.rules| - upto) == |options.rules|
    ensures forall severity :: Emitted(options, badImportMatrix, upto, severity) == []
  {
    if upto > 0 {
      NothingRestrictedFrom(options, badImportMatrix, upto - 1);
    }
  }

  /**
   * A single rule with restricted imports: under `fatal` its report is the
   * completion error and nothing is emitted; under `error` or `warning` it is
   * emitted as one and the completion carries no error.
   */
  lemma SingleRule(options: LoaderOptions, badImportMatrix: seq<seq<RestrictedImport>>)
    requires |options.rules| == 1 && |badImportMatrix| == 1 && badImportMatrix[0] != []
    ensures var severity := EffectiveSeverity(options, options.rules[0]);
      var report := Report(options, badImportMatrix, 0);
      var stop := FirstFatal(options, badImportMatrix, 0);
      && (severity == Fatal ==>
            stop == 0 && Emitted(options, badImportMatrix, stop, Error) == []
            && Emitted(options, badImportMatrix, stop, Warning) == [])
      && (severity == Error ==>
            stop == 1 && Emitted(options, badImportMatrix, stop, Error) == [report]
            && Emitted(options, badImportMatrix, stop, Warning) == [])
      && (severity == Warning ==>
            stop == 1 && Emitted(options, badImportMatrix, stop, Error) == []
            && Emitted(options, badImportMatrix, stop, Warning) == [report])
  {
    assert Emitted(options, badImportMatrix, 0, Error) == [] && Emitted(options, badImportMatrix, 0, Warning) == [];
  }

  /** Whether a rule fires, and as what, depends on that rule's row alone. */
  lemma {:induction false} EmittedPrefix(options: LoaderOptions, m1: seq<seq<RestrictedImport>>, m2: seq<seq<RestrictedImport>>, upto: nat, severity: Severity)
    requires |m1| == |options.rules| && |m2| == |options.rules| && upto <= |options.rules|
    requires m1[..upto] == m2[..upto]
    ensures Emitted(options, m1, upto, severity) == Emitted(options, m2, upto, severity)
  {
    if upto > 0 {
      assert m1[..upto - 1] == m1[..upto][..upto - 1];
      assert m2[..upto - 1] == m2[..upto][..upto - 1];
      assert m1[upto - 1] == m1[..upto][upto - 1];
      assert m2[upto - 1] == m2[..upto][upto - 1];
      EmittedPrefix(options, m1, m2, upto - 1, severity);
    }
  }

  lemma {:induction false} FirstFatalPrefix(options: LoaderOptions, m1: seq<seq<RestrictedImport>>, m2: seq<seq<RestrictedImport>>, from: nat)
    requires |m1| == |options.rules| && |m2| == |options.rules|
    requires from <= FirstFatal(options, m1, 0) < |options.rules|
    requires forall k :: 0 <= k <= FirstFatal(options, m1, 0) ==> m1[k] == m2[k]
    ensures FirstFatal(options, m2, from) == FirstFatal(options, m1, 0)
    decreases |options.rules| - from
  {
    var stop := FirstFatal(options, m1, 0);
    if from < stop {
      assert !FiresAs(options, m1, from, Fatal);
      FirstFatalPrefix(options, m1, m2, from + 1);
    }
  }

  /**
   * A fatal rule ends the visit: the restricted imports of the rules after it
   * change neither where the visit stops nor what it emitted.
   */
  lemma FatalIgnoresLaterRules(options: LoaderOptions, m1: seq<seq<RestrictedImport>>, m2: seq<seq<RestrictedImport>>)
    requires |m1| == |options.rules| && |m2| == |options.rules|
    requires FirstFatal(options, m1, 0) < |options.rules|
    requires forall k :: 0 <= k <= FirstFatal(options, m1, 0) ==> m1[k] == m2[k]
    ensures var stop := FirstFatal(options, m1, 0);
      && FirstFatal(options, m2, 0) == stop
      && Report(options, m2, stop) == Report(options, m1, stop)
      && Emitted(options, m2, stop, Error) == Emitted(options, m1, stop, Error)
      && Emitted(options, m2, stop, Warning) == Emitted(options, m1, stop, Warning)
  {
    var stop := FirstFatal(options, m1, 0);
    FirstFatalPrefix(options, m1, m2, 0);
    assert m1[..stop] == m2[..stop];
    EmittedPrefix(options, m1, m2, stop, Error);
    EmittedPrefix(options, m1, m2, stop, Warning);
  }

  /** A detailed bullet for a one-line statement, without info, is five lines. */
  lemma DetailedSingleLine(i: RestrictedImport)
    requires i.statementText != "" && '\n' !in i.statementText
    requires !HasInfo(i)
    ensures BulletLines(true, i) == [Bullet(i) + ":", "", Spaces(6) + i.statementText, "", ""]
  {
    SplitJoin([i.statementText], '\n');
    assert Split(i.statementText, '\n') == [i.statementText];
  }

  /** Blank lines, each terminated, are nothing but line breaks. */
  lemma {:induction false} TerminatedBlanks(blanks: seq<string>)
    requires forall k :: 0 <= k < |blanks| ==> blanks[k] == ""
    ensures forall k :: 0 <= k < |Terminated(blanks)| ==> Terminated(blanks)[k] == '\n'
  {
    if blanks != [] {
      TerminatedBlanks(blanks[1..]);
      assert Terminated(blanks) == "\n" + Terminated(blanks[1..]);
    }
  }

  /** Trailing blank lines are trimmed off with the break ending the last line of text. */
  lemma TrimTerminated(lines: seq<string>, blanks: seq<string>)
    requires lines != []
    requires var last := lines[|lines| - 1]; last != "" && !IsWhiteSpace(last[|last| - 1])
    requires forall k :: 0 <= k < |blanks| ==> blanks[k] == ""
    ensures TrimEnd(Terminated(lines + blanks)) == Join(lines, "\n")
  {
    var j := Join(lines, "\n");
    var ws := "\n" + Terminated(blanks);
    TerminatedAppend(lines, blanks);
    TerminatedNonEmpty(lines);
    TerminatedBlanks(blanks);
    JoinEndsWith(lines, "\n");
    assert j + "\n" + Terminated(blanks) == j + ws;
    TrimEndAfter(j, ws);
  }

  /** A detailed one-line bullet without info, indented by 2 as the report indents it. */
  lemma IndentedDetailedSingleLine(i: RestrictedImport)
    requires i.statementText != "" && '\n' !in i.statementText && !HasInfo(i)
    ensures IndentLines(2, BulletLines(true, i))
         == ["  " + Bullet(i) + ":", "", "        " + i.statementText, "", ""]
  {
    DetailedSingleLine(i);
    var lines := BulletLines(true, i);
    var expected := ["  " + Bullet(i) + ":", "", "        " + i.statementText, "", ""];
    assert Spaces(2) == "  ";
    assert Spaces(2) + (Spaces(6) + i.statementText) == "        " + i.statementText;
    forall k | 0 <= k < 5 ensures IndentLines(2, lines)[k] == expected[k] {
    }
  }

  /** The indented lines of the detailed report for two one-line statements without info. */
  lemma TwoDetailedLines(i1: RestrictedImport, i2: RestrictedImport)
    requires i1.statementText != "" && '\n' !in i1.statementText && !HasInfo(i1)
    requires i2.statementText != "" && '\n' !in i2.statementText && !HasInfo(i2)
    ensures IndentLines(2, ReportLines(true, [i1, i2]))
         == [ "  " + Bullet(i1) + ":", "", "        " + i1.statementText, "", "",
              "  " + Bullet(i2) + ":", "", "        " + i2.statementText ] + ["", ""]
  {
    var imports := [i1, i2];
    assert imports[1..] == [i2];
    assert imports[1..][1..] == [];
    assert ReportLines(true, [i2]) == BulletLines(true, i2) + [];
    assert ReportLines(true, imports) == BulletLines(true, i1) + BulletLines(true, i2);
    IndentLinesAppend(2, BulletLines(true, i1), BulletLines(true, i2));
    IndentedDetailedSingleLine(i1);
    IndentedDetailedSingleLine(i2);
  }

  /** Eight report lines with their blank lines, joined, as one text. */
  lemma TwoBulletsText(head1: string, text1: string, head2: string, text2: string)
    ensures Join([head1, "", text1, "", "", head2, "", text2], "\n")
         == head1 + "\n\n" + text1 + "\n\n\n" + head2 + "\n\n" + text2
  {
    var nl := "\n";
    JoinEight(head1, "", text1, "", "", head2, "", text2, nl);
    assert nl + "" + nl == "\n\n";
    assert nl + "" + nl + "" + nl == "\n\n\n";
    calc {
      head1 + nl + "" + nl + text1 + nl + "" + nl + "" + nl + head2 + nl + "" + nl + text2;
      head1 + (nl + "" + nl) + text1 + (nl + "" + nl + "" + nl) + head2 + (nl + "" + nl) + text2;
    }
  }

  /**
   * The detailed report for two one-line statements without info: each
   * bullet head with a colon, a blank line, the statement behind 8 spaces,
   * two blank lines between the bullets and one at the end.
   */
  lemma TwoDetailedBullets(i1: RestrictedImport, i2: RestrictedImport, info: string)
    requires '\n' !in i1.path && '\n' !in i2.path
    requires i1.statementText != "" && '\n' !in i1.statementText && !HasInfo(i1)
    requires i2.statementText != "" && '\n' !in i2.statementText && !HasInfo(i2)
    requires !IsWhiteSpace(i2.statementText[|i2.statementText| - 1])
    ensures ErrorMessageForAll([i1, i2], info, true)
         == info + "\n\n"
            + (("  " + Bullet(i1) + ":") + "\n\n" + ("        " + i1.statementText) + "\n\n\n"
               + ("  " + Bullet(i2) + ":") + "\n\n" + ("        " + i2.statementText))
            + "\n\n"
  {
    var head1 := "  " + Bullet(i1) + ":";
    var head2 := "  " + Bullet(i2) + ":";
    var text1 := "        " + i1.statementText;
    var text2 := "        " + i2.statementText;
    var kept := [head1, "", text1, "", "", head2, "", text2];
    assert text2[|text2| - 1] == i2.statementText[|i2.statementText| - 1];
    calc {
      ErrorMessageForAll([i1, i2], info, true);
      { ReportIsLines([i1, i2], info, true); }
      info + "\n\n" + TrimEnd(Terminated(IndentLines(2, ReportLines(true, [i1, i2])))) + "\n\n";
      { TwoDetailedLines(i1, i2); }
      info + "\n\n" + TrimEnd(Terminated(kept + ["", ""])) + "\n\n";
      { TrimTerminated(kept, ["", ""]); }
      info + "\n\n" + Join(kept, "\n") + "\n\n";
      { TwoBulletsText(head1, text1, head2, text2); }
      info + "\n\n" + (head1 + "\n\n" + text1 + "\n\n\n" + head2 + "\n\n" + text2) + "\n\n";
    }
  }

  lemma JoinEight(a: string, b: string, c: string, d: string, e: string, f: string, g: string, h: string, sep: string)
    ensures Join([a, b, c, d, e, f, g, h], sep) == a + sep + b + sep + c + sep + d + sep + e + sep + f + sep + g + sep + h
  {
    var parts := [a, b, c, d, e, f, g, h];
    assert parts[1..] == [b, c, d, e, f, g, h];
    assert parts[1..][1..] == [c, d, e, f, g, h];
    assert parts[1..][1..][1..] == [d, e, f, g, h];
    JoinFive(d, e, f, g, h, sep);
    var r := d + sep + e + sep + f + sep + g + sep + h;
    assert Join([c, d, e, f, g, h], sep) == c + sep + r;
    assert Join([b, c, d, e, f, g, h], sep) == b + sep + (c + sep + r);
    assert Join(parts, sep) == a + sep + (b + sep + (c + sep + r));
  }

  /** The bullet head for a `typescript` import on a line below 10. */
  lemma TypescriptBullet(i: RestrictedImport, digit: string)
    requires i.path == "typescript"
    requires 1 <= i.line <= 9 && digit == ['0' + i.line as char]
    ensures Bullet(i) == "• \"typescript\", imported on line " + digit
  {
  }

  /**
   * The report with details for restricted imports of `typescript` on lines 1
   * and 2: the info line, a blank line, then per import its bullet head, a
   * blank line, the statement indented by eight spaces and a blank line, with
   * one more blank line between the two imports.
   */
  lemma DetailedExample(i1: RestrictedImport, i2: RestrictedImport)
    requires i1.path == "typescript" && i1.line == 1 && i1.info.None?
    requires i1.statementText == "import * as _ from \"typescript\";"
    requires i2.path == "typescript" && i2.line == 2 && i2.info.None?
    requires i2.statementText == "import {} from \"typescript\";"
    ensures ErrorMessageForAll([i1, i2], DefaultInfo, true)
         == "Found restricted imports:" + "\n\n"
            + (("  " + ("• \"typescript\", imported on line " + "1") + ":")
               + "\n\n" + ("        " + "import * as _ from \"typescript\";") + "\n\n\n"
               + ("  " + ("• \"typescript\", imported on line " + "2") + ":")
               + "\n\n" + ("        " + "import {} from \"typescript\";"))
            + "\n\n"
  {
    OneLineStatement(i1.statementText);
    OneLineStatement(i2.statementText);
    TwoDetailedBullets(i1, i2, DefaultInfo);
    TypescriptBullet(i1, "1");
    TypescriptBullet(i2, "2");
  }

  /** A statement of one line that ends in `;`. */
  lemma OneLineStatement(text: string)
    requires text == "import * as _ from \"typescript\";" || text == "import {} from \"typescript\";"
    ensures text != "" && '\n' !in text && !IsWhiteSpace(text[|text| - 1])
  {
  }

  /**
   * The report without details for the same imports: the info line, a blank
   * line, one indented bullet per import, and a blank line.
   */
  lemma BriefExample(i1: RestrictedImport, i2: RestrictedImport)
    requires i1.path == "typescript" && i1.line == 1
    requires i2.path == "typescript" && i2.line == 2
    ensures ErrorMessageForAll([i1, i2], DefaultInfo, false)
         == "Found restricted imports:" + "\n\n"
            + ("  " + ("• \"typescript\", imported on line " + "1") + "\n"
               + ("  " + ("• \"typescript\", imported on line " + "2")))
            + "\n\n"
  {
    BriefReport([i1, i2], DefaultInfo);
    var lines := IndentLines(2, Bullets([i1, i2]));
    assert lines == ["  " + Bullet(i1), "  " + Bullet(i2)];
    TypescriptBullet(i1, "1");
    TypescriptBullet(i2, "2");
  }
}
