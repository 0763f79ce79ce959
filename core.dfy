/**
 * The import scanner of src/core.ts: walk the syntax tree, stop at import and
 * export declarations, read the path of each string literal directly under
 * such a declaration, and keep the paths a decider restricts, one list per
 * decider.
 */
module Core {
  import opened Js
  import opened Text

  /** The node kinds the scanner tells apart; every other kind is `Other`. */
  datatype Kind = ImportDeclaration | ExportDeclaration | StringLiteral | Other

  /**
   * A node of the TypeScript syntax tree: its kind, its children in the order
   * `forEachChild` visits them (source order), the trivia (whitespace and
   * comments) in front of it, and its own text (`getText()`).
   */
  datatype Node = Node(kind: Kind, children: seq<Node>, leadingTrivia: string, text: string)

  /** `node.getFullText()`: the node's text together with the trivia in front of it. */
  function FullText(node: Node): string
  {
    node.leadingTrivia + node.text
  }

  /** One hit: the import path and the declaration it was found in. */
  datatype ImportDetails = ImportDetails(path: string, node: Node)

  /** A decider: a regular expression or a function on the import path. */
  datatype Decider = RegExpDecider(re: RegExp) | FunctionDecider(restricts: string -> bool)

  /** `isRestricted(name, decider)`: the expression's `test`, or the function's answer. */
  predicate IsRestricted(name: string, decider: Decider)
  {
    match decider
    case RegExpDecider(re) => Test(re, name)
    case FunctionDecider(restricts) => restricts(name)
  }

  /** `isImportOrExportDeclaration(node)` */
  predicate IsImportOrExportDeclaration(node: Node)
  {
    node.kind == ImportDeclaration || node.kind == ExportDeclaration
  }

  /**
   * `unquote(quoted)`, that is `quoted.substring(1, quoted.length - 1)`: the
   * first and last characters go; a one-character string comes back unchanged
   * because `substring` swaps its arguments.
   */
  function Unquote(quoted: string): (r: string)
    ensures |quoted| >= 2 ==> |r| == |quoted| - 2 && r == quoted[1..|quoted| - 1]
    ensures |quoted| == 1 ==> r == quoted
    ensures |quoted| == 0 ==> r == []
  {
    Substring(quoted, 1, |quoted| - 1)
  }

  /** `unquote` undoes `quote`. */
  lemma UnquoteQuote(s: string)
    ensures Unquote(Quote(s)) == s
  {
  }

  /**
   * The path the source reads from a string literal: `unquote` of the trimmed
   * full text, trivia included.
   */
  function LiteralPathAsWritten(literal: Node): string
  {
    Unquote(Trim(FullText(literal)))
  }

  /** The path of a string literal: its own text without the quotes. */
  function LiteralPath(literal: Node): string
  {
    Unquote(literal.text)
  }

  /**
   * Where the trivia in front of a literal is whitespace only, reading the
   * trimmed full text gives the same path as reading the literal's own text.
   */
  lemma {:induction false} LiteralPathAgrees(literal: Node)
    requires forall k :: 0 <= k < |literal.leadingTrivia| ==> IsWhiteSpace(literal.leadingTrivia[k])
    requires literal.text != [] && !IsWhiteSpace(literal.text[0]) && !IsWhiteSpace(literal.text[|literal.text| - 1])
    ensures LiteralPathAsWritten(literal) == LiteralPath(literal)
  {
    TrimAfterWhiteSpace(literal.leadingTrivia, literal.text);
  }

  /**
   * Trivia that does not start with whitespace once the leading whitespace
   * is skipped, such as a block comment between `from` and the literal,
   * survives `trim`: the path read as written keeps the trivia after its
   * first character and the opening quote, so it is never the imported path.
   */
  lemma CommentBeforeLiteral(ws: string, comment: string, path: string)
    requires forall k :: 0 <= k < |ws| ==> IsWhiteSpace(ws[k])
    requires comment != [] && !IsWhiteSpace(comment[0])
    ensures LiteralPath(Node(StringLiteral, [], ws + comment, Quote(path))) == path
    ensures LiteralPathAsWritten(Node(StringLiteral, [], ws + comment, Quote(path))) == comment[1..] + "\"" + path
    ensures LiteralPathAsWritten(Node(StringLiteral, [], ws + comment, Quote(path))) != path
  {
    var literal := Node(StringLiteral, [], ws + comment, Quote(path));
    var inner := comment[1..] + "\"" + path;
    var t := [comment[0]] + inner + "\"";
    assert t == comment + Quote(path) by {
      assert comment == [comment[0]] + comment[1..];
    }
    assert FullText(literal) == ws + t;
    assert !IsWhiteSpace(t[|t| - 1]);
    TrimAfterWhiteSpace(ws, t);
    DropEnds(comment[0], inner, '"');
    UnquoteQuote(path);
  }

  lemma DropEnds(first: char, inner: string, last: char)
    ensures var t := [first] + inner + [last]; t[1..|t| - 1] == inner
  {
  }

  /**
   * The string literals directly under `declaration` among its first `i`
   * children, in source order, each read as `unquote(getFullText().trim())`
   * and paired with the declaration.
   */
  function DeclarationLiterals(declaration: Node, i: nat): seq<ImportDetails>
    requires i <= |declaration.children|
    decreases i
  {
    if i == 0 then []
    else
      var c := declaration.children[i - 1];
      DeclarationLiterals(declaration, i - 1)
      + (if c.kind == StringLiteral then [ImportDetails(LiteralPathAsWritten(c), declaration)] else [])
  }

  /**
   * Every path the scanner looks at, in pre-order document order: the
   * literals directly under a declaration, and for any other node those of
   * its children in turn.
   */
  function Candidates(node: Node): seq<ImportDetails>
    decreases node, 1
  {
    if IsImportOrExportDeclaration(node) then DeclarationLiterals(node, |node.children|)
    else ChildCandidates(node, |node.children|)
  }

  /** The candidates of the first `i` children of `node`, one child after the other. */
  function ChildCandidates(node: Node, i: nat): seq<ImportDetails>
    requires i <= |node.children|
    decreases node, 0, i
  {
    if i == 0 then [] else ChildCandidates(node, i - 1) + Candidates(node.children[i - 1])
  }

  /** The entries of `xs` whose path `decider` restricts, in their order in `xs`. */
  function Filter(decider: Decider, xs: seq<ImportDetails>): (r: seq<ImportDetails>)
    ensures |r| <= |xs|
  {
    if xs == [] then []
    else
      var last := xs[|xs| - 1];
      Filter(decider, xs[..|xs| - 1]) + (if IsRestricted(last.path, decider) then [last] else [])
  }

  lemma FilterSnoc(decider: Decider, xs: seq<ImportDetails>, x: ImportDetails)
    ensures Filter(decider, xs + [x]) == Filter(decider, xs) + (if IsRestricted(x.path, decider) then [x] else [])
  {
    assert (xs + [x])[..|xs|] == xs;
  }

  lemma {:induction false} FilterAppend(decider: Decider, xs: seq<ImportDetails>, ys: seq<ImportDetails>)
    ensures Filter(decider, xs + ys) == Filter(decider, xs) + Filter(decider, ys)
    decreases |ys|
  {
    if ys == [] {
      assert xs + ys == xs;
    } else {
      var init := ys[..|ys| - 1];
      assert (xs + ys)[..|xs + ys| - 1] == xs + init;
      FilterAppend(decider, xs, init);
    }
  }

  /** Every candidate found under a child of a non-declaration node is a candidate of the node. */
  lemma {:induction false} ChildCandidatesIncluded(node: Node, i: nat, j: nat)
    requires j < i <= |node.children|
    ensures forall e :: e in Candidates(node.children[j]) ==> e in ChildCandidates(node, i)
    decreases i
  {
    if j < i - 1 {
      ChildCandidatesIncluded(node, i - 1, j);
    }
  }

  /**
   * The scanner visits every child of a node that is not a declaration: all
   * the candidates below such a child are candidates of the node.
   */
  lemma VisitsAllChildren(node: Node, child: Node)
    requires !IsImportOrExportDeclaration(node) && child in node.children
    ensures forall e :: e in Candidates(child) ==> e in Candidates(node)
  {
    var j :| 0 <= j < |node.children| && node.children[j] == child;
    ChildCandidatesIncluded(node, |node.children|, j);
  }

  /**
   * The filter keeps exactly the restricted entries: everything it keeps is
   * restricted and comes from the input, and each restricted entry is kept as
   * often as it occurs, so nothing restricted is dropped or duplicated.
   */
  lemma FilterExactly(decider: Decider, xs: seq<ImportDetails>)
    ensures forall e :: e in Filter(decider, xs) ==> IsRestricted(e.path, decider) && e in xs
    ensures forall e: ImportDetails :: IsRestricted(e.path, decider) ==>
      multiset(Filter(decider, xs))[e] == multiset(xs)[e]
    ensures forall e: ImportDetails :: !IsRestricted(e.path, decider) ==>
      multiset(Filter(decider, xs))[e] == 0
  {
    forall e: ImportDetails
      ensures multiset(Filter(decider, xs))[e] == if IsRestricted(e.path, decider) then multiset(xs)[e] else 0
    {
      FilterMultiplicity(decider, xs, e);
    }
  }

  /** How often one entry occurs in the filtered list: as often as in the input if restricted, else never. */
  lemma {:induction false} FilterMultiplicity(decider: Decider, xs: seq<ImportDetails>, e: ImportDetails)
    ensures multiset(Filter(decider, xs))[e] == if IsRestricted(e.path, decider) then multiset(xs)[e] else 0
  {
    if xs != [] {
      var init, last := xs[..|xs| - 1], xs[|xs| - 1];
      var kept, extra := Filter(decider, init), if IsRestricted(last.path, decider) then [last] else [];
      FilterMultiplicity(decider, init, e);
      assert Filter(decider, xs) == kept + extra;
      SplitLast(xs);
      assert multiset(xs)[e] == multiset(init)[e] + multiset([last])[e];
      assert multiset(Filter(decider, xs))[e] == multiset(kept)[e] + multiset(extra)[e];
    }
  }

  /**
   * `d` is a node the scanner reaches from `node`: `node` itself, or a node
   * reached from a child of `node` when `node` is not a declaration (the
   * scanner does not descend into a declaration).
   */
  predicate Within(d: Node, node: Node)
    decreases node
  {
    d == node || (!IsImportOrExportDeclaration(node) && exists c :: c in node.children && Within(d, c))
  }

  /**
   * Every candidate is a string literal found directly under an import or
   * export declaration, recorded together with that declaration, and that
   * declaration is one the scanner reaches in the tree.
   */
  lemma {:induction false} CandidatesComeFromDeclarations(node: Node)
    ensures forall e :: e in Candidates(node) ==>
      IsImportOrExportDeclaration(e.node) && Within(e.node, node)
      && exists c :: c in e.node.children && c.kind == StringLiteral && LiteralPathAsWritten(c) == e.path
    ensures IsImportOrExportDeclaration(node) ==> forall e :: e in Candidates(node) ==> e.node == node
    decreases node, 1
  {
    if IsImportOrExportDeclaration(node) {
      DeclarationLiteralsFrom(node, |node.children|);
    } else {
      ChildCandidatesComeFromDeclarations(node, |node.children|);
    }
  }

  lemma {:induction false} ChildCandidatesComeFromDeclarations(node: Node, i: nat)
    requires !IsImportOrExportDeclaration(node) && i <= |node.children|
    ensures forall e :: e in ChildCandidates(node, i) ==>
      IsImportOrExportDeclaration(e.node) && Within(e.node, node)
      && exists c :: c in e.node.children && c.kind == StringLiteral && LiteralPathAsWritten(c) == e.path
    decreases node, 0, i
  {
    if i > 0 {
      ChildCandidatesComeFromDeclarations(node, i - 1);
      var child := node.children[i - 1];
      CandidatesComeFromDeclarations(child);
      assert child in node.children;
    }
  }

  lemma {:induction false} DeclarationLiteralsFrom(declaration: Node, i: nat)
    requires i <= |declaration.children|
    ensures forall e :: e in DeclarationLiterals(declaration, i) ==>
      e.node == declaration
      && exists c :: c in declaration.children && c.kind == StringLiteral && LiteralPathAsWritten(c) == e.path
  {
    if i > 0 {
      DeclarationLiteralsFrom(declaration, i - 1);
      assert declaration.children[i - 1] in declaration.children;
    }
  }

  /**
   * No literal is dropped: every string literal directly under a
   * declaration is a candidate, read as written and paired with that
   * declaration.
   */
  lemma LiteralChildIsCandidate(declaration: Node, j: nat)
    requires IsImportOrExportDeclaration(declaration)
    requires j < |declaration.children| && declaration.children[j].kind == StringLiteral
    ensures ImportDetails(LiteralPathAsWritten(declaration.children[j]), declaration) in Candidates(declaration)
  {
    LiteralChildIsCandidateUpTo(declaration, |declaration.children|, j);
  }

  lemma {:induction false} LiteralChildIsCandidateUpTo(declaration: Node, i: nat, j: nat)
    requires j < i <= |declaration.children| && declaration.children[j].kind == StringLiteral
    ensures ImportDetails(LiteralPathAsWritten(declaration.children[j]), declaration) in DeclarationLiterals(declaration, i)
    decreases i
  {
    if j < i - 1 {
      LiteralChildIsCandidateUpTo(declaration, i - 1, j);
    }
  }

  /**
   * Only the declaration's own children are read: two declarations whose
   * children agree in kind and full text (trivia included) give the same
   * paths, whatever lies below those children.
   */
  lemma {:induction false} DeclarationReadsOnlyItsChildren(d1: Node, d2: Node, i: nat)
    requires IsImportOrExportDeclaration(d1) && IsImportOrExportDeclaration(d2)
    requires i <= |d1.children| == |d2.children|
    requires forall k :: 0 <= k < |d1.children| ==>
      d1.children[k].kind == d2.children[k].kind && FullText(d1.children[k]) == FullText(d2.children[k])
    ensures |DeclarationLiterals(d1, i)| == |DeclarationLiterals(d2, i)|
    ensures forall k :: 0 <= k < |DeclarationLiterals(d1, i)| ==>
      DeclarationLiterals(d1, i)[k].path == DeclarationLiterals(d2, i)[k].path
  {
    if i > 0 {
      DeclarationReadsOnlyItsChildren(d1, d2, i - 1);
    }
  }

  /** Pushing the next hit, if it is restricted, onto an accumulated filter. */
  lemma FilterPush(decider: Decider, acc: seq<ImportDetails>, xs: seq<ImportDetails>, x: ImportDetails)
    ensures acc + Filter(decider, xs) + (if IsRestricted(x.path, decider) then [x] else [])
         == acc + Filter(decider, xs + [x])
  {
    var extra := if IsRestricted(x.path, decider) then [x] else [];
    calc {
      acc + Filter(decider, xs) + extra;
      acc + (Filter(decider, xs) + extra);
      { FilterSnoc(decider, xs, x); }
      acc + Filter(decider, xs + [x]);
    }
  }

  /** Appending the filter of the next part to an accumulated filter. */
  lemma FilterExtend(decider: Decider, acc: seq<ImportDetails>, xs: seq<ImportDetails>, ys: seq<ImportDetails>)
    ensures acc + Filter(decider, xs) + Filter(decider, ys) == acc + Filter(decider, xs + ys)
  {
    FilterAppend(decider, xs, ys);
  }

  /** Looking at child `i` of a declaration after children `0..i` pushes its hit, if it has a restricted one. */
  lemma DeclarationStep(decider: Decider, acc: seq<ImportDetails>, declaration: Node, i: nat)
    requires i < |declaration.children|
    ensures var c := declaration.children[i];
      acc + Filter(decider, DeclarationLiterals(declaration, i))
      + (if c.kind == StringLiteral && IsRestricted(LiteralPathAsWritten(c), decider) then [ImportDetails(LiteralPathAsWritten(c), declaration)] else [])
      == acc + Filter(decider, DeclarationLiterals(declaration, i + 1))
  {
    var c, before := declaration.children[i], DeclarationLiterals(declaration, i);
    if c.kind == StringLiteral {
      var hit := ImportDetails(LiteralPathAsWritten(c), declaration);
      assert DeclarationLiterals(declaration, i + 1) == before + [hit];
      FilterPush(decider, acc, before, hit);
    } else {
      assert DeclarationLiterals(declaration, i + 1) == before;
      assert acc + Filter(decider, before) + [] == acc + Filter(decider, before);
    }
  }

  /** Checking child `i` after children `0..i` extends the accumulated filter by that child's hits. */
  lemma ChildStep(decider: Decider, acc: seq<ImportDetails>, node: Node, i: nat)
    requires i < |node.children|
    ensures acc + Filter(decider, ChildCandidates(node, i)) + Filter(decider, Candidates(node.children[i]))
         == acc + Filter(decider, ChildCandidates(node, i + 1))
  {
    var done, next := ChildCandidates(node, i), Candidates(node.children[i]);
    assert ChildCandidates(node, i + 1) == done + next;
    FilterExtend(decider, acc, done, next);
  }

  /**
   * `checkDeclaration`: for each child of the declaration that is a string
   * literal, read its path and push a hit when the decider restricts it.
   */
  method CheckDeclaration(declaration: Node, decider: Decider, acc: seq<ImportDetails>) returns (out: seq<ImportDetails>)
    ensures out == acc + Filter(decider, DeclarationLiterals(declaration, |declaration.children|))
  {
    out := acc;
    for i := 0 to |declaration.children|
      invariant out == acc + Filter(decider, DeclarationLiterals(declaration, i))
    {
      var node := declaration.children[i];
      DeclarationStep(decider, acc, declaration, i);
      if node.kind == StringLiteral {
        var importPath := LiteralPathAsWritten(node);
        if IsRestricted(importPath, decider) {
          out := out + [ImportDetails(importPath, declaration)];
        }
      }
    }
  }

  /**
   * `checkNode`: a declaration is checked; any other node has each of its
   * children checked in turn.
   */
  method CheckNode(node: Node, decider: Decider, acc: seq<ImportDetails>) returns (out: seq<ImportDetails>)
    ensures out == acc + Filter(decider, Candidates(node))
    decreases node
  {
    if IsImportOrExportDeclaration(node) {
      out := CheckDeclaration(node, decider, acc);
    } else {
      out := acc;
      for i := 0 to |node.children|
        invariant out == acc + Filter(decider, ChildCandidates(node, i))
      {
        ChildStep(decider, acc, node, i);
        out := CheckNode(node.children[i], decider, out);
      }
      assert ChildCandidates(node, |node.children|) == Candidates(node);
    }
  }

  /** `badImportsIn(rootNode, decider)`: check the tree into a fresh accumulator. */
  method BadImportsIn(rootNode: Node, decider: Decider) returns (errors: seq<ImportDetails>)
    ensures errors == Filter(decider, Candidates(rootNode))
  {
    errors := CheckNode(rootNode, decider, []);
  }

  /**
   * `check({source, deciders, fileName})`: parse the source (the TypeScript
   * parser is the parameter `parse`) and compute the bad imports of each
   * decider, one list per decider, in decider order.
   */
  method Check(source: string, deciders: seq<Decider>, fileName: string, parse: (string, string) -> Node)
    returns (result: seq<seq<ImportDetails>>)
    ensures |result| == |deciders|
    ensures forall k :: 0 <= k < |deciders| ==> result[k] == Filter(deciders[k], Candidates(parse(fileName, source)))
  {
    var sourceFile := parse(fileName, source);
    result := [];
    for k := 0 to |deciders|
      invariant |result| == k
      invariant forall j :: 0 <= j < k ==> result[j] == Filter(deciders[j], Candidates(sourceFile))
    {
      var badImports := BadImportsIn(sourceFile, deciders[k]);
      result := result + [badImports];
    }
  }

  /** A string literal for `path` as it follows `from`: one space of trivia, then the quoted path. */
  function LiteralNode(path: string): (r: Node)
    ensures r.kind == StringLiteral && LiteralPath(r) == path
  {
    Node(StringLiteral, [], " ", Quote(path))
  }

  /** The scanner reads `path` back from that literal: its trivia is whitespace only. */
  lemma LiteralNodeReadsPath(path: string)
    ensures LiteralPathAsWritten(LiteralNode(path)) == path
  {
    LiteralPathAgrees(LiteralNode(path));
  }

  /**
   * The six statements of the test fixture `different-import-kinds.ts`, all
   * importing `path`: three import forms with a clause, a bare import, an
   * import-equals with `require` (its literal sits inside an external module
   * reference), and a re-export.
   */
  function ImportKinds(path: string): seq<Node>
  {
    var literal := LiteralNode(path);
    [ Node(ImportDeclaration, [Node(Other, [], " ", "{}"), literal], "", "import {} from " + Quote(path) + ";"),
      Node(ImportDeclaration, [Node(Other, [], " ", "* as typescriptStar"), literal], "\n",
        "import * as typescriptStar from " + Quote(path) + ";"),
      Node(ImportDeclaration, [Node(Other, [], " ", "typescriptDefault"), literal], "\n",
        "import typescriptDefault from " + Quote(path) + ";"),
      Node(ImportDeclaration, [literal], "\n", "import " + Quote(path) + ";"),
      Node(Other, [Node(Other, [], " ", "typescriptRequire"),
                   Node(Other, [Node(StringLiteral, [], "", Quote(path))], " ", "require(" + Quote(path) + ")")],
        "\n", "import typescriptRequire = require(" + Quote(path) + ");"),
      Node(ExportDeclaration, [Node(Other, [], " ", "{}"), literal], "\n", "export {} from " + Quote(path) + ";") ]
  }

  /**
   * Scanning that fixture with a decider that restricts `path` reports the
   * import and export declarations in source order, each with its own
   * statement; the import-equals statement is not an import declaration and
   * is not reported.
   */
  lemma ImportKindsFound(path: string, decider: Decider, statements: seq<Node>)
    requires IsRestricted(path, decider) && statements == ImportKinds(path)
    ensures Filter(decider, Candidates(Node(Other, statements, "", ""))) ==
      [ ImportDetails(path, statements[0]), ImportDetails(path, statements[1]),
        ImportDetails(path, statements[2]), ImportDetails(path, statements[3]),
        ImportDetails(path, statements[5]) ]
  {
    ImportKindsCandidates(path, statements);
    var hits := Candidates(Node(Other, statements, "", ""));
    assert forall k :: 0 <= k < |hits| ==> hits[k].path == path;
    FilterKeepsSuffix(decider, hits, 0);
  }

  /** The candidates of that fixture: one per import or export declaration, in source order. */
  lemma ImportKindsCandidates(path: string, statements: seq<Node>)
    requires statements == ImportKinds(path)
    ensures Candidates(Node(Other, statements, "", "")) ==
      [ ImportDetails(path, statements[0]), ImportDetails(path, statements[1]),
        ImportDetails(path, statements[2]), ImportDetails(path, statements[3]),
        ImportDetails(path, statements[5]) ]
  {
    var root := Node(Other, statements, "", "");
    var h0, h1, h2 := ImportDetails(path, statements[0]), ImportDetails(path, statements[1]), ImportDetails(path, statements[2]);
    var h3, h5 := ImportDetails(path, statements[3]), ImportDetails(path, statements[5]);
    ClauseAndLiteralNode(statements[0], path);
    ClauseAndLiteralNode(statements[1], path);
    ClauseAndLiteralNode(statements[2], path);
    SingleLiteralNode(statements[3], path);
    ImportEqualsNotReported(statements[4]);
    ClauseAndLiteralNode(statements[5], path);
    SixStatements(root, [h0], [h1], [h2], [h3], [h5]);
    FiveHits(h0, h1, h2, h3, h5);
  }

  lemma FiveHits(h0: ImportDetails, h1: ImportDetails, h2: ImportDetails, h3: ImportDetails, h5: ImportDetails)
    ensures [h0] + [h1] + [h2] + [h3] + [h5] == [h0, h1, h2, h3, h5]
  {
  }

  /** The candidates of a node with six children whose fifth yields none. */
  lemma SixStatements(root: Node, c0: seq<ImportDetails>, c1: seq<ImportDetails>, c2: seq<ImportDetails>,
                      c3: seq<ImportDetails>, c5: seq<ImportDetails>)
    requires !IsImportOrExportDeclaration(root) && |root.children| == 6
    requires Candidates(root.children[0]) == c0 && Candidates(root.children[1]) == c1
    requires Candidates(root.children[2]) == c2 && Candidates(root.children[3]) == c3
    requires Candidates(root.children[4]) == [] && Candidates(root.children[5]) == c5
    ensures Candidates(root) == c0 + c1 + c2 + c3 + c5
  {
    assert ChildCandidates(root, 1) == c0;
    assert ChildCandidates(root, 2) == c0 + c1;
    assert ChildCandidates(root, 3) == c0 + c1 + c2;
    assert ChildCandidates(root, 4) == c0 + c1 + c2 + c3;
    assert ChildCandidates(root, 5) == c0 + c1 + c2 + c3 + [];
  }

  /** A declaration whose one child is the literal reports that literal. */
  lemma SingleLiteral(declaration: Node)
    requires IsImportOrExportDeclaration(declaration) && |declaration.children| == 1
    requires declaration.children[0].kind == StringLiteral
    ensures Candidates(declaration) == [ImportDetails(LiteralPathAsWritten(declaration.children[0]), declaration)]
  {
  }

  /**
   * A statement of the shape `import x = require("p")` yields no candidate:
   * it is neither an import nor an export declaration, and the literal lies
   * below a child that is not a declaration either.
   */
  lemma ImportEqualsNotReported(statement: Node)
    requires statement.kind == Other && |statement.children| == 2
    requires statement.children[0] == Node(Other, [], statement.children[0].leadingTrivia, statement.children[0].text)
    requires statement.children[1].kind == Other && |statement.children[1].children| == 1
    requires statement.children[1].children[0].kind == StringLiteral
    requires statement.children[1].children[0].children == []
    ensures Candidates(statement) == []
  {
    var name, reference := statement.children[0], statement.children[1];
    assert Candidates(name) == ChildCandidates(name, 0) == [];
    assert Candidates(reference.children[0]) == ChildCandidates(reference.children[0], 0) == [];
    assert ChildCandidates(reference, 1) == ChildCandidates(reference, 0) + [];
    assert Candidates(reference) == [];
    assert ChildCandidates(statement, 1) == ChildCandidates(statement, 0) + [];
    assert ChildCandidates(statement, 2) == ChildCandidates(statement, 1) + [];
  }

  /** A declaration with a clause followed by the literal reports that one literal. */
  lemma ClauseAndLiteral(declaration: Node)
    requires IsImportOrExportDeclaration(declaration) && |declaration.children| == 2
    requires declaration.children[0].kind != StringLiteral && declaration.children[1].kind == StringLiteral
    ensures Candidates(declaration) == [ImportDetails(LiteralPathAsWritten(declaration.children[1]), declaration)]
  {
    assert DeclarationLiterals(declaration, 1) == DeclarationLiterals(declaration, 0) + [];
  }

  /** A fixture declaration with a clause and `LiteralNode(path)` reports `path`. */
  lemma ClauseAndLiteralNode(declaration: Node, path: string)
    requires IsImportOrExportDeclaration(declaration) && |declaration.children| == 2
    requires declaration.children[0].kind != StringLiteral && declaration.children[1] == LiteralNode(path)
    ensures Candidates(declaration) == [ImportDetails(path, declaration)]
  {
    LiteralNodeReadsPath(path);
    ClauseAndLiteral(declaration);
  }

  /** A fixture declaration whose one child is `LiteralNode(path)` reports `path`. */
  lemma SingleLiteralNode(declaration: Node, path: string)
    requires IsImportOrExportDeclaration(declaration) && |declaration.children| == 1
    requires declaration.children[0] == LiteralNode(path)
    ensures Candidates(declaration) == [ImportDetails(path, declaration)]
  {
    LiteralNodeReadsPath(path);
    SingleLiteral(declaration);
  }

  /**
   * The scanner reports what it reads: a declaration whose literal follows a
   * block comment is reported under the comment-laden path, so a decider sees
   * that string and not the imported path.
   */
  lemma CommentedDeclarationReported(declaration: Node, ws: string, comment: string, path: string)
    requires forall k :: 0 <= k < |ws| ==> IsWhiteSpace(ws[k])
    requires comment != [] && !IsWhiteSpace(comment[0])
    requires IsImportOrExportDeclaration(declaration) && |declaration.children| == 2
    requires declaration.children[0].kind != StringLiteral
    requires declaration.children[1] == Node(StringLiteral, [], ws + comment, Quote(path))
    ensures Candidates(declaration) == [ImportDetails(comment[1..] + "\"" + path, declaration)]
    ensures Candidates(declaration)[0].path != path
  {
    CommentBeforeLiteral(ws, comment, path);
    ClauseAndLiteral(declaration);
  }

  lemma SplitAt(xs: seq<ImportDetails>, n: nat)
    requires n <= |xs|
    ensures xs[..n] + xs[n..] == xs
  {
  }

  lemma SplitLast(xs: seq<ImportDetails>)
    requires xs != []
    ensures xs[..|xs| - 1] + [xs[|xs| - 1]] == xs
  {
  }

  /** `decider` restricts every entry of `xs`. */
  predicate AllRestricted(decider: Decider, xs: seq<ImportDetails>)
  {
    forall k :: 0 <= k < |xs| ==> IsRestricted(xs[k].path, decider)
  }

  /** `decider` restricts no entry of `xs`. */
  predicate NoneRestricted(decider: Decider, xs: seq<ImportDetails>)
  {
    forall k :: 0 <= k < |xs| ==> !IsRestricted(xs[k].path, decider)
  }

  lemma {:induction false} FilterAll(decider: Decider, xs: seq<ImportDetails>)
    requires AllRestricted(decider, xs)
    ensures Filter(decider, xs) == xs
  {
    if xs != [] {
      var init, last := xs[..|xs| - 1], xs[|xs| - 1];
      assert AllRestricted(decider, init) by {
        forall k | 0 <= k < |init| ensures IsRestricted(init[k].path, decider) {
          assert init[k] == xs[k];
        }
      }
      FilterAll(decider, init);
      assert IsRestricted(last.path, decider);
      FilterSnoc(decider, init, last);
      SplitLast(xs);
    }
  }

  lemma {:induction false} FilterNone(decider: Decider, xs: seq<ImportDetails>)
    requires NoneRestricted(decider, xs)
    ensures Filter(decider, xs) == []
  {
    if xs != [] {
      var init, last := xs[..|xs| - 1], xs[|xs| - 1];
      assert NoneRestricted(decider, init) by {
        forall k | 0 <= k < |init| ensures !IsRestricted(init[k].path, decider) {
          assert init[k] == xs[k];
        }
      }
      FilterNone(decider, init);
      assert !IsRestricted(last.path, decider);
      FilterSnoc(decider, init, last);
      SplitLast(xs);
    }
  }

  /**
   * When the entries before position `n` are unrestricted and those from `n`
   * on are restricted, the filter returns exactly the entries from `n` on.
   */
  lemma FilterKeepsSuffix(decider: Decider, xs: seq<ImportDetails>, n: nat)
    requires n <= |xs|
    requires forall k :: 0 <= k < n ==> !IsRestricted(xs[k].path, decider)
    requires forall k :: n <= k < |xs| ==> IsRestricted(xs[k].path, decider)
    ensures Filter(decider, xs) == xs[n..]
  {
    var before, after := xs[..n], xs[n..];
    assert NoneRestricted(decider, before) by {
      forall k | 0 <= k < |before| ensures !IsRestricted(before[k].path, decider) {
        assert before[k] == xs[k];
      }
    }
    assert AllRestricted(decider, after) by {
      forall k | 0 <= k < |after| ensures IsRestricted(after[k].path, decider) {
        assert after[k] == xs[n + k];
      }
    }
    FilterNone(decider, before);
    FilterAll(decider, after);
    FilterAround(decider, xs, n);
  }

  /** A filter that drops all of `xs[..n]` and keeps all of `xs[n..]` returns `xs[n..]`. */
  lemma FilterAround(decider: Decider, xs: seq<ImportDetails>, n: nat)
    requires n <= |xs|
    requires Filter(decider, xs[..n]) == [] && Filter(decider, xs[n..]) == xs[n..]
    ensures Filter(decider, xs) == xs[n..]
  {
    calc {
      Filter(decider, xs);
      { SplitAt(xs, n); }
      Filter(decider, xs[..n] + xs[n..]);
      { FilterAppend(decider, xs[..n], xs[n..]); }
      [] + xs[n..];
      xs[n..];
    }
  }
}
