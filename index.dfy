/** The public entry points of src/index.ts: `check` and `everythingIn`. */
module Index {
  import opened Js
  import opened Text
  import opened Utilities
  import opened Core
  import Deciders

  /** `x.fileName || ""`: an absent or empty file name becomes the empty string. */
  function FileNameOrEmpty(fileName: Option<string>): (r: string)
    ensures fileName.Some? && fileName.value != "" ==> r == fileName.value
    ensures fileName.None? || fileName.value == "" ==> r == ""
  {
    if fileName.Some? && fileName.value != "" then fileName.value else ""
  }

  /**
   * `check({ source, restricted, fileName })`: the scanner of src/core.ts run
   * with `restricted` as its deciders and the file name defaulted; one list
   * of restricted imports per decider, in decider order.
   */
  method Check(source: string, restricted: seq<Decider>, fileName: Option<string>, parse: (string, string) -> Node)
    returns (result: seq<seq<ImportDetails>>)
    ensures |result| == |restricted|
    ensures forall k :: 0 <= k < |restricted| ==>
      result[k] == Filter(restricted[k], Candidates(parse(FileNameOrEmpty(fileName), source)))
  {
    result := Core.Check(source, restricted, FileNameOrEmpty(fileName), parse);
  }

  /**
   * `everythingIn(packageName)`: builds the pattern `^packageName(\/.*)?$`
   * itself; it is the same pattern as `everythingInPackage`'s, so it
   * restricts the package and everything below it.
   */
  function EverythingIn(packageName: string): (r: RegExp)
    ensures r == Deciders.EverythingInPackage(packageName)
    ensures forall path :: Test(r, path) <==> Deciders.InPackage(packageName, path)
  {
    PackagePattern(packageName)
  }

  /** `import "<path>";` on a line of its own. */
  function BareImport(path: string): Node
  {
    Node(ImportDeclaration, [LiteralNode(path)], "\n", "import " + Quote(path) + ";")
  }

  /** A source file made of one bare import per path, in order. */
  function BareImports(paths: seq<string>): (r: Node)
    ensures !IsImportOrExportDeclaration(r) && |r.children| == |paths|
  {
    Node(Other, seq(|paths|, k requires 0 <= k < |paths| => BareImport(paths[k])), "", "")
  }

  /** The hit for each bare import: its path and its statement. */
  function BareHits(paths: seq<string>): seq<ImportDetails>
  {
    seq(|paths|, k requires 0 <= k < |paths| => ImportDetails(paths[k], BareImport(paths[k])))
  }

  lemma {:induction false} BareImportsVisited(paths: seq<string>, i: nat)
    requires i <= |paths|
    ensures ChildCandidates(BareImports(paths), i) == BareHits(paths[..i])
  {
    var root := BareImports(paths);
    if i > 0 {
      BareImportsVisited(paths, i - 1);
      assert root.children[i - 1] == BareImport(paths[i - 1]);
      SingleLiteralNode(BareImport(paths[i - 1]), paths[i - 1]);
      BareHitsSnoc(paths, i);
    } else {
      assert BareHits(paths[..0]) == [];
    }
  }

  /** One more path adds its hit at the end. */
  lemma BareHitsSnoc(paths: seq<string>, i: nat)
    requires 0 < i <= |paths|
    ensures BareHits(paths[..i]) == BareHits(paths[..i - 1]) + [ImportDetails(paths[i - 1], BareImport(paths[i - 1]))]
  {
    assert paths[..i] == paths[..i - 1] + [paths[i - 1]];
  }

  /** The scanner finds every bare import, in source order. */
  lemma BareImportsFound(paths: seq<string>)
    ensures Candidates(BareImports(paths)) == BareHits(paths)
  {
    BareImportsVisited(paths, |paths|);
    assert paths[..|paths|] == paths;
  }

  /** The six bare imports of the test fixture `submodules.ts`. */
  function Submodules(): seq<string>
  {
    [ "typescript", "typescript/index", "typescript/index.ts",
      "typescript/lib", "typescript/lib/index", "typescript/lib/index.ts" ]
  }

  /** Every path of `submodules.ts` is `typescript` or lies below it. */
  lemma SubmodulesBelowTypescript(name: string, paths: seq<string>)
    requires name == "typescript" && paths == Submodules()
    ensures forall k :: 0 <= k < |paths| ==> Deciders.InPackage(name, paths[k])
  {
    assert paths[1][..|name| + 1] == name + "/";
    assert paths[2][..|name| + 1] == name + "/";
    assert paths[3][..|name| + 1] == name + "/";
    assert paths[4][..|name| + 1] == name + "/";
    assert paths[5][..|name| + 1] == name + "/";
  }

  /** Only the last three paths of `submodules.ts` are `typescript/lib` or lie below it. */
  lemma SubmodulesBelowTypescriptLib(name: string, paths: seq<string>)
    requires name == "typescript/lib" && paths == Submodules()
    ensures forall k :: 0 <= k < 3 ==> !Deciders.InPackage(name, paths[k])
    ensures forall k :: 3 <= k < |paths| ==> Deciders.InPackage(name, paths[k])
  {
    assert paths[1][11] != name[11];
    assert paths[2][11] != name[11];
    assert paths[4][..|name| + 1] == name + "/";
    assert paths[5][..|name| + 1] == name + "/";
  }

  /**
   * Scanning bare imports with a decider that restricts exactly the paths
   * from position `n` on reports exactly those imports, in order.
   */
  lemma BareImportsFrom(decider: Decider, paths: seq<string>, n: nat)
    requires n <= |paths|
    requires forall k :: 0 <= k < n ==> !IsRestricted(paths[k], decider)
    requires forall k :: n <= k < |paths| ==> IsRestricted(paths[k], decider)
    ensures Filter(decider, Candidates(BareImports(paths))) == BareHits(paths)[n..]
  {
    BareImportsFound(paths);
    FilterKeepsSuffix(decider, BareHits(paths), n);
  }

  /** `everythingIn("typescript")` restricts all six imports of `submodules.ts`, in order. */
  lemma SubmodulesOfTypescript(name: string, paths: seq<string>)
    requires name == "typescript" && paths == Submodules()
    ensures Filter(RegExpDecider(EverythingIn(name)), Candidates(BareImports(paths))) == BareHits(paths)
  {
    SubmodulesBelowTypescript(name, paths);
    BareImportsFrom(RegExpDecider(EverythingIn(name)), paths, 0);
  }

  /** `everythingIn("typescript/lib")` restricts only the last three imports of `submodules.ts`. */
  lemma SubmodulesOfTypescriptLib(name: string, paths: seq<string>)
    requires name == "typescript/lib" && paths == Submodules()
    ensures Filter(RegExpDecider(EverythingIn(name)), Candidates(BareImports(paths))) == BareHits(paths)[3..]
  {
    SubmodulesBelowTypescriptLib(name, paths);
    BareImportsFrom(RegExpDecider(EverythingIn(name)), paths, 3);
  }
}
