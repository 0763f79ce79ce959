/** `everythingInPackage` of src/deciders.ts. */
module Deciders {
  import opened Js

  /**
   * What `^name(\/.*)?$` is meant to accept: the package itself, or a path
   * below it, that is, `name + "/"` followed by a tail in which `.*` meets no
   * line terminator.
   */
  predicate InPackage(name: string, path: string) {
    path == name
    || (|path| > |name| && path[..|name| + 1] == name + "/"
        && forall k :: |name| < k < |path| ==> !IsLineTerminator(path[k]))
  }

  /** `everythingInPackage(packageName)`: the pattern `^packageName(\/.*)?$`. */
  function EverythingInPackage(packageName: string): (r: RegExp)
    ensures r.PackagePattern? && r.packageName == packageName
    ensures forall path :: Test(r, path) <==> InPackage(packageName, path)
  {
    var r := PackagePattern(packageName);
    forall path ensures Test(r, path) <==> InPackage(packageName, path) {
      PackageReMatches(packageName, path);
    }
    r
  }

  /** A literal matches exactly its own text. */
  lemma {:induction false} LiteralMatches(w: string, s: string)
    ensures Matches(Literal(w), s) <==> s == w
  {
    if w == [] {
    } else {
      if s == w {
        LiteralMatches(w[1..], s[1..]);
        assert s[..1] == [w[0]] && s[1..] == w[1..];
        assert Matches(Char(w[0]), s[..1]) && Matches(Literal(w[1..]), s[1..]);
      }
      if Matches(Literal(w), s) {
        var k :| 0 <= k <= |s| && Matches(Char(w[0]), s[..k]) && Matches(Literal(w[1..]), s[k..]);
        LiteralMatches(w[1..], s[k..]);
        assert s == s[..k] + s[k..];
      }
    }
  }

  /** `.*` matches exactly the strings free of line terminators. */
  lemma {:induction false} StarAnyMatches(s: string)
    ensures Matches(Star(AnyChar), s) <==> forall k :: 0 <= k < |s| ==> !IsLineTerminator(s[k])
    decreases |s|
  {
    if s != [] {
      StarAnyMatches(s[1..]);
      if forall k :: 0 <= k < |s| ==> !IsLineTerminator(s[k]) {
        assert forall k :: 0 <= k < |s[1..]| ==> s[1..][k] == s[k + 1];
        assert Matches(AnyChar, s[..1]) && Matches(Star(AnyChar), s[1..]);
      }
      if Matches(Star(AnyChar), s) {
        var k :| 1 <= k <= |s| && Matches(AnyChar, s[..k]) && Matches(Star(AnyChar), s[k..]);
        assert k == 1;
        forall j | 0 <= j < |s| ensures !IsLineTerminator(s[j]) {
          if j > 0 { assert s[j] == s[1..][j - 1]; } else { assert s[0] == s[..1][0]; }
        }
      }
    }
  }

  /** The optional group `(\/.*)?` matches the empty tail or `/` and a tail free of line terminators. */
  lemma SubpathGroupMatches(t: string)
    ensures Matches(Opt(Cat(Char('/'), Star(AnyChar))), t) <==>
      t == [] || (t[0] == '/' && forall k :: 1 <= k < |t| ==> !IsLineTerminator(t[k]))
  {
    if t != [] {
      StarAnyMatches(t[1..]);
      assert forall k :: 0 <= k < |t[1..]| ==> t[1..][k] == t[k + 1];
      if t[0] == '/' && forall k :: 1 <= k < |t| ==> !IsLineTerminator(t[k]) {
        assert t[..1] == ['/'];
        assert Matches(Char('/'), t[..1]) && Matches(Star(AnyChar), t[1..]);
      }
      if Matches(Cat(Char('/'), Star(AnyChar)), t) {
        var k :| 0 <= k <= |t| && Matches(Char('/'), t[..k]) && Matches(Star(AnyChar), t[k..]);
        assert k == 1;
      }
    }
  }

  /**
   * For a package name without metacharacters, the pattern
   * `^name(\/.*)?$` accepts exactly the paths `InPackage` describes.
   */
  lemma {:induction false} PackageReMatches(name: string, path: string)
    ensures Matches(PackageRe(name), path) <==> InPackage(name, path)
  {
    var group := Opt(Cat(Char('/'), Star(AnyChar)));
    if InPackage(name, path) {
      var n := |name|;
      LiteralMatches(name, path[..n]);
      SubpathGroupMatches(path[n..]);
      if path != name {
        assert path[..n] == (name + "/")[..n] == name;
        assert path[n..][0] == path[n] == (name + "/")[n] == '/';
        assert forall k :: 1 <= k < |path[n..]| ==> path[n..][k] == path[n + k];
      } else {
        assert path[..n] == name && path[n..] == [];
      }
      assert Matches(Literal(name), path[..n]) && Matches(group, path[n..]);
    }
    if Matches(PackageRe(name), path) {
      var k :| 0 <= k <= |path| && Matches(Literal(name), path[..k]) && Matches(group, path[k..]);
      LiteralMatches(name, path[..k]);
      assert k == |name|;
      SubpathGroupMatches(path[k..]);
      if path[k..] == [] {
        assert path == path[..k];
      } else {
        assert path[..k + 1] == name + "/";
        forall j | k < j < |path| ensures !IsLineTerminator(path[j]) {
          assert path[j] == path[k..][j - k];
        }
      }
    }
  }

  /** `packageName + "/" + suffix` is in the package for every suffix free of line terminators. */
  lemma SubpathIsRestricted(name: string, suffix: string)
    requires forall k :: 0 <= k < |suffix| ==> !IsLineTerminator(suffix[k])
    ensures Test(EverythingInPackage(name), name + "/" + suffix)
  {
    var path := name + "/" + suffix;
    assert path[..|name| + 1] == name + "/";
    assert forall k :: |name| < k < |path| ==> path[k] == suffix[k - |name| - 1];
  }

  /**
   * A path that does not begin with the package name is not restricted
   * (the package name occurring later, as in `my-typescript`, does not count).
   */
  lemma OtherPrefixIsNotRestricted(name: string, path: string)
    requires |path| < |name| || path[..|name|] != name
    ensures !Test(EverythingInPackage(name), path)
  {
    if |path| > |name| {
      assert path[..|name|] == (path[..|name| + 1])[..|name|];
    }
  }

  /** A path that has the package name as a proper prefix not followed by `/` is not restricted. */
  lemma LongerNameIsNotRestricted(name: string, path: string)
    requires |path| > |name| && path[..|name|] == name && path[|name|] != '/'
    ensures !Test(EverythingInPackage(name), path)
  {
  }

  /** `everythingInPackage("typescript")` restricts the package and its submodules. */
  lemma TypescriptRestricted(name: string, path: string)
    requires name == "typescript" && path == "typescript/lib/index.ts"
    ensures Test(EverythingInPackage(name), name)
    ensures Test(EverythingInPackage(name), path)
  {
    assert path[..|name| + 1] == name + "/";
  }

  /** ... and neither `typescript2` nor `my-typescript`. */
  lemma TypescriptPrefixesNotRestricted()
    ensures !Test(EverythingInPackage("typescript"), "typescript2")
    ensures !Test(EverythingInPackage("typescript"), "my-typescript")
  {
    LongerNameIsNotRestricted("typescript", "typescript2");
    assert "my-typescript"[0] != "typescript"[0];
    OtherPrefixIsNotRestricted("typescript", "my-typescript");
  }

  /** A nested name such as `typescript/lib` restricts the paths below it ... */
  lemma NestedNameRestricted(name: string, path: string)
    requires name == "typescript/lib" && path == "typescript/lib/index"
    ensures Test(EverythingInPackage(name), path)
  {
    SubpathIsRestricted(name, "index");
    assert name + "/" + "index" == path;
  }

  /** ... but neither its parent nor its siblings. */
  lemma NestedNameParentNotRestricted(name: string, parent: string, sibling: string)
    requires name == "typescript/lib" && parent == "typescript" && sibling == "typescript/index"
    ensures !Test(EverythingInPackage(name), parent)
    ensures !Test(EverythingInPackage(name), sibling)
  {
    OtherPrefixIsNotRestricted(name, parent);
    assert sibling[11] != name[11];
    OtherPrefixIsNotRestricted(name, sibling);
  }
}
