/**
 * The JavaScript built-ins the loader leans on, written out over `string`
 * (a sequence of code points): `substring`, `split`, `join`, `repeat`,
 * `trim`/`trimRight`, and `RegExp.prototype.test` for the one pattern shape
 * the package builds itself (without flags, so `test` keeps no state).
 */
module Js {

  /** WhiteSpace and LineTerminator code points of ECMAScript: what `trim` removes. */
  predicate IsWhiteSpace(c: char) {
    c == '\t' || c == '\n' || c == '\U{000B}' || c == '\U{000C}' || c == '\r' || c == ' '
    || c == '\U{00A0}' || c == '\U{1680}' || ('\U{2000}' <= c <= '\U{200A}')
    || c == '\U{2028}' || c == '\U{2029}' || c == '\U{202F}' || c == '\U{205F}'
    || c == '\U{3000}' || c == '\U{FEFF}'
  }

  /** The code points `.` in a regular expression does not match (without the `s` flag). */
  predicate IsLineTerminator(c: char) {
    c == '\n' || c == '\r' || c == '\U{2028}' || c == '\U{2029}'
  }

  /** `k` clamped into `[0, len]`, as `substring` treats its arguments. */
  function Clamp(k: int, len: nat): (r: nat)
    ensures r <= len
    ensures 0 <= k <= len ==> r == k
  {
    if k < 0 then 0 else if k > len then len else k
  }

  /**
   * `s.substring(start, end)`: both indices are clamped into the string and
   * swapped when the first one is the larger.
   */
  function Substring(s: string, start: int, end: int): (r: string)
    ensures 0 <= start <= end <= |s| ==> r == s[start..end]
    ensures end < start && 0 <= end && start <= |s| ==> r == s[end..start]
  {
    var a := Clamp(start, |s|);
    var b := Clamp(end, |s|);
    if a <= b then s[a..b] else s[b..a]
  }

  /** `" ".repeat(n)` */
  function Spaces(n: nat): (r: string)
    ensures |r| == n
    ensures forall k :: 0 <= k < n ==> r[k] == ' '
  {
    seq(n, _ => ' ')
  }

  /**
   * `s.split(sep)` for a one-character separator: the maximal separator-free
   * pieces, always at least one (the empty string splits into `[""]`).
   */
  function Split(s: string, sep: char): (pieces: seq<string>)
    ensures |pieces| >= 1
    ensures forall k :: 0 <= k < |pieces| ==> sep !in pieces[k]
  {
    if s == [] then [[]]
    else
      var rest := Split(s[1..], sep);
      if s[0] == sep then [[]] + rest
      else [[s[0]] + rest[0]] + rest[1..]
  }

  /** `parts.join(sep)` */
  function Join(parts: seq<string>, sep: string): string
  {
    if |parts| == 0 then []
    else if |parts| == 1 then parts[0]
    else parts[0] + sep + Join(parts[1..], sep)
  }

  /** Five pieces joined: the shape both of the loader's message templates take. */
  lemma JoinFive(a: string, b: string, c: string, d: string, e: string, sep: string)
    ensures Join([a, b, c, d, e], sep) == a + sep + b + sep + c + sep + d + sep + e
  {
    var parts := [a, b, c, d, e];
    assert parts[1..] == [b, c, d, e];
    assert parts[1..][1..] == [c, d, e];
    assert parts[1..][1..][1..] == [d, e];
    assert parts[1..][1..][1..][1..] == [e];
    assert Join([e], sep) == e;
    assert Join([d, e], sep) == d + sep + e;
    assert Join([c, d, e], sep) == c + sep + (d + sep + e);
    assert Join([b, c, d, e], sep) == b + sep + (c + sep + (d + sep + e));
  }

  /** Splitting text whose first piece has no separator in it keeps that piece in front. */
  lemma {:induction false} SplitPrefix(p: string, t: string, sep: char)
    requires sep !in p
    ensures Split(p + t, sep) == [p + Split(t, sep)[0]] + Split(t, sep)[1..]
  {
    var st := Split(t, sep);
    if p == [] {
      assert p + t == t && p + st[0] == st[0];
      assert [st[0]] + st[1..] == st;
    } else {
      assert (p + t)[0] == p[0] && (p + t)[1..] == p[1..] + t;
      SplitPrefix(p[1..], t, sep);
      var rest := Split(p[1..] + t, sep);
      assert rest == [p[1..] + st[0]] + st[1..];
      assert Split(p + t, sep) == [[p[0]] + rest[0]] + rest[1..];
      assert [p[0]] + (p[1..] + st[0]) == p + st[0];
    }
  }

  /** Joining the pieces of a split gives the text back. */
  lemma {:induction false} JoinSplit(s: string, sep: char)
    ensures Join(Split(s, sep), [sep]) == s
  {
    if s != [] {
      JoinSplit(s[1..], sep);
      var rest := Split(s[1..], sep);
      if s[0] != sep {
        if |rest| > 1 {
          assert ([s[0]] + rest[0]) + [sep] + Join(rest[1..], [sep]) == [s[0]] + Join(rest, [sep]);
        }
      }
    }
  }

  /** Splitting a join of separator-free pieces gives the pieces back. */
  lemma {:induction false} SplitJoin(parts: seq<string>, sep: char)
    requires |parts| >= 1
    requires forall k :: 0 <= k < |parts| ==> sep !in parts[k]
    ensures Split(Join(parts, [sep]), sep) == parts
  {
    if |parts| == 1 {
      SplitPrefix(parts[0], [], sep);
      assert parts[0] + [] == parts[0];
      assert Split([], sep) == [[]];
    } else {
      var rest := Join(parts[1..], [sep]);
      SplitJoin(parts[1..], sep);
      assert parts[0] + [sep] + rest == parts[0] + ([sep] + rest);
      SplitPrefix(parts[0], [sep] + rest, sep);
      assert ([sep] + rest)[1..] == rest;
      assert parts == [parts[0]] + parts[1..];
      var tail := Split([sep] + rest, sep);
      assert ([sep] + rest)[0] == sep;
      assert tail == [[]] + parts[1..];
      assert tail[0] == [] && tail[1..] == parts[1..];
      assert Join(parts, [sep]) == parts[0] + ([sep] + rest);
      assert parts[0] + tail[0] == parts[0];
    }
  }

  /** `s.trimStart()` */
  function TrimStart(s: string): (r: string)
    ensures |r| <= |s| && r == s[|s| - |r|..]
    ensures r == [] || !IsWhiteSpace(r[0])
    ensures forall k :: 0 <= k < |s| - |r| ==> IsWhiteSpace(s[k])
  {
    if s != [] && IsWhiteSpace(s[0]) then TrimStart(s[1..]) else s
  }

  /** `s.trimRight()` (also known as `trimEnd`) */
  function TrimEnd(s: string): (r: string)
    ensures |r| <= |s| && r == s[..|r|]
    ensures r == [] || !IsWhiteSpace(r[|r| - 1])
    ensures forall k :: |r| <= k < |s| ==> IsWhiteSpace(s[k])
  {
    if s != [] && IsWhiteSpace(s[|s| - 1]) then TrimEnd(s[..|s| - 1]) else s
  }

  /** `s.trim()` */
  function Trim(s: string): string
  {
    TrimEnd(TrimStart(s))
  }

  /** Whitespace in front of a string that begins and ends with non-whitespace is all `trim` removes. */
  lemma {:induction false} TrimAfterWhiteSpace(ws: string, t: string)
    requires forall k :: 0 <= k < |ws| ==> IsWhiteSpace(ws[k])
    requires t != [] && !IsWhiteSpace(t[0]) && !IsWhiteSpace(t[|t| - 1])
    ensures Trim(ws + t) == t
  {
    if ws != [] {
      assert (ws + t)[1..] == ws[1..] + t;
      TrimAfterWhiteSpace(ws[1..], t);
    }
  }

  /** `trimRight` of text that ends in non-whitespace, followed by whitespace, is that text. */
  lemma {:induction false} TrimEndAfter(s: string, ws: string)
    requires s == [] || !IsWhiteSpace(s[|s| - 1])
    requires forall k :: 0 <= k < |ws| ==> IsWhiteSpace(ws[k])
    ensures TrimEnd(s + ws) == s
  {
    if ws == [] {
      assert s + ws == s;
    } else {
      var shorter := ws[..|ws| - 1];
      assert (s + ws)[..|s + ws| - 1] == s + shorter;
      TrimEndAfter(s, shorter);
    }
  }

  /** A join ends with its last part. */
  lemma {:induction false} JoinEndsWith(parts: seq<string>, sep: string)
    requires parts != []
    ensures var j := Join(parts, sep); var last := parts[|parts| - 1];
      |j| >= |last| && j[|j| - |last|..] == last
  {
    if |parts| > 1 {
      JoinEndsWith(parts[1..], sep);
      var j := Join(parts[1..], sep);
      assert Join(parts, sep) == (parts[0] + sep) + j;
    }
  }

  /** The number of occurrences of `c` in `s`. */
  function Count(c: char, s: string): nat
  {
    if s == [] then 0 else (if s[0] == c then 1 else 0) + Count(c, s[1..])
  }

  lemma {:induction false} CountAppend(c: char, a: string, b: string)
    ensures Count(c, a + b) == Count(c, a) + Count(c, b)
  {
    if a == [] {
      assert a + b == b;
    } else {
      assert (a + b)[0] == a[0] && (a + b)[1..] == a[1..] + b;
      CountAppend(c, a[1..], b);
    }
  }

  /** The occurrences of `c` in all of `parts` together. */
  function CountAll(c: char, parts: seq<string>): nat
  {
    if parts == [] then 0 else Count(c, parts[0]) + CountAll(c, parts[1..])
  }

  /** Joining with a separator free of `c` adds no occurrence of `c`. */
  lemma {:induction false} CountJoin(c: char, parts: seq<string>, sep: string)
    requires Count(c, sep) == 0
    ensures Count(c, Join(parts, sep)) == CountAll(c, parts)
  {
    if |parts| == 1 {
      assert parts[1..] == [];
    } else if |parts| > 1 {
      CountJoin(c, parts[1..], sep);
      CountAppend(c, parts[0], sep);
      CountAppend(c, parts[0] + sep, Join(parts[1..], sep));
    }
  }

  /** A string made only of whitespace holds no non-whitespace character. */
  lemma {:induction false} CountInWhiteSpace(c: char, s: string)
    requires !IsWhiteSpace(c)
    requires forall k :: 0 <= k < |s| ==> IsWhiteSpace(s[k])
    ensures Count(c, s) == 0
  {
    if s != [] {
      CountInWhiteSpace(c, s[1..]);
    }
  }

  /** `trimRight` removes no character that is not whitespace. */
  lemma CountTrimEnd(c: char, s: string)
    requires !IsWhiteSpace(c)
    ensures Count(c, TrimEnd(s)) == Count(c, s)
  {
    var t := TrimEnd(s);
    assert s == t + s[|t|..];
    CountAppend(c, t, s[|t|..]);
    CountInWhiteSpace(c, s[|t|..]);
  }

  /** A character that does not occur in `s` is not counted. */
  lemma {:induction false} CountAbsent(c: char, s: string)
    requires c !in s
    ensures Count(c, s) == 0
  {
    if s != [] {
      CountAbsent(c, s[1..]);
    }
  }

  /** `n.toString()` for a non-negative integer: its decimal digits, without leading zeros. */
  function DecimalString(n: nat): (r: string)
    ensures r != []
    ensures forall k :: 0 <= k < |r| ==> '0' <= r[k] <= '9'
  {
    var digit := ['0' + (n % 10) as char];
    if n < 10 then digit else DecimalString(n / 10) + digit
  }

  /**
   * The regular-expression constructs the package's own patterns use, with
   * the meaning ECMAScript gives them when the whole input must match
   * (the pattern is anchored by `^` and `$`).
   */
  datatype Re =
    | Empty                 // matches only the empty string
    | Char(c: char)         // one literal character
    | AnyChar               // `.`: one character that is not a line terminator
    | Cat(first: Re, second: Re)
    | Opt(body: Re)         // `( ... )?`
    | Star(body: Re)        // `*`

  /** Does `re` match all of `s`? */
  predicate Matches(re: Re, s: string)
    decreases re, |s|
  {
    match re
    case Empty => s == []
    case Char(c) => s == [c]
    case AnyChar => |s| == 1 && !IsLineTerminator(s[0])
    case Cat(a, b) => exists k :: 0 <= k <= |s| && Matches(a, s[..k]) && Matches(b, s[k..])
    case Opt(a) => s == [] || Matches(a, s)
    case Star(a) => s == [] || exists k :: 1 <= k <= |s| && Matches(a, s[..k]) && Matches(Star(a), s[k..])
  }

  /** The characters of `w`, each standing for itself. */
  function Literal(w: string): Re
  {
    if w == [] then Empty else Cat(Char(w[0]), Literal(w[1..]))
  }

  /**
   * A JavaScript `RegExp`, as far as the loader needs one: either the pattern
   * `^<packageName>(\/.*)?$` that `everythingInPackage` and `everythingIn`
   * build, or any other regular expression, known only by its `test` behaviour.
   * That behaviour is a pure function of the path: the `lastIndex` state that
   * `test` updates on a pattern with the `g` or `y` flag is not modelled.
   */
  datatype RegExp =
    | PackagePattern(packageName: string)
    | OtherPattern(matches: string -> bool)

  /**
   * The body of `^<packageName>(\/.*)?$` when `packageName` holds no regular
   * expression metacharacter, so that each of its characters stands for itself.
   */
  function PackageRe(packageName: string): Re
  {
    Cat(Literal(packageName), Opt(Cat(Char('/'), Star(AnyChar))))
  }

  /** `re.test(input)` */
  predicate Test(re: RegExp, input: string) {
    match re
    case PackagePattern(name) => Matches(PackageRe(name), input)
    case OtherPattern(matches) => matches(input)
  }
}
