/**
 * The handful of Python `str` operations the downloaders rely on, with the
 * semantics CPython gives them: `in`, `find`, `replace`, `startswith`,
 * `endswith`, `strip`, `lstrip(ch)`, the `str.isspace` table, the
 * `str.splitlines` line boundaries, and `posixpath.join`.
 */
module PyStr {
  import opened Wrappers

  /** `x` occurs in `s` starting at index `i`. */
  predicate IsPrefixAt(x: string, s: string, i: nat) {
    i + |x| <= |s| && s[i..i + |x|] == x
  }

  predicate StartsWith(s: string, x: string) {
    |x| <= |s| && s[..|x|] == x
  }

  predicate EndsWith(s: string, x: string) {
    |x| <= |s| && s[|s| - |x|..] == x
  }

  /** `s.find(x, i)`: the first index at or after `i` where `x` occurs. */
  function FindFrom(s: string, x: string, i: nat): (r: Option<nat>)
    requires i <= |s|
    ensures r.Some? ==> i <= r.value && IsPrefixAt(x, s, r.value)
    ensures forall j :: i <= j && (r.None? || j < r.value) ==> !IsPrefixAt(x, s, j)
    decreases |s| - i
  {
    if IsPrefixAt(x, s, i) then Some(i)
    else if i == |s| then None
    else FindFrom(s, x, i + 1)
  }

  /** `s.find(x)`, with `None` for Python's -1. */
  function Find(s: string, x: string): Option<nat> {
    FindFrom(s, x, 0)
  }

  /** Python's `x in s`. */
  predicate Contains(s: string, x: string) {
    Find(s, x).Some?
  }

  lemma ContainsIff(s: string, x: string)
    ensures Contains(s, x) <==> exists j: nat :: IsPrefixAt(x, s, j)
  {
    if !Contains(s, x) {
      forall j: nat ensures !IsPrefixAt(x, s, j) {
        assert 0 <= j;
      }
    }
  }

  /** A string is its prefix followed by the rest. */
  lemma SplitJoin(s: string, k: nat)
    requires k <= |s|
    ensures s == s[..k] + s[k..]
  {
  }

  /** Concatenation is associative. */
  lemma AppendAssoc(a: string, b: string, c: string)
    ensures (a + b) + c == a + (b + c)
  {
  }

  /** Concatenation regroups: `a + (b + c + d)` is `a + b + c + d`. */
  lemma AppendRegroup(a: string, b: string, c: string, d: string)
    ensures a + (b + c + d) == a + b + c + d
  {
  }

  /** An occurrence that starts past `a` in `a + b` is an occurrence in `b`. */
  lemma OccurrenceInSuffix(x: string, a: string, b: string, j: nat)
    ensures j >= |a| && IsPrefixAt(x, a + b, j) ==> IsPrefixAt(x, b, j - |a|)
  {
    if j >= |a| && j + |x| <= |a + b| {
      assert (a + b)[j..j + |x|] == b[j - |a|..j - |a| + |x|];
    }
  }

  /** Replacing in a string that starts with `a` replaces that `a` first. */
  lemma ReplaceLeading(a: string, b: string, t: string)
    requires |a| > 0
    ensures Replace(a + t, a, b) == b + Replace(t, a, b)
  {
    var s := a + t;
    assert s[0..|a|] == a;
    assert s[|a|..] == t;
  }

  /** `x` occurs in `a + x + b` right after `a`. */
  lemma OccursAfter(a: string, x: string, b: string)
    ensures IsPrefixAt(x, a + x + b, |a|)
  {
    var u := a + x + b;
    assert u[|a|..|a| + |x|] == x;
  }

  /** An occurrence inside the slice `s[i..e]` is an occurrence in `s`, shifted by `i`, and conversely. */
  lemma IsPrefixAtSlice(x: string, s: string, i: nat, e: nat, j: nat)
    requires i <= e <= |s| && i + j + |x| <= e
    ensures IsPrefixAt(x, s[i..e], j) <==> IsPrefixAt(x, s, i + j)
  {
    var a, b := s[i..e][j..j + |x|], s[i + j..i + j + |x|];
    forall k | 0 <= k < |a| ensures a[k] == b[k] {
      assert a[k] == s[i..e][j + k] == s[i + j + k];
    }
    assert a == b;
  }

  /** The tail of a slice is a slice of the whole. */
  lemma SliceTail(s: string, i: nat, e: nat, k: nat)
    requires i + k <= e <= |s|
    ensures s[i..e][k..] == s[i + k..e]
  {
    var a, b := s[i..e][k..], s[i + k..e];
    forall m | 0 <= m < |a| ensures a[m] == b[m] {
      assert a[m] == s[i..e][k + m] == s[i + k + m];
    }
  }

  /** Dropping the first character shifts every occurrence one place left. */
  lemma IsPrefixAtTail(x: string, s: string, j: nat)
    requires |s| > 0
    ensures IsPrefixAt(x, s[1..], j) <==> IsPrefixAt(x, s, j + 1)
  {
    if j + |x| <= |s| - 1 {
      assert s[1..][j..j + |x|] == s[j + 1..j + 1 + |x|];
    }
  }

  /** A string with no occurrence of `x` keeps that property when its first character is dropped. */
  lemma NotContainsTail(s: string, x: string)
    requires |s| > 0
    requires !Contains(s, x)
    ensures !Contains(s[1..], x)
    ensures !IsPrefixAt(x, s, 0)
  {
    ContainsIff(s, x);
    ContainsIff(s[1..], x);
    forall j: nat ensures !IsPrefixAt(x, s[1..], j) {
      IsPrefixAtTail(x, s, j);
    }
  }

  /**
   * Python's `s.replace(a, b)`: every non-overlapping occurrence of `a`,
   * scanning left to right, becomes `b`.
   */
  function Replace(s: string, a: string, b: string): string
    requires |a| > 0
    decreases |s|
  {
    if |s| == 0 then s
    else if IsPrefixAt(a, s, 0) then b + Replace(s[|a|..], a, b)
    else [s[0]] + Replace(s[1..], a, b)
  }

  /** A string without `a` is left unchanged by replacing `a`. */
  lemma {:induction false} ReplaceAbsent(s: string, a: string, b: string)
    requires |a| > 0
    requires !Contains(s, a)
    ensures Replace(s, a, b) == s
    decreases |s|
  {
    if |s| > 0 {
      NotContainsTail(s, a);
      ReplaceAbsent(s[1..], a, b);
      assert [s[0]] + s[1..] == s;
    }
  }

  /** Replacing never lengthens a string when the replacement is no longer than the pattern. */
  lemma {:induction false} ReplaceNotLonger(s: string, a: string, b: string)
    requires |a| > 0 && |b| <= |a|
    ensures |Replace(s, a, b)| <= |s|
    decreases |s|
  {
    if |s| > 0 {
      if IsPrefixAt(a, s, 0) {
        ReplaceNotLonger(s[|a|..], a, b);
      } else {
        ReplaceNotLonger(s[1..], a, b);
      }
    }
  }

  /** With a strictly shorter replacement, any occurrence of `a` makes the result strictly shorter. */
  lemma {:induction false} ReplaceShrinks(s: string, a: string, b: string)
    requires |a| > 0 && |b| < |a|
    requires Contains(s, a)
    ensures |Replace(s, a, b)| < |s|
    decreases |s|
  {
    if IsPrefixAt(a, s, 0) {
      ReplaceNotLonger(s[|a|..], a, b);
    } else {
      ContainsIff(s, a);
      var j: nat :| IsPrefixAt(a, s, j);
      assert j > 0;
      IsPrefixAtTail(a, s, j - 1);
      ContainsIff(s[1..], a);
      ReplaceShrinks(s[1..], a, b);
    }
  }

  /**
   * When the replacement is strictly shorter than the pattern, `s.replace(a, b) == s`
   * holds exactly when `a` does not occur in `s`.
   */
  lemma ReplaceUnchangedIff(s: string, a: string, b: string)
    requires |a| > 0 && |b| < |a|
    ensures Replace(s, a, b) == s <==> !Contains(s, a)
  {
    if Contains(s, a) {
      ReplaceShrinks(s, a, b);
    } else {
      ReplaceAbsent(s, a, b);
    }
  }

  /** When `a` occurs in `s`, the replacement text occurs in `s.replace(a, b)`. */
  lemma {:induction false} ReplaceShowsReplacement(s: string, a: string, b: string)
    requires |a| > 0 && Contains(s, a)
    ensures Contains(Replace(s, a, b), b)
    decreases |s|
  {
    var r := Replace(s, a, b);
    if IsPrefixAt(a, s, 0) {
      assert r == b + Replace(s[|a|..], a, b);
      assert r[..|b|] == b;
      assert IsPrefixAt(b, r, 0);
      ContainsIff(r, b);
    } else {
      ContainsIff(s, a);
      var j: nat :| IsPrefixAt(a, s, j);
      IsPrefixAtTail(a, s, j - 1);
      ContainsIff(s[1..], a);
      ReplaceShowsReplacement(s[1..], a, b);
      var t := Replace(s[1..], a, b);
      ContainsIff(t, b);
      var i: nat :| IsPrefixAt(b, t, i);
      assert r == [s[0]] + t && r[1..] == t;
      IsPrefixAtTail(b, r, i);
      ContainsIff(r, b);
    }
  }

  /** Replacement distributes over a concatenation whose left part cannot start an occurrence. */
  lemma {:induction false} ReplaceConcat(p: string, q: string, a: string, b: string)
    requires |a| > 0
    requires forall j :: 0 <= j < |p| ==> !IsPrefixAt(a, p + q, j)
    ensures Replace(p + q, a, b) == p + Replace(q, a, b)
    decreases |p|
  {
    if |p| > 0 {
      assert !IsPrefixAt(a, p + q, 0);
      assert (p + q)[1..] == p[1..] + q;
      assert (p + q)[0] == p[0];
      assert Replace(p + q, a, b) == [p[0]] + Replace(p[1..] + q, a, b);
      forall j | 0 <= j < |p[1..]| ensures !IsPrefixAt(a, p[1..] + q, j) {
        IsPrefixAtTail(a, p + q, j);
      }
      ReplaceConcat(p[1..], q, a, b);
      assert [p[0]] + (p[1..] + Replace(q, a, b)) == p + Replace(q, a, b);
    } else {
      assert p + q == q;
    }
  }

  /** Python's `str.isspace` for one character: the characters `strip()` removes. */
  predicate IsSpace(c: char) {
    var n := c as int;
    || (9 <= n <= 13) || (0x1c <= n <= 0x20) || n == 0x85 || n == 0xa0 || n == 0x1680
    || (0x2000 <= n <= 0x200a) || n == 0x2028 || n == 0x2029 || n == 0x202f
    || n == 0x205f || n == 0x3000
  }

  /** The characters at which Python's `str.splitlines` ends a line ("\r\n" counts once). */
  predicate IsLineBoundary(c: char) {
    var n := c as int;
    || (10 <= n <= 13) || (0x1c <= n <= 0x1e) || n == 0x85 || n == 0x2028 || n == 0x2029
  }

  lemma LineBoundaryIsSpace(c: char)
    ensures IsLineBoundary(c) ==> IsSpace(c)
  {
  }

  /** Python's `s.lstrip()`. */
  function LStrip(s: string): (r: string)
    ensures |r| <= |s| && r == s[|s| - |r|..]
    ensures r == [] || !IsSpace(r[0])
    ensures forall k :: 0 <= k < |s| - |r| ==> IsSpace(s[k])
  {
    if |s| > 0 && IsSpace(s[0]) then LStrip(s[1..]) else s
  }

  /** Python's `s.rstrip()`. */
  function RStrip(s: string): (r: string)
    ensures |r| <= |s| && r == s[..|r|]
    ensures r == [] || !IsSpace(r[|r| - 1])
    ensures forall k :: |r| <= k < |s| ==> IsSpace(s[k])
  {
    if |s| > 0 && IsSpace(s[|s| - 1]) then RStrip(s[..|s| - 1]) else s
  }

  /** Python's `s.strip()`. */
  function Strip(s: string): string {
    RStrip(LStrip(s))
  }

  /** The number of leading whitespace characters `s.strip()` removes. */
  function StripOffset(s: string): nat {
    |s| - |LStrip(s)|
  }

  /**
   * `s.strip()` is the slice of `s` that remains once every leading and
   * trailing whitespace character is removed, and it neither starts nor ends
   * with whitespace.
   */
  lemma StripIsTrimmedSlice(s: string)
    ensures var r := Strip(s); var a := StripOffset(s);
      && a + |r| <= |s|
      && s[a..a + |r|] == r
      && (forall k :: 0 <= k < a ==> IsSpace(s[k]))
      && (forall k :: a + |r| <= k < |s| ==> IsSpace(s[k]))
      && (r == [] || (!IsSpace(r[0]) && !IsSpace(r[|r| - 1])))
  {
    var l := LStrip(s);
    var r := RStrip(l);
    StripSlice(s);
    StripTrailing(s);
    if r != [] {
      assert r[0] == l[0];
    }
  }

  lemma StripSlice(s: string)
    ensures var r := Strip(s); var a := StripOffset(s);
      a + |r| <= |s| && s[a..a + |r|] == r
  {
    var l := LStrip(s);
    var r := RStrip(l);
    var a := |s| - |l|;
    PrefixOfSuffix(s, a, |r|);
  }

  /** A prefix of a suffix is a slice. */
  lemma PrefixOfSuffix(s: string, a: nat, n: nat)
    requires a + n <= |s|
    ensures s[a..][..n] == s[a..a + n]
  {
  }

  lemma StripTrailing(s: string)
    ensures var r := Strip(s); var a := StripOffset(s);
      forall k :: a + |r| <= k < |s| ==> IsSpace(s[k])
  {
    var l := LStrip(s);
    var r := RStrip(l);
    var a := |s| - |l|;
    forall k | a + |r| <= k < |s| ensures IsSpace(s[k]) {
      assert s[k] == l[k - a];
    }
  }

  /** Stripping twice is stripping once. */
  lemma StripIdempotent(s: string)
    ensures Strip(Strip(s)) == Strip(s)
  {
    var r := Strip(s);
    if r != [] {
      assert LStrip(r) == r;
      assert RStrip(r) == r;
    }
  }

  /** Python's `s.lstrip(c)`: every leading copy of `c` removed. */
  function LStripChar(s: string, c: char): (r: string)
    ensures |r| <= |s| && r == s[|s| - |r|..]
    ensures r == [] || r[0] != c
    ensures forall k :: 0 <= k < |s| - |r| ==> s[k] == c
  {
    if |s| > 0 && s[0] == c then LStripChar(s[1..], c) else s
  }

  /**
   * Python's `posixpath.join(a, b)` for two components: an absolute `b`
   * replaces `a`; otherwise one '/' separates them exactly when `a` is
   * non-empty and does not already end with one.
   */
  function JoinPath(a: string, b: string): (r: string)
    ensures |b| > 0 && b[0] == '/' ==> r == b
    ensures !(|b| > 0 && b[0] == '/') ==> StartsWith(r, a) && EndsWith(r, b)
    ensures !(|b| > 0 && b[0] == '/') ==>
      (r == a + b && (a == [] || EndsWith(a, "/"))) ||
      (r == a + "/" + b && a != [] && !EndsWith(a, "/"))
  {
    if |b| > 0 && b[0] == '/' then b
    else if a == [] || EndsWith(a, "/") then a + b
    else a + "/" + b
  }

  /** `s.rfind(c)`: the last index holding `c`, with `None` for Python's -1. */
  function LastIndexOf(s: string, c: char): (r: Option<nat>)
    ensures r.Some? ==> r.value < |s| && s[r.value] == c && c !in s[r.value + 1..]
    ensures r.None? ==> c !in s
  {
    if |s| == 0 then None
    else if s[|s| - 1] == c then Some(|s| - 1)
    else
      var r := LastIndexOf(s[..|s| - 1], c);
      assert s == s[..|s| - 1] + [s[|s| - 1]];
      r
  }

  /** Python's `s.rstrip(c)`: every trailing copy of `c` removed. */
  function RStripChar(s: string, c: char): (r: string)
    ensures |r| <= |s| && r == s[..|r|]
    ensures r == [] || r[|r| - 1] != c
    ensures forall k :: |r| <= k < |s| ==> s[k] == c
  {
    if |s| > 0 && s[|s| - 1] == c then RStripChar(s[..|s| - 1], c) else s
  }

  /**
   * Python's `posixpath.dirname(p)`: everything up to the last '/', with the
   * trailing slashes removed unless nothing but slashes is left.
   */
  function DirName(p: string): (r: string)
    ensures StartsWith(p, r)
    ensures '/' !in p ==> r == []
    ensures '/' in p ==> r != []
    ensures r != [] && r[|r| - 1] == '/' ==> forall k :: 0 <= k < |r| ==> r[k] == '/'
  {
    var i := match LastIndexOf(p, '/') case None => 0 case Some(k) => k + 1;
    var head := p[..i];
    var stripped := RStripChar(head, '/');
    if stripped != [] then
      assert p[..|stripped|] == head[..|stripped|];
      stripped
    else
      head
  }

  /**
   * `r` is what `dirname` should leave of `p`: the prefix of `p` that stops
   * right before the run of slashes preceding the last component, empty
   * exactly when `p` has no '/', and kept whole when it is a root made only
   * of slashes.
   */
  predicate IsDirNameOf(p: string, r: string) {
    && StartsWith(p, r)
    && ('/' in p <==> r != [])
    && (r != [] && r[|r| - 1] == '/' ==> (forall k :: 0 <= k < |r| ==> r[k] == '/') && '/' !in p[|r|..])
    && (r != [] && r[|r| - 1] != '/' ==> |r| < |p| && p[|r|] == '/')
    && (forall j :: |r| <= j < |p| && '/' in p[j..] ==> p[j] == '/')
  }

  /** `dirname` leaves the directory part in the sense of `IsDirNameOf`. */
  lemma DirNameShape(p: string)
    ensures IsDirNameOf(p, DirName(p))
  {
    var i := match LastIndexOf(p, '/') case None => 0 case Some(k) => k + 1;
    var head := p[..i];
    var stripped := RStripChar(head, '/');
    if stripped != [] {
      assert |stripped| < |head| && head[|stripped|] == '/' by {
        assert head[|head| - 1] == '/';
      }
      assert DirName(p) == stripped;
    } else {
      assert DirName(p) == head;
      assert p[i..] == p[|head|..];
    }
  }

  /** Only one string is the directory part of `p`, so `IsDirNameOf` pins `dirname` down. */
  lemma DirNameUnique(p: string, r: string)
    requires IsDirNameOf(p, r)
    ensures r == DirName(p)
  {
    var d := DirName(p);
    DirNameShape(p);
    DirPartNotShorter(p, r, d);
    DirPartNotShorter(p, d, r);
    assert r == p[..|r|] && d == p[..|d|];
  }

  /** Of two directory parts of `p`, neither is shorter than the other. */
  lemma DirPartNotShorter(p: string, r: string, d: string)
    requires IsDirNameOf(p, r) && IsDirNameOf(p, d)
    ensures |r| >= |d|
  {
  }

  /**
   * `dirname(join(a, b))` for a last component `b` without slashes and a
   * directory `a` that is not just slashes gives back `a` without its
   * trailing slashes.
   */
  lemma DirNameOfJoin(a: string, b: string)
    requires b != [] && '/' !in b
    requires exists k :: 0 <= k < |a| && a[k] != '/'
    ensures DirName(JoinPath(a, b)) == RStripChar(a, '/')
  {
    var k :| 0 <= k < |a| && a[k] != '/';
    var head := AsDir(a);
    assert JoinPath(a, b) == head + b by {
      JoinRelative(a, b);
    }
    assert DirName(head + b) == RStripChar(a, '/') by {
      assert head[k] == a[k];
      DirNameOfDirAndName(head, b, k);
    }
  }

  /** `dirname(head + b)` for a slash-free `b` and a `head` ending in '/' that has a non-slash before it. */
  lemma DirNameOfDirAndName(head: string, b: string, k: nat)
    requires head != [] && head[|head| - 1] == '/' && k < |head| && head[k] != '/'
    requires '/' !in b
    ensures DirName(head + b) == RStripChar(head, '/')
  {
    var p := head + b;
    assert p[..|head|] == head && p[|head|..] == b;
    assert p[k] == head[k];
    DirNameBeforeName(p, |head|, k);
  }

  /**
   * When `p[n - 1]` is the last '/' of `p` and some character before it is
   * not a slash, `dirname` is `p[..n]` with its trailing slashes removed.
   */
  lemma DirNameBeforeName(p: string, n: nat, k: nat)
    requires 0 < n <= |p| && p[n - 1] == '/' && '/' !in p[n..]
    requires k < n && p[k] != '/'
    ensures DirName(p) == RStripChar(p[..n], '/')
  {
    LastIndexOfSuffixFree(p, n, '/');
    DirNameAfterLastSlash(p, n - 1, k);
  }

  /** `a` with a '/' appended unless it already ends with one. */
  function AsDir(a: string): (r: string)
    requires a != []
    ensures r != [] && r[|r| - 1] == '/'
    ensures |a| <= |r| <= |a| + 1 && r[..|a|] == a
    ensures RStripChar(r, '/') == RStripChar(a, '/')
  {
    if EndsWith(a, "/") then
      assert a[|a| - 1] == a[|a| - 1..][0];
      a
    else
      RStripCharSlash(a);
      a + "/"
  }

  /** Joining a relative `b` onto a non-empty `a` puts `b` after `a` made into a directory. */
  lemma JoinRelative(a: string, b: string)
    requires b != [] && b[0] != '/' && a != []
    ensures JoinPath(a, b) == AsDir(a) + b
  {
  }

  /**
   * When the last '/' of `p` is at `l` and some character before it is not a
   * slash, `dirname` is `p[..l + 1]` with its trailing slashes removed.
   */
  lemma DirNameAfterLastSlash(p: string, l: nat, k: nat)
    requires LastIndexOf(p, '/') == Some(l)
    requires k < l && p[k] != '/'
    ensures DirName(p) == RStripChar(p[..l + 1], '/')
  {
    var head := p[..l + 1];
    RStripCharKeeps(head, k, '/');
  }

  /** `rstrip(c)` keeps every character up to the last one that is not `c`. */
  lemma RStripCharKeeps(s: string, k: nat, c: char)
    requires k < |s| && s[k] != c
    ensures k < |RStripChar(s, c)|
  {
  }

  /** The last `c` of `s` is at `n - 1` when `s[n - 1]` is `c` and nothing after it is. */
  lemma {:induction false} LastIndexOfSuffixFree(s: string, n: nat, c: char)
    requires 0 < n <= |s| && s[n - 1] == c && c !in s[n..]
    ensures LastIndexOf(s, c) == Some(n - 1)
    decreases |s|
  {
    if n < |s| {
      var init := s[..|s| - 1];
      assert s[|s| - 1] in s[n..];
      assert init[n..] == s[n..|s| - 1];
      assert forall x :: x in init[n..] ==> x in s[n..];
      LastIndexOfSuffixFree(init, n, c);
    }
  }

  /** One more trailing '/' does not change what `rstrip('/')` leaves. */
  lemma RStripCharSlash(a: string)
    ensures RStripChar(a + "/", '/') == RStripChar(a, '/')
  {
    assert (a + "/")[..|a|] == a;
  }
}
