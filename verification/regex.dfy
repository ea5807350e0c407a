/**
 * The fragment of Python's `re` that the URL recognisers use: literals,
 * character classes, `?`, `*`, `+`, concatenation and alternation, matched
 * with `re.match` (anchored at the start only), optionally followed by `$`.
 *
 * A pattern has two meanings here. `InLang` is the textbook language of the
 * pattern: the set of strings it matches as a whole. `Ends` is an executable
 * matcher: the set of every index `j` such that `s[i..j]` matches. `EndsSound`
 * proves the two agree, so a recogniser written with `Ends` accepts exactly
 * what the regular expression describes. Patterns here have no
 * back-references or look-arounds, so a backtracking engine such as Python's
 * finds a match exactly when one exists; greediness only decides which match
 * is reported, which matters for captured groups (handled where they are used).
 */
module Regex {
  import opened Wrappers

  /**
   * The Unicode database Python consults for `\d` (decimal digits) and `\w`
   * (alphanumerics) on non-ASCII characters. ASCII characters never reach it.
   */
  datatype UnicodeDb = UnicodeDb(isDecimal: char -> bool, isAlnum: char -> bool)

  datatype CharClass =
    | InRanges(ranges: seq<(char, char)>)  // `[a-zA-Z0-9_-]`, each bound inclusive
    | NoneOf(excluded: seq<char>)          // `[^/]`
    | Digit                                // `\d`
    | Word                                 // `\w`
    | NotNewline                           // `.`

  predicate InRangeList(rs: seq<(char, char)>, c: char) {
    |rs| > 0 && ((rs[0].0 <= c <= rs[0].1) || InRangeList(rs[1..], c))
  }

  predicate IsAsciiDigit(c: char) {
    '0' <= c <= '9'
  }

  predicate IsAsciiAlnum(c: char) {
    IsAsciiDigit(c) || 'a' <= c <= 'z' || 'A' <= c <= 'Z'
  }

  predicate InClass(db: UnicodeDb, cc: CharClass, c: char) {
    match cc
    case InRanges(rs) => InRangeList(rs, c)
    case NoneOf(xs) => c !in xs
    case Digit => IsAsciiDigit(c) || (c as int >= 128 && db.isDecimal(c))
    case Word => IsAsciiAlnum(c) || c == '_' || (c as int >= 128 && db.isAlnum(c))
    case NotNewline => c != '\n'
  }

  datatype Re =
    | Lit(text: string)
    | One(cc: CharClass)
    | Many(cc: CharClass, atLeast: nat)    // `c*` when atLeast is 0, `c+` when it is 1
    | Opt(body: Re)                        // `(...)?`
    | Cat(first: Re, rest: Re)
    | Alt(left: Re, right: Re)             // `(a|b)`

  /** The concatenation of a list of patterns. */
  function Cats(rs: seq<Re>): Re {
    if |rs| == 0 then Lit("")
    else if |rs| == 1 then rs[0]
    else Cat(rs[0], Cats(rs[1..]))
  }

  /** `(a|b|...)` over a non-empty list of alternatives. */
  function Alts(rs: seq<Re>): Re
    requires |rs| > 0
  {
    if |rs| == 1 then rs[0] else Alt(rs[0], Alts(rs[1..]))
  }

  /** The language of a pattern: `t` matches `r` as a whole. */
  ghost predicate InLang(db: UnicodeDb, r: Re, t: string)
    decreases r
  {
    match r
    case Lit(x) => t == x
    case One(cc) => |t| == 1 && InClass(db, cc, t[0])
    case Many(cc, m) => |t| >= m && forall k :: 0 <= k < |t| ==> InClass(db, cc, t[k])
    case Opt(a) => t == [] || InLang(db, a, t)
    case Cat(a, b) => exists k :: 0 <= k <= |t| && InLang(db, a, t[..k]) && InLang(db, b, t[k..])
    case Alt(a, b) => InLang(db, a, t) || InLang(db, b, t)
  }

  /** The length of the longest run of class members starting at `i`. */
  function Run(db: UnicodeDb, cc: CharClass, s: string, i: nat): (n: nat)
    requires i <= |s|
    ensures i + n <= |s|
    ensures forall k :: i <= k < i + n ==> InClass(db, cc, s[k])
    ensures i + n < |s| ==> !InClass(db, cc, s[i + n])
    decreases |s| - i
  {
    if i < |s| && InClass(db, cc, s[i]) then 1 + Run(db, cc, s, i + 1) else 0
  }

  /** The integers from `lo` to `hi` inclusive. */
  function Interval(lo: nat, hi: nat): (e: set<nat>)
    ensures forall j :: j in e <==> lo <= j <= hi
    decreases hi - lo
  {
    if lo > hi then {} else {lo} + Interval(lo + 1, hi)
  }

  /** Every `j` such that `s[i..j]` matches `r`. */
  function Ends(db: UnicodeDb, r: Re, s: string, i: nat): (e: set<nat>)
    requires i <= |s|
    ensures forall j :: j in e ==> i <= j <= |s|
    decreases r
  {
    match r
    case Lit(x) => if i + |x| <= |s| && s[i..i + |x|] == x then {i + |x|} else {}
    case One(cc) => if i < |s| && InClass(db, cc, s[i]) then {i + 1} else {}
    case Many(cc, m) =>
      Interval(i + m, i + Run(db, cc, s, i))
    case Opt(a) => {i} + Ends(db, a, s, i)
    case Cat(a, b) => set k, j | k in Ends(db, a, s, i) && j in Ends(db, b, s, k) :: j
    case Alt(a, b) => Ends(db, a, s, i) + Ends(db, b, s, i)
  }

  /** The matcher and the language agree on every slice. */
  lemma {:induction false} EndsSound(db: UnicodeDb, r: Re, s: string, i: nat, j: nat)
    requires i <= j <= |s|
    ensures j in Ends(db, r, s, i) <==> InLang(db, r, s[i..j])
    decreases r
  {
    match r
    case Lit(x) =>
    case One(cc) =>
    case Many(cc, m) =>
      ManySound(db, cc, m, s, i, j);
    case Opt(a) =>
      EndsSound(db, a, s, i, j);
    case Alt(a, b) =>
      EndsSound(db, a, s, i, j);
      EndsSound(db, b, s, i, j);
    case Cat(a, b) =>
      forall k | i <= k <= j
        ensures (k in Ends(db, a, s, i) <==> InLang(db, a, s[i..k]))
        ensures (j in Ends(db, b, s, k) <==> InLang(db, b, s[k..j]))
      {
        EndsSound(db, a, s, i, k);
        EndsSound(db, b, s, k, j);
      }
      CatSound(db, a, b, s, i, j);
  }

  /** A run of class members: the matcher's interval is the language of `c*` or `c+`. */
  lemma ManySound(db: UnicodeDb, cc: CharClass, m: nat, s: string, i: nat, j: nat)
    requires i <= j <= |s|
    ensures j in Ends(db, Many(cc, m), s, i) <==> InLang(db, Many(cc, m), s[i..j])
  {
    var t := s[i..j];
    if j in Ends(db, Many(cc, m), s, i) {
      forall k | 0 <= k < |t| ensures InClass(db, cc, t[k]) {
        assert t[k] == s[i + k];
      }
    }
  }

  /** Concatenation agrees once both parts agree on every split point. */
  lemma CatSound(db: UnicodeDb, a: Re, b: Re, s: string, i: nat, j: nat)
    requires i <= j <= |s|
    requires forall k :: i <= k <= j ==> (k in Ends(db, a, s, i) <==> InLang(db, a, s[i..k]))
    requires forall k :: i <= k <= j ==> (j in Ends(db, b, s, k) <==> InLang(db, b, s[k..j]))
    ensures j in Ends(db, Cat(a, b), s, i) <==> InLang(db, Cat(a, b), s[i..j])
  {
    if j in Ends(db, Cat(a, b), s, i) {
      var k :| k in Ends(db, a, s, i) && j in Ends(db, b, s, k);
      CatSplitAt(db, a, b, s, i, j, k);
    }
    if InLang(db, Cat(a, b), s[i..j]) {
      var m :| 0 <= m <= j - i && InLang(db, a, s[i..j][..m]) && InLang(db, b, s[i..j][m..]);
      CatSplitAt(db, a, b, s, i, j, i + m);
    }
  }

  /** One split point `k` of `s[i..j]`: both parts match exactly when the whole does through `k`. */
  lemma CatSplitAt(db: UnicodeDb, a: Re, b: Re, s: string, i: nat, j: nat, k: nat)
    requires i <= k <= j <= |s|
    requires k in Ends(db, a, s, i) <==> InLang(db, a, s[i..k])
    requires j in Ends(db, b, s, k) <==> InLang(db, b, s[k..j])
    ensures k in Ends(db, a, s, i) && j in Ends(db, b, s, k) ==>
      j in Ends(db, Cat(a, b), s, i) && InLang(db, Cat(a, b), s[i..j])
    ensures InLang(db, a, s[i..j][..k - i]) && InLang(db, b, s[i..j][k - i..]) ==>
      j in Ends(db, Cat(a, b), s, i) && InLang(db, Cat(a, b), s[i..j])
  {
    var t := s[i..j];
    assert t[..k - i] == s[i..k];
    assert t[k - i..] == s[k..j];
  }

  /** Python's `re.match(p, s)` for a pattern with no trailing `$`: some prefix matches. */
  predicate MatchesPrefix(db: UnicodeDb, r: Re, s: string) {
    Ends(db, r, s, 0) != {}
  }

  /**
   * Python's `re.match(p + '$', s)`: the pattern matches all of `s`, or all of
   * it but one final "\n" (Python's `$` also matches just before a trailing newline).
   */
  predicate MatchesWhole(db: UnicodeDb, r: Re, s: string) {
    || |s| in Ends(db, r, s, 0)
    || (|s| > 0 && s[|s| - 1] == '\n' && |s| - 1 in Ends(db, r, s, 0))
  }

  /** `re.match` without `$` accepts exactly the strings with a prefix in the pattern's language. */
  lemma MatchesPrefixIff(db: UnicodeDb, r: Re, s: string)
    ensures MatchesPrefix(db, r, s) <==> exists k :: 0 <= k <= |s| && InLang(db, r, s[..k])
  {
    if MatchesPrefix(db, r, s) {
      var k :| k in Ends(db, r, s, 0);
      EndsSound(db, r, s, 0, k);
      assert s[0..k] == s[..k];
    }
    if k :| 0 <= k <= |s| && InLang(db, r, s[..k]) {
      EndsSound(db, r, s, 0, k);
      assert s[0..k] == s[..k];
    }
  }

  /** `re.match` with `$` accepts `s`, or `s` minus one trailing newline, in the pattern's language. */
  lemma MatchesWholeIff(db: UnicodeDb, r: Re, s: string)
    ensures MatchesWhole(db, r, s) <==>
      || InLang(db, r, s)
      || (|s| > 0 && s[|s| - 1] == '\n' && InLang(db, r, s[..|s| - 1]))
  {
    EndsSound(db, r, s, 0, |s|);
    assert s[0..|s|] == s;
    if |s| > 0 {
      EndsSound(db, r, s, 0, |s| - 1);
      assert s[0..|s| - 1] == s[..|s| - 1];
    }
  }

  /** Prefix matching only looks at a prefix, so appending text never loses a match. */
  lemma MatchesPrefixExtend(db: UnicodeDb, r: Re, s: string, tail: string)
    requires MatchesPrefix(db, r, s)
    ensures MatchesPrefix(db, r, s + tail)
  {
    var k :| k in Ends(db, r, s, 0);
    EndsSound(db, r, s, 0, k);
    assert (s + tail)[0..k] == s[0..k];
    EndsSound(db, r, s + tail, 0, k);
  }

  /** A full match (with `$`) is in particular a prefix match. */
  lemma MatchesWholeIsPrefix(db: UnicodeDb, r: Re, s: string)
    requires MatchesWhole(db, r, s)
    ensures MatchesPrefix(db, r, s)
  {
  }

  /** Python's loop `for p in patterns: if re.match(p, url): return True`, without `$`. */
  predicate AnyMatchesPrefix(db: UnicodeDb, ps: seq<Re>, s: string) {
    |ps| > 0 && (MatchesPrefix(db, ps[0], s) || AnyMatchesPrefix(db, ps[1..], s))
  }

  /** The same loop over patterns that end in `$`. */
  predicate AnyMatchesWhole(db: UnicodeDb, ps: seq<Re>, s: string) {
    |ps| > 0 && (MatchesWhole(db, ps[0], s) || AnyMatchesWhole(db, ps[1..], s))
  }

  /** The pattern-list loop accepts exactly when one of the patterns matches. */
  lemma {:induction false} AnyMatchesPrefixIff(db: UnicodeDb, ps: seq<Re>, s: string)
    ensures AnyMatchesPrefix(db, ps, s) <==> exists k :: 0 <= k < |ps| && MatchesPrefix(db, ps[k], s)
    decreases |ps|
  {
    if |ps| > 0 {
      AnyMatchesPrefixIff(db, ps[1..], s);
      if k :| 0 <= k < |ps| && MatchesPrefix(db, ps[k], s) {
        if k > 0 {
          assert ps[1..][k - 1] == ps[k];
        }
      }
    }
  }

  lemma {:induction false} AnyMatchesWholeIff(db: UnicodeDb, ps: seq<Re>, s: string)
    ensures AnyMatchesWhole(db, ps, s) <==> exists k :: 0 <= k < |ps| && MatchesWhole(db, ps[k], s)
    decreases |ps|
  {
    if |ps| > 0 {
      AnyMatchesWholeIff(db, ps[1..], s);
      if k :| 0 <= k < |ps| && MatchesWhole(db, ps[k], s) {
        if k > 0 {
          assert ps[1..][k - 1] == ps[k];
        }
      }
    }
  }

  /** Appending text never turns an accepted URL into a rejected one under prefix matching. */
  lemma {:induction false} AnyMatchesPrefixExtend(db: UnicodeDb, ps: seq<Re>, s: string, tail: string)
    requires AnyMatchesPrefix(db, ps, s)
    ensures AnyMatchesPrefix(db, ps, s + tail)
    decreases |ps|
  {
    if MatchesPrefix(db, ps[0], s) {
      MatchesPrefixExtend(db, ps[0], s, tail);
    } else {
      AnyMatchesPrefixExtend(db, ps[1..], s, tail);
    }
  }

  /** The pattern never consults the Unicode database (no `\d`, no `\w`). */
  predicate AsciiOnly(r: Re) {
    match r
    case Lit(_) => true
    case One(cc) => !cc.Digit? && !cc.Word?
    case Many(cc, _) => !cc.Digit? && !cc.Word?
    case Opt(a) => AsciiOnly(a)
    case Cat(a, b) => AsciiOnly(a) && AsciiOnly(b)
    case Alt(a, b) => AsciiOnly(a) && AsciiOnly(b)
  }

  lemma {:induction false} RunIndependentOfDb(d1: UnicodeDb, d2: UnicodeDb, cc: CharClass, s: string, i: nat)
    requires !cc.Digit? && !cc.Word?
    requires i <= |s|
    ensures Run(d1, cc, s, i) == Run(d2, cc, s, i)
    decreases |s| - i
  {
    if i < |s| {
      RunIndependentOfDb(d1, d2, cc, s, i + 1);
    }
  }

  /** A pattern free of `\d` and `\w` matches the same slices whatever the Unicode database says. */
  lemma {:induction false} EndsIndependentOfDb(d1: UnicodeDb, d2: UnicodeDb, r: Re, s: string, i: nat)
    requires AsciiOnly(r)
    requires i <= |s|
    ensures Ends(d1, r, s, i) == Ends(d2, r, s, i)
    decreases r
  {
    match r
    case Lit(_) =>
    case One(cc) =>
    case Many(cc, _) =>
      RunIndependentOfDb(d1, d2, cc, s, i);
    case Opt(a) =>
      EndsIndependentOfDb(d1, d2, a, s, i);
    case Alt(a, b) =>
      EndsIndependentOfDb(d1, d2, a, s, i);
      EndsIndependentOfDb(d1, d2, b, s, i);
    case Cat(a, b) =>
      EndsIndependentOfDb(d1, d2, a, s, i);
      forall k | k in Ends(d1, a, s, i) ensures Ends(d1, b, s, k) == Ends(d2, b, s, k) {
        EndsIndependentOfDb(d1, d2, b, s, k);
      }
  }

  /** A database that knows no non-ASCII digits or letters; the result of ASCII-only patterns does not depend on it. */
  const NoUnicode: UnicodeDb := UnicodeDb(c => false, c => false)
}
