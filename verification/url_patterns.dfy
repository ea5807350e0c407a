/**
 * Building blocks shared by the URL patterns of every downloader, and the
 * lemmas that turn "this URL has that shape" into "the pattern matches".
 */
module UrlPatterns {
  import opened Regex
  import opened PyStr

  /** `https?://` */
  const HttpScheme: Re := Cat(Lit("http"), Cat(Opt(Lit("s")), Lit("://")))

  /** `[0-9]+` */
  const AsciiDigits: Re := Many(InRanges([('0', '9')]), 1)

  /** `[^/]+` */
  const NonSlashes: Re := Many(NoneOf(['/']), 1)

  /** `[a-zA-Z0-9_-]` */
  const IdClass: CharClass := InRanges([('a', 'z'), ('A', 'Z'), ('0', '9'), ('_', '_'), ('-', '-')])

  /** `[a-zA-Z0-9_-]+` */
  const IdChars: Re := Many(IdClass, 1)

  /** `/?` */
  const OptSlash: Re := Opt(Lit("/"))

  /** `(?:\?.*)?` */
  const OptQuery: Re := AnyTail("?")

  /** `(?:lead.*)?`: nothing, or `lead` and then anything up to a newline. */
  function AnyTail(lead: string): Re {
    Opt(Cat(Lit(lead), Many(NotNewline, 0)))
  }

  /** The strings `(?:lead.*)?` matches, stated without the pattern. */
  predicate IsAnyTail(lead: string, q: string) {
    q == [] || (|lead| <= |q| && q[..|lead|] == lead && forall k :: |lead| <= k < |q| ==> q[k] != '\n')
  }

  /** A pattern that begins with `https?://` and continues with `parts`. */
  function Url(parts: seq<Re>): Re {
    Cat(HttpScheme, Cats(parts))
  }

  /** Every pattern in the list begins with `https?://`. */
  predicate AllUrls(ps: seq<Re>) {
    forall k :: 0 <= k < |ps| ==> ps[k].Cat? && ps[k].first == HttpScheme
  }

  /** The concatenation of a list of strings. */
  function Concat(ts: seq<string>): string {
    if |ts| == 0 then "" else ts[0] + Concat(ts[1..])
  }

  lemma Concat2(a: string, b: string)
    ensures Concat([a, b]) == a + b
  {
    assert [a, b][1..] == [b];
    assert [b][1..] == [];
    assert Concat([b]) == b + Concat([]);
    assert Concat([a, b]) == a + Concat([b]);
  }

  lemma Concat3(a: string, b: string, c: string)
    ensures Concat([a, b, c]) == a + b + c
  {
    assert [a, b, c][1..] == [b, c];
    Concat2(b, c);
  }

  lemma Concat4(a: string, b: string, c: string, d: string)
    ensures Concat([a, b, c, d]) == a + b + c + d
  {
    assert [a, b, c, d][1..] == [b, c, d];
    Concat3(b, c, d);
  }

  lemma Concat5(a: string, b: string, c: string, d: string, e: string)
    ensures Concat([a, b, c, d, e]) == a + b + c + d + e
  {
    assert [a, b, c, d, e][1..] == [b, c, d, e];
    Concat4(b, c, d, e);
  }

  /** Each part matches the pattern at the same position. */
  ghost predicate PartsMatch(db: UnicodeDb, rs: seq<Re>, ts: seq<string>) {
    |rs| == |ts| && forall m :: 0 <= m < |rs| ==> InLang(db, rs[m], ts[m])
  }

  /** Strings matching the parts of a concatenation, laid end to end, match the concatenation. */
  lemma {:induction false} CatsIntro(db: UnicodeDb, rs: seq<Re>, ts: seq<string>)
    requires PartsMatch(db, rs, ts)
    ensures InLang(db, Cats(rs), Concat(ts))
    decreases |rs|
  {
    if |rs| == 1 {
      assert Concat(ts) == ts[0] + Concat(ts[1..]);
      assert Concat(ts[1..]) == "";
      assert Concat(ts) == ts[0];
    } else if |rs| > 1 {
      assert PartsMatch(db, rs[1..], ts[1..]) by {
        forall m | 0 <= m < |rs[1..]| ensures InLang(db, rs[1..][m], ts[1..][m]) {
          assert rs[1..][m] == rs[m + 1] && ts[1..][m] == ts[m + 1];
        }
      }
      CatsIntro(db, rs[1..], ts[1..]);
      var t := Concat(ts);
      assert t == ts[0] + Concat(ts[1..]);
      assert t[..|ts[0]|] == ts[0];
      assert t[|ts[0]|..] == Concat(ts[1..]);
      assert InLang(db, rs[0], ts[0]);
    }
  }

  /** A string that starts with a piece of a pattern's language is accepted by `re.match`. */
  lemma PrefixInLangMatches(db: UnicodeDb, r: Re, t: string, rest: string)
    requires InLang(db, r, t)
    ensures MatchesPrefix(db, r, t + rest)
  {
    assert (t + rest)[..|t|] == t;
    MatchesPrefixIff(db, r, t + rest);
  }

  /** "http://" and "https://" match `https?://`. */
  lemma HttpSchemeAccepts(db: UnicodeDb, t: string)
    requires t == "http://" || t == "https://"
    ensures InLang(db, HttpScheme, t)
  {
    var s := if t == "http://" then "" else "s";
    CatIntro(db, Opt(Lit("s")), Lit("://"), s, "://");
    CatIntro(db, Lit("http"), Cat(Opt(Lit("s")), Lit("://")), "http", s + "://");
    SchemeSpelling();
  }

  /** How the two schemes are spelled out of the pattern's pieces. */
  lemma SchemeSpelling()
    ensures "http" + ("" + "://") == "http://" && "http" + ("s" + "://") == "https://"
    ensures "http" + "://" == "http://" && "http" + "s://" == "https://"
  {
  }

  /** `s?://` matches only "://" and "s://". */
  lemma SchemeTailOnly(db: UnicodeDb, u: string)
    requires InLang(db, Cat(Opt(Lit("s")), Lit("://")), u)
    ensures u == "://" || u == "s://"
  {
    var m := CatSplit(db, Opt(Lit("s")), Lit("://"), u);
  }

  /** Nothing but "http://" and "https://" matches `https?://`. */
  lemma HttpSchemeOnly(db: UnicodeDb, t: string)
    requires InLang(db, HttpScheme, t)
    ensures t == "http://" || t == "https://"
  {
    var k := CatSplit(db, Lit("http"), Cat(Opt(Lit("s")), Lit("://")), t);
    SchemeTailOnly(db, t[k..]);
    SchemeSpelling();
  }

  /** A one-range class holds exactly the characters of that range. */
  lemma SingleRange(lo: char, hi: char, c: char)
    ensures InRangeList([(lo, hi)], c) <==> lo <= c <= hi
  {
    assert [(lo, hi)][1..] == [];
  }

  /** `[0-9]+` matches exactly the non-empty strings of ASCII digits. */
  lemma AsciiDigitsLang(db: UnicodeDb, t: string)
    ensures InLang(db, AsciiDigits, t) <==> |t| > 0 && forall k :: 0 <= k < |t| ==> '0' <= t[k] <= '9'
  {
    forall c: char ensures InRangeList([('0', '9')], c) <==> '0' <= c <= '9' {
      SingleRange('0', '9', c);
    }
  }

  /** `[a-zA-Z0-9_-]`, the characters of a video ID. */
  predicate IsIdChar(c: char) {
    'a' <= c <= 'z' || 'A' <= c <= 'Z' || '0' <= c <= '9' || c == '_' || c == '-'
  }

  /** A non-empty run of ID characters. */
  predicate IsId(id: string) {
    |id| > 0 && forall k :: 0 <= k < |id| ==> IsIdChar(id[k])
  }

  /** `[a-zA-Z0-9_-]` holds exactly the ID characters. */
  lemma IdClassIff(db: UnicodeDb, c: char)
    ensures InClass(db, IdClass, c) <==> IsIdChar(c)
  {
    var rs := IdClass.ranges;
    var r1, r2, r3, r4 := rs[1..], rs[2..], rs[3..], rs[4..];
    assert r1[1..] == r2 && r2[1..] == r3 && r3[1..] == r4 && r4[1..] == [];
    assert InRangeList(r4, c) <==> c == '-';
    assert InRangeList(r3, c) <==> c == '_' || c == '-';
    assert InRangeList(r2, c) <==> '0' <= c <= '9' || c == '_' || c == '-';
    assert InRangeList(r1, c) <==> 'A' <= c <= 'Z' || '0' <= c <= '9' || c == '_' || c == '-';
  }

  /** `[a-zA-Z0-9_-]+` matches exactly the video IDs. */
  lemma IdCharsLang(db: UnicodeDb, t: string)
    ensures InLang(db, IdChars, t) <==> IsId(t)
  {
    forall c: char ensures InClass(db, IdClass, c) <==> IsIdChar(c) {
      IdClassIff(db, c);
    }
  }

  /** Every string a pattern starting with `https?://` matches begins with "http://" or "https://". */
  lemma SchemeFirst(db: UnicodeDb, rest: Re, t: string)
    requires InLang(db, Cat(HttpScheme, rest), t)
    ensures StartsWith(t, "http://") || StartsWith(t, "https://")
  {
    var k :| 0 <= k <= |t| && InLang(db, HttpScheme, t[..k]) && InLang(db, rest, t[k..]);
    HttpSchemeOnly(db, t[..k]);
  }

  /** A scheme followed by strings matching each part matches the whole URL pattern. */
  lemma UrlIntro(db: UnicodeDb, parts: seq<Re>, scheme: string, ts: seq<string>)
    requires scheme == "http://" || scheme == "https://"
    requires PartsMatch(db, parts, ts)
    ensures InLang(db, Url(parts), scheme + Concat(ts))
  {
    HttpSchemeAccepts(db, scheme);
    CatsIntro(db, parts, ts);
    var t := scheme + Concat(ts);
    assert t[..|scheme|] == scheme && t[|scheme|..] == Concat(ts);
  }

  /** A string in the language of one pattern of the list, followed by anything, passes the prefix-match loop. */
  lemma ShapeAcceptedPrefix(db: UnicodeDb, ps: seq<Re>, k: nat, t: string, rest: string)
    requires k < |ps| && InLang(db, ps[k], t)
    ensures AnyMatchesPrefix(db, ps, t + rest)
  {
    PrefixInLangMatches(db, ps[k], t, rest);
    AnyMatchesPrefixIff(db, ps, t + rest);
  }

  /** A string in the language of one pattern of the list passes the full-match loop. */
  lemma ShapeAcceptedWhole(db: UnicodeDb, ps: seq<Re>, k: nat, t: string)
    requires k < |ps| && InLang(db, ps[k], t)
    ensures AnyMatchesWhole(db, ps, t)
  {
    MatchesWholeIff(db, ps[k], t);
    AnyMatchesWholeIff(db, ps, t);
  }

  /** When every pattern begins with `https?://`, the prefix-match loop accepts only http and https URLs. */
  lemma PrefixAcceptsOnlyHttp(db: UnicodeDb, ps: seq<Re>, s: string)
    requires AllUrls(ps)
    requires AnyMatchesPrefix(db, ps, s)
    ensures StartsWith(s, "http://") || StartsWith(s, "https://")
  {
    AnyMatchesPrefixIff(db, ps, s);
    var k :| 0 <= k < |ps| && MatchesPrefix(db, ps[k], s);
    MatchesPrefixIff(db, ps[k], s);
    var j :| 0 <= j <= |s| && InLang(db, ps[k], s[..j]);
    SchemeFirst(db, ps[k].rest, s[..j]);
  }

  /** When every pattern begins with `https?://`, the full-match loop accepts only http and https URLs. */
  lemma WholeAcceptsOnlyHttp(db: UnicodeDb, ps: seq<Re>, s: string)
    requires AllUrls(ps)
    requires AnyMatchesWhole(db, ps, s)
    ensures StartsWith(s, "http://") || StartsWith(s, "https://")
  {
    AnyMatchesWholeIff(db, ps, s);
    var k :| 0 <= k < |ps| && MatchesWhole(db, ps[k], s);
    MatchesWholeIff(db, ps[k], s);
    if InLang(db, ps[k], s) {
      SchemeFirst(db, ps[k].rest, s);
    } else {
      SchemeFirst(db, ps[k].rest, s[..|s| - 1]);
    }
  }

  /** A string matching `x` followed by `r`, for a literal `x`, is `x` followed by a string matching `r`. */
  lemma LitCatSplit(db: UnicodeDb, x: string, r: Re, u: string)
    requires InLang(db, Cat(Lit(x), r), u)
    ensures |x| <= |u| && u[..|x|] == x && InLang(db, r, u[|x|..])
  {
    var k :| 0 <= k <= |u| && InLang(db, Lit(x), u[..k]) && InLang(db, r, u[k..]);
    assert |u[..k]| == |x|;
  }

  /** A string matching `x` followed by `r`, for a literal `x`, is `x` and then a match `w` of `r`. */
  lemma LitThen(db: UnicodeDb, x: string, r: Re, u: string) returns (w: string)
    requires InLang(db, Cat(Lit(x), r), u)
    ensures u == x + w && InLang(db, r, w)
  {
    LitCatSplit(db, x, r, u);
    w := u[|x|..];
    SplitJoin(u, |x|);
  }

  /** A string matching `(a)?b` matches `b` or `ab`. */
  lemma OptCatSplit(db: UnicodeDb, a: Re, b: Re, u: string)
    requires InLang(db, Cat(Opt(a), b), u)
    ensures InLang(db, b, u) || InLang(db, Cat(a, b), u)
  {
    var k :| 0 <= k <= |u| && InLang(db, Opt(a), u[..k]) && InLang(db, b, u[k..]);
    if u[..k] == [] {
      assert u[k..] == u;
    } else {
      assert InLang(db, a, u[..k]);
    }
  }

  /** A match of `a` followed by a match of `b` matches `ab`. */
  lemma CatIntro(db: UnicodeDb, a: Re, b: Re, x: string, y: string)
    requires InLang(db, a, x) && InLang(db, b, y)
    ensures InLang(db, Cat(a, b), x + y)
  {
    assert (x + y)[..|x|] == x && (x + y)[|x|..] == y;
  }

  /** Where a string matching `ab` splits into a match of `a` and a match of `b`. */
  lemma CatSplit(db: UnicodeDb, a: Re, b: Re, u: string) returns (k: nat)
    requires InLang(db, Cat(a, b), u)
    ensures k <= |u| && InLang(db, a, u[..k]) && InLang(db, b, u[k..])
    ensures u == u[..k] + u[k..]
  {
    k := CatWitness(db, a, b, u);
    SplitJoin(u, k);
  }

  /** The split point the language of a concatenation promises. */
  lemma CatWitness(db: UnicodeDb, a: Re, b: Re, u: string) returns (k: nat)
    requires InLang(db, Cat(a, b), u)
    ensures k <= |u| && InLang(db, a, u[..k]) && InLang(db, b, u[k..])
  {
    k :| 0 <= k <= |u| && InLang(db, a, u[..k]) && InLang(db, b, u[k..]);
  }

  /** A string matching `(a)?x r`, for literals `a` and `x`, is an optional `a`, then `x`, then a match of `r`. */
  lemma OptLitThenLit(db: UnicodeDb, a: string, x: string, r: Re, u: string) returns (sub: string, w: string)
    requires InLang(db, Cat(Opt(Lit(a)), Cat(Lit(x), r)), u)
    ensures sub == [] || sub == a
    ensures u == sub + x + w && InLang(db, r, w)
  {
    OptCatSplit(db, Lit(a), Cat(Lit(x), r), u);
    if InLang(db, Cat(Lit(x), r), u) {
      LitCatSplit(db, x, r, u);
      sub, w := [], u[|x|..];
      assert u == x + w;
      assert sub + x == x;
    } else {
      LitCatSplit(db, a, Cat(Lit(x), r), u);
      var v := u[|a|..];
      LitCatSplit(db, x, r, v);
      sub, w := a, v[|x|..];
      assert v == x + w;
      assert u == a + v;
      AppendAssoc(a, x, w);
    }
  }

  /** `(?:lead.*)?` matches exactly the strings `IsAnyTail` describes. */
  lemma AnyTailLang(db: UnicodeDb, lead: string, q: string)
    ensures InLang(db, AnyTail(lead), q) <==> IsAnyTail(lead, q)
  {
    if q != [] && InLang(db, AnyTail(lead), q) {
      LitCatSplit(db, lead, Many(NotNewline, 0), q);
      var r := q[|lead|..];
      forall k | |lead| <= k < |q| ensures q[k] != '\n' {
        assert q[k] == r[k - |lead|];
      }
    }
    if q != [] && IsAnyTail(lead, q) {
      var r := q[|lead|..];
      assert InLang(db, Many(NotNewline, 0), r) by {
        forall k | 0 <= k < |r| ensures r[k] != '\n' {
          assert r[k] == q[|lead| + k];
        }
      }
      assert q[..|lead|] == lead;
      assert InLang(db, Cat(Lit(lead), Many(NotNewline, 0)), q);
    }
  }

  /** A string in one pattern's language, with or without one trailing newline, passes the full-match loop. */
  lemma InLangPassesWhole(db: UnicodeDb, ps: seq<Re>, k: nat, t: string, nl: string)
    requires k < |ps| && InLang(db, ps[k], t)
    requires nl == "" || nl == "\n"
    ensures AnyMatchesWhole(db, ps, t + nl)
  {
    MatchesWholeIff(db, ps[k], t + nl);
    if nl == "\n" {
      assert (t + nl)[..|t + nl| - 1] == t;
    } else {
      assert t + nl == t;
    }
    AnyMatchesWholeIff(db, ps, t + nl);
  }

  /** A string that passes the full-match loop is, but for one optional trailing newline, in some pattern's language. */
  lemma WholeMatchSplit(db: UnicodeDb, ps: seq<Re>, s: string) returns (k: nat, t: string, nl: string)
    requires AnyMatchesWhole(db, ps, s)
    ensures k < |ps| && InLang(db, ps[k], t)
    ensures nl == "" || nl == "\n"
    ensures s == t + nl
  {
    AnyMatchesWholeIff(db, ps, s);
    k :| 0 <= k < |ps| && MatchesWhole(db, ps[k], s);
    MatchesWholeIff(db, ps[k], s);
    if InLang(db, ps[k], s) {
      t, nl := s, "";
      assert s == t + nl;
    } else {
      t, nl := s[..|s| - 1], "\n";
      assert s == t + [s[|s| - 1]];
    }
  }
}
