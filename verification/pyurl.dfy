/**
 * The parts of CPython 3.12's `urllib.parse` that `extract_video_id` of the
 * Selenium downloader relies on: `urlparse` (which is `urlsplit` followed by
 * the `;params` split) and `parse_qs`. The Unicode-dependent checks and the
 * percent-decoding are parameters.
 */
module PyUrl {
  import opened Wrappers
  import opened PyStr

  /**
   * The standard-library pieces that need the Unicode database or an IP
   * address parser: `_check_bracketed_host` (the message of the `ValueError`
   * it raises, if any), NFKC normalisation, and the `%XX` decoding `unquote`
   * performs on a string that contains '%'.
   */
  datatype UrlLib = UrlLib(bracketedHost: string -> Option<string>, nfkc: string -> string, percentDecode: string -> string)

  /** The first index at or after `i` holding `c`. */
  function IndexFrom(s: string, c: char, i: nat): (r: Option<nat>)
    requires i <= |s|
    ensures r.Some? ==> i <= r.value < |s| && s[r.value] == c
    ensures forall k :: i <= k < |s| && (r.None? || k < r.value) ==> s[k] != c
    decreases |s| - i
  {
    if i == |s| then None
    else if s[i] == c then Some(i)
    else IndexFrom(s, c, i + 1)
  }

  /** `s.find(c)`, with `None` for Python's -1. */
  function IndexOf(s: string, c: char): Option<nat> {
    IndexFrom(s, c, 0)
  }

  /** A character missing from a string is missing from both pieces of a cut. */
  lemma CutAtKeepsOut(s: string, c: char, x: char)
    requires x !in s
    ensures x !in CutAt(s, c).0
    ensures CutAt(s, c).1.Some? ==> x !in CutAt(s, c).1.value
  {
    var r := CutAt(s, c);
    if r.1.Some? {
      assert s == r.0 + [c] + r.1.value;
      assert forall k :: 0 <= k < |r.0| ==> r.0[k] == s[k];
      assert forall k :: 0 <= k < |r.1.value| ==> r.1.value[k] == s[|r.0| + 1 + k];
    }
  }

  /** The first `c` is at `j` when it is there and nowhere before. */
  lemma IndexOfIs(s: string, c: char, j: nat)
    requires j < |s| && s[j] == c
    requires forall k :: 0 <= k < j ==> s[k] != c
    ensures IndexOf(s, c) == Some(j)
  {
  }

  /** `s.split(c, 1)` guarded by `c in s`: the text before the first `c` and, if there is one, the text after it. */
  function CutAt(s: string, c: char): (r: (string, Option<string>))
    ensures r.1.None? ==> r.0 == s && c !in s
    ensures r.1.Some? ==> s == r.0 + [c] + r.1.value
    ensures c !in r.0
  {
    match IndexOf(s, c)
    case None => (s, None)
    case Some(i) =>
      assert s == s[..i] + [c] + s[i + 1..];
      (s[..i], Some(s[i + 1..]))
  }

  /** Cutting `x + [c] + y` at its first `c`, when `x` holds none. */
  lemma CutAtIs(s: string, c: char, x: string, y: string)
    requires c !in x && s == x + [c] + y
    ensures CutAt(s, c) == (x, Some(y))
  {
    IndexOfIs(s, c, |x|);
    assert s[..|x|] == x && s[|x| + 1..] == y;
  }

  /** A text without `c` cuts before anything that follows it. */
  lemma CutAtAppend(x: string, y: string, c: char)
    requires c !in x
    ensures CutAt(x + y, c) == (x + CutAt(y, c).0, CutAt(y, c).1)
  {
    var r := CutAt(y, c);
    if r.1.Some? {
      assert c !in x + r.0;
      assert x + y == (x + r.0) + [c] + r.1.value;
      CutAtIs(x + y, c, x + r.0, r.1.value);
    } else {
      assert c !in x + y;
    }
  }

  /** The characters `urlsplit` strips from the front: the C0 controls and space. */
  predicate IsC0OrSpace(c: char) {
    c <= ' '
  }

  /** `s.lstrip(_WHATWG_C0_CONTROL_OR_SPACE)` */
  function LStripC0(s: string): (r: string)
    ensures |r| <= |s| && r == s[|s| - |r|..]
    ensures r == [] || !IsC0OrSpace(r[0])
    ensures forall k :: 0 <= k < |s| - |r| ==> IsC0OrSpace(s[k])
  {
    if |s| > 0 && IsC0OrSpace(s[0]) then LStripC0(s[1..]) else s
  }

  /** The characters `urlsplit` deletes wherever they occur. */
  predicate IsUnsafe(c: char) {
    c == '\t' || c == '\r' || c == '\n'
  }

  /** Every tab, carriage return and line feed removed. */
  function DropUnsafe(s: string): (r: string)
    ensures |r| <= |s|
    ensures forall k :: 0 <= k < |r| ==> !IsUnsafe(r[k])
  {
    if s == [] then []
    else if IsUnsafe(s[0]) then DropUnsafe(s[1..])
    else [s[0]] + DropUnsafe(s[1..])
  }

  /** Removing works piecewise. */
  lemma {:induction false} DropUnsafeConcat(a: string, b: string)
    ensures DropUnsafe(a + b) == DropUnsafe(a) + DropUnsafe(b)
    decreases |a|
  {
    if a == [] {
      assert a + b == b;
    } else {
      assert (a + b)[1..] == a[1..] + b;
      DropUnsafeConcat(a[1..], b);
    }
  }

  /** A string without tabs and line breaks is left as it is. */
  lemma {:induction false} DropUnsafeKeeps(s: string)
    requires forall k :: 0 <= k < |s| ==> !IsUnsafe(s[k])
    ensures DropUnsafe(s) == s
    decreases |s|
  {
    if s != [] {
      DropUnsafeKeeps(s[1..]);
    }
  }

  /** The text `urlsplit` goes on to cut up. */
  function Clean(url: string): string {
    DropUnsafe(LStripC0(url))
  }

  predicate IsAsciiLetter(c: char) {
    'a' <= c <= 'z' || 'A' <= c <= 'Z'
  }

  /** `scheme_chars`: ASCII letters, digits, '+', '-' and '.'. */
  predicate IsSchemeChar(c: char) {
    IsAsciiLetter(c) || '0' <= c <= '9' || c == '+' || c == '-' || c == '.'
  }

  /**
   * The first ':' when what precedes it is a scheme: not empty, starting
   * with an ASCII letter, made of scheme characters.
   */
  function SchemeColon(s: string): (r: Option<nat>)
    ensures r.Some? ==> 0 < r.value < |s| && s[r.value] == ':' && IsAsciiLetter(s[0])
    ensures r.Some? ==> forall k :: 0 <= k < r.value ==> IsSchemeChar(s[k])
  {
    match IndexOf(s, ':')
    case None => None
    case Some(i) =>
      if i > 0 && IsAsciiLetter(s[0]) && forall k :: 0 <= k < i ==> IsSchemeChar(s[k]) then Some(i) else None
  }

  function LowerChar(c: char): char {
    if 'A' <= c <= 'Z' then (c as int + 32) as char else c
  }

  /** `str.lower()` on a scheme, which holds only ASCII characters. */
  function LowerAscii(s: string): (r: string)
    ensures |r| == |s| && forall k :: 0 <= k < |s| ==> r[k] == LowerChar(s[k])
  {
    seq(|s|, k requires 0 <= k < |s| => LowerChar(s[k]))
  }

  /** The characters that end a network location. */
  predicate IsNetlocEnd(c: char) {
    c == '/' || c == '?' || c == '#'
  }

  /** `_splitnetloc`: the first index at or after `i` holding '/', '?' or '#', else the length. */
  function NetlocEnd(s: string, i: nat): (e: nat)
    requires i <= |s|
    ensures i <= e <= |s|
    ensures forall k :: i <= k < e ==> !IsNetlocEnd(s[k])
    ensures e < |s| ==> IsNetlocEnd(s[e])
    decreases |s| - i
  {
    if i == |s| || IsNetlocEnd(s[i]) then i else NetlocEnd(s, i + 1)
  }

  /** The network location ends at `e` when nothing before it and something at it ends it. */
  lemma NetlocEndIs(s: string, i: nat, e: nat)
    requires i <= e <= |s|
    requires forall k :: i <= k < e ==> !IsNetlocEnd(s[k])
    requires e == |s| || IsNetlocEnd(s[e])
    ensures NetlocEnd(s, i) == e
  {
  }

  /**
   * What `urlsplit` finds. The scheme is kept as written (Python lower-cases
   * it) and an optional part is `None` when its delimiter is absent (Python
   * gives "" then).
   */
  datatype Split = Split(schemeText: Option<string>, netloc: Option<string>, path: string, query: Option<string>, fragment: Option<string>)

  /** The scheme and the rest, cut at the scheme's ':'. */
  function CutScheme(s: string): (r: (Option<string>, string))
    ensures r.0.None? ==> r.1 == s
    ensures r.0.Some? ==> s == r.0.value + ":" + r.1
    ensures r.0.Some? ==> |r.0.value| > 0 && forall k :: 0 <= k < |r.0.value| ==> IsSchemeChar(r.0.value[k])
  {
    match SchemeColon(s)
    case None => (None, s)
    case Some(i) =>
      assert s == s[..i] + ":" + s[i + 1..];
      (Some(s[..i]), s[i + 1..])
  }

  /** The network location after "//" and the rest, or no network location. */
  function CutNetloc(s: string): (r: (Option<string>, string))
    ensures r.0.None? ==> r.1 == s && !StartsWith(s, "//")
    ensures r.0.Some? ==> s == "//" + r.0.value + r.1
    ensures r.0.Some? ==> (forall k :: 0 <= k < |r.0.value| ==> !IsNetlocEnd(r.0.value[k])) && (r.1 == [] || IsNetlocEnd(r.1[0]))
  {
    if StartsWith(s, "//") then
      var e := NetlocEnd(s, 2);
      assert s == s[..2] + s[2..e] + s[e..];
      (Some(s[2..e]), s[e..])
    else (None, s)
  }

  /** `urlsplit` without its checks. */
  function SplitUrl(url: string): (sp: Split)
    ensures sp.schemeText.Some? ==> |sp.schemeText.value| > 0 && forall k :: 0 <= k < |sp.schemeText.value| ==> IsSchemeChar(sp.schemeText.value[k])
    ensures sp.netloc.Some? ==> forall k :: 0 <= k < |sp.netloc.value| ==> !IsNetlocEnd(sp.netloc.value[k])
    ensures '?' !in sp.path && '#' !in sp.path
    ensures sp.query.Some? ==> '#' !in sp.query.value
  {
    var s := Clean(url);
    var a := CutScheme(s);
    var b := CutNetloc(a.1);
    var c := CutAt(b.1, '#');
    var d := CutAt(c.0, '?');
    CutAtKeepsOut(c.0, '?', '#');
    Split(a.0, b.0, d.0, d.1, c.1)
  }

  /** `urlunsplit` for a split that remembers which delimiters were present. */
  function Unsplit(sp: Split): string {
    (match sp.schemeText case Some(t) => t + ":" case None => "")
    + (match sp.netloc case Some(n) => "//" + n case None => "")
    + sp.path
    + (match sp.query case Some(q) => "?" + q case None => "")
    + (match sp.fragment case Some(f) => "#" + f case None => "")
  }

  /** Putting the parts back together gives the cleaned URL: `urlsplit` loses nothing but tabs, line breaks and leading blanks. */
  lemma SplitRoundTrip(url: string)
    ensures Unsplit(SplitUrl(url)) == Clean(url)
  {
    var s := Clean(url);
    var a := CutScheme(s);
    var b := CutNetloc(a.1);
    var c := CutAt(b.1, '#');
    var d := CutAt(c.0, '?');
    assert SplitUrl(url) == Split(a.0, b.0, d.0, d.1, c.1);
    PiecesJoin(s, a, b, c, d);
  }

  /** Four cuts in a row, undone: the scheme, the network location, the fragment and the query put back in order. */
  lemma PiecesJoin(s: string, a: (Option<string>, string), b: (Option<string>, string), c: (string, Option<string>), d: (string, Option<string>))
    requires a.0.None? ==> a.1 == s
    requires a.0.Some? ==> s == a.0.value + ":" + a.1
    requires b.0.None? ==> b.1 == a.1
    requires b.0.Some? ==> a.1 == "//" + b.0.value + b.1
    requires c.1.None? ==> c.0 == b.1
    requires c.1.Some? ==> b.1 == c.0 + ['#'] + c.1.value
    requires d.1.None? ==> d.0 == c.0
    requires d.1.Some? ==> c.0 == d.0 + ['?'] + d.1.value
    ensures Unsplit(Split(a.0, b.0, d.0, d.1, c.1)) == s
  {
    var h := match a.0 case Some(t) => t + ":" case None => "";
    var n := match b.0 case Some(x) => "//" + x case None => "";
    var q := match d.1 case Some(x) => "?" + x case None => "";
    var f := match c.1 case Some(x) => "#" + x case None => "";
    assert d.0 + q == c.0;
    assert c.0 + f == b.1;
    assert n + b.1 == a.1;
    assert h + a.1 == s;
    Regroup(h, n, d.0, q, f);
  }

  /** Concatenation regrouped from the right. */
  lemma Regroup(h: string, n: string, p: string, q: string, f: string)
    ensures h + n + p + q + f == h + (n + ((p + q) + f))
  {
  }

  /** "Invalid IPv6 URL", the message of `urlsplit`'s bracket checks. */
  const InvalidIpv6 := "Invalid IPv6 URL"

  /** What follows the last `c` (all of `s` without one): `s.rpartition(c)[2]`. */
  function AfterLast(s: string, c: char): (r: string)
    ensures EndsWith(s, r) && c !in r
  {
    match LastIndexOf(s, c)
    case None => s
    case Some(i) => s[i + 1..]
  }

  /**
   * `_check_bracketed_netloc`: after the last '@', nothing may precede a
   * '[' and only a ":port" may follow the matching ']'; the text between is
   * handed to the host check.
   */
  function BracketError(netloc: string, lib: UrlLib): Option<string> {
    var hp := AfterLast(netloc, '@');
    match IndexOf(hp, '[')
    case Some(i) =>
      var inner := CutAt(hp[i + 1..], ']');
      var port := inner.1.GetOr("");
      if i > 0 || (port != [] && port[0] != ':') then Some(InvalidIpv6)
      else lib.bracketedHost(inner.0)
    case None => lib.bracketedHost(CutAt(hp, ']').0)
  }

  predicate IsAscii(s: string) {
    forall k :: 0 <= k < |s| ==> s[k] as int < 128
  }

  /** `s` with every copy of `c` removed. */
  function Without(s: string, c: char): (r: string)
    ensures c !in r
  {
    if s == [] then []
    else (if s[0] == c then [] else [s[0]]) + Without(s[1..], c)
  }

  /**
   * `_checknetloc`: a non-ASCII network location whose NFKC normal form
   * (ignoring '@', ':', '#' and '?') changes and then holds one of "/?#@:"
   * is refused.
   */
  function NfkcError(netloc: string, lib: UrlLib): Option<string> {
    if netloc == [] || IsAscii(netloc) then None
    else
      var n := Without(Without(Without(Without(netloc, '@'), ':'), '#'), '?');
      var m := lib.nfkc(n);
      if m != n && ('/' in m || '?' in m || '#' in m || '@' in m || ':' in m) then
        Some("netloc '" + netloc + "' contains invalid characters under NFKC normalization")
      else None
  }

  /** Every `ValueError` `urlsplit` can raise about the network location, in the order it checks. */
  function NetlocError(netloc: string, lib: UrlLib): (e: Option<string>)
    ensures ('[' in netloc) != (']' in netloc) ==> e == Some(InvalidIpv6)
    ensures '[' !in netloc && ']' !in netloc && (netloc == [] || IsAscii(netloc)) ==> e.None?
  {
    if ('[' in netloc) != (']' in netloc) then Some(InvalidIpv6)
    else if '[' in netloc && BracketError(netloc, lib).Some? then BracketError(netloc, lib)
    else NfkcError(netloc, lib)
  }

  /** The schemes whose last path segment may carry ";params". */
  const UsesParams: set<string> := {"", "ftp", "hdl", "prospero", "http", "imap", "https", "shttp",
                                    "rtsp", "rtsps", "rtspu", "sip", "sips", "mms", "sftp", "tel"}

  /** `_splitparams`: the path cut at the first ';' of its last segment, if that segment has one. */
  function SplitParams(path: string): (r: (string, string))
    ensures r.0 == path || path == r.0 + ";" + r.1
    ensures r.0 == path ==> r.1 == []
    ensures r.0 != path ==> '/' !in r.1
  {
    var from := match LastIndexOf(path, '/') case None => 0 case Some(j) => j;
    match IndexFrom(path, ';', from)
    case None => (path, [])
    case Some(i) =>
      assert path == path[..i] + ";" + path[i + 1..];
      assert '/' !in path[i + 1..] by {
        if LastIndexOf(path, '/').Some? {
          assert path[i + 1..] == path[from + 1..][i - from..];
        }
      }
      (path[..i], path[i + 1..])
  }

  /** `urlparse`'s result: six strings. */
  datatype ParseResult = ParseResult(scheme: string, netloc: string, path: string, params: string, query: string, fragment: string)

  datatype Parsed = Parsed(result: ParseResult) | ValueError(message: string)

  /** `urllib.parse.urlparse(url)` */
  function UrlParse(url: string, lib: UrlLib): (p: Parsed)
    ensures p.ValueError? <==> NetlocError(SplitUrl(url).netloc.GetOr(""), lib).Some?
    ensures p.Parsed? ==> p.result.netloc == SplitUrl(url).netloc.GetOr("") && p.result.query == SplitUrl(url).query.GetOr("")
    ensures p.Parsed? ==> ';' !in SplitUrl(url).path ==> p.result.path == SplitUrl(url).path
  {
    var sp := SplitUrl(url);
    var netloc := sp.netloc.GetOr("");
    match NetlocError(netloc, lib)
    case Some(m) => ValueError(m)
    case None =>
      var scheme := LowerAscii(sp.schemeText.GetOr(""));
      var pp := if scheme in UsesParams && ';' in sp.path then SplitParams(sp.path) else (sp.path, []);
      Parsed(ParseResult(scheme, netloc, pp.0, pp.1, sp.query.GetOr(""), sp.fragment.GetOr("")))
  }

  /** A plain ASCII host: nothing that ends a network location, no brackets. */
  predicate IsPlainHost(host: string) {
    forall k :: 0 <= k < |host| ==> !IsNetlocEnd(host[k]) && host[k] != '[' && host[k] != ']' && host[k] as int < 128
  }

  /** Where `urlsplit` cuts an http or https URL with a host and a path starting with '/'. */
  lemma HttpSplit(url: string, scheme: string, host: string, p: string)
    requires scheme == "http://" || scheme == "https://"
    requires Clean(url) == scheme + host + p
    requires forall k :: 0 <= k < |host| ==> !IsNetlocEnd(host[k])
    requires p == [] || p[0] == '/'
    ensures var c := CutAt(p, '#'); var d := CutAt(c.0, '?');
      SplitUrl(url) == Split(Some(scheme[..|scheme| - 3]), Some(host), d.0, d.1, c.1)
  {
    var rest := host + p;
    assert Clean(url) == scheme + rest;
    SchemeCut(Clean(url), scheme, rest);
    NetlocCut(host, p);
    assert "//" + rest == "//" + host + p;
  }

  /** An http or https prefix is cut at its ':', leaving the "//" with the rest. */
  lemma SchemeCut(s: string, scheme: string, rest: string)
    requires scheme == "http://" || scheme == "https://"
    requires s == scheme + rest
    ensures CutScheme(s) == (Some(scheme[..|scheme| - 3]), "//" + rest)
  {
    var j := |scheme| - 3;
    assert s[j] == ':';
    assert forall k :: 0 <= k < j ==> s[k] == scheme[k];
    IndexOfIs(s, ':', j);
    assert s[..j] == scheme[..j];
    assert s[j + 1..] == "//" + rest;
  }

  /** After "//", a host free of '/', '?' and '#' is the network location and the path the rest. */
  lemma NetlocCut(host: string, p: string)
    requires forall k :: 0 <= k < |host| ==> !IsNetlocEnd(host[k])
    requires p == [] || p[0] == '/'
    ensures CutNetloc("//" + host + p) == (Some(host), p)
  {
    var t := "//" + host + p;
    assert StartsWith(t, "//") by { assert t[..2] == "//"; }
    NetlocEndIs(t, 2, 2 + |host|);
    assert t[2..2 + |host|] == host && t[2 + |host|..] == p;
  }

  /**
   * An http or https URL whose cleaned form is the scheme, a plain host and
   * a path starting with '/': `urlparse` accepts it and finds that host, the
   * path up to the first '?' or '#', and the query between that '?' and the
   * first '#'.
   */
  lemma HttpParse(url: string, scheme: string, host: string, p: string, lib: UrlLib)
    requires scheme == "http://" || scheme == "https://"
    requires Clean(url) == scheme + host + p
    requires IsPlainHost(host)
    requires p == [] || p[0] == '/'
    ensures var d := CutAt(CutAt(p, '#').0, '?');
      && UrlParse(url, lib).Parsed?
      && UrlParse(url, lib).result.netloc == host
      && UrlParse(url, lib).result.query == d.1.GetOr("")
      && (';' !in d.0 ==> UrlParse(url, lib).result.path == d.0)
  {
    HttpSplit(url, scheme, host, p);
    assert '[' !in host && ']' !in host && IsAscii(host);
  }

  /** `s.split(c)`: the pieces between the separators; there is always at least one. */
  function SplitOn(s: string, c: char): (ps: seq<string>)
    ensures |ps| >= 1
    ensures forall k :: 0 <= k < |ps| ==> c !in ps[k]
    decreases |s|
  {
    match IndexOf(s, c)
    case None => [s]
    case Some(i) => [s[..i]] + SplitOn(s[i + 1..], c)
  }

  /** `c.join(ps)` */
  function JoinWith(ps: seq<string>, c: char): string
    requires |ps| >= 1
  {
    if |ps| == 1 then ps[0] else ps[0] + [c] + JoinWith(ps[1..], c)
  }

  /** Splitting and joining again gives the string back. */
  lemma {:induction false} SplitOnJoin(s: string, c: char)
    ensures JoinWith(SplitOn(s, c), c) == s
    decreases |s|
  {
    match IndexOf(s, c)
    case None =>
    case Some(i) =>
      var rest := SplitOn(s[i + 1..], c);
      SplitOnJoin(s[i + 1..], c);
      JoinCons(s[..i], rest, c);
      assert s == s[..i] + [c] + s[i + 1..];
  }

  /** Joining a list with a first piece puts the separator after that piece. */
  lemma JoinCons(a: string, rest: seq<string>, c: char)
    requires |rest| >= 1
    ensures JoinWith([a] + rest, c) == a + [c] + JoinWith(rest, c)
  {
    assert ([a] + rest)[1..] == rest;
  }

  /** The first piece of a split is everything before the first separator. */
  lemma SplitOnFirst(a: string, b: string, c: char)
    requires c !in a
    ensures SplitOn(a + [c] + b, c)[0] == a
    ensures SplitOn(a, c) == [a]
  {
    var s := a + [c] + b;
    assert s[|a|] == c;
    assert forall k :: 0 <= k < |a| ==> s[k] == a[k];
    assert IndexOf(s, c) == Some(|a|);
    assert s[..|a|] == a;
  }

  /** `unquote(s)`: a string without '%' comes back unchanged. */
  function Unquote(s: string, lib: UrlLib): (r: string)
    ensures '%' !in s ==> r == s
  {
    if '%' in s then lib.percentDecode(s) else s
  }

  /** A name or value as `parse_qsl` decodes it: '+' becomes a space, then `unquote`. */
  function Decode(s: string, lib: UrlLib): string {
    Unquote(Replace(s, "+", " "), lib)
  }

  /**
   * One field of a query as `parse_qsl` keeps it with blank values dropped:
   * nothing for an empty field, a field without '=', or an empty value.
   */
  function Field(f: string, lib: UrlLib): (r: Option<(string, string)>)
    ensures r.Some? ==> '=' in f
  {
    match IndexOf(f, '=')
    case None => None
    case Some(i) =>
      if i + 1 == |f| then None
      else Some((Decode(f[..i], lib), Decode(f[i + 1..], lib)))
  }

  /** The field names `name`. */
  predicate Names(f: string, name: string, lib: UrlLib) {
    Field(f, lib).Some? && Field(f, lib).value.0 == name
  }

  /** The index of the first field that names `name`. */
  function FirstNaming(fs: seq<string>, name: string, lib: UrlLib): (r: Option<nat>)
    ensures r.Some? ==> r.value < |fs| && Names(fs[r.value], name, lib)
    ensures forall k :: 0 <= k < |fs| && (r.None? || k < r.value) ==> !Names(fs[k], name, lib)
  {
    if |fs| == 0 then None
    else if Names(fs[0], name, lib) then Some(0)
    else match FirstNaming(fs[1..], name, lib)
      case None => None
      case Some(k) => Some(k + 1)
  }

  /**
   * `parse_qs(query)[name][0]` when `name in parse_qs(query)`: the value of
   * the first '&'-separated field that names `name` and has a value.
   */
  function QueryFirst(query: string, name: string, lib: UrlLib): (r: Option<string>)
    ensures r.Some? <==> exists k :: 0 <= k < |SplitOn(query, '&')| && Names(SplitOn(query, '&')[k], name, lib)
    ensures r.Some? ==> exists k :: (
      && 0 <= k < |SplitOn(query, '&')| && Names(SplitOn(query, '&')[k], name, lib)
      && r.value == Field(SplitOn(query, '&')[k], lib).value.1
      && forall j :: 0 <= j < k ==> !Names(SplitOn(query, '&')[j], name, lib))
  {
    var fs := SplitOn(query, '&');
    match FirstNaming(fs, name, lib)
    case None => None
    case Some(k) =>
      assert 0 <= k < |SplitOn(query, '&')| && Names(SplitOn(query, '&')[k], name, lib);
      Some(Field(fs[k], lib).value.1)
  }

  /** A plain name or value, without '+' and '%', decodes to itself. */
  lemma DecodePlain(s: string, lib: UrlLib)
    requires '+' !in s && '%' !in s
    ensures Decode(s, lib) == s
  {
    forall j: nat ensures !IsPrefixAt("+", s, j) {
      if j + 1 <= |s| {
        assert s[j..j + 1][0] == s[j];
      }
    }
    ContainsIff(s, "+");
    ReplaceAbsent(s, "+", " ");
  }

  /**
   * A query that starts with `name=value`, the value plain and free of
   * '&', yields that value for `name`, whatever fields follow.
   */
  lemma QueryFirstField(name: string, value: string, more: string, lib: UrlLib)
    requires '=' !in name && '&' !in name && '+' !in name && '%' !in name
    requires value != [] && '&' !in value && '+' !in value && '%' !in value
    requires more == [] || more[0] == '&'
    ensures QueryFirst(name + "=" + value + more, name, lib) == Some(value)
  {
    var f := name + "=" + value;
    var q := f + more;
    assert '&' !in f by {
      assert forall k :: 0 <= k < |f| ==> f[k] == (if k < |name| then name[k] else if k == |name| then '=' else value[k - |name| - 1]);
    }
    if more == [] {
      assert q == f;
      SplitOnFirst(f, [], '&');
    } else {
      assert q == f + ['&'] + more[1..];
      SplitOnFirst(f, more[1..], '&');
    }
    var fs := SplitOn(q, '&');
    assert fs[0] == f;
    assert f[|name|] == '=';
    assert forall k :: 0 <= k < |name| ==> f[k] == name[k];
    assert IndexOf(f, '=') == Some(|name|);
    assert f[..|name|] == name && f[|name| + 1..] == value;
    DecodePlain(name, lib);
    DecodePlain(value, lib);
    assert Field(f, lib) == Some((name, value));
  }
}
