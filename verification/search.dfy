/**
 * Python's `re.search` for the capturing patterns the downloaders use: the
 * first position at which some match begins, and the text a greedy group
 * captures there.
 *
 * The capturing patterns all have the shape "literal, then a run of one
 * character class", sometimes after a `[^/]+` step. For such a pattern a
 * backtracking engine's greedy group takes the whole run, so the captured
 * text is the longest run of the class after the literal.
 */
module Search {
  import opened Wrappers
  import opened PyStr
  import opened Regex

  /** Some match of `r` begins at position `p` of `s`. */
  predicate MatchesAt(db: UnicodeDb, r: Re, s: string, p: nat)
    requires p <= |s|
  {
    Ends(db, r, s, p) != {}
  }

  /** The scan `re.search` performs: the first position at or after `from` where a match begins. */
  function SearchFrom(db: UnicodeDb, r: Re, s: string, from: nat): (m: Option<nat>)
    requires from <= |s|
    ensures m.Some? ==> from <= m.value <= |s| && MatchesAt(db, r, s, m.value)
    ensures forall p :: from <= p <= |s| && (m.None? || p < m.value) ==> !MatchesAt(db, r, s, p)
    decreases |s| - from
  {
    if MatchesAt(db, r, s, from) then Some(from)
    else if from == |s| then None
    else SearchFrom(db, r, s, from + 1)
  }

  /** `re.search(r, s)`: where the leftmost match begins, if there is one. */
  function Find(db: UnicodeDb, r: Re, s: string): Option<nat> {
    SearchFrom(db, r, s, 0)
  }

  /** `re.search` succeeds exactly when some slice of `s` is in the pattern's language. */
  lemma FindIff(db: UnicodeDb, r: Re, s: string)
    ensures Find(db, r, s).Some? <==> exists p, j :: 0 <= p <= j <= |s| && InLang(db, r, s[p..j])
  {
    var m := Find(db, r, s);
    if m.Some? {
      var p := m.value;
      var j :| j in Ends(db, r, s, p);
      EndsSound(db, r, s, p, j);
    }
    if p, j :| 0 <= p <= j <= |s| && InLang(db, r, s[p..j]) {
      EndsSound(db, r, s, p, j);
      assert MatchesAt(db, r, s, p);
    }
  }

  /** A concatenation matches at `p` exactly when its second part matches where some match of its first part ends. */
  lemma CatMatchesAt(db: UnicodeDb, a: Re, b: Re, s: string, p: nat)
    requires p <= |s|
    ensures MatchesAt(db, Cat(a, b), s, p) <==> exists k :: k in Ends(db, a, s, p) && MatchesAt(db, b, s, k)
  {
    if MatchesAt(db, Cat(a, b), s, p) {
      var j :| j in Ends(db, Cat(a, b), s, p);
      var k :| k in Ends(db, a, s, p) && j in Ends(db, b, s, k);
      assert MatchesAt(db, b, s, k);
    }
    if k :| k in Ends(db, a, s, p) && MatchesAt(db, b, s, k) {
      var j :| j in Ends(db, b, s, k);
      assert j in Ends(db, Cat(a, b), s, p);
    }
  }

  /** `a(c+)` with a literal `a` matches at `p` exactly when `a` occurs there and one class member follows it. */
  lemma LitThenRunAt(db: UnicodeDb, a: string, cc: CharClass, s: string, p: nat)
    requires p <= |s|
    ensures MatchesAt(db, Cat(Lit(a), Many(cc, 1)), s, p) <==>
      IsPrefixAt(a, s, p) && Run(db, cc, s, p + |a|) >= 1
  {
    CatMatchesAt(db, Lit(a), Many(cc, 1), s, p);
    if IsPrefixAt(a, s, p) {
      var k := p + |a|;
      assert k in Ends(db, Lit(a), s, p);
      if Run(db, cc, s, k) >= 1 {
        assert k + 1 in Ends(db, Many(cc, 1), s, k);
      }
    }
  }

  /** A run of exactly `n` class members, ended by the end of `s` or by a non-member, is the longest run. */
  lemma {:induction false} RunExact(db: UnicodeDb, cc: CharClass, s: string, i: nat, n: nat)
    requires i + n <= |s|
    requires forall k :: i <= k < i + n ==> InClass(db, cc, s[k])
    requires i + n == |s| || !InClass(db, cc, s[i + n])
    ensures Run(db, cc, s, i) == n
    decreases n
  {
    if n > 0 {
      RunExact(db, cc, s, i + 1, n - 1);
    }
  }

  /** The text the group of `a(c+)` captures at a match position: the longest run after `a`. */
  function RunAfter(db: UnicodeDb, a: string, cc: CharClass, s: string, p: nat): (g: string)
    requires IsPrefixAt(a, s, p)
    ensures |g| == Run(db, cc, s, p + |a|)
    ensures forall k :: 0 <= k < |g| ==> InClass(db, cc, g[k])
    ensures p + |a| + |g| < |s| ==> !InClass(db, cc, s[p + |a| + |g|])
  {
    var i := p + |a|;
    var g := s[i..i + Run(db, cc, s, i)];
    assert forall k :: 0 <= k < |g| ==> g[k] == s[i + k];
    g
  }

  /**
   * `[^/]+` followed by a pattern that must start with "/": a match at `i`
   * takes the whole run of non-slashes, and the rest must match right after it.
   */
  lemma NonSlashesThenAt(db: UnicodeDb, x: string, r: Re, s: string, i: nat)
    requires i <= |s|
    requires |x| > 0 && x[0] == '/'
    ensures var n := Run(db, NoneOf(['/']), s, i);
      MatchesAt(db, Cat(Many(NoneOf(['/']), 1), Cat(Lit(x), r)), s, i) <==>
        n >= 1 && MatchesAt(db, Cat(Lit(x), r), s, i + n)
  {
    var cc := NoneOf(['/']);
    var n := Run(db, cc, s, i);
    var tail := Cat(Lit(x), r);
    CatMatchesAt(db, Many(cc, 1), tail, s, i);
    forall k | k in Ends(db, Many(cc, 1), s, i) && k < i + n
      ensures !MatchesAt(db, tail, s, k)
    {
      assert InClass(db, cc, s[k]);
      CatMatchesAt(db, Lit(x), r, s, k);
      assert !IsPrefixAt(x, s, k) by {
        if k + |x| <= |s| {
          assert s[k..k + |x|][0] == s[k];
        }
      }
    }
    if n >= 1 {
      assert i + n in Ends(db, Many(cc, 1), s, i);
    }
  }

  /**
   * The group of `lead[^/]+mid(c+)` when a match begins at `p`: the longest
   * run of class members after `mid`, where `mid` must come right after the
   * run of non-slashes that follows `lead`.
   */
  function SegmentGroupAt(db: UnicodeDb, lead: string, mid: string, cc: CharClass, s: string, p: nat): (g: Option<string>)
    requires p <= |s|
    ensures g.Some? ==> |g.value| > 0 && forall k :: 0 <= k < |g.value| ==> InClass(db, cc, g.value[k])
  {
    if !IsPrefixAt(lead, s, p) then None
    else
      var i := p + |lead|;
      var q := i + Run(db, NoneOf(['/']), s, i);
      if q == i || !IsPrefixAt(mid, s, q) || Run(db, cc, s, q + |mid|) == 0 then None
      else Some(RunAfter(db, mid, cc, s, q))
  }

  /** Past `lead`, the rest of the pattern matches exactly where the group is computed. */
  lemma SegmentRestAt(db: UnicodeDb, lead: string, mid: string, cc: CharClass, s: string, p: nat)
    requires |mid| > 0 && mid[0] == '/'
    requires IsPrefixAt(lead, s, p)
    ensures SegmentGroupAt(db, lead, mid, cc, s, p).Some? <==>
      MatchesAt(db, Cat(Many(NoneOf(['/']), 1), Cat(Lit(mid), Many(cc, 1))), s, p + |lead|)
  {
    var i := p + |lead|;
    NonSlashesThenAt(db, mid, Many(cc, 1), s, i);
    var q := i + Run(db, NoneOf(['/']), s, i);
    LitThenRunAt(db, mid, cc, s, q);
  }

  /** The group is computed exactly at the positions where `lead[^/]+mid(c+)` matches. */
  lemma SegmentGroupAtIff(db: UnicodeDb, lead: string, mid: string, cc: CharClass, s: string, p: nat)
    requires |mid| > 0 && mid[0] == '/'
    requires p <= |s|
    ensures SegmentGroupAt(db, lead, mid, cc, s, p).Some? <==>
      MatchesAt(db, Cat(Lit(lead), Cat(Many(NoneOf(['/']), 1), Cat(Lit(mid), Many(cc, 1)))), s, p)
  {
    var rest := Cat(Many(NoneOf(['/']), 1), Cat(Lit(mid), Many(cc, 1)));
    CatMatchesAt(db, Lit(lead), rest, s, p);
    if IsPrefixAt(lead, s, p) {
      assert Ends(db, Lit(lead), s, p) == {p + |lead|};
      SegmentRestAt(db, lead, mid, cc, s, p);
    } else {
      assert Ends(db, Lit(lead), s, p) == {};
    }
  }
}
