/** Python list operations the downloaders apply to their argument lists. */
module Argv {

  /**
   * Python's `xs.insert(i, x)`: a negative `i` counts from the end, and an
   * index past either end is clamped to it. Wherever `x` lands, the elements
   * before it are the old ones and the elements after it are the old ones
   * shifted up by one.
   */
  function ListInsert(xs: seq<string>, i: int, x: string): (r: seq<string>)
    ensures |r| == |xs| + 1
    ensures x in r
    ensures 0 <= i <= |xs| ==> r[i] == x && r[..i] == xs[..i] && r[i + 1..] == xs[i..]
    ensures i > |xs| ==> r == xs + [x]
    ensures -|xs| <= i < 0 ==>
      r[|xs| + i] == x && r[..|xs| + i] == xs[..|xs| + i] && r[|xs| + i + 1..] == xs[|xs| + i..]
    ensures i < -|xs| ==> r == [x] + xs
  {
    var at := if i < 0 then (if i + |xs| < 0 then 0 else i + |xs|)
              else (if i > |xs| then |xs| else i);
    xs[..at] + [x] + xs[at..]
  }

  /** Python's `xs[-1] = x`. */
  function SetLast(xs: seq<string>, x: string): (r: seq<string>)
    requires |xs| > 0
    ensures |r| == |xs| && r[|r| - 1] == x
    ensures r[..|r| - 1] == xs[..|xs| - 1]
  {
    xs[..|xs| - 1] + [x]
  }

  /**
   * Two `insert(-1, ...)` calls on a non-empty list put both items, in call
   * order, just before the last element; the last element stays last and
   * nothing else moves.
   */
  lemma InsertTwiceBeforeLast(xs: seq<string>, a: string, b: string)
    requires |xs| > 0
    ensures ListInsert(ListInsert(xs, -1, a), -1, b) == xs[..|xs| - 1] + [a, b] + [xs[|xs| - 1]]
  {
    var n := |xs|;
    var once := ListInsert(xs, -1, a);
    assert once == xs[..n - 1] + [a] + xs[n - 1..];
    assert xs[n - 1..] == [xs[n - 1]];
    assert once[..n] == xs[..n - 1] + [a];
    assert once[n..] == [xs[n - 1]];
  }
}
