/**
 * Directory listings as the downloaders inspect them after yt-dlp finishes:
 * `os.listdir` paired with `os.path.getmtime`, in listing order, with the
 * current time passed in rather than read from a clock.
 */
module Listing {
  import opened Wrappers
  import opened PyStr

  /** One directory entry: its name and its modification time in seconds. */
  datatype Entry = Entry(name: string, mtime: real)

  /** What `os.listdir` plus `getmtime` gave, or the message of the exception one of them raised. */
  datatype Dir = Listed(entries: seq<Entry>) | ListFailed(message: string)

  /** The entry is younger than `window` seconds: `getmtime(f) > time.time() - window`. */
  predicate IsRecent(e: Entry, now: real, window: real) {
    e.mtime > now - window
  }

  /** The entry's name ends with `suffix` and it is recent. */
  predicate Wanted(e: Entry, suffix: string, now: real, window: real) {
    EndsWith(e.name, suffix) && IsRecent(e, now, window)
  }

  /**
   * The list comprehension `[f for f in listing if f.endswith(suffix) and
   * getmtime(f) > now - window]`, keeping listing order.
   */
  function Recent(es: seq<Entry>, suffix: string, now: real, window: real): (r: seq<Entry>)
    ensures |r| <= |es|
    ensures forall e :: e in r <==> e in es && Wanted(e, suffix, now, window)
  {
    if |es| == 0 then []
    else
      var rest := Recent(es[1..], suffix, now, window);
      assert forall e :: e in es <==> e == es[0] || e in es[1..];
      if Wanted(es[0], suffix, now, window) then [es[0]] + rest else rest
  }

  /**
   * The comprehension keeps listing order: filtering a listing made of two
   * parts is filtering each part and putting the results one after the other.
   */
  lemma {:induction false} RecentAppend(xs: seq<Entry>, ys: seq<Entry>, suffix: string, now: real, window: real)
    ensures Recent(xs + ys, suffix, now, window) == Recent(xs, suffix, now, window) + Recent(ys, suffix, now, window)
    decreases |xs|
  {
    if xs != [] {
      assert (xs + ys)[1..] == xs[1..] + ys;
      RecentAppend(xs[1..], ys, suffix, now, window);
    } else {
      assert xs + ys == ys;
    }
  }

  /** A single entry survives the comprehension exactly when it is wanted. */
  lemma RecentSingle(e: Entry, suffix: string, now: real, window: real)
    ensures Recent([e], suffix, now, window) == if Wanted(e, suffix, now, window) then [e] else []
  {
    assert [e][1..] == [];
  }

  /**
   * `max(files, key=getmtime)` as an index: Python keeps the first of several
   * entries with the greatest time, so the answer is the first maximal entry.
   */
  function NewestIndex(es: seq<Entry>): (k: nat)
    requires |es| > 0
    ensures k < |es|
    ensures forall j :: 0 <= j < |es| ==> es[j].mtime <= es[k].mtime
    ensures forall j :: 0 <= j < k ==> es[j].mtime < es[k].mtime
    decreases |es|
  {
    if |es| == 1 then 0
    else
      var k := NewestIndex(es[..|es| - 1]);
      assert forall j :: 0 <= j < |es| - 1 ==> es[..|es| - 1][j] == es[j];
      if es[|es| - 1].mtime > es[k].mtime then |es| - 1 else k
  }

  /** Only one index is the first maximal one, so `NewestIndex` is pinned down by its contract. */
  lemma FirstMaximalUnique(es: seq<Entry>, k: nat)
    requires k < |es|
    requires forall j :: 0 <= j < |es| ==> es[j].mtime <= es[k].mtime
    requires forall j :: 0 <= j < k ==> es[j].mtime < es[k].mtime
    ensures k == NewestIndex(es)
  {
  }

  /** The left-to-right scan Python's `max` performs, replacing the candidate only on a strictly later time. */
  method Newest(es: seq<Entry>) returns (k: nat)
    requires |es| > 0
    ensures k < |es|
    ensures forall j :: 0 <= j < |es| ==> es[j].mtime <= es[k].mtime
    ensures forall j :: 0 <= j < k ==> es[j].mtime < es[k].mtime
    ensures k == NewestIndex(es)
  {
    k := 0;
    var i := 1;
    while i < |es|
      invariant 1 <= i <= |es| && k < i
      invariant forall j :: 0 <= j < i ==> es[j].mtime <= es[k].mtime
      invariant forall j :: 0 <= j < k ==> es[j].mtime < es[k].mtime
    {
      if es[i].mtime > es[k].mtime {
        k := i;
      }
      i := i + 1;
    }
    FirstMaximalUnique(es, k);
  }

  /**
   * The newest recent entry with the given suffix, or `None` when the
   * comprehension is empty (the `if mp4_files:` guard).
   */
  function NewestWanted(es: seq<Entry>, suffix: string, now: real, window: real): (r: Option<Entry>)
    ensures r.None? <==> forall e :: e in es ==> !Wanted(e, suffix, now, window)
    ensures r.Some? ==> r.value in es && Wanted(r.value, suffix, now, window)
    ensures r.Some? ==> forall e :: e in es && Wanted(e, suffix, now, window) ==> e.mtime <= r.value.mtime
  {
    var rs := Recent(es, suffix, now, window);
    if |rs| == 0 then None
    else
      var k := NewestIndex(rs);
      assert forall e :: e in es && Wanted(e, suffix, now, window) ==> e.mtime <= rs[k].mtime by {
        forall e | e in es && Wanted(e, suffix, now, window) ensures e.mtime <= rs[k].mtime {
          assert e in rs;
          var j :| 0 <= j < |rs| && rs[j] == e;
        }
      }
      Some(rs[k])
  }

  /** The first recent entry with the given suffix in listing order, as a `for ... break` loop finds it. */
  function FirstWanted(es: seq<Entry>, suffix: string, now: real, window: real): (r: Option<nat>)
    ensures r.Some? ==> r.value < |es| && Wanted(es[r.value], suffix, now, window)
    ensures forall j :: 0 <= j < |es| && (r.None? || j < r.value) ==> !Wanted(es[j], suffix, now, window)
  {
    if |es| == 0 then None
    else if Wanted(es[0], suffix, now, window) then Some(0)
    else match FirstWanted(es[1..], suffix, now, window)
      case None => None
      case Some(k) => Some(k + 1)
  }
}
