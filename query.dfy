/**
 * The two database queries the handlers issue, over a table held as a sequence
 * in store order: `FirstOrDefaultAsync(p)` (here the position of the first row
 * satisfying `p`) and `Where(p).ToListAsync()`.
 */
module Query {
  import opened Nullable

  /** The position of the first element satisfying `p`, or `None` when there is none. */
  function First<T>(s: seq<T>, p: T -> bool): (r: Option<nat>)
    ensures r.Some? ==> r.value < |s| && p(s[r.value])
    ensures r.Some? ==> forall j :: 0 <= j < r.value ==> !p(s[j])
    ensures r.None? <==> forall j :: 0 <= j < |s| ==> !p(s[j])
  {
    if s == [] then None
    else if p(s[0]) then Some(0)
    else match First(s[1..], p)
      case None => None
      case Some(k) => Some(k + 1)
  }

  /** The elements satisfying `p`, in their order in `s`. */
  function Where<T>(s: seq<T>, p: T -> bool): (r: seq<T>)
    ensures |r| <= |s|
    ensures forall i :: 0 <= i < |r| ==> r[i] in s && p(r[i])
    ensures forall j :: 0 <= j < |s| && p(s[j]) ==> s[j] in r
  {
    if s == [] then [] else (if p(s[0]) then [s[0]] else []) + Where(s[1..], p)
  }

  /** `Remove` of the row at position `k`. */
  function RemoveAt<T>(s: seq<T>, k: nat): (r: seq<T>)
    requires k < |s|
    ensures |r| == |s| - 1
    ensures forall j :: 0 <= j < k ==> r[j] == s[j]
    ensures forall j :: k <= j < |r| ==> r[j] == s[j + 1]
  {
    s[..k] + s[k + 1..]
  }

  /** Filtering distributes over concatenation. */
  lemma {:induction false} WhereConcat<T>(a: seq<T>, b: seq<T>, p: T -> bool)
    ensures Where(a + b, p) == Where(a, p) + Where(b, p)
  {
    if a == [] {
      assert a + b == b;
    } else {
      assert (a + b)[1..] == a[1..] + b;
      WhereConcat(a[1..], b, p);
    }
  }

  /** When every row satisfies `p`, filtering gives back the rows themselves, in order. */
  lemma {:induction false} WhereAll<T>(s: seq<T>, p: T -> bool)
    requires forall j :: 0 <= j < |s| ==> p(s[j])
    ensures Where(s, p) == s
  {
    if s != [] {
      assert [s[0]] + s[1..] == s;
      WhereAll(s[1..], p);
    }
  }

  /** When no row satisfies `p`, filtering gives nothing. */
  lemma {:induction false} WhereNone<T>(s: seq<T>, p: T -> bool)
    requires forall j :: 0 <= j < |s| ==> !p(s[j])
    ensures Where(s, p) == []
  {
    if s != [] {
      WhereNone(s[1..], p);
    }
  }

  /** Appending a row adds it to the filtered result exactly when it satisfies `p`. */
  lemma WhereAppend<T>(s: seq<T>, x: T, p: T -> bool)
    ensures Where(s + [x], p) == Where(s, p) + (if p(x) then [x] else [])
  {
    WhereConcat(s, [x], p);
    assert Where([x], p) == (if p(x) then [x] else []) + Where([x][1..], p);
  }

  /** Removing a row that does not satisfy `p` leaves the filtered result as it was. */
  lemma WhereRemoveAt<T>(s: seq<T>, k: nat, p: T -> bool)
    requires k < |s| && !p(s[k])
    ensures Where(RemoveAt(s, k), p) == Where(s, p)
  {
    var pre, post := s[..k], s[k + 1..];
    var rest := [s[k]] + post;
    assert s == pre + rest;
    assert rest[1..] == post;
    assert Where(rest, p) == Where(post, p);
    WhereConcat(pre, rest, p);
    WhereConcat(pre, post, p);
  }

  /** Replacing a row that does not satisfy `p` by another that does not either leaves the filtered result as it was. */
  lemma WhereUpdate<T>(s: seq<T>, k: nat, x: T, p: T -> bool)
    requires k < |s| && !p(s[k]) && !p(x)
    ensures Where(s[k := x], p) == Where(s, p)
  {
    var pre, post := s[..k], s[k + 1..];
    var was, now := [s[k]] + post, [x] + post;
    assert s == pre + was;
    assert s[k := x] == pre + now;
    assert was[1..] == post && now[1..] == post;
    assert Where(was, p) == Where(post, p) == Where(now, p);
    WhereConcat(pre, was, p);
    WhereConcat(pre, now, p);
  }
}
