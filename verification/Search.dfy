/** First-occurrence search in a sequence: what `indexOf` and `find` do in the
    modelled programs, and what the reference decoders scan with. */
module Search {
  import opened Wrappers

  predicate OccursAt<T(==)>(s: seq<T>, pat: seq<T>, i: int)
  {
    0 <= i && i + |pat| <= |s| && forall k :: 0 <= k < |pat| ==> s[i + k] == pat[k]
  }

  ghost predicate Absent<T>(s: seq<T>, pat: seq<T>) { forall i :: !OccursAt(s, pat, i) }

  /** The first occurrence of `pat` in `s` that starts at `from` or later. */
  function Find<T(==)>(s: seq<T>, pat: seq<T>, from: nat): (r: Option<nat>)
    ensures r.Some? ==>
              && from <= r.value && OccursAt(s, pat, r.value)
              && forall j :: from <= j < r.value ==> !OccursAt(s, pat, j)
    ensures r.None? ==> forall j :: from <= j ==> !OccursAt(s, pat, j)
    decreases |s| - from
  {
    if |s| < from + |pat| then None
    else if OccursAt(s, pat, from) then Some(from)
    else Find(s, pat, from + 1)
  }

  lemma OccursPoint<T>(s: seq<T>, pat: seq<T>, i: int, k: nat)
    requires OccursAt(s, pat, i) && k < |pat|
    ensures s[i + k] == pat[k]
  {
  }

  /** An occurrence behind `a` is one in `b`, and one that ends in `a` is one in `a`. */
  lemma OccursJoined<T>(a: seq<T>, b: seq<T>, pat: seq<T>, i: nat)
    ensures OccursAt(a + b, pat, |a| + i) <==> OccursAt(b, pat, i)
    ensures i + |pat| <= |a| ==> (OccursAt(a + b, pat, i) <==> OccursAt(a, pat, i))
  {
    if OccursAt(a + b, pat, |a| + i) {
      forall k | 0 <= k < |pat| ensures b[i + k] == pat[k] {
        OccursPoint(a + b, pat, |a| + i, k);
      }
    }
    if OccursAt(b, pat, i) {
      forall k | 0 <= k < |pat| ensures (a + b)[|a| + i + k] == pat[k] {
        OccursPoint(b, pat, i, k);
      }
    }
  }

  lemma OccursStart<T>(s: seq<T>, pat: seq<T>, i: int)
    requires OccursAt(s, pat, i)
    ensures 0 <= i && i + |pat| <= |s|
  {
  }

  lemma Mismatch<T>(s: seq<T>, pat: seq<T>, i: nat, k: nat)
    requires k < |pat| && i + k < |s| && s[i + k] != pat[k]
    ensures !OccursAt(s, pat, i)
  {
  }

  lemma {:induction false} FindIs<T>(s: seq<T>, pat: seq<T>, i: nat)
    requires OccursAt(s, pat, i)
    requires forall j :: 0 <= j < i ==> !OccursAt(s, pat, j)
    ensures Find(s, pat, 0) == Some(i)
  {
  }
}
