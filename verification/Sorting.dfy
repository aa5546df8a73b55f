/** Sorting distinct numbers, standing for the standard library's sort. */
module Sorting {
  ghost predicate Ascending(s: seq<nat>) {
    forall i, j | 0 <= i < j < |s| :: s[i] < s[j]
  }

  lemma InsertAscending(r: seq<nat>, at: nat, a: nat)
    requires Ascending(r) && at <= |r| && a !in r
    requires (forall i | 0 <= i < at :: r[i] < a) && (at < |r| ==> a < r[at])
    ensures Ascending(r[..at] + [a] + r[at..])
    ensures forall x :: x in r[..at] + [a] + r[at..] <==> x in r || x == a
  {
    assert r == r[..at] + r[at..];
  }

  /** `sort_unstable_by_key` on distinct ids. */
  method SortAscending(s: seq<nat>) returns (r: seq<nat>)
    requires forall i, j | 0 <= i < j < |s| :: s[i] != s[j]
    ensures Ascending(r) && forall a :: a in r <==> a in s
  {
    r := [];
    for n := 0 to |s|
      invariant Ascending(r) && forall a :: a in r <==> a in s[..n]
    {
      assert s[n] !in s[..n] && s[..n + 1] == s[..n] + [s[n]];
      var at := 0;
      while at < |r| && r[at] < s[n]
        invariant at <= |r| && forall i | 0 <= i < at :: r[i] < s[n]
      {
        at := at + 1;
      }
      assert at < |r| ==> r[at] in r;
      InsertAscending(r, at, s[n]);
      r := r[..at] + [s[n]] + r[at..];
    }
    assert s[..|s|] == s;
  }
}
