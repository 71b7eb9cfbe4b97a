/** The first occurrences of the elements of a sequence. */
module Occurrences {

  /** The indices of the first occurrences, in increasing order. */
  function FirstOccurrences<T(==)>(s: seq<T>): (r: seq<nat>)
    ensures |r| <= |s| && forall u :: 0 <= u < |r| ==> r[u] < |s|
  {
    if s == [] then []
    else
      var n := |s| - 1;
      var firsts := FirstOccurrences(s[..n]);
      if s[n] in s[..n] then firsts else firsts + [n]
  }

  /** Each element has a first occurrence at or before it. */
  lemma {:induction false} HasFirst<T>(s: seq<T>, k: nat) returns (u: nat)
    requires k < |s|
    ensures var firsts := FirstOccurrences(s);
            u < |firsts| && firsts[u] <= k && s[firsts[u]] == s[k]
  {
    var n := |s| - 1;
    if k < n {
      u := HasFirst(s[..n], k);
    } else if s[n] in s[..n] {
      var j :| 0 <= j < n && s[..n][j] == s[n];
      u := HasFirst(s[..n], j);
    } else {
      u := |FirstOccurrences(s)| - 1;
    }
  }

  lemma {:induction false} FirstsDiffer<T>(s: seq<T>, u: nat, v: nat)
    requires u < v < |FirstOccurrences(s)|
    ensures var firsts := FirstOccurrences(s);
            firsts[u] < firsts[v] && s[firsts[u]] != s[firsts[v]]
  {
    var n := |s| - 1;
    var before := FirstOccurrences(s[..n]);
    if v < |before| {
      FirstsDiffer(s[..n], u, v);
    } else {
      assert s[..n][before[u]] in s[..n];
    }
  }
}
