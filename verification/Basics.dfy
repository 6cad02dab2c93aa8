/** What several of the models share. */
module Basics {

  datatype Option<T> = None | Some(value: T)

  ghost predicate Distinct<T>(s: seq<T>) {
    forall i, j :: 0 <= i < j < |s| ==> s[i] != s[j]
  }

  /** The last `k` elements of a sequence, after adding one and after giving up the first of them. */
  lemma LastAfterAdding<T>(s: seq<T>, k: nat, x: T)
    requires k <= |s|
    ensures (s + [x])[|s| + 1 - (k + 1)..] == s[|s| - k..] + [x]
  {
  }

  lemma LastAfterTaking<T>(s: seq<T>, k: nat)
    requires 0 < k <= |s|
    ensures s[|s| - (k - 1)..] == s[|s| - k..][1..]
  {
  }

  lemma SubsetSize<T>(a: set<T>, b: set<T>)
    requires a <= b
    ensures |a| <= |b|
  {
    assert b == a + (b - a);
  }
}
