/** Small shared vocabulary: optional values and strictly increasing position lists. */
module Prelude {

  datatype Option<+T> = None | Some(value: T)

  /** s lists the positions lo, lo+1, ..., hi-1. */
  ghost predicate IsRange(s: seq<nat>, lo: nat, hi: nat) {
    lo + |s| == hi && forall k :: 0 <= k < |s| ==> s[k] == lo + k
  }

  ghost predicate Increasing(s: seq<nat>) {
    forall a, b :: 0 <= a < b < |s| ==> s[a] < s[b]
  }

  lemma IncreasingSnoc(s: seq<nat>, m: nat)
    requires Increasing(s) && AllBelow(s, m)
    ensures Increasing(s + [m]) && AllBelow(s + [m], m + 1)
  {
  }

  ghost predicate AllBelow(s: seq<nat>, n: nat) {
    forall k :: 0 <= k < |s| ==> s[k] < n
  }
}
