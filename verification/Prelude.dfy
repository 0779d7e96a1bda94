/** The two result shapes that every other module uses for the source's `None` and exceptions. */
module Prelude {

  datatype Option<+T> = None | Some(value: T)

  datatype Result<+T, +E> = Ok(value: T) | Err(error: E)

  /** No element occurs twice. */
  ghost predicate Distinct<T>(s: seq<T>) {
    forall i, j :: 0 <= i < j < |s| ==> s[i] != s[j]
  }

  lemma DistinctAppend<T>(s: seq<T>, x: T)
    requires Distinct(s) && x !in s
    ensures Distinct(s + [x])
  {
  }

  /** No two keys share a value. */
  ghost predicate Separate<K, V>(m: map<K, V>) {
    forall k, l :: k in m && l in m && k != l ==> m[k] != m[l]
  }

  ghost predicate All<T>(s: seq<T>, p: T -> bool) {
    forall i :: 0 <= i < |s| ==> p(s[i])
  }

  lemma AllByLast<T>(s: seq<T>, p: T -> bool)
    requires s != []
    ensures All(s, p) <==> All(s[..|s| - 1], p) && p(s[|s| - 1])
  {
    var init := s[..|s| - 1];
    assert forall i :: 0 <= i < |init| ==> init[i] == s[i];
  }

  /** `picked` is what `all` holds at the places `at`, which ascend. */
  ghost predicate Picks<T>(all: seq<T>, picked: seq<T>, at: seq<nat>) {
    && |picked| == |at|
    && (forall k :: 0 <= k < |at| ==> at[k] < |all| && picked[k] == all[at[k]])
    && (forall k, l :: 0 <= k < l < |at| ==> at[k] < at[l])
  }

  /** Places below `n`, in order. */
  ghost predicate Ascending(at: seq<nat>, n: nat) {
    (forall k :: 0 <= k < |at| ==> at[k] < n) && (forall k, l :: 0 <= k < l < |at| ==> at[k] < at[l])
  }

  ghost predicate Below(at: seq<nat>, n: nat) {
    forall k :: 0 <= k < |at| ==> at[k] < n
  }

  lemma PickOneMore<T>(all: seq<T>, picked: seq<T>, at: seq<nat>, i: nat)
    requires Picks(all, picked, at) && Below(at, i) && i < |all|
    ensures Picks(all, picked + [all[i]], at + [i]) && Below(at + [i], i + 1)
    ensures forall j: nat :: j in at + [i] <==> j in at || j == i
  {
  }
}
