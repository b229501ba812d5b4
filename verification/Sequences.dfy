/** Facts about sequences that several models share. */
module Sequences {

  lemma Regroup<T>(a: seq<T>, b: seq<T>, c: seq<T>)
    ensures a + (b + c) == a + b + c
  {
  }

  /** Where `x` first stands in `s`, or the length of `s`. */
  function IndexOf<T(==)>(s: seq<T>, x: T): (i: nat)
    ensures i <= |s| && (i < |s| ==> s[i] == x)
    ensures forall k :: 0 <= k < i ==> s[k] != x
  {
    if s == [] || s[0] == x then 0 else 1 + IndexOf(s[1..], x)
  }

  /** `s` with `x` put in at place `k`. */
  function Spliced<T>(s: seq<T>, k: nat, x: T): seq<T>
    requires k <= |s|
  {
    s[..k] + [x] + s[k..]
  }

  lemma SplicedAt<T>(s: seq<T>, k: nat, x: T, i: nat)
    requires k <= |s| && i <= |s|
    ensures |Spliced(s, k, x)| == |s| + 1
    ensures Spliced(s, k, x)[i] == if i < k then s[i] else if i == k then x else s[i - 1]
  {
  }

  lemma SplicedLast<T>(s: seq<T>, x: T)
    ensures Spliced(s, |s|, x) == s + [x]
  {
  }

  lemma SplicedEarlier<T>(s: seq<T>, k: nat, x: T)
    requires k < |s|
    ensures Spliced(s[..|s| - 1], k, x) + [s[|s| - 1]] == Spliced(s, k, x)
  {
  }

  lemma SplicedMember<T>(s: seq<T>, k: nat, x: T)
    requires k <= |s|
    ensures forall y :: y in Spliced(s, k, x) <==> y == x || y in s
  {
    assert s == s[..k] + s[k..];
  }
}
