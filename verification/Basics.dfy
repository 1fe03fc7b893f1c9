/** Notions used by several of the models. */
module Basics {

  datatype Option<T> = None | Some(value: T)

  function Min(a: int, b: int): int { if a < b then a else b }

  function Max(a: int, b: int): int { if a < b then b else a }

  function Zeros(n: nat): (s: seq<nat>)
    ensures |s| == n && forall i :: 0 <= i < n ==> s[i] == 0
  {
    if n == 0 then [] else Zeros(n - 1) + [0]
  }

  function RemoveAt<T>(s: seq<T>, k: nat): seq<T>
    requires k < |s|
  {
    s[..k] + s[k + 1..]
  }

  lemma SliceSplit<T>(s: seq<T>, a: nat, b: nat, i: nat)
    requires a <= b <= |s| && i <= b - a
    ensures s[a..b][..i] == s[a..a + i] && s[a..b][i..] == s[a + i..b]
  {
    var t := s[a..b];
    forall k | 0 <= k < i ensures t[..i][k] == s[a..a + i][k] {}
    forall k | 0 <= k < b - a - i ensures t[i..][k] == s[a + i..b][k] {}
  }

  lemma SliceSnoc<T>(s: seq<T>, a: nat, b: nat)
    requires a <= b < |s|
    ensures s[a..b + 1] == s[a..b] + [s[b]]
  {
  }
}
