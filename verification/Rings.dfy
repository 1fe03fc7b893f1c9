/** A ring kept in a sequence: the contents are a stretch that may go past the end and on at the start. */
module Rings {

  /** `i + k` on a ring of `size` places. */
  function Moved(i: nat, k: nat, size: nat): nat { if i + k < size then i + k else i + k - size }

  /** The `n` elements of the ring `a` from `start` on. */
  function Ring<T>(a: seq<T>, start: nat, n: nat): (r: seq<T>)
    requires n <= |a| && start <= |a|
    ensures |r| == n
    ensures forall i :: 0 <= i < n ==> r[i] == a[Moved(start, i, |a|)]
  {
    if start + n <= |a| then a[start..start + n] else a[start..] + a[..start + n - |a|]
  }

  /** Taking `k` elements: they are the first `k`, and the rest begins `k` places further. */
  lemma RingSplit<T>(a: seq<T>, start: nat, n: nat, k: nat)
    requires k <= n <= |a| && start <= |a|
    ensures Ring(a, start, k) == Ring(a, start, n)[..k]
    ensures Moved(start, k, |a|) <= |a|
    ensures Ring(a, Moved(start, k, |a|), n - k) == Ring(a, start, n)[k..]
  {
    hide Ring;
    forall i | 0 <= i < n - k
      ensures Ring(a, Moved(start, k, |a|), n - k)[i] == Ring(a, start, n)[k..][i]
    {
    }
  }

  /** A stretch that does not go past the end, and what follows it. */
  lemma RingTake<T>(a: seq<T>, start: nat, n: nat, k: nat)
    requires k <= n <= |a| && start + k <= |a|
    ensures Moved(start, k, |a|) <= |a|
    ensures a[start..start + k] + Ring(a, Moved(start, k, |a|), n - k) == Ring(a, start, n)
  {
    RingSplit(a, start, n, k);
    assert a[start..start + k] == Ring(a, start, k);
  }

  /** Writing `data` after the last of `n` elements, where it does not go past the end, adds it. */
  lemma RingAdd<T>(a: seq<T>, start: nat, n: nat, data: seq<T>)
    requires start < |a| && n + |data| <= |a| && Moved(start, n, |a|) + |data| <= |a|
    ensures var end := Moved(start, n, |a|);
            Ring(a[..end] + data + a[end + |data|..], start, n + |data|) == Ring(a, start, n) + data
  {
    hide Ring;
    var end := Moved(start, n, |a|);
    var a' := a[..end] + data + a[end + |data|..];
    var r, r' := Ring(a, start, n) + data, Ring(a', start, n + |data|);
    forall i | 0 <= i < n + |data| ensures r'[i] == r[i] {
    }
  }
}
