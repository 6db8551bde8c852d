/** Replacing a run of elements. */
module Sequences {
  /** A sequence with the run d written over it from position at on. */
  function Patch<T>(m: seq<T>, at: nat, d: seq<T>): (r: seq<T>)
    requires at + |d| <= |m|
    ensures |r| == |m|
    ensures forall i :: 0 <= i < |m| ==> r[i] == if at <= i < at + |d| then d[i - at] else m[i]
  {
    m[..at] + d + m[at + |d|..]
  }

  lemma PatchNone<T>(m: seq<T>, at: nat)
    requires at <= |m|
    ensures Patch(m, at, []) == m
  {
  }

  lemma PatchNext<T>(m: seq<T>, at: nat, d: seq<T>, k: nat)
    requires k < |d| && at + |d| <= |m|
    ensures Patch(m, at, d[..k])[at + k := d[k]] == Patch(m, at, d[..k + 1])
  {
  }

  /** A patch continued where it stopped, with k elements of the next run. */
  lemma PatchOnward<T>(m: seq<T>, at: nat, d: seq<T>, sent: nat, k: nat, n: nat)
    requires k <= n && sent + n <= |d| && at + |d| <= |m|
    ensures Patch(Patch(m, at, d[..sent]), at + sent, d[sent..sent + n][..k]) == Patch(m, at, d[..sent + k])
  {
  }
}
