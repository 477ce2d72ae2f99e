/**
 Reading and writing a run of cells in a circular buffer, around its end.
 */
module Circular {
  /** Distance from slot `from` to slot `i`, going up and around. */
  function Distance(i: nat, from: nat, len: nat): nat
    requires i < len && from < len
  {
    if i >= from then i - from else i + len - from
  }

  /** `cells` with `data` laid over it from slot `from` on, around the end. */
  function Overlay<T>(cells: seq<T>, from: nat, data: seq<T>): (r: seq<T>)
    requires from < |cells| && |data| <= |cells|
    ensures |r| == |cells|
  {
    seq(|cells|, i requires 0 <= i < |cells| =>
      if Distance(i, from, |cells|) < |data| then data[Distance(i, from, |cells|)] else cells[i])
  }

  /** The slots from `from` on, around the end. */
  function Window<T>(q: seq<T>, from: nat, n: nat): (r: seq<T>)
    requires from < |q| && n <= |q|
    ensures |r| == n
  {
    seq(n, k requires 0 <= k < n => if from + k < |q| then q[from + k] else q[from + k - |q|])
  }

  /** Position after `n` steps from slot `from`. */
  function After(from: nat, n: nat, len: nat): nat
    requires from < len && n < len
  {
    if from + n < len then from + n else from + n - len
  }

  lemma OverlayExtends<T>(q: seq<T>, from: nat, held: seq<T>, data: seq<T>)
    requires from < |q| && |held| + |data| < |q|
    requires held == Window(q, from, |held|)
    ensures Window(Overlay(q, After(from, |held|, |q|), data), from, |held + data|) == held + data
  {
    var r := Overlay(q, After(from, |held|, |q|), data);
    forall k | 0 <= k < |held + data|
      ensures Window(r, from, |held + data|)[k] == (held + data)[k]
    {
    }
  }

  lemma WindowSplits<T>(q: seq<T>, from: nat, n: nat, held: seq<T>)
    requires from < |q| && n <= |held| < |q|
    requires held == Window(q, from, |held|)
    ensures Window(q, from, n) == held[..n]
    ensures Window(q, After(from, n, |q|), |held| - n) == held[n..]
  {
  }
}
