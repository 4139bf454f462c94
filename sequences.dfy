/** Sequences of sequences joined end to end, and where each inner element lands. */
module Seqs {

  /** The parts joined in order. */
  function Concat<T>(xss: seq<seq<T>>): seq<T> {
    if xss == [] then [] else Concat(xss[..|xss| - 1]) + xss[|xss| - 1]
  }

  lemma ConcatSnoc<T>(xss: seq<seq<T>>, ys: seq<T>)
    ensures Concat(xss + [ys]) == Concat(xss) + ys
  {
    assert (xss + [ys])[..|xss|] == xss;
  }

  /** Element `si` of part `fi` sits after the parts before it, at offset `si`. */
  lemma {:induction false} ConcatAt<T>(xss: seq<seq<T>>, fi: nat, si: nat, p: nat)
    requires fi < |xss| && si < |xss[fi]| && p == |Concat(xss[..fi])| + si
    ensures p < |Concat(xss)| && Concat(xss)[p] == xss[fi][si]
  {
    var n := |xss| - 1;
    var init := xss[..n];
    if fi == n {
      assert xss[..fi] == init;
    } else {
      assert xss[..fi] == init[..fi] && init[fi] == xss[fi];
      ConcatAt(init, fi, si, p);
    }
  }

  /** Parts of equal lengths join to sequences of equal length. */
  lemma {:induction false} ConcatLength<S, T>(xss: seq<seq<S>>, yss: seq<seq<T>>)
    requires |xss| == |yss| && forall k :: 0 <= k < |xss| ==> |xss[k]| == |yss[k]|
    ensures |Concat(xss)| == |Concat(yss)|
  {
    if xss != [] {
      var n := |xss| - 1;
      ConcatLength(xss[..n], yss[..n]);
    }
  }

  /** With parts of equal lengths, a position counted in `yss` finds the matching element of `xss`. */
  lemma ConcatParallelAt<S, T>(xss: seq<seq<S>>, yss: seq<seq<T>>, fi: nat, si: nat, p: nat)
    requires |xss| == |yss| && forall k :: 0 <= k < |xss| ==> |xss[k]| == |yss[k]|
    requires fi < |xss| && si < |xss[fi]| && p == |Concat(yss[..fi])| + si
    ensures p < |Concat(xss)| && Concat(xss)[p] == xss[fi][si]
  {
    ConcatLength(xss[..fi], yss[..fi]);
    ConcatAt(xss, fi, si, p);
  }
}
