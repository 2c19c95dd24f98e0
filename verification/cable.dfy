/**
 The cable entity: a plain value with an integer length and a name. It does
 no validation of its own; two cables are equal when their lengths and names
 are equal.
 */
module Cables {

  datatype Cable = Cable(length: int, name: string)

  /** Sum of a sequence of integers, accumulated from the front. */
  function Sum(s: seq<int>): int {
    if |s| == 0 then 0 else Sum(s[..|s| - 1]) + s[|s| - 1]
  }

  /** The lengths of a sequence of cables, in order. */
  function Lengths(cs: seq<Cable>): (ls: seq<int>)
    ensures |ls| == |cs|
    ensures forall i :: 0 <= i < |cs| ==> ls[i] == cs[i].length
  {
    seq(|cs|, i requires 0 <= i < |cs| => cs[i].length)
  }

  /** Total length of a sequence of cables. */
  function TotalLength(cs: seq<Cable>): int {
    Sum(Lengths(cs))
  }

  lemma {:induction false} SumAppend(a: seq<int>, b: seq<int>)
    ensures Sum(a + b) == Sum(a) + Sum(b)
    decreases |b|
  {
    if |b| == 0 {
      assert a + b == a;
    } else {
      assert (a + b)[..|a + b| - 1] == a + b[..|b| - 1];
      SumAppend(a, b[..|b| - 1]);
    }
  }

  /** `k` copies of `x` sum to `k * x`. */
  lemma {:induction false} SumConstant(k: nat, x: int)
    ensures Sum(seq(k, _ => x)) == k * x
    decreases k
  {
    if k > 0 {
      assert seq(k, _ => x)[..k - 1] == seq(k - 1, _ => x);
      SumConstant(k - 1, x);
    }
  }
}
