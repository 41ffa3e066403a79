/** The few Python list operations the firmware relies on, stated over Dafny sequences. */
module Seqs {

  /** `[0] * n` */
  function Zeros(n: nat): (z: seq<int>)
    ensures |z| == n
    ensures forall i | 0 <= i < n :: z[i] == 0
  {
    seq(n, _ => 0)
  }

  /** The position `xs[i]` denotes in a Python list of length `n`: negative indices count from the end. */
  function PyIndex(n: nat, i: int): (k: nat)
    requires -(n as int) <= i < n
    ensures k < n
    ensures i < 0 ==> k + (-i) == n
    ensures 0 <= i ==> k == i
  {
    if i < 0 then n + i else i
  }

  /** `xs[i]` for a Python list, negative indices included. */
  function PyAt<T>(xs: seq<T>, i: int): T
    requires -(|xs| as int) <= i < |xs|
  {
    xs[PyIndex(|xs|, i)]
  }

  /** `xs[0:n]`: Python slicing clamps the end to the length of the list. */
  function PyPrefix<T>(xs: seq<T>, n: nat): (p: seq<T>)
    ensures |p| == if |xs| < n then |xs| else n
    ensures p <= xs
  {
    if |xs| <= n then xs else xs[..n]
  }

  /** `xs[::-1]` */
  function Reverse<T>(xs: seq<T>): (r: seq<T>)
    ensures |r| == |xs|
    ensures forall j | 0 <= j < |xs| :: r[j] == xs[|xs| - 1 - j]
  {
    seq(|xs|, j requires 0 <= j < |xs| => xs[|xs| - 1 - j])
  }
}
