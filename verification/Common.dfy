/** Small value types and arithmetic shared by the component models. */
module Common {

  /** A value that a file, an environment variable or a remote call may fail to supply. */
  datatype Option<+T> = None | Some(value: T)

  function Max(a: int, b: int): int {
    if a < b then b else a
  }

  function Min(a: int, b: int): int {
    if a < b then a else b
  }

  /** Lower case, for the letters of ASCII. */
  function LowerChar(c: char): char {
    if 'A' <= c <= 'Z' then c - 'A' + 'a' else c
  }

  function Lower(s: string): string {
    seq(|s|, i requires 0 <= i < |s| => LowerChar(s[i]))
  }

  lemma MulMono(k: nat, a: int, b: int)
    requires a <= b
    ensures k * a <= k * b
  {
  }

  /** Positions below n, in ascending order. */
  ghost predicate Increasing(q: seq<nat>, n: nat) {
    && (forall k :: 0 <= k < |q| ==> q[k] < n)
    && forall k, m :: 0 <= k < m < |q| ==> q[k] < q[m]
  }

  lemma IncreasingSnoc(q: seq<nat>, n: nat)
    requires Increasing(q, n)
    ensures Increasing(q, n + 1) && Increasing(q + [n], n + 1)
    ensures forall i :: i in q + [n] <==> i in q || i == n
    ensures n !in q
  {
  }
}
