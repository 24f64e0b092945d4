/** The two small helpers several parts of the program share: `min` on counts and durations,
    and `" ".repeat(n)`. */
module Basics {

  function Min(a: nat, b: nat): nat
  {
    if a <= b then a else b
  }

  /** `" ".repeat(n)` */
  function Spaces(n: nat): (s: string)
    ensures |s| == n && forall i :: 0 <= i < n ==> s[i] == ' '
  {
    seq(n, _ => ' ')
  }
}
