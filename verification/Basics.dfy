/** Definitions shared by several components. */
module Basics {

  datatype Option<T> = None | Some(value: T)

  /** `s` without its `i`-th element. */
  function Without<T>(s: seq<T>, i: nat): (r: seq<T>)
    requires i < |s|
    ensures |r| == |s| - 1
  {
    s[..i] + s[i + 1..]
  }

  lemma WithoutSplit<T>(s: seq<T>, i: nat) returns (a: seq<T>, b: seq<T>)
    requires i < |s|
    ensures s == (a + [s[i]]) + b && Without(s, i) == a + b
  {
    a, b := s[..i], s[i + 1..];
  }

  function Pow2(n: nat): (r: nat)
    ensures r >= 1
  {
    if n == 0 then 1 else 2 * Pow2(n - 1)
  }

  /** The logarithm to base 2, rounded up. */
  ghost function LogUp(n: nat): (k: nat) {
    if n <= 1 then 0 else 1 + LogUp((n + 1) / 2)
  }

  lemma {:induction false} LogUpLeast(n: nat)
    ensures n <= Pow2(LogUp(n)) && (LogUp(n) > 0 ==> Pow2(LogUp(n) - 1) < n)
  {
    if n > 1 {
      LogUpLeast((n + 1) / 2);
    }
  }

  lemma {:induction false} LogUpMono(m: nat, n: nat)
    requires m <= n
    ensures LogUp(m) <= LogUp(n)
  {
    if m > 1 {
      LogUpMono((m + 1) / 2, (n + 1) / 2);
    }
  }

  /** Halving, rounded up, takes one off the logarithm. */
  lemma PassHalves(m: nat, n: nat)
    requires n <= (m + 1) / 2
    ensures m >= 2 ==> LogUp(n) + 1 <= LogUp(m)
  {
    LogUpMono(n, (m + 1) / 2);
  }
}
