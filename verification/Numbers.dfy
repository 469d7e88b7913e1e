/** Minimum, and sums over sequences. */
module Numbers {

  function Min(a: int, b: int): int {
    if a <= b then a else b
  }

  function Tally<T>(s: seq<T>, f: T -> nat): nat {
    if s == [] then 0 else Tally(s[..|s| - 1], f) + f(s[|s| - 1])
  }

  lemma {:induction false} TallyUpdate<T>(s: seq<T>, i: nat, x: T, f: T -> nat)
    requires i < |s|
    ensures Tally(s[i := x], f) + f(s[i]) == Tally(s, f) + f(x)
    decreases |s|
  {
    var n, u := |s| - 1, s[i := x];
    if i < n {
      TallyUpdate(s[..n], i, x, f);
      assert u[..n] == s[..n][i := x] && u[n] == s[n];
    } else {
      assert u[..n] == s[..n];
    }
  }

  lemma {:induction false} TallyPositive<T>(s: seq<T>, i: nat, f: T -> nat)
    requires i < |s|
    ensures Tally(s, f) >= f(s[i])
    decreases |s|
  {
    if i < |s| - 1 {
      TallyPositive(s[..|s| - 1], i, f);
    }
  }
}
