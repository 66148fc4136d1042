/** Among more distinct names than there are in a set, some name is not in it. */
module Pigeonhole {

  ghost predicate Distinct(name: nat -> string) {
    forall i: nat, j: nat :: name(i) == name(j) ==> i == j
  }

  /** Distinct names that are all taken are not more than what is taken. */
  lemma {:induction false} AllTaken(name: nat -> string, n: nat, taken: set<string>)
    requires Distinct(name) && forall i | 0 <= i < n :: name(i) in taken
    ensures n <= |taken|
  {
    if n > 0 {
      AllTaken(name, n - 1, taken - {name(n - 1)});
    }
  }

  /** The first name that is free. */
  lemma FirstFree(name: nat -> string, taken: set<string>) returns (m: nat)
    requires Distinct(name)
    ensures name(m) !in taken && m <= |taken| && forall i | 0 <= i < m :: name(i) in taken
  {
    m := 0;
    while name(m) in taken
      invariant forall i | 0 <= i < m :: name(i) in taken
      decreases |taken| + 1 - m
    {
      AllTaken(name, m + 1, taken);
      m := m + 1;
    }
    AllTaken(name, m, taken);
  }
}
