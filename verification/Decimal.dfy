/** Decimal numbers, as `strconv` writes and parses them. */
module Decimal {
  import opened Wrappers

  function Itoa(n: nat): (s: string)
    ensures s != []
  {
    if n < 10 then ['0' + n as char] else Itoa(n / 10) + ['0' + (n % 10) as char]
  }

  function Digits(s: string): Option<nat> {
    if s == [] then Some(0)
    else
      var last := s[|s| - 1];
      match Digits(s[..|s| - 1])
      case None => None
      case Some(high) => if '0' <= last <= '9' then Some(high * 10 + (last - '0') as int) else None
  }

  /** Parses an optional sign and digits; fails outside the range of a 64-bit number. */
  function Atoi(s: string): Option<int> {
    var signed := s != [] && (s[0] == '-' || s[0] == '+');
    var digits := if signed then s[1..] else s;
    if digits == [] || Digits(digits) == None then None
    else
      var n: int := if signed && s[0] == '-' then 0 - Digits(digits).value else Digits(digits).value;
      if -0x8000_0000_0000_0000 <= n < 0x8000_0000_0000_0000 then Some(n) else None
  }

  lemma {:induction false} DigitsOfItoa(n: nat)
    ensures Digits(Itoa(n)) == Some(n)
    ensures '0' <= Itoa(n)[0] <= '9'
    ensures '$' !in Itoa(n)
  {
    if n < 10 {
      assert Digits(Itoa(n)[..0]) == Some(0);
    } else {
      DigitsOfItoa(n / 10);
      assert Itoa(n)[..|Itoa(n)| - 1] == Itoa(n / 10);
    }
  }

  lemma AtoiOfItoa(n: nat)
    requires n < 0x8000_0000_0000_0000
    ensures Atoi(Itoa(n)) == Some(n)
  {
    DigitsOfItoa(n);
  }

  /** A sign before the digits counts; the range of a 64-bit number has one more below zero than above. */
  lemma AtoiOfSigned(n: nat)
    ensures Atoi("-" + Itoa(n)) == if n <= 0x8000_0000_0000_0000 then Some(0 - n as int) else None
    ensures Atoi("+" + Itoa(n)) == if n < 0x8000_0000_0000_0000 then Some(n) else None
  {
    DigitsOfItoa(n);
    assert ("-" + Itoa(n))[1..] == Itoa(n) && ("+" + Itoa(n))[1..] == Itoa(n);
  }

  /** Other characters, and no digits at all, are refused. */
  lemma {:induction false} DigitsIff(s: string)
    ensures Digits(s).Some? <==> forall i | 0 <= i < |s| :: '0' <= s[i] <= '9'
  {
    if s != "" {
      var front := s[..|s| - 1];
      DigitsIff(front);
      assert forall i | 0 <= i < |front| :: front[i] == s[i];
    }
  }

  lemma ItoaInjective(m: nat, n: nat)
    requires Itoa(m) == Itoa(n)
    ensures m == n
  {
    DigitsOfItoa(m);
    DigitsOfItoa(n);
  }

  function Power10(k: nat): (r: nat)
    ensures r >= 1
  {
    if k == 0 then 1 else 10 * Power10(k - 1)
  }

  lemma {:induction false} Power10Monotone(k: nat, l: nat)
    requires k <= l
    ensures Power10(k) <= Power10(l)
  {
    if k < l {
      Power10Monotone(k, l - 1);
    }
  }

  /** A number with `k` digits is less than the power of ten with `k` zeros. */
  lemma {:induction false} ItoaLength(n: nat)
    ensures n < Power10(|Itoa(n)|)
  {
    if n < 10 {
      assert Power10(1) == 10 * Power10(0);
    } else {
      ItoaLength(n / 10);
    }
  }
}
