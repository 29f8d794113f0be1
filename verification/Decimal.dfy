/** Decimal text of integers, as `strconv.Itoa` writes it and `strconv.Atoi` reads it. */
module Decimal {
  import opened Text

  const MaxInt64 := 0x7FFF_FFFF_FFFF_FFFF

  predicate IsDigit(c: char) { '0' <= c <= '9' }

  function Digit(d: nat): char
    requires d < 10
  {
    '0' + d as char
  }

  function Value(c: char): nat
    requires IsDigit(c)
  {
    (c - '0') as nat
  }

  function Itoa(n: nat): (s: string)
    ensures s != "" && forall k :: 0 <= k < |s| ==> IsDigit(s[k])
  {
    if n < 10 then [Digit(n)] else Itoa(n / 10) + [Digit(n % 10)]
  }

  /** The value of a digit string. */
  function Parse(s: string): nat
    requires forall k :: 0 <= k < |s| ==> IsDigit(s[k])
  {
    if s == "" then 0 else Parse(s[..|s| - 1]) * 10 + Value(s[|s| - 1])
  }

  lemma {:induction false} ParseItoa(n: nat)
    ensures Parse(Itoa(n)) == n
  {
    if n >= 10 {
      ParseItoa(n / 10);
      var s := Itoa(n);
      assert s[..|s| - 1] == Itoa(n / 10);
    } else {
      assert Itoa(n)[..0] == "";
    }
  }

  function Pow10(k: nat): nat {
    if k == 0 then 1 else 10 * Pow10(k - 1)
  }

  /** A number has at most k digits exactly if it is below ten to the k. */
  lemma {:induction false} ItoaLength(n: nat, k: nat)
    requires k > 0
    ensures |Itoa(n)| <= k <==> n < Pow10(k)
  {
    if n >= 10 && k > 1 {
      ItoaLength(n / 10, k - 1);
      assert n / 10 < Pow10(k - 1) <==> n < 10 * Pow10(k - 1);
    } else if k > 1 {
      Pow10AtLeast(k - 1);
    } else {
      assert Pow10(1) == 10 * Pow10(0);
    }
  }

  lemma {:induction false} Pow10AtLeast(k: nat)
    ensures Pow10(k) >= 1
  {
    if k > 0 {
      Pow10AtLeast(k - 1);
    }
  }

  /** `strconv.Atoi`: an optional sign and digits whose value a 64-bit integer holds. */
  function Atoi(s: string): Option<int> {
    var signed := s != "" && (s[0] == '-' || s[0] == '+');
    var digits := if signed then s[1..] else s;
    if digits == "" || exists k :: 0 <= k < |digits| && !IsDigit(digits[k]) then None
    else
      var n := if signed && s[0] == '-' then -(Parse(digits) as int) else Parse(digits);
      if -MaxInt64 - 1 <= n <= MaxInt64 then Some(n) else None
  }

  lemma AtoiItoa(n: nat)
    requires n <= MaxInt64
    ensures Atoi(Itoa(n)) == Some(n)
  {
    ParseItoa(n);
    assert IsDigit(Itoa(n)[0]);
  }
}
