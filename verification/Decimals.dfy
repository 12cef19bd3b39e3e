/** `String(n)` and `Number.parseInt(s, 10)` on natural numbers. */
module Decimals {
  import opened JsText

  const ZERO: CodeUnit := 48

  function Print(n: nat): (r: Text)
    ensures r != [] && forall i :: 0 <= i < |r| ==> IsDigit(r[i])
  {
    if n < 10 then [ZERO + n] else Print(n / 10) + [ZERO + n % 10]
  }

  predicate IsDigit(c: CodeUnit) {
    ZERO <= c < ZERO + 10
  }

  /** The value of the leading digits; parsing stops at the first other character. */
  function ParseLeading(t: Text, acc: nat): nat {
    if t == [] || !IsDigit(t[0]) then acc else ParseLeading(t[1..], acc * 10 + (t[0] - ZERO))
  }

  function Parse(t: Text): nat {
    ParseLeading(t, 0)
  }

  lemma {:induction false} ParseSnoc(t: Text, d: CodeUnit, acc: nat)
    requires IsDigit(d) && forall i :: 0 <= i < |t| ==> IsDigit(t[i])
    ensures ParseLeading(t + [d], acc) == ParseLeading(t, acc) * 10 + (d - ZERO)
    decreases |t|
  {
    if t == [] {
      assert t + [d] == [d] && [d][1..] == [];
    } else {
      assert (t + [d])[1..] == t[1..] + [d];
      ParseSnoc(t[1..], d, acc * 10 + (t[0] - ZERO));
    }
  }

  /** Parsing undoes printing. */
  lemma {:induction false} ParsePrint(n: nat)
    ensures Parse(Print(n)) == n
  {
    if n < 10 {
      assert Print(n) == [ZERO + n] && Print(n)[1..] == [];
      assert ParseLeading(Print(n), 0) == ParseLeading(Print(n)[1..], n);
    } else {
      ParsePrint(n / 10);
      ParseSnoc(Print(n / 10), ZERO + n % 10, 0);
    }
  }

  lemma PrintInjective(m: nat, n: nat)
    requires Print(m) == Print(n)
    ensures m == n
  {
    ParsePrint(m);
    ParsePrint(n);
  }
}
