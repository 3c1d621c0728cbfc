/** Searching strings, and decimal numbers. */
module Strings {
  predicate OccursAt(s: string, sub: string, pos: int) {
    0 <= pos <= |s| - |sub| && s[pos..pos + |sub|] == sub
  }

  /** The first occurrence of a string, or -1. */
  function Find(s: string, sub: string): (pos: int)
    ensures pos == -1 || OccursAt(s, sub, pos)
    ensures forall i :: OccursAt(s, sub, i) ==> 0 <= pos <= i
  {
    FindFrom(s, sub, 0)
  }

  function FindFrom(s: string, sub: string, start: nat): (pos: int)
    ensures pos == -1 || (start <= pos && OccursAt(s, sub, pos))
    ensures forall i :: start <= i && OccursAt(s, sub, i) ==> 0 <= pos <= i
    decreases |s| - start
  {
    if start > |s| - |sub| then -1
    else if s[start..start + |sub|] == sub then start
    else FindFrom(s, sub, start + 1)
  }

  lemma OccursInLonger(a: string, b: string, sub: string, pos: int)
    requires a <= b && OccursAt(a, sub, pos)
    ensures OccursAt(b, sub, pos)
  {
    assert a[pos..pos + |sub|] == b[pos..pos + |sub|];
  }

  function Decimal(n: nat): string {
    (if n < 10 then "" else Decimal(n / 10)) + ["0123456789"[n % 10]]
  }

  lemma {:induction false} DecimalInjective(a: nat, b: nat)
    ensures Decimal(a) == Decimal(b) <==> a == b
  {
    if Decimal(a) == Decimal(b) {
      var s := Decimal(a);
      assert s[|s| - 1] == "0123456789"[a % 10] && s[|s| - 1] == "0123456789"[b % 10];
      DigitInjective(a % 10, b % 10);
      assert s[..|s| - 1] == (if a < 10 then "" else Decimal(a / 10));
      assert s[..|s| - 1] == (if b < 10 then "" else Decimal(b / 10));
      if a >= 10 && b >= 10 { DecimalInjective(a / 10, b / 10); }
    }
  }

  lemma DigitInjective(a: nat, b: nat)
    requires a < 10 && b < 10 && "0123456789"[a] == "0123456789"[b]
    ensures a == b
  {
    var digits := "0123456789";
    assert digits[0] == '0' && digits[1] == '1' && digits[2] == '2' && digits[3] == '3' && digits[4] == '4';
    assert digits[5] == '5' && digits[6] == '6' && digits[7] == '7' && digits[8] == '8' && digits[9] == '9';
  }
}
