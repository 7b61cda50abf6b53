/** Decimal numbers as bytes, as the RESP headers write and read them. */
module Decimal {
  import opened Model

  const USIZE_LIMIT: nat := 0x1_0000_0000_0000_0000

  predicate IsDigit(b: Byte) { 48 <= b <= 57 }

  predicate AllDigits(bytes: Bytes) { forall i :: 0 <= i < |bytes| ==> IsDigit(bytes[i]) }

  function Printed(n: nat): (r: Bytes)
    ensures r != []
  {
    if n < 10 then [48 + n] else Printed(n / 10) + [48 + n % 10]
  }

  /** The number a string of digits denotes. */
  function ValueOf(bytes: Bytes): nat
    requires AllDigits(bytes)
  {
    if bytes == [] then 0 else ValueOf(bytes[..|bytes| - 1]) * 10 + (bytes[|bytes| - 1] - 48)
  }

  /** Multiply, then add, each step checked against the machine word. */
  function Fold(bytes: Bytes): Option<nat>
    requires AllDigits(bytes)
  {
    if bytes == [] then Some(0)
    else
      var front := Fold(bytes[..|bytes| - 1]);
      var digit := bytes[|bytes| - 1] - 48;
      if front.None? || front.value * 10 >= USIZE_LIMIT || front.value * 10 + digit >= USIZE_LIMIT then None
      else Some(front.value * 10 + digit)
  }

  function ParseDecimal(bytes: Bytes): Option<nat> {
    if bytes == [] || !AllDigits(bytes) then None else Fold(bytes)
  }

  /** The checked fold fails exactly when the number does not fit. */
  lemma {:induction false} FoldIff(bytes: Bytes)
    requires AllDigits(bytes)
    ensures Fold(bytes) == if ValueOf(bytes) < USIZE_LIMIT then Some(ValueOf(bytes)) else None
  {
    if bytes != [] {
      FoldIff(bytes[..|bytes| - 1]);
    }
  }

  lemma {:induction false} PrintedDigits(n: nat)
    ensures AllDigits(Printed(n)) && ValueOf(Printed(n)) == n
  {
    if n >= 10 {
      var front, all := Printed(n / 10), Printed(n);
      PrintedDigits(n / 10);
      assert all[..|all| - 1] == front;
    } else {
      assert Printed(n)[..0] == [];
    }
  }

  lemma ParsePrinted(n: nat)
    requires n < USIZE_LIMIT
    ensures ParseDecimal(Printed(n)) == Some(n)
  {
    PrintedDigits(n);
    FoldIff(Printed(n));
  }

  function Power10(k: nat): nat { if k == 0 then 1 else 10 * Power10(k - 1) }

  lemma {:induction false} PrintedLength(n: nat, k: nat)
    requires n < Power10(k) && k > 0
    ensures |Printed(n)| <= k
  {
    if n >= 10 {
      PrintedLength(n / 10, k - 1);
    }
  }

  lemma PrintedShort(n: nat)
    requires n < USIZE_LIMIT
    ensures |Printed(n)| <= 20
  {
    assert Power10(10) == 10_000_000_000;
    PowerAdds(10, 10);
    PrintedLength(n, 20);
  }

  lemma {:induction false} PowerAdds(a: nat, b: nat)
    ensures Power10(a + b) == Power10(a) * Power10(b)
  {
    if a > 0 {
      PowerAdds(a - 1, b);
      assert 10 * (Power10(a - 1) * Power10(b)) == (10 * Power10(a - 1)) * Power10(b);
    }
  }
}
