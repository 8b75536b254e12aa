/** The id and reference generators, and the sequential ones: fresh names by construction. */
module Identifiers {
  /** What each generator hands out at its n-th draw, whether it counts or rolls dice. */
  datatype Generators = Generators(id: nat -> string, reference: nat -> string)

  ghost predicate NeverRepeats(draws: nat -> string) {
    forall m: nat, n: nat :: draws(m) == draws(n) ==> m == n
  }

  function Digit(d: nat): char
    requires d < 10
  {
    ['0', '1', '2', '3', '4', '5', '6', '7', '8', '9'][d]
  }

  function Decimal(n: nat): (s: string)
    ensures s != ""
  {
    if n < 10 then [Digit(n)] else Decimal(n / 10) + [Digit(n % 10)]
  }

  function Padded(s: string, width: nat): string
    decreases width - |s|
  {
    if |s| < width then Padded("0" + s, width) else s
  }

  /** The id drawn when n ids have been drawn before. */
  function SequentialId(n: nat): string {
    "id-" + Decimal(n + 1)
  }

  /** The reference drawn when n references have been drawn before. */
  function SequentialReference(n: nat): string
  {
    "SLR-" + Padded(Decimal(n + 1), 6)
  }

  function DigitValue(c: char): nat {
    if '0' <= c <= '9' then (c as int) - ('0' as int) else 0
  }

  function Value(s: string): nat {
    if s == "" then 0 else 10 * Value(s[..|s| - 1]) + DigitValue(s[|s| - 1])
  }

  lemma {:induction false} DecimalReadsBack(n: nat)
    ensures Value(Decimal(n)) == n
  {
    if n < 10 {
      assert Decimal(n)[..0] == "";
    } else {
      DecimalReadsBack(n / 10);
      assert Decimal(n)[..|Decimal(n)| - 1] == Decimal(n / 10);
    }
  }

  lemma {:induction false} LeadingZero(s: string)
    ensures Value("0" + s) == Value(s)
  {
    var t := "0" + s;
    if s == "" {
      assert t[..|t| - 1] == "";
    } else {
      LeadingZero(s[..|s| - 1]);
      assert t[..|t| - 1] == "0" + s[..|s| - 1];
    }
  }

  lemma {:induction false} PaddingKeepsValue(s: string, width: nat)
    ensures Value(Padded(s, width)) == Value(s)
    decreases width - |s|
  {
    if |s| < width {
      LeadingZero(s);
      PaddingKeepsValue("0" + s, width);
    }
  }

  const SEQUENTIAL := Generators(SequentialId, SequentialReference)

  lemma DecimalsDiffer(m: nat, n: nat)
    requires Decimal(m) == Decimal(n) || Padded(Decimal(m), 6) == Padded(Decimal(n), 6)
    ensures m == n
  {
    DecimalReadsBack(m);
    DecimalReadsBack(n);
    PaddingKeepsValue(Decimal(m), 6);
    PaddingKeepsValue(Decimal(n), 6);
  }

  /** The sequential generators give no id and no reference twice. */
  lemma SequentialNeverRepeats()
    ensures NeverRepeats(SEQUENTIAL.id) && NeverRepeats(SEQUENTIAL.reference)
  {
    forall m: nat, n: nat | SEQUENTIAL.id(m) == SEQUENTIAL.id(n) ensures m == n {
      assert SequentialId(m)[3..] == Decimal(m + 1) && SequentialId(n)[3..] == Decimal(n + 1);
      DecimalsDiffer(m + 1, n + 1);
    }
    forall m: nat, n: nat | SEQUENTIAL.reference(m) == SEQUENTIAL.reference(n) ensures m == n {
      assert SequentialReference(m)[4..] == Padded(Decimal(m + 1), 6);
      assert SequentialReference(n)[4..] == Padded(Decimal(n + 1), 6);
      DecimalsDiffer(m + 1, n + 1);
    }
  }
}
