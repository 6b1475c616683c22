/** The export manifest records how many metadata bytes the export wrote, and that
    number is itself part of the manifest's bytes.  The export rewrites the manifest
    until the number agrees with the files, for at most three rounds. */
module ManifestAccounting {
  import opened Ordering

  const ROUNDS := 3

  /** The decimal digits JSON prints for a count. */
  function Decimal(n: nat): (s: string)
    ensures |s| >= 1
  {
    (if n < 10 then [] else Decimal(n / 10)) + [('0' as int + n % 10) as char]
  }

  /** The number that decimal digits stand for. */
  function NumberOf(digits: string): int {
    if digits == "" then 0
    else 10 * NumberOf(digits[..|digits| - 1]) + (digits[|digits| - 1] as int - '0' as int)
  }

  /** The digits printed read back as the number, and do not start with 0 unless it is 0. */
  lemma {:induction false} DigitsReadBack(n: nat)
    ensures NumberOf(Decimal(n)) == n
    ensures forall c <- Decimal(n) :: '0' <= c <= '9'
    ensures n > 0 ==> Decimal(n)[0] != '0'
  {
    var last := ('0' as int + n % 10) as char;
    if n >= 10 {
      DigitsReadBack(n / 10);
      assert Decimal(n) == Decimal(n / 10) + [last];
      assert Decimal(n)[..|Decimal(n)| - 1] == Decimal(n / 10);
    } else {
      assert Decimal(n) == [last] && [last][..0] == "";
    }
  }

  function Width(n: nat): nat { |Decimal(n)| }

  function Pow10(k: nat): (p: nat)
    ensures p >= k + 1
  {
    if k == 0 then 1 else 10 * Pow10(k - 1)
  }

  lemma {:induction false} WidthBounds(n: nat)
    ensures n < Pow10(Width(n))
    ensures n >= 10 ==> Pow10(Width(n) - 1) <= n
  {
    if n >= 10 {
      WidthBounds(n / 10);
      assert Width(n) == Width(n / 10) + 1;
      if n / 10 < 10 {
        assert Width(n / 10) == 1 && Pow10(1) == 10 * Pow10(0);
      }
    } else {
      assert Width(n) == 1 && Pow10(1) == 10 * Pow10(0);
    }
  }

  lemma {:induction false} PowMonotone(a: nat, b: nat)
    requires a <= b
    ensures Pow10(a) <= Pow10(b)
    decreases b
  {
    if a < b {
      PowMonotone(a, b - 1);
    }
  }

  /** The width is determined by the powers of ten around the number. */
  lemma WidthIs(n: nat, w: nat)
    requires w >= 1 && n < Pow10(w)
    requires w >= 2 ==> Pow10(w - 1) <= n
    ensures Width(n) == w
  {
    WidthBounds(n);
    if Width(n) < w {
      PowMonotone(Width(n), w - 1);
    } else if Width(n) > w {
      PowMonotone(w, Width(n) - 1);
    }
  }

  lemma WidthMonotone(a: nat, b: nat)
    requires a <= b
    ensures Width(a) <= Width(b)
  {
    WidthBounds(a);
    WidthBounds(b);
    if Width(b) < Width(a) {
      PowMonotone(Width(b), Width(a) - 1);
    }
  }

  lemma JustPastPower(w: nat, a: nat, b: nat)
    requires w >= 1 && a < Pow10(w) <= b == a + w - 1 && w <= Pow10(w)
    ensures b + 1 < Pow10(w + 1)
  {
    assert Pow10(w + 1) == 10 * Pow10(w);
  }

  /** One more count than the width can push the number over a power of ten, but
      then the next one cannot. */
  lemma OneCarryAtMost(a: nat, b: nat)
    requires b == a + Width(a) - 1
    ensures Width(b) == Width(a) || (Width(b) == Width(a) + 1 && Width(b + 1) == Width(b))
  {
    var w := Width(a);
    WidthMonotone(a, b);
    WidthBounds(a);
    WidthBounds(b);
    if Width(b) > w {
      PowMonotone(w, Width(b) - 1);
      JustPastPower(w, a, b);
      WidthIs(b, w + 1);
      WidthIs(b + 1, w + 1);
    }
  }

  /** The count observed when the manifest on disk records `recorded`: `constant` is
      every other output byte minus the payload bytes copied. */
  function Observe(constant: int, recorded: nat): nat {
    var total := constant + Width(recorded);
    if total < 0 then 0 else total
  }

  /** The count in the manifest after the given number of rewrites. */
  function Rewritten(constant: int, rounds: nat): nat {
    if rounds == 0 then 0 else Observe(constant, Rewritten(constant, rounds - 1))
  }

  /** Whatever the other sizes, the third rewrite is a fixpoint. */
  lemma ThirdRoundSettles(constant: int)
    ensures Observe(constant, Rewritten(constant, ROUNDS)) == Rewritten(constant, ROUNDS)
  {
    var first, second, third := Rewritten(constant, 1), Rewritten(constant, 2), Rewritten(constant, 3);
    assert Width(0) == 1;
    assert first == Observe(constant, Rewritten(constant, 0));
    assert second == Observe(constant, Rewritten(constant, 1));
    assert third == Observe(constant, Rewritten(constant, 2));
    if constant >= 0 {
      OneCarryAtMost(first, second);
    }
  }

  /** Two rewrites are not enough: 98 bytes beside the number need three. */
  lemma SecondRoundCanFail()
    ensures Observe(98, Rewritten(98, 2)) != Rewritten(98, 2)
  {
    assert Width(0) == 1;
    assert Rewritten(98, 1) == Observe(98, Rewritten(98, 0)) == 99;
    WidthIs(99, 2);
    assert Pow10(3) == 10 * Pow10(2) == 100 * Pow10(1) == 1000 * Pow10(0);
    WidthIs(100, 3);
    assert Rewritten(98, 2) == Observe(98, Rewritten(98, 1));
  }

  /** An export directory: the data files, and the manifest with its recorded count. */
  class ExportDirectory {
    const dataBytes: nat
    const manifestBytes: nat  // manifest bytes other than the digits of the count
    var recorded: Option<nat>

    constructor (dataBytes: nat, manifestBytes: nat)
      ensures this.dataBytes == dataBytes && this.manifestBytes == manifestBytes
      ensures recorded == None
    {
      this.dataBytes := dataBytes;
      this.manifestBytes := manifestBytes;
      recorded := None;
    }

    /** Total size of the existing output files; a missing manifest counts nothing. */
    function FileBytes(): nat
      reads this
    {
      dataBytes + match recorded { case None => 0 case Some(count) => manifestBytes + Width(count) }
    }

    function MetadataBytesWritten(payloadBytesCopied: nat): nat
      reads this
    {
      if FileBytes() < payloadBytesCopied then 0 else FileBytes() - payloadBytesCopied
    }

    /** The accounting loop: the count left in the manifest is the count measured
        from the files, for all sizes. */
    method WriteAccountedManifest(payloadBytesCopied: nat) returns (count: nat)
      modifies this
      ensures recorded == Some(count)
      ensures count == MetadataBytesWritten(payloadBytesCopied)
    {
      ghost var constant := dataBytes + manifestBytes - payloadBytesCopied;
      ThirdRoundSettles(constant);
      count := 0;
      for round := 0 to ROUNDS
        invariant count == Rewritten(constant, round)
      {
        recorded := Some(count);
        var observed := MetadataBytesWritten(payloadBytesCopied);
        if observed == count {
          break;
        }
        count := observed;
      }
      assert Observe(constant, count) == count;
      recorded := Some(count);
    }
  }
}
