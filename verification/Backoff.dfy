/**
  Retry delays of the notification worker, ego/internal/worker/worker.go:165-178, in 64-bit
  arithmetic that wraps.
 */
module Backoff {
  import opened Bytes
  import opened GoTime

  const BASE := SECOND
  const MAX_BACKOFF := 5 * MINUTE

  function Pow2(n: nat): (p: nat)
    ensures p > 0
  {
    if n == 0 then 1 else 2 * Pow2(n - 1)
  }

  /** 1 << uint(k) for a 64-bit operand: the shift count is unsigned and may exceed the width. */
  function ShiftOne(k: int): int {
    if k < 0 || k >= 64 then 0 else Wrap64(Pow2(k))
  }

  /** The delay before jitter. */
  function Delay(attempt: int): int {
    var backoff := Wrap64(BASE * ShiftOne(attempt - 1));
    if backoff > MAX_BACKOFF || backoff <= 0 then MAX_BACKOFF else backoff
  }

  /** rand is rand.Int63n: some value below its argument. */
  method ComputeBackoff(attempt: int, rand: nat -> nat) returns (d: int)
    requires forall n: nat :: n > 0 ==> rand(n) < n
    ensures Delay(attempt) <= d < Delay(attempt) + Delay(attempt) / 4
    ensures d - Delay(attempt) == rand(Delay(attempt) / 4)
  {
    var backoff := Wrap64(BASE * ShiftOne(attempt - 1));
    if backoff > MAX_BACKOFF || backoff <= 0 {
      backoff := MAX_BACKOFF;
    }
    DelayIsWholeSeconds(attempt);
    var jitter := rand(backoff / 4);
    return backoff + jitter;
  }

  lemma {:induction false} Pow2Adds(a: nat, b: nat)
    ensures Pow2(a + b) == Pow2(a) * Pow2(b)
    decreases a
  {
    if a > 0 {
      Pow2Adds(a - 1, b);
      assert Pow2(a + b) == 2 * Pow2((a - 1) + b);
      assert 2 * (Pow2(a - 1) * Pow2(b)) == (2 * Pow2(a - 1)) * Pow2(b);
    }
  }

  lemma {:induction false} Pow2Constants()
    ensures Pow2(0) == 1 && Pow2(1) == 2 && Pow2(2) == 4 && Pow2(3) == 8 && Pow2(4) == 16
    ensures Pow2(5) == 32 && Pow2(6) == 64 && Pow2(7) == 128 && Pow2(8) == 256 && Pow2(9) == 512
    ensures Pow2(34) == 0x4_0000_0000 && Pow2(63) == TWO63
  {
    assert Pow2(9) == 512;
    Pow2Adds(9, 9);
    Pow2Adds(18, 16);
    Pow2Adds(8, 8);
    Pow2Adds(34, 29);
    Pow2Adds(9, 20);
    Pow2Adds(9, 11);
    Pow2Adds(9, 2);
  }

  lemma {:induction false} Pow2Grows(a: nat, b: nat)
    requires a <= b
    ensures Pow2(a) <= Pow2(b)
    decreases b - a
  {
    if a < b {
      Pow2Grows(a, b - 1);
    }
  }

  /** A multiple of 2^43 stays one under 64-bit wrap-around, so it is not positive or above the cap. */
  lemma {:induction false} WrappedProductIsLarge(m: int)
    ensures var x := Wrap64(0x800_0000_0000 * m);
            x % 0x800_0000_0000 == 0 && (x <= 0 || x > MAX_BACKOFF)
  {
    var x := Wrap64(0x800_0000_0000 * m);
    var q := (0x800_0000_0000 * m + TWO63) / TWO64;
    assert x == 0x800_0000_0000 * m - TWO64 * q;
    assert x == 0x800_0000_0000 * (m - 0x20_0000 * q);
  }

  /** From the 35th attempt on the product is a multiple of 2^43. */
  lemma {:induction false} LateProduct(k: nat)
    requires 34 <= k < 64
    ensures exists m :: BASE * ShiftOne(k) == 0x800_0000_0000 * m
  {
    Pow2Constants();
    Pow2Adds(34, k - 34);
    var m := 1953125 * Pow2(k - 34);
    assert BASE * Pow2(k) == 0x800_0000_0000 * m;
    if k == 63 {
      assert ShiftOne(k) == -TWO63;
      assert BASE * ShiftOne(k) == 0x800_0000_0000 * (-m);
    } else {
      Pow2Grows(k, 62);
      assert Pow2(63) == 2 * Pow2(62);
      assert ShiftOne(k) == Pow2(k);
    }
  }

  /** Up to the 34th attempt nothing wraps. */
  lemma {:induction false} EarlyProduct(k: nat)
    requires k < 34
    ensures ShiftOne(k) == Pow2(k) && Wrap64(BASE * ShiftOne(k)) == BASE * Pow2(k)
  {
    Pow2Constants();
    Pow2Grows(k, 33);
    assert Pow2(34) == 2 * Pow2(33);
    assert BASE * Pow2(k) < TWO63;
  }

  /**
    Exact saturating backoff: for every attempt from the first on, the delay is
    min(2^(attempt-1) s, 300 s), although the computed product wraps from attempt 35 on.
   */
  lemma {:induction false} DelayIsSaturatedDoubling(attempt: int)
    requires attempt >= 1
    ensures Delay(attempt) ==
            if 1_000_000_000 * Pow2(attempt - 1) < 300_000_000_000 then 1_000_000_000 * Pow2(attempt - 1)
            else 300_000_000_000
  {
    var k := attempt - 1;
    Pow2Constants();
    if k < 34 {
      EarlyProduct(k);
    } else {
      Pow2Grows(9, k);
      if k < 64 {
        LateProduct(k);
        var m :| BASE * ShiftOne(k) == 0x800_0000_0000 * m;
        WrappedProductIsLarge(m);
      }
    }
  }

  /** An attempt number below 1 shifts by a huge count and gets the cap. */
  lemma {:induction false} DelayBelowOne(attempt: int)
    requires attempt < 1
    ensures Delay(attempt) == 300_000_000_000
  {
  }

  lemma {:induction false} DelayIsWholeSeconds(attempt: int)
    ensures SECOND <= Delay(attempt) <= MAX_BACKOFF
  {
    if attempt >= 1 {
      DelayIsSaturatedDoubling(attempt);
      assert BASE * Pow2(attempt - 1) >= BASE;
    } else {
      DelayBelowOne(attempt);
    }
  }

  /** Delays never shrink as attempts go on, and reach the cap at the tenth. */
  lemma {:induction false} DelaysGrow(a: int, b: int)
    requires 1 <= a <= b
    ensures Delay(a) <= Delay(b) && (b >= 10 ==> Delay(b) == MAX_BACKOFF) && (b <= 9 ==> Delay(b) == BASE * Pow2(b - 1))
  {
    DelayIsSaturatedDoubling(a);
    DelayIsSaturatedDoubling(b);
    Pow2Constants();
    Pow2Grows(a - 1, b - 1);
    if b >= 10 {
      Pow2Grows(9, b - 1);
    } else {
      Pow2Grows(b - 1, 8);
    }
  }
}
