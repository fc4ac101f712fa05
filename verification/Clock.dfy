/** Cycle counter to nanoseconds in fixed point (src/clock.cpp). */
module Clocks {
  import opened Bits
  import opened Words

  const NS_PER_SEC: nat := 1_000_000_000
  const MAX_SEC: nat := 600

  lemma WordBits()
    ensures Pow2(32) == U32
  {
    assert Pow2(8) == 256;
    Pow2Add(8, 8);
    Pow2Add(16, 16);
  }

  /** The rounded multiplier for a shift. */
  function Mult(freq: nat, shift: nat): nat
    requires freq > 0
  {
    QuotientNat(NS_PER_SEC * Pow2(shift) + freq / 2, freq);
    (NS_PER_SEC * Pow2(shift) + freq / 2) / freq
  }

  /** The multiplier as computed in 64-bit words. */
  function WordMult(freq: nat, shift: nat): nat
    requires freq > 0
  {
    QuotientNat((NS_PER_SEC * Pow2(shift) % U64 + freq / 2) % U64, freq);
    (NS_PER_SEC * Pow2(shift) % U64 + freq / 2) % U64 / freq
  }

  /** That does not overflow. */
  lemma MultFits(freq: nat, shift: nat)
    requires freq > 0 && MAX_SEC * freq < U64 && shift <= 32
    ensures NS_PER_SEC * Pow2(shift) + freq / 2 < U64 && WordMult(freq, shift) == Mult(freq, shift)
  {
    hide Pow2;
    WordBits();
    Pow2Mono(shift, 32);
    WordsFit(NS_PER_SEC * Pow2(shift), freq / 2);
  }

  lemma WordsFit(x: nat, y: nat)
    requires x + y < U64
    ensures (x % U64 + y) % U64 == x + y
  {
  }

  /** How many bits the cycles of the window take beyond 32. */
  function Excess(freq: nat): nat {
    BitLen(MAX_SEC * freq / U32)
  }

  /** The multiplier has at most 32 bits less that excess. */
  predicate Admissible(freq: nat, shift: nat)
    requires freq > 0 && Excess(freq) <= 32
  {
    Mult(freq, shift) < Pow2(32 - Excess(freq))
  }

  lemma {:induction false} BitLenAtMost(v: nat, n: nat)
    requires v < Pow2(n)
    ensures BitLen(v) <= n
  {
    if v > 0 {
      BitLenBounds(v);
      if BitLen(v) > n { Pow2Mono(n, BitLen(v) - 1); }
    }
  }

  lemma ExcessFits(freq: nat)
    requires MAX_SEC * freq < U64
    ensures Excess(freq) <= 32
  {
    WordBits();
    BitLenAtMost(MAX_SEC * freq / U32, 32);
  }

  /** 2^32 times the power of the excess is more than the window, but at most twice as much if there is
      an excess. */
  lemma ExcessBounds(freq: nat)
    requires MAX_SEC * freq < U64
    ensures Excess(freq) <= 32 && MAX_SEC * freq < U32 * Pow2(Excess(freq))
    ensures Excess(freq) > 0 ==> U32 * Pow2(Excess(freq)) <= 2 * (MAX_SEC * freq)
  {
    ExcessFits(freq);
    var q := MAX_SEC * freq / U32;
    if q > 0 { BitLenBounds(q); }
  }

  /** Rounding is to the nearest. */
  lemma MultRounds(freq: nat, shift: nat)
    requires freq > 0
    ensures 0 - freq <= 2 * (Mult(freq, shift) * freq - NS_PER_SEC * Pow2(shift)) <= freq
  {
    QuotientBounds(NS_PER_SEC * Pow2(shift) + freq / 2, freq);
  }

  /** A shift of 1 is always admissible. */
  lemma OneAdmissible(freq: nat)
    requires freq > 0 && MAX_SEC * freq < U64
    ensures Excess(freq) <= 32 && Admissible(freq, 1)
  {
    ExcessBounds(freq);
    MultRounds(freq, 1);
    WordBits();
    var e := Excess(freq);
    var a, m := Pow2(32 - e), Mult(freq, 1);
    Pow2Add(32 - e, e);
    if m >= a {
      MulMono(a, m, freq);
      assert 2 * (a * freq) <= 4 * NS_PER_SEC + freq;
      if e > 0 { TooSmall(a, Pow2(e), freq); }
      assert false;
    }
  }

  lemma TooSmall(a: nat, p: nat, freq: nat)
    requires a > 0 && freq > 0 && a * p == U32 && U32 * p <= 2 * (MAX_SEC * freq)
    ensures 2 * (a * freq) > 4 * NS_PER_SEC + freq
  {
    // a * freq >= 2^64 / 1200
    assert a * (U32 * p) == U32 * U32;
    MulMono(U32 * p, 2 * (MAX_SEC * freq), a);
    assert U32 * U32 <= 1200 * (a * freq);
    MulMono(1, a, freq);
  }

  /** The multiplier found is 0, which stands for a clock that is not calibrated, exactly when the cycles of the
      window take all 64 bits. */
  lemma MultZeroIff(freq: nat, shift: nat)
    requires freq > 0 && MAX_SEC * freq < U64 && Excess(freq) <= 32 && 1 <= shift <= 32 && Admissible(freq, shift)
    requires forall s :: shift < s <= 32 ==> !Admissible(freq, s)
    ensures Mult(freq, shift) == 0 <==> MAX_SEC * freq >= U64 / 2
  {
    ExcessBounds(freq);
    WordBits();
    var e := Excess(freq);
    if MAX_SEC * freq >= U64 / 2 {
      if e <= 31 { Pow2Mono(e, 31); }
      assert Pow2(0) == 1;
    } else {
      assert e != 32;
      Pow2Mono(1, 32 - e);
      assert Pow2(1) == 2;
      if Mult(freq, shift) == 0 {
        MultRounds(freq, shift);
        if shift < 32 {
          assert !Admissible(freq, shift + 1);
          MultRounds(freq, shift + 1);
          MulMono(2, Mult(freq, shift + 1), freq);
        }
        assert false;
      }
    }
  }

  /** Inside the window no product overflows. */
  lemma NoOverflow(freq: nat, mult: nat, cycles: nat)
    requires freq > 0 && MAX_SEC * freq < U64 && Excess(freq) <= 32
    requires mult < Pow2(32 - Excess(freq)) && cycles <= MAX_SEC * freq
    ensures cycles * mult < U64
  {
    ExcessBounds(freq);
    WordBits();
    var e := Excess(freq);
    Pow2Add(32 - e, e);
    ProductBelow(cycles, mult, Pow2(32 - e), Pow2(e), U32);
  }

  lemma ProductBelow(x: nat, m: nat, a: nat, p: nat, w: nat)
    requires x < w * p && m < a && a * p == w
    ensures x * m < w * w
  {
    MulMono(x, w * p, m);
    MulMono(m + 1, a, w * p);
    assert (m + 1) * (w * p) == m * (w * p) + w * p;
    assert a * (w * p) == w * (a * p);
  }

  class Clock {
    var mult: nat    // 0: not calibrated
    var shift: nat

    constructor ()
      ensures mult == 0 && shift == 0
    {
      mult, shift := 0, 0;
    }

    /** Chooses multiplier and shift for a counter frequency: the largest shift for which the window
        does not overflow.  The search always finds one. */
    method CalcMultShift(freq: nat)
      requires MAX_SEC * freq < U64
      modifies this
      ensures freq == 0 ==> mult == 0 && shift == 0
      ensures freq > 0 ==> Excess(freq) <= 32 && 1 <= shift <= 32 && Admissible(freq, shift)
      ensures freq > 0 ==> mult == Mult(freq, shift)
      ensures freq > 0 ==> forall s :: shift < s <= 32 ==> !Admissible(freq, s)
      ensures mult == 0 <==> freq == 0 || MAX_SEC * freq >= U64 / 2
    {
      hide Mult, WordMult, Pow2, Shr;
      if freq == 0 {
        mult, shift := 0, 0;
        return;
      }
      ExcessFits(freq);
      OneAdmissible(freq);
      var tmp: nat, sftacc: nat := MAX_SEC * freq / U32, 32;
      while tmp > 0
        invariant sftacc == 32 - Excess(freq) + BitLen(tmp)
      {
        tmp, sftacc := tmp / 2, sftacc - 1;
      }
      var sft := 32;
      while sft > 0
        invariant 1 <= sft <= 32
        invariant forall s :: sft < s <= 32 ==> !Admissible(freq, s)
      {
        MultFits(freq, sft);
        tmp := WordMult(freq, sft);
        ShiftedOut(tmp, sftacc);
        if Shr(tmp, sftacc) == 0 {
          break;
        }
        sft := sft - 1;
      }
      mult, shift := tmp, sft;
      MultZeroIff(freq, sft);
    }
  }

  /** The conversion, in 64-bit arithmetic. */
  function Convert(cycles: nat, mult: nat, shift: nat): nat {
    Shr(cycles * mult % U64, shift)
  }

  /** The same in unbounded arithmetic. */
  function Scaled(cycles: nat, mult: nat, shift: nat): nat {
    Shr(cycles * mult, shift)
  }

  lemma ShiftedOut(v: nat, n: nat)
    ensures Shr(v, n) == 0 <==> v < Pow2(n)
  {
    QuotientBounds(v, Pow2(n));
    if v < Pow2(n) { QuotientUnique(v, Pow2(n), 0); }
  }

  // ---------------------------------------------------------------- the conversion

  /** Inside the window the conversion is exact. */
  lemma ConversionExact(freq: nat, shift: nat, cycles: nat)
    requires freq > 0 && MAX_SEC * freq < U64 && Excess(freq) <= 32 && Admissible(freq, shift)
    requires cycles <= MAX_SEC * freq
    ensures Convert(cycles, Mult(freq, shift), shift) == Scaled(cycles, Mult(freq, shift), shift)
  {
    NoOverflow(freq, Mult(freq, shift), cycles);
    FitsExact(cycles, Mult(freq, shift), shift);
  }

  lemma FitsExact(cycles: nat, mult: nat, shift: nat)
    requires cycles * mult < U64
    ensures Convert(cycles, mult, shift) == Scaled(cycles, mult, shift)
  {
  }

  lemma ConversionMonotone(freq: nat, shift: nat, c: nat, d: nat)
    requires freq > 0 && MAX_SEC * freq < U64 && Excess(freq) <= 32 && Admissible(freq, shift)
    requires c <= d <= MAX_SEC * freq
    ensures Convert(c, Mult(freq, shift), shift) <= Convert(d, Mult(freq, shift), shift)
  {
    ConversionExact(freq, shift, c);
    ConversionExact(freq, shift, d);
    MulMono(c, d, Mult(freq, shift));
    QuotientMono(c * Mult(freq, shift), d * Mult(freq, shift), Pow2(shift));
  }

  /** How far a converted time can be off: one nanosecond, and half a unit of the multiplier per cycle. */
  lemma ConversionError(freq: nat, shift: nat, c: nat)
    requires freq > 0 && MAX_SEC * freq < U64 && Excess(freq) <= 32 && Admissible(freq, shift) && c <= MAX_SEC * freq
    ensures var ns, p := Convert(c, Mult(freq, shift), shift), Pow2(shift);
      -((c + 2 * p) * freq) <= 2 * p * (ns * freq - c * NS_PER_SEC) <= (c + 2 * p) * freq
  {
    hide Mult, Pow2, Excess;
    ConversionExact(freq, shift, c);
    var mult, p := Mult(freq, shift), Pow2(shift);
    var ns := Shr(c * mult, shift);
    MultRounds(freq, shift);
    QuotientBounds(c * mult, p);
    var round, rest := mult * freq - NS_PER_SEC * p, c * mult - ns * p;
    Expanded(c, freq, mult, ns, p, NS_PER_SEC);
    Bounded(c, round, freq);
    MulMono(rest, p, freq);
    Combined(p * (ns * freq - c * NS_PER_SEC), c * round, rest * freq, c * freq, p * freq);
    Regroup(c, p, freq, ns * freq - c * NS_PER_SEC);
  }

  lemma Regroup(c: nat, p: nat, f: nat, d: int)
    ensures (c + 2 * p) * f == c * f + 2 * (p * f) && 2 * p * d == 2 * (p * d)
  {
  }

  lemma Combined(e: int, cr: int, rf: int, cf: int, pf: int)
    requires e == cr - rf && 0 - cf <= 2 * cr <= cf && 0 <= rf <= pf
    ensures 0 - (cf + 2 * pf) <= 2 * e <= cf + 2 * pf
  {
  }

  lemma Expanded(c: nat, freq: nat, mult: nat, ns: nat, p: nat, k: nat)
    ensures p * (ns * freq - c * k) == c * (mult * freq - k * p) - (c * mult - ns * p) * freq
  {
    assert p * (ns * freq - c * k) == p * (ns * freq) - p * (c * k);
    assert (c * mult - ns * p) * freq == c * mult * freq - ns * p * freq;
    assert c * (mult * freq - k * p) == c * (mult * freq) - c * (k * p);
  }

  lemma Bounded(c: nat, r: int, f: nat)
    requires 0 - f <= 2 * r <= f
    ensures 0 - c * f <= 2 * (c * r) <= c * f
  {
    assert c * (f - 2 * r) >= 0;
    assert c * (f + 2 * r) >= 0;
  }
}
