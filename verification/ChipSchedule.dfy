/** Weighted choice of a chip for each send of a request (pick_weighted_chip in src/kv_bench.cpp). */
module ChipSchedules {
  import opened Bits
  import opened Words

  const INT_MAX: nat := 0x7FFF_FFFF

  // ---------------------------------------------------------------- one running allocator

  /** Of the first `n` sends, those on chip 1. */
  function OnChip1(w1: nat, w2: nat, n: nat): nat
    decreases n, 0
  {
    if n == 0 then 0 else OnChip1(w1, w2, n - 1) + if Picks1(w1, w2, n - 1) then 1 else 0
  }

  /** Send `n` goes to the chip that is owed more; chip 1 on a tie. */
  predicate Picks1(w1: nat, w2: nat, n: nat)
    decreases n, 1
  {
    var c1 := OnChip1(w1, w2, n);
    (n + 1) * w1 - c1 * (w1 + w2) >= (n + 1) * w2 - (n - c1) * (w1 + w2)
  }

  /** Comparing the two debts is comparing chip 1's with half a round. */
  lemma PicksIff(w1: nat, w2: nat, n: nat)
    ensures Picks1(w1, w2, n) <==> 2 * ((n + 1) * w1 - OnChip1(w1, w2, n) * (w1 + w2)) >= w1 + w2
  {
    var c1, t := OnChip1(w1, w2, n), w1 + w2;
    assert (n + 1) * w2 == (n + 1) * t - (n + 1) * w1;
    assert (n - c1) * t == n * t - c1 * t;
    assert (n + 1) * t == n * t + t;
  }

  /** Fairness of every prefix: chip 1 is never owed half a round, nor ahead by more than that. */
  lemma {:induction false} PrefixFair(w1: nat, w2: nat, n: nat)
    requires w1 > 0 && w2 > 0
    ensures 0 - (w1 + w2) <= 2 * (n * w1 - OnChip1(w1, w2, n) * (w1 + w2)) < w1 + w2
  {
    if n > 0 {
      PrefixFair(w1, w2, n - 1);
      PicksIff(w1, w2, n - 1);
      FairStep(w1, w1 + w2, n - 1, OnChip1(w1, w2, n - 1));
    }
  }

  lemma FairStep(w: nat, t: nat, n: nat, c: nat)
    requires w <= t && 0 - t <= 2 * (n * w - c * t) < t
    ensures 2 * ((n + 1) * w - c * t) >= t ==> 0 - t <= 2 * ((n + 1) * w - (c + 1) * t) < t
    ensures 2 * ((n + 1) * w - c * t) < t ==> 0 - t <= 2 * ((n + 1) * w - c * t)
  {
    assert (n + 1) * w == n * w + w;
    assert (c + 1) * t == c * t + t;
  }

  lemma MulGap(a: int, b: int, t: nat)
    requires a < b
    ensures a * t + t <= b * t
  {
    MulMono(1, b - a, t);
    assert (b - a) * t == b * t - a * t;
  }

  /** Fairness determines the count. */
  lemma OnlyFair(t: nat, x: int, a: int, b: int)
    requires 0 - t <= 2 * (x - a * t) < t && 0 - t <= 2 * (x - b * t) < t
    ensures a == b
  {
    if a < b {
      MulGap(a, b, t);
    } else if b < a {
      MulGap(b, a, t);
    }
  }

  /** Any `w1 + w2` sends in a row give chip 1 exactly `w1`. */
  lemma RoundFair(w1: nat, w2: nat, n: nat)
    requires w1 > 0 && w2 > 0
    ensures OnChip1(w1, w2, n + (w1 + w2)) == OnChip1(w1, w2, n) + w1
  {
    var t := w1 + w2;
    var a, b := OnChip1(w1, w2, n), OnChip1(w1, w2, n + t) - w1;
    PrefixFair(w1, w2, n);
    PrefixFair(w1, w2, n + t);
    assert (n + t) * w1 == n * w1 + t * w1;
    assert (b + w1) * t == b * t + w1 * t;
    OnlyFair(t, n * w1, a, b);
  }

  /** The choices repeat with period `w1 + w2`. */
  lemma Periodic(w1: nat, w2: nat, n: nat)
    requires w1 > 0 && w2 > 0
    ensures Picks1(w1, w2, n + (w1 + w2)) == Picks1(w1, w2, n)
  {
    RoundFair(w1, w2, n);
    RoundFair(w1, w2, n + 1);
    var m := n + (w1 + w2);
    assert n + 1 + (w1 + w2) == m + 1;
    assert OnChip1(w1, w2, m + 1) == OnChip1(w1, w2, m) + if Picks1(w1, w2, m) then 1 else 0;
    assert OnChip1(w1, w2, n + 1) == OnChip1(w1, w2, n) + if Picks1(w1, w2, n) then 1 else 0;
  }

  /** Equal weights alternate, starting with chip 1. */
  lemma EqualAlternate(w: nat, n: nat)
    requires w > 0
    ensures Picks1(w, w, n) <==> n % 2 == 0
  {
    PrefixFair(w, w, n);
    PicksIff(w, w, n);
    HalfRound(w, n, OnChip1(w, w, n));
  }

  lemma HalfRound(w: nat, n: nat, c: nat)
    requires w > 0 && 0 - (w + w) <= 2 * (n * w - c * (w + w)) < w + w
    ensures 2 * ((n + 1) * w - c * (w + w)) >= w + w <==> n % 2 == 0
  {
    Distributes(n, c, w);
    Distributes(n + 1, c, w);
    SignOf(2 * n - 4 * c, w);
    SignOf(2 * (n + 1) - 4 * c, w);
  }

  lemma Distributes(n: nat, c: nat, w: nat)
    ensures 2 * (n * w - c * (w + w)) == (2 * n - 4 * c) * w
  {
    assert c * (w + w) == 2 * (c * w);
    assert (2 * n - 4 * c) * w == 2 * (n * w) - 4 * (c * w);
  }

  lemma SignOf(x: int, w: nat)
    requires w > 0
    ensures (x * w < 2 * w <==> x < 2) && (x * w >= 2 * w <==> x >= 2) && (x * w >= -2 * w <==> x >= -2)
  {
    if x >= 2 { assert (x - 2) * w >= 0; } else { assert (1 - x) * w >= 0; }
    if x >= -2 { assert (x + 2) * w >= 0; } else { assert (-3 - x) * w >= 0; }
  }

  lemma SevenToThreeStep(n: nat, c: nat, pick: bool)
    requires OnChip1(7, 3, n) == c && (pick <==> 14 * (n + 1) >= 20 * c + 10)
    ensures (Picks1(7, 3, n) <==> pick) && OnChip1(7, 3, n + 1) == if pick then c + 1 else c
  {
    PicksIff(7, 3, n);
  }

  /** Weights 7:3 spread the three sends of chip 2 over the ten of a request. */
  lemma SevenToThree()
    ensures forall n :: 0 <= n < 10 ==> (Picks1(7, 3, n) <==> n in {0, 2, 3, 4, 6, 7, 9})
  {
    SevenToThreeStep(0, 0, true);
    SevenToThreeStep(1, 1, false);
    SevenToThreeStep(2, 1, true);
    SevenToThreeStep(3, 2, true);
    SevenToThreeStep(4, 3, true);
    SevenToThreeStep(5, 4, false);
    SevenToThreeStep(6, 4, true);
    SevenToThreeStep(7, 5, true);
    SevenToThreeStep(8, 6, false);
    SevenToThreeStep(9, 6, true);
  }

  // ---------------------------------------------------------------- recomputed for each send

  /** A 32-bit word read as a signed number. */
  function Signed(x: int): int {
    var w := x % U32;
    if w <= INT_MAX then w else w - U32
  }

  lemma SignedExact(x: int)
    requires 0 - INT_MAX <= x <= INT_MAX
    ensures Signed(x) == x
  {
  }

  /** What the debt of a chip is computed as, in 32-bit arithmetic. */
  function Debt(i: nat, w: nat, c: nat, total: nat): int {
    Signed((i + 1) * w % U32 - c * total % U32)
  }

  /** Each call replays the allocator from the first send; it agrees with one running allocator. */
  method PickWeightedChip(w1: nat, w2: nat, sendIdx: nat) returns (chip: nat)
    requires (sendIdx + 1) * (w1 + w2) <= INT_MAX
    ensures w2 == 0 ==> chip == 1
    ensures w1 == 0 && w2 > 0 ==> chip == 2
    ensures w1 > 0 && w2 > 0 ==> chip == if Picks1(w1, w2, sendIdx) then 1 else 2
  {
    var total := w1 + w2;
    if total == 0 || w2 == 0 {
      return 1;
    }
    if w1 == 0 {
      return 2;
    }
    var c1, c2 := 0, 0;
    for i := 0 to sendIdx + 1
      invariant i <= sendIdx && c1 == OnChip1(w1, w2, i) && c1 + c2 == i
    {
      DebtsExact(w1, w2, i, c1, c2, sendIdx);
      var def1, def2 := Debt(i, w1, c1, total), Debt(i, w2, c2, total);
      if def1 >= def2 {
        if i == sendIdx {
          return 1;
        }
        c1 := c1 + 1;
      } else {
        if i == sendIdx {
          return 2;
        }
        c2 := c2 + 1;
      }
    }
    assert false;   // the loop returns at its last send
  }

  lemma DebtsExact(w1: nat, w2: nat, i: nat, c1: nat, c2: nat, sendIdx: nat)
    requires w1 > 0 && w2 > 0 && (sendIdx + 1) * (w1 + w2) <= INT_MAX && i <= sendIdx && c1 + c2 == i
    ensures Debt(i, w1, c1, w1 + w2) == (i + 1) * w1 - c1 * (w1 + w2)
    ensures Debt(i, w2, c2, w1 + w2) == (i + 1) * w2 - c2 * (w1 + w2)
  {
    MulMono(i + 1, sendIdx + 1, w1 + w2);
    DebtExact(i, w1, c1, w1 + w2);
    DebtExact(i, w2, c2, w1 + w2);
  }

  lemma DebtExact(i: nat, w: nat, c: nat, total: nat)
    requires w <= total && c <= i && (i + 1) * total <= INT_MAX
    ensures Debt(i, w, c, total) == (i + 1) * w - c * total
  {
    assert (i + 1) * w <= (i + 1) * total by { MulMono(w, total, i + 1); }
    assert c * total <= (i + 1) * total by { MulMono(c, i + 1, total); }
    SmallWords((i + 1) * w, c * total);
  }

  lemma SmallWords(x: nat, y: nat)
    requires x <= INT_MAX && y <= INT_MAX
    ensures Signed(x % U32 - y % U32) == x - y
  {
    SignedExact(x - y);
  }
}
