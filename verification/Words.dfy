/** Bits and shifts of 64-bit words. */
module Words {

  type Word = bv64

  /** A small number as the width in which shifts count. */
  function Amount(n: nat): bv7 {
    if n == 0 then 0 else Amount(n - 1) + 1
  }

  predicate VectorBit(w: Word, j: bv7)
    requires j < 64
  {
    (w >> j) & 1 == 1
  }

  function Up(w: Word, k: bv7): Word
    requires k < 64
  {
    w << k
  }

  function Down(w: Word, k: bv7): Word
    requires k < 64
  {
    w >> k
  }

  // --------------------------------------------------------- facts on vectors

  lemma {:induction false} UpBy15(w: Word, k: bv7, j: bv7)
    requires k < 16 && k <= j < 64
    ensures VectorBit(w << k, j) <==> VectorBit(w, j - k)
  {
  }

  lemma {:induction false} UpBy31(w: Word, k: bv7, j: bv7)
    requires 16 <= k < 32 && k <= j < 64
    ensures VectorBit(w << k, j) <==> VectorBit(w, j - k)
  {
  }

  lemma {:induction false} UpBy63(w: Word, k: bv7, j: bv7)
    requires 32 <= k <= j < 64
    ensures VectorBit(w << k, j) <==> VectorBit(w, j - k)
  {
  }

  lemma {:induction false} UpFills(w: Word, k: bv7, j: bv7)
    requires j < k < 64
    ensures !VectorBit(Up(w, k), j)
  {
  }

  lemma {:induction false} DownBy15(w: Word, k: bv7, j: bv7)
    requires k < 16 && j < 64 && j + k < 64
    ensures VectorBit(w >> k, j) <==> VectorBit(w, j + k)
  {
  }

  lemma {:induction false} DownBy31(w: Word, k: bv7, j: bv7)
    requires 16 <= k < 32 && j < 64 && j + k < 64
    ensures VectorBit(w >> k, j) <==> VectorBit(w, j + k)
  {
  }

  lemma {:induction false} DownBy63(w: Word, k: bv7, j: bv7)
    requires 32 <= k < 64 && j < 64 && j + k < 64
    ensures VectorBit(w >> k, j) <==> VectorBit(w, j + k)
  {
  }

  lemma {:induction false} DownFills(w: Word, k: bv7, j: bv7)
    requires k < 64 && j < 64 && j + k >= 64
    ensures !VectorBit(Down(w, k), j)
  {
  }

  lemma {:induction false} EitherBit(x: Word, y: Word, j: bv7)
    requires j < 64
    ensures VectorBit(x | y, j) <==> VectorBit(x, j) || VectorBit(y, j)
  {
  }

  lemma {:induction false} NoBit(j: bv7)
    requires j < 64
    ensures !VectorBit(0, j)
  {
  }

  ghost predicate SameBits(x: Word, y: Word) {
    forall j: bv7 :: j < 64 ==> VectorBit(x, j) == VectorBit(y, j)
  }

  lemma {:induction false} SameByte(x: Word, y: Word, j: bv7)
    requires j < 64 && j & 7 == 0 && SameBits(x, y)
    ensures (x >> j) & 0xFF == (y >> j) & 0xFF
  {
    SameNibble(x, y, j);
    SameNibble(x, y, j + 4);
  }

  lemma {:induction false} SameNibble(x: Word, y: Word, j: bv7)
    requires j < 64 && j & 3 == 0 && SameBits(x, y)
    ensures (x >> j) & 0xF == (y >> j) & 0xF
  {
    assert VectorBit(x, j) == VectorBit(y, j);
    assert VectorBit(x, j + 1) == VectorBit(y, j + 1);
    assert VectorBit(x, j + 2) == VectorBit(y, j + 2);
    assert VectorBit(x, j + 3) == VectorBit(y, j + 3);
  }

  /** A word is determined by its bits. */
  lemma {:induction false} SameWord(x: Word, y: Word)
    requires SameBits(x, y)
    ensures x == y
  {
    SameByte(x, y, 0);
    SameByte(x, y, 8);
    SameByte(x, y, 16);
    SameByte(x, y, 24);
    SameByte(x, y, 32);
    SameByte(x, y, 40);
    SameByte(x, y, 48);
    SameByte(x, y, 56);
  }

  // ------------------------------------------------------------------ amounts

  lemma {:induction false} Successor(x: bv7)
    requires x != 127
    ensures (x + 1) as int == x as int + 1
  {
  }

  lemma {:induction false} AmountIs(n: nat)
    requires n < 128
    ensures Amount(n) as int == n
  {
    if n > 0 {
      AmountIs(n - 1);
      assert Amount(n - 1) as int != 127;
      Successor(Amount(n - 1));
    }
  }

  lemma {:induction false} Compare(x: bv7, y: bv7)
    ensures x < y <==> x as int < y as int
  {
  }

  lemma {:induction false} AmountLess(a: nat, b: nat)
    requires a < 128 && b < 128
    ensures Amount(a) < Amount(b) <==> a < b
  {
    AmountIs(a);
    AmountIs(b);
    Compare(Amount(a), Amount(b));
  }

  lemma {:induction false} AmountSum(a: nat, b: nat)
    ensures Amount(a + b) == Amount(a) + Amount(b)
  {
    if b > 0 {
      AmountSum(a, b - 1);
    }
  }

  lemma {:induction false} Amount64()
    ensures Amount(64) == 64
  {
    AmountIs(64);
  }

  /** Comparison with the width of a word. */
  lemma {:induction false} Fits(n: nat)
    requires n < 128
    ensures Amount(n) < 64 <==> n < 64
  {
    AmountLess(n, 64);
    Amount64();
  }

  // ------------------------------------------------------------- shifts by nat

  predicate Bit(w: Word, j: nat)
    requires j < 64
  {
    Fits(j);
    VectorBit(w, Amount(j))
  }

  /** `w << k` */
  function Shl(w: Word, k: nat): Word
    requires k < 64
  {
    Fits(k);
    Up(w, Amount(k))
  }

  /** `w >> k` */
  function Shr(w: Word, k: nat): Word
    requires k < 64
  {
    Fits(k);
    Down(w, Amount(k))
  }

  /** `x | y` */
  function Or(x: Word, y: Word): Word {
    x | y
  }

  lemma {:induction false} UpBit(w: Word, k: bv7, j: bv7, i: bv7)
    requires k <= j < 64 && i == j - k
    ensures VectorBit(Up(w, k), j) <==> VectorBit(w, i)
  {
    if k < 16 {
      UpBy15(w, k, j);
    } else if k < 32 {
      UpBy31(w, k, j);
    } else {
      UpBy63(w, k, j);
    }
  }

  lemma {:induction false} DownBit(w: Word, k: bv7, j: bv7, i: bv7)
    requires k < 64 && j < 64 && j + k < 64 && i == j + k
    ensures VectorBit(Down(w, k), j) <==> VectorBit(w, i)
  {
    if k < 16 {
      DownBy15(w, k, j);
    } else if k < 32 {
      DownBy31(w, k, j);
    } else {
      DownBy63(w, k, j);
    }
  }

  /** Sums of two places in a word are exact. */
  lemma {:induction false} Amounts(k: nat, j: nat)
    requires k < 64 && j < 64
    ensures Amount(k) < 64 && Amount(j) < 64 && Amount(j + k) == Amount(j) + Amount(k)
    ensures Amount(j) + Amount(k) < 64 <==> j + k < 64
  {
    Fits(k);
    Fits(j);
    Fits(j + k);
    AmountSum(j, k);
  }

  lemma {:induction false} Differences(k: nat, j: nat)
    requires k <= j < 64
    ensures Amount(k) <= Amount(j) < 64 && Amount(j - k) == Amount(j) - Amount(k)
  {
    Fits(j);
    AmountLess(j, k);
    AmountSum(j - k, k);
  }

  lemma {:induction false} ShlInside(w: Word, k: nat, j: nat)
    requires k <= j < 64
    ensures Bit(Shl(w, k), j) <==> Bit(w, j - k)
  {
    Differences(k, j);
    UpBit(w, Amount(k), Amount(j), Amount(j - k));
  }

  lemma {:induction false} ShlOutside(w: Word, k: nat, j: nat)
    requires j < k < 64
    ensures !Bit(Shl(w, k), j)
  {
    Fits(k);
    AmountLess(j, k);
    UpFills(w, Amount(k), Amount(j));
  }

  lemma {:induction false} ShlBit(w: Word, k: nat, j: nat)
    requires k < 64 && j < 64
    ensures Bit(Shl(w, k), j) <==> j >= k && Bit(w, j - k)
  {
    if j < k {
      ShlOutside(w, k, j);
    } else {
      ShlInside(w, k, j);
    }
  }

  lemma {:induction false} ShrInside(w: Word, k: nat, j: nat)
    requires k < 64 && j < 64 && j + k < 64
    ensures Bit(Shr(w, k), j) <==> Bit(w, j + k)
  {
    Amounts(k, j);
    DownBit(w, Amount(k), Amount(j), Amount(j + k));
  }

  lemma {:induction false} ShrOutside(w: Word, k: nat, j: nat)
    requires k < 64 && j < 64 && j + k >= 64
    ensures !Bit(Shr(w, k), j)
  {
    Amounts(k, j);
    DownFills(w, Amount(k), Amount(j));
  }

  lemma {:induction false} ShrBit(w: Word, k: nat, j: nat)
    requires k < 64 && j < 64
    ensures Bit(Shr(w, k), j) <==> j + k < 64 && Bit(w, j + k)
  {
    if j + k < 64 {
      ShrInside(w, k, j);
    } else {
      ShrOutside(w, k, j);
    }
  }

  lemma {:induction false} OrBit(x: Word, y: Word, j: nat)
    requires j < 64
    ensures Bit(Or(x, y), j) <==> Bit(x, j) || Bit(y, j)
  {
    Fits(j);
    EitherBit(x, y, Amount(j));
  }

  lemma {:induction false} ZeroBit(j: nat)
    requires j < 64
    ensures !Bit(0, j)
  {
    Fits(j);
    NoBit(Amount(j));
  }

  lemma {:induction false} AmountBack(x: bv7)
    ensures Amount(x as int) == x
  {
    AmountIs(x as int);
    Compare(Amount(x as int), x);
    Compare(x, Amount(x as int));
  }

  lemma {:induction false} WordFromBits(x: Word, y: Word)
    requires forall j :: 0 <= j < 64 ==> Bit(x, j) == Bit(y, j)
    ensures x == y
  {
    forall k: bv7 | k < 64 ensures VectorBit(x, k) == VectorBit(y, k) {
      AmountBack(k);
      Fits(k as int);
      assert Bit(x, k as int) == Bit(y, k as int);
    }
    SameWord(x, y);
  }

  /** A window of one word on two neighbours, `r` bits up from the start of the lower one. */
  lemma {:induction false} JoinedRight(low: Word, high: Word, r: nat, k: nat)
    requires 0 < r < 64 && k < 64
    ensures Bit(Or(Shr(low, r), Shl(high, 64 - r)), k) <==>
              if k + r < 64 then Bit(low, k + r) else Bit(high, k + r - 64)
  {
    var x, y := Shr(low, r), Shl(high, 64 - r);
    assert Bit(x, k) <==> k + r < 64 && Bit(low, k + r) by {
      ShrBit(low, r, k);
    }
    assert Bit(y, k) <==> k + r >= 64 && Bit(high, k + r - 64) by {
      ShlBit(high, 64 - r, k);
    }
    OrBit(x, y, k);
  }

  lemma {:induction false} JoinedUpper(low: Word, high: Word, r: nat, k: nat)
    requires 0 < r <= k < 64
    ensures Bit(Or(low, Shl(high, r)), k) <==> Bit(low, k) || Bit(high, k - r)
  {
    OrBit(low, Shl(high, r), k);
    ShlBit(high, r, k);
  }

  lemma {:induction false} JoinedLower(low: Word, high: Word, r: nat, k: nat)
    requires 0 < r < 64 && k < r
    ensures Bit(Or(low, Shl(high, r)), k) <==> Bit(low, k)
  {
    OrBit(low, Shl(high, r), k);
    ShlBit(high, r, k);
  }

  /** The same, `r` bits down from the start of the upper one. */
  lemma {:induction false} JoinedLeft(low: Word, high: Word, r: nat, k: nat)
    requires 0 < r < 64 && k < 64
    ensures Bit(Or(Shr(low, 64 - r), Shl(high, r)), k) <==> if k >= r then Bit(high, k - r) else Bit(low, k + 64 - r)
  {
    ShrBit(low, 64 - r, k);
    if k >= r {
      JoinedUpper(Shr(low, 64 - r), high, r, k);
    } else {
      JoinedLower(Shr(low, 64 - r), high, r, k);
    }
  }

  lemma {:induction false} AloneRight(w: Word, r: nat, k: nat)
    requires r < 64 && k < 64
    ensures Bit(Or(Shr(w, r), 0), k) <==> k + r < 64 && Bit(w, k + r)
  {
    OrBit(Shr(w, r), 0, k);
    ShrBit(w, r, k);
    ZeroBit(k);
  }

  lemma {:induction false} AloneLeft(w: Word, r: nat, k: nat)
    requires r < 64 && k < 64
    ensures Bit(Or(0, Shl(w, r)), k) <==> k >= r && Bit(w, k - r)
  {
    OrBit(0, Shl(w, r), k);
    ShlBit(w, r, k);
    ZeroBit(k);
  }
}
