/** Shifts of bitmaps that span many words. */
module Bitmap {
  import opened Words

  const BITS_PER_WORD: nat := 64

  /** Bit `j` of a bitmap; outside it every bit is clear. */
  predicate At(ws: seq<Word>, j: int) {
    0 <= j < 64 * |ws| && Bit(ws[j / 64], j % 64)
  }

  function Size(ws: seq<Word>): nat {
    64 * |ws|
  }

  // ------------------------------------------------------------- word by word

  /** What a shift right takes from the next word. */
  function FromAbove(ws: seq<Word>, r: nat, i: nat): Word
    requires r < 64
  {
    if r == 0 || i >= |ws| then 0 else Shl(ws[i], 64 - r)
  }

  /** What a shift left takes from the word before. */
  function FromBelow(ws: seq<Word>, r: nat, i: int): Word
    requires r < 64 && i < |ws|
  {
    if r == 0 || i < 0 then 0 else Shr(ws[i], 64 - r)
  }

  /** Word `i` after a shift right by `o` words and `r` bits. */
  function RightWord(ws: seq<Word>, o: nat, r: nat, i: nat): Word
    requires i < |ws| && r < 64
  {
    if i + o >= |ws| then 0
    else
      Or(Shr(ws[o + i], r), FromAbove(ws, r, o + i + 1))
  }

  /** Word `i` after a shift left. */
  function LeftWord(ws: seq<Word>, o: nat, r: nat, i: nat): Word
    requires i < |ws| && r < 64
  {
    if i < o then 0
    else
      Or(FromBelow(ws, r, i - o - 1), Shl(ws[i - o], r))
  }

  function Right(ws: seq<Word>, s: nat): (r: seq<Word>)
    ensures |r| == |ws|
  {
    seq(|ws|, i requires 0 <= i < |ws| => RightWord(ws, s / 64, s % 64, i))
  }

  function Left(ws: seq<Word>, s: nat): (r: seq<Word>)
    ensures |r| == |ws|
  {
    seq(|ws|, i requires 0 <= i < |ws| => LeftWord(ws, s / 64, s % 64, i))
  }

  /** Bit `k` of word `i`, where `i` may lie outside. */
  predicate Cell(ws: seq<Word>, i: int, k: nat)
    requires k < 64
  {
    0 <= i < |ws| && Bit(ws[i], k)
  }

  lemma {:induction false} RightCell(ws: seq<Word>, o: nat, r: nat, i: nat, k: nat)
    requires i < |ws| && r < 64 && k < 64
    ensures Bit(RightWord(ws, o, r, i), k) <==>
              if k + r < 64 then Cell(ws, i + o, k + r) else Cell(ws, i + o + 1, k + r - 64)
  {
    ZeroBit(k);
    if i + o < |ws| {
      if r == 0 || o + i + 1 >= |ws| {
        AloneRight(ws[o + i], r, k);
      } else {
        JoinedRight(ws[o + i], ws[o + i + 1], r, k);
      }
    }
  }

  lemma LeftParts(ws: seq<Word>, o: nat, r: nat, i: nat, k: nat)
    requires k < |ws| && k == i + o && r < 64
    ensures LeftWord(ws, o, r, k) == Or(FromBelow(ws, r, i - 1), Shl(ws[i], r))
  {
    assert k - o == i;
  }

  lemma {:induction false} PartsCell(ws: seq<Word>, r: nat, i: nat, k: nat)
    requires i < |ws| && r < 64 && k < 64
    ensures Bit(Or(FromBelow(ws, r, i - 1), Shl(ws[i], r)), k) <==>
              if k >= r then Cell(ws, i, k - r) else Cell(ws, i - 1, k + 64 - r)
  {
    if r != 0 && i > 0 {
      JoinedLeft(ws[i - 1], ws[i], r, k);
    } else {
      AloneLeft(ws[i], r, k);
    }
  }

  lemma {:induction false} LeftCell(ws: seq<Word>, o: nat, r: nat, i: nat, k: nat)
    requires i < |ws| && r < 64 && k < 64
    ensures Bit(LeftWord(ws, o, r, i), k) <==>
              if k >= r then Cell(ws, i - o, k - r) else Cell(ws, i - o - 1, k + 64 - r)
  {
    ZeroBit(k);
    if i >= o {
      var j := i - o;
      LeftParts(ws, o, r, j, i);
      PartsCell(ws, r, j, k);
    }
  }

  lemma {:induction false} CellIsAt(ws: seq<Word>, i: int, k: nat)
    requires k < 64
    ensures Cell(ws, i, k) <==> At(ws, 64 * i + k)
  {
    assert (64 * i + k) / 64 == i && (64 * i + k) % 64 == k;
  }

  // --------------------------------------------------------------- bit by bit

  /** A shift right moves bit `j + s` to `j` and fills with zeros. */
  lemma {:induction false} RightAt(ws: seq<Word>, s: nat, j: nat)
    requires j < Size(ws)
    ensures At(Right(ws, s), j) <==> At(ws, j + s)
  {
    var o, r, i, k := s / 64, s % 64, j / 64, j % 64;
    RightCell(ws, o, r, i, k);
    if k + r < 64 {
      CellIsAt(ws, i + o, k + r);
    } else {
      CellIsAt(ws, i + o + 1, k + r - 64);
    }
  }

  /** A shift left moves bit `j - s` to `j` and fills with zeros. */
  lemma {:induction false} LeftAt(ws: seq<Word>, s: nat, j: nat)
    requires j < Size(ws)
    ensures At(Left(ws, s), j) <==> At(ws, j - s)
  {
    var o, r, i, k := s / 64, s % 64, j / 64, j % 64;
    LeftCell(ws, o, r, i, k);
    if k >= r {
      CellIsAt(ws, i - o, k - r);
    } else {
      CellIsAt(ws, i - o - 1, k + 64 - r);
    }
  }

  /** Bitmaps of one size are equal if their bits are. */
  lemma {:induction false} SameBitmap(a: seq<Word>, b: seq<Word>)
    requires |a| == |b| && forall j :: 0 <= j < Size(a) ==> At(a, j) == At(b, j)
    ensures a == b
  {
    forall i | 0 <= i < |a| ensures a[i] == b[i] {
      forall k | 0 <= k < 64 ensures Bit(a[i], k) == Bit(b[i], k) {
        CellIsAt(a, i, k);
        CellIsAt(b, i, k);
        assert At(a, 64 * i + k) == At(b, 64 * i + k);
      }
      WordFromBits(a[i], b[i]);
    }
  }

  // --------------------------------------------------------------------- laws

  lemma {:induction false} RightTo(ws: seq<Word>, s: nat, j: nat, k: nat)
    requires k == j + s
    ensures At(Right(ws, s), j) <==> At(ws, k)
  {
    if j < Size(ws) {
      RightAt(ws, s, j);
    }
  }

  lemma {:induction false} LeftFrom(ws: seq<Word>, s: nat, j: int, k: int)
    requires j < Size(ws) && k == j - s
    ensures At(Left(ws, s), j) <==> At(ws, k)
  {
    if j >= 0 {
      LeftAt(ws, s, j);
    }
  }

  /** Left and back again clears exactly the top `s` bits. */
  lemma {:induction false} LeftThenRight(ws: seq<Word>, s: nat, j: nat)
    requires j < Size(ws)
    ensures At(Right(Left(ws, s), s), j) <==> j + s < Size(ws) && At(ws, j)
  {
    var x, k := Left(ws, s), j + s;
    RightTo(x, s, j, k);
    if k < Size(ws) {
      LeftFrom(ws, s, k, j);
    }
  }

  /** Right and back again clears exactly the lowest `s` bits. */
  lemma {:induction false} RightThenLeft(ws: seq<Word>, s: nat, j: nat)
    requires j < Size(ws)
    ensures At(Left(Right(ws, s), s), j) <==> j >= s && At(ws, j)
  {
    var x, k := Right(ws, s), j - s;
    LeftFrom(x, s, j, k);
    if k >= 0 {
      RightTo(ws, s, k, j);
    }
  }

  lemma {:induction false} RightTwiceAt(ws: seq<Word>, a: nat, b: nat, j: nat)
    requires j < Size(ws)
    ensures At(Right(Right(ws, a), b), j) == At(Right(ws, a + b), j)
  {
    var x, i, k := Right(ws, a), j + b, j + a + b;
    RightTo(x, b, j, i);
    RightTo(ws, a, i, k);
    RightTo(ws, a + b, j, k);
  }

  lemma {:induction false} LeftTwiceAt(ws: seq<Word>, a: nat, b: nat, j: nat)
    requires j < Size(ws)
    ensures At(Left(Left(ws, a), b), j) == At(Left(ws, a + b), j)
  {
    var x, i, k := Left(ws, a), j - b, j - a - b;
    LeftFrom(x, b, j, i);
    LeftFrom(ws, a, i, k);
    LeftFrom(ws, a + b, j, k);
  }

  lemma {:induction false} RightTwice(ws: seq<Word>, a: nat, b: nat)
    ensures Right(Right(ws, a), b) == Right(ws, a + b)
  {
    var x, y := Right(Right(ws, a), b), Right(ws, a + b);
    forall j | 0 <= j < Size(x) ensures At(x, j) == At(y, j) {
      RightTwiceAt(ws, a, b, j);
    }
    SameBitmap(x, y);
  }

  lemma {:induction false} LeftTwice(ws: seq<Word>, a: nat, b: nat)
    ensures Left(Left(ws, a), b) == Left(ws, a + b)
  {
    var x, y := Left(Left(ws, a), b), Left(ws, a + b);
    forall j | 0 <= j < Size(x) ensures At(x, j) == At(y, j) {
      LeftTwiceAt(ws, a, b, j);
    }
    SameBitmap(x, y);
  }

  // ------------------------------------------------------------------ methods

  datatype Status = Ok | Invalid

  /** One word of the result. */
  method MakeRight(val: array<Word>, offset: nat, remainder: nat, i: nat, ghost ws: seq<Word>) returns (w: Word)
    requires i + offset < val.Length && remainder < 64 && ws == val[..]
    ensures w == RightWord(ws, offset, remainder, i)
  {
    var upper: Word := 0;
    if remainder != 0 && offset + i + 1 < val.Length {
      upper := Shl(val[offset + i + 1], BITS_PER_WORD - remainder);
    }
    assert upper == FromAbove(ws, remainder, offset + i + 1);
    var lower := Shr(val[offset + i], remainder);
    w := Or(lower, upper);
  }

  method MakeLeft(val: array<Word>, offset: nat, remainder: nat, i: nat, ghost ws: seq<Word>) returns (w: Word)
    requires i + offset < val.Length && remainder < 64 && ws == val[..]
    ensures w == LeftWord(ws, offset, remainder, i + offset)
  {
    var lower: Word := 0;
    if remainder != 0 && i > 0 {
      lower := Shr(val[i - 1], BITS_PER_WORD - remainder);
    }
    assert lower == FromBelow(ws, remainder, i - 1);
    LeftParts(ws, offset, remainder, i, i + offset);
    var upper := Shl(val[i], remainder);
    w := Or(lower, upper);
  }

  /** The loop of the shift right, and the words that become zero. */
  method FillRight(val: array<Word>, dst: array<Word>, offset: nat, remainder: nat, ghost ws: seq<Word>)
    requires dst != val && dst.Length == val.Length && offset <= val.Length && remainder < 64 && ws == val[..]
    modifies dst
    ensures forall k :: 0 <= k < |ws| ==> dst[k] == RightWord(ws, offset, remainder, k)
  {
    var i := 0;
    while i + offset < val.Length
      invariant 0 <= i <= val.Length - offset
      invariant forall k :: 0 <= k < i ==> dst[k] == RightWord(ws, offset, remainder, k)
    {
      dst[i] := MakeRight(val, offset, remainder, i, ws);
      i := i + 1;
    }
    forall k | val.Length - offset <= k < val.Length {
      dst[k] := 0;
    }
  }

  /** The loop of the shift left, from the last word down. */
  method FillLeft(val: array<Word>, dst: array<Word>, offset: nat, remainder: nat, ghost ws: seq<Word>)
    requires dst != val && dst.Length == val.Length && offset <= val.Length && remainder < 64 && ws == val[..]
    modifies dst
    ensures forall k :: 0 <= k < |ws| ==> dst[k] == LeftWord(ws, offset, remainder, k)
  {
    var i := val.Length - offset - 1;
    while i >= 0
      invariant -1 <= i < val.Length - offset
      invariant forall k :: i + offset < k < |ws| ==> dst[k] == LeftWord(ws, offset, remainder, k)
    {
      dst[i + offset] := MakeLeft(val, offset, remainder, i, ws);
      i := i - 1;
    }
    forall k | 0 <= k < offset {
      dst[k] := 0;
    }
  }

  method CopyBack(val: array<Word>, dst: array<Word>)
    requires dst != val && dst.Length == val.Length
    modifies val
    ensures val[..] == dst[..]
  {
    forall k | 0 <= k < val.Length {
      val[k] := dst[k];
    }
  }

  /** `kylin_bitmap_shift_right`, through a temporary array that is copied back. */
  method ShiftRight(val: array<Word>, shift: nat) returns (e: Status)
    modifies val
    ensures e == if shift <= 64 * val.Length then Ok else Invalid
    ensures val[..] == if e == Ok then Right(old(val[..]), shift) else old(val[..])
  {
    var size, offset, remainder := val.Length, shift / BITS_PER_WORD, shift % BITS_PER_WORD;
    if offset > size || (offset == size && remainder != 0) {
      return Invalid;
    }
    var dst := new Word[size];
    FillRight(val, dst, offset, remainder, val[..]);
    assert dst[..] == Right(val[..], shift);
    CopyBack(val, dst);
    return Ok;
  }

  /** `kylin_bitmap_shift_left`. */
  method ShiftLeft(val: array<Word>, shift: nat) returns (e: Status)
    modifies val
    ensures e == if shift <= 64 * val.Length then Ok else Invalid
    ensures val[..] == if e == Ok then Left(old(val[..]), shift) else old(val[..])
  {
    var size, offset, remainder := val.Length, shift / BITS_PER_WORD, shift % BITS_PER_WORD;
    if offset > size || (offset == size && remainder != 0) {
      return Invalid;
    }
    var dst := new Word[size];
    FillLeft(val, dst, offset, remainder, val[..]);
    assert dst[..] == Left(val[..], shift);
    CopyBack(val, dst);
    return Ok;
  }
}
