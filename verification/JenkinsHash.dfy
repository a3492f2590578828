/** The Jenkins-style hash of byte strings and of word arrays. */
module JenkinsHash {

  const M: int := 0x1_0000_0000

  /** An unsigned 32-bit number. */
  type Word = bv32

  datatype Triple = Triple(a: Word, b: Word, c: Word)

  function Add(x: Word, y: Word): Word {
    x + y
  }

  function Sub(x: Word, y: Word): Word {
    x - y
  }

  function Xor(x: Word, y: Word): Word {
    x ^ y
  }

  /** `rol32`: the upper bits come back as the lower ones. */
  function Rol(w: Word, k: bv6): Word
    requires 0 < k < 32
  {
    (w << k) | (w >> (32 - k))
  }

  // ------------------------------------------------------------------- mixing

  /**
   One line of the mixing macro on its three variables, in the order in which the line names them:
   the first loses the third, and the third gains the second. The result is in the order of the
   next line.
   */
  function Stir(t: Triple, k: bv6): Triple
    requires 0 < k < 32
  {
    Triple(t.b, Add(t.c, t.b), Xor(Sub(t.a, t.c), Rol(t.c, k)))
  }

  function Unstir(t: Triple, k: bv6): Triple
    requires 0 < k < 32
  {
    var c := Sub(t.b, t.a);
    Triple(Add(Xor(t.c, Rol(c, k)), c), t.a, c)
  }

  /** One line of the final macro, in the same style. */
  function Fold(t: Triple, k: bv6): Triple
    requires 0 < k < 32
  {
    Triple(t.b, t.c, Sub(Xor(t.a, t.c), Rol(t.c, k)))
  }

  function Unfold(t: Triple, k: bv6): Triple
    requires 0 < k < 32
  {
    Triple(Xor(Add(t.c, Rol(t.b, k)), t.b), t.a, t.b)
  }

  lemma {:induction false} AddSub(x: Word, y: Word)
    ensures Sub(Add(x, y), y) == x && Add(Sub(x, y), y) == x
  {
    calc {
      Sub(Add(x, y), y);
    ==
      Sub(x + y, y);
    ==
      x;
    }
    calc {
      Add(Sub(x, y), y);
    ==
      Add(x - y, y);
    ==
      x;
    }
  }

  lemma {:induction false} XorXor(x: Word, y: Word)
    ensures Xor(Xor(x, y), y) == x
  {
  }

  lemma {:induction false} StirReversible(t: Triple, k: bv6)
    requires 0 < k < 32
    ensures Unstir(Stir(t, k), k) == t && Stir(Unstir(t, k), k) == t
  {
    AddSub(t.c, t.b);
    XorXor(Sub(t.a, t.c), Rol(t.c, k));
    AddSub(t.a, t.c);
    var c := Sub(t.b, t.a);
    AddSub(t.b, t.a);
    AddSub(Xor(t.c, Rol(c, k)), c);
    XorXor(t.c, Rol(c, k));
  }

  lemma {:induction false} FoldReversible(t: Triple, k: bv6)
    requires 0 < k < 32
    ensures Unfold(Fold(t, k), k) == t && Fold(Unfold(t, k), k) == t
  {
    AddSub(Xor(t.a, t.c), Rol(t.c, k));
    XorXor(t.a, t.c);
    XorXor(Add(t.c, Rol(t.b, k)), t.b);
    AddSub(t.c, Rol(t.b, k));
  }

  /** `__kylin_hash_mix` */
  function Mix(t: Triple): Triple {
    Stir(Stir(Stir(Stir(Stir(Stir(t, 4), 6), 8), 16), 19), 4)
  }

  function Unmix(t: Triple): Triple {
    Unstir(Unstir(Unstir(Unstir(Unstir(Unstir(t, 4), 19), 16), 8), 6), 4)
  }

  /** `__kylin_hash_final` */
  function Final(t: Triple): Triple {
    Fold(Fold(Fold(Fold(Fold(Fold(Fold(Triple(t.c, t.a, t.b), 14), 11), 25), 16), 4), 14), 24)
  }

  function Unfinal(t: Triple): Triple {
    var u := Unfold(Unfold(Unfold(Unfold(Unfold(Unfold(Unfold(t, 24), 14), 4), 16), 25), 11), 14);
    Triple(u.b, u.c, u.a)
  }

  /** The mixing macro is a bijection on triples of words. */
  lemma {:induction false} MixReversible(t: Triple)
    ensures Unmix(Mix(t)) == t && Mix(Unmix(t)) == t
  {
    var t1 := Stir(t, 4);
    var t2 := Stir(t1, 6);
    var t3 := Stir(t2, 8);
    var t4 := Stir(t3, 16);
    var t5 := Stir(t4, 19);
    StirReversible(t, 4);
    StirReversible(t1, 6);
    StirReversible(t2, 8);
    StirReversible(t3, 16);
    StirReversible(t4, 19);
    StirReversible(t5, 4);
    var u1 := Unstir(t, 4);
    var u2 := Unstir(u1, 19);
    var u3 := Unstir(u2, 16);
    var u4 := Unstir(u3, 8);
    var u5 := Unstir(u4, 6);
    StirReversible(u1, 19);
    StirReversible(u2, 16);
    StirReversible(u3, 8);
    StirReversible(u4, 6);
    StirReversible(u5, 4);
  }

  /** So is the final macro. */
  lemma {:induction false} FinalReversible(t: Triple)
    ensures Unfinal(Final(t)) == t && Final(Unfinal(t)) == t
  {
    FoldsReversible(Triple(t.c, t.a, t.b));
    UnfoldsReversible(t);
  }

  lemma {:induction false} FoldsReversible(t: Triple)
    ensures var r := Fold(Fold(Fold(Fold(Fold(Fold(Fold(t, 14), 11), 25), 16), 4), 14), 24);
            Unfold(Unfold(Unfold(Unfold(Unfold(Unfold(Unfold(r, 24), 14), 4), 16), 25), 11), 14) == t
  {
    var t1 := Fold(t, 14);
    var t2 := Fold(t1, 11);
    var t3 := Fold(t2, 25);
    var t4 := Fold(t3, 16);
    var t5 := Fold(t4, 4);
    var t6 := Fold(t5, 14);
    FoldReversible(t, 14);
    FoldReversible(t1, 11);
    FoldReversible(t2, 25);
    FoldReversible(t3, 16);
    FoldReversible(t4, 4);
    FoldReversible(t5, 14);
    FoldReversible(t6, 24);
  }

  lemma {:induction false} UnfoldsReversible(t: Triple)
    ensures var r := Unfold(Unfold(Unfold(Unfold(Unfold(Unfold(Unfold(t, 24), 14), 4), 16), 25), 11), 14);
            Fold(Fold(Fold(Fold(Fold(Fold(Fold(r, 14), 11), 25), 16), 4), 14), 24) == t
  {
    var t1 := Unfold(t, 24);
    var t2 := Unfold(t1, 14);
    var t3 := Unfold(t2, 4);
    var t4 := Unfold(t3, 16);
    var t5 := Unfold(t4, 25);
    var t6 := Unfold(t5, 11);
    FoldReversible(t, 24);
    FoldReversible(t1, 14);
    FoldReversible(t2, 4);
    FoldReversible(t3, 16);
    FoldReversible(t4, 25);
    FoldReversible(t5, 11);
    FoldReversible(t6, 14);
  }

  // -------------------------------------------------------------- word arrays

  function Increment(w: Word): Word {
    w + 1
  }

  /** A length, which is a `uint32_t` of the caller. */
  function AsWord(n: nat): Word {
    if n == 0 then 0 else Increment(AsWord(n - 1))
  }

  const JHASH_INITVAL: Word := 0xdeadbeef

  /** `length` counts bytes. */
  function Begin(length: Word, initval: Word): Triple {
    var x := Add(Add(JHASH_INITVAL, length), initval);
    Triple(x, x, x)
  }

  /** A block is added to the state; a missing word counts as zero. */
  function AddBlock(t: Triple, k: seq<Word>): Triple {
    Triple(if |k| > 0 then Add(t.a, k[0]) else t.a,
              if |k| > 1 then Add(t.b, k[1]) else t.b, if |k| > 2 then Add(t.c, k[2]) else t.c)
  }

  /** The state after all of `k`. */
  function Absorb(t: Triple, k: seq<Word>): Triple
    decreases |k|
  {
    if |k| > 3 then Absorb(Mix(AddBlock(t, k)), k[3..])
    else if k == [] then t
    else Final(AddBlock(t, k))
  }

  function HashWords(k: seq<Word>, initval: Word): Word
    requires |k| < M
  {
    Absorb(Begin(Shift2(AsWord(|k|)), initval), k).c
  }

  /** `length << 2` */
  function Shift2(w: Word): Word {
    w << 2
  }

  // --------------------------------------------------------------- collisions

  lemma {:induction false} AddInjective(x: Word, y: Word, z: Word)
    ensures Add(x, z) == Add(y, z) ==> x == y
    ensures Add(z, x) == Add(z, y) ==> x == y
  {
    AddSub(x, z);
    AddSub(y, z);
    AddCommutes(z, x);
    AddCommutes(z, y);
  }

  lemma {:induction false} AddCommutes(x: Word, y: Word)
    ensures Add(x, y) == Add(y, x)
  {
  }

  lemma {:induction false} SameStart(s: Triple, t: Triple, k: seq<Word>)
    ensures AddBlock(s, k) == AddBlock(t, k) ==> s == t
  {
    if |k| > 0 {
      AddInjective(s.a, t.a, k[0]);
    }
    if |k| > 1 {
      AddInjective(s.b, t.b, k[1]);
    }
    if |k| > 2 {
      AddInjective(s.c, t.c, k[2]);
    }
  }

  lemma {:induction false} SameBlock(t: Triple, k: seq<Word>, l: seq<Word>)
    requires |k| == |l| <= 3
    ensures AddBlock(t, k) == AddBlock(t, l) ==> k == l
  {
    if |k| > 0 {
      AddInjective(k[0], l[0], t.a);
    }
    if |k| > 1 {
      AddInjective(k[1], l[1], t.b);
    }
    if |k| > 2 {
      AddInjective(k[2], l[2], t.c);
    }
  }

  lemma {:induction false} MixInjective(s: Triple, t: Triple)
    ensures Mix(s) == Mix(t) ==> s == t
  {
    MixReversible(s);
    MixReversible(t);
  }

  lemma {:induction false} FinalInjective(s: Triple, t: Triple)
    ensures Final(s) == Final(t) ==> s == t
  {
    FinalReversible(s);
    FinalReversible(t);
  }

  /** The same words keep different states apart. */
  lemma {:induction false} AbsorbInjective(s: Triple, t: Triple, k: seq<Word>)
    ensures Absorb(s, k) == Absorb(t, k) ==> s == t
    decreases |k|
  {
    if |k| > 3 {
      AbsorbInjective(Mix(AddBlock(s, k)), Mix(AddBlock(t, k)), k[3..]);
      MixInjective(AddBlock(s, k), AddBlock(t, k));
      SameStart(s, t, k);
    } else if k != [] {
      FinalInjective(AddBlock(s, k), AddBlock(t, k));
      SameStart(s, t, k);
    }
  }

  /** `k` and `l` agree outside block `i`. */
  ghost predicate OneBlock(k: seq<Word>, l: seq<Word>, i: nat) {
    |k| == |l| && forall j :: 0 <= j < |k| && !(3 * i <= j < 3 * i + 3) ==> k[j] == l[j]
  }

  lemma {:induction false} NoCollisionAtEnd(t: Triple, k: seq<Word>, l: seq<Word>)
    requires |k| == |l| <= 3
    ensures Absorb(t, k) == Absorb(t, l) ==> k == l
  {
    if k != [] {
      FinalInjective(AddBlock(t, k), AddBlock(t, l));
      SameBlock(t, k, l);
    }
  }

  lemma {:induction false} Ahead(x: Triple, y: Triple, k: seq<Word>)
    ensures Absorb(Mix(x), k) == Absorb(Mix(y), k) ==> x == y
  {
    AbsorbInjective(Mix(x), Mix(y), k);
    MixInjective(x, y);
  }

  lemma {:induction false} Parts(k: seq<Word>, l: seq<Word>)
    requires |k| == |l| > 3
    ensures k == l <==> k[..3] == l[..3] && k[3..] == l[3..]
  {
    assert k == k[..3] + k[3..] && l == l[..3] + l[3..];
  }

  lemma {:induction false} NoCollisionAtStart(t: Triple, k: seq<Word>, l: seq<Word>)
    requires |k| == |l| > 3 && k[3..] == l[3..]
    ensures Absorb(t, k) == Absorb(t, l) ==> k == l
  {
    var x, y := k[..3], l[..3];
    Advance(t, k);
    Advance(t, l);
    Ahead(AddBlock(t, x), AddBlock(t, y), k[3..]);
    SameBlock(t, x, y);
    Parts(k, l);
  }

  lemma {:induction false} Advance(t: Triple, k: seq<Word>)
    requires |k| > 3
    ensures Absorb(t, k) == Absorb(Mix(AddBlock(t, k[..3])), k[3..])
  {
    assert AddBlock(t, k) == AddBlock(t, k[..3]);
  }

  lemma {:induction false} OneBlockLater(k: seq<Word>, l: seq<Word>, i: nat)
    requires |k| > 3 && OneBlock(k, l, i)
    ensures i == 0 ==> k[3..] == l[3..]
    ensures i > 0 ==> k[..3] == l[..3] && OneBlock(k[3..], l[3..], i - 1)
  {
  }

  /** Keys of one length that differ in one block only never end in the same state. */
  lemma {:induction false} NoCollision(t: Triple, k: seq<Word>, l: seq<Word>, i: nat)
    requires OneBlock(k, l, i)
    ensures Absorb(t, k) == Absorb(t, l) <==> k == l
    decreases |k|
  {
    if |k| <= 3 {
      NoCollisionAtEnd(t, k, l);
    } else {
      OneBlockLater(k, l, i);
      if i == 0 {
        NoCollisionAtStart(t, k, l);
      } else {
        Advance(t, k);
        Advance(t, l);
        NoCollision(Mix(AddBlock(t, k[..3])), k[3..], l[3..], i - 1);
        Parts(k, l);
      }
    }
  }

  // ------------------------------------------------------------- byte strings

  type Byte = bv8

  /** `(uint32_t)b << k` */
  function Shifted(b: Byte, k: bv6): Word
    requires k < 32
  {
    (b as Word) << k
  }

  /** A 32-bit load on a little-endian host. */
  function Load(b0: Byte, b1: Byte, b2: Byte, b3: Byte): Word {
    Shifted(b0, 0) | Shifted(b1, 8) | Shifted(b2, 16) | Shifted(b3, 24)
  }

  /** The byte at bit `k` of a word in memory. */
  function ByteAt(w: Word, k: bv6): Byte
    requires k < 32
  {
    ((w >> k) & 0xFF) as Byte
  }

  /** The four bytes of a word in memory. */
  function Bytes(w: Word): (r: seq<Byte>)
    ensures |r| == 4 && Load(r[0], r[1], r[2], r[3]) == w
  {
    [ByteAt(w, 0), ByteAt(w, 8), ByteAt(w, 16), ByteAt(w, 24)]
  }

  function Encode(k: seq<Word>): (r: seq<Byte>)
    ensures |r| == 4 * |k|
  {
    if k == [] then [] else Bytes(k[0]) + Encode(k[1..])
  }

  /** `(uint32_t)k[i] << n`, or nothing beyond the end. */
  function Part(k: seq<Byte>, i: nat, n: bv6): Word
    requires n < 32
  {
    if i < |k| then Shifted(k[i], n) else 0
  }

  /** One variable after up to four bytes from `i` on are added, the last one first. */
  function AddBytes(x: Word, k: seq<Byte>, i: nat): Word {
    Add(Add(Add(Add(x, Part(k, i + 3, 24)), Part(k, i + 2, 16)), Part(k, i + 1, 8)), Part(k, i, 0))
  }

  function AddTail(t: Triple, k: seq<Byte>): Triple {
    Triple(AddBytes(t.a, k, 0), AddBytes(t.b, k, 4), AddBytes(t.c, k, 8))
  }

  function AddTwelve(t: Triple, k: seq<Byte>): Triple
    requires |k| >= 12
  {
    Triple(Add(t.a, Load(k[0], k[1], k[2], k[3])),
              Add(t.b, Load(k[4], k[5], k[6], k[7])), Add(t.c, Load(k[8], k[9], k[10], k[11])))
  }

  function AbsorbBytes(t: Triple, k: seq<Byte>): Triple
    decreases |k|
  {
    if |k| > 12 then AbsorbBytes(Mix(AddTwelve(t, k)), k[12..])
    else if k == [] then t
    else Final(AddTail(t, k))
  }

  function HashBytes(k: seq<Byte>, initval: Word): Word
    requires |k| < M
  {
    AbsorbBytes(Begin(AsWord(|k|), initval), k).c
  }

  lemma {:induction false} AddZero(x: Word)
    ensures Add(x, 0) == x
  {
  }

  function Sum(p: Word, q: Word, r: Word, s: Word): Word {
    p + q + r + s
  }

  lemma AddFourTimes(x: Word, p: Word, q: Word, r: Word, s: Word)
    ensures Add(Add(Add(Add(x, p), q), r), s) == Add(x, Sum(p, q, r, s))
  {
    calc {
      Add(Add(Add(Add(x, p), q), r), s);
    ==
      Add(Add(Add(x + p, q), r), s);
    ==
      Add(Add(x + p + q, r), s);
    ==
      Add(x + p + q + r, s);
    ==
      Add(x, p + q + r + s);
    }
  }

  /** Bytes at different places add up to what they are together. */
  lemma PlacesAdd(b0: Byte, b1: Byte, b2: Byte, b3: Byte)
    ensures Sum(Shifted(b3, 24), Shifted(b2, 16), Shifted(b1, 8), Shifted(b0, 0)) == Load(b0, b1, b2, b3)
  {
    var p, q, r, s := b0 as Word, b1 as Word, b2 as Word, b3 as Word;
    calc {
      Sum(Shifted(b3, 24), Shifted(b2, 16), Shifted(b1, 8), Shifted(b0, 0));
    ==
      Sum(s << 24, r << 16, q << 8, p << 0);
    ==
      (p << 0) | (q << 8) | (r << 16) | (s << 24);
    }
  }

  /** Byte by byte or as one word, the same is added. */
  lemma {:induction false} FourAdds(x: Word, b0: Byte, b1: Byte, b2: Byte, b3: Byte)
    ensures Add(Add(Add(Add(x, Shifted(b3, 24)), Shifted(b2, 16)), Shifted(b1, 8)), Shifted(b0, 0)) ==
            Add(x, Load(b0, b1, b2, b3))
  {
    AddFourTimes(x, Shifted(b3, 24), Shifted(b2, 16), Shifted(b1, 8), Shifted(b0, 0));
    PlacesAdd(b0, b1, b2, b3);
  }

  lemma {:induction false} AddBytesIs(x: Word, k: seq<Byte>, i: nat)
    ensures i + 3 < |k| ==> AddBytes(x, k, i) == Add(x, Load(k[i], k[i + 1], k[i + 2], k[i + 3]))
    ensures i >= |k| ==> AddBytes(x, k, i) == x
  {
    AddZero(x);
    if i + 3 < |k| {
      FourAdds(x, k[i], k[i + 1], k[i + 2], k[i + 3]);
    }
  }

  /** The bytes of word `j` in an encoding. */
  lemma {:induction false} EncodeAt(k: seq<Word>, j: nat, i: nat)
    requires j < |k| && i == 4 * j
    ensures var e := Encode(k); Load(e[i], e[i + 1], e[i + 2], e[i + 3]) == k[j]
  {
    if j > 0 {
      EncodeAt(k[1..], j - 1, i - 4);
      EncodeDrop(k, i);
    }
  }

  lemma EncodeDrop(k: seq<Word>, i: nat)
    requires k != [] && 4 <= i && i + 3 < 4 * |k|
    ensures var e, f := Encode(k), Encode(k[1..]);
            e[i] == f[i - 4] && e[i + 1] == f[i - 3] && e[i + 2] == f[i - 2] && e[i + 3] == f[i - 1]
  {
    AfterFour(Bytes(k[0]), Encode(k[1..]), i);
  }

  lemma AfterFour(p: seq<Byte>, f: seq<Byte>, i: nat)
    requires |p| == 4 && 4 <= i && i + 3 < 4 + |f|
    ensures var e := p + f;
            e[i] == f[i - 4] && e[i + 1] == f[i - 3] && e[i + 2] == f[i - 2] && e[i + 3] == f[i - 1]
  {
  }

  lemma {:induction false} EncodeFrom(k: seq<Word>, j: nat)
    requires j <= |k|
    ensures Encode(k)[4 * j..] == Encode(k[j..])
  {
    if j > 0 {
      EncodeFrom(k[1..], j - 1);
      assert Encode(k)[4..] == Encode(k[1..]);
      assert Encode(k)[4..][4 * (j - 1)..] == Encode(k)[4 * j..];
    }
  }

  lemma {:induction false} SameBlocks(t: Triple, k: seq<Word>)
    requires |k| >= 3
    ensures AddTwelve(t, Encode(k)) == AddBlock(t, k)
  {
    EncodeAt(k, 0, 0);
    EncodeAt(k, 1, 4);
    EncodeAt(k, 2, 8);
  }

  /** What one of the variables gets from a last block. */
  lemma {:induction false} TailPart(x: Word, k: seq<Word>, j: nat, i: nat)
    requires i == 4 * j
    ensures AddBytes(x, Encode(k), i) == if j < |k| then Add(x, k[j]) else x
  {
    AddBytesIs(x, Encode(k), i);
    if j < |k| {
      EncodeAt(k, j, i);
    }
  }

  lemma {:induction false} SameTails(t: Triple, k: seq<Word>)
    requires |k| <= 3
    ensures AddTail(t, Encode(k)) == AddBlock(t, k)
  {
    TailPart(t.a, k, 0, 0);
    TailPart(t.b, k, 1, 4);
    TailPart(t.c, k, 2, 8);
  }

  lemma {:induction false} SameStates(t: Triple, k: seq<Word>)
    ensures AbsorbBytes(t, Encode(k)) == Absorb(t, k)
    decreases |k|
  {
    if |k| > 3 {
      SameBlocks(t, k);
      EncodeFrom(k, 3);
      SameStates(Mix(AddBlock(t, k)), k[3..]);
    } else if k != [] {
      SameTails(t, k);
    }
  }

  lemma {:induction false} FourTimes(n: nat)
    ensures AsWord(4 * n) == Shift2(AsWord(n))
  {
    if n > 0 {
      FourTimes(n - 1);
      FourMore(4 * (n - 1), 4 * n);
      ShiftedMore(AsWord(n - 1));
    }
  }

  lemma FourMore(m: nat, n: nat)
    requires n == m + 4
    ensures AsWord(n) == Increment(Increment(Increment(Increment(AsWord(m)))))
  {
    assert AsWord(m + 1) == Increment(AsWord(m));
    assert AsWord(m + 2) == Increment(AsWord(m + 1));
    assert AsWord(m + 3) == Increment(AsWord(m + 2));
  }

  lemma ShiftedMore(w: Word)
    ensures Increment(Increment(Increment(Increment(Shift2(w))))) == Shift2(Increment(w))
  {
    calc {
      Increment(Increment(Increment(Increment(Shift2(w)))));
    ==
      Increment(Increment(Increment((w << 2) + 1)));
    ==
      Increment(Increment((w << 2) + 2));
    ==
      Increment((w << 2) + 3);
    ==
      (w << 2) + 4;
    ==
      (w + 1) << 2;
    ==
      Shift2(w + 1);
    }
  }

  /** The hash of the bytes of an array of words is the hash of the array. */
  lemma {:induction false} SameHashes(k: seq<Word>, initval: Word)
    requires 4 * |k| < M
    ensures HashBytes(Encode(k), initval) == HashWords(k, initval)
  {
    FourTimes(|k|);
    SameStates(Begin(Shift2(AsWord(|k|)), initval), k);
  }

  // -------------------------------------------------------------- the routines

  /** The assignments of the mixing macro. */
  method MixInPlace(t: Triple) returns (r: Triple)
    ensures r == Mix(t)
  {
    var a, b, c := t.a, t.b, t.c;
    ghost var s1 := Stir(t, 4);
    ghost var s2 := Stir(s1, 6);
    ghost var s3 := Stir(s2, 8);
    ghost var s4 := Stir(s3, 16);
    ghost var s5 := Stir(s4, 19);
    ghost var s6 := Stir(s5, 4);
    a := Sub(a, c);
    a := Xor(a, Rol(c, 4));
    c := Add(c, b);
    assert Triple(b, c, a) == s1;
    b := Sub(b, a);
    b := Xor(b, Rol(a, 6));
    a := Add(a, c);
    assert Triple(c, a, b) == s2;
    c := Sub(c, b);
    c := Xor(c, Rol(b, 8));
    b := Add(b, a);
    assert Triple(a, b, c) == s3;
    a := Sub(a, c);
    a := Xor(a, Rol(c, 16));
    c := Add(c, b);
    assert Triple(b, c, a) == s4;
    b := Sub(b, a);
    b := Xor(b, Rol(a, 19));
    a := Add(a, c);
    assert Triple(c, a, b) == s5;
    c := Sub(c, b);
    c := Xor(c, Rol(b, 4));
    b := Add(b, a);
    assert Triple(a, b, c) == s6;
    r := Triple(a, b, c);
  }

  /** The assignments of the final macro. */
  method FinalInPlace(t: Triple) returns (r: Triple)
    ensures r == Final(t)
  {
    var a, b, c := t.a, t.b, t.c;
    ghost var s1 := Fold(Triple(t.c, t.a, t.b), 14);
    ghost var s2 := Fold(s1, 11);
    ghost var s3 := Fold(s2, 25);
    ghost var s4 := Fold(s3, 16);
    ghost var s5 := Fold(s4, 4);
    ghost var s6 := Fold(s5, 14);
    ghost var s7 := Fold(s6, 24);
    c := Xor(c, b);
    c := Sub(c, Rol(b, 14));
    assert Triple(a, b, c) == s1;
    a := Xor(a, c);
    a := Sub(a, Rol(c, 11));
    assert Triple(b, c, a) == s2;
    b := Xor(b, a);
    b := Sub(b, Rol(a, 25));
    assert Triple(c, a, b) == s3;
    c := Xor(c, b);
    c := Sub(c, Rol(b, 16));
    assert Triple(a, b, c) == s4;
    a := Xor(a, c);
    a := Sub(a, Rol(c, 4));
    assert Triple(b, c, a) == s5;
    b := Xor(b, a);
    b := Sub(b, Rol(a, 14));
    assert Triple(c, a, b) == s6;
    c := Xor(c, b);
    c := Sub(c, Rol(b, 24));
    assert Triple(a, b, c) == s7;
    r := Triple(a, b, c);
  }

  /** `kylin_hash2` */
  method HashOfWords(key: seq<Word>, initval: Word) returns (hash: Word)
    requires |key| < M
    ensures hash == HashWords(key, initval)
  {
    var x := Add(Add(JHASH_INITVAL, Shift2(AsWord(|key|))), initval);
    var t, k := Triple(x, x, x), key;
    ghost var end := Absorb(t, k);
    while |k| > 3
      invariant Absorb(t, k) == end
      decreases |k|
    {
      t := MixInPlace(Triple(Add(t.a, k[0]), Add(t.b, k[1]), Add(t.c, k[2])));
      k := k[3..];
    }
    t := LastWords(t, k);
    hash := t.c;
  }

  /** The fall-through cases of `kylin_hash2`. */
  method LastWords(t: Triple, k: seq<Word>) returns (r: Triple)
    requires |k| <= 3
    ensures r == Absorb(t, k)
  {
    var a, b, c := t.a, t.b, t.c;
    r := t;
    if |k| == 3 {
      c := Add(c, k[2]);
    }
    if |k| >= 2 {
      b := Add(b, k[1]);
    }
    if |k| >= 1 {
      a := Add(a, k[0]);
      r := FinalInPlace(Triple(a, b, c));
    }
  }

  /** The fall-through cases of `kylin_hash` for one of its three variables. */
  method AddFour(x: Word, k: seq<Byte>, i: nat) returns (r: Word)
    ensures r == AddBytes(x, k, i)
  {
    AddZero(x);
    r := x;
    if |k| > i + 3 {
      r := Add(r, Part(k, i + 3, 24));
    }
    if |k| > i + 2 {
      r := Add(r, Part(k, i + 2, 16));
    }
    if |k| > i + 1 {
      r := Add(r, Part(k, i + 1, 8));
    }
    if |k| > i {
      r := Add(r, k[i] as Word);
    }
  }

  /** `kylin_hash` */
  method HashOfBytes(key: seq<Byte>, initval: Word) returns (hash: Word)
    requires |key| < M
    ensures hash == HashBytes(key, initval)
  {
    var x := Add(Add(JHASH_INITVAL, AsWord(|key|)), initval);
    var t, k := Triple(x, x, x), key;
    ghost var end := AbsorbBytes(t, k);
    while |k| > 12
      invariant AbsorbBytes(t, k) == end
      decreases |k|
    {
      var a, b, c := t.a, t.b, t.c;
      a := Add(a, Load(k[0], k[1], k[2], k[3]));
      b := Add(b, Load(k[4], k[5], k[6], k[7]));
      c := Add(c, Load(k[8], k[9], k[10], k[11]));
      t := MixInPlace(Triple(a, b, c));
      k := k[12..];
    }
    if k != [] {
      var c := AddFour(t.c, k, 8);
      var b := AddFour(t.b, k, 4);
      var a := AddFour(t.a, k, 0);
      t := FinalInPlace(Triple(a, b, c));
    }
    hash := t.c;
  }
}
