/** The macros of the hash told bit by bit, with the amounts of their rotations, and some values. */
module HashBits {
  import opened JenkinsHash

  predicate Bit(w: Word, j: bv6)
    requires j < 32
  {
    (w >> j) & 1 == 1
  }

  lemma UpperBits(w: Word, k: bv6, j: bv6)
    requires 0 < k <= j < 32
    ensures (((w << k) | (w >> (32 - k))) >> j) & 1 == (w >> (j - k)) & 1
  {
  }

  lemma LowerBits(w: Word, k: bv6, j: bv6)
    requires j < k < 32
    ensures (((w << k) | (w >> (32 - k))) >> j) & 1 == (w >> (j + 32 - k)) & 1
  {
  }

  /** Bit `j` of a word rotated by `k` is its bit `j - k` modulo 32. */
  lemma {:induction false} RotBit(w: Word, k: bv6, j: bv6)
    requires 0 < k < 32 && j < 32
    ensures Bit(Rol(w, k), j) <==> if k <= j then Bit(w, j - k) else Bit(w, j + 32 - k)
  {
    if k <= j {
      UpperBits(w, k, j);
    } else {
      LowerBits(w, k, j);
    }
  }

  lemma BitOfEither(x: Word, y: Word, j: bv6)
    requires j < 32
    ensures ((x ^ y) >> j) & 1 == ((x >> j) & 1) ^ ((y >> j) & 1)
  {
  }

  lemma OneBit(x: Word, y: Word)
    requires x < 2 && y < 2
    ensures x ^ y == 1 <==> x != y
  {
  }

  /** Bit `j` of an exclusive or says whether the two bits differ. */
  lemma {:induction false} XorBit(x: Word, y: Word, j: bv6)
    requires j < 32
    ensures Bit(Xor(x, y), j) <==> Bit(x, j) != Bit(y, j)
  {
    BitOfEither(x, y, j);
    OneBit((x >> j) & 1, (y >> j) & 1);
  }

  /** The eighteen values of the mixing macro. */
  lemma {:induction false} MixIs(t: Triple)
    ensures var a1, c1 := Xor(Sub(t.a, t.c), Rol(t.c, 4)), Add(t.c, t.b);
            var b1, a2 := Xor(Sub(t.b, a1), Rol(a1, 6)), Add(a1, c1);
            var c2, b2 := Xor(Sub(c1, b1), Rol(b1, 8)), Add(b1, a2);
            var a3, c3 := Xor(Sub(a2, c2), Rol(c2, 16)), Add(c2, b2);
            var b3, a4 := Xor(Sub(b2, a3), Rol(a3, 19)), Add(a3, c3);
            var c4, b4 := Xor(Sub(c3, b3), Rol(b3, 4)), Add(b3, a4);
            Mix(t) == Triple(a4, b4, c4)
  {
    var t1 := Stir(t, 4);
    var t2 := Stir(t1, 6);
    var t3 := Stir(t2, 8);
    var t4 := Stir(t3, 16);
    var t5 := Stir(t4, 19);
    var t6 := Stir(t5, 4);
  }

  /** The fourteen values of the final macro. */
  lemma {:induction false} FinalIs(t: Triple)
    ensures var c1 := Sub(Xor(t.c, t.b), Rol(t.b, 14));
            var a1 := Sub(Xor(t.a, c1), Rol(c1, 11));
            var b1 := Sub(Xor(t.b, a1), Rol(a1, 25));
            var c2 := Sub(Xor(c1, b1), Rol(b1, 16));
            var a2 := Sub(Xor(a1, c2), Rol(c2, 4));
            var b2 := Sub(Xor(b1, a2), Rol(a2, 14));
            var c3 := Sub(Xor(c2, b2), Rol(b2, 24));
            Final(t) == Triple(a2, b2, c3)
  {
  }

  // -------------------------------------------------------------------- values

  /** One value of the mixing macro. */
  lemma {:induction false} MixValue()
    ensures Mix(Triple(0x1, 0x0, 0x0)) == Triple(0xbfbe7f3a, 0x7d633d2b, 0x9810de96)
  {
    assert Stir(Triple(0x1, 0x0, 0x0), 4) == Triple(0x0, 0x0, 0x1);
    assert Stir(Triple(0x0, 0x0, 0x1), 6) == Triple(0x0, 0x1, 0xffffffbf);
    assert Stir(Triple(0x0, 0x1, 0xffffffbf), 8) == Triple(0x1, 0xffffffc0, 0xffffbfbe);
    assert Stir(Triple(0x1, 0xffffffc0, 0xffffbfbe), 16) == Triple(0xffffffc0, 0xffffbf7e, 0xbfbebfbc);
    assert Stir(Triple(0xffffffc0, 0xffffbf7e, 0xbfbebfbc), 19) == Triple(0xffffbf7e, 0xbfbe7f3a, 0xbda4bdf1);
    assert Stir(Triple(0xffffbf7e, 0xbfbe7f3a, 0xbda4bdf1), 4) == Triple(0xbfbe7f3a, 0x7d633d2b, 0x9810de96);
  }

  /** One of the final macro. */
  lemma {:induction false} FinalValue()
    ensures Final(Triple(0x1, 0x0, 0x0)) == Triple(0x1e1de1e1, 0x67a59a59, 0x40f3f2be)
  {
    assert Fold(Triple(0x0, 0x1, 0x0), 14) == Triple(0x1, 0x0, 0x0);
    assert Fold(Triple(0x1, 0x0, 0x0), 11) == Triple(0x0, 0x0, 0x1);
    assert Fold(Triple(0x0, 0x0, 0x1), 25) == Triple(0x0, 0x1, 0xfe000001);
    assert Fold(Triple(0x0, 0x1, 0xfe000001), 16) == Triple(0x1, 0xfe000001, 0xfdfe0201);
    assert Fold(Triple(0x1, 0xfe000001, 0xfdfe0201), 4) == Triple(0xfe000001, 0xfdfe0201, 0x1e1de1e1);
    assert Fold(Triple(0xfe000001, 0xfdfe0201, 0x1e1de1e1), 14) == Triple(0xfdfe0201, 0x1e1de1e1, 0x67a59a59);
    assert Fold(Triple(0xfdfe0201, 0x1e1de1e1, 0x67a59a59), 24) == Triple(0x1e1de1e1, 0x67a59a59, 0x40f3f2be);
  }

  lemma {:induction false} MixOfWords()
    ensures Mix(Triple(0xdeadbf00, 0xdeadbf01, 0xdeadbf02)) == Triple(0xdc01260d, 0xf13d0a7b, 0xa7e6880a)
  {
    assert Stir(Triple(0xdeadbf00, 0xdeadbf01, 0xdeadbf02), 4) == Triple(0xdeadbf01, 0xbd5b7e03, 0x15240fd3);
    assert Stir(Triple(0xdeadbf01, 0xbd5b7e03, 0x15240fd3), 6) == Triple(0xbd5b7e03, 0xd27f8dd6, 0x808a5beb);
    assert Stir(Triple(0xbd5b7e03, 0xd27f8dd6, 0x808a5beb), 8) == Triple(0xd27f8dd6, 0x5309e9c1, 0xb68ac998);
    assert Stir(Triple(0xd27f8dd6, 0x5309e9c1, 0xb68ac998), 16) == Triple(0x5309e9c1, 0x994b359, 0xd26c72b4);
    assert Stir(Triple(0x5309e9c1, 0x994b359, 0xd26c72b4), 19) == Triple(0x994b359, 0xdc01260d, 0x153be46e);
    assert Stir(Triple(0x994b359, 0xdc01260d, 0x153be46e), 4) == Triple(0xdc01260d, 0xf13d0a7b, 0xa7e6880a);
  }

  lemma {:induction false} FinalOfWords()
    ensures Final(Triple(0xdc012611, 0xf13d0a7b, 0xa7e6880a)) == Triple(0x81d6bcf5, 0xbf826fca, 0x66491246)
  {
    assert Fold(Triple(0xa7e6880a, 0xdc012611, 0xf13d0a7b), 14) == Triple(0xdc012611, 0xf13d0a7b, 0x143c8622);
    assert Fold(Triple(0xdc012611, 0xf13d0a7b, 0x143c8622), 11) == Triple(0xf13d0a7b, 0x143c8622, 0xe40c8f92);
    assert Fold(Triple(0xf13d0a7b, 0x143c8622, 0xe40c8f92), 25) == Triple(0x143c8622, 0xe40c8f92, 0xef696cca);
    assert Fold(Triple(0x143c8622, 0xe40c8f92, 0xef696cca), 16) == Triple(0xe40c8f92, 0xef696cca, 0x8e8afb7f);
    assert Fold(Triple(0xe40c8f92, 0xef696cca, 0x8e8afb7f), 4) == Triple(0xef696cca, 0x8e8afb7f, 0x81d6bcf5);
    assert Fold(Triple(0xef696cca, 0x8e8afb7f, 0x81d6bcf5), 14) == Triple(0x8e8afb7f, 0x81d6bcf5, 0xbf826fca);
    assert Fold(Triple(0x8e8afb7f, 0x81d6bcf5, 0xbf826fca), 24) == Triple(0x81d6bcf5, 0xbf826fca, 0x66491246);
  }

  /** The hash of four words. */
  lemma {:induction false} WordsValue(k: seq<Word>)
    requires k == [1, 2, 3, 4]
    ensures HashWords(k, 0) == 0x66491246
  {
    var t, s, rest := Triple(0xdeadbeff, 0xdeadbeff, 0xdeadbeff), Triple(0xdc01260d, 0xf13d0a7b, 0xa7e6880a), k[3..];
    FourWords();
    assert AddBlock(t, k) == Triple(0xdeadbf00, 0xdeadbf01, 0xdeadbf02);
    MixOfWords();
    assert rest == [4] && AddBlock(s, rest) == Triple(0xdc012611, 0xf13d0a7b, 0xa7e6880a);
    FinalOfWords();
    assert Absorb(t, k) == Absorb(s, rest) == Final(Triple(0xdc012611, 0xf13d0a7b, 0xa7e6880a));
  }

  lemma FourWords()
    ensures Begin(Shift2(AsWord(4)), 0) == Triple(0xdeadbeff, 0xdeadbeff, 0xdeadbeff)
  {
    assert AsWord(2) == 2;
    assert AsWord(4) == 4;
  }

  lemma {:induction false} FinalOfBytes()
    ensures Final(Triple(0x43112162, 0x47152566, 0xdf19296a)) == Triple(0x59595c90, 0x2d6528af, 0x537baf85)
  {
    assert Fold(Triple(0xdf19296a, 0x43112162, 0x47152566), 14) == Triple(0x43112162, 0x47152566, 0x4eb27a47);
    assert Fold(Triple(0x43112162, 0x47152566, 0x4eb27a47), 11) == Triple(0x47152566, 0x4eb27a47, 0x79d120b0);
    assert Fold(Triple(0x47152566, 0x4eb27a47, 0x79d120b0), 25) == Triple(0x4eb27a47, 0x79d120b0, 0xddd06395);
    assert Fold(Triple(0x4eb27a47, 0x79d120b0, 0xddd06395), 16) == Triple(0x79d120b0, 0xddd06395, 0x2fcc3c02);
    assert Fold(Triple(0x79d120b0, 0xddd06395, 0x2fcc3c02), 4) == Triple(0xddd06395, 0x2fcc3c02, 0x59595c90);
    assert Fold(Triple(0xddd06395, 0x2fcc3c02, 0x59595c90), 14) == Triple(0x2fcc3c02, 0x59595c90, 0x2d6528af);
    assert Fold(Triple(0x2fcc3c02, 0x59595c90, 0x2d6528af), 24) == Triple(0x59595c90, 0x2d6528af, 0x537baf85);
  }

  /** The hash of eleven bytes, with an initial value. */
  lemma {:induction false} BytesValue(k: seq<Byte>)
    requires k == [0x61, 0x62, 0x63, 0x64, 0x65, 0x66, 0x67, 0x68, 0x69, 0x6a, 0x6b]
    ensures HashBytes(k, 7) == 0x537baf85
  {
    var t := Triple(0xdeadbf01, 0xdeadbf01, 0xdeadbf01);
    ElevenBytes();
    assert AddTail(t, k) == Triple(0x43112162, 0x47152566, 0xdf19296a);
    FinalOfBytes();
  }

  lemma ElevenBytes()
    ensures Begin(AsWord(11), 7) == Triple(0xdeadbf01, 0xdeadbf01, 0xdeadbf01)
  {
    assert AsWord(3) == 3;
    assert AsWord(6) == 6;
    assert AsWord(9) == 9;
    assert AsWord(11) == 11;
  }

  /** An empty key is not mixed. */
  lemma {:induction false} EmptyValue(initval: Word)
    ensures HashWords([], initval) == HashBytes([], initval) == 0xdeadbeef + initval
  {
    assert AsWord(0) == 0;
    assert Begin(0, initval) == Triple(0xdeadbeef + initval, 0xdeadbeef + initval, 0xdeadbeef + initval);
  }
}
