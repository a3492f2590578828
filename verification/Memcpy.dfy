/** The block-wise memory copy, on one flat memory whose indices are the addresses. */
module Memcpy {

  type Memory = seq<bv8>

  /** The two buffers of the copy in progress. Nothing outside them may be touched. */
  datatype Window = Window(dst: nat, src: nat, n: nat)

  ghost predicate Separate(w: Window, size: nat) {
    && w.dst + w.n <= size && w.src + w.n <= size
    && (w.dst + w.n <= w.src || w.src + w.n <= w.dst)
  }

  /**
   The first `k` bytes are copied, and outside the destination nothing differs from the memory at
   the start.
   */
  ghost predicate Progress(now: Memory, was: Memory, w: Window, k: nat) {
    && |now| == |was| && Separate(w, |was|) && k <= w.n
    && (forall a :: w.dst <= a < w.dst + k ==> now[a] == was[a - w.dst + w.src])
    && (forall a :: 0 <= a < |was| && !(w.dst <= a < w.dst + w.n) ==> now[a] == was[a])
  }

  /** `len` bytes at the same place of both buffers, with nothing left out before them. */
  ghost predicate Fits(w: Window, dst: int, src: int, len: nat, k: nat) {
    w.dst <= dst && dst + len <= w.dst + w.n && dst - w.dst == src - w.src && dst - w.dst <= k
  }

  ghost function Reached(w: Window, dst: int, len: nat, k: nat): nat
    requires w.dst <= dst
  {
    if dst - w.dst + len > k then dst - w.dst + len else k
  }

  // -------------------------------------------------------------- block moves

  /** A register filled from the source buffer. */
  method Load(mem: array<bv8>, src: int, len: nat, ghost was: Memory, ghost w: Window, ghost k: nat)
      returns (z: seq<bv8>)
    requires Progress(mem[..], was, w, k) && w.src <= src && src + len <= w.src + w.n
    ensures z == was[src..src + len]
  {
    z := mem[src..src + len];
    assert forall i :: 0 <= i < len ==> z[i] == mem[..][src + i] == was[src + i];
  }

  /** A register written to the destination buffer. */
  method Store(mem: array<bv8>, dst: int, z: seq<bv8>, ghost src: int, ghost was: Memory, ghost w: Window, ghost k: nat)
      returns (ghost k': nat)
    requires Progress(mem[..], was, w, k) && Fits(w, dst, src, |z|, k) && z == was[src..src + |z|]
    modifies mem
    ensures k' == Reached(w, dst, |z|, k) && Progress(mem[..], was, w, k')
  {
    k' := Reached(w, dst, |z|, k);
    ghost var before := mem[..];
    forall i | 0 <= i < |z| {
      mem[dst + i] := z[i];
    }
    StoreProgress(before, mem[..], dst, z, src, was, w, k);
  }

  lemma StoreProgress(before: Memory, after: Memory, dst: int, z: seq<bv8>, src: int, was: Memory, w: Window, k: nat)
    requires Progress(before, was, w, k) && Fits(w, dst, src, |z|, k) && z == was[src..src + |z|] && |after| == |before|
    requires forall a :: 0 <= a < |after| ==> after[a] == if dst <= a < dst + |z| then z[a - dst] else before[a]
    ensures Progress(after, was, w, Reached(w, dst, |z|, k))
  {
  }

  /** `kylin_mov16`, `kylin_mov32` and `kylin_mov64`, and the plain assignments of 1, 2, 4 and 8 bytes. */
  method Mov(mem: array<bv8>, dst: int, src: int, len: nat, ghost was: Memory, ghost w: Window, ghost k: nat)
      returns (ghost k': nat)
    requires Progress(mem[..], was, w, k) && Fits(w, dst, src, len, k)
    modifies mem
    ensures k' == Reached(w, dst, len, k) && Progress(mem[..], was, w, k')
  {
    var z := Load(mem, src, len, was, w, k);
    k' := Store(mem, dst, z, src, was, w, k);
  }

  method Mov128(mem: array<bv8>, dst: int, src: int, ghost was: Memory, ghost w: Window, ghost k: nat)
      returns (ghost k': nat)
    requires Progress(mem[..], was, w, k) && Fits(w, dst, src, 128, k)
    modifies mem
    ensures k' == Reached(w, dst, 128, k) && Progress(mem[..], was, w, k')
  {
    k' := Mov(mem, dst, src, 64, was, w, k);
    k' := Mov(mem, dst + 64, src + 64, 64, was, w, k');
  }

  method Mov256(mem: array<bv8>, dst: int, src: int, ghost was: Memory, ghost w: Window, ghost k: nat)
      returns (ghost k': nat)
    requires Progress(mem[..], was, w, k) && Fits(w, dst, src, 256, k)
    modifies mem
    ensures k' == Reached(w, dst, 256, k) && Progress(mem[..], was, w, k')
  {
    k' := Mov(mem, dst, src, 64, was, w, k);
    k' := Mov(mem, dst + 64, src + 64, 64, was, w, k');
    k' := Mov(mem, dst + 128, src + 128, 64, was, w, k');
    k' := Mov(mem, dst + 192, src + 192, 64, was, w, k');
  }

  /** One round of `kylin_mov128blocks`: all loads come before the stores. */
  method Round128(mem: array<bv8>, dst: int, src: int, ghost was: Memory, ghost w: Window, ghost k: nat)
      returns (ghost k': nat)
    requires Progress(mem[..], was, w, k) && Fits(w, dst, src, 128, k)
    modifies mem
    ensures k' == Reached(w, dst, 128, k) && Progress(mem[..], was, w, k')
  {
    var zmm0 := Load(mem, src, 64, was, w, k);
    var zmm1 := Load(mem, src + 64, 64, was, w, k);
    k' := Store(mem, dst, zmm0, src, was, w, k);
    k' := Store(mem, dst + 64, zmm1, src + 64, was, w, k');
  }

  /** `kylin_mov128blocks`. */
  method Mov128Blocks(mem: array<bv8>, dst: int, src: int, n: nat, ghost was: Memory, ghost w: Window, ghost k: nat)
      returns (ghost k': nat)
    requires Progress(mem[..], was, w, k) && Fits(w, dst, src, n, k)
    modifies mem
    ensures k' == Reached(w, dst, n - n % 128, k) && Progress(mem[..], was, w, k')
  {
    var d, s, left := dst, src, n;
    k' := k;
    while left >= 128
      invariant 0 <= left && left % 128 == n % 128 && d + left == dst + n && d - dst == s - src >= 0
      invariant Progress(mem[..], was, w, k') && k' == Reached(w, dst, d - dst, k)
    {
      k' := Round128(mem, d, s, was, w, k');
      left, s, d := left - 128, s + 128, d + 128;
    }
    assert left == n % 128;
  }

  /** One round of `kylin_mov512blocks`. */
  method Round512(mem: array<bv8>, dst: int, src: int, ghost was: Memory, ghost w: Window, ghost k: nat)
      returns (ghost k': nat)
    requires Progress(mem[..], was, w, k) && Fits(w, dst, src, 512, k)
    modifies mem
    ensures k' == Reached(w, dst, 512, k) && Progress(mem[..], was, w, k')
  {
    var zmm0, zmm1, zmm2, zmm3 := LoadFour(mem, src, was, w, k);
    var zmm4, zmm5, zmm6, zmm7 := LoadFour(mem, src + 256, was, w, k);
    k' := StoreFour(mem, dst, zmm0, zmm1, zmm2, zmm3, src, was, w, k);
    k' := StoreFour(mem, dst + 256, zmm4, zmm5, zmm6, zmm7, src + 256, was, w, k');
  }

  /** Half of the loads of a round. */
  method LoadFour(mem: array<bv8>, src: int, ghost was: Memory, ghost w: Window, ghost k: nat)
      returns (z0: seq<bv8>, z1: seq<bv8>, z2: seq<bv8>, z3: seq<bv8>)
    requires Progress(mem[..], was, w, k) && w.src <= src && src + 256 <= w.src + w.n
    ensures z0 == was[src..src + 64] && z1 == was[src + 64..src + 128]
    ensures z2 == was[src + 128..src + 192] && z3 == was[src + 192..src + 256]
  {
    z0 := Load(mem, src, 64, was, w, k);
    z1 := Load(mem, src + 64, 64, was, w, k);
    z2 := Load(mem, src + 128, 64, was, w, k);
    z3 := Load(mem, src + 192, 64, was, w, k);
  }

  /** Half of the stores of a round. */
  method StoreFour(mem: array<bv8>, dst: int, z0: seq<bv8>, z1: seq<bv8>, z2: seq<bv8>, z3: seq<bv8>,
                   ghost src: int, ghost was: Memory, ghost w: Window, ghost k: nat) returns (ghost k': nat)
    requires Progress(mem[..], was, w, k) && Fits(w, dst, src, 256, k)
    requires z0 == was[src..src + 64] && z1 == was[src + 64..src + 128]
    requires z2 == was[src + 128..src + 192] && z3 == was[src + 192..src + 256]
    modifies mem
    ensures k' == Reached(w, dst, 256, k) && Progress(mem[..], was, w, k')
  {
    k' := Store(mem, dst, z0, src, was, w, k);
    k' := Store(mem, dst + 64, z1, src + 64, was, w, k');
    k' := Store(mem, dst + 128, z2, src + 128, was, w, k');
    k' := Store(mem, dst + 192, z3, src + 192, was, w, k');
  }

  /** `kylin_mov512blocks`. */
  method Mov512Blocks(mem: array<bv8>, dst: int, src: int, n: nat, ghost was: Memory, ghost w: Window, ghost k: nat)
      returns (ghost k': nat)
    requires Progress(mem[..], was, w, k) && Fits(w, dst, src, n, k)
    modifies mem
    ensures k' == Reached(w, dst, n - n % 512, k) && Progress(mem[..], was, w, k')
  {
    var d, s, left := dst, src, n;
    k' := k;
    while left >= 512
      invariant 0 <= left && left % 512 == n % 512 && d + left == dst + n && d - dst == s - src >= 0
      invariant Progress(mem[..], was, w, k') && k' == Reached(w, dst, d - dst, k)
    {
      k' := Round512(mem, d, s, was, w, k');
      left, s, d := left - 512, s + 512, d + 512;
    }
    assert left == n % 512;
  }

  // -------------------------------------------------------------- size classes

  /** `n & 1`, `n & 2`, `n & 4` and `n & 8`, as the digits they test. */
  method Bits(n: nat) returns (b0: nat, b1: nat, b2: nat, b3: nat)
    requires n < 16
    ensures n == b0 + 2 * b1 + 4 * b2 + 8 * b3 && b0 <= 1 && b1 <= 1 && b2 <= 1 && b3 <= 1
  {
    b0, b1, b2, b3 := n % 2, n / 2 % 2, n / 4 % 2, n / 8 % 2;
  }

  /** Less than 16 bytes: one assignment for every bit of `n`. */
  method Small(mem: array<bv8>, dst: nat, src: nat, n: nat, ghost was: Memory, ghost w: Window)
    requires n < 16 && w == Window(dst, src, n) && Progress(mem[..], was, w, 0)
    modifies mem
    ensures Progress(mem[..], was, w, n)
  {
    var b0, b1, b2, b3 := Bits(n);
    var d, s := dst, src;
    ghost var k := 0;
    if b0 != 0 {
      k := Mov(mem, d, s, 1, was, w, k);
      d, s := d + 1, s + 1;
    }
    if b1 != 0 {
      k := Mov(mem, d, s, 2, was, w, k);
      d, s := d + 2, s + 2;
    }
    if b2 != 0 {
      k := Mov(mem, d, s, 4, was, w, k);
      d, s := d + 4, s + 4;
    }
    if b3 != 0 {
      k := Mov(mem, d, s, 8, was, w, k);
    }
  }

  /** Two moves of `len` bytes, one from each end; they overlap unless `n` is twice `len`. */
  method BothEnds(mem: array<bv8>, dst: nat, src: nat, n: nat, len: nat, ghost was: Memory, ghost w: Window)
    requires len <= n <= 2 * len && w == Window(dst, src, n) && Progress(mem[..], was, w, 0)
    modifies mem
    ensures Progress(mem[..], was, w, n)
  {
    ghost var k := Mov(mem, dst, src, len, was, w, 0);
    k := Mov(mem, dst - len + n, src - len + n, len, was, w, k);
  }

  /** What follows the label `COPY_BLOCK_128_BACK63`: the last move may reach back before `dst`. */
  method Back63(mem: array<bv8>, dst: int, src: int, n: nat, ghost was: Memory, ghost w: Window, ghost k: nat)
    requires Progress(mem[..], was, w, k) && Fits(w, dst, src, n, k)
    requires dst + n == w.dst + w.n && n <= 128 && w.n >= 64
    modifies mem
    ensures Progress(mem[..], was, w, w.n)
  {
    if n > 64 {
      ghost var k' := Mov(mem, dst, src, 64, was, w, k);
      k' := Mov(mem, dst - 64 + n, src - 64 + n, 64, was, w, k');
      return;
    }
    if n > 0 {
      ghost var _ := Mov(mem, dst - 64 + n, src - 64 + n, 64, was, w, k);
    }
  }

  method UpTo512(mem: array<bv8>, dst: nat, src: nat, n: nat, ghost was: Memory, ghost w: Window)
    requires 64 < n <= 512 && w == Window(dst, src, n) && Progress(mem[..], was, w, 0)
    modifies mem
    ensures Progress(mem[..], was, w, n)
  {
    var d, s, left := dst, src, n;
    ghost var k := 0;
    if left >= 256 {
      left := left - 256;
      k := Mov256(mem, d, s, was, w, k);
      s, d := s + 256, d + 256;
    }
    if left >= 128 {
      left := left - 128;
      k := Mov128(mem, d, s, was, w, k);
      s, d := s + 128, d + 128;
    }
    Back63(mem, d, s, left, was, w, k);
  }

  /** More than 512 bytes: the first move makes the rest of the destination aligned. */
  method Large(mem: array<bv8>, dst: nat, src: nat, n: nat, ghost was: Memory, ghost w: Window)
    requires n > 512 && w == Window(dst, src, n) && Progress(mem[..], was, w, 0)
    modifies mem
    ensures Progress(mem[..], was, w, n)
  {
    var d, s, left := dst, src, n;
    ghost var k := 0;
    var dstofss := dst % 64;
    if dstofss > 0 {
      dstofss := 64 - dstofss;
      left := left - dstofss;
      k := Mov(mem, d, s, 64, was, w, k);
      s, d := s + dstofss, d + dstofss;
    }
    assert d % 64 == 0;
    k := Mov512Blocks(mem, d, s, left, was, w, k);
    var bits := left;
    left := left % 512;
    bits := bits - left;
    s, d := s + bits, d + bits;
    if left >= 128 {
      k := Mov128Blocks(mem, d, s, left, was, w, k);
      bits := left;
      left := left % 128;
      bits := bits - left;
      s, d := s + bits, d + bits;
    }
    Back63(mem, d, s, left, was, w, k);
  }

  ghost predicate Copied(now: Memory, was: Memory, dst: nat, src: nat, n: nat)
    requires dst + n <= |was| && src + n <= |was|
  {
    && |now| == |was|
    && now[dst..dst + n] == was[src..src + n]
    && now[..dst] == was[..dst] && now[dst + n..] == was[dst + n..]
  }

  lemma ProgressIsCopied(now: Memory, was: Memory, w: Window)
    requires Progress(now, was, w, w.n)
    ensures Copied(now, was, w.dst, w.src, w.n)
  {
    var x, y := now[w.dst..w.dst + w.n], was[w.src..w.src + w.n];
    forall i | 0 <= i < w.n ensures x[i] == y[i] {
      assert now[w.dst + i] == was[w.dst + i - w.dst + w.src];
    }
  }

  /** `kylin_memcpy_generic`. */
  method CopyGeneric(mem: array<bv8>, dst: nat, src: nat, n: nat) returns (ret: nat)
    requires Separate(Window(dst, src, n), mem.Length)
    modifies mem
    ensures ret == dst && Copied(mem[..], old(mem[..]), dst, src, n)
  {
    ghost var was, w := mem[..], Window(dst, src, n);
    if n < 16 {
      Small(mem, dst, src, n, was, w);
    } else if n <= 32 {
      BothEnds(mem, dst, src, n, 16, was, w);
    } else if n <= 64 {
      BothEnds(mem, dst, src, n, 32, was, w);
    } else if n <= 512 {
      UpTo512(mem, dst, src, n, was, w);
    } else {
      Large(mem, dst, src, n, was, w);
    }
    ProgressIsCopied(mem[..], was, w);
    return dst;
  }

  /** 64-byte blocks, and one more move that ends with the buffer. */
  method Blocks64(mem: array<bv8>, dst: nat, src: nat, n: nat, ghost was: Memory, ghost w: Window)
    requires n > 64 && w == Window(dst, src, n) && Progress(mem[..], was, w, 0)
    modifies mem
    ensures Progress(mem[..], was, w, n)
  {
    var d, s, left := dst, src, n;
    ghost var k := 0;
    while left >= 64
      invariant d + left == dst + n && d - dst == s - src >= 0 && (left < 64 ==> d - dst >= 64)
      invariant Progress(mem[..], was, w, k) && k == d - dst
    {
      k := Mov(mem, d, s, 64, was, w, k);
      d, s := d + 64, s + 64;
      left := left - 64;
    }
    k := Mov(mem, d - 64 + left, s - 64 + left, 64, was, w, k);
  }

  /** `kylin_memcpy_aligned`. */
  method CopyAligned(mem: array<bv8>, dst: nat, src: nat, n: nat) returns (ret: nat)
    requires Separate(Window(dst, src, n), mem.Length)
    modifies mem
    ensures ret == dst && Copied(mem[..], old(mem[..]), dst, src, n)
  {
    ghost var was, w := mem[..], Window(dst, src, n);
    if n < 16 {
      Small(mem, dst, src, n, was, w);
    } else if n <= 32 {
      BothEnds(mem, dst, src, n, 16, was, w);
    } else if n <= 64 {
      BothEnds(mem, dst, src, n, 32, was, w);
    } else {
      Blocks64(mem, dst, src, n, was, w);
    }
    ProgressIsCopied(mem[..], was, w);
    return dst;
  }

  /** `kylin_memcpy`: for every size and alignment, what a copy byte by byte would do. */
  method Copy(mem: array<bv8>, dst: nat, src: nat, n: nat) returns (ret: nat)
    requires Separate(Window(dst, src, n), mem.Length)
    modifies mem
    ensures ret == dst && Copied(mem[..], old(mem[..]), dst, src, n)
  {
    if dst % 64 == 0 && src % 64 == 0 {
      ret := CopyAligned(mem, dst, src, n);
    } else {
      ret := CopyGeneric(mem, dst, src, n);
    }
  }
}
