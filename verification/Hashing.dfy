/** Chained block hashing of prompts (gateway/hashing.py). */
module Hashing {
  import opened Basics
  import opened Bits

  /** FNV-1a as a fold over the bytes. */
  function Fnv(data: Bytes): bv64 {
    if data == [] then 0xCBF29CE484222325 else FnvStep(Fnv(data[..|data| - 1]), data[|data| - 1])
  }

  method Fnv1a(data: Bytes) returns (h: bv64)
    ensures h == Fnv(data)
  {
    h := 0xCBF29CE484222325;
    for i := 0 to |data|
      invariant h == Fnv(data[..i])
    {
      assert data[..i + 1][..i] == data[..i];
      h := FnvStep(h, data[i]);
    }
    assert data[..|data|] == data;
  }

  /** The `k`-th block of `size` bytes. */
  function Block(raw: Bytes, size: nat, k: nat): (r: Bytes)
    requires (k + 1) * size <= |raw|
    ensures |r| == size
  {
    assert (k + 1) * size == k * size + size;
    assert 0 <= k * size;
    raw[k * size..(k + 1) * size]
  }

  /** What is hashed for block `k`: the hash of the block before it, or the seed, then the block. */
  function ChainInput(raw: Bytes, size: nat, seed: bv64, k: nat): (r: Bytes)
    requires (k + 1) * size <= |raw|
    ensures |r| == 8 + size
    decreases k, 0
  {
    var prev := if k == 0 then seed else assert k * size <= (k + 1) * size; ChainHash(raw, size, seed, k - 1);
    LittleEndian(prev) + Block(raw, size, k)
  }

  /** The chained hash of block `k`. */
  function ChainHash(raw: Bytes, size: nat, seed: bv64, k: nat): bv64
    requires (k + 1) * size <= |raw|
    decreases k, 1
  {
    Fnv(ChainInput(raw, size, seed, k))
  }

  /** Byte `i` of a seed, the least significant first; negative seeds count in two's complement. */
  function SeedByte(seed: int, i: nat): bv8
    decreases i
  {
    if i == 0 then ByteOf(seed % 256) else SeedByte(seed / 256, i - 1)
  }

  /** The low 64 bits of a seed. */
  function Mask(seed: int): bv64 {
    FromBytes(SeedByte(seed, 0), SeedByte(seed, 1), SeedByte(seed, 2), SeedByte(seed, 3),
              SeedByte(seed, 4), SeedByte(seed, 5), SeedByte(seed, 6), SeedByte(seed, 7))
  }

  /** How many blocks are hashed: full blocks only, cut off at `cutoff`. */
  function BlockCount(len: nat, size: int, cutoff: int): (n: int)
    requires size != 0
    ensures n <= cutoff
    ensures 0 < n ==> 0 < size && n * size <= len
    ensures n < cutoff && 0 < size ==> len < (n + 1) * size
  {
    var full := len / size;
    assert 0 < size ==> full * size <= len < full * size + size;
    assert size < 0 ==> full <= 0 by {
      if size < 0 && full > 0 { MulNegative(full, size); }
    }
    if full < cutoff then full else
      (assert 0 < size && 0 < cutoff ==> cutoff * size <= full * size by {
         if 0 < size && 0 < cutoff { IntMulMono(cutoff, full, size); }
       }
       cutoff)
  }

  lemma MulNegative(a: int, b: int)
    requires 0 < a && b < 0
    ensures a * b <= b
  {
  }

  /** `v` is the chained hash of block `k` of `raw`. */
  ghost predicate IsHash(raw: Bytes, size: int, seed: bv64, k: nat, v: bv64) {
    0 < size && (k + 1) * size <= |raw| && v == ChainHash(raw, size, seed, k)
  }

  lemma NextHash(raw: Bytes, size: int, cutoff: int, seed: bv64, k: nat, prev: bv64)
    requires size != 0 && k < BlockCount(|raw|, size, cutoff)
    requires if k == 0 then prev == seed else IsHash(raw, size, seed, k - 1, prev)
    ensures 0 < size && (k + 1) * size <= |raw|
    ensures IsHash(raw, size, seed, k, Fnv(LittleEndian(prev) + Block(raw, size, k)))
  {
    hide Fnv, LittleEndian, Block, BlockCount;
    IntMulMono(k + 1, BlockCount(|raw|, size, cutoff), size);
    assert ChainInput(raw, size, seed, k) == LittleEndian(prev) + Block(raw, size, k);
  }

  method BlockHashes(raw: Bytes, size: int, cutoff: int, seed: int) returns (out: seq<bv64>)
    requires size != 0
    ensures |out| == (if BlockCount(|raw|, size, cutoff) < 0 then 0 else BlockCount(|raw|, size, cutoff))
    ensures forall k :: 0 <= k < |out| ==> IsHash(raw, size, Mask(seed), k, out[k])
  {
    hide IsHash, Fnv, LittleEndian, Block, Mask, BlockCount;
    var n := BlockCount(|raw|, size, cutoff);
    out := [];
    var prev := Mask(seed);
    for i := 0 to (if n < 0 then 0 else n)
      invariant |out| == i
      invariant forall k :: 0 <= k < i ==> IsHash(raw, size, Mask(seed), k, out[k])
      invariant prev == if i == 0 then Mask(seed) else out[i - 1]
    {
      NextHash(raw, size, cutoff, Mask(seed), i, prev);
      prev := Fnv1a(LittleEndian(prev) + Block(raw, size, i));
      out := out + [prev];
    }
  }

  lemma SplitEqual(a: Bytes, b: Bytes, c: Bytes, d: Bytes)
    requires |a| == |c| && a + b == c + d
    ensures a == c && b == d
  {
    assert (a + b)[..|a|] == a && (c + d)[..|a|] == c;
    assert (a + b)[|a|..] == b && (c + d)[|a|..] == d;
  }

  /** A block's hash depends only on the bytes up to the end of that block. */
  lemma {:induction false} ChainHashLocal(p: Bytes, q: Bytes, size: nat, seed: bv64, k: nat)
    requires (k + 1) * size <= |p| && (k + 1) * size <= |q|
    requires p[..(k + 1) * size] == q[..(k + 1) * size]
    ensures ChainHash(p, size, seed, k) == ChainHash(q, size, seed, k)
    decreases k
  {
    hide Fnv, LittleEndian, Block;
    BlockSplit(p, size, k);
    BlockSplit(q, size, k);
    SplitEqual(p[..k * size], Block(p, size, k), q[..k * size], Block(q, size, k));
    if k > 0 {
      ChainHashLocal(p, q, size, seed, k - 1);
    }
  }

  /** A longer prompt has at least as many hashed blocks. */
  lemma BlockCountMonotone(m: nat, n: nat, size: int, cutoff: int)
    requires size != 0 && m <= n
    ensures BlockCount(m, size, cutoff) <= BlockCount(n, size, cutoff) || BlockCount(m, size, cutoff) <= 0
  {
    var a, b := BlockCount(m, size, cutoff), BlockCount(n, size, cutoff);
    if 0 < a && b < a {
      IntMulMono(b + 1, a, size);
      assert false;
    }
  }

  /** Extending a prompt extends its list of hashes. */
  method HashBoth(p: Bytes, q: Bytes, size: int, cutoff: int, seed: int) returns (hp: seq<bv64>, hq: seq<bv64>)
    requires size != 0 && p <= q
    ensures hp <= hq
    ensures |hp| == (if BlockCount(|p|, size, cutoff) < 0 then 0 else BlockCount(|p|, size, cutoff))
  {
    hide Mask, SeedByte;
    hp := BlockHashes(p, size, cutoff, seed);
    hq := BlockHashes(q, size, cutoff, seed);
    BlockCountMonotone(|p|, |q|, size, cutoff);
    forall k | 0 <= k < |hp| ensures hp[k] == hq[k] {
      assert IsHash(p, size, Mask(seed), k, hp[k]) && IsHash(q, size, Mask(seed), k, hq[k]);
      var n := (k + 1) * size;
      assert p[..n] == q[..n];
      ChainHashLocal(p, q, size, Mask(seed), k);
    }
  }

  lemma SameInput(g: bv64, h: bv64, a: Bytes, b: Bytes)
    requires LittleEndian(g) + a == LittleEndian(h) + b
    ensures g == h && a == b
  {
    hide LittleEndian;
    var x, y := LittleEndian(g) + a, LittleEndian(h) + b;
    assert x[..8] == LittleEndian(g) && y[..8] == LittleEndian(h);
    assert x[8..] == a && y[8..] == b;
    LittleEndianInjective(g, h);
  }

  lemma BlockSplit(p: Bytes, size: nat, k: nat)
    requires (k + 1) * size <= |p|
    ensures (k + 1) * size == k * size + size && 0 <= k * size
    ensures p[..(k + 1) * size] == p[..k * size] + Block(p, size, k)
  {
  }

  /** At block `i` the two chains feed FNV-1a different inputs that it does not tell apart. */
  ghost predicate CollideAt(p: Bytes, q: Bytes, size: nat, s: bv64, t: bv64, i: nat) {
    && (i + 1) * size <= |p| && (i + 1) * size <= |q|
    && ChainInput(p, size, s, i) != ChainInput(q, size, t, i)
    && Fnv(ChainInput(p, size, s, i)) == Fnv(ChainInput(q, size, t, i))
  }

  ghost predicate SameBlock(p: Bytes, q: Bytes, size: nat, m: nat) {
    (m + 1) * size <= |p| && (m + 1) * size <= |q| && Block(p, size, m) == Block(q, size, m)
  }

  /** Prefix-exactness: two prompts that agree in the hash of block `k` alone have the same seed and are
      identical up to the end of that block, or else their own inputs collide at a block `i <= k` after
      which they are identical. */
  lemma {:induction false} ChainExact(p: Bytes, q: Bytes, size: nat, s: bv64, t: bv64, k: nat) returns (i: nat)
    requires (k + 1) * size <= |p| && (k + 1) * size <= |q|
    requires ChainHash(p, size, s, k) == ChainHash(q, size, t, k)
    ensures i <= k
    ensures || (s == t && p[..(k + 1) * size] == q[..(k + 1) * size])
            || (CollideAt(p, q, size, s, t, i) && forall m :: i < m <= k ==> SameBlock(p, q, size, m))
    decreases k
  {
    hide Fnv, LittleEndian, Block;
    BlockSplit(p, size, k);
    BlockSplit(q, size, k);
    if ChainInput(p, size, s, k) != ChainInput(q, size, t, k) {
      return k;
    }
    var prevP := if k == 0 then s else ChainHash(p, size, s, k - 1);
    var prevQ := if k == 0 then t else ChainHash(q, size, t, k - 1);
    SameInput(prevP, prevQ, Block(p, size, k), Block(q, size, k));
    assert SameBlock(p, q, size, k);
    i := 0;
    if k > 0 {
      i := ChainExact(p, q, size, s, t, k - 1);
    }
  }

  /** Conversely a collision followed by identical blocks goes unnoticed. */
  lemma {:induction false} CollisionHidden(p: Bytes, q: Bytes, size: nat, s: bv64, t: bv64, i: nat, k: nat)
    requires CollideAt(p, q, size, s, t, i) && i <= k && forall m :: i < m <= k ==> SameBlock(p, q, size, m)
    ensures (k + 1) * size <= |p| && (k + 1) * size <= |q|
    ensures ChainHash(p, size, s, k) == ChainHash(q, size, t, k)
    decreases k
  {
    hide Fnv, LittleEndian, Block;
    if i < k {
      CollisionHidden(p, q, size, s, t, i, k - 1);
      assert SameBlock(p, q, size, k);
    }
  }

  // ------------------------------------------------------------------ what the hash tells apart

  /** Inputs that differ in exactly one byte have different hashes. */
  lemma {:induction false} OneByteDiffers(head: Bytes, a: bv8, b: bv8, tail: Bytes)
    requires a != b
    ensures Fnv(head + [a] + tail) != Fnv(head + [b] + tail)
    decreases |tail|
  {
    hide FnvStep;
    var p, q := head + [a] + tail, head + [b] + tail;
    if tail == [] {
      assert p[..|p| - 1] == head && q[..|q| - 1] == head;
      StepInjective(Fnv(head), Fnv(head), a, b);
    } else {
      var t, z := tail[..|tail| - 1], tail[|tail| - 1];
      OneByteDiffers(head, a, b, t);
      assert p[..|p| - 1] == head + [a] + t && q[..|q| - 1] == head + [b] + t;
      StepInjective(Fnv(head + [a] + t), Fnv(head + [b] + t), z, z);
    }
  }

  lemma FnvSnoc(s: Bytes, b: bv8)
    ensures Fnv(s + [b]) == FnvStep(Fnv(s), b)
  {
    assert (s + [b])[..|s|] == s;
  }

  /** Published test vectors of 64-bit FNV-1a: the empty input, "a" and "foobar". */
  lemma TestVectors()
    ensures Fnv([]) == 0xCBF29CE484222325
    ensures Fnv([0x61]) == 0xAF63DC4C8601EC8C
    ensures Fnv([0x66, 0x6F, 0x6F, 0x62, 0x61, 0x72]) == 0x85944171F73967E8
  {
    Vector0();
    FirstByte(0x61);
    FirstByte(0x66);
    Vector1();
    MoreBytes();
  }

  lemma FirstByte(b: bv8)
    ensures Fnv([]) == 0xCBF29CE484222325 && Fnv([b]) == FnvStep(0xCBF29CE484222325, b)
  {
    hide FnvStep;
    FnvSnoc([], b);
    assert [] + [b] == [b];
  }

  /** Two more bytes. */
  lemma FnvTwo(s: Bytes, b: bv8, c: bv8, t: Bytes)
    requires t == s + [b] + [c]
    ensures Fnv(t) == FnvStep(FnvStep(Fnv(s), b), c)
  {
    hide Fnv, FnvStep;
    FnvSnoc(s, b);
    FnvSnoc(s + [b], c);
  }

  lemma MoreBytes()
    requires Fnv([0x66]) == 0xAF63DB4C8601EAD9
    ensures Fnv([0x66, 0x6F, 0x6F, 0x62, 0x61, 0x72]) == 0x85944171F73967E8
  {
    hide Fnv, FnvStep;
    var foob, foobar: Bytes := [0x66, 0x6F, 0x6F, 0x62], [0x66, 0x6F, 0x6F, 0x62, 0x61, 0x72];
    FnvTwo([0x66], 0x6F, 0x6F, [0x66, 0x6F, 0x6F]);
    Vector2();
    Vector3();
    FnvSnoc([0x66, 0x6F, 0x6F], 0x62);
    assert [0x66, 0x6F, 0x6F] + [0x62] == foob;
    Vector4();
    FnvTwo(foob, 0x61, 0x72, foobar);
    Vector5();
    Vector6();
  }

  /** The bytes of the masked seed are the low eight bytes of the seed. */
  lemma MaskBytes(seed: int)
    ensures LittleEndian(Mask(seed)) ==
      [SeedByte(seed, 0), SeedByte(seed, 1), SeedByte(seed, 2), SeedByte(seed, 3),
       SeedByte(seed, 4), SeedByte(seed, 5), SeedByte(seed, 6), SeedByte(seed, 7)]
  {
    hide SeedByte;
    BytesBack(SeedByte(seed, 0), SeedByte(seed, 1), SeedByte(seed, 2), SeedByte(seed, 3),
              SeedByte(seed, 4), SeedByte(seed, 5), SeedByte(seed, 6), SeedByte(seed, 7));
  }

  function Pow256(k: nat): nat {
    if k == 0 then 1 else 256 * Pow256(k - 1)
  }

  /** Splitting off the lowest byte of a remainder. */
  lemma ModSplit(s: int, m: nat)
    requires m > 0
    ensures s % (256 * m) == 256 * ((s / 256) % m) + s % 256
  {
    var q, r := s / 256 / m, (s / 256) % m;
    assert s / 256 == m * q + r;
    assert s == (256 * m) * q + (256 * r + s % 256);
    ModUnique(s, 256 * m, q, 256 * r + s % 256);
  }

  lemma ModUnique(s: int, n: nat, q: int, r: int)
    requires n > 0 && s == n * q + r && 0 <= r < n
    ensures s % n == r
  {
    var q', r' := s / n, s % n;
    assert n * (q - q') == r' - r;
    if q - q' >= 1 { IntMulMono(1, q - q', n); }
    if q - q' <= -1 { IntMulMono(q - q', -1, n); }
  }

  ghost predicate SameLow(s: int, t: int, k: nat) {
    forall i {:trigger SeedByte(s, i)} :: 0 <= i < k ==> SeedByte(s, i) == SeedByte(t, i)
  }

  lemma LowSplit(s: int, t: int, k: nat)
    requires k > 0
    ensures SameLow(s, t, k) <==> s % 256 == t % 256 && SameLow(s / 256, t / 256, k - 1)
  {
    ByteInjective(s % 256, t % 256);
    assert SeedByte(s, 0) == ByteOf(s % 256) && SeedByte(t, 0) == ByteOf(t % 256);
    hide ByteOf;
    if SameLow(s, t, k) {
      assert SeedByte(s, 0) == SeedByte(t, 0);
      forall i | 0 <= i < k - 1 ensures SeedByte(s / 256, i) == SeedByte(t / 256, i) {
        assert SeedByte(s, i + 1) == SeedByte(t, i + 1);
      }
    }
    if s % 256 == t % 256 && SameLow(s / 256, t / 256, k - 1) {
      forall i | 0 <= i < k ensures SeedByte(s, i) == SeedByte(t, i) {
        if i > 0 { assert SeedByte(s / 256, i - 1) == SeedByte(t / 256, i - 1); }
      }
    }
  }

  /** Seeds agree in their low bytes exactly when they agree modulo the power. */
  lemma {:induction false} SameBytes(s: int, t: int, k: nat)
    ensures Pow256(k) > 0
    ensures SameLow(s, t, k) <==> s % Pow256(k) == t % Pow256(k)
    decreases k
  {
    hide SeedByte, SameLow;
    if k > 0 {
      SameBytes(s / 256, t / 256, k - 1);
      LowSplit(s, t, k);
      ModSplit(s, Pow256(k - 1));
      ModSplit(t, Pow256(k - 1));
    } else {
      NoneLow(s, t);
    }
  }

  lemma NoneLow(s: int, t: int)
    ensures SameLow(s, t, 0)
  {
  }

  /** What is hashed for the first block. */
  function FirstInput(raw: Bytes, size: nat, seed: bv64): Bytes
    requires size <= |raw|
  {
    ChainInput(raw, size, seed, 0)
  }

  /** Tenants are kept apart: seeds that differ modulo 2^64 give the first blocks different inputs, whatever
      the prompts are, and seeds equal modulo 2^64 give the same chain. */
  lemma SeedsSeparate(p: Bytes, q: Bytes, size: nat, s: int, t: int)
    requires size <= |p| && size <= |q|
    ensures FirstInput(p, size, Mask(s)) == FirstInput(q, size, Mask(t)) ==>
      s % 0x1_0000_0000_0000_0000 == t % 0x1_0000_0000_0000_0000
    ensures s % 0x1_0000_0000_0000_0000 == t % 0x1_0000_0000_0000_0000 ==> Mask(s) == Mask(t)
  {
    hide LittleEndian, Block, SeedByte, FromBytes, Mask;
    SameBytes(s, t, 8);
    PowerIs();
    if SameLow(s, t, 8) { SameMask(s, t); }
    if FirstInput(p, size, Mask(s)) == FirstInput(q, size, Mask(t)) {
      MaskBytes(s);
      MaskBytes(t);
      SplitEqual(LittleEndian(Mask(s)), Block(p, size, 0), LittleEndian(Mask(t)), Block(q, size, 0));
      EightEqual(s, t);
    }
  }

  lemma SameMask(s: int, t: int)
    requires SameLow(s, t, 8)
    ensures Mask(s) == Mask(t)
  {
    hide SeedByte, FromBytes;
    assert SeedByte(s, 0) == SeedByte(t, 0) && SeedByte(s, 1) == SeedByte(t, 1);
    assert SeedByte(s, 2) == SeedByte(t, 2) && SeedByte(s, 3) == SeedByte(t, 3);
    assert SeedByte(s, 4) == SeedByte(t, 4) && SeedByte(s, 5) == SeedByte(t, 5);
    assert SeedByte(s, 6) == SeedByte(t, 6) && SeedByte(s, 7) == SeedByte(t, 7);
  }

  lemma PowerIs()
    ensures Pow256(8) == 0x1_0000_0000_0000_0000
  {
    assert Pow256(4) == 0x1_0000_0000;
  }

  lemma EightEqual(s: int, t: int)
    requires [SeedByte(s, 0), SeedByte(s, 1), SeedByte(s, 2), SeedByte(s, 3),
              SeedByte(s, 4), SeedByte(s, 5), SeedByte(s, 6), SeedByte(s, 7)] ==
             [SeedByte(t, 0), SeedByte(t, 1), SeedByte(t, 2), SeedByte(t, 3),
              SeedByte(t, 4), SeedByte(t, 5), SeedByte(t, 6), SeedByte(t, 7)]
    ensures SameLow(s, t, 8)
  {
    hide SeedByte;
    var x := [SeedByte(s, 0), SeedByte(s, 1), SeedByte(s, 2), SeedByte(s, 3),
              SeedByte(s, 4), SeedByte(s, 5), SeedByte(s, 6), SeedByte(s, 7)];
    var y := [SeedByte(t, 0), SeedByte(t, 1), SeedByte(t, 2), SeedByte(t, 3),
              SeedByte(t, 4), SeedByte(t, 5), SeedByte(t, 6), SeedByte(t, 7)];
    assert x[0] == y[0] && x[1] == y[1] && x[2] == y[2] && x[3] == y[3];
    assert x[4] == y[4] && x[5] == y[5] && x[6] == y[6] && x[7] == y[7];
  }
}
