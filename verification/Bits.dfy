/** The bit-level steps of hashing, apart from everything else: 64-bit arithmetic is `bv64`, that is, exclusive
or and multiplication that keeps the low 64 bits. */
module Bits {

  type Bytes = seq<bv8>

  function TimesPrime(h: bv64): bv64 {
    h * 0x100000001B3
  }

  function Mix(h: bv64, byte: bv8): bv64 {
    h ^ (byte as bv64)
  }

  /** One byte of FNV-1a. */
  function FnvStep(h: bv64, byte: bv8): bv64 {
    TimesPrime(Mix(h, byte))
  }

  /** Multiplication by the inverse of the prime modulo 2^64. */
  function Unprime(h: bv64): bv64 {
    h * 0xCE965057AFF6957B
  }

  lemma InverseOfPrime(x: bv64)
    ensures (x * 0x100000001B3) * 0xCE965057AFF6957B == x
  {
  }

  lemma UnprimePrime(x: bv64)
    ensures Unprime(TimesPrime(x)) == x
  {
    InverseOfPrime(x);
    assert Unprime(x * 0x100000001B3) == x;
  }

  lemma PrimeInjective(x: bv64, y: bv64)
    requires TimesPrime(x) == TimesPrime(y)
    ensures x == y
  {
    hide TimesPrime, Unprime;
    UnprimePrime(x);
    UnprimePrime(y);
  }

  lemma MixInjective(g: bv64, h: bv64, a: bv8, b: bv8)
    ensures Mix(g, a) == Mix(g, b) ==> a == b
    ensures Mix(g, a) == Mix(h, a) ==> g == h
  {
  }

  /** One step loses nothing: it tells apart both hashes and bytes. */
  lemma StepInjective(g: bv64, h: bv64, a: bv8, b: bv8)
    ensures g != h ==> FnvStep(g, a) != FnvStep(h, a)
    ensures a != b ==> FnvStep(g, a) != FnvStep(g, b)
  {
    hide TimesPrime, Mix;
    MixInjective(g, h, a, b);
    if FnvStep(g, a) == FnvStep(h, a) { PrimeInjective(Mix(g, a), Mix(h, a)); }
    if FnvStep(g, a) == FnvStep(g, b) { PrimeInjective(Mix(g, a), Mix(g, b)); }
  }

  /** The eight bytes of a hash, least significant first. */
  function LittleEndian(h: bv64): (r: Bytes)
    ensures |r| == 8
  {
    [(h & 0xFF) as bv8, ((h >> 8) & 0xFF) as bv8, ((h >> 16) & 0xFF) as bv8, ((h >> 24) & 0xFF) as bv8,
     ((h >> 32) & 0xFF) as bv8, ((h >> 40) & 0xFF) as bv8, ((h >> 48) & 0xFF) as bv8, ((h >> 56) & 0xFF) as bv8]
  }

  /** The eight bytes determine the hash. */
  lemma LittleEndianInjective(g: bv64, h: bv64)
    requires LittleEndian(g) == LittleEndian(h)
    ensures g == h
  {
    var a, b := LittleEndian(g), LittleEndian(h);
    assert forall i :: 0 <= i < 8 ==> a[i] == b[i];
    assert a[0] == b[0] && a[1] == b[1] && a[2] == b[2] && a[3] == b[3];
    assert a[4] == b[4] && a[5] == b[5] && a[6] == b[6] && a[7] == b[7];
  }

  function FromBytes(a: bv8, b: bv8, c: bv8, d: bv8, e: bv8, f: bv8, g: bv8, h: bv8): bv64 {
    (a as bv64) | ((b as bv64) << 8) | ((c as bv64) << 16) | ((d as bv64) << 24)
    | ((e as bv64) << 32) | ((f as bv64) << 40) | ((g as bv64) << 48) | ((h as bv64) << 56)
  }

  lemma BytesBack(a: bv8, b: bv8, c: bv8, d: bv8, e: bv8, f: bv8, g: bv8, h: bv8)
    ensures LittleEndian(FromBytes(a, b, c, d, e, f, g, h)) == [a, b, c, d, e, f, g, h]
  {
  }

  function FromBits(a: bool, b: bool, c: bool, d: bool, e: bool, f: bool, g: bool, h: bool): bv8 {
    (if a then 1 else 0) | (if b then 2 else 0) | (if c then 4 else 0) | (if d then 8 else 0)
    | (if e then 16 else 0) | (if f then 32 else 0) | (if g then 64 else 0) | (if h then 128 else 0)
  }

  lemma FromBitsInjective(a: bool, b: bool, c: bool, d: bool, e: bool, f: bool, g: bool, h: bool,
                          a': bool, b': bool, c': bool, d': bool, e': bool, f': bool, g': bool, h': bool)
    requires FromBits(a, b, c, d, e, f, g, h) == FromBits(a', b', c', d', e', f', g', h')
    ensures a == a' && b == b' && c == c' && d == d' && e == e' && f == f' && g == g' && h == h'
  {
  }

  /** Binary digit `i` of a number. */
  function Digit(x: int, i: nat): bool
    decreases i
  {
    if i == 0 then x % 2 == 1 else Digit(x / 2, i - 1)
  }

  function Pow2(n: nat): nat {
    if n == 0 then 1 else 2 * Pow2(n - 1)
  }

  lemma {:induction false} DigitsDetermine(x: int, y: int, n: nat)
    requires 0 <= x < Pow2(n) && 0 <= y < Pow2(n)
    requires forall i :: 0 <= i < n ==> Digit(x, i) == Digit(y, i)
    ensures x == y
    decreases n
  {
    if n > 0 {
      forall i | 0 <= i < n - 1 ensures Digit(x / 2, i) == Digit(y / 2, i) {
        assert Digit(x, i + 1) == Digit(y, i + 1);
      }
      DigitsDetermine(x / 2, y / 2, n - 1);
      assert Digit(x, 0) == Digit(y, 0);
    }
  }

  /** A number below 256 as a byte. */
  function ByteOf(x: int): bv8 {
    FromBits(Digit(x, 0), Digit(x, 1), Digit(x, 2), Digit(x, 3), Digit(x, 4), Digit(x, 5), Digit(x, 6), Digit(x, 7))
  }

  lemma ByteInjective(x: int, y: int)
    requires 0 <= x < 256 && 0 <= y < 256
    ensures ByteOf(x) == ByteOf(y) ==> x == y
  {
    hide FromBits, Digit, Pow2;
    if ByteOf(x) == ByteOf(y) {
      FromBitsInjective(Digit(x, 0), Digit(x, 1), Digit(x, 2), Digit(x, 3),
                        Digit(x, 4), Digit(x, 5), Digit(x, 6), Digit(x, 7),
                        Digit(y, 0), Digit(y, 1), Digit(y, 2), Digit(y, 3),
                        Digit(y, 4), Digit(y, 5), Digit(y, 6), Digit(y, 7));
      forall i | 0 <= i < 8 ensures Digit(x, i) == Digit(y, i) {
        assert i == 0 || i == 1 || i == 2 || i == 3 || i == 4 || i == 5 || i == 6 || i == 7;
      }
      Power8();
      DigitsDetermine(x, y, 8);
    }
  }

  lemma Power8()
    ensures Pow2(8) == 256
  {
    assert Pow2(4) == 16;
  }

  /** Which byte of a hash goes where. */
  lemma ByteOrder()
    ensures LittleEndian(0x0807060504030201) == [1, 2, 3, 4, 5, 6, 7, 8]
  {
  }

  lemma Vector0()
    ensures FnvStep(0xCBF29CE484222325, 0x61) == 0xAF63DC4C8601EC8C
  {
  }

  lemma Vector1()
    ensures FnvStep(0xCBF29CE484222325, 0x66) == 0xAF63DB4C8601EAD9
  {
  }

  lemma Vector2()
    ensures FnvStep(0xAF63DB4C8601EAD9, 0x6F) == 0x08985907B541D342
  {
  }

  lemma Vector3()
    ensures FnvStep(0x08985907B541D342, 0x6F) == 0xDCB27518FED9D577
  {
  }

  lemma Vector4()
    ensures FnvStep(0xDCB27518FED9D577, 0x62) == 0xDD120E790C2512AF
  {
  }

  lemma Vector5()
    ensures FnvStep(0xDD120E790C2512AF, 0x61) == 0xCAC165AFA2FEF40A
  {
  }

  lemma Vector6()
    ensures FnvStep(0xCAC165AFA2FEF40A, 0x72) == 0x85944171F73967E8
  {
  }
}
