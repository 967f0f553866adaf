/**
 * sha256_hex (apps/kernel/src/lib.rs) against the definition of SHA-256 in FIPS 180-4: padding
 * (section 5.1.1), initial value (5.3.3), message schedule and rounds (6.2.2).
 */
module Sha256 {
  import opened Prelude

  const TWO32: nat := 0x1_0000_0000

  type word = x: int | 0 <= x < TWO32

  // ---- words ---------------------------------------------------------------------------------

  /** wrapping_add: addition modulo 2^32. */
  function Plus(x: word, y: word): word { (x as int + y as int) % TWO32 }

  function Pow2(k: nat): (p: nat)
    ensures p > 0
  {
    if k == 0 then 1 else 2 * Pow2(k - 1)
  }

  lemma {:induction false} Pow2Adds(j: nat, k: nat)
    ensures Pow2(j) * Pow2(k) == Pow2(j + k)
  {
    if j > 0 { Pow2Adds(j - 1, k); }
  }

  lemma WordSize()
    ensures Pow2(32) == TWO32
  {
    assert Pow2(8) == 256;
    Pow2Adds(8, 8);
    Pow2Adds(16, 16);
  }

  /** Putting the remainder before the quotient stays in range. */
  lemma Below(q: nat, r: nat, p: nat, h: nat)
    requires p > 0 && h > 0 && r < p && p * q + r < p * h
    ensures q < h && 0 <= q + r * h < p * h
  {
    if q >= h { Times(p, h, q); }
    Times(h, r, p - 1);
    Times(h, 0, r);
    assert (p - 1) * h == p * h - h;
  }

  lemma Exchange(x: nat, p: nat, h: nat)
    requires p > 0 && h > 0 && x < p * h
    ensures 0 <= x / p < h && 0 <= x % p < p && 0 <= x / p + x % p * h < p * h
  {
    var q, r := DivMod(x, p);
    Below(q, r, p, h);
  }

  lemma Times(a: nat, x: nat, y: nat)
    requires x <= y
    ensures a * x <= a * y && x * a <= y * a
  {
  }

  lemma RotrFits(x: nat, n: nat)
    requires x < TWO32 && n < 32
    ensures 0 <= x / Pow2(n) < Pow2(32 - n) && 0 <= x % Pow2(n) < Pow2(n)
    ensures 0 <= x / Pow2(n) + x % Pow2(n) * Pow2(32 - n) < TWO32
  {
    WordSize();
    Pow2Adds(n, 32 - n);
    Exchange(x, Pow2(n), Pow2(32 - n));
  }

  lemma ShrFits(x: nat, n: nat)
    ensures 0 <= x / Pow2(n) <= x
  {
    var q, r := DivMod(x, Pow2(n));
    Times(q, 1, Pow2(n));
  }

  lemma DivMod(x: nat, p: nat) returns (q: nat, r: nat)
    requires p > 0
    ensures q == x / p && r == x % p && x == p * q + r && r < p
  {
    q, r := x / p, x % p;
  }

  datatype Gate = AndGate | XorGate

  function Apply(g: Gate, p: bool, q: bool): bool {
    if g.AndGate? then p && q else p != q
  }

  /** The gate on the low `width` bits, one by one. */
  function Bitwise(g: Gate, x: nat, y: nat, width: nat): (z: nat)
    ensures z < Pow2(width)
    decreases width, x
  {
    if width == 0 then 0
    else 2 * Bitwise(g, x / 2, y / 2, width - 1) + if Apply(g, x % 2 == 1, y % 2 == 1) then 1 else 0
  }

  function And(x: word, y: word): word { WordSize(); Bitwise(AndGate, x, y, 32) }

  function Xor(x: word, y: word): word { WordSize(); Bitwise(XorGate, x, y, 32) }

  function Not(x: word): word { TWO32 - 1 - x }

  function Shr(x: word, n: nat): word {
    ShrFits(x, n);
    x / Pow2(n)
  }

  /** rotate_right, ROTR of section 3.2. */
  function Rotr(x: word, n: nat): word
    requires n < 32
  {
    RotrFits(x, n);
    x / Pow2(n) + x % Pow2(n) * Pow2(32 - n)
  }

  // ---- the definition ------------------------------------------------------------------------

  const K_ROWS: seq<seq<word>> := [
    [0x428a2f98, 0x71374491, 0xb5c0fbcf, 0xe9b5dba5, 0x3956c25b, 0x59f111f1, 0x923f82a4, 0xab1c5ed5],
    [0xd807aa98, 0x12835b01, 0x243185be, 0x550c7dc3, 0x72be5d74, 0x80deb1fe, 0x9bdc06a7, 0xc19bf174],
    [0xe49b69c1, 0xefbe4786, 0x0fc19dc6, 0x240ca1cc, 0x2de92c6f, 0x4a7484aa, 0x5cb0a9dc, 0x76f988da],
    [0x983e5152, 0xa831c66d, 0xb00327c8, 0xbf597fc7, 0xc6e00bf3, 0xd5a79147, 0x06ca6351, 0x14292967],
    [0x27b70a85, 0x2e1b2138, 0x4d2c6dfc, 0x53380d13, 0x650a7354, 0x766a0abb, 0x81c2c92e, 0x92722c85],
    [0xa2bfe8a1, 0xa81a664b, 0xc24b8b70, 0xc76c51a3, 0xd192e819, 0xd6990624, 0xf40e3585, 0x106aa070],
    [0x19a4c116, 0x1e376c08, 0x2748774c, 0x34b0bcb5, 0x391c0cb3, 0x4ed8aa4a, 0x5b9cca4f, 0x682e6ff3],
    [0x748f82ee, 0x78a5636f, 0x84c87814, 0x8cc70208, 0x90befffa, 0xa4506ceb, 0xbef9a3f7, 0xc67178f2]]

  function K(t: nat): word
    requires t < 64
  {
    K_ROWS[t / 8][t % 8]
  }

  const INITIAL: seq<word> := [
    0x6a09e667, 0xbb67ae85, 0x3c6ef372, 0xa54ff53a, 0x510e527f, 0x9b05688c, 0x1f83d9ab, 0x5be0cd19]

  function Ch(x: word, y: word, z: word): word { Xor(And(x, y), And(Not(x), z)) }

  function Maj(x: word, y: word, z: word): word { Xor(Xor(And(x, y), And(x, z)), And(y, z)) }

  function BigSigma0(x: word): word { Xor(Xor(Rotr(x, 2), Rotr(x, 13)), Rotr(x, 22)) }

  function BigSigma1(x: word): word { Xor(Xor(Rotr(x, 6), Rotr(x, 11)), Rotr(x, 25)) }

  function SmallSigma0(x: word): word { Xor(Xor(Rotr(x, 7), Rotr(x, 18)), Shr(x, 3)) }

  function SmallSigma1(x: word): word { Xor(Xor(Rotr(x, 17), Rotr(x, 19)), Shr(x, 10)) }

  function Word(b: bytes): word
    requires |b| == 4
  {
    b[0] as int * 0x100_0000 + b[1] as int * 0x1_0000 + b[2] as int * 0x100 + b[3] as int
  }

  /** W of section 6.2.2, step 1. */
  function W(block: Block, t: nat): word
    requires t < 64
    decreases t, |block|
  {
    if t < 16 then Word(block[4 * t..4 * t + 4])
    else
      Plus(Plus(Plus(SmallSigma1(W(block, t - 2)), W(block, t - 7)), SmallSigma0(W(block, t - 15))), W(block, t - 16))
  }

  datatype Regs = Regs(a: word, b: word, c: word, d: word, e: word, f: word, g: word, h: word)

  /** One round, step 3. */
  function Round(r: Regs, k: word, w: word): Regs {
    var t1 := Plus(Plus(Plus(Plus(r.h, BigSigma1(r.e)), Ch(r.e, r.f, r.g)), k), w);
    var t2 := Plus(BigSigma0(r.a), Maj(r.a, r.b, r.c));
    Regs(Plus(t1, t2), r.a, r.b, r.c, Plus(r.d, t1), r.e, r.f, r.g)
  }

  /** The registers before round t. */
  function Rounds(start: Regs, block: Block, t: nat): Regs
    requires t <= 64
    decreases t, |block|
  {
    if t == 0 then start
    else Round(Rounds(start, block, t - 1), K(t - 1), W(block, t - 1))
  }

  function Add(x: Regs, y: Regs): Regs {
    Regs(Plus(x.a, y.a), Plus(x.b, y.b), Plus(x.c, y.c), Plus(x.d, y.d),
         Plus(x.e, y.e), Plus(x.f, y.f), Plus(x.g, y.g), Plus(x.h, y.h))
  }

  function InitialRegs(): Regs {
    Regs(INITIAL[0], INITIAL[1], INITIAL[2], INITIAL[3],
         INITIAL[4], INITIAL[5], INITIAL[6], INITIAL[7])
  }

  type Block = b: bytes | |b| == 64 witness seq(64, i => 0)

  /** The hash value after the given blocks. */
  function HashValue(blocks: seq<Block>): Regs {
    if blocks == [] then InitialRegs()
    else
      var before := HashValue(blocks[..|blocks| - 1]);
      Add(before, Rounds(before, blocks[|blocks| - 1], 64))
  }

  /** chunks_exact(64) */
  function Chunks(msg: bytes): (blocks: seq<Block>)
    ensures |blocks| == |msg| / 64 && forall i :: 0 <= i < |blocks| ==> blocks[i] == msg[64 * i..64 * i + 64]
  {
    seq(|msg| / 64, i requires 0 <= i < |msg| / 64 => msg[64 * i..64 * i + 64])
  }

  function Zeros(n: nat): (z: bytes)
    ensures |z| == n
  {
    seq(n, i => 0)
  }

  /** n as big-endian bytes. */
  function BigEndian(n: nat, width: nat): (b: bytes)
    ensures |b| == width
    decreases width, n
  {
    if width == 0 then [] else BigEndian(n / 256, width - 1) + [n % 256]
  }

  const TWO64: nat := 0x1_0000_0000_0000_0000

  /** The zero bytes between the 0x80 byte and the length. */
  function Fill(n: nat): (k: nat)
    ensures k < 64 && (n + 1 + k) % 64 == 56
  {
    (119 - n % 64) % 64
  }

  lemma PadLength(n: nat)
    ensures (n + 1 + Fill(n) + 8) % 64 == 0
  {
  }

  function Pad(data: bytes): (msg: bytes)
    ensures |msg| % 64 == 0
  {
    PadLength(|data|);
    data + [0x80] + Zeros(Fill(|data|)) + BigEndian(8 * |data| % TWO64, 8)
  }

  function Digest(data: bytes): Regs {
    HashValue(Chunks(Pad(data)))
  }

  // ---- the constants -------------------------------------------------------------------------

  const PRIME_ROWS: seq<seq<nat>> := [
    [2, 3, 5, 7, 11, 13, 17, 19],
    [23, 29, 31, 37, 41, 43, 47, 53],
    [59, 61, 67, 71, 73, 79, 83, 89],
    [97, 101, 103, 107, 109, 113, 127, 131],
    [137, 139, 149, 151, 157, 163, 167, 173],
    [179, 181, 191, 193, 197, 199, 211, 223],
    [227, 229, 233, 239, 241, 251, 257, 263],
    [269, 271, 277, 281, 283, 293, 307, 311]]

  function Prime(t: nat): nat
    requires t < 64
  {
    PRIME_ROWS[t / 8][t % 8]
  }

  predicate IsCubeRoot(c: nat, p: nat) {
    c * c * c <= p * 0x1_0000_0000_0000_0000_0000_0000 < (c + 1) * (c + 1) * (c + 1)
  }

  predicate IsSquareRoot(c: nat, p: nat) {
    c * c <= p * 0x1_0000_0000_0000_0000 < (c + 1) * (c + 1)
  }

  function WholeCubeRoot(p: nat): nat {
    if p < 8 then 1 else if p < 27 then 2 else if p < 64 then 3 else if p < 125 then 4 else if p < 216 then 5 else 6
  }

  /** K(i) is the first 32 bits of the fractional part of the cube root of the i-th prime. */
  predicate FromRoot(i: nat)
    requires i < 64
  {
    IsCubeRoot(WholeCubeRoot(Prime(i)) * 0x1_0000_0000 + K(i) as int, Prime(i))
  }

  predicate FromRoots(i: nat, n: nat)
    requires i <= n <= 64
    decreases n - i
  {
    i == n || (FromRoot(i) && FromRoots(i + 1, n))
  }

  lemma Row0() ensures FromRoots(0, 8) {}
  lemma Row1() ensures FromRoots(8, 16) {}
  lemma Row2() ensures FromRoots(16, 24) {}
  lemma Row3() ensures FromRoots(24, 32) {}
  lemma Row4() ensures FromRoots(32, 40) {}
  lemma Row5() ensures FromRoots(40, 48) {}
  lemma Row6() ensures FromRoots(48, 56) {}
  lemma Row7() ensures FromRoots(56, 64) {}

  lemma {:induction false} OneOfRoots(first: nat, n: nat, i: nat)
    requires first <= i < n <= 64 && FromRoots(first, n)
    ensures FromRoot(i)
    decreases i - first
  {
    hide FromRoot;
    if first < i { OneOfRoots(first + 1, n, i); }
  }

  // ---- the primes ----------------------------------------------------------------------------

  predicate Divides(d: nat, n: nat)
    requires d > 0
  {
    n % d == 0
  }

  predicate IsPrime(n: nat) {
    n >= 2 && forall d: nat :: 2 <= d < n ==> !Divides(d, n)
  }

  /** Trial division by the primes up to 17. */
  predicate Sieved(n: nat) {
    && (n == 2 || n % 2 != 0) && (n == 3 || n % 3 != 0) && (n == 5 || n % 5 != 0) && (n == 7 || n % 7 != 0)
    && (n == 11 || n % 11 != 0) && (n == 13 || n % 13 != 0) && (n == 17 || n % 17 != 0)
  }

  lemma By2(n: nat, k: nat) requires n == 2 * k ensures n % 2 == 0 {}
  lemma By3(n: nat, k: nat) requires n == 3 * k ensures n % 3 == 0 {}
  lemma By5(n: nat, k: nat) requires n == 5 * k ensures n % 5 == 0 {}
  lemma By7(n: nat, k: nat) requires n == 7 * k ensures n % 7 == 0 {}
  lemma By11(n: nat, k: nat) requires n == 11 * k ensures n % 11 == 0 {}
  lemma By13(n: nat, k: nat) requires n == 13 * k ensures n % 13 == 0 {}
  lemma By17(n: nat, k: nat) requires n == 17 * k ensures n % 17 == 0 {}

  /** n is a proper multiple of a prime up to 17. */
  lemma NotSieved(n: nat, p: nat, k: nat)
    requires p == 2 || p == 3 || p == 5 || p == 7 || p == 11 || p == 13 || p == 17
    requires k >= 2 && n == p * k
    ensures !Sieved(n)
  {
    assert n != p;
    if p == 2 { By2(n, k); } else if p == 3 { By3(n, k); } else if p == 5 { By5(n, k); }
    else if p == 7 { By7(n, k); } else if p == 11 { By11(n, k); } else if p == 13 { By13(n, k); }
    else { By17(n, k); }
  }

  lemma Refactor(n: nat, d: nat, q: nat, p: nat, k: nat)
    requires n == d * q && d == p * k && k >= 1 && q >= 2
    ensures n == p * (k * q) && k * q >= 2
  {
  }

  /** A factor of at most 18 is, or has, one of those primes as a factor. */
  lemma SmallFactor(n: nat, d: nat, q: nat)
    requires 2 <= d <= 18 && q >= 2 && n == d * q
    ensures !Sieved(n)
  {
    hide Sieved;
    var p := if d % 2 == 0 then 2 else if d % 3 == 0 then 3 else d;
    var k := d / p;
    Refactor(n, d, q, p, k);
    NotSieved(n, p, k * q);
  }

  lemma Factors(n: nat, d: nat, e: nat)
    requires 2 <= d < n < 361 && Divides(d, n) && e == n / d
    ensures n == d * e && e >= 2 && (d <= 18 || e <= 18)
  {
    assert n == d * e;
    assert e != 0 && e != 1;
    if d >= 19 {
      Grows(19, d, e);
      assert 19 * e <= n;
    }
  }

  lemma Grows(a: nat, b: nat, c: nat)
    requires a <= b
    ensures a * c <= b * c
  {
  }

  lemma SieveFindsPrimes(n: nat)
    requires 2 <= n < 361
    ensures Sieved(n) <==> IsPrime(n)
  {
    if IsPrime(n) {
      assert (n <= 2 || !Divides(2, n)) && (n <= 3 || !Divides(3, n)) && (n <= 5 || !Divides(5, n))
          && (n <= 7 || !Divides(7, n)) && (n <= 11 || !Divides(11, n)) && (n <= 13 || !Divides(13, n))
          && (n <= 17 || !Divides(17, n));
    } else {
      var d: nat :| 2 <= d < n && Divides(d, n);
      var e := n / d;
      Factors(n, d, e);
      if d <= 18 { SmallFactor(n, d, e); } else { SmallFactor(n, e, d); }
    }
  }

  /** The sieve keeps nothing from n up to end. */
  predicate NoneIn(n: nat, end: nat)
    decreases end - n
  {
    n >= end || (!Sieved(n) && NoneIn(n + 1, end))
  }

  /** The i-th entry is kept, and nothing between it and the next, or the end of the table. */
  predicate Listed(i: nat)
    requires i < 64
  {
    var next := if i < 63 then Prime(i + 1) else 312;
    2 <= Prime(i) < next <= 312 && Sieved(Prime(i)) && NoneIn(Prime(i) + 1, next)
  }

  lemma Gaps0()
    ensures NoneIn(3, 3) && NoneIn(4, 5) && NoneIn(6, 7) && NoneIn(8, 11) && NoneIn(12, 13)
    ensures NoneIn(14, 17) && NoneIn(18, 19) && NoneIn(20, 23)
    ensures Sieved(2) && Sieved(3) && Sieved(5) && Sieved(7)
    ensures Sieved(11) && Sieved(13) && Sieved(17) && Sieved(19)
  {
  }

  lemma Gaps1()
    ensures NoneIn(24, 29) && NoneIn(30, 31) && NoneIn(32, 37) && NoneIn(38, 41)
    ensures NoneIn(42, 43) && NoneIn(44, 47) && NoneIn(48, 53) && NoneIn(54, 59)
    ensures Sieved(23) && Sieved(29) && Sieved(31) && Sieved(37)
    ensures Sieved(41) && Sieved(43) && Sieved(47) && Sieved(53)
  {
  }

  lemma Gaps2()
    ensures NoneIn(60, 61) && NoneIn(62, 67) && NoneIn(68, 71) && NoneIn(72, 73)
    ensures NoneIn(74, 79) && NoneIn(80, 83) && NoneIn(84, 89) && NoneIn(90, 97)
    ensures Sieved(59) && Sieved(61) && Sieved(67) && Sieved(71)
    ensures Sieved(73) && Sieved(79) && Sieved(83) && Sieved(89)
  {
  }

  lemma Gaps3()
    ensures NoneIn(98, 101) && NoneIn(102, 103) && NoneIn(104, 107) && NoneIn(108, 109)
    ensures NoneIn(110, 113) && NoneIn(114, 127) && NoneIn(128, 131) && NoneIn(132, 137)
    ensures Sieved(97) && Sieved(101) && Sieved(103) && Sieved(107)
    ensures Sieved(109) && Sieved(113) && Sieved(127) && Sieved(131)
  {
  }

  lemma Gaps4()
    ensures NoneIn(138, 139) && NoneIn(140, 149) && NoneIn(150, 151) && NoneIn(152, 157)
    ensures NoneIn(158, 163) && NoneIn(164, 167) && NoneIn(168, 173) && NoneIn(174, 179)
    ensures Sieved(137) && Sieved(139) && Sieved(149) && Sieved(151)
    ensures Sieved(157) && Sieved(163) && Sieved(167) && Sieved(173)
  {
  }

  lemma Gaps5()
    ensures NoneIn(180, 181) && NoneIn(182, 191) && NoneIn(192, 193) && NoneIn(194, 197)
    ensures NoneIn(198, 199) && NoneIn(200, 211) && NoneIn(212, 223) && NoneIn(224, 227)
    ensures Sieved(179) && Sieved(181) && Sieved(191) && Sieved(193)
    ensures Sieved(197) && Sieved(199) && Sieved(211) && Sieved(223)
  {
  }

  lemma Gaps6()
    ensures NoneIn(228, 229) && NoneIn(230, 233) && NoneIn(234, 239) && NoneIn(240, 241)
    ensures NoneIn(242, 251) && NoneIn(252, 257) && NoneIn(258, 263) && NoneIn(264, 269)
    ensures Sieved(227) && Sieved(229) && Sieved(233) && Sieved(239)
    ensures Sieved(241) && Sieved(251) && Sieved(257) && Sieved(263)
  {
  }

  lemma Gaps7()
    ensures NoneIn(270, 271) && NoneIn(272, 277) && NoneIn(278, 281) && NoneIn(282, 283)
    ensures NoneIn(284, 293) && NoneIn(294, 307) && NoneIn(308, 311) && NoneIn(312, 312)
    ensures Sieved(269) && Sieved(271) && Sieved(277) && Sieved(281)
    ensures Sieved(283) && Sieved(293) && Sieved(307) && Sieved(311)
  {
  }

  lemma Entries0(i: nat)
    requires 0 <= i < 8
    ensures Listed(i)
  {
    hide Sieved, NoneIn;
    Gaps0();
  }

  lemma Entries1(i: nat)
    requires 8 <= i < 16
    ensures Listed(i)
  {
    hide Sieved, NoneIn;
    Gaps1();
  }

  lemma Entries2(i: nat)
    requires 16 <= i < 24
    ensures Listed(i)
  {
    hide Sieved, NoneIn;
    Gaps2();
  }

  lemma Entries3(i: nat)
    requires 24 <= i < 32
    ensures Listed(i)
  {
    hide Sieved, NoneIn;
    Gaps3();
  }

  lemma Entries4(i: nat)
    requires 32 <= i < 40
    ensures Listed(i)
  {
    hide Sieved, NoneIn;
    Gaps4();
  }

  lemma Entries5(i: nat)
    requires 40 <= i < 48
    ensures Listed(i)
  {
    hide Sieved, NoneIn;
    Gaps5();
  }

  lemma Entries6(i: nat)
    requires 48 <= i < 56
    ensures Listed(i)
  {
    hide Sieved, NoneIn;
    Gaps6();
  }

  lemma Entries7(i: nat)
    requires 56 <= i < 64
    ensures Listed(i)
  {
    hide Sieved, NoneIn;
    Gaps7();
  }

  lemma EntryIsListed(i: nat)
    requires i < 64
    ensures Listed(i)
  {
    if i < 8 { Entries0(i); } else if i < 16 { Entries1(i); } else if i < 24 { Entries2(i); }
    else if i < 32 { Entries3(i); } else if i < 40 { Entries4(i); } else if i < 48 { Entries5(i); }
    else if i < 56 { Entries6(i); } else { Entries7(i); }
  }

  lemma {:induction false} NoneBetween(n: nat, end: nat, m: nat)
    requires NoneIn(n, end) && n <= m < end
    ensures !Sieved(m)
    decreases end - n
  {
    if n < m { NoneBetween(n + 1, end, m); }
  }

  /** What the sieve keeps from the i-th entry on is in the table. */
  lemma {:induction false} FindEntry(i: nat, n: nat) returns (k: nat)
    requires i < 64 && Prime(i) <= n <= 311 && Sieved(n)
    ensures k < 64 && Prime(k) == n
    decreases 64 - i
  {
    EntryIsListed(i);
    if Prime(i) == n { k := i; }
    else {
      if i == 63 || n < Prime(i + 1) { NoneBetween(Prime(i) + 1, if i < 63 then Prime(i + 1) else 312, n); }
      k := FindEntry(i + 1, n);
    }
  }

  /** The table of roots is over the first sixty-four primes, in order and without a gap. */
  lemma PrimesAreTheFirst(n: nat, i: nat)
    requires i < 64
    ensures IsPrime(Prime(i)) && (i < 63 ==> Prime(i) < Prime(i + 1))
    ensures IsPrime(n) && n <= Prime(63) ==> exists k: nat :: k < 64 && Prime(k) == n
  {
    EntryIsListed(i);
    SieveFindsPrimes(Prime(i));
    if IsPrime(n) && n <= Prime(63) {
      SieveFindsPrimes(n);
      var k := FindEntry(0, n);
    }
  }

  // ---- the roots -----------------------------------------------------------------------------

  /** The table of section 4.2.2. */
  lemma ConstantsAreCubeRoots(i: nat)
    requires i < 64
    ensures FromRoot(i)
  {
    hide FromRoot, FromRoots;
    Row0(); Row1(); Row2(); Row3(); Row4(); Row5(); Row6(); Row7();
    var first := if i < 8 then 0 else if i < 16 then 8 else if i < 24 then 16 else if i < 32 then 24
                 else if i < 40 then 32 else if i < 48 then 40 else if i < 56 then 48 else 56;
    OneOfRoots(first, first + 8, i);
  }

  /** The initial value of section 5.3.3: the square roots of the first eight primes. */
  lemma InitialIsSquareRoots()
    ensures IsSquareRoot(0x1_0000_0000 + INITIAL[0] as int, 2) && IsSquareRoot(0x1_0000_0000 + INITIAL[1] as int, 3)
    ensures IsSquareRoot(0x2_0000_0000 + INITIAL[2] as int, 5) && IsSquareRoot(0x2_0000_0000 + INITIAL[3] as int, 7)
    ensures IsSquareRoot(0x3_0000_0000 + INITIAL[4] as int, 11) && IsSquareRoot(0x3_0000_0000 + INITIAL[5] as int, 13)
    ensures IsSquareRoot(0x4_0000_0000 + INITIAL[6] as int, 17) && IsSquareRoot(0x4_0000_0000 + INITIAL[7] as int, 19)
  {
  }

  // ---- padding, bit by bit -------------------------------------------------------------------

  type bits = seq<bool>

  /** n as a bit string of the given width, most significant bit first. */
  function Binary(n: nat, width: nat): (s: bits)
    ensures |s| == width
    decreases width, n
  {
    if width == 0 then [] else Binary(n / 2, width - 1) + [n % 2 == 1]
  }

  function BitsOf(b: bytes): (s: bits)
    ensures |s| == 8 * |b|
  {
    if b == [] then [] else BitsOf(b[..|b| - 1]) + Binary(b[|b| - 1], 8)
  }

  function ZeroBits(n: nat): (s: bits)
    ensures |s| == n
  {
    seq(n, i => false)
  }

  lemma {:induction false} BitsConcat(x: bytes, y: bytes)
    ensures BitsOf(x + y) == BitsOf(x) + BitsOf(y)
  {
    if y == [] {
      assert x + y == x;
    } else {
      var n := |y| - 1;
      assert (x + y)[..|x + y| - 1] == x + y[..n];
      BitsConcat(x, y[..n]);
    }
  }

  lemma {:induction false} ZeroBinary(width: nat)
    ensures Binary(0, width) == ZeroBits(width)
  {
    if width > 0 { ZeroBinary(width - 1); }
  }

  lemma {:induction false} ZerosBits(n: nat)
    ensures BitsOf(Zeros(n)) == ZeroBits(8 * n)
  {
    if n > 0 {
      assert Zeros(n)[..n - 1] == Zeros(n - 1);
      ZerosBits(n - 1);
      ZeroBinary(8);
    }
  }

  lemma {:induction false} BinarySplits(n: nat, high: nat, low: nat, q: nat, r: nat)
    requires n == Pow2(low) * q + r && r < Pow2(low)
    ensures Binary(n, high + low) == Binary(q, high) + Binary(r, low)
  {
    if low > 0 {
      Halves(n, Pow2(low - 1), q, r);
      BinarySplits(n / 2, high, low - 1, q, r / 2);
    } else {
      assert n == q;
    }
  }

  lemma Halves(n: nat, p: nat, q: nat, r: nat)
    requires n == 2 * p * q + r && r < 2 * p
    ensures n / 2 == p * q + r / 2 && n % 2 == r % 2 && r / 2 < p
  {
    assert n == 2 * (p * q) + r;
  }

  /** What the word operations do to bits: And and Xor bit by bit. */
  lemma {:induction false} BitwiseBits(g: Gate, x: nat, y: nat, width: nat, i: nat)
    requires i < width
    ensures Binary(Bitwise(g, x, y, width), width)[i] == Apply(g, Binary(x, width)[i], Binary(y, width)[i])
    decreases width
  {
    var z := Bitwise(g, x, y, width);
    assert z / 2 == Bitwise(g, x / 2, y / 2, width - 1);
    if i < width - 1 { BitwiseBits(g, x / 2, y / 2, width - 1, i); }
  }

  /** Not flips every bit. */
  lemma {:induction false} NotBits(x: nat, width: nat, i: nat)
    requires i < width && x < Pow2(width)
    ensures Binary(Pow2(width) - 1 - x, width)[i] == !Binary(x, width)[i]
    decreases width
  {
    var z := Pow2(width) - 1 - x;
    assert z / 2 == Pow2(width - 1) - 1 - x / 2;
    if i < width - 1 { NotBits(x / 2, width - 1, i); }
  }

  lemma Commutes(x: nat, y: nat)
    ensures x * y == y * x
  {
  }

  /** Rotr moves the last n bits to the front. */
  lemma RotrBits(x: word, n: nat)
    requires 0 < n < 32
    ensures Binary(Rotr(x, n), 32) == Binary(x, 32)[32 - n..] + Binary(x, 32)[..32 - n]
  {
    RotrFits(x, n);
    var q, r := DivMod(x, Pow2(n));
    BinarySplits(x, 32 - n, n, q, r);
    Commutes(r, Pow2(32 - n));
    BinarySplits(Rotr(x, n), n, 32 - n, r, q);
  }

  /** Shr moves the first bits down and fills up with zeros. */
  lemma ShrBits(x: word, n: nat)
    requires 0 < n < 32
    ensures Binary(Shr(x, n), 32) == ZeroBits(n) + Binary(x, 32)[..32 - n]
  {
    RotrFits(x, n);
    var q, r := DivMod(x, Pow2(n));
    BinarySplits(x, 32 - n, n, q, r);
    BinarySplits(q, n, 32 - n, 0, q);
    ZeroBinary(n);
  }

  /** Bit i of a word, counted from its most significant one. */
  function Bit(x: word, i: nat): bool
    requires i < 32
  {
    Binary(x, 32)[i]
  }

  lemma GateBits(x: word, y: word, i: nat)
    requires i < 32
    ensures Bit(And(x, y), i) == (Bit(x, i) && Bit(y, i))
    ensures Bit(Xor(x, y), i) == (Bit(x, i) != Bit(y, i))
    ensures Bit(Not(x), i) == !Bit(x, i)
  {
    hide Binary, Bitwise, Pow2;
    WordSize();
    BitwiseBits(AndGate, x, y, 32, i);
    BitwiseBits(XorGate, x, y, 32, i);
    NotBits(x, 32, i);
  }

  /** A rotation by n reads n places further to the left, around the end. */
  lemma RotrBit(x: word, n: nat, i: nat)
    requires 0 < n < 32 && i < 32
    ensures Bit(Rotr(x, n), i) == Bit(x, (i + 32 - n) % 32)
  {
    hide Binary, Rotr;
    RotrBits(x, n);
  }

  lemma ShrBit(x: word, n: nat, i: nat)
    requires 0 < n < 32 && i < 32
    ensures Bit(Shr(x, n), i) == (i >= n && Bit(x, i - n))
  {
    hide Binary, Shr;
    ShrBits(x, n);
  }

  /** Equation 4.2 of section 4.1.2 chooses y or z by x, and 4.3 takes the majority, bit by bit. */
  lemma ChoosesAndMajority(x: word, y: word, z: word, i: nat)
    requires i < 32
    ensures Bit(Ch(x, y, z), i) == if Bit(x, i) then Bit(y, i) else Bit(z, i)
    ensures Bit(Maj(x, y, z), i)
         == ((if Bit(x, i) then 1 else 0) + (if Bit(y, i) then 1 else 0) + (if Bit(z, i) then 1 else 0) >= 2)
  {
    hide Bit, And, Xor, Not;
    GateBits(x, y, i);
    GateBits(Not(x), z, i);
    GateBits(And(x, y), And(Not(x), z), i);
    GateBits(x, z, i);
    GateBits(y, z, i);
    GateBits(And(x, y), And(x, z), i);
    GateBits(Xor(And(x, y), And(x, z)), And(y, z), i);
  }

  lemma ThreeXor(x: word, y: word, z: word, i: nat)
    requires i < 32
    ensures Bit(Xor(Xor(x, y), z), i) == ((Bit(x, i) != Bit(y, i)) != Bit(z, i))
  {
    hide Bit, Xor;
    GateBits(x, y, i);
    GateBits(Xor(x, y), z, i);
  }

  /** Equations 4.4 and 4.5, bit by bit. */
  lemma BigSigmaBits(x: word, i: nat)
    requires i < 32
    ensures Bit(BigSigma0(x), i)
         == ((Bit(x, (i + 30) % 32) != Bit(x, (i + 19) % 32)) != Bit(x, (i + 10) % 32))
    ensures Bit(BigSigma1(x), i)
         == ((Bit(x, (i + 26) % 32) != Bit(x, (i + 21) % 32)) != Bit(x, (i + 7) % 32))
  {
    hide Bit, Xor, Rotr;
    ThreeXor(Rotr(x, 2), Rotr(x, 13), Rotr(x, 22), i);
    ThreeXor(Rotr(x, 6), Rotr(x, 11), Rotr(x, 25), i);
    RotrBit(x, 2, i);
    RotrBit(x, 13, i);
    RotrBit(x, 22, i);
    RotrBit(x, 6, i);
    RotrBit(x, 11, i);
    RotrBit(x, 25, i);
  }

  /** Equations 4.6 and 4.7, bit by bit. */
  lemma SmallSigmaBits(x: word, i: nat)
    requires i < 32
    ensures Bit(SmallSigma0(x), i)
         == ((Bit(x, (i + 25) % 32) != Bit(x, (i + 14) % 32)) != (i >= 3 && Bit(x, i - 3)))
    ensures Bit(SmallSigma1(x), i)
         == ((Bit(x, (i + 15) % 32) != Bit(x, (i + 13) % 32)) != (i >= 10 && Bit(x, i - 10)))
  {
    hide Bit, Xor, Rotr, Shr;
    ThreeXor(Rotr(x, 7), Rotr(x, 18), Shr(x, 3), i);
    ThreeXor(Rotr(x, 17), Rotr(x, 19), Shr(x, 10), i);
    RotrBit(x, 7, i);
    RotrBit(x, 18, i);
    ShrBit(x, 3, i);
    RotrBit(x, 17, i);
    RotrBit(x, 19, i);
    ShrBit(x, 10, i);
  }

  lemma PlusSum(a: nat, x: word, b: word)
    requires x == a % TWO32
    ensures Plus(x, b) == (a + b) % TWO32
  {
  }

  /** Two sums that agree modulo 2^32 and in all but one word agree in it. */
  lemma Cancels(x: word, y: word, rest: nat)
    requires (x + rest) % TWO32 == (y + rest) % TWO32
    ensures x == y
  {
    var q, r := (x + rest) / TWO32, (y + rest) / TWO32;
    assert x + rest - TWO32 * q == y + rest - TWO32 * r;
  }

  lemma FiveSum(a: word, b: word, c: word, d: word, e: word)
    ensures Plus(Plus(Plus(Plus(a, b), c), d), e) == (a + b + c + d + e) % TWO32
  {
    hide Plus;
    PlusSum(a, a, b);
    PlusSum(a + b, Plus(a, b), c);
    PlusSum(a + b + c, Plus(Plus(a, b), c), d);
    PlusSum(a + b + c + d, Plus(Plus(Plus(a, b), c), d), e);
  }

  lemma TwoSums(t: nat, t1: word, x: word, y: word)
    requires t1 == t % TWO32
    ensures Plus(t1, Plus(x, y)) == (t + x + y) % TWO32
  {
    hide Plus;
    PlusSum(x, x, y);
    PlusSum(t, t1, Plus(x, y));
    ModAdds(t, x + y);
  }

  lemma ModAdds(a: nat, b: nat)
    ensures (a + b % TWO32) % TWO32 == (a + b) % TWO32
  {
  }

  /** One round in whole numbers: two registers take a sum modulo 2^32, the others move on by one. */
  lemma RoundSums(r: Regs, k: word, w: word)
    ensures var n := Round(r, k, w);
      var t1 := r.h + BigSigma1(r.e) + Ch(r.e, r.f, r.g) + k + w;
      && n.a == (t1 + BigSigma0(r.a) + Maj(r.a, r.b, r.c)) % TWO32 && n.e == (t1 + r.d) % TWO32
      && n.b == r.a && n.c == r.b && n.d == r.c && n.f == r.e && n.g == r.f && n.h == r.g
  {
    hide BigSigma0, BigSigma1, Ch, Maj, Plus;
    var s1, ch := BigSigma1(r.e), Ch(r.e, r.f, r.g);
    var s0, maj := BigSigma0(r.a), Maj(r.a, r.b, r.c);
    var t := r.h + s1 + ch + k + w;
    var t1 := Plus(Plus(Plus(Plus(r.h, s1), ch), k), w);
    FiveSum(r.h, s1, ch, k, w);
    TwoSums(t, t1, s0, maj);
    PlusCommutes(r.d, t1);
    PlusSum(t, t1, r.d);
  }

  lemma PlusCommutes(x: word, y: word)
    ensures Plus(x, y) == Plus(y, x)
  {
  }

  /** A round loses nothing: whoever knows its constant and word can take it back. */
  lemma RoundIsInjective(r: Regs, s: Regs, k: word, w: word)
    requires Round(r, k, w) == Round(s, k, w)
    ensures r == s
  {
    RoundSums(r, k, w);
    RoundSums(s, k, w);
    hide BigSigma0, BigSigma1, Ch, Maj, Plus, Round;
    var rest := BigSigma1(r.e) + Ch(r.e, r.f, r.g) + k + w;
    Cancels(r.h, s.h, rest + BigSigma0(r.a) + Maj(r.a, r.b, r.c));
    Cancels(r.d, s.d, r.h + rest);
  }

  /** The message schedule: the words of the block, read as numbers. */
  lemma ScheduleStarts(block: Block, t: nat)
    requires t < 16
    ensures W(block, t) == Number(block[4 * t..4 * t + 4])
  {
    hide SmallSigma0, SmallSigma1, Number;
    FourBytes(block[4 * t..4 * t + 4]);
  }

  lemma FourSum(a: word, b: word, c: word, d: word)
    ensures Plus(Plus(Plus(a, b), c), d) == (a + b + c + d) % TWO32
  {
    hide Plus;
    PlusSum(a, a, b);
    PlusSum(a + b, Plus(a, b), c);
    PlusSum(a + b + c, Plus(Plus(a, b), c), d);
  }

  /** And from the sixteenth on, sums of whole numbers modulo 2^32. */
  lemma ScheduleSums(block: Block, t: nat, w2: word, w7: word, w15: word, w16: word)
    requires 16 <= t < 64
    requires w2 == W(block, t - 2) && w7 == W(block, t - 7) && w15 == W(block, t - 15) && w16 == W(block, t - 16)
    ensures W(block, t) == (SmallSigma1(w2) + w7 + SmallSigma0(w15) + w16) % TWO32
  {
    hide SmallSigma0, SmallSigma1, Plus;
    FourSum(SmallSigma1(w2), w7, SmallSigma0(w15), w16);
  }

  /** The rounds take the constants and the words in order. */
  lemma RoundsFollow(start: Regs, block: Block, t: nat, before: Regs)
    requires t < 64 && before == Rounds(start, block, t)
    ensures Rounds(start, block, t + 1) == Round(before, K(t), W(block, t))
    ensures Rounds(start, block, 0) == start
  {
    hide Round, W;
  }

  lemma FourBytes(b: bytes)
    requires |b| == 4
    ensures Number(b) == Word(b)
  {
    assert b[..3][..2] == b[..2] && b[..2][..1] == b[..1] && b[..1][..0] == [];
    assert Number(b[..1]) == b[0];
    assert Number(b[..2]) == b[0] as int * 256 + b[1];
    assert Number(b[..3]) == (b[0] as int * 256 + b[1]) * 256 + b[2];
  }

  /** The hash value after one more block: every register adds its 64 rounds, modulo 2^32. */
  lemma BlockAdds(blocks: seq<Block>, block: Block)
    ensures var before := HashValue(blocks);
      HashValue(blocks + [block]) == Add(before, Rounds(before, block, 64))
    ensures HashValue([]) == Regs(0x6a09e667, 0xbb67ae85, 0x3c6ef372, 0xa54ff53a,
                                  0x510e527f, 0x9b05688c, 0x1f83d9ab, 0x5be0cd19)
  {
    hide Rounds, Add;
    assert (blocks + [block])[..|blocks|] == blocks;
  }

  lemma AddSums(x: Regs, y: Regs, j: nat)
    requires j < 8
    ensures Words(Add(x, y))[j] == (Words(x)[j] + Words(y)[j]) % TWO32
  {
  }

  lemma ByteSplits(n: nat, q: nat, r: nat)
    requires q == n / 256 && r == n % 256
    ensures n == Pow2(8) * q + r && r < Pow2(8)
  {
    assert Pow2(8) == 256;
  }

  lemma {:induction false} BigEndianBits(n: nat, width: nat)
    ensures BitsOf(BigEndian(n, width)) == Binary(n, 8 * width)
  {
    if width > 0 {
      var b, q, r := BigEndian(n, width), n / 256, n % 256;
      assert b[..width - 1] == BigEndian(q, width - 1) && b[width - 1] == r;
      BigEndianBits(q, width - 1);
      ByteSplits(n, q, r);
      BinarySplits(n, 8 * (width - 1), 8, q, r);
      assert 8 * (width - 1) + 8 == 8 * width;
    }
  }

  lemma OneBit()
    ensures BitsOf([0x80]) == [true] + ZeroBits(7)
  {
    var b: bytes := [0x80];
    assert b[..0] == [];
    assert Binary(0x80, 8) == [true, false, false, false, false, false, false, false];
  }

  /** So many zero bits reach 64 short of a multiple of 512. */
  predicate Reaches(l: nat, zeros: nat) {
    (l + 1 + zeros) % 512 == 448
  }

  /** Whole blocks do not matter. */
  lemma ReachesModulo(q: nat, m: nat, zeros: nat)
    ensures Reaches(8 * (64 * q + m), zeros) == Reaches(8 * m, zeros)
  {
    assert 8 * (64 * q + m) + 1 + zeros == 512 * q + (8 * m + 1 + zeros);
  }

  lemma FewestZerosOf(m: nat)
    requires m < 64
    ensures Reaches(8 * m, 7 + 8 * Fill(m)) && forall j: nat :: j < 7 + 8 * Fill(m) ==> !Reaches(8 * m, j)
  {
  }

  lemma FewestZeros(n: nat)
    ensures var k := 7 + 8 * Fill(n);
      Reaches(8 * n, k) && forall j: nat :: j < k ==> !Reaches(8 * n, j)
  {
    var q, m := n / 64, n % 64;
    FewestZerosOf(m);
    forall j: nat ensures Reaches(8 * n, j) == Reaches(8 * m, j) {
      ReachesModulo(q, m, j);
    }
  }

  /** The padding loop stops no sooner than it should. */
  lemma FillIsLeast(n: nat, k: nat)
    requires k <= Fill(n) && (n + 1 + k) % 64 == 56
    ensures k == Fill(n)
  {
  }

  lemma PadBits(data: bytes, l: nat)
    requires l == 8 * |data| % TWO64
    ensures BitsOf(Pad(data)) == BitsOf(data) + BitsOf([0x80]) + BitsOf(Zeros(Fill(|data|))) + BitsOf(BigEndian(l, 8))
  {
    var head, mid, tail := data + [0x80], Zeros(Fill(|data|)), BigEndian(l, 8);
    BitsConcat(head + mid, tail);
    BitsConcat(head, mid);
    BitsConcat(data, [0x80]);
  }

  lemma Regroup(x: bits, one: bits, zeros: bits, k: nat, z: bits)
    requires one == [true] + ZeroBits(7) && zeros == ZeroBits(8 * k)
    ensures x + one + zeros + z == x + [true] + ZeroBits(7 + 8 * k) + z
  {
    assert ZeroBits(7) + ZeroBits(8 * k) == ZeroBits(7 + 8 * k);
    assert x + one + zeros == x + [true] + (ZeroBits(7) + ZeroBits(8 * k));
  }

  /**
   * Section 5.1.1: the message, a one bit, k zero bits, and the length in bits. FewestZeros says
   * that k is the least number that leaves 64 bits to a multiple of 512.
   */
  lemma PadIsThePadding(data: bytes, l: nat, k: nat)
    requires l == 8 * |data| && k == 7 + 8 * Fill(|data|)
    ensures BitsOf(Pad(data)) == BitsOf(data) + [true] + ZeroBits(k) + Binary(l % TWO64, 64)
  {
    var fill := Fill(|data|);
    PadBits(data, l % TWO64);
    OneBit();
    ZerosBits(fill);
    BigEndianBits(l % TWO64, 8);
    Regroup(BitsOf(data), BitsOf([0x80]), BitsOf(Zeros(fill)), fill, Binary(l % TWO64, 64));
  }

  // ---- padding loses nothing -----------------------------------------------------------------

  function Number(b: bytes): nat {
    if b == [] then 0 else 256 * Number(b[..|b| - 1]) + b[|b| - 1]
  }

  function Pow256(k: nat): nat {
    if k == 0 then 1 else 256 * Pow256(k - 1)
  }

  lemma {:induction false} BigEndianReads(n: nat, width: nat)
    requires n < Pow256(width)
    ensures Number(BigEndian(n, width)) == n
  {
    if width > 0 {
      var b := BigEndian(n, width);
      assert b[..width - 1] == BigEndian(n / 256, width - 1);
      BigEndianReads(n / 256, width - 1);
    }
  }

  lemma SplitPad(data: bytes, front: bytes, l: nat)
    requires l == 8 * |data| && l < TWO64 && front == data + [0x80] + Zeros(Fill(|data|))
    ensures Pad(data) == front + BigEndian(l, 8) && front[..|data|] == data
  {
    assert l % TWO64 == l;
    assert data + [0x80] + Zeros(Fill(|data|)) == data + ([0x80] + Zeros(Fill(|data|)));
  }

  lemma SameEnds(fx: bytes, lx: bytes, fy: bytes, ly: bytes)
    requires fx + lx == fy + ly && |lx| == |ly|
    ensures fx == fy && lx == ly
  {
    assert |fx| == |fy|;
    assert fx == (fx + lx)[..|fx|] == (fy + ly)[..|fy|] == fy;
    assert lx == (fx + lx)[|fx|..] == (fy + ly)[|fy|..] == ly;
  }

  /** Messages below 2^61 bytes, the length field's range, are told apart by their padding. */
  lemma PadIsInjective(x: bytes, y: bytes)
    requires |x| < 0x2000_0000_0000_0000 && |y| < 0x2000_0000_0000_0000 && Pad(x) == Pad(y)
    ensures x == y
  {
    var fx, fy := x + [0x80] + Zeros(Fill(|x|)), y + [0x80] + Zeros(Fill(|y|));
    var lx, ly := 8 * |x|, 8 * |y|;
    SplitPad(x, fx, lx);
    SplitPad(y, fy, ly);
    SameEnds(fx, BigEndian(lx, 8), fy, BigEndian(ly, 8));
    assert Pow256(8) == TWO64;
    BigEndianReads(lx, 8);
    BigEndianReads(ly, 8);
  }

  // ---- the output ----------------------------------------------------------------------------

  function HexDigit(v: nat): char
    requires v < 16
  {
    if v < 10 then '0' + v as char else 'a' + (v - 10) as char
  }

  /** The low digits of n, most significant first. */
  function HexDigits(n: nat, width: nat): (s: string)
    ensures |s| == width
    decreases width, n
  {
    if width == 0 then "" else HexDigits(n / 16, width - 1) + [HexDigit(n % 16)]
  }

  function Words(r: Regs): seq<word> { [r.a, r.b, r.c, r.d, r.e, r.f, r.g, r.h] }

  function HexOf(ws: seq<word>): (s: string)
    ensures |s| == 8 * |ws|
  {
    if ws == [] then "" else HexOf(ws[..|ws| - 1]) + HexDigits(ws[|ws| - 1], 8)
  }

  function DigitValue(c: char): nat {
    if '0' <= c <= '9' then (c - '0') as nat else if 'a' <= c <= 'f' then (c - 'a') as nat + 10 else 0
  }

  function HexValue(s: string): nat {
    if s == "" then 0 else 16 * HexValue(s[..|s| - 1]) + DigitValue(s[|s| - 1])
  }

  function Pow16(k: nat): nat {
    if k == 0 then 1 else 16 * Pow16(k - 1)
  }

  lemma {:induction false} HexDigitsRead(n: nat, width: nat)
    requires n < Pow16(width)
    ensures HexValue(HexDigits(n, width)) == n
  {
    if width > 0 {
      var s := HexDigits(n, width);
      assert s[..width - 1] == HexDigits(n / 16, width - 1);
      HexDigitsRead(n / 16, width - 1);
    }
  }

  /** The output is 64 digits; each group of eight reads back as its word of the hash value. */
  lemma {:induction false} HexReads(ws: seq<word>, i: nat)
    requires i < |ws|
    ensures HexValue(HexOf(ws)[8 * i..8 * i + 8]) == ws[i]
  {
    var n := |ws| - 1;
    var s := HexOf(ws);
    if i == n {
      assert s[8 * i..8 * i + 8] == HexDigits(ws[n], 8);
      assert Pow16(8) == 0x1_0000_0000;
      HexDigitsRead(ws[n], 8);
    } else {
      assert s[8 * i..8 * i + 8] == HexOf(ws[..n])[8 * i..8 * i + 8];
      HexReads(ws[..n], i);
    }
  }

  // ---- the code ------------------------------------------------------------------------------

  /** The digest's text gives its registers back, from a to h. */
  lemma TextReads(r: Regs)
    ensures var text := HexOf(Words(r));
      && |text| == 64
      && HexValue(text[..8]) == r.a && HexValue(text[8..16]) == r.b && HexValue(text[16..24]) == r.c
      && HexValue(text[24..32]) == r.d && HexValue(text[32..40]) == r.e && HexValue(text[40..48]) == r.f
      && HexValue(text[48..56]) == r.g && HexValue(text[56..]) == r.h
  {
    hide HexOf, HexValue;
    var ws := Words(r);
    HexReads(ws, 0);
    HexReads(ws, 1);
    HexReads(ws, 2);
    HexReads(ws, 3);
    HexReads(ws, 4);
    HexReads(ws, 5);
    HexReads(ws, 6);
    HexReads(ws, 7);
    assert HexOf(ws)[0..8] == HexOf(ws)[..8] && HexOf(ws)[56..64] == HexOf(ws)[56..];
  }

  /** The padding loop. */
  method PadMessage(data: bytes) returns (msg: bytes)
    ensures msg == Pad(data)
  {
    var bitLen := 8 * |data| % TWO64;
    msg := data + [0x80];
    ghost var k := 0;
    while |msg| % 64 != 56
      invariant k <= Fill(|data|) && msg == data + [0x80] + Zeros(k)
      decreases Fill(|data|) - k
    {
      msg := msg + [0];
      k := k + 1;
    }
    FillIsLeast(|data|, k);
    msg := msg + BigEndian(bitLen, 8);
  }

  lemma PlusAssociates(x: word, y: word, z: word)
    ensures Plus(Plus(x, y), z) == Plus(x, Plus(y, z))
  {
  }

  lemma SumOrder(p: word, q: word, r: word, s: word)
    ensures Plus(Plus(Plus(p, q), r), s) == Plus(Plus(Plus(s, r), q), p)
  {
    PlusAssociates(Plus(s, r), q, p);
    PlusAssociates(s, r, Plus(q, p));
    assert Plus(q, p) == Plus(p, q);
    assert Plus(r, Plus(p, q)) == Plus(Plus(p, q), r);
    assert Plus(s, Plus(Plus(p, q), r)) == Plus(Plus(Plus(p, q), r), s);
  }

  /** One turn of the rounds' loop. */
  lemma RoundIs(r: Regs, k: word, w: word, s1: word, ch: word, t1: word, s0: word, maj: word)
    requires s1 == Xor(Xor(Rotr(r.e, 6), Rotr(r.e, 11)), Rotr(r.e, 25))
    requires ch == Xor(And(r.e, r.f), And(Not(r.e), r.g)) && t1 == Plus(Plus(Plus(Plus(r.h, s1), ch), k), w)
    requires s0 == Xor(Xor(Rotr(r.a, 2), Rotr(r.a, 13)), Rotr(r.a, 22))
    requires maj == Xor(Xor(And(r.a, r.b), And(r.a, r.c)), And(r.b, r.c))
    ensures Round(r, k, w) == Regs(Plus(t1, Plus(s0, maj)), r.a, r.b, r.c, Plus(r.d, t1), r.e, r.f, r.g)
  {
    assert s1 == BigSigma1(r.e) && ch == Ch(r.e, r.f, r.g) && s0 == BigSigma0(r.a) && maj == Maj(r.a, r.b, r.c);
  }

  /** The words below i are the schedule's. */
  ghost predicate Filled(w: array<word>, block: Block, i: nat)
    requires w.Length == 64
    reads w
  {
    forall t :: 0 <= t < i && t < 64 ==> w[t] == W(block, t)
  }

  lemma ScheduleStep(block: Block, i: nat, w16: word, w15: word, w7: word, w2: word, s0: word, s1: word)
    requires 16 <= i < 64 && w16 == W(block, i - 16) && w15 == W(block, i - 15)
    requires w7 == W(block, i - 7) && w2 == W(block, i - 2)
    requires s0 == Xor(Xor(Rotr(w15, 7), Rotr(w15, 18)), Shr(w15, 3))
    requires s1 == Xor(Xor(Rotr(w2, 17), Rotr(w2, 19)), Shr(w2, 10))
    ensures Plus(Plus(Plus(w16, s0), w7), s1) == W(block, i)
  {
    SumOrder(w16, s0, w7, s1);
  }

  /** The schedule, in place: first 16 words of the block, */
  method LoadBlock(w: array<word>, block: Block)
    requires w.Length == 64
    modifies w
    ensures Filled(w, block, 16)
  {
    for i := 0 to 16
      invariant Filled(w, block, i)
    {
      w[i] := Word(block[4 * i..4 * i + 4]);
    }
  }

  /** and then 48 from the words before. */
  method ExtendSchedule(w: array<word>, ghost block: Block)
    requires w.Length == 64 && Filled(w, block, 16)
    modifies w
    ensures Filled(w, block, 64)
  {
    for i := 16 to 64
      invariant Filled(w, block, i)
    {
      ExtendByOne(w, block, i);
    }
  }

  method ExtendByOne(w: array<word>, ghost block: Block, i: nat)
    requires w.Length == 64 && 16 <= i < 64 && Filled(w, block, i)
    modifies w
    ensures Filled(w, block, i + 1)
  {
    var w16, w15, w7, w2 := w[i - 16], w[i - 15], w[i - 7], w[i - 2];
    var s0 := Xor(Xor(Rotr(w15, 7), Rotr(w15, 18)), Shr(w15, 3));
    var s1 := Xor(Xor(Rotr(w2, 17), Rotr(w2, 19)), Shr(w2, 10));
    ScheduleStep(block, i, w16, w15, w7, w2, s0, s1);
    w[i] := Plus(Plus(Plus(w16, s0), w7), s1);
  }

  /** The 64 rounds on rolling registers. */
  method Compress(start: Regs, w: array<word>, ghost block: Block) returns (r: Regs)
    requires w.Length == 64 && Filled(w, block, 64)
    ensures r == Rounds(start, block, 64)
  {
    var a, b, c, d, e, f, g, hh := start.a, start.b, start.c, start.d, start.e, start.f, start.g, start.h;
    for i := 0 to 64
      invariant Regs(a, b, c, d, e, f, g, hh) == Rounds(start, block, i)
    {
      var s1 := Xor(Xor(Rotr(e, 6), Rotr(e, 11)), Rotr(e, 25));
      var ch := Xor(And(e, f), And(Not(e), g));
      var t1 := Plus(Plus(Plus(Plus(hh, s1), ch), K(i)), w[i]);
      var s0 := Xor(Xor(Rotr(a, 2), Rotr(a, 13)), Rotr(a, 22));
      var maj := Xor(Xor(And(a, b), And(a, c)), And(b, c));
      var t2 := Plus(s0, maj);
      RoundIs(Regs(a, b, c, d, e, f, g, hh), K(i), w[i], s1, ch, t1, s0, maj);
      hh := g;
      g := f;
      f := e;
      e := Plus(d, t1);
      d := c;
      c := b;
      b := a;
      a := Plus(t1, t2);
    }
    r := Regs(a, b, c, d, e, f, g, hh);
  }

  /** The loop over the blocks. */
  method HashBlocks(blocks: seq<Block>) returns (h: Regs)
    ensures h == HashValue(blocks)
  {
    h := InitialRegs();
    var w := new word[64];
    for n := 0 to |blocks|
      invariant h == HashValue(blocks[..n])
    {
      assert blocks[..n + 1][..n] == blocks[..n];
      h := HashBlock(h, w, blocks[n]);
    }
    assert blocks[..|blocks|] == blocks;
  }

  method HashBlock(h: Regs, w: array<word>, block: Block) returns (r: Regs)
    requires w.Length == 64
    modifies w
    ensures r == Add(h, Rounds(h, block, 64))
  {
    LoadBlock(w, block);
    ExtendSchedule(w, block);
    r := Compress(h, w, block);
    r := Add(h, r);
  }

  /** The words as text. */
  method FormatHex(words: seq<word>) returns (out: string)
    ensures out == HexOf(words)
  {
    out := "";
    for i := 0 to |words|
      invariant out == HexOf(words[..i])
    {
      assert words[..i + 1][..i] == words[..i];
      out := out + HexDigits(words[i], 8);
    }
    assert words[..|words|] == words;
  }

  /** sha256_hex */
  method Sha256Hex(data: bytes) returns (out: string)
    ensures out == HexOf(Words(Digest(data))) && |out| == 64
  {
    var msg := PadMessage(data);
    var h := HashBlocks(Chunks(msg));
    out := FormatHex(Words(h));
  }
}
