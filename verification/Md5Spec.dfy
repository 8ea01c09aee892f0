/** The MD5 digest as sections 3.1 to 3.5 of RFC 1321 define it, for a whole message. */
module Md5Spec {

  datatype Regs = Regs(a: bv32, b: bv32, c: bv32, d: bv32)

  // ---- section 3.1 and 3.2: padding and length ----

  function Zeros(n: nat): (r: seq<bv8>)
    ensures |r| == n
  {
    seq(n, _ => 0)
  }

  /** Zero bytes between the 0x80 byte and the length. */
  function ZeroCount(len: nat): nat { (55 - len) % 64 }

  function ByteAt(x: nat, place: nat): bv8
    requires place > 0
  {
    ((x / place) % 256) as bv8
  }

  /** Eight bytes, low-order byte first. */
  function Le64(x: nat): (r: seq<bv8>)
    ensures |r| == 8
  {
    [ByteAt(x, 1), ByteAt(x, 0x100), ByteAt(x, 0x1_0000), ByteAt(x, 0x100_0000),
     ByteAt(x, 0x1_0000_0000), ByteAt(x, 0x100_0000_0000),
     ByteAt(x, 0x1_0000_0000_0000), ByteAt(x, 0x100_0000_0000_0000)]
  }

  function Power256(i: nat): (n: nat)
    ensures n > 0
  {
    if i == 0 then 1 else 256 * Power256(i - 1)
  }

  lemma Powers()
    ensures Power256(1) == 0x100 && Power256(2) == 0x1_0000 && Power256(3) == 0x100_0000
    ensures Power256(4) == 0x1_0000_0000 && Power256(5) == 0x100_0000_0000
    ensures Power256(6) == 0x1_0000_0000_0000 && Power256(7) == 0x100_0000_0000_0000
  {
    assert Power256(3) == 256 * Power256(2) && Power256(5) == 256 * Power256(4);
  }

  /** Byte i of the length is its digit i to the base 256. */
  lemma LengthDigits(x: nat, i: nat)
    requires i < 8
    ensures Le64(x)[i] == ByteAt(x, Power256(i))
  {
    hide ByteAt;
    Powers();
  }

  function Pad(m: seq<bv8>): seq<bv8> {
    m + [0x80] + Zeros(ZeroCount(|m|)) + Le64(8 * |m|)
  }

  /** Padding is always done, with the fewest bytes that leave room for the length at the end
      of a block; nothing of the message is lost. */
  lemma PaddingIsLeast(m: seq<bv8>)
    ensures |Pad(m)| % 64 == 0 && |m| + 9 <= |Pad(m)| < |m| + 9 + 64
    ensures m <= Pad(m)
  {
    hide Le64;
    assert Pad(m) == m + ([0x80] + Zeros(ZeroCount(|m|)) + Le64(8 * |m|));
  }

  // ---- section 3.4: one block ----

  function F(x: bv32, y: bv32, z: bv32): bv32 { (x & y) | (!x & z) }
  function G(x: bv32, y: bv32, z: bv32): bv32 { (x & z) | (y & !z) }
  function H(x: bv32, y: bv32, z: bv32): bv32 { x ^ y ^ z }
  function I(x: bv32, y: bv32, z: bv32): bv32 { y ^ (x | !z) }

  /** Addition of words, modulo 2^32. */
  function Add(x: bv32, y: bv32): bv32 { x + y }

  function Rotl(x: bv32, s: nat): bv32
    requires 0 < s < 32
  {
    (x << s) | (x >> (32 - s))
  }

  function LeWord(b0: bv8, b1: bv8, b2: bv8, b3: bv8): bv32 {
    (b0 as bv32) | ((b1 as bv32) << 8) | ((b2 as bv32) << 16) | ((b3 as bv32) << 24)
  }

  /** Word k of a block. */
  function X(block: seq<bv8>, k: nat): bv32
    requires |block| == 64 && k < 16
  {
    LeWord(block[4 * k], block[4 * k + 1], block[4 * k + 2], block[4 * k + 3])
  }

  /** The word that step i (from 0) mixes in. */
  function WordIndex(i: nat): (k: nat)
    ensures k < 16
  {
    if i < 16 then i % 16 else if i < 32 then (5 * i + 1) % 16
    else if i < 48 then (3 * i + 5) % 16 else (7 * i) % 16
  }

  /** The rotation of step i. */
  function Shift(i: nat): (s: nat)
    ensures 0 < s < 32
  {
    var j := i % 4;
    if i < 16 then (if j == 0 then 7 else if j == 1 then 12 else if j == 2 then 17 else 22)
    else if i < 32 then (if j == 0 then 5 else if j == 1 then 9 else if j == 2 then 14 else 20)
    else if i < 48 then (if j == 0 then 4 else if j == 1 then 11 else if j == 2 then 16 else 23)
    else (if j == 0 then 6 else if j == 1 then 10 else if j == 2 then 15 else 21)
  }

  function Mix(i: nat, x: bv32, y: bv32, z: bv32): bv32 {
    if i < 16 then F(x, y, z) else if i < 32 then G(x, y, z)
    else if i < 48 then H(x, y, z) else I(x, y, z)
  }

  /** The table T[1..64] of section 3.4, from 0. */
  function T(i: nat): bv32 {
    match i
    case 0 => 0xd76aa478
    case 1 => 0xe8c7b756
    case 2 => 0x242070db
    case 3 => 0xc1bdceee
    case 4 => 0xf57c0faf
    case 5 => 0x4787c62a
    case 6 => 0xa8304613
    case 7 => 0xfd469501
    case 8 => 0x698098d8
    case 9 => 0x8b44f7af
    case 10 => 0xffff5bb1
    case 11 => 0x895cd7be
    case 12 => 0x6b901122
    case 13 => 0xfd987193
    case 14 => 0xa679438e
    case 15 => 0x49b40821
    case 16 => 0xf61e2562
    case 17 => 0xc040b340
    case 18 => 0x265e5a51
    case 19 => 0xe9b6c7aa
    case 20 => 0xd62f105d
    case 21 => 0x02441453
    case 22 => 0xd8a1e681
    case 23 => 0xe7d3fbc8
    case 24 => 0x21e1cde6
    case 25 => 0xc33707d6
    case 26 => 0xf4d50d87
    case 27 => 0x455a14ed
    case 28 => 0xa9e3e905
    case 29 => 0xfcefa3f8
    case 30 => 0x676f02d9
    case 31 => 0x8d2a4c8a
    case 32 => 0xfffa3942
    case 33 => 0x8771f681
    case 34 => 0x6d9d6122
    case 35 => 0xfde5380c
    case 36 => 0xa4beea44
    case 37 => 0x4bdecfa9
    case 38 => 0xf6bb4b60
    case 39 => 0xbebfbc70
    case 40 => 0x289b7ec6
    case 41 => 0xeaa127fa
    case 42 => 0xd4ef3085
    case 43 => 0x04881d05
    case 44 => 0xd9d4d039
    case 45 => 0xe6db99e5
    case 46 => 0x1fa27cf8
    case 47 => 0xc4ac5665
    case 48 => 0xf4292244
    case 49 => 0x432aff97
    case 50 => 0xab9423a7
    case 51 => 0xfc93a039
    case 52 => 0x655b59c3
    case 53 => 0x8f0ccc92
    case 54 => 0xffeff47d
    case 55 => 0x85845dd1
    case 56 => 0x6fa87e4f
    case 57 => 0xfe2ce6e0
    case 58 => 0xa3014314
    case 59 => 0x4e0811a1
    case 60 => 0xf7537e82
    case 61 => 0xbd3af235
    case 62 => 0x2ad7d2bb
    case _ => 0xeb86d391
  }

  /** The operation of every step: b + ((a + mix + x + t) <<< s). */
  function Set(mix: bv32, a: bv32, b: bv32, x: bv32, s: nat, t: bv32): bv32
    requires 0 < s < 32
  {
    Add(Rotl(Add(Add(Add(a, mix), x), t), s), b)
  }

  /** Step i: a takes the value of the operation, and the registers change roles. */
  function Step(x: seq<bv32>, r: Regs, i: nat): Regs
    requires |x| == 16
  {
    Regs(r.d, Set(Mix(i, r.b, r.c, r.d), r.a, r.b, x[WordIndex(i)], Shift(i), T(i)), r.b, r.c)
  }

  /** Steps i to j - 1. */
  function Steps(x: seq<bv32>, r: Regs, i: nat, j: nat): Regs
    requires |x| == 16
    decreases x, j
  {
    if j <= i then r else Step(x, Steps(x, r, i, j - 1), j - 1)
  }

  lemma {:induction false} StepsCompose(x: seq<bv32>, r: Regs, i: nat, j: nat, k: nat)
    requires |x| == 16 && i <= j <= k
    ensures Steps(x, Steps(x, r, i, j), j, k) == Steps(x, r, i, k)
    decreases k
  {
    hide Step;
    if j < k { StepsCompose(x, r, i, j, k - 1); }
  }

  function Words(block: seq<bv8>): (x: seq<bv32>)
    requires |block| == 64
    ensures |x| == 16
  {
    seq(16, k requires 0 <= k < 16 => X(block, k))
  }

  function AddRegs(r: Regs, n: Regs): Regs {
    Regs(Add(r.a, n.a), Add(r.b, n.b), Add(r.c, n.c), Add(r.d, n.d))
  }

  function Compress(r: Regs, block: seq<bv8>): Regs
    requires |block| == 64
  {
    AddRegs(r, Steps(Words(block), r, 0, 64))
  }

  // ---- whole messages ----

  const INIT := Regs(0x67452301, 0xefcdab89, 0x98badcfe, 0x10325476)

  /** Length of the part of m that is whole blocks. */
  function Whole(m: seq<bv8>): (n: nat)
    ensures n % 64 == 0 && n <= |m| < n + 64
  {
    |m| / 64 * 64
  }

  lemma WholeIs(m: seq<bv8>, n: nat)
    requires n % 64 == 0 && n <= |m| < n + 64
    ensures Whole(m) == n && |m| - n == |m| % 64
  {
  }

  function Absorb(r: Regs, m: seq<bv8>): Regs
    requires |m| % 64 == 0
    decreases |m|
  {
    if m == [] then r else Absorb(Compress(r, m[..64]), m[64..])
  }

  lemma {:induction false} AbsorbConcat(r: Regs, a: seq<bv8>, b: seq<bv8>)
    requires |a| % 64 == 0 && |b| % 64 == 0
    ensures |a + b| % 64 == 0
    ensures Absorb(r, a + b) == Absorb(Absorb(r, a), b)
    decreases |a|
  {
    hide Compress;
    if a == [] {
      assert a + b == b;
    } else {
      assert (a + b)[..64] == a[..64] && (a + b)[64..] == a[64..] + b;
      AbsorbConcat(Compress(r, a[..64]), a[64..], b);
    }
  }

  lemma AbsorbBlock(r: Regs, m: seq<bv8>, block: seq<bv8>)
    requires |m| % 64 == 0 && |block| == 64
    ensures |m + block| % 64 == 0
    ensures Absorb(r, m + block) == Compress(Absorb(r, m), block)
  {
    hide Compress;
    AbsorbConcat(r, m, block);
    assert block[..64] == block && block[64..] == [];
  }

  // ---- section 3.5: output ----

  function WordBytes(w: bv32): (r: seq<bv8>)
    ensures |r| == 4
  {
    [(w & 0xff) as bv8, ((w >> 8) & 0xff) as bv8, ((w >> 16) & 0xff) as bv8, ((w >> 24) & 0xff) as bv8]
  }

  function Output(r: Regs): (o: seq<bv8>)
    ensures |o| == 16
  {
    WordBytes(r.a) + WordBytes(r.b) + WordBytes(r.c) + WordBytes(r.d)
  }

  /** The output is each register, low-order byte first. */
  lemma OutputReadsBack(w: bv32)
    ensures var b := WordBytes(w); LeWord(b[0], b[1], b[2], b[3]) == w
  {
  }

  function Digest(m: seq<bv8>): (d: seq<bv8>)
    ensures |d| == 16
  {
    PaddingIsLeast(m);
    Output(Absorb(INIT, Pad(m)))
  }
}
