/** The streaming MD5 of system/md5.cpp: input arrives in pieces of any size. */
module Md5 {
  import opened Md5Spec

  // ---- the 64 unrolled operations of md5_process, half a round at a time ----

  method Operations0To7(x: seq<bv32>, r: Regs) returns (r': Regs)
    requires |x| == 16
    ensures r' == Steps(x, r, 0, 8)
  {
    hide F, G, H, I, T, Set;
    var a, b, c, d := r.a, r.b, r.c, r.d;
    a := Set(F(b, c, d), a, b, x[0], 7, T(0));
    assert Steps(x, r, 0, 1) == Regs(d, a, b, c);
    d := Set(F(a, b, c), d, a, x[1], 12, T(1));
    assert Steps(x, r, 0, 2) == Regs(c, d, a, b);
    c := Set(F(d, a, b), c, d, x[2], 17, T(2));
    assert Steps(x, r, 0, 3) == Regs(b, c, d, a);
    b := Set(F(c, d, a), b, c, x[3], 22, T(3));
    assert Steps(x, r, 0, 4) == Regs(a, b, c, d);
    a := Set(F(b, c, d), a, b, x[4], 7, T(4));
    assert Steps(x, r, 0, 5) == Regs(d, a, b, c);
    d := Set(F(a, b, c), d, a, x[5], 12, T(5));
    assert Steps(x, r, 0, 6) == Regs(c, d, a, b);
    c := Set(F(d, a, b), c, d, x[6], 17, T(6));
    assert Steps(x, r, 0, 7) == Regs(b, c, d, a);
    b := Set(F(c, d, a), b, c, x[7], 22, T(7));
    assert Steps(x, r, 0, 8) == Regs(a, b, c, d);
    r' := Regs(a, b, c, d);
  }

  method Operations8To15(x: seq<bv32>, r: Regs) returns (r': Regs)
    requires |x| == 16
    ensures r' == Steps(x, r, 8, 16)
  {
    hide F, G, H, I, T, Set;
    var a, b, c, d := r.a, r.b, r.c, r.d;
    a := Set(F(b, c, d), a, b, x[8], 7, T(8));
    assert Steps(x, r, 8, 9) == Regs(d, a, b, c);
    d := Set(F(a, b, c), d, a, x[9], 12, T(9));
    assert Steps(x, r, 8, 10) == Regs(c, d, a, b);
    c := Set(F(d, a, b), c, d, x[10], 17, T(10));
    assert Steps(x, r, 8, 11) == Regs(b, c, d, a);
    b := Set(F(c, d, a), b, c, x[11], 22, T(11));
    assert Steps(x, r, 8, 12) == Regs(a, b, c, d);
    a := Set(F(b, c, d), a, b, x[12], 7, T(12));
    assert Steps(x, r, 8, 13) == Regs(d, a, b, c);
    d := Set(F(a, b, c), d, a, x[13], 12, T(13));
    assert Steps(x, r, 8, 14) == Regs(c, d, a, b);
    c := Set(F(d, a, b), c, d, x[14], 17, T(14));
    assert Steps(x, r, 8, 15) == Regs(b, c, d, a);
    b := Set(F(c, d, a), b, c, x[15], 22, T(15));
    assert Steps(x, r, 8, 16) == Regs(a, b, c, d);
    r' := Regs(a, b, c, d);
  }

  method Operations16To23(x: seq<bv32>, r: Regs) returns (r': Regs)
    requires |x| == 16
    ensures r' == Steps(x, r, 16, 24)
  {
    hide F, G, H, I, T, Set;
    var a, b, c, d := r.a, r.b, r.c, r.d;
    a := Set(G(b, c, d), a, b, x[1], 5, T(16));
    assert Steps(x, r, 16, 17) == Regs(d, a, b, c);
    d := Set(G(a, b, c), d, a, x[6], 9, T(17));
    assert Steps(x, r, 16, 18) == Regs(c, d, a, b);
    c := Set(G(d, a, b), c, d, x[11], 14, T(18));
    assert Steps(x, r, 16, 19) == Regs(b, c, d, a);
    b := Set(G(c, d, a), b, c, x[0], 20, T(19));
    assert Steps(x, r, 16, 20) == Regs(a, b, c, d);
    a := Set(G(b, c, d), a, b, x[5], 5, T(20));
    assert Steps(x, r, 16, 21) == Regs(d, a, b, c);
    d := Set(G(a, b, c), d, a, x[10], 9, T(21));
    assert Steps(x, r, 16, 22) == Regs(c, d, a, b);
    c := Set(G(d, a, b), c, d, x[15], 14, T(22));
    assert Steps(x, r, 16, 23) == Regs(b, c, d, a);
    b := Set(G(c, d, a), b, c, x[4], 20, T(23));
    assert Steps(x, r, 16, 24) == Regs(a, b, c, d);
    r' := Regs(a, b, c, d);
  }

  method Operations24To31(x: seq<bv32>, r: Regs) returns (r': Regs)
    requires |x| == 16
    ensures r' == Steps(x, r, 24, 32)
  {
    hide F, G, H, I, T, Set;
    var a, b, c, d := r.a, r.b, r.c, r.d;
    a := Set(G(b, c, d), a, b, x[9], 5, T(24));
    assert Steps(x, r, 24, 25) == Regs(d, a, b, c);
    d := Set(G(a, b, c), d, a, x[14], 9, T(25));
    assert Steps(x, r, 24, 26) == Regs(c, d, a, b);
    c := Set(G(d, a, b), c, d, x[3], 14, T(26));
    assert Steps(x, r, 24, 27) == Regs(b, c, d, a);
    b := Set(G(c, d, a), b, c, x[8], 20, T(27));
    assert Steps(x, r, 24, 28) == Regs(a, b, c, d);
    a := Set(G(b, c, d), a, b, x[13], 5, T(28));
    assert Steps(x, r, 24, 29) == Regs(d, a, b, c);
    d := Set(G(a, b, c), d, a, x[2], 9, T(29));
    assert Steps(x, r, 24, 30) == Regs(c, d, a, b);
    c := Set(G(d, a, b), c, d, x[7], 14, T(30));
    assert Steps(x, r, 24, 31) == Regs(b, c, d, a);
    b := Set(G(c, d, a), b, c, x[12], 20, T(31));
    assert Steps(x, r, 24, 32) == Regs(a, b, c, d);
    r' := Regs(a, b, c, d);
  }

  method Operations32To39(x: seq<bv32>, r: Regs) returns (r': Regs)
    requires |x| == 16
    ensures r' == Steps(x, r, 32, 40)
  {
    hide F, G, H, I, T, Set;
    var a, b, c, d := r.a, r.b, r.c, r.d;
    a := Set(H(b, c, d), a, b, x[5], 4, T(32));
    assert Steps(x, r, 32, 33) == Regs(d, a, b, c);
    d := Set(H(a, b, c), d, a, x[8], 11, T(33));
    assert Steps(x, r, 32, 34) == Regs(c, d, a, b);
    c := Set(H(d, a, b), c, d, x[11], 16, T(34));
    assert Steps(x, r, 32, 35) == Regs(b, c, d, a);
    b := Set(H(c, d, a), b, c, x[14], 23, T(35));
    assert Steps(x, r, 32, 36) == Regs(a, b, c, d);
    a := Set(H(b, c, d), a, b, x[1], 4, T(36));
    assert Steps(x, r, 32, 37) == Regs(d, a, b, c);
    d := Set(H(a, b, c), d, a, x[4], 11, T(37));
    assert Steps(x, r, 32, 38) == Regs(c, d, a, b);
    c := Set(H(d, a, b), c, d, x[7], 16, T(38));
    assert Steps(x, r, 32, 39) == Regs(b, c, d, a);
    b := Set(H(c, d, a), b, c, x[10], 23, T(39));
    assert Steps(x, r, 32, 40) == Regs(a, b, c, d);
    r' := Regs(a, b, c, d);
  }

  method Operations40To47(x: seq<bv32>, r: Regs) returns (r': Regs)
    requires |x| == 16
    ensures r' == Steps(x, r, 40, 48)
  {
    hide F, G, H, I, T, Set;
    var a, b, c, d := r.a, r.b, r.c, r.d;
    a := Set(H(b, c, d), a, b, x[13], 4, T(40));
    assert Steps(x, r, 40, 41) == Regs(d, a, b, c);
    d := Set(H(a, b, c), d, a, x[0], 11, T(41));
    assert Steps(x, r, 40, 42) == Regs(c, d, a, b);
    c := Set(H(d, a, b), c, d, x[3], 16, T(42));
    assert Steps(x, r, 40, 43) == Regs(b, c, d, a);
    b := Set(H(c, d, a), b, c, x[6], 23, T(43));
    assert Steps(x, r, 40, 44) == Regs(a, b, c, d);
    a := Set(H(b, c, d), a, b, x[9], 4, T(44));
    assert Steps(x, r, 40, 45) == Regs(d, a, b, c);
    d := Set(H(a, b, c), d, a, x[12], 11, T(45));
    assert Steps(x, r, 40, 46) == Regs(c, d, a, b);
    c := Set(H(d, a, b), c, d, x[15], 16, T(46));
    assert Steps(x, r, 40, 47) == Regs(b, c, d, a);
    b := Set(H(c, d, a), b, c, x[2], 23, T(47));
    assert Steps(x, r, 40, 48) == Regs(a, b, c, d);
    r' := Regs(a, b, c, d);
  }

  method Operations48To55(x: seq<bv32>, r: Regs) returns (r': Regs)
    requires |x| == 16
    ensures r' == Steps(x, r, 48, 56)
  {
    hide F, G, H, I, T, Set;
    var a, b, c, d := r.a, r.b, r.c, r.d;
    a := Set(I(b, c, d), a, b, x[0], 6, T(48));
    assert Steps(x, r, 48, 49) == Regs(d, a, b, c);
    d := Set(I(a, b, c), d, a, x[7], 10, T(49));
    assert Steps(x, r, 48, 50) == Regs(c, d, a, b);
    c := Set(I(d, a, b), c, d, x[14], 15, T(50));
    assert Steps(x, r, 48, 51) == Regs(b, c, d, a);
    b := Set(I(c, d, a), b, c, x[5], 21, T(51));
    assert Steps(x, r, 48, 52) == Regs(a, b, c, d);
    a := Set(I(b, c, d), a, b, x[12], 6, T(52));
    assert Steps(x, r, 48, 53) == Regs(d, a, b, c);
    d := Set(I(a, b, c), d, a, x[3], 10, T(53));
    assert Steps(x, r, 48, 54) == Regs(c, d, a, b);
    c := Set(I(d, a, b), c, d, x[10], 15, T(54));
    assert Steps(x, r, 48, 55) == Regs(b, c, d, a);
    b := Set(I(c, d, a), b, c, x[1], 21, T(55));
    assert Steps(x, r, 48, 56) == Regs(a, b, c, d);
    r' := Regs(a, b, c, d);
  }

  method Operations56To63(x: seq<bv32>, r: Regs) returns (r': Regs)
    requires |x| == 16
    ensures r' == Steps(x, r, 56, 64)
  {
    hide F, G, H, I, T, Set;
    var a, b, c, d := r.a, r.b, r.c, r.d;
    a := Set(I(b, c, d), a, b, x[8], 6, T(56));
    assert Steps(x, r, 56, 57) == Regs(d, a, b, c);
    d := Set(I(a, b, c), d, a, x[15], 10, T(57));
    assert Steps(x, r, 56, 58) == Regs(c, d, a, b);
    c := Set(I(d, a, b), c, d, x[6], 15, T(58));
    assert Steps(x, r, 56, 59) == Regs(b, c, d, a);
    b := Set(I(c, d, a), b, c, x[13], 21, T(59));
    assert Steps(x, r, 56, 60) == Regs(a, b, c, d);
    a := Set(I(b, c, d), a, b, x[4], 6, T(60));
    assert Steps(x, r, 56, 61) == Regs(d, a, b, c);
    d := Set(I(a, b, c), d, a, x[11], 10, T(61));
    assert Steps(x, r, 56, 62) == Regs(c, d, a, b);
    c := Set(I(d, a, b), c, d, x[2], 15, T(62));
    assert Steps(x, r, 56, 63) == Regs(b, c, d, a);
    b := Set(I(c, d, a), b, c, x[9], 21, T(63));
    assert Steps(x, r, 56, 64) == Regs(a, b, c, d);
    r' := Regs(a, b, c, d);
  }

  /** Words of a block: assembled byte by byte on big-endian machines, read from memory on
      little-endian ones. */
  method LoadWords(data: seq<bv8>, rvsOrder: bool) returns (x: seq<bv32>)
    requires |data| == 64
    ensures x == Words(data)
  {
    if !rvsOrder { return Words(data); }
    x := [];
    var i := 0;
    while i < 16
      invariant i == |x| <= 16
      invariant forall k :: 0 <= k < i ==> x[k] == Words(data)[k]
    {
      var w := (data[4 * i] as bv32) + ((data[4 * i + 1] as bv32) << 8)
        + ((data[4 * i + 2] as bv32) << 16) + ((data[4 * i + 3] as bv32) << 24);
      SumIsWord(data[4 * i], data[4 * i + 1], data[4 * i + 2], data[4 * i + 3]);
      x, i := x + [w], i + 1;
    }
  }

  lemma SumIsWord(b0: bv8, b1: bv8, b2: bv8, b3: bv8)
    ensures (b0 as bv32) + ((b1 as bv32) << 8) + ((b2 as bv32) << 16) + ((b3 as bv32) << 24)
         == LeWord(b0, b1, b2, b3)
  {
  }

  method Operations(x: seq<bv32>, r0: Regs) returns (r: Regs)
    requires |x| == 16
    ensures r == Steps(x, r0, 0, 64)
  {
    hide Step, Steps;
    r := Operations0To7(x, r0);
    r := Operations8To15(x, r);
    StepsCompose(x, r0, 0, 8, 16);
    r := Operations16To23(x, r);
    StepsCompose(x, r0, 0, 16, 24);
    r := Operations24To31(x, r);
    StepsCompose(x, r0, 0, 24, 32);
    r := Operations32To39(x, r);
    StepsCompose(x, r0, 0, 32, 40);
    r := Operations40To47(x, r);
    StepsCompose(x, r0, 0, 40, 48);
    r := Operations48To55(x, r);
    StepsCompose(x, r0, 0, 48, 56);
    r := Operations56To63(x, r);
    StepsCompose(x, r0, 0, 56, 64);
  }

  /** md5_process */
  method Process(abcd: Regs, data: seq<bv8>, rvsOrder: bool) returns (abcd': Regs)
    requires |data| == 64
    ensures abcd' == Compress(abcd, data)
  {
    hide Steps, Words, AddRegs;
    var x := LoadWords(data, rvsOrder);
    var r := Operations(x, abcd);
    abcd' := Increment(abcd, r);
  }

  /** The four additions that end md5_process. */
  method Increment(abcd: Regs, r: Regs) returns (abcd': Regs)
    ensures abcd' == AddRegs(abcd, r)
  {
    var a, b, c, d := abcd.a, abcd.b, abcd.c, abcd.d;
    a := Add(a, r.a);
    b := Add(b, r.b);
    c := Add(c, r.c);
    d := Add(d, r.d);
    abcd' := Regs(a, b, c, d);
  }

  // ---- the running state ----

  /** The two count words hold the length in bits, modulo 2^64. */
  ghost predicate Counts(count0: nat, count1: nat, len: nat) {
    && count0 < 0x1_0000_0000 && count1 < 0x1_0000_0000
    && count1 * 0x1_0000_0000 + count0 == 8 * len % 0x1_0000_0000_0000_0000
  }

  lemma Quotient(q: nat, m: nat, r: nat)
    requires r < m
    ensures (q * m + r) % m == r && (q * m + r) / m == q
  {
    var d := (q * m + r) / m - q;
    assert (q * m + r) % m == r - d * m;
    assert d == 0;
  }

  /** One word of addition with its carry, as unsigned arithmetic detects it. */
  lemma WordAdd(x: nat, y: nat)
    requires x < 0x1_0000_0000 && y < 0x1_0000_0000
    ensures var z := (x + y) % 0x1_0000_0000;
            if z < y then x + y == 0x1_0000_0000 + z else x + y == z
  {
  }

  lemma Complement(x: nat, y: nat)
    requires x % 64 == y % 64
    ensures (55 - x) % 64 == (55 - y) % 64
  {
  }

  lemma ModIncrement(x: nat)
    ensures (x % 0x1_0000_0000 + 1) % 0x1_0000_0000 == (x + 1) % 0x1_0000_0000
  {
  }

  /** Long addition in base 2^32. */
  lemma Columns(q: nat, c1: nat, c0: nat, hi: nat, lo: nat, carry: nat, r0: nat, k: nat, r1: nat)
    requires c0 + lo == carry * 0x1_0000_0000 + r0
    requires c1 + hi + carry == k * 0x1_0000_0000 + r1
    ensures q * 0x1_0000_0000_0000_0000 + c1 * 0x1_0000_0000 + c0 + (hi * 0x1_0000_0000 + lo)
         == (q + k) * 0x1_0000_0000_0000_0000 + (r1 * 0x1_0000_0000 + r0)
  {
  }

  lemma CountsAre(q: nat, count0: nat, count1: nat, len: nat)
    requires count0 < 0x1_0000_0000 && count1 < 0x1_0000_0000
    requires 8 * len == q * 0x1_0000_0000_0000_0000 + (count1 * 0x1_0000_0000 + count0)
    ensures Counts(count0, count1, len)
  {
    Quotient(q, 0x1_0000_0000_0000_0000, count1 * 0x1_0000_0000 + count0);
  }

  lemma CountsMean(count0: nat, count1: nat, len: nat) returns (q: nat)
    requires Counts(count0, count1, len)
    ensures count0 < 0x1_0000_0000 && count1 < 0x1_0000_0000
    ensures 8 * len == q * 0x1_0000_0000_0000_0000 + (count1 * 0x1_0000_0000 + count0)
  {
    q := 8 * len / 0x1_0000_0000_0000_0000;
  }

  lemma Divided(x: nat, m: nat)
    requires m > 0
    ensures x == x / m * m + x % m
  {
  }

  /** The carry of md5_append: adding 8n bits word by word adds 8n to the 64-bit count. */
  lemma CountAdds(count0: nat, count1: nat, len: nat, n: nat)
    requires Counts(count0, count1, len)
    ensures var nbits := n * 8 % 0x1_0000_0000;
            var c0 := (count0 + nbits) % 0x1_0000_0000;
            var c1 := (count1 + n / 0x2000_0000) % 0x1_0000_0000;
            Counts(c0, if c0 < nbits then (c1 + 1) % 0x1_0000_0000 else c1, len + n)
  {
    hide Counts;
    var nbits, hi := n * 8 % 0x1_0000_0000, n / 0x2000_0000;
    var c0 := (count0 + nbits) % 0x1_0000_0000;
    var carry: nat := if c0 < nbits then 1 else 0;
    var q := CountsMean(count0, count1, len);
    WordAdd(count0, nbits);
    ModIncrement(count1 + hi);
    var sum := count1 + hi + carry;
    var k, c1 := sum / 0x1_0000_0000, sum % 0x1_0000_0000;
    Divided(sum, 0x1_0000_0000);
    Columns(q, count1, count0, hi, nbits, carry, c0, k, c1);
    assert 8 * n == hi * 0x1_0000_0000 + nbits;
    CountsAre(q + k, c0, c1, len + n);
  }

  /** The low word alone gives the position inside the current block. */
  lemma CountGivesOffset(count0: nat, count1: nat, len: nat)
    requires Counts(count0, count1, len)
    ensures count0 / 8 % 64 == len % 64
  {
    var q := 8 * len / 0x1_0000_0000_0000_0000;
    var u := q * 0x1_0000_0000 + count1;
    assert len == u * 0x2000_0000 + count0 / 8;
    Quotient(u * 0x80_0000 + count0 / 8 / 64, 64, count0 / 8 % 64);
  }

  function Place(j: nat): nat
    requires j < 4
  {
    if j == 0 then 1 else if j == 1 then 0x100 else if j == 2 then 0x1_0000 else 0x100_0000
  }

  /** What lies above a word does not show in its bytes. */
  lemma LowByte(u: nat, c: nat, j: nat)
    requires c < 0x1_0000_0000 && j < 4
    ensures ByteAt(u * 0x1_0000_0000 + c, Place(j)) == ByteAt(c, Place(j))
  {
    var p := Place(j);
    var r := 0x1_0000_0000 / (0x100 * p);
    assert u * 0x1_0000_0000 + c == (u * r) * 0x100 * p + c;
    DivShift((u * r) * 0x100, p, c);
    Quotient(u * r + c / p / 0x100, 0x100, c / p % 0x100);
  }

  lemma DivShift(k: nat, p: nat, c: nat)
    requires p > 0
    ensures (k * p + c) / p == k + c / p
  {
    assert k * p + c == (k + c / p) * p + c % p;
    Quotient(k + c / p, p, c % p);
  }

  lemma HighByte(y: nat, c: nat, j: nat)
    requires c < 0x1_0000_0000 && j < 4
    ensures ByteAt(y * 0x1_0000_0000 + c, 0x1_0000_0000 * Place(j)) == ByteAt(y, Place(j))
  {
    var p := Place(j);
    Quotient(y / p, 0x1_0000_0000 * p, y % p * 0x1_0000_0000 + c);
    assert y * 0x1_0000_0000 + c == y / p * (0x1_0000_0000 * p) + (y % p * 0x1_0000_0000 + c);
  }

  /** The two count words, byte by byte, are the 64-bit length of section 3.2. */
  lemma LengthBytesAgree(count0: nat, count1: nat, len: nat, j: nat)
    requires Counts(count0, count1, len) && j < 4
    ensures ByteAt(8 * len, Place(j)) == ByteAt(count0, Place(j))
    ensures ByteAt(8 * len, 0x1_0000_0000 * Place(j)) == ByteAt(count1, Place(j))
  {
    hide ByteAt;
    var q := 8 * len / 0x1_0000_0000_0000_0000;
    assert 8 * len == (q * 0x1_0000_0000 + count1) * 0x1_0000_0000 + count0;
    LowByte(q * 0x1_0000_0000 + count1, count0, j);
    HighByte(q * 0x1_0000_0000 + count1, count0, j);
    LowByte(q, count1, j);
  }

  function Register(r: Regs, n: nat): bv32 {
    if n == 0 then r.a else if n == 1 then r.b else if n == 2 then r.c else r.d
  }

  lemma OutputAt(r: Regs, k: nat)
    requires k < 16
    ensures Output(r)[k] == WordBytes(Register(r, k / 4))[k % 4]
  {
    hide WordBytes;
  }

  /** md5_state_t, with the message it stands for. */
  class State {
    var count0: nat
    var count1: nat
    var abcd: Regs
    var buf: array<bv8>
    const rvsOrder: bool
    ghost var message: seq<bv8>

    /** All whole blocks of m are absorbed and buf starts with the rest of it. */
    ghost predicate Settled(m: seq<bv8>)
      reads this`abcd, this`buf, buf
    {
      var whole := Whole(m);
      && buf.Length == 64
      && abcd == Absorb(INIT, m[..whole]) && buf[..|m| - whole] == m[whole..]
    }

    ghost predicate Valid()
      reads this, buf
    {
      Counts(count0, count1, |message|) && Settled(message)
    }

    /** md5_init */
    constructor (rvsOrder: bool)
      ensures Valid() && message == [] && fresh(buf)
    {
      count0, count1 := 0, 0;
      abcd := INIT;
      buf := new bv8[64];
      this.rvsOrder := rvsOrder;
      message := [];
    }

    method CopyIn(at: nat, p: seq<bv8>)
      requires buf.Length == 64 && at + |p| <= 64
      modifies buf
      ensures buf[..at] == old(buf[..at]) && buf[at..at + |p|] == p
    {
      forall i | 0 <= i < |p| { buf[at + i] := p[i]; }
      assert forall i :: 0 <= i < at ==> buf[..at][i] == old(buf[..at][i]);
      assert forall i :: 0 <= i < |p| ==> buf[at..at + |p|][i] == p[i];
    }

    /** The loop over full blocks and the copy of the rest: all is ghostly the whole message,
        of which the first at bytes are absorbed and the others are data[from..]. */
    method Blocks(data: seq<bv8>, from: nat, ghost all: seq<bv8>, ghost at: nat)
      requires buf.Length == 64 && from <= |data|
      requires at <= |all| && at % 64 == 0 && all[at..] == data[from..]
      requires abcd == Absorb(INIT, all[..at])
      modifies this`abcd, buf
      ensures Settled(all)
    {
      hide Compress, Absorb;
      ghost var done: nat := at;
      var p: nat, left: nat := from, |data| - from;
      while left >= 64
        invariant p + left == |data| && done + left == |all| && done % 64 == 0
        invariant buf.Length == 64
        invariant all[done..] == data[p..]
        invariant abcd == Absorb(INIT, all[..done])
      {
        var block := data[p..p + 64];
        assert all[done..][..64] == data[p..][..64];
        assert all[..done + 64] == all[..done] + block;
        abcd := Process(abcd, block, rvsOrder);
        AbsorbBlock(INIT, all[..done], block);
        assert all[done + 64..] == all[done..][64..] && data[p + 64..] == data[p..][64..];
        p, left, done := p + 64, left - 64, done + 64;
      }
      WholeIs(all, done);
      if left != 0 { CopyIn(0, data[p..]); }
      assert buf[..left] == data[p..];
    }

    /** The count update of md5_append. */
    method CountBits(nbytes: nat, ghost len: nat)
      requires Counts(count0, count1, len)
      modifies this`count0, this`count1
      ensures Counts(count0, count1, len + nbytes)
    {
      CountAdds(count0, count1, len, nbytes);
      var nbits := nbytes * 8 % 0x1_0000_0000;
      count1 := (count1 + nbytes / 0x2000_0000) % 0x1_0000_0000;
      count0 := (count0 + nbits) % 0x1_0000_0000;
      if count0 < nbits { count1 := (count1 + 1) % 0x1_0000_0000; }
    }

    /** The part of md5_append that follows the count: offset bytes of the old message wait
        in buf. */
    method Take(data: seq<bv8>, offset: nat, ghost was: seq<bv8>, ghost whole: nat)
      requires data != [] && offset < 64 && buf.Length == 64
      requires whole + offset == |was| && whole % 64 == 0
      requires abcd == Absorb(INIT, was[..whole]) && buf[..offset] == was[whole..]
      modifies this`abcd, buf
      ensures Settled(was + data)
    {
      hide Compress, Absorb;
      ghost var all := was + data;
      assert all[..whole] == was[..whole];
      if offset == 0 {
        assert all[whole..] == data[0..];
        Blocks(data, 0, all, whole);
        return;
      }
      var copy := if offset + |data| > 64 then 64 - offset else |data|;
      CopyIn(offset, data[..copy]);
      assert buf[..offset + copy] == buf[..offset] + data[..copy];
      assert all[whole..whole + offset + copy] == was[whole..] + data[..copy];
      if offset + copy < 64 {
        WholeIs(all, whole);
        assert all[whole..] == all[whole..whole + offset + copy];
        return;
      }
      var block := buf[..];
      assert block == buf[..offset + copy];
      abcd := Process(abcd, block, rvsOrder);
      AbsorbBlock(INIT, was[..whole], block);
      assert all[..whole + 64] == was[..whole] + block;
      assert all[whole + 64..] == data[copy..];
      Blocks(data, copy, all, whole + 64);
    }

    /** md5_append: nbytes bytes at data. A count that is not positive adds nothing. */
    method Append(data: seq<bv8>, nbytes: int)
      requires Valid() && nbytes <= |data| && nbytes < 0x8000_0000
      modifies this, buf
      ensures Valid() && buf == old(buf)
      ensures message == old(message) + if nbytes <= 0 then [] else data[..nbytes]
    {
      hide Compress, Absorb;
      var offset := count0 / 8 % 64;
      if nbytes <= 0 { return; }
      ghost var was := message;
      CountGivesOffset(count0, count1, |was|);
      WholeIs(was, |was| - offset);
      CountBits(nbytes, |was|);
      message := was + data[..nbytes];
      Take(data[..nbytes], offset, was, Whole(was));
    }

    /** The loop that saves the length before padding. */
    method LengthBytes(ghost len: nat) returns (data: seq<bv8>)
      requires Counts(count0, count1, len)
      ensures data == Le64(8 * len)
    {
      hide ByteAt;
      data := [];
      var i := 0;
      while i < 8
        invariant i == |data| <= 8
        invariant forall k :: 0 <= k < i ==>
                    data[k] == ByteAt(if k < 4 then count0 else count1, Place(k % 4))
      {
        data := data + [ByteAt(if i / 4 == 0 then count0 else count1, Place(i % 4))];
        i := i + 1;
      }
      forall j: nat | j < 4
        ensures ByteAt(8 * len, Place(j)) == ByteAt(count0, Place(j))
        ensures ByteAt(8 * len, 0x1_0000_0000 * Place(j)) == ByteAt(count1, Place(j))
      {
        LengthBytesAgree(count0, count1, len, j);
      }
      assert forall k :: 0 <= k < 8 ==> data[k] == Le64(8 * len)[k];
    }

    /** The loop that writes the digest. */
    method Store() returns (digest: seq<bv8>)
      ensures digest == Output(abcd)
    {
      hide WordBytes, Output;
      digest := [];
      var i := 0;
      while i < 16
        invariant i == |digest| <= 16
        invariant forall k :: 0 <= k < i ==> digest[k] == Output(abcd)[k]
      {
        OutputAt(abcd, i);
        digest := digest + [WordBytes(Register(abcd, i / 4))[i % 4]];
        i := i + 1;
      }
    }

    lemma PadLength()
      requires Valid()
      ensures (55 - count0 / 8) % 64 == ZeroCount(|message|)
    {
      hide Settled;
      CountGivesOffset(count0, count1, |message|);
      Complement(count0 / 8, |message|);
    }

    lemma AllAbsorbed()
      requires Valid() && |message| % 64 == 0
      ensures abcd == Absorb(INIT, message)
    {
      WholeIs(message, |message|);
      assert message[..|message|] == message;
    }

    /** md5_finish */
    method Finish() returns (digest: seq<bv8>)
      requires Valid()
      modifies this, buf
      ensures digest == Digest(old(message))
    {
      hide Compress, Absorb, Output, Le64, ByteAt, ZeroCount, Counts, Settled;
      ghost var m := message;
      PadLength();
      var data := LengthBytes(|m|);
      var n := (55 - count0 / 8) % 64;
      var pad := [0x80] + Zeros(63);
      assert pad[..n + 1] == [0x80] + Zeros(n);
      Append(pad, n + 1);
      assert message == m + [0x80] + Zeros(n);
      Append(data, 8);
      assert message == Pad(m) by { assert data[..8] == data; }
      PaddingIsLeast(m);
      AllAbsorbed();
      digest := Store();
    }
  }

  // ---- a whole run: init, any number of appends, finish ----

  function Join(pieces: seq<seq<bv8>>): seq<bv8> {
    if pieces == [] then [] else pieces[0] + Join(pieces[1..])
  }

  /** However a message is cut into pieces, empty ones included, and on either byte order, the
      streamed digest is the digest of section 3 of RFC 1321. */
  method DigestPieces(pieces: seq<seq<bv8>>, rvsOrder: bool) returns (digest: seq<bv8>)
    requires forall p :: p in pieces ==> |p| < 0x8000_0000
    ensures digest == Digest(Join(pieces))
  {
    hide Digest, State.Valid;
    var st := new State(rvsOrder);
    var i := 0;
    while i < |pieces|
      invariant i <= |pieces| && fresh(st) && fresh(st.buf) && st.Valid()
      invariant st.message + Join(pieces[i..]) == Join(pieces)
    {
      var p := pieces[i];
      assert Join(pieces[i..]) == p + Join(pieces[i + 1..]);
      assert p[..|p|] == p;
      st.Append(p, |p|);
      i := i + 1;
    }
    assert Join(pieces[i..]) == [] && st.message == Join(pieces);
    digest := st.Finish();
  }
}
