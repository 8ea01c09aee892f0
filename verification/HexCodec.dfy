/** Binary data as hexadecimal text and back (system/util_str.cpp:38-76, 109-130). */
module HexCodec {
  type Byte = b: int | 0 <= b < 256

  const NUL: char := '\0'
  const DIGITS: string := "0123456789ABCDEF"

  function Encode(bytes: seq<Byte>): (s: string)
    ensures |s| == 2 * |bytes|
  {
    if bytes == [] then []
    else Encode(bytes[..|bytes| - 1]) + [DIGITS[bytes[|bytes| - 1] / 16], DIGITS[bytes[|bytes| - 1] % 16]]
  }

  // toupper of the C locale
  function Upper(c: char): char {
    if 'a' <= c <= 'z' then (c as int - 32) as char else c
  }

  // The place of a character among the digits, 16 when it is none.
  function Digit(c: char): (d: nat)
    ensures d <= 16
    ensures d < 16 <==> '0' <= c <= '9' || 'A' <= c <= 'F'
    ensures d < 16 ==> DIGITS[d] == c
  {
    if '0' <= c <= '9' then c as nat - 48 else if 'A' <= c <= 'F' then c as nat - 55 else 16
  }

  lemma DigitOfDigits(d: nat)
    requires d < 16
    ensures Digit(Upper(DIGITS[d])) == d && DIGITS[d] != NUL
  {}

  // ahextoul behind the prefix: the digits up to the first character that is none.
  function Value(s: string, sofar: nat): nat
    decreases s
  {
    if s == [] || Digit(Upper(s[0])) == 16 then sofar
    else Value(s[1..], Shifted(sofar, Digit(Upper(s[0]))))
  }

  // One character onto a number, as an unsigned long of four bytes.
  function Shifted(sofar: nat, d: nat): nat { (sofar * 16 + d) % 0x1_0000_0000 }

  // The byte of two digits, 16 standing for a character that is none.
  function Joined(da: nat, db: nat): (r: Byte)
    requires da <= 16 && db <= 16
    ensures da < 16 && db < 16 ==> r / 16 == da && r % 16 == db
    ensures da < 16 && db == 16 ==> r / 16 == 0 && r % 16 == da
    ensures da == 16 ==> r == 0
    ensures r == if da == 16 then 0 else if db == 16 then Shifted(0, da) else Shifted(Shifted(0, da), db)
  {
    if da == 16 then 0 else if db == 16 then da else da * 16 + db
  }

  // The byte two characters stand for; the second is NUL behind the end of the text.
  function Pair(a: char, b: char): Byte { Joined(Digit(Upper(a)), Digit(Upper(b))) }

  function At(s: string, i: nat): char { if i < |s| then s[i] else NUL }

  // n bytes of the text.
  function Decode(s: string, n: nat): (bytes: seq<Byte>)
    ensures |bytes| == n
  {
    if n == 0 then [] else Decode(s, n - 1) + [Pair(At(s, 2 * n - 2), At(s, 2 * n - 1))]
  }

  lemma {:induction false} EncodedAt(bytes: seq<Byte>, i: nat)
    requires i < |bytes|
    ensures Encode(bytes)[2 * i] == DIGITS[bytes[i] / 16] && Encode(bytes)[2 * i + 1] == DIGITS[bytes[i] % 16]
    decreases bytes
  {
    if i < |bytes| - 1 { EncodedAt(bytes[..|bytes| - 1], i); }
  }

  lemma PairEncoded(bytes: seq<Byte>, i: nat)
    requires i < |bytes|
    ensures Pair(At(Encode(bytes), 2 * i), At(Encode(bytes), 2 * i + 1)) == bytes[i]
  {
    hide Upper, Digit, Joined, Encode;
    EncodedAt(bytes, i);
    DigitOfDigits(bytes[i] / 16);
    DigitOfDigits(bytes[i] % 16);
  }

  // Decoding as many bytes as were encoded gives them back.
  lemma {:induction false} DecodeEncode(bytes: seq<Byte>, n: nat)
    requires n <= |bytes|
    ensures Decode(Encode(bytes), n) == bytes[..n]
    decreases n
  {
    hide Pair, At, Encode;
    if n > 0 {
      DecodeEncode(bytes, n - 1);
      PairEncoded(bytes, n - 1);
      assert bytes[..n] == bytes[..n - 1] + [bytes[n - 1]];
    }
  }

  // The number of a hexadecimal digit in either case, 16 for any other character.
  function Figure(c: char): nat {
    if '0' <= c <= '9' then c as int - '0' as int
    else if 'a' <= c <= 'f' then c as int - 'a' as int + 10
    else if 'A' <= c <= 'F' then c as int - 'A' as int + 10
    else 16
  }

  lemma FigureIs(c: char)
    ensures Digit(Upper(c)) == Figure(c)
  {}

  // The two digits that stand for a byte, in either case.
  predicate Stands(a: char, b: char, v: Byte) { Figure(a) == v / 16 && Figure(b) == v % 16 }

  lemma PairStands(a: char, b: char, v: Byte)
    requires Stands(a, b, v)
    ensures Pair(a, b) == v
  {
    hide Figure, Digit, Upper;
    FigureIs(a);
    FigureIs(b);
  }

  // Text in either case, or mixed, decodes to the bytes it stands for.
  lemma {:induction false} EitherCaseDecodes(s: string, bytes: seq<Byte>, n: nat)
    requires |s| == 2 * |bytes| && n <= |bytes|
    requires forall i :: 0 <= i < |bytes| ==> Stands(s[2 * i], s[2 * i + 1], bytes[i])
    ensures Decode(s, n) == bytes[..n]
    decreases n
  {
    hide Stands, Pair;
    if n > 0 {
      EitherCaseDecodes(s, bytes, n - 1);
      PairStands(s[2 * (n - 1)], s[2 * (n - 1) + 1], bytes[n - 1]);
      assert bytes[..n] == bytes[..n - 1] + [bytes[n - 1]];
    }
  }

  // The unbounded number of the leading digits, behind those read before.
  function Number(s: string, sofar: nat): nat
    decreases s
  {
    if s == [] || Figure(s[0]) == 16 then sofar else Number(s[1..], sofar * 16 + Figure(s[0]))
  }

  // What ahextoul computes is that number in four bytes.
  lemma {:induction false} ValueWraps(s: string, sofar: nat)
    ensures Value(s, sofar % 0x1_0000_0000) == Number(s, sofar) % 0x1_0000_0000
    decreases s
  {
    hide Figure, Digit, Upper;
    if s != [] {
      FigureIs(s[0]);
      var d := Figure(s[0]);
      if d != 16 {
        assert (sofar % 0x1_0000_0000 * 16 + d) % 0x1_0000_0000 == (sofar * 16 + d) % 0x1_0000_0000;
        ValueWraps(s[1..], sofar * 16 + d);
      }
    }
  }

  function UpperAll(s: string): (u: string)
    ensures |u| == |s|
  {
    if s == [] then [] else UpperAll(s[..|s| - 1]) + [Upper(s[|s| - 1])]
  }

  predicate AllDigits(s: string) {
    forall i :: 0 <= i < |s| ==> Digit(Upper(s[i])) < 16
  }

  lemma PairBack(a: char, b: char)
    ensures DIGITS[Pair(a, b) / 16] == Upper(a) && DIGITS[Pair(a, b) % 16] == Upper(b)
      <==> Digit(Upper(a)) < 16 && Digit(Upper(b)) < 16
  {
    hide Upper, Digit, Joined;
    DigitsAreDigits(0);
    if Digit(Upper(a)) < 16 { DigitsAreDigits(Digit(Upper(a))); }
  }

  lemma DigitsAreDigits(d: nat)
    requires d < 16
    ensures Digit(DIGITS[d]) == d
  {}

  lemma {:induction false} DecodePrefix(s: string, n: nat, k: nat)
    requires 2 * n <= k <= |s|
    ensures Decode(s[..k], n) == Decode(s, n)
    decreases n
  {
    if n > 0 { DecodePrefix(s, n - 1, k); }
  }

  lemma EncodeDecodeStep(s: string, n: nat)
    requires |s| == 2 * n && n > 0
    ensures var c := Pair(s[2 * n - 2], s[2 * n - 1]);
      Encode(Decode(s, n)) == Encode(Decode(s[..2 * n - 2], n - 1)) + [DIGITS[c / 16], DIGITS[c % 16]]
  {
    hide Pair;
    DecodePrefix(s, n - 1, 2 * n - 2);
    assert Decode(s, n)[..n - 1] == Decode(s[..2 * n - 2], n - 1);
  }

  // Encoding what was decoded gives the text back, in upper case, exactly when all of it is digits.
  lemma {:induction false} EncodeDecode(s: string, n: nat)
    requires |s| == 2 * n
    ensures Encode(Decode(s, n)) == UpperAll(s) <==> AllDigits(s)
    decreases n
  {
    hide Pair, Digit, Upper, UpperAll, AllDigits, Encode, Decode;
    if n == 0 {
      NothingBack(s);
    } else {
      var front, a, b := s[..2 * n - 2], s[2 * n - 2], s[2 * n - 1];
      EncodeDecode(front, n - 1);
      EncodeDecodeStep(s, n);
      PairBack(a, b);
      LastTwo(s);
      SameEnds(Encode(Decode(front, n - 1)), UpperAll(front), [DIGITS[Pair(a, b) / 16], DIGITS[Pair(a, b) % 16]],
               [Upper(a), Upper(b)]);
    }
  }

  lemma NothingBack(s: string)
    requires s == ""
    ensures Encode(Decode(s, 0)) == UpperAll(s) && AllDigits(s)
  {}

  lemma SameEnds(x: string, y: string, u: string, v: string)
    requires |x| == |y| && |u| == |v| == 2
    ensures x + u == y + v <==> x == y && u[0] == v[0] && u[1] == v[1]
  {
    if x + u == y + v {
      assert x == (x + u)[..|x|] == (y + v)[..|x|] == y;
      assert u == (x + u)[|x|..] == (y + v)[|x|..] == v;
    }
  }

  lemma LastTwo(s: string)
    requires |s| >= 2
    ensures var front, a, b := s[..|s| - 2], s[|s| - 2], s[|s| - 1];
      && UpperAll(s) == UpperAll(front) + [Upper(a), Upper(b)]
      && (AllDigits(s) <==> AllDigits(front) && Digit(Upper(a)) < 16 && Digit(Upper(b)) < 16)
  {
    assert s[..|s| - 1][..|s| - 2] == s[..|s| - 2];
    assert UpperAll(s) == UpperAll(s[..|s| - 1]) + [Upper(s[|s| - 1])];
    assert s == s[..|s| - 2] + [s[|s| - 2], s[|s| - 1]];
  }

  // How many bytes hexdecode stores of a text so long: one is stored before the limit is asked.
  function Stored(length: nat, buflen: int): nat {
    var most := if buflen < 0 then 1 else buflen + 1;
    if (length + 1) / 2 <= most then (length + 1) / 2 else most
  }

  // The limit is kept exactly for texts of at most twice as many characters; a longer one stores
  // one byte more than the limit says.
  lemma LimitIsKept(length: nat, buflen: int)
    ensures Stored(length, buflen) <= buflen <==> length <= 2 * buflen
    ensures buflen >= 0 && length > 2 * buflen ==> Stored(length, buflen) == buflen + 1
  {}

  // The round trip through both functions gives everything back exactly when the limit is at
  // least one less than the number of bytes.
  lemma RoundTrip(bytes: seq<Byte>, buflen: int)
    ensures Decode(Encode(bytes), Stored(|Encode(bytes)|, buflen)) == bytes
      <==> |bytes| <= 1 || |bytes| <= buflen + 1
  {
    var n := Stored(|Encode(bytes)|, buflen);
    DecodeEncode(bytes, n);
    if n == |bytes| { assert bytes[..n] == bytes; }
  }

  // ---------------------------------------------------------------- in the buffers

  // hexencode
  method HexEncode(rstr: array<char>, buf: seq<Byte>)
    requires 2 * |buf| < rstr.Length
    modifies rstr
    ensures rstr[..2 * |buf|] == Encode(buf) && rstr[2 * |buf|] == NUL
  {
    var rind := 0;
    for sind := 0 to |buf|
      invariant rind == 2 * sind && rstr[..rind] == Encode(buf[..sind])
    {
      ghost var done := rstr[..rind];
      rstr[rind] := DIGITS[buf[sind] / 16];
      rind := rind + 1;
      rstr[rind] := DIGITS[buf[sind] % 16];
      rind := rind + 1;
      assert buf[..sind + 1][..sind] == buf[..sind];
      assert rstr[..rind] == done + [DIGITS[buf[sind] / 16], DIGITS[buf[sind] % 16]];
    }
    assert buf[..|buf|] == buf;
    rstr[rind] := NUL;
    assert rstr[..rind] == Encode(buf);
  }

  // ahextoul on a text with its two-character prefix and its NUL.
  method AHexToUl(text: seq<char>) returns (resnum: nat)
    requires |text| > 2 && text[|text| - 1] == NUL
    ensures resnum == Value(text[2..], 0)
  {
    resnum := 0;
    var i := 2;
    while text[i] != NUL
      invariant 2 <= i < |text|
      invariant Value(text[2..], 0) == Value(text[i..], resnum)
      decreases |text| - i
    {
      var digit := Digit(Upper(text[i]));
      if digit == 16 { break; }
      resnum := Shifted(resnum, digit);
      assert text[i..][1..] == text[i + 1..];
      i := i + 1;
    }
    assert text[i..][0] == text[i];
  }

  lemma NulIsNoDigit()
    ensures Digit(Upper(NUL)) == 16
  {}

  lemma PairIsValue(a: char, b: char)
    ensures Value(['0', 'x', a, b, NUL][2..], 0) == Pair(a, b)
  {
    NulIsNoDigit();
    hide Upper, Digit, Shifted, Joined;
    var t := ['0', 'x', a, b, NUL][2..];
    assert t == [a, b, NUL] && t[1..] == [b, NUL] && t[1..][1..] == [NUL];
    var da, db := Digit(Upper(a)), Digit(Upper(b));
    if da < 16 {
      assert Value(t, 0) == Value([b, NUL], Shifted(0, da));
      if db < 16 { assert Value([b, NUL], Shifted(0, da)) == Value([NUL], Shifted(Shifted(0, da), db)); }
    }
  }

  // hexdecode; the loop leaves when more than buflen bytes are stored.
  method HexDecode(buf: array<Byte>, sstr: string, buflen: int) returns (rind: nat)
    requires Stored(|sstr|, buflen) <= buf.Length
    modifies buf
    ensures rind == Stored(|sstr|, buflen) && buf[..rind] == Decode(sstr, rind)
  {
    hide Upper, Digit, Joined, Pair, Value, Encode;
    rind := 0;
    var sind := 0;
    while sind < |sstr|
      invariant sind == 2 * rind && rind <= Stored(|sstr|, buflen)
      invariant (rind == 0 || rind <= buflen) && buf[..rind] == Decode(sstr, rind)
    {
      var a := sstr[sind];
      sind := sind + 1;
      var b := if sind < |sstr| then sstr[sind] else NUL;
      PairIsValue(a, b);
      var value := AHexToUl(['0', 'x', a, b, NUL]);
      ghost var done := buf[..rind];
      buf[rind] := value % 256;
      assert value % 256 == value;
      rind := rind + 1;
      assert buf[..rind] == done + [Pair(At(sstr, 2 * rind - 2), At(sstr, 2 * rind - 1))];
      if rind > buflen { break; }
      sind := sind + 1;
    }
  }
}
