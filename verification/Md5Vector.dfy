/** The digest of the alphabet in small letters, one of the answers given in section A.5 of RFC 1321,
    computed by the definitions of Md5Spec step by step. It ties them to the standard's own numbers. */
module Md5Vector {
  import opened Md5Spec

  const MESSAGE: seq<bv8> := [
    0x61, 0x62, 0x63, 0x64, 0x65, 0x66, 0x67, 0x68, 0x69, 0x6a, 0x6b, 0x6c, 0x6d,
    0x6e, 0x6f, 0x70, 0x71, 0x72, 0x73, 0x74, 0x75, 0x76, 0x77, 0x78, 0x79, 0x7a]

  const DIGEST: seq<bv8> := [
    0xc3, 0xfc, 0xd3, 0xd7, 0x61, 0x92, 0xe4, 0x00,
    0x7d, 0xfb, 0x49, 0x6c, 0xca, 0x67, 0xe1, 0x3b]

  function Word(k: nat): bv32 {
    match k
    case 0 => 0x64636261
    case 1 => 0x68676665
    case 2 => 0x6c6b6a69
    case 3 => 0x706f6e6d
    case 4 => 0x74737271
    case 5 => 0x78777675
    case 6 => 0x00807a79
    case 14 => 0x000000d0
    case _ => 0
  }

  // The words of the padded message's one block.
  ghost predicate IsBlock(x: seq<bv32>) {
    |x| == 16 && forall k :: 0 <= k < 16 ==> x[k] == Word(k)
  }

  // The registers after the first i steps.
  ghost predicate At(x: seq<bv32>, i: nat, a: bv32, b: bv32, c: bv32, d: bv32) {
    IsBlock(x) && Steps(x, INIT, 0, i) == Regs(a, b, c, d)
  }

  // One more step, with its word, rotation and constant written out, and its value.
  lemma Go(x: seq<bv32>, i: nat, a: bv32, b: bv32, c: bv32, d: bv32, k: nat, s: nat, t: bv32, v: bv32)
    requires At(x, i, a, b, c, d) && 0 < s < 32
    requires WordIndex(i) == k && Shift(i) == s && T(i) == t
    requires Set(Mix(i, b, c, d), a, b, Word(k), s, t) == v
    ensures At(x, i + 1, d, v, b, c)
  {
    hide Mix, Set, T, Shift, Word;
  }

  lemma Step1(x: seq<bv32>)
    requires At(x, 0, 0x67452301, 0xefcdab89, 0x98badcfe, 0x10325476)
    ensures At(x, 1, 0x10325476, 0xd6d117a6, 0xefcdab89, 0x98badcfe)
  { hide At; Go(x, 0, 0x67452301, 0xefcdab89, 0x98badcfe, 0x10325476, 0, 7, 0xd76aa478, 0xd6d117a6); }

  lemma Step2(x: seq<bv32>)
    requires At(x, 1, 0x10325476, 0xd6d117a6, 0xefcdab89, 0x98badcfe)
    ensures At(x, 2, 0x98badcfe, 0xaab1aaaa, 0xd6d117a6, 0xefcdab89)
  { hide At; Go(x, 1, 0x10325476, 0xd6d117a6, 0xefcdab89, 0x98badcfe, 1, 12, 0xe8c7b756, 0xaab1aaaa); }

  lemma Step3(x: seq<bv32>)
    requires At(x, 2, 0x98badcfe, 0xaab1aaaa, 0xd6d117a6, 0xefcdab89)
    ensures At(x, 3, 0xefcdab89, 0x227d8cf1, 0xaab1aaaa, 0xd6d117a6)
  { hide At; Go(x, 2, 0x98badcfe, 0xaab1aaaa, 0xd6d117a6, 0xefcdab89, 2, 17, 0x242070db, 0x227d8cf1); }

  lemma Step4(x: seq<bv32>)
    requires At(x, 3, 0xefcdab89, 0x227d8cf1, 0xaab1aaaa, 0xd6d117a6)
    ensures At(x, 4, 0xd6d117a6, 0x4503b812, 0x227d8cf1, 0xaab1aaaa)
  { hide At; Go(x, 3, 0xefcdab89, 0x227d8cf1, 0xaab1aaaa, 0xd6d117a6, 3, 22, 0xc1bdceee, 0x4503b812); }

  lemma Step5(x: seq<bv32>)
    requires At(x, 4, 0xd6d117a6, 0x4503b812, 0x227d8cf1, 0xaab1aaaa)
    ensures At(x, 5, 0xaab1aaaa, 0xfe15f787, 0x4503b812, 0x227d8cf1)
  { hide At; Go(x, 4, 0xd6d117a6, 0x4503b812, 0x227d8cf1, 0xaab1aaaa, 4, 7, 0xf57c0faf, 0xfe15f787); }

  lemma Step6(x: seq<bv32>)
    requires At(x, 5, 0xaab1aaaa, 0xfe15f787, 0x4503b812, 0x227d8cf1)
    ensures At(x, 6, 0x227d8cf1, 0xa811b278, 0xfe15f787, 0x4503b812)
  { hide At; Go(x, 5, 0xaab1aaaa, 0xfe15f787, 0x4503b812, 0x227d8cf1, 5, 12, 0x4787c62a, 0xa811b278); }

  lemma Step7(x: seq<bv32>)
    requires At(x, 6, 0x227d8cf1, 0xa811b278, 0xfe15f787, 0x4503b812)
    ensures At(x, 7, 0x4503b812, 0xb71122fc, 0xa811b278, 0xfe15f787)
  { hide At; Go(x, 6, 0x227d8cf1, 0xa811b278, 0xfe15f787, 0x4503b812, 6, 17, 0xa8304613, 0xb71122fc); }

  lemma Step8(x: seq<bv32>)
    requires At(x, 7, 0x4503b812, 0xb71122fc, 0xa811b278, 0xfe15f787)
    ensures At(x, 8, 0xfe15f787, 0xda9bbb0d, 0xb71122fc, 0xa811b278)
  { hide At; Go(x, 7, 0x4503b812, 0xb71122fc, 0xa811b278, 0xfe15f787, 7, 22, 0xfd469501, 0xda9bbb0d); }

  lemma Step9(x: seq<bv32>)
    requires At(x, 8, 0xfe15f787, 0xda9bbb0d, 0xb71122fc, 0xa811b278)
    ensures At(x, 9, 0xa811b278, 0xae752899, 0xda9bbb0d, 0xb71122fc)
  { hide At; Go(x, 8, 0xfe15f787, 0xda9bbb0d, 0xb71122fc, 0xa811b278, 8, 7, 0x698098d8, 0xae752899); }

  lemma Step10(x: seq<bv32>)
    requires At(x, 9, 0xa811b278, 0xae752899, 0xda9bbb0d, 0xb71122fc)
    ensures At(x, 10, 0xb71122fc, 0x2bbe757f, 0xae752899, 0xda9bbb0d)
  { hide At; Go(x, 9, 0xa811b278, 0xae752899, 0xda9bbb0d, 0xb71122fc, 9, 12, 0x8b44f7af, 0x2bbe757f); }

  lemma Step11(x: seq<bv32>)
    requires At(x, 10, 0xb71122fc, 0x2bbe757f, 0xae752899, 0xda9bbb0d)
    ensures At(x, 11, 0xda9bbb0d, 0x7d4bd80b, 0x2bbe757f, 0xae752899)
  { hide At; Go(x, 10, 0xb71122fc, 0x2bbe757f, 0xae752899, 0xda9bbb0d, 10, 17, 0xffff5bb1, 0x7d4bd80b); }

  lemma Step12(x: seq<bv32>)
    requires At(x, 11, 0xda9bbb0d, 0x7d4bd80b, 0x2bbe757f, 0xae752899)
    ensures At(x, 12, 0xae752899, 0x56cfa5cb, 0x7d4bd80b, 0x2bbe757f)
  { hide At; Go(x, 11, 0xda9bbb0d, 0x7d4bd80b, 0x2bbe757f, 0xae752899, 11, 22, 0x895cd7be, 0x56cfa5cb); }

  lemma Step13(x: seq<bv32>)
    requires At(x, 12, 0xae752899, 0x56cfa5cb, 0x7d4bd80b, 0x2bbe757f)
    ensures At(x, 13, 0x2bbe757f, 0x1754a316, 0x56cfa5cb, 0x7d4bd80b)
  { hide At; Go(x, 12, 0xae752899, 0x56cfa5cb, 0x7d4bd80b, 0x2bbe757f, 12, 7, 0x6b901122, 0x1754a316); }

  lemma Step14(x: seq<bv32>)
    requires At(x, 13, 0x2bbe757f, 0x1754a316, 0x56cfa5cb, 0x7d4bd80b)
    ensures At(x, 14, 0x7d4bd80b, 0x85567d90, 0x1754a316, 0x56cfa5cb)
  { hide At; Go(x, 13, 0x2bbe757f, 0x1754a316, 0x56cfa5cb, 0x7d4bd80b, 13, 12, 0xfd987193, 0x85567d90); }

  lemma Step15(x: seq<bv32>)
    requires At(x, 14, 0x7d4bd80b, 0x85567d90, 0x1754a316, 0x56cfa5cb)
    ensures At(x, 15, 0x56cfa5cb, 0x00df74d5, 0x85567d90, 0x1754a316)
  { hide At; Go(x, 14, 0x7d4bd80b, 0x85567d90, 0x1754a316, 0x56cfa5cb, 14, 17, 0xa679438e, 0x00df74d5); }

  lemma Step16(x: seq<bv32>)
    requires At(x, 15, 0x56cfa5cb, 0x00df74d5, 0x85567d90, 0x1754a316)
    ensures At(x, 16, 0x1754a316, 0x608d6b7e, 0x00df74d5, 0x85567d90)
  { hide At; Go(x, 15, 0x56cfa5cb, 0x00df74d5, 0x85567d90, 0x1754a316, 15, 22, 0x49b40821, 0x608d6b7e); }

  lemma Step17(x: seq<bv32>)
    requires At(x, 16, 0x1754a316, 0x608d6b7e, 0x00df74d5, 0x85567d90)
    ensures At(x, 17, 0x85567d90, 0x2d8071cc, 0x608d6b7e, 0x00df74d5)
  { hide At; Go(x, 16, 0x1754a316, 0x608d6b7e, 0x00df74d5, 0x85567d90, 1, 5, 0xf61e2562, 0x2d8071cc); }

  lemma Step18(x: seq<bv32>)
    requires At(x, 17, 0x85567d90, 0x2d8071cc, 0x608d6b7e, 0x00df74d5)
    ensures At(x, 18, 0x00df74d5, 0x5dcee119, 0x2d8071cc, 0x608d6b7e)
  { hide At; Go(x, 17, 0x85567d90, 0x2d8071cc, 0x608d6b7e, 0x00df74d5, 6, 9, 0xc040b340, 0x5dcee119); }

  lemma Step19(x: seq<bv32>)
    requires At(x, 18, 0x00df74d5, 0x5dcee119, 0x2d8071cc, 0x608d6b7e)
    ensures At(x, 19, 0x608d6b7e, 0xedfe7e4b, 0x5dcee119, 0x2d8071cc)
  { hide At; Go(x, 18, 0x00df74d5, 0x5dcee119, 0x2d8071cc, 0x608d6b7e, 11, 14, 0x265e5a51, 0xedfe7e4b); }

  lemma Step20(x: seq<bv32>)
    requires At(x, 19, 0x608d6b7e, 0xedfe7e4b, 0x5dcee119, 0x2d8071cc)
    ensures At(x, 20, 0x2d8071cc, 0x4c2145b3, 0xedfe7e4b, 0x5dcee119)
  { hide At; Go(x, 19, 0x608d6b7e, 0xedfe7e4b, 0x5dcee119, 0x2d8071cc, 0, 20, 0xe9b6c7aa, 0x4c2145b3); }

  lemma Step21(x: seq<bv32>)
    requires At(x, 20, 0x2d8071cc, 0x4c2145b3, 0xedfe7e4b, 0x5dcee119)
    ensures At(x, 21, 0x5dcee119, 0x570c43e0, 0x4c2145b3, 0xedfe7e4b)
  { hide At; Go(x, 20, 0x2d8071cc, 0x4c2145b3, 0xedfe7e4b, 0x5dcee119, 5, 5, 0xd62f105d, 0x570c43e0); }

  lemma Step22(x: seq<bv32>)
    requires At(x, 21, 0x5dcee119, 0x570c43e0, 0x4c2145b3, 0xedfe7e4b)
    ensures At(x, 22, 0xedfe7e4b, 0x977efd2a, 0x570c43e0, 0x4c2145b3)
  { hide At; Go(x, 21, 0x5dcee119, 0x570c43e0, 0x4c2145b3, 0xedfe7e4b, 10, 9, 0x02441453, 0x977efd2a); }

  lemma Step23(x: seq<bv32>)
    requires At(x, 22, 0xedfe7e4b, 0x977efd2a, 0x570c43e0, 0x4c2145b3)
    ensures At(x, 23, 0x4c2145b3, 0xc28ab49d, 0x977efd2a, 0x570c43e0)
  { hide At; Go(x, 22, 0xedfe7e4b, 0x977efd2a, 0x570c43e0, 0x4c2145b3, 15, 14, 0xd8a1e681, 0xc28ab49d); }

  lemma Step24(x: seq<bv32>)
    requires At(x, 23, 0x4c2145b3, 0xc28ab49d, 0x977efd2a, 0x570c43e0)
    ensures At(x, 24, 0x570c43e0, 0xc9f162d4, 0xc28ab49d, 0x977efd2a)
  { hide At; Go(x, 23, 0x4c2145b3, 0xc28ab49d, 0x977efd2a, 0x570c43e0, 4, 20, 0xe7d3fbc8, 0xc9f162d4); }

  lemma Step25(x: seq<bv32>)
    requires At(x, 24, 0x570c43e0, 0xc9f162d4, 0xc28ab49d, 0x977efd2a)
    ensures At(x, 25, 0x977efd2a, 0x25bfae3b, 0xc9f162d4, 0xc28ab49d)
  { hide At; Go(x, 24, 0x570c43e0, 0xc9f162d4, 0xc28ab49d, 0x977efd2a, 9, 5, 0x21e1cde6, 0x25bfae3b); }

  lemma Step26(x: seq<bv32>)
    requires At(x, 25, 0x977efd2a, 0x25bfae3b, 0xc9f162d4, 0xc28ab49d)
    ensures At(x, 26, 0xc28ab49d, 0x89980104, 0x25bfae3b, 0xc9f162d4)
  { hide At; Go(x, 25, 0x977efd2a, 0x25bfae3b, 0xc9f162d4, 0xc28ab49d, 14, 9, 0xc33707d6, 0x89980104); }

  lemma Step27(x: seq<bv32>)
    requires At(x, 26, 0xc28ab49d, 0x89980104, 0x25bfae3b, 0xc9f162d4)
    ensures At(x, 27, 0xc9f162d4, 0xf8c8365f, 0x89980104, 0x25bfae3b)
  { hide At; Go(x, 26, 0xc28ab49d, 0x89980104, 0x25bfae3b, 0xc9f162d4, 3, 14, 0xf4d50d87, 0xf8c8365f); }

  lemma Step28(x: seq<bv32>)
    requires At(x, 27, 0xc9f162d4, 0xf8c8365f, 0x89980104, 0x25bfae3b)
    ensures At(x, 28, 0x25bfae3b, 0xe6d3b398, 0xf8c8365f, 0x89980104)
  { hide At; Go(x, 27, 0xc9f162d4, 0xf8c8365f, 0x89980104, 0x25bfae3b, 8, 20, 0x455a14ed, 0xe6d3b398); }

  lemma Step29(x: seq<bv32>)
    requires At(x, 28, 0x25bfae3b, 0xe6d3b398, 0xf8c8365f, 0x89980104)
    ensures At(x, 29, 0x89980104, 0xf54d8710, 0xe6d3b398, 0xf8c8365f)
  { hide At; Go(x, 28, 0x25bfae3b, 0xe6d3b398, 0xf8c8365f, 0x89980104, 13, 5, 0xa9e3e905, 0xf54d8710); }

  lemma Step30(x: seq<bv32>)
    requires At(x, 29, 0x89980104, 0xf54d8710, 0xe6d3b398, 0xf8c8365f)
    ensures At(x, 30, 0xf8c8365f, 0x927b72e2, 0xf54d8710, 0xe6d3b398)
  { hide At; Go(x, 29, 0x89980104, 0xf54d8710, 0xe6d3b398, 0xf8c8365f, 2, 9, 0xfcefa3f8, 0x927b72e2); }

  lemma Step31(x: seq<bv32>)
    requires At(x, 30, 0xf8c8365f, 0x927b72e2, 0xf54d8710, 0xe6d3b398)
    ensures At(x, 31, 0xe6d3b398, 0x2e69afc7, 0x927b72e2, 0xf54d8710)
  { hide At; Go(x, 30, 0xf8c8365f, 0x927b72e2, 0xf54d8710, 0xe6d3b398, 7, 14, 0x676f02d9, 0x2e69afc7); }

  lemma Step32(x: seq<bv32>)
    requires At(x, 31, 0xe6d3b398, 0x2e69afc7, 0x927b72e2, 0xf54d8710)
    ensures At(x, 32, 0xf54d8710, 0xaeb35766, 0x2e69afc7, 0x927b72e2)
  { hide At; Go(x, 31, 0xe6d3b398, 0x2e69afc7, 0x927b72e2, 0xf54d8710, 12, 20, 0x8d2a4c8a, 0xaeb35766); }

  lemma Step33(x: seq<bv32>)
    requires At(x, 32, 0xf54d8710, 0xaeb35766, 0x2e69afc7, 0x927b72e2)
    ensures At(x, 33, 0x927b72e2, 0xb4bf680e, 0xaeb35766, 0x2e69afc7)
  { hide At; Go(x, 32, 0xf54d8710, 0xaeb35766, 0x2e69afc7, 0x927b72e2, 5, 4, 0xfffa3942, 0xb4bf680e); }

  lemma Step34(x: seq<bv32>)
    requires At(x, 33, 0x927b72e2, 0xb4bf680e, 0xaeb35766, 0x2e69afc7)
    ensures At(x, 34, 0x2e69afc7, 0x4c8ffa80, 0xb4bf680e, 0xaeb35766)
  { hide At; Go(x, 33, 0x927b72e2, 0xb4bf680e, 0xaeb35766, 0x2e69afc7, 8, 11, 0x8771f681, 0x4c8ffa80); }

  lemma Step35(x: seq<bv32>)
    requires At(x, 34, 0x2e69afc7, 0x4c8ffa80, 0xb4bf680e, 0xaeb35766)
    ensures At(x, 35, 0xaeb35766, 0x2361ed0a, 0x4c8ffa80, 0xb4bf680e)
  { hide At; Go(x, 34, 0x2e69afc7, 0x4c8ffa80, 0xb4bf680e, 0xaeb35766, 11, 16, 0x6d9d6122, 0x2361ed0a); }

  lemma Step36(x: seq<bv32>)
    requires At(x, 35, 0xaeb35766, 0x2361ed0a, 0x4c8ffa80, 0xb4bf680e)
    ensures At(x, 36, 0xb4bf680e, 0x06a5e211, 0x2361ed0a, 0x4c8ffa80)
  { hide At; Go(x, 35, 0xaeb35766, 0x2361ed0a, 0x4c8ffa80, 0xb4bf680e, 14, 23, 0xfde5380c, 0x06a5e211); }

  lemma Step37(x: seq<bv32>)
    requires At(x, 36, 0xb4bf680e, 0x06a5e211, 0x2361ed0a, 0x4c8ffa80)
    ensures At(x, 37, 0x4c8ffa80, 0xb9c0c733, 0x06a5e211, 0x2361ed0a)
  { hide At; Go(x, 36, 0xb4bf680e, 0x06a5e211, 0x2361ed0a, 0x4c8ffa80, 1, 4, 0xa4beea44, 0xb9c0c733); }

  lemma Step38(x: seq<bv32>)
    requires At(x, 37, 0x4c8ffa80, 0xb9c0c733, 0x06a5e211, 0x2361ed0a)
    ensures At(x, 38, 0x2361ed0a, 0xf1e6dc7a, 0xb9c0c733, 0x06a5e211)
  { hide At; Go(x, 37, 0x4c8ffa80, 0xb9c0c733, 0x06a5e211, 0x2361ed0a, 4, 11, 0x4bdecfa9, 0xf1e6dc7a); }

  lemma Step39(x: seq<bv32>)
    requires At(x, 38, 0x2361ed0a, 0xf1e6dc7a, 0xb9c0c733, 0x06a5e211)
    ensures At(x, 39, 0x06a5e211, 0x23a9451b, 0xf1e6dc7a, 0xb9c0c733)
  { hide At; Go(x, 38, 0x2361ed0a, 0xf1e6dc7a, 0xb9c0c733, 0x06a5e211, 7, 16, 0xf6bb4b60, 0x23a9451b); }

  lemma Step40(x: seq<bv32>)
    requires At(x, 39, 0x06a5e211, 0x23a9451b, 0xf1e6dc7a, 0xb9c0c733)
    ensures At(x, 40, 0xb9c0c733, 0x8d41bf99, 0x23a9451b, 0xf1e6dc7a)
  { hide At; Go(x, 39, 0x06a5e211, 0x23a9451b, 0xf1e6dc7a, 0xb9c0c733, 10, 23, 0xbebfbc70, 0x8d41bf99); }

  lemma Step41(x: seq<bv32>)
    requires At(x, 40, 0xb9c0c733, 0x8d41bf99, 0x23a9451b, 0xf1e6dc7a)
    ensures At(x, 41, 0xf1e6dc7a, 0xa3e88ead, 0x8d41bf99, 0x23a9451b)
  { hide At; Go(x, 40, 0xb9c0c733, 0x8d41bf99, 0x23a9451b, 0xf1e6dc7a, 13, 4, 0x289b7ec6, 0xa3e88ead); }

  lemma Step42(x: seq<bv32>)
    requires At(x, 41, 0xf1e6dc7a, 0xa3e88ead, 0x8d41bf99, 0x23a9451b)
    ensures At(x, 42, 0x23a9451b, 0x02c0b11c, 0xa3e88ead, 0x8d41bf99)
  { hide At; Go(x, 41, 0xf1e6dc7a, 0xa3e88ead, 0x8d41bf99, 0x23a9451b, 0, 11, 0xeaa127fa, 0x02c0b11c); }

  lemma Step43(x: seq<bv32>)
    requires At(x, 42, 0x23a9451b, 0x02c0b11c, 0xa3e88ead, 0x8d41bf99)
    ensures At(x, 43, 0x8d41bf99, 0x66f6468d, 0x02c0b11c, 0xa3e88ead)
  { hide At; Go(x, 42, 0x23a9451b, 0x02c0b11c, 0xa3e88ead, 0x8d41bf99, 3, 16, 0xd4ef3085, 0x66f6468d); }

  lemma Step44(x: seq<bv32>)
    requires At(x, 43, 0x8d41bf99, 0x66f6468d, 0x02c0b11c, 0xa3e88ead)
    ensures At(x, 44, 0xa3e88ead, 0x90a35af5, 0x66f6468d, 0x02c0b11c)
  { hide At; Go(x, 43, 0x8d41bf99, 0x66f6468d, 0x02c0b11c, 0xa3e88ead, 6, 23, 0x04881d05, 0x90a35af5); }

  lemma Step45(x: seq<bv32>)
    requires At(x, 44, 0xa3e88ead, 0x90a35af5, 0x66f6468d, 0x02c0b11c)
    ensures At(x, 45, 0x02c0b11c, 0xb5d41f9c, 0x90a35af5, 0x66f6468d)
  { hide At; Go(x, 44, 0xa3e88ead, 0x90a35af5, 0x66f6468d, 0x02c0b11c, 9, 4, 0xd9d4d039, 0xb5d41f9c); }

  lemma Step46(x: seq<bv32>)
    requires At(x, 45, 0x02c0b11c, 0xb5d41f9c, 0x90a35af5, 0x66f6468d)
    ensures At(x, 46, 0x66f6468d, 0xa04b4904, 0xb5d41f9c, 0x90a35af5)
  { hide At; Go(x, 45, 0x02c0b11c, 0xb5d41f9c, 0x90a35af5, 0x66f6468d, 12, 11, 0xe6db99e5, 0xa04b4904); }

  lemma Step47(x: seq<bv32>)
    requires At(x, 46, 0x66f6468d, 0xa04b4904, 0xb5d41f9c, 0x90a35af5)
    ensures At(x, 47, 0x90a35af5, 0x703d54d8, 0xa04b4904, 0xb5d41f9c)
  { hide At; Go(x, 46, 0x66f6468d, 0xa04b4904, 0xb5d41f9c, 0x90a35af5, 15, 16, 0x1fa27cf8, 0x703d54d8); }

  lemma Step48(x: seq<bv32>)
    requires At(x, 47, 0x90a35af5, 0x703d54d8, 0xa04b4904, 0xb5d41f9c)
    ensures At(x, 48, 0xb5d41f9c, 0x71d10367, 0x703d54d8, 0xa04b4904)
  { hide At; Go(x, 47, 0x90a35af5, 0x703d54d8, 0xa04b4904, 0xb5d41f9c, 2, 23, 0xc4ac5665, 0x71d10367); }

  lemma Step49(x: seq<bv32>)
    requires At(x, 48, 0xb5d41f9c, 0x71d10367, 0x703d54d8, 0xa04b4904)
    ensures At(x, 49, 0xa04b4904, 0xfc32dd6e, 0x71d10367, 0x703d54d8)
  { hide At; Go(x, 48, 0xb5d41f9c, 0x71d10367, 0x703d54d8, 0xa04b4904, 0, 6, 0xf4292244, 0xfc32dd6e); }

  lemma Step50(x: seq<bv32>)
    requires At(x, 49, 0xa04b4904, 0xfc32dd6e, 0x71d10367, 0x703d54d8)
    ensures At(x, 50, 0x703d54d8, 0x65456b34, 0xfc32dd6e, 0x71d10367)
  { hide At; Go(x, 49, 0xa04b4904, 0xfc32dd6e, 0x71d10367, 0x703d54d8, 7, 10, 0x432aff97, 0x65456b34); }

  lemma Step51(x: seq<bv32>)
    requires At(x, 50, 0x703d54d8, 0x65456b34, 0xfc32dd6e, 0x71d10367)
    ensures At(x, 51, 0x71d10367, 0xb35602cb, 0x65456b34, 0xfc32dd6e)
  { hide At; Go(x, 50, 0x703d54d8, 0x65456b34, 0xfc32dd6e, 0x71d10367, 14, 15, 0xab9423a7, 0xb35602cb); }

  lemma Step52(x: seq<bv32>)
    requires At(x, 51, 0x71d10367, 0xb35602cb, 0x65456b34, 0xfc32dd6e)
    ensures At(x, 52, 0xfc32dd6e, 0x33edb197, 0xb35602cb, 0x65456b34)
  { hide At; Go(x, 51, 0x71d10367, 0xb35602cb, 0x65456b34, 0xfc32dd6e, 5, 21, 0xfc93a039, 0x33edb197); }

  lemma Step53(x: seq<bv32>)
    requires At(x, 52, 0xfc32dd6e, 0x33edb197, 0xb35602cb, 0x65456b34)
    ensures At(x, 53, 0x65456b34, 0xc1e942f1, 0x33edb197, 0xb35602cb)
  { hide At; Go(x, 52, 0xfc32dd6e, 0x33edb197, 0xb35602cb, 0x65456b34, 12, 6, 0x655b59c3, 0xc1e942f1); }

  lemma Step54(x: seq<bv32>)
    requires At(x, 53, 0x65456b34, 0xc1e942f1, 0x33edb197, 0xb35602cb)
    ensures At(x, 54, 0xb35602cb, 0xd9bb987c, 0xc1e942f1, 0x33edb197)
  { hide At; Go(x, 53, 0x65456b34, 0xc1e942f1, 0x33edb197, 0xb35602cb, 3, 10, 0x8f0ccc92, 0xd9bb987c); }

  lemma Step55(x: seq<bv32>)
    requires At(x, 54, 0xb35602cb, 0xd9bb987c, 0xc1e942f1, 0x33edb197)
    ensures At(x, 55, 0x33edb197, 0x23a68048, 0xd9bb987c, 0xc1e942f1)
  { hide At; Go(x, 54, 0xb35602cb, 0xd9bb987c, 0xc1e942f1, 0x33edb197, 10, 15, 0xffeff47d, 0x23a68048); }

  lemma Step56(x: seq<bv32>)
    requires At(x, 55, 0x33edb197, 0x23a68048, 0xd9bb987c, 0xc1e942f1)
    ensures At(x, 56, 0xc1e942f1, 0x83877d1b, 0x23a68048, 0xd9bb987c)
  { hide At; Go(x, 55, 0x33edb197, 0x23a68048, 0xd9bb987c, 0xc1e942f1, 1, 21, 0x85845dd1, 0x83877d1b); }

  lemma Step57(x: seq<bv32>)
    requires At(x, 56, 0xc1e942f1, 0x83877d1b, 0x23a68048, 0xd9bb987c)
    ensures At(x, 57, 0xd9bb987c, 0x0077c208, 0x83877d1b, 0x23a68048)
  { hide At; Go(x, 56, 0xc1e942f1, 0x83877d1b, 0x23a68048, 0xd9bb987c, 8, 6, 0x6fa87e4f, 0x0077c208); }

  lemma Step58(x: seq<bv32>)
    requires At(x, 57, 0xd9bb987c, 0x0077c208, 0x83877d1b, 0x23a68048)
    ensures At(x, 58, 0x23a68048, 0x847fc2e7, 0x0077c208, 0x83877d1b)
  { hide At; Go(x, 57, 0xd9bb987c, 0x0077c208, 0x83877d1b, 0x23a68048, 15, 10, 0xfe2ce6e0, 0x847fc2e7); }

  lemma Step59(x: seq<bv32>)
    requires At(x, 58, 0x23a68048, 0x847fc2e7, 0x0077c208, 0x83877d1b)
    ensures At(x, 59, 0x83877d1b, 0xa3e2247f, 0x847fc2e7, 0x0077c208)
  { hide At; Go(x, 58, 0x23a68048, 0x847fc2e7, 0x0077c208, 0x83877d1b, 6, 15, 0xa3014314, 0xa3e2247f); }

  lemma Step60(x: seq<bv32>)
    requires At(x, 59, 0x83877d1b, 0xa3e2247f, 0x847fc2e7, 0x0077c208)
    ensures At(x, 60, 0x0077c208, 0x5e6bc930, 0xa3e2247f, 0x847fc2e7)
  { hide At; Go(x, 59, 0x83877d1b, 0xa3e2247f, 0x847fc2e7, 0x0077c208, 13, 21, 0x4e0811a1, 0x5e6bc930); }

  lemma Step61(x: seq<bv32>)
    requires At(x, 60, 0x0077c208, 0x5e6bc930, 0xa3e2247f, 0x847fc2e7)
    ensures At(x, 61, 0x847fc2e7, 0x708ed9c2, 0x5e6bc930, 0xa3e2247f)
  { hide At; Go(x, 60, 0x0077c208, 0x5e6bc930, 0xa3e2247f, 0x847fc2e7, 4, 6, 0xf7537e82, 0x708ed9c2); }

  lemma Step62(x: seq<bv32>)
    requires At(x, 61, 0x847fc2e7, 0x708ed9c2, 0x5e6bc930, 0xa3e2247f)
    ensures At(x, 62, 0xa3e2247f, 0x2baf1354, 0x708ed9c2, 0x5e6bc930)
  { hide At; Go(x, 61, 0x847fc2e7, 0x708ed9c2, 0x5e6bc930, 0xa3e2247f, 11, 10, 0xbd3af235, 0x2baf1354); }

  lemma Step63(x: seq<bv32>)
    requires At(x, 62, 0xa3e2247f, 0x2baf1354, 0x708ed9c2, 0x5e6bc930)
    ensures At(x, 63, 0x5e6bc930, 0xd38f1e7f, 0x2baf1354, 0x708ed9c2)
  { hide At; Go(x, 62, 0xa3e2247f, 0x2baf1354, 0x708ed9c2, 0x5e6bc930, 2, 15, 0x2ad7d2bb, 0xd38f1e7f); }

  lemma Step64(x: seq<bv32>)
    requires At(x, 63, 0x5e6bc930, 0xd38f1e7f, 0x2baf1354, 0x708ed9c2)
    ensures At(x, 64, 0x708ed9c2, 0x1116e6d8, 0xd38f1e7f, 0x2baf1354)
  { hide At; Go(x, 63, 0x5e6bc930, 0xd38f1e7f, 0x2baf1354, 0x708ed9c2, 9, 21, 0xeb86d391, 0x1116e6d8); }

  lemma AllSteps(x: seq<bv32>)
    requires IsBlock(x)
    ensures At(x, 64, 0x708ed9c2, 0x1116e6d8, 0xd38f1e7f, 0x2baf1354)
  {
    assert At(x, 0, 0x67452301, 0xefcdab89, 0x98badcfe, 0x10325476);
    hide At;
    Step1(x); Step2(x); Step3(x); Step4(x); Step5(x); Step6(x); Step7(x); Step8(x);
    Step9(x); Step10(x); Step11(x); Step12(x); Step13(x); Step14(x); Step15(x); Step16(x);
    Step17(x); Step18(x); Step19(x); Step20(x); Step21(x); Step22(x); Step23(x); Step24(x);
    Step25(x); Step26(x); Step27(x); Step28(x); Step29(x); Step30(x); Step31(x); Step32(x);
    Step33(x); Step34(x); Step35(x); Step36(x); Step37(x); Step38(x); Step39(x); Step40(x);
    Step41(x); Step42(x); Step43(x); Step44(x); Step45(x); Step46(x); Step47(x); Step48(x);
    Step49(x); Step50(x); Step51(x); Step52(x); Step53(x); Step54(x); Step55(x); Step56(x);
    Step57(x); Step58(x); Step59(x); Step60(x); Step61(x); Step62(x); Step63(x); Step64(x);
  }

  lemma BlockIs(block: seq<bv8>)
    requires block == Pad(MESSAGE)
    ensures |block| == 64 && IsBlock(Words(block))
  {
    BlockBytes(block);
    forall k | 0 <= k < 16 ensures X(block, k) == Word(k) {
      if k < 4 { FirstWords(block, k); } else if k < 7 { NextWords(block, k); } else { LastWords(block, k); }
    }
  }

  lemma LengthBytes()
    ensures Le64(208) == [208, 0, 0, 0, 0, 0, 0, 0]
  {
    assert ByteAt(208, 1) == 208;
    assert forall place :: place > 208 ==> 208 / place == 0;
  }

  // The padding in bytes.
  lemma BlockBytes(block: seq<bv8>)
    requires block == Pad(MESSAGE)
    ensures |block| == 64 && block[..26] == MESSAGE
    ensures block[26] == 0x80 && block[56] == 208
    ensures forall i :: (27 <= i < 56 || 57 <= i < 64) ==> block[i] == 0
  {
    hide Le64;
    LengthBytes();
    assert ZeroCount(|MESSAGE|) == 29;
    var z := Zeros(29);
    assert forall i :: 0 <= i < 29 ==> z[i] == 0;
    assert block == MESSAGE + [0x80] + z + [208, 0, 0, 0, 0, 0, 0, 0];
  }

  lemma WordOf(block: seq<bv8>, k: nat, b0: bv8, b1: bv8, b2: bv8, b3: bv8)
    requires |block| == 64 && k < 16
    requires block[4 * k] == b0 && block[4 * k + 1] == b1 && block[4 * k + 2] == b2 && block[4 * k + 3] == b3
    ensures X(block, k) == LeWord(b0, b1, b2, b3)
  {
  }

  lemma FirstWords(block: seq<bv8>, k: nat)
    requires |block| == 64 && k < 4 && block[..26] == MESSAGE
    ensures X(block, k) == Word(k)
  {
    hide X;
    assert forall i :: 0 <= i < 26 ==> block[i] == block[..26][i] == MESSAGE[i];
    if k == 0 {
      WordOf(block, 0, 0x61, 0x62, 0x63, 0x64);
    } else if k == 1 {
      WordOf(block, 1, 0x65, 0x66, 0x67, 0x68);
    } else if k == 2 {
      WordOf(block, 2, 0x69, 0x6a, 0x6b, 0x6c);
    } else {
      WordOf(block, 3, 0x6d, 0x6e, 0x6f, 0x70);
    }
  }

  lemma NextWords(block: seq<bv8>, k: nat)
    requires |block| == 64 && 4 <= k < 7 && block[..26] == MESSAGE && block[26] == 0x80 && block[27] == 0
    ensures X(block, k) == Word(k)
  {
    hide X;
    assert forall i :: 0 <= i < 26 ==> block[i] == block[..26][i] == MESSAGE[i];
    if k == 4 {
      WordOf(block, 4, 0x71, 0x72, 0x73, 0x74);
    } else if k == 5 {
      WordOf(block, 5, 0x75, 0x76, 0x77, 0x78);
    } else {
      WordOf(block, 6, 0x79, 0x7a, 0x80, 0);
    }
  }

  lemma LastWords(block: seq<bv8>, k: nat)
    requires |block| == 64 && 7 <= k < 16 && block[56] == 208
    requires forall i :: (27 <= i < 56 || 57 <= i < 64) ==> block[i] == 0
    ensures X(block, k) == Word(k)
  {
    hide X;
    if k == 14 { WordOf(block, 14, 208, 0, 0, 0); } else { WordOf(block, k, 0, 0, 0, 0); }
  }

  lemma DigestOfAlphabet()
    ensures Digest(MESSAGE) == DIGEST
  {
    hide Steps, At;
    var block := Pad(MESSAGE);
    BlockIs(block);
    AllSteps(Words(block));
    Ends(Words(block));
    AbsorbBlock(INIT, [], block);
    assert [] + block == block;
  }

  lemma Ends(x: seq<bv32>)
    requires At(x, 64, 0x708ed9c2, 0x1116e6d8, 0xd38f1e7f, 0x2baf1354)
    ensures Output(AddRegs(INIT, Steps(x, INIT, 0, 64))) == DIGEST
  {
    hide Steps;
  }
}
