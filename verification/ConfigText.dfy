/** Text standing in the input of the configuration parser, and the growth of its line buffer
    (config/parse.cpp:48-109). */
module ConfigText {
  import opened ConfigSpec

  // The text stands in the input from position p on.
  predicate At(s: seq<Ch>, p: nat, text: seq<Ch>) {
    p + |text| <= |s| && s[p..p + |text|] == text
  }

  lemma AtIndex(s: seq<Ch>, p: nat, text: seq<Ch>, i: nat)
    requires At(s, p, text) && i < |text|
    ensures s[p + i] == text[i]
  {
    assert s[p..p + |text|][i] == text[i];
  }

  lemma AtInside(s: seq<Ch>, p: nat, text: seq<Ch>)
    requires At(s, p, text)
    ensures p + |text| <= |s|
  {}

  lemma AtParts(s: seq<Ch>, p: nat, a: seq<Ch>, b: seq<Ch>)
    requires At(s, p, a + b)
    ensures At(s, p, a) && At(s, p + |a|, b)
  {
    var t := s[p..p + |a + b|];
    assert s[p..p + |a|] == t[..|a|] == a;
    assert s[p + |a|..p + |a| + |b|] == t[|a|..] == b;
  }

  lemma Halves(s: seq<Ch>, p: nat, t: seq<Ch>, rest: seq<Ch>)
    requires p <= |s| && s[p..] == t + rest
    ensures At(s, p, t) && s[p + |t|..] == rest
  {
    assert s[p..p + |t|] == s[p..][..|t|] == t;
    assert s[p + |t|..] == s[p..][|t|..] == rest;
  }

  // Blanks other than a line end are passed over.
  lemma {:induction false} SkipBlanks(s: seq<Ch>, p: nat, blanks: seq<Ch>)
    requires At(s, p, blanks) && forall i :: 0 <= i < |blanks| ==> IsSpace(blanks[i]) && blanks[i] != NEWLINE
    ensures p + |blanks| <= |s| && EatWhitespace(s, p) == EatWhitespace(s, p + |blanks|)
    decreases blanks
  {
    if blanks != [] {
      AtIndex(s, p, blanks, 0);
      assert blanks == [blanks[0]] + blanks[1..];
      AtParts(s, p, [blanks[0]], blanks[1..]);
      SkipBlanks(s, p + 1, blanks[1..]);
    }
  }

  // Characters a comment is made of.
  predicate OneLine(text: seq<Ch>) {
    forall i :: 0 <= i < |text| ==> text[i] > 0 && text[i] != NEWLINE
  }

  lemma {:induction false} EatsComment(s: seq<Ch>, p: nat, text: seq<Ch>)
    requires At(s, p, text + [NEWLINE]) && OneLine(text)
    ensures p + |text| + 1 <= |s| && EatComment(s, p) == Got(NEWLINE, p + |text| + 1)
    decreases text
  {
    AtIndex(s, p, text + [NEWLINE], 0);
    if text != [] {
      assert text + [NEWLINE] == [text[0]] + (text[1..] + [NEWLINE]);
      AtParts(s, p, [text[0]], text[1..] + [NEWLINE]);
      EatsComment(s, p + 1, text[1..]);
    }
  }

  // The size the buffer comes to have when it must take so many characters, or 0 when it cannot.
  function GrowTo(size: nat, need: nat, memory: nat): (r: nat)
    ensures r != 0 ==> need <= r && size <= r
    decreases need - size
  {
    if need <= size then size
    else if size + 1024 <= memory then GrowTo(size + 1024, need, memory)
    else 0
  }

  function Max(a: nat, b: nat): nat { if a < b then b else a }

  lemma {:induction false} GrowInStages(size: nat, a: nat, b: nat, memory: nat)
    requires size > 0
    ensures GrowTo(size, Max(a, b), memory) ==
      if GrowTo(size, a, memory) == 0 then 0 else GrowTo(GrowTo(size, a, memory), b, memory)
    decreases Max(a, b) - size
  {
    if a > size && size + 1024 <= memory { GrowInStages(size + 1024, a, b, memory); }
  }

  // One check before each character does: the text never outgrows the buffer by more than one.
  lemma RoomIsGrowth(i: nat, size: nat, memory: nat)
    requires 2 <= size && i + 1 <= size
    ensures Room(i, size, memory) == GrowTo(size, i + 2, memory)
  {}
}
