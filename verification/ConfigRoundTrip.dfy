/** Printing a configuration file - name = value lines, section headers, comments, blanks and empty
    lines - and parsing it again (config/parse.cpp:113-312).

    The parser of the printed file makes exactly the calls of its parameters and headers, in order,
    up to the first line the buffer cannot be grown for or whose call is refused. */
module ConfigRoundTrip {
  import opened ConfigSpec
  import opened ConfigText
  import opened ConfigValue

  datatype Pair = Pair(name: seq<Ch>, value: Value)

  // ASCII, not empty, no '=', blanks only single spaces inside, and no character in front that
  // makes the line something else.
  predicate GoodName(n: seq<Ch>) {
    && n != []
    && (forall i :: 0 <= i < |n| ==> n[i] > 0 && n[i] != EQUALS && (IsSpace(n[i]) ==> n[i] == SPACE))
    && (forall i :: 0 <= i < |n| - 1 ==> n[i] == SPACE ==> n[i + 1] != SPACE)
    && n[0] != SPACE && n[|n| - 1] != SPACE
    && n[0] !in {SEMICOLON, HASH, OPEN, BACKSLASH}
  }

  // As ConfigValue has it; no blank at the beginning, and the joined value does not go on.
  ghost predicate GoodValue(v: Value) {
    v.Good() && NoTail(v.Joined()) && !(IsSpace(v.Text()[0]) && v.Text()[0] != NEWLINE)
  }

  // As a parameter's name, but '=' may stand in it, ']' may not, and any of them may come first.
  predicate GoodHeader(n: seq<Ch>) {
    && n != []
    && (forall i :: 0 <= i < |n| ==> n[i] > 0 && n[i] != CLOSE && (IsSpace(n[i]) ==> n[i] == SPACE))
    && (forall i :: 0 <= i < |n| - 1 ==> n[i] == SPACE ==> n[i + 1] != SPACE)
    && n[0] != SPACE && n[|n| - 1] != SPACE
  }

  function Line(x: Pair): seq<Ch> {
    x.name + [SPACE, EQUALS, SPACE] + x.value.Text()
  }

  // What follows a header's bracket on its line is not looked at.
  function HeaderRest(n: seq<Ch>, trail: seq<Ch>): seq<Ch> {
    n + ([CLOSE] + (trail + [NEWLINE]))
  }

  function HeaderLine(n: seq<Ch>, trail: seq<Ch>): seq<Ch> {
    [OPEN] + HeaderRest(n, trail)
  }

  // What a file is made of: its text, the calls it stands for, and the buffer it takes. Blanks may
  // stand in front of anything; an empty line or a lone backslash is Skipped, and Junk is a line
  // without an '='.
  datatype Entry =
    | Header(name: seq<Ch>, trail: seq<Ch>)
    | Setting(pair: Pair)
    | Comment(mark: Ch, text: seq<Ch>)
    | Blanks(blanks: seq<Ch>)
    | Skipped(c: Ch)
    | Junk(text: seq<Ch>)
  {
    function Text(): seq<Ch> {
      match this
      case Header(n, trail) => HeaderLine(n, trail)
      case Setting(x) => Line(x)
      case Comment(mark, text) => [mark] + (text + [NEWLINE])
      case Blanks(bs) => bs
      case Skipped(c) => [c]
      case Junk(text) => text + [NEWLINE]
    }

    function Calls(): (cs: seq<Call>)
      ensures |cs| <= 1
    {
      match this
      case Header(n, _) => [SectionCall(n)]
      case Setting(x) => [ParamCall(x.name, x.value.Joined())]
      case _ => []
    }

    function Need(): nat {
      match this
      case Header(n, _) => |n| + 2
      case Setting(x) => |x.name| + 1 + x.value.Need(0)
      case Junk(text) => |text| + 2
      case _ => 0
    }

    ghost predicate Good() {
      match this
      case Header(n, trail) => GoodHeader(n) && OneLine(trail)
      case Setting(x) => GoodName(x.name) && GoodValue(x.value)
      case Comment(mark, text) => mark in {SEMICOLON, HASH} && OneLine(text)
      case Blanks(bs) => forall i :: 0 <= i < |bs| ==> IsSpace(bs[i]) && bs[i] != NEWLINE
      case Skipped(c) => c in {NEWLINE, BACKSLASH}
      case Junk(text) => GoodName(text) && text[|text| - 1] != BACKSLASH
    }
  }

  predicate Refused(line: Entry, e: Env) {
    line.Calls() != [] && line.Calls()[0] in e.refused
  }

  ghost predicate AllGood(lines: seq<Entry>) {
    forall i :: 0 <= i < |lines| ==> lines[i].Good()
  }

  function Print(lines: seq<Entry>): seq<Ch> {
    if lines == [] then [] else lines[0].Text() + Print(lines[1..])
  }

  // ---------------------------------------------------------------- one line

  // Behind the name and one blank, the '='.
  lemma EqualsEnds(e: Env, n: seq<Ch>, p: nat, size: nat)
    requires n != [] && p <= |e.input| && 2 <= size && |n| + 2 <= size
    ensures var grown := GrowTo(size, |n| + 3, e.memory);
      var r := NameFrom(e, Reading(n + [SPACE], |n|, Got(EQUALS, p)), size);
      if grown == 0 then r.Returned? && !r.ok else r == Named(n, p, grown)
  {
    RoomIsGrowth(|n| + 1, size, e.memory);
    assert (n + [SPACE])[..|n|] == n;
  }

  // The first k characters of the name read and the next one got, with the character behind it.
  function NameReading(n: seq<Ch>, next: Ch, p: nat, k: nat): Reading
    requires n != [] && k <= |n|
  {
    var end := if k > 0 && n[k - 1] == SPACE then k - 1 else k;
    Reading(n[..k], end, Got(if k < |n| then n[k] else next, p + k + 1))
  }

  // What NameFrom comes to from there.
  function NameAt(e: Env, n: seq<Ch>, next: Ch, p: nat, k: nat, size: nat): NameEnd
    requires n != [] && At(e.input, p, n + [next]) && k <= |n|
  {
    NameFrom(e, NameReading(n, next, p, k), size)
  }

  lemma NameTake(s: seq<Ch>, n: seq<Ch>, next: Ch, p: nat, k: nat)
    requires GoodName(n) && At(s, p, n + [next]) && k < |n|
    ensures Take(s, NameReading(n, next, p, k)) == NameReading(n, next, p, k + 1)
  {
    hide At;
    AtIndex(s, p, n + [next], k + 1);
    AtInside(s, p, n + [next]);
    if n[k] == SPACE {
      assert k > 0 && n[k - 1] != SPACE && !IsSpace(n[k + 1]);
      assert n[..k][..k] == n[..k];
      assert EatWhitespace(s, p + k + 1) == Got(n[k + 1], p + k + 2);
      assert n[..k] + [SPACE] == n[..k + 1];
    } else {
      assert n[..k] + [n[k]] == n[..k + 1];
    }
  }

  lemma NameStep(e: Env, n: seq<Ch>, next: Ch, p: nat, k: nat, size: nat)
    requires GoodName(n) && At(e.input, p, n + [next]) && k < |n|
    ensures var room := Room(k, size, e.memory);
      var r := NameAt(e, n, next, p, k, size);
      if room == 0 then r.Returned? && !r.ok else r == NameAt(e, n, next, p, k + 1, room)
  {
    hide Room, Take, EatWhitespace, Continuation, Join;
    NameTake(e.input, n, next, p, k);
    assert n[k] > 0 && n[k] != EQUALS && n[k] != NEWLINE;
  }

  // From any point in the name on: it is read to its end, or the buffer cannot be grown for it.
  lemma {:induction false} NameIsRead(e: Env, n: seq<Ch>, next: Ch, p: nat, k: nat, size: nat)
    requires GoodName(n) && At(e.input, p, n + [next]) && k <= |n|
    requires 2 <= size && k + 1 <= size
    ensures n != []
    ensures var grown := GrowTo(size, |n| + 1, e.memory);
      var r := NameAt(e, n, next, p, k, size);
      if grown == 0 then r.Returned? && !r.ok else r == NameAt(e, n, next, p, |n|, grown)
    decreases |n| - k
  {
    if k < |n| {
      NameStep(e, n, next, p, k, size);
      hide NameAt, At, GoodName, Room;
      var room := Room(k, size, e.memory);
      RoomIsGrowth(k, size, e.memory);
      GrowInStages(size, k + 2, |n| + 1, e.memory);
      if room != 0 { NameIsRead(e, n, next, p, k + 1, room); }
    }
  }

  lemma NameLast(e: Env, x: Pair, p: nat, size: nat)
    requires GoodName(x.name) && At(e.input, p, Line(x)) && At(e.input, p, x.name + [SPACE])
    requires 2 <= size && |x.name| + 1 <= size
    ensures var n := x.name;
      var grown := GrowTo(size, |n| + 3, e.memory);
      var r := NameAt(e, n, SPACE, p, |n|, size);
      if grown == 0 then r.Returned? && !r.ok else r == Named(n, p + |n| + 2, grown)
  {
    var n := x.name;
    var room := Room(|n|, size, e.memory);
    RoomIsGrowth(|n|, size, e.memory);
    GrowInStages(size, |n| + 2, |n| + 3, e.memory);
    NameInside(e.input, p, x);
    AtIndex(e.input, p, Line(x), |n| + 1);
    assert EatWhitespace(e.input, p + |n| + 1) == Got(EQUALS, p + |n| + 2);
    assert n[..|n|] == n;
    hide GrowTo, At, Line, EatWhitespace;
    if room != 0 { EqualsEnds(e, n, p + |n| + 2, room); }
  }

  // A parameter's name comes out, or the buffer cannot be grown for it.
  lemma NameComesOut(e: Env, x: Pair, p: nat, size: nat)
    requires GoodName(x.name) && At(e.input, p, Line(x)) && 2 <= size
    ensures x.name != [] && p + 1 <= |e.input|
    ensures var n := x.name;
      var grown := GrowTo(size, |n| + 3, e.memory);
      var r := NameFrom(e, Reading([], 0, Got(n[0], p + 1)), size);
      if grown == 0 then r.Returned? && !r.ok else r == Named(n, p + |n| + 2, grown)
  {
    hide At, NameFrom, GrowTo;
    var n := x.name;
    AtInside(e.input, p, Line(x));
    assert Line(x) == (n + [SPACE]) + ([EQUALS, SPACE] + x.value.Text());
    AtParts(e.input, p, n + [SPACE], [EQUALS, SPACE] + x.value.Text());
    NameIsRead(e, n, SPACE, p, 0, size);
    assert n[..0] == [];
    GrowInStages(size, |n| + 1, |n| + 3, e.memory);
    var grown := GrowTo(size, |n| + 1, e.memory);
    if grown != 0 { NameLast(e, x, p, grown); }
  }

  lemma JunkEnds(e: Env, n: seq<Ch>, p: nat, size: nat)
    requires GoodName(n) && n[|n| - 1] != BACKSLASH && At(e.input, p, n + [NEWLINE]) && p + |n| + 1 <= |e.input|
    ensures var room := Room(|n|, size, e.memory);
      var r := NameAt(e, n, NEWLINE, p, |n|, size);
      if room == 0 then r.Returned? && !r.ok else r == Returned(true, p + |n| + 1, room)
  {
    hide At;
    assert n[..|n|] == n && Continuation(n) == -1;
  }

  // A line without an '=' makes no call.
  lemma JunkIsRead(e: Env, n: seq<Ch>, p: nat, size: nat)
    requires GoodName(n) && n[|n| - 1] != BACKSLASH && At(e.input, p, n + [NEWLINE]) && 2 <= size
    ensures p + |n| + 1 <= |e.input|
    ensures var grown := GrowTo(size, |n| + 2, e.memory);
      var r := Parameter(e, Got(n[0], p + 1), size);
      if grown == 0 then !r.ok && r.calls == [] else r == Outcome(true, [], p + |n| + 1, grown)
  {
    hide At, NameFrom, GrowTo;
    AtInside(e.input, p, n + [NEWLINE]);
    NameIsRead(e, n, NEWLINE, p, 0, size);
    assert n[..0] == [];
    GrowInStages(size, |n| + 1, |n| + 2, e.memory);
    var grown := GrowTo(size, |n| + 1, e.memory);
    if grown != 0 {
      RoomIsGrowth(|n|, grown, e.memory);
      JunkEnds(e, n, p, grown);
    }
  }

  // A printed line calls the handler with its pair, when the buffer can hold it.
  lemma LineIsRead(e: Env, x: Pair, p: nat, size: nat)
    requires GoodName(x.name) && GoodValue(x.value) && At(e.input, p, Line(x)) && 2 <= size
    ensures var grown := GrowTo(size, |x.name| + 1 + x.value.Need(0), e.memory);
      var r := Parameter(e, Got(x.name[0], p + 1), size);
      var call := ParamCall(x.name, x.value.Joined());
      if grown == 0 then !r.ok && r.calls == []
      else r == Outcome(call !in e.refused, [call], p + |Line(x)|, grown)
  {
    hide GrowTo, At, NameFrom, ValueFrom, Line, GoodName, GoodValue, EatWhitespace;
    var n, v := x.name, x.value;
    NameInside(e.input, p, x);
    NameComesOut(e, x, p, size);
    GrowInStages(size, |n| + 3, |n| + 1 + v.Need(0), e.memory);
    var room := GrowTo(size, |n| + 3, e.memory);
    ValueStands(e.input, p, x);
    if room != 0 {
      GoodValueIs(v);
      ValueIsRead(e, [], v, n + [NUL], p + |n| + 3, room);
    }
  }

  lemma GoodValueIs(v: Value)
    requires GoodValue(v)
    ensures v.Good() && NoTail([] + v.Joined()) && [] + v.Joined() == v.Joined()
  {
    assert [] + v.Joined() == v.Joined();
  }

  lemma NameInside(s: seq<Ch>, p: nat, x: Pair)
    requires At(s, p, Line(x))
    ensures p + |x.name| + 3 < p + |Line(x)| == p + |x.name| + 3 + |x.value.Text()| <= |s|
  {
  }

  // The value's first character is got behind the blank after the '='.
  lemma ValueStands(s: seq<Ch>, p: nat, x: Pair)
    requires At(s, p, Line(x)) && GoodValue(x.value)
    ensures var q := p + |x.name| + 3;
      && q < |s| && At(s, q, x.value.Text()) && EatWhitespace(s, q - 1) == Got(s[q], q + 1)
  {
    hide At, GoodValue, EatWhitespace;
    var front, t := x.name + [SPACE, EQUALS, SPACE], x.value.Text();
    var q := p + |front|;
    assert Line(x) == front + t;
    NameInside(s, p, x);
    AtParts(s, p, front, t);
    AtIndex(s, p, front, |x.name| + 2);
    AtIndex(s, q, t, 0);
    OneBlank(s, q, x.value);
  }

  lemma OneBlank(s: seq<Ch>, q: nat, v: Value)
    requires 0 < q < |s| && s[q - 1] == SPACE && GoodValue(v) && s[q] == v.Text()[0]
    ensures EatWhitespace(s, q - 1) == Got(s[q], q + 1)
  {
  }

  // ---------------------------------------------------------------- one header

  // What SectionFrom comes to with the first k characters of the name read and the next one got.
  function HeaderAt(e: Env, n: seq<Ch>, trail: seq<Ch>, p: nat, k: nat, size: nat): Outcome
    requires n != [] && At(e.input, p, HeaderRest(n, trail)) && k <= |n|
  {
    SectionFrom(e, HeaderReading(n, p, k), size)
  }

  function HeaderReading(n: seq<Ch>, p: nat, k: nat): Reading
    requires n != [] && k <= |n|
  {
    var end := if k > 0 && n[k - 1] == SPACE then k - 1 else k;
    Reading(n[..k], end, Got(if k < |n| then n[k] else CLOSE, p + k + 1))
  }

  lemma HeaderTake(s: seq<Ch>, n: seq<Ch>, trail: seq<Ch>, p: nat, k: nat)
    requires GoodHeader(n) && At(s, p, HeaderRest(n, trail)) && k < |n|
    ensures Take(s, HeaderReading(n, p, k)) == HeaderReading(n, p, k + 1)
  {
    hide At;
    AtIndex(s, p, HeaderRest(n, trail), k + 1);
    AtInside(s, p, HeaderRest(n, trail));
    if n[k] == SPACE {
      assert k > 0 && n[k - 1] != SPACE && !IsSpace(n[k + 1]);
      assert n[..k][..k] == n[..k];
      assert EatWhitespace(s, p + k + 1) == Got(n[k + 1], p + k + 2);
      assert n[..k] + [SPACE] == n[..k + 1];
    } else {
      assert n[..k] + [n[k]] == n[..k + 1];
    }
  }

  lemma HeaderStep(e: Env, n: seq<Ch>, trail: seq<Ch>, p: nat, k: nat, size: nat)
    requires GoodHeader(n) && At(e.input, p, HeaderRest(n, trail)) && k < |n|
    ensures var room := Room(k, size, e.memory);
      var o := HeaderAt(e, n, trail, p, k, size);
      if room == 0 then !o.ok && o.calls == [] else o == HeaderAt(e, n, trail, p, k + 1, room)
  {
    hide Room, Take, EatWhitespace, EatComment, Continuation, Join, HeaderRest;
    HeaderTake(e.input, n, trail, p, k);
    assert n[k] > 0 && n[k] != CLOSE && n[k] != NEWLINE;
  }

  lemma SectionCloses(e: Env, n: seq<Ch>, q: nat, size: nat)
    requires n != [] && q <= |e.input|
    ensures var room := Room(|n|, size, e.memory);
      var o := SectionFrom(e, Reading(n, |n|, Got(CLOSE, q)), size);
      var call := SectionCall(n);
      && (room == 0 ==> !o.ok && o.calls == [])
      && (room != 0 ==> o.ok == (call !in e.refused) && o.calls == [call])
      && (o.ok ==> o.p == EatComment(e.input, q).p && o.size == room)
  {
    hide EatComment, Room;
    assert n[..|n|] == n;
  }

  lemma HeaderLast(e: Env, n: seq<Ch>, trail: seq<Ch>, p: nat, size: nat)
    requires GoodHeader(n) && OneLine(trail) && At(e.input, p, HeaderRest(n, trail))
    ensures var room := Room(|n|, size, e.memory);
      var o := HeaderAt(e, n, trail, p, |n|, size);
      var call := SectionCall(n);
      && (room == 0 ==> !o.ok && o.calls == [])
      && (room != 0 ==> o.ok == (call !in e.refused) && o.calls == [call])
      && (o.ok ==> o.p == p + |HeaderRest(n, trail)| && o.size == room)
  {
    hide At, SectionFrom, EatComment, OneLine;
    assert n[..|n|] == n;
    AtParts(e.input, p, n, [CLOSE] + (trail + [NEWLINE]));
    AtParts(e.input, p + |n|, [CLOSE], trail + [NEWLINE]);
    EatsComment(e.input, p + |n| + 1, trail);
    SectionCloses(e, n, p + |n| + 1, size);
  }

  lemma {:induction false} HeaderIsRead(e: Env, n: seq<Ch>, trail: seq<Ch>, p: nat, k: nat, size: nat)
    requires GoodHeader(n) && OneLine(trail) && At(e.input, p, HeaderRest(n, trail)) && k <= |n|
    requires 2 <= size && k + 1 <= size
    ensures var grown := GrowTo(size, |n| + 2, e.memory);
      var o := HeaderAt(e, n, trail, p, k, size);
      var call := SectionCall(n);
      && (grown == 0 ==> !o.ok && o.calls == [])
      && (grown != 0 ==> o.ok == (call !in e.refused) && o.calls == [call])
      && (o.ok ==> o.p == p + |HeaderRest(n, trail)| && o.size == grown)
    decreases |n| - k
  {
    hide HeaderAt, At, GoodHeader, HeaderRest, OneLine;
    var room := Room(k, size, e.memory);
    RoomIsGrowth(k, size, e.memory);
    if k == |n| {
      HeaderLast(e, n, trail, p, size);
    } else {
      HeaderStep(e, n, trail, p, k, size);
      GrowInStages(size, k + 2, |n| + 2, e.memory);
      if room != 0 { HeaderIsRead(e, n, trail, p, k + 1, room); }
    }
  }

  // ---------------------------------------------------------------- all lines

  // What reading the lines comes to after some calls: stopped by the first one too long or refused.
  function ReadLines(lines: seq<Entry>, size: nat, e: Env, calls: seq<Call>): (bool, seq<Call>)
    decreases lines
  {
    if lines == [] then (true, calls)
    else
      var grown := GrowTo(size, lines[0].Need(), e.memory);
      if grown == 0 then (false, calls)
      else if Refused(lines[0], e) then (false, calls + lines[0].Calls())
      else ReadLines(lines[1..], grown, e, calls + lines[0].Calls())
  }

  // One turn of Parse on a line: the outcome of the line, or the rest after it.
  ghost predicate TurnsInto(e: Env, line: Entry, p: nat, size: nat, calls: seq<Call>) {
    var grown := GrowTo(size, line.Need(), e.memory);
    var q := p + |line.Text()|;
    p <= |e.input| && q <= |e.input| && (
      var r := ParseFrom(e, EatWhitespace(e.input, p), size, calls);
      && (grown == 0 ==> !r.ok && r.calls == calls)
      && (grown != 0 && Refused(line, e) ==> !r.ok && r.calls == calls + line.Calls())
      && (grown != 0 && !Refused(line, e) ==>
            r == ParseFrom(e, EatWhitespace(e.input, q), grown, calls + line.Calls())))
  }

  lemma SettingTurns(e: Env, x: Pair, p: nat, size: nat, calls: seq<Call>)
    requires GoodName(x.name) && GoodValue(x.value) && At(e.input, p, Line(x)) && 2 <= size
    ensures TurnsInto(e, Setting(x), p, size, calls)
  {
    hide GrowTo, EatWhitespace, Parameter, ParseFrom, At, Line, GoodName, GoodValue;
    SettingStarts(e.input, p, x);
    LineIsRead(e, x, p, size);
    ParseLine(e, Got(x.name[0], p + 1), size, calls);
    assert calls + [] == calls;
  }

  lemma JunkTurns(e: Env, n: seq<Ch>, p: nat, size: nat, calls: seq<Call>)
    requires Junk(n).Good() && At(e.input, p, n + [NEWLINE]) && 2 <= size
    ensures TurnsInto(e, Junk(n), p, size, calls)
  {
    hide GrowTo, EatWhitespace, Parameter, ParseFrom, At;
    JunkIsRead(e, n, p, size);
    AtIndex(e.input, p, n + [NEWLINE], 0);
    FirstIs(e.input, p, n[0]);
    ParseLine(e, Got(n[0], p + 1), size, calls);
    assert calls + [] == calls;
  }

  lemma SettingStarts(s: seq<Ch>, p: nat, x: Pair)
    requires GoodName(x.name) && At(s, p, Line(x))
    ensures x.name != [] && EatWhitespace(s, p) == Got(x.name[0], p + 1) && p + |Line(x)| <= |s|
    ensures x.name[0] > 0 && x.name[0] !in {NEWLINE, BACKSLASH, SEMICOLON, HASH, OPEN}
  {
    AtIndex(s, p, Line(x), 0);
  }

  lemma HeaderTurns(e: Env, n: seq<Ch>, trail: seq<Ch>, p: nat, size: nat, calls: seq<Call>)
    requires GoodHeader(n) && OneLine(trail) && At(e.input, p, HeaderLine(n, trail)) && 2 <= size
    ensures TurnsInto(e, Header(n, trail), p, size, calls)
  {
    hide GrowTo, EatWhitespace, Section, ParseFrom, At, GoodHeader, HeaderAt, HeaderRest, OneLine;
    HeaderStarts(e, n, trail, p, size);
    HeaderIsRead(e, n, trail, p + 1, 0, size);
    ParseHeader(e, p + 1, size, calls);
    assert calls + [] == calls;
  }

  lemma HeaderStarts(e: Env, n: seq<Ch>, trail: seq<Ch>, p: nat, size: nat)
    requires GoodHeader(n) && At(e.input, p, HeaderLine(n, trail))
    ensures n != [] && p + 1 + |HeaderRest(n, trail)| <= |e.input| && At(e.input, p + 1, HeaderRest(n, trail))
    ensures EatWhitespace(e.input, p) == Got(OPEN, p + 1)
    ensures Section(e, p + 1, size) == HeaderAt(e, n, trail, p + 1, 0, size)
  {
    hide At;
    var s := e.input;
    AtInside(s, p, HeaderLine(n, trail));
    AtIndex(s, p, HeaderLine(n, trail), 0);
    AtIndex(s, p, HeaderLine(n, trail), 1);
    AtParts(s, p, [OPEN], HeaderRest(n, trail));
    assert EatWhitespace(s, p + 1) == Got(n[0], p + 2);
    assert n[..0] == [];
  }

  // A line without a call, passed over.
  lemma QuietTurns(e: Env, line: Entry, p: nat, size: nat, calls: seq<Call>)
    requires line.Calls() == [] && line.Need() == 0 && 2 <= size
    requires p <= |e.input| && p + |line.Text()| <= |e.input|
    requires ParseFrom(e, EatWhitespace(e.input, p), size, calls)
          == ParseFrom(e, EatWhitespace(e.input, p + |line.Text()|), size, calls)
    ensures TurnsInto(e, line, p, size, calls)
  {
    hide ParseFrom, EatWhitespace;
    assert calls + [] == calls;
  }

  lemma CommentTurns(e: Env, mark: Ch, text: seq<Ch>, p: nat, size: nat, calls: seq<Call>)
    requires mark in {SEMICOLON, HASH} && OneLine(text) && At(e.input, p, [mark] + (text + [NEWLINE])) && 2 <= size
    ensures TurnsInto(e, Comment(mark, text), p, size, calls)
  {
    hide At, OneLine, EatWhitespace, EatComment, ParseFrom, TurnsInto;
    AtInside(e.input, p, [mark] + (text + [NEWLINE]));
    AtIndex(e.input, p, [mark] + (text + [NEWLINE]), 0);
    AtParts(e.input, p, [mark], text + [NEWLINE]);
    EatsComment(e.input, p + 1, text);
    FirstIs(e.input, p, mark);
    ParseComment(e, mark, p + 1, size, calls);
    ParseSkipped(e, NEWLINE, p + |text| + 2, size, calls);
    QuietTurns(e, Comment(mark, text), p, size, calls);
  }

  lemma FirstIs(s: seq<Ch>, p: nat, c: Ch)
    requires p < |s| && s[p] == c && (!IsSpace(c) || c == NEWLINE)
    ensures EatWhitespace(s, p) == Got(c, p + 1)
  {
  }

  lemma ParseComment(e: Env, mark: Ch, p: nat, size: nat, calls: seq<Call>)
    requires mark in {SEMICOLON, HASH} && p <= |e.input|
    ensures ParseFrom(e, Got(mark, p), size, calls) == ParseFrom(e, EatComment(e.input, p), size, calls)
  {
    hide EatComment;
  }

  lemma ParseSkipped(e: Env, c: Ch, p: nat, size: nat, calls: seq<Call>)
    requires c in {NEWLINE, BACKSLASH} && p <= |e.input|
    ensures ParseFrom(e, Got(c, p), size, calls) == ParseFrom(e, EatWhitespace(e.input, p), size, calls)
  {
    hide EatWhitespace;
  }

  lemma BlanksTurn(e: Env, bs: seq<Ch>, p: nat, size: nat, calls: seq<Call>)
    requires Blanks(bs).Good() && At(e.input, p, bs) && 2 <= size
    ensures TurnsInto(e, Blanks(bs), p, size, calls)
  {
    hide EatWhitespace, ParseFrom, TurnsInto;
    SkipBlanks(e.input, p, bs);
    QuietTurns(e, Blanks(bs), p, size, calls);
  }

  lemma SkippedTurns(e: Env, c: Ch, p: nat, size: nat, calls: seq<Call>)
    requires c in {NEWLINE, BACKSLASH} && At(e.input, p, [c]) && 2 <= size
    ensures TurnsInto(e, Skipped(c), p, size, calls)
  {
    hide At, EatWhitespace, ParseFrom, TurnsInto;
    AtInside(e.input, p, [c]);
    AtIndex(e.input, p, [c], 0);
    FirstIs(e.input, p, c);
    ParseSkipped(e, c, p + 1, size, calls);
    QuietTurns(e, Skipped(c), p, size, calls);
  }

  lemma ParseHeader(e: Env, p: nat, size: nat, calls: seq<Call>)
    requires p <= |e.input|
    ensures var r := Section(e, p, size);
      ParseFrom(e, Got(OPEN, p), size, calls) ==
        if r.ok then ParseFrom(e, EatWhitespace(e.input, r.p), r.size, calls + r.calls)
        else Outcome(false, calls + r.calls, r.p, r.size)
  {
    hide Section, EatWhitespace;
  }

  lemma ParseLine(e: Env, g: Got, size: nat, calls: seq<Call>)
    requires g.p <= |e.input| && 0 < g.c
    requires g.c !in {NEWLINE, BACKSLASH, SEMICOLON, HASH, OPEN}
    ensures var r := Parameter(e, g, size);
      ParseFrom(e, g, size, calls) ==
        if r.ok then ParseFrom(e, EatWhitespace(e.input, r.p), r.size, calls + r.calls)
        else Outcome(false, calls + r.calls, r.p, r.size)
  {
    hide Parameter, EatWhitespace;
  }

  lemma FirstLineStands(s: seq<Ch>, lines: seq<Entry>, p: nat)
    requires lines != [] && p <= |s| && s[p..] == Print(lines)
    ensures At(s, p, lines[0].Text()) && s[p + |lines[0].Text()|..] == Print(lines[1..])
  {
    hide At, Line, HeaderLine;
    Halves(s, p, lines[0].Text(), Print(lines[1..]));
  }

  lemma FirstLineTurns(e: Env, lines: seq<Entry>, p: nat, size: nat, calls: seq<Call>)
    requires lines != [] && AllGood(lines) && p <= |e.input| && e.input[p..] == Print(lines) && 2 <= size
    ensures TurnsInto(e, lines[0], p, size, calls)
    ensures AllGood(lines[1..]) && e.input[p + |lines[0].Text()|..] == Print(lines[1..])
  {
    hide At, TurnsInto, Line, HeaderLine, Print, OneLine, GoodName, GoodValue, GoodHeader;
    FirstLineStands(e.input, lines, p);
    assert lines[0].Good();
    match lines[0] {
      case Header(n, trail) => HeaderTurns(e, n, trail, p, size, calls);
      case Setting(x) => SettingTurns(e, x, p, size, calls);
      case Comment(mark, text) => CommentTurns(e, mark, text, p, size, calls);
      case Blanks(bs) => BlanksTurn(e, bs, p, size, calls);
      case Skipped(c) => SkippedTurns(e, c, p, size, calls);
      case Junk(n) => JunkTurns(e, n, p, size, calls);
    }
  }

  lemma {:induction false} LinesAreRead(e: Env, lines: seq<Entry>, p: nat, size: nat, calls: seq<Call>)
    requires AllGood(lines) && p <= |e.input| && e.input[p..] == Print(lines) && 2 <= size
    ensures var r := ParseFrom(e, EatWhitespace(e.input, p), size, calls);
      (r.ok, r.calls) == ReadLines(lines, size, e, calls)
    decreases lines
  {
    hide GrowTo, EatWhitespace, ParseFrom, Print, AllGood;
    if lines == [] {
      NothingIsRead(e, size, calls);
    } else {
      FirstLineTurns(e, lines, p, size, calls);
      var grown := GrowTo(size, lines[0].Need(), e.memory);
      if grown != 0 && !Refused(lines[0], e) {
        LinesAreRead(e, lines[1..], p + |lines[0].Text()|, grown, calls + lines[0].Calls());
      }
    }
  }

  lemma NothingIsRead(e: Env, size: nat, calls: seq<Call>)
    ensures Print([]) == []
    ensures ParseFrom(e, EatWhitespace(e.input, |e.input|), size, calls) == Outcome(true, calls, |e.input|, size)
  {}

  function Calls(lines: seq<Entry>): seq<Call> {
    if lines == [] then [] else lines[0].Calls() + Calls(lines[1..])
  }

  // The line can be held, and its call is not refused.
  predicate Passes(line: Entry, size: nat, e: Env) {
    GrowTo(size, line.Need(), e.memory) != 0 && !Refused(line, e)
  }

  // The handlers are called for all the lines, in order, and Parse succeeds, exactly when no call
  // is refused and every line fits or the buffer can be grown for it.
  lemma RoundTrip(e: Env, lines: seq<Entry>)
    requires AllGood(lines) && e.input == Print(lines)
    ensures var r := Parse(e);
      && (r.ok, r.calls) == ReadLines(lines, 1024, e, [])
      && (r.ok <==> (forall i :: 0 <= i < |lines| ==> Passes(lines[i], 1024, e)))
      && (r.ok ==> r.calls == Calls(lines))
  {
    assert e.input[0..] == e.input;
    LinesAreRead(e, lines, 0, 1024, []);
    ReadLinesSucceed(e, lines, 1024, []);
    assert [] + Calls(lines) == Calls(lines);
  }

  lemma {:induction false} ReadLinesSucceed(e: Env, lines: seq<Entry>, size: nat, calls: seq<Call>)
    requires size > 0
    ensures ReadLines(lines, size, e, calls).0 <==> (forall i :: 0 <= i < |lines| ==> Passes(lines[i], size, e))
    ensures ReadLines(lines, size, e, calls).0 ==> ReadLines(lines, size, e, calls).1 == calls + Calls(lines)
    decreases lines
  {
    if lines == [] {
      assert calls + [] == calls;
    } else {
      var own := lines[0].Calls();
      var grown := GrowTo(size, lines[0].Need(), e.memory);
      if Passes(lines[0], size, e) {
        ReadLinesSucceed(e, lines[1..], grown, calls + own);
        assert (calls + own) + Calls(lines[1..]) == calls + (own + Calls(lines[1..]));
        forall i | 0 <= i < |lines| - 1 ensures Passes(lines[1..][i], grown, e) <==> Passes(lines[i + 1], size, e) {
          GrownAsFar(size, lines[0].Need(), lines[i + 1].Need(), e.memory);
        }
        hide Passes;
        if forall i :: 0 <= i < |lines| - 1 ==> Passes(lines[1..][i], grown, e) {
          forall i | 0 <= i < |lines| ensures Passes(lines[i], size, e) {
            if i > 0 { assert Passes(lines[1..][i - 1], grown, e); }
          }
        }
      }
    }
  }

  lemma GrownAsFar(size: nat, a: nat, b: nat, memory: nat)
    requires size > 0 && GrowTo(size, a, memory) != 0
    ensures GrowTo(GrowTo(size, a, memory), b, memory) != 0 <==> GrowTo(size, b, memory) != 0
  {
    GrowInStages(size, a, b, memory);
    GrowInStages(size, b, a, memory);
  }

  // Realloc as it is written never succeeds: then the parse succeeds exactly when no call is
  // refused and 1024 characters are enough for every line. For a header that is its name and two,
  // for a parameter on one line its name, its value and three.
  lemma RoundTripAsBuilt(e: Env, lines: seq<Entry>)
    requires AllGood(lines) && e.input == Print(lines) && e.memory == 0
    ensures Parse(e).ok <==> (forall i :: 0 <= i < |lines| ==>
      lines[i].Need() <= 1024 && !Refused(lines[i], e))
  {
    RoundTrip(e, lines);
    hide Parse;
    forall i | 0 <= i < |lines|
      ensures Passes(lines[i], 1024, e) <==> lines[i].Need() <= 1024 && !Refused(lines[i], e)
    {
      NoGrowth(lines[i].Need());
    }
  }

  lemma NoGrowth(need: nat)
    ensures GrowTo(1024, need, 0) != 0 <==> need <= 1024
  {}
}
