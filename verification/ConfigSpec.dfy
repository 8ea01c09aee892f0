/** The configuration file grammar as functions (config/parse.cpp:48-312).

    A function reads on from a position, with the text collected so far and the size of the line
    buffer, which grows by a fixed step as long as memory lasts.  The text of the line so far
    stands for bufr[..i].  Bytes are signed chars: 0xff reads as the end of the file. */
module ConfigSpec {
  // A signed char; the parser makes no use of its range.
  type Ch = int

  const EOF: int := -1
  const NUL: int := 0
  const TAB: int := 9
  const NEWLINE: int := 10
  const RETURN: int := 13
  const SPACE: int := 32
  const HASH: int := 35
  const SEMICOLON: int := 59
  const EQUALS: int := 61
  const OPEN: int := 91
  const BACKSLASH: int := 92
  const CLOSE: int := 93

  // isspace of the C locale
  predicate IsSpace(c: int) { 9 <= c <= 13 || c == 32 }

  // What a handler is called with.
  datatype Call = SectionCall(name: seq<Ch>) | ParamCall(name: seq<Ch>, value: seq<Ch>)

  // The file, the largest buffer that can be had, and the calls the handlers refuse.
  datatype Env = Env(input: seq<Ch>, memory: nat, refused: set<Call>)

  // A character got, and the position behind it.
  datatype Got = Got(c: int, p: nat)

  // mygetc
  function GetC(s: seq<Ch>, p: nat): (g: Got)
    requires p <= |s|
    ensures p <= g.p <= |s| && Left(s, g) <= |s| - p
    ensures g.c == EOF || (g.p == p + 1 && g.c == s[p])
  {
    if p == |s| then Got(EOF, p) else Got(s[p], p + 1)
  }

  // How much is left to do; what every loop of the parser counts down.
  function Left(s: seq<Ch>, g: Got): int { |s| - g.p + if g.c == EOF then 0 else 1 }

  function EatWhitespace(s: seq<Ch>, p: nat): (g: Got)
    requires p <= |s|
    ensures p <= g.p <= |s| && Left(s, g) <= |s| - p
    decreases |s| - p
  {
    var g := GetC(s, p);
    if IsSpace(g.c) && g.c != NEWLINE then EatWhitespace(s, g.p) else g
  }

  function EatComment(s: seq<Ch>, p: nat): (g: Got)
    requires p <= |s|
    ensures p <= g.p <= |s| && Left(s, g) <= |s| - p
    decreases |s| - p
  {
    var g := GetC(s, p);
    if g.c != NEWLINE && g.c > 0 then EatComment(s, g.p) else g
  }

  // Continuation: where the backslash stands that is the last character but for blanks, or -1.
  function Continuation(line: seq<Ch>): (k: int)
    ensures -1 <= k < |line|
    ensures k >= 0 ==> line[k] == BACKSLASH
  {
    if line == [] then -1
    else if IsSpace(line[|line| - 1]) then Continuation(line[..|line| - 1])
    else if line[|line| - 1] == BACKSLASH then |line| - 1
    else -1
  }

  const STEP: nat := 1024

  // The buffer size with room for i characters, or 0 when the buffer cannot grow.
  function Room(i: nat, size: nat, memory: nat): nat {
    if i <= size - 2 then size else if size + 1024 <= memory then size + 1024 else 0
  }

  // The text of a line with the end of its last word, and the next character.
  datatype Reading = Reading(line: seq<Ch>, end: nat, g: Got)

  predicate Reads(s: seq<Ch>, r: Reading) { r.end <= |r.line| && r.g.p <= |s| }

  // A character taken into the line; blanks become one space.
  function Take(s: seq<Ch>, r: Reading): (next: Reading)
    requires Reads(s, r) && r.g.c != EOF
    ensures Reads(s, next) && r.g.p <= next.g.p && Left(s, next.g) < Left(s, r.g)
  {
    if IsSpace(r.g.c) then Reading(r.line[..r.end] + [SPACE], r.end, EatWhitespace(s, r.g.p))
    else Reading(r.line + [r.g.c], |r.line| + 1, GetC(s, r.g.p))
  }

  // The line goes on behind a backslash at k, which is dropped; one blank before it does not count.
  function Join(s: seq<Ch>, r: Reading, k: nat): (next: Reading)
    requires Reads(s, r) && r.g.c != EOF && k <= |r.line|
    ensures Reads(s, next) && r.g.p <= next.g.p && Left(s, next.g) < Left(s, r.g)
  {
    Reading(r.line[..k], if k > 0 && r.line[k - 1] == SPACE then k - 1 else k, GetC(s, r.g.p))
  }

  // ---------------------------------------------------------------- a parameter

  // What the first loop of Parameter comes to: a name and its '=', or a return.
  datatype NameEnd = Named(name: seq<Ch>, p: nat, size: nat) | Returned(ok: bool, p: nat, size: nat)

  function NameFrom(e: Env, r: Reading, size: nat): (n: NameEnd)
    requires Reads(e.input, r)
    ensures r.g.p <= n.p <= |e.input|
    decreases Left(e.input, r.g)
  {
    var room := Room(|r.line|, size, e.memory);
    if room == 0 then Returned(false, r.g.p, size + 1024)
    else if r.g.c == EQUALS then
      if r.end == 0 then Returned(false, r.g.p, room) else Named(r.line[..r.end], r.g.p, room)
    else if r.g.c == NEWLINE then
      var k := Continuation(r.line);
      if k < 0 then Returned(true, r.g.p, room) else NameFrom(e, Join(e.input, r, k), room)
    else if r.g.c == NUL || r.g.c == EOF then Returned(true, r.g.p, room)
    else NameFrom(e, Take(e.input, r), room)
  }

  // What the second loop comes to: the value, or a buffer that could not grow.
  datatype ValueEnd = Valued(value: seq<Ch>, p: nat, size: nat) | NoMemory(p: nat, size: nat)

  // name is the buffer up to the value, the NUL behind the name included.
  function ValueFrom(e: Env, name: seq<Ch>, v: seq<Ch>, end: nat, g: Got, size: nat): (r: ValueEnd)
    requires end <= |v| && g.p <= |e.input|
    requires name != [] && name[|name| - 1] == NUL
    ensures g.p <= r.p <= |e.input|
    decreases Left(e.input, g)
  {
    var s := e.input;
    if g.c <= 0 then Valued(v[..end], g.p, size)
    else
      var room := Room(|name| + |v|, size, e.memory);
      if room == 0 then NoMemory(g.p, size + 1024)
      else if g.c == RETURN then ValueFrom(e, name, v, end, GetC(s, g.p), room)
      else if g.c == NEWLINE then
        var k := Continuation(name + v);
        if k < 0 then Valued(v[..end], g.p, room)
        else
          ContinuationInValue(name, v);
          ValueFrom(e, name, v[..k - |name|], k - |name|, GetC(s, g.p), room)
      else ValueFrom(e, name, v + [g.c], if IsSpace(g.c) then end else |v| + 1, GetC(s, g.p), room)
  }

  // The value so far with the end of its last word, and the next character.
  datatype InValue = InValue(v: seq<Ch>, end: nat, g: Got)

  // One turn of the second loop, once there is room; an ended line leaves the character NUL.
  function NextInValue(s: seq<Ch>, name: seq<Ch>, r: InValue): InValue
    requires r.g.p <= |s| && name != [] && name[|name| - 1] == NUL
  {
    if r.g.c == RETURN then r.(g := GetC(s, r.g.p))
    else if r.g.c == NEWLINE then
      var k := Continuation(name + r.v);
      if k < 0 then r.(g := Got(0, r.g.p))
      else
        ContinuationInValue(name, r.v);
        InValue(r.v[..k - |name|], k - |name|, GetC(s, r.g.p))
    else InValue(r.v + [r.g.c], if IsSpace(r.g.c) then r.end else |r.v| + 1, GetC(s, r.g.p))
  }

  lemma ValueTurn(e: Env, name: seq<Ch>, r: InValue, size: nat)
    requires r.end <= |r.v| && r.g.p <= |e.input|
    requires name != [] && name[|name| - 1] == NUL
    ensures r.g.c <= 0 ==> ValueFrom(e, name, r.v, r.end, r.g, size) == Valued(r.v[..r.end], r.g.p, size)
    ensures var room := Room(|name| + |r.v|, size, e.memory);
      var n := NextInValue(e.input, name, r);
      r.g.c > 0 ==>
        && n.end <= |n.v| && n.g.p <= |e.input| && Left(e.input, n.g) <= Left(e.input, r.g)
        && (n.g.c > 0 ==> Left(e.input, n.g) < Left(e.input, r.g))
        && ValueFrom(e, name, r.v, r.end, r.g, size)
           == if room == 0 then NoMemory(r.g.p, size + 1024) else ValueFrom(e, name, n.v, n.end, n.g, room)
  {
    hide IsSpace, Room, Continuation;
    ContinuationInValue(name, r.v);
  }

  // A continuation never reaches back over the NUL behind the name.
  lemma {:induction false} ContinuationInValue(name: seq<Ch>, v: seq<Ch>)
    requires name != [] && name[|name| - 1] == NUL
    ensures Continuation(name + v) == -1 || Continuation(name + v) >= |name|
    ensures Continuation(name + v) == if Continuation(v) < 0 then -1 else |name| + Continuation(v)
    decreases v
  {
    if v == [] {
      assert name + v == name;
    } else {
      ContinuationInValue(name, v[..|v| - 1]);
      assert (name + v)[..|name + v| - 1] == name + v[..|v| - 1];
    }
  }

  // The state a called part of the parser leaves: whether to go on, the calls made, the position.
  datatype Outcome = Outcome(ok: bool, calls: seq<Call>, p: nat, size: nat)

  function Parameter(e: Env, g: Got, size: nat): (r: Outcome)
    requires g.p <= |e.input|
    ensures g.p <= r.p <= |e.input|
  {
    match NameFrom(e, Reading([], 0, g), size)
    case Returned(ok, p, size1) => Outcome(ok, [], p, size1)
    case Named(name, p, size1) =>
      match ValueFrom(e, name + [NUL], [], 0, EatWhitespace(e.input, p), size1)
      case NoMemory(q, size2) => Outcome(false, [], q, size2)
      case Valued(value, q, size2) =>
        var call := ParamCall(name, value);
        Outcome(call !in e.refused, [call], q, size2)
  }

  // ---------------------------------------------------------------- a section header

  function SectionFrom(e: Env, r: Reading, size: nat): (o: Outcome)
    requires Reads(e.input, r)
    ensures r.g.p <= o.p <= |e.input|
    decreases Left(e.input, r.g)
  {
    if r.g.c <= 0 then Outcome(false, [], r.g.p, size)
    else
      var room := Room(|r.line|, size, e.memory);
      if room == 0 then Outcome(false, [], r.g.p, size + 1024)
      else if r.g.c == CLOSE then
        if r.end == 0 then Outcome(false, [], r.g.p, room)
        else
          var call := SectionCall(r.line[..r.end]);
          if call in e.refused then Outcome(false, [call], r.g.p, room)
          else Outcome(true, [call], EatComment(e.input, r.g.p).p, room)
      else if r.g.c == NEWLINE then
        var k := Continuation(r.line);
        if k < 0 then Outcome(false, [], r.g.p, room) else SectionFrom(e, Join(e.input, r, k), room)
      else SectionFrom(e, Take(e.input, r), room)
  }

  function Section(e: Env, p: nat, size: nat): (r: Outcome)
    requires p <= |e.input|
    ensures p <= r.p <= |e.input|
  {
    SectionFrom(e, Reading([], 0, EatWhitespace(e.input, p)), size)
  }

  // ---------------------------------------------------------------- the file

  // One turn of Parse's switch, up to the next character it looks at.
  function ParseFrom(e: Env, g: Got, size: nat, calls: seq<Call>): (r: Outcome)
    requires g.p <= |e.input|
    decreases Left(e.input, g)
  {
    var s := e.input;
    if g.c <= 0 then Outcome(true, calls, g.p, size)
    else if g.c == NEWLINE || g.c == BACKSLASH then ParseFrom(e, EatWhitespace(s, g.p), size, calls)
    else if g.c == SEMICOLON || g.c == HASH then ParseFrom(e, EatComment(s, g.p), size, calls)
    else
      var r := if g.c == OPEN then Section(e, g.p, size) else Parameter(e, g, size);
      if r.ok then ParseFrom(e, EatWhitespace(s, r.p), r.size, calls + r.calls)
      else Outcome(false, calls + r.calls, r.p, r.size)
  }

  // The whole of Parse, with a fresh buffer.
  function Parse(e: Env): Outcome {
    ParseFrom(e, EatWhitespace(e.input, 0), 1024, [])
  }
}
