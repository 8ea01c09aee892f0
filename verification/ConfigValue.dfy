/** Values printed over one line or several, with a backslash at the end of each line but the last,
    and read again by the second loop of Parameter (config/parse.cpp:233-271). */
module ConfigValue {
  import opened ConfigSpec
  import opened ConfigText

  // The pieces of a value, one a line.
  datatype Value = Last(text: seq<Ch>) | More(text: seq<Ch>, rest: Value) {
    // As it is printed.
    function Text(): (t: seq<Ch>)
      ensures t != []
    {
      match this
      case Last(t) => t + [NEWLINE]
      case More(t, rest) => (t + [BACKSLASH]) + ([NEWLINE] + rest.Text())
    }

    // What the handler is to get.
    function Joined(): seq<Ch> {
      match this
      case Last(t) => t
      case More(t, rest) => t + rest.Joined()
    }

    // The buffer it takes behind so many characters.
    function Need(len: nat): (n: nat)
      ensures n >= len + 2
    {
      match this
      case Last(t) => len + |t| + 2
      case More(t, rest) => Max(len + |t| + 3, rest.Need(len + |t|))
    }

    // ASCII, no line breaks, and no blank at the end of the last line.
    predicate Good() {
      && (forall i :: 0 <= i < |text| ==> text[i] > 0 && text[i] != NEWLINE && text[i] != RETURN)
      && (match this
          case Last(t) => t != [] ==> !IsSpace(t[|t| - 1])
          case More(_, rest) => rest.Good())
    }
  }

  // Behind every backslash there is a character that is no blank.
  ghost predicate NoTail(v: seq<Ch>) {
    forall i :: 0 <= i < |v| && v[i] == BACKSLASH ==> exists j :: i < j < |v| && !IsSpace(v[j])
  }

  // Behind a continuation there are only blanks.
  lemma {:induction false} ContinuationIsLast(v: seq<Ch>)
    ensures var k := Continuation(v); k >= 0 ==> forall j :: k < j < |v| ==> IsSpace(v[j])
    decreases v
  {
    if v != [] && IsSpace(v[|v| - 1]) { ContinuationIsLast(v[..|v| - 1]); }
  }

  lemma NotContinued(name: seq<Ch>, v: seq<Ch>)
    requires NoTail(v) && name != [] && name[|name| - 1] == NUL
    ensures Continuation(name + v) == -1
  {
    ContinuationInValue(name, v);
    ContinuationIsLast(v);
  }

  // Where the last character that is no blank ends.
  function InkEnd(v: seq<Ch>): (end: nat)
    ensures end <= |v|
  {
    if v == [] then 0 else if IsSpace(v[|v| - 1]) then InkEnd(v[..|v| - 1]) else |v|
  }

  // What ValueFrom comes to behind the joined lines so far, with the first k characters of this line
  // read and the next one got.
  function ValueAt(e: Env, done: seq<Ch>, v: seq<Ch>, name: seq<Ch>, p: nat, k: nat, size: nat): ValueEnd
    requires k <= |v| && name != [] && name[|name| - 1] == NUL && At(e.input, p, v + [NEWLINE])
  {
    ValueFrom(e, name, done + v[..k], |done| + InkEnd(v[..k]), Got(if k < |v| then v[k] else NEWLINE, p + k + 1), size)
  }

  lemma ValueStep(e: Env, done: seq<Ch>, v: seq<Ch>, name: seq<Ch>, p: nat, k: nat, size: nat)
    requires k < |v| && v[k] > 0 && v[k] != NEWLINE && v[k] != RETURN
    requires name != [] && name[|name| - 1] == NUL && At(e.input, p, v + [NEWLINE])
    ensures var room := Room(|name| + |done| + k, size, e.memory);
      if room == 0 then ValueAt(e, done, v, name, p, k, size).NoMemory?
      else ValueAt(e, done, v, name, p, k, size) == ValueAt(e, done, v, name, p, k + 1, room)
  {
    AtIndex(e.input, p, v + [NEWLINE], k + 1);
    assert done + v[..k] + [v[k]] == done + v[..k + 1];
    assert v[..k + 1][..k] == v[..k];
  }

  // One line of a value, up to its end.
  lemma {:induction false} PieceIsRead(e: Env, done: seq<Ch>, v: seq<Ch>, name: seq<Ch>, p: nat, k: nat, size: nat)
    requires k <= |v| && (forall i :: 0 <= i < |v| ==> v[i] > 0 && v[i] != NEWLINE && v[i] != RETURN)
    requires name != [] && name[|name| - 1] == NUL && At(e.input, p, v + [NEWLINE])
    requires 2 <= size && |name| + |done| + k + 1 <= size
    ensures var grown := GrowTo(size, |name| + |done| + |v| + 1, e.memory);
      if grown == 0 then ValueAt(e, done, v, name, p, k, size).NoMemory?
      else ValueAt(e, done, v, name, p, k, size) == ValueAt(e, done, v, name, p, |v|, grown)
    decreases |v| - k
  {
    hide ValueAt, At, Room;
    if k < |v| {
      var room := Room(|name| + |done| + k, size, e.memory);
      RoomIsGrowth(|name| + |done| + k, size, e.memory);
      GrowInStages(size, |name| + |done| + k + 2, |name| + |done| + |v| + 1, e.memory);
      ValueStep(e, done, v, name, p, k, size);
      if room != 0 { PieceIsRead(e, done, v, name, p, k + 1, room); }
    }
  }

  lemma LastLineEnds(e: Env, done: seq<Ch>, v: seq<Ch>, name: seq<Ch>, p: nat, size: nat)
    requires name != [] && name[|name| - 1] == NUL && At(e.input, p, v + [NEWLINE]) && NoTail(done + v)
    requires v != [] ==> !IsSpace(v[|v| - 1])
    ensures var room := Room(|name| + |done| + |v|, size, e.memory);
      var r := ValueAt(e, done, v, name, p, |v|, size);
      if room == 0 then r.NoMemory? else r == Valued(done + v, p + |v| + 1, room)
  {
    hide At, NoTail, Continuation;
    NotContinued(name, done + v);
    assert v[..|v|] == v && InkEnd(v) == |v|;
  }

  lemma BackslashGoesOn(name: seq<Ch>, v: seq<Ch>)
    requires name != [] && name[|name| - 1] == NUL
    ensures Continuation(name + (v + [BACKSLASH])) == |name| + |v|
  {
    ContinuationInValue(name, v + [BACKSLASH]);
  }

  lemma NextBehindBackslash(s: seq<Ch>, name: seq<Ch>, w: seq<Ch>, end: nat, p: nat)
    requires name != [] && name[|name| - 1] == NUL && p <= |s|
    ensures NextInValue(s, name, InValue(w + [BACKSLASH], end, Got(NEWLINE, p))) == InValue(w, |w|, GetC(s, p))
  {
    hide Continuation, GetC, IsSpace;
    BackslashGoesOn(name, w);
    assert (w + [BACKSLASH])[..|w|] == w;
  }

  lemma AtLineEnd(e: Env, done: seq<Ch>, v: seq<Ch>, name: seq<Ch>, p: nat, size: nat)
    requires name != [] && name[|name| - 1] == NUL && At(e.input, p, v + [NEWLINE]) && p + |v| + 1 <= |e.input|
    ensures ValueAt(e, done, v, name, p, |v|, size)
         == ValueFrom(e, name, done + v, |done| + InkEnd(v), Got(NEWLINE, p + |v| + 1), size)
  {
    assert v[..|v|] == v;
  }

  lemma BackslashJoins(done: seq<Ch>, t: seq<Ch>)
    ensures done + (t + [BACKSLASH]) == (done + t) + [BACKSLASH]
  {
  }

  lemma TurnBehindBackslash(e: Env, name: seq<Ch>, w: seq<Ch>, end: nat, p: nat, size: nat)
    requires name != [] && name[|name| - 1] == NUL && p <= |e.input| && end <= |w| + 1
    ensures var room := Room(|name| + |w| + 1, size, e.memory);
      var r := ValueFrom(e, name, w + [BACKSLASH], end, Got(NEWLINE, p), size);
      if room == 0 then r.NoMemory? else r == ValueFrom(e, name, w, |w|, GetC(e.input, p), room)
  {
    hide Continuation, GetC, IsSpace, Room, ValueFrom, NextInValue;
    NextBehindBackslash(e.input, name, w, end, p);
    ValueTurn(e, name, InValue(w + [BACKSLASH], end, Got(NEWLINE, p)), size);
  }

  lemma LineGoesOn(e: Env, done: seq<Ch>, t: seq<Ch>, name: seq<Ch>, p: nat, size: nat)
    requires name != [] && name[|name| - 1] == NUL && At(e.input, p, t + [BACKSLASH] + [NEWLINE])
    requires p + |t| + 2 <= |e.input|
    ensures var room := Room(|name| + |done| + |t| + 1, size, e.memory);
      var r := ValueAt(e, done, t + [BACKSLASH], name, p, |t| + 1, size);
      if room == 0 then r.NoMemory?
      else r == ValueFrom(e, name, done + t, |done| + |t|, GetC(e.input, p + |t| + 2), room)
  {
    hide At, Continuation, GetC, IsSpace, InkEnd, Room, ValueFrom, NextInValue, ValueAt;
    AtLineEnd(e, done, t + [BACKSLASH], name, p, size);
    BackslashJoins(done, t);
    var end := |done| + InkEnd(t + [BACKSLASH]);
    TurnBehindBackslash(e, name, done + t, end, p + |t| + 2, size);
  }

  // The value comes out as its joined lines, or the buffer cannot be grown for it.
  lemma {:induction false} ValueIsRead(e: Env, done: seq<Ch>, x: Value, name: seq<Ch>, p: nat, size: nat)
    requires x.Good() && NoTail(done + x.Joined()) && At(e.input, p, x.Text()) && p < |e.input|
    requires name != [] && name[|name| - 1] == NUL && 2 <= size && |name| + |done| + 1 <= size
    ensures var grown := GrowTo(size, |name| + x.Need(|done|), e.memory);
      var r := ValueFrom(e, name, done, |done|, Got(e.input[p], p + 1), size);
      if grown == 0 then r.NoMemory? else r == Valued(done + x.Joined(), p + |x.Text()|, grown)
    decreases x
  {
    hide ValueFrom, At, NoTail, GrowTo;
    match x
    case Last(_) => LastIsRead(e, done, x, name, p, size);
    case More(t, rest) =>
      MoreIsRead(e, done, x, name, p, size);
      var room := GrowTo(size, |name| + |done| + |t| + 3, e.memory);
      GrowInStages(size, |name| + |done| + |t| + 3, |name| + rest.Need(|done| + |t|), e.memory);
      if room != 0 {
        assert done + t + rest.Joined() == done + x.Joined();
        ValueIsRead(e, done + t, rest, name, p + |t| + 2, room);
      }
  }

  lemma LastIsRead(e: Env, done: seq<Ch>, x: Value, name: seq<Ch>, p: nat, size: nat)
    requires x.Last? && x.Good() && NoTail(done + x.text) && At(e.input, p, x.Text()) && p < |e.input|
    requires name != [] && name[|name| - 1] == NUL && 2 <= size && |name| + |done| + 1 <= size
    ensures var grown := GrowTo(size, |name| + |done| + |x.text| + 2, e.memory);
      var r := ValueFrom(e, name, done, |done|, Got(e.input[p], p + 1), size);
      if grown == 0 then r.NoMemory? else r == Valued(done + x.text, p + |x.text| + 1, grown)
  {
    hide ValueAt, ValueFrom, At, NoTail, Room, GrowTo;
    var n, d, t := |name|, |done|, x.text;
    LineStarts(e, done, t, name, p, size);
    PieceIsRead(e, done, t, name, p, 0, size);
    GrowInStages(size, n + d + |t| + 1, n + d + |t| + 2, e.memory);
    var grown := GrowTo(size, n + d + |t| + 1, e.memory);
    if grown != 0 {
      RoomIsGrowth(n + d + |t|, grown, e.memory);
      LastLineEnds(e, done, t, name, p, grown);
    }
  }

  lemma MoreIsRead(e: Env, done: seq<Ch>, x: Value, name: seq<Ch>, p: nat, size: nat)
    requires x.More? && x.Good() && At(e.input, p, x.Text()) && p < |e.input|
    requires name != [] && name[|name| - 1] == NUL && 2 <= size && |name| + |done| + 1 <= size
    ensures var q := p + |x.text| + 2;
      var room := GrowTo(size, |name| + |done| + |x.text| + 3, e.memory);
      var r := ValueFrom(e, name, done, |done|, Got(e.input[p], p + 1), size);
      && At(e.input, q, x.rest.Text()) && q < |e.input|
      && if room == 0 then r.NoMemory?
         else r == ValueFrom(e, name, done + x.text, |done + x.text|, Got(e.input[q], q + 1), room)
  {
    hide ValueAt, ValueFrom, At, Room, GrowTo;
    var n, d, t := |name|, |done|, x.text;
    var v, q := t + [BACKSLASH], p + |t| + 2;
    assert x.Text() == v + [NEWLINE] + x.rest.Text();
    AtParts(e.input, p, v + [NEWLINE], x.rest.Text());
    AtInside(e.input, q, x.rest.Text());
    LineStarts(e, done, v, name, p, size);
    PieceIsRead(e, done, v, name, p, 0, size);
    GrowInStages(size, n + d + |t| + 2, n + d + |t| + 3, e.memory);
    var grown := GrowTo(size, n + d + |t| + 2, e.memory);
    if grown != 0 {
      RoomIsGrowth(n + d + |t| + 1, grown, e.memory);
      LineGoesOn(e, done, t, name, p, grown);
    }
  }

  lemma LineStarts(e: Env, done: seq<Ch>, v: seq<Ch>, name: seq<Ch>, p: nat, size: nat)
    requires name != [] && name[|name| - 1] == NUL && At(e.input, p, v + [NEWLINE]) && p < |e.input|
    ensures ValueAt(e, done, v, name, p, 0, size) == ValueFrom(e, name, done, |done|, Got(e.input[p], p + 1), size)
  {
    AtIndex(e.input, p, v + [NEWLINE], 0);
    assert v[..0] == [] && done + [] == done;
  }
}
