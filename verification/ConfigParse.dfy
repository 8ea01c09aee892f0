/** The configuration parser over its line buffer (config/parse.cpp:30-312).

    The loops of the parser, proved to do what the functions of ConfigSpec say, to stop, and never
    to write outside the buffer. */
module ConfigParse {
  import opened ConfigSpec

  // A C string with the given text starts at from.
  predicate StringAt(b: seq<Ch>, from: nat, text: seq<Ch>) {
    && from + |text| < |b| && b[from..from + |text|] == text
    && b[from + |text|] == NUL && NUL !in text
  }

  // The used part of the buffer is the name, its NUL included, and the value so far.
  predicate Holds(used: seq<Ch>, name: seq<Ch>, v: seq<Ch>) {
    used == name + v && NUL !in v
  }

  lemma HoldsNothing(b: seq<Ch>, i: nat, name: seq<Ch>)
    requires i <= |b| && b[..i] == name
    ensures Holds(b[..i], name, [])
  {
    assert name + [] == name;
  }

  lemma HoldsValue(b: seq<Ch>, i: nat, end: nat, name: seq<Ch>, v: seq<Ch>)
    requires |name| <= end <= i <= |b| && i == |name| + |v| && Holds(b[..i], name, v)
    ensures b[..|name|] == name && b[|name|..end] == v[..end - |name|] && NUL !in v[..end - |name|]
  {
    assert b[..|name|] == b[..i][..|name|] && b[|name|..end] == b[..i][|name|..end];
  }

  class Parser {
    const input: seq<Ch>
    const memory: nat
    const refused: set<Call>
    var p: nat
    var bufr: array?<Ch>
    var bSize: nat
    // The calls the handlers got.
    var calls: seq<Call>

    constructor (text: seq<Ch>, mem: nat, refuse: set<Call>)
      ensures Ready() && fresh(bufr) && E() == Env(text, mem, refuse)
      ensures p == 0 && bSize == 1024 && calls == []
    {
      input, memory, refused := text, mem, refuse;
      p, bSize, calls := 0, 1024, [];
      bufr := new Ch[1024](_ => 0);
    }

    ghost predicate Ready()
      reads this
    {
      p <= |input| && bufr != null && bufr.Length == bSize && 1024 <= bSize
    }

    ghost function E(): Env { Env(input, memory, refused) }

    method MyGetC() returns (c: int)
      requires p <= |input|
      modifies this`p
      ensures Got(c, p) == GetC(input, old(p)) && p <= |input|
    {
      if p >= |input| { return EOF; }
      c := input[p];
      p := p + 1;
    }

    method EatWhitespaceChars() returns (c: int)
      requires p <= |input|
      modifies this`p
      ensures Got(c, p) == EatWhitespace(input, old(p)) && p <= |input|
    {
      c := MyGetC();
      while IsSpace(c) && NEWLINE != c
        invariant old(p) <= p <= |input| && Left(input, Got(c, p)) <= |input| - old(p)
        invariant EatWhitespace(input, old(p)) ==
          if IsSpace(c) && c != NEWLINE then EatWhitespace(input, p) else Got(c, p)
        decreases Left(input, Got(c, p))
      {
        c := MyGetC();
      }
    }

    method EatCommentChars() returns (c: int)
      requires p <= |input|
      modifies this`p
      ensures Got(c, p) == EatComment(input, old(p)) && p <= |input|
    {
      c := MyGetC();
      while NEWLINE != c && EOF != c && c > 0
        invariant old(p) <= p <= |input|
        invariant EatComment(input, old(p)) == if c != NEWLINE && c > 0 then EatComment(input, p) else Got(c, p)
        decreases Left(input, Got(c, p))
      {
        c := MyGetC();
      }
    }

    // Continuation on the first i characters of the buffer.
    method FindContinuation(i: nat) returns (k: int)
      requires bufr != null && i <= bufr.Length
      ensures k == Continuation(bufr[..i])
    {
      var pos: int := i - 1;
      while pos >= 0 && IsSpace(bufr[pos])
        invariant -1 <= pos < i
        invariant Continuation(bufr[..pos + 1]) == Continuation(bufr[..i])
      {
        assert bufr[..pos + 1][..pos] == bufr[..pos];
        pos := pos - 1;
      }
      var pos2 := 0;
      while pos2 <= pos
        invariant 0 <= pos2 && (pos2 <= pos || pos < 0)
      {
        if pos == pos2 {
          return if BACKSLASH == bufr[pos] then pos else -1;
        }
        pos2 := pos2 + 1;
      }
      k := -1;
    }

    // The check in front of every character, with the growth of the buffer.
    method MakeRoom(i: nat) returns (ok: bool)
      requires Ready() && i < bSize
      modifies this`bufr, this`bSize
      ensures var room := Room(i, old(bSize), memory);
        if room == 0 then !ok && bSize == old(bSize) + 1024
        else ok && bSize == room && i + 2 <= bSize
      ensures ok ==> Ready() && bufr[..i] == old(bufr[..i])
      ensures ok ==> bufr == old(bufr) || fresh(bufr)
    {
      ok := true;
      if i > bSize - 2 {
        var was, old_ := bSize, bufr;
        bSize := bSize + 1024;
        if bSize > memory {
          bufr := null;
          return false;
        }
        bufr := new Ch[bSize](_ => 0);
        forall j | 0 <= j < was { bufr[j] := old_[j]; }
      }
    }

    // The text of a C string in the buffer, as a handler sees it.
    method Text(from: nat, ghost text: seq<Ch>) returns (t: seq<Ch>)
      requires bufr != null && StringAt(bufr[..], from, text)
      ensures t == text
    {
      var end := from;
      assert forall j :: 0 <= j < |text| ==> bufr[from + j] == text[j] by {
        assert forall j :: 0 <= j < |text| ==> bufr[..][from..from + |text|][j] == text[j];
      }
      while bufr[end] != NUL
        invariant from <= end <= from + |text|
        decreases from + |text| - end
      {
        end := end + 1;
      }
      t := bufr[from..end];
    }

    // The default branch of the name loops: the character goes into the line.
    method TakeChar(i: nat, end: nat, c: int) returns (i1: nat, end1: nat, c1: int)
      requires Ready() && end <= i < bufr.Length && c != EOF
      modifies this`p, bufr
      ensures i1 <= i + 1 && Ready()
      ensures Reading(bufr[..i1], end1, Got(c1, p)) == Take(input, Reading(old(bufr[..i]), end, Got(c, old(p))))
      ensures NUL !in old(bufr[..i]) && c != NUL ==> NUL !in bufr[..i1]
    {
      ghost var line := bufr[..i];
      i1, end1 := i, end;
      if IsSpace(c) {
        bufr[end1] := SPACE;
        i1 := end1 + 1;
        assert bufr[..i1] == line[..end] + [SPACE];
        c1 := EatWhitespaceChars();
      } else {
        bufr[i1] := c;
        i1 := i1 + 1;
        end1 := i1;
        assert bufr[..i1] == line + [c];
        c1 := MyGetC();
      }
    }

    // The branch for a line that goes on, the backslash at k.
    method JoinLine(i: nat, k: nat, ghost end: nat, ghost c: int) returns (i1: nat, end1: nat, c1: int)
      requires Ready() && end <= i < bufr.Length && k < i && c != EOF
      modifies this`p
      ensures i1 == k && Ready()
      ensures Reading(bufr[..i1], end1, Got(c1, p)) == Join(input, Reading(bufr[..i], end, Got(c, old(p))), k)
      ensures NUL !in bufr[..i] ==> NUL !in bufr[..i1]
    {
      i1 := k;
      assert bufr[..i][..k] == bufr[..k];
      end1 := if i1 > 0 && SPACE == bufr[i1 - 1] then i1 - 1 else i1;
      c1 := MyGetC();
    }

    // ---------------------------------------------------------------- Section

    method ParseSection() returns (ok: bool)
      requires Ready()
      modifies this`p, this`bufr, this`bSize, this`calls, bufr
      ensures var r := Section(E(), old(p), old(bSize));
        ok == r.ok && calls == old(calls) + r.calls && p == r.p && bSize == r.size
      ensures ok ==> Ready() && (bufr == old(bufr) || fresh(bufr))
    {
      hide Take, Join, Continuation, GetC, EatWhitespace, EatComment, StringAt;
      var i: nat, end: nat := 0, 0;
      var c := EatWhitespaceChars();
      assert bufr[..0] == [] && calls + [] == calls;
      ghost var whole := Section(E(), old(p), old(bSize));
      while EOF != c && c > 0
        invariant Ready() && (bufr == old(bufr) || fresh(bufr))
        invariant end <= i < bSize && NUL !in bufr[..i]
        invariant calls == old(calls)
        invariant whole == SectionFrom(E(), Reading(bufr[..i], end, Got(c, p)), bSize)
        decreases Left(input, Got(c, p))
      {
        var room := MakeRoom(i);
        if !room { return false; }
        if c == CLOSE {
          if end == 0 { return false; }
          var name := EndName(i, end);
          var call := SectionCall(name);
          calls := calls + [call];
          if call in refused { return false; }
          var _ := EatCommentChars();
          return true;
        } else if c == NEWLINE {
          var k := FindContinuation(i);
          if k < 0 { return false; }
          i, end, c := JoinLine(i, k, end, c);
        } else {
          i, end, c := TakeChar(i, end, c);
        }
      }
      ok := false;
    }

    // The NUL behind the name, and the name as a handler sees it.
    method EndName(i: nat, end: nat) returns (name: seq<Ch>)
      requires bufr != null && end <= i < bufr.Length && NUL !in bufr[..i]
      modifies bufr
      ensures name == old(bufr[..i])[..end] && bufr[..end] == name && bufr[end] == NUL
    {
      ghost var text := bufr[..i][..end];
      bufr[end] := NUL;
      assert bufr[..end] == text == bufr[0..end];
      name := Text(0, text);
    }

    // ---------------------------------------------------------------- Parameter

    // The first loop: the name, up to '='.  When it is found, vstart is where the value will go.
    method ParseName(c0: int) returns (named: bool, ok: bool, vstart: nat)
      requires Ready()
      modifies this`p, this`bufr, this`bSize, bufr
      ensures var r := NameFrom(E(), Reading([], 0, Got(c0, old(p))), old(bSize));
        p == r.p && bSize == r.size && named == r.Named?
        && (r.Returned? ==> ok == r.ok)
        && (r.Named? ==> Ready() && 0 < vstart < bSize && bufr[..vstart] == r.name + [NUL] && NUL !in r.name)
      ensures named || ok ==> Ready() && (bufr == old(bufr) || fresh(bufr))
    {
      hide Take, Join, Continuation, GetC, EatWhitespace, EatComment, StringAt, Room;
      named, ok, vstart := false, false, 0;
      var i: nat, end: nat, c := 0, 0, c0;
      assert bufr[..0] == [];
      ghost var whole := NameFrom(E(), Reading([], 0, Got(c0, old(p))), old(bSize));
      while vstart == 0
        invariant Ready() && (bufr == old(bufr) || fresh(bufr))
        invariant end <= i < bSize && NUL !in bufr[..i] && vstart == 0
        invariant whole == NameFrom(E(), Reading(bufr[..i], end, Got(c, p)), bSize)
        decreases Left(input, Got(c, p))
      {
        var room := MakeRoom(i);
        if !room { return; }
        if c == EQUALS {
          if 0 == end { return; }
          vstart := StartValue(i, end);
          named := true;
          return;
        } else if c == NEWLINE {
          var k := FindContinuation(i);
          if k < 0 {
            bufr[end] := NUL;
            ok := true;
            return;
          }
          i, end, c := JoinLine(i, k, end, c);
        } else if c == NUL || c == EOF {
          bufr[i] := NUL;
          ok := true;
          return;
        } else {
          i, end, c := TakeChar(i, end, c);
        }
      }
    }

    // The NUL behind the name; the value goes behind that.
    method StartValue(i: nat, end: nat) returns (vstart: nat)
      requires bufr != null && end <= i && i + 2 <= bufr.Length
      modifies bufr
      ensures vstart == end + 1 && bufr[..vstart] == old(bufr[..i][..end]) + [NUL]
    {
      ghost var name := bufr[..i][..end];
      bufr[end] := NUL;
      vstart := end + 1;
      bufr[vstart] := NUL;
      assert bufr[..vstart] == name + [NUL];
    }

    // The second loop: the value, up to the end of the line.
    method ParseValue(vstart: nat, ghost name: seq<Ch>) returns (ok: bool, end: nat)
      requires Ready() && 0 < vstart < bSize && bufr[..vstart] == name && name[vstart - 1] == NUL
      modifies this`p, this`bufr, this`bSize, bufr
      ensures var r := ValueFrom(E(), name, [], 0, EatWhitespace(input, old(p)), old(bSize));
        p == r.p && bSize == r.size && ok == r.Valued?
        && (ok ==> Ready() && vstart <= end < bSize && bufr[..vstart] == name && bufr[vstart..end] == r.value
                   && NUL !in r.value)
      ensures ok ==> bufr == old(bufr) || fresh(bufr)
    {
      hide GetC, EatWhitespace, Room, Holds, ValueFrom, NextInValue;
      assert |name| == vstart;
      var i := vstart;
      end := vstart;
      ok := false;
      var c := EatWhitespaceChars();
      ghost var whole := ValueFrom(E(), name, [], 0, Got(c, p), bSize);
      ghost var v: seq<Ch> := [];
      HoldsNothing(bufr[..], vstart, name);
      while EOF != c && c > 0
        invariant Ready() && (bufr == old(bufr) || fresh(bufr))
        invariant vstart <= end <= i < bSize && i == vstart + |v| && Holds(bufr[..i], name, v)
        invariant whole == ValueFrom(E(), name, v, end - vstart, Got(c, p), bSize)
        decreases Left(input, Got(c, p)), if c > 0 then 1 else 0
      {
        ValueTurn(E(), name, InValue(v, end - vstart, Got(c, p)), bSize);
        var room := MakeRoom(i);
        if !room { return; }
        i, end, c, v := ReadValue(i, end, c, name, v);
      }
      ValueTurn(E(), name, InValue(v, end - vstart, Got(c, p)), bSize);
      ok := true;
      HoldsValue(bufr[..], i, end, name, v);
    }

    // The body of the second loop, once there is room.
    method ReadValue(i: nat, end: nat, c: int, ghost name: seq<Ch>, ghost v: seq<Ch>)
        returns (i1: nat, end1: nat, c1: int, ghost v1: seq<Ch>)
      requires Ready() && i + 2 <= bSize && Holds(bufr[..i], name, v) && i == |name| + |v| && c > 0
      requires name != [] && name[|name| - 1] == NUL && |name| <= end <= i
      modifies this`p, bufr
      ensures Ready() && |name| <= end1 <= i1 <= i + 1 && i1 == |name| + |v1| && Holds(bufr[..i1], name, v1)
      ensures InValue(v1, end1 - |name|, Got(c1, p))
           == NextInValue(input, name, InValue(v, end - |name|, Got(c, old(p))))
    {
      hide Continuation, GetC, Holds, IsSpace;
      i1, end1, c1, v1 := i, end, c, v;
      if c == RETURN {
        c1 := MyGetC();
      } else if c == NEWLINE {
        var k := FindValueContinuation(i, name, v);
        if k < 0 {
          c1 := 0;
        } else {
          end1 := JoinValue(i, k, name, v);
          i1, v1 := k, v[..k - |name|];
          c1 := MyGetC();
        }
      } else {
        end1 := AppendValue(i, end, c, name, v);
        i1, v1 := i + 1, v + [c];
        c1 := MyGetC();
      }
    }

    method FindValueContinuation(i: nat, ghost name: seq<Ch>, ghost v: seq<Ch>) returns (k: int)
      requires bufr != null && i <= bufr.Length && Holds(bufr[..i], name, v)
      requires name != [] && name[|name| - 1] == NUL
      ensures k == Continuation(name + v) && (k == -1 || (|name| <= k < i && (name + v)[k] == BACKSLASH))
    {
      k := FindContinuation(i);
      ContinuationInValue(name, v);
    }

    method AppendValue(i: nat, end: nat, c: int, ghost name: seq<Ch>, ghost v: seq<Ch>) returns (end1: nat)
      requires bufr != null && i < bufr.Length && Holds(bufr[..i], name, v) && c != NUL
      modifies bufr
      ensures Holds(bufr[..i + 1], name, v + [c])
      ensures end1 == if IsSpace(c) then end else i + 1
    {
      bufr[i] := c;
      assert bufr[..i + 1] == (name + v) + [c] == name + (v + [c]);
      end1 := end;
      if !IsSpace(c) { end1 := i + 1; }
    }

    // The value goes on from the backslash at k.  The loop means to drop blanks before it, but
    // starts on the backslash itself and so drops none.
    method JoinValue(i: nat, k: nat, ghost name: seq<Ch>, ghost v: seq<Ch>) returns (end: nat)
      requires bufr != null && k < i < bufr.Length && Holds(bufr[..i], name, v) && |name| <= k
      requires i == |name| + |v| && (name + v)[k] == BACKSLASH
      ensures end == k && Holds(bufr[..k], name, v[..k - |name|])
    {
      var e: int := k;
      while e >= 0 && IsSpace(bufr[e])
        invariant -1 <= e <= k && (e < k ==> IsSpace(bufr[k]))
      {
        e := e - 1;
      }
      assert bufr[..i][k] == BACKSLASH;
      assert bufr[..k] == bufr[..i][..k] == (name + v)[..k] == name + v[..k - |name|];
      end := e;
    }

    // Parameter, from the first character of its line on.
    method ParseParameter(c: int) returns (ok: bool)
      requires Ready()
      modifies this`p, this`bufr, this`bSize, this`calls, bufr
      ensures var r := Parameter(E(), Got(c, old(p)), old(bSize));
        ok == r.ok && calls == old(calls) + r.calls && p == r.p && bSize == r.size
      ensures ok ==> Ready() && (bufr == old(bufr) || fresh(bufr))
    {
      hide NameFrom, ValueFrom, EatWhitespace;
      assert calls + [] == calls;
      var named, done, vstart := ParseName(c);
      if !named { return done; }
      ghost var name := bufr[..vstart][..vstart - 1];
      assert bufr[..vstart] == name + [NUL];
      var room, end := ParseValue(vstart, name + [NUL]);
      if !room { return false; }
      ok := CallHandler(vstart, end, name);
    }

    // The NUL behind the value, and the call with both strings.
    method CallHandler(vstart: nat, end: nat, ghost name: seq<Ch>) returns (ok: bool)
      requires Ready() && 0 < vstart <= end < bSize
      requires bufr[..vstart] == name + [NUL] && NUL !in name && NUL !in bufr[vstart..end]
      modifies this`calls, bufr
      ensures var call := ParamCall(name, old(bufr[vstart..end]));
        ok == (call !in refused) && calls == old(calls) + [call]
    {
      ghost var value := bufr[vstart..end];
      bufr[end] := NUL;
      assert bufr[..vstart] == name + [NUL] && bufr[vstart..end] == value;
      assert StringAt(bufr[..], 0, name) by { assert bufr[..vstart][..vstart - 1] == name; }
      var n := Text(0, name);
      var v := Text(vstart, value);
      var call := ParamCall(n, v);
      calls := calls + [call];
      ok := call !in refused;
    }

    // ---------------------------------------------------------------- Parse

    method ParseFile() returns (ok: bool)
      requires Ready()
      modifies this`p, this`bufr, this`bSize, this`calls, bufr
      ensures var r := ParseFrom(E(), EatWhitespace(input, old(p)), old(bSize), old(calls));
        ok == r.ok && calls == r.calls && p == r.p
    {
      hide Section, Parameter, EatWhitespace, EatComment;
      var c := EatWhitespaceChars();
      ghost var whole := ParseFrom(E(), Got(c, p), bSize, calls);
      while EOF != c && c > 0
        invariant Ready() && (bufr == old(bufr) || fresh(bufr))
        invariant whole == ParseFrom(E(), Got(c, p), bSize, calls)
        decreases Left(input, Got(c, p))
      {
        if c == NEWLINE {
          c := EatWhitespaceChars();
        } else if c == SEMICOLON || c == HASH {
          c := EatCommentChars();
        } else if c == OPEN {
          var good := ParseSection();
          if !good { return false; }
          c := EatWhitespaceChars();
        } else if c == BACKSLASH {
          c := EatWhitespaceChars();
        } else {
          var good := ParseParameter(c);
          if !good { return false; }
          c := EatWhitespaceChars();
        }
      }
      ok := true;
    }
  }
}
