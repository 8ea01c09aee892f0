/** In-place pattern substitution in a NUL-terminated buffer: string_sub, all_string_sub and
    count_subs (system/util_str.cpp:905-1022).

    The specification cuts a string at the leftmost, non-overlapping occurrences of the pattern
    (Split) and glues the pieces back with the insert text in the first k cuts (Fill).  The
    buffer-level methods are proved against it, and Split is proved to be the only cutting whose
    every cut is the first occurrence in what is left. */
module StringSub {
  const NUL: char := '\0'

  // The C string s, its terminator included, sits at the start of the buffer.
  predicate Holds(b: seq<char>, s: string) {
    |s| < |b| && b[..|s|] == s && b[|s|] == NUL && NUL !in s
  }

  predicate OccursAt(s: string, pat: string, i: int) {
    0 <= i <= |s| - |pat| && s[i..i + |pat|] == pat
  }

  // No occurrence of pat starts before k.
  predicate NoneBefore(s: string, pat: string, k: int) {
    forall i :: 0 <= i < k ==> !OccursAt(s, pat, i)
  }

  // ---------------------------------------------------------------- cutting and gluing

  // A text cut at some places: what stands before the first cut, and the rest.
  datatype Pieces = Last(text: string) | Cut(text: string, rest: Pieces)

  function Prepend(c: char, p: Pieces): Pieces {
    p.(text := [c] + p.text)
  }

  function Split(s: string, pat: string): (p: Pieces)
    requires pat != []
    decreases |s|
  {
    if |s| < |pat| then Last(s)
    else if s[..|pat|] == pat then Cut([], Split(s[|pat|..], pat))
    else Prepend(s[0], Split(s[1..], pat))
  }

  function Cuts(p: Pieces): nat {
    match p
    case Last(_) => 0
    case Cut(_, rest) => 1 + Cuts(rest)
  }

  // The number of non-overlapping occurrences, found from the left.
  function Count(s: string, pat: string): nat
    requires pat != []
  {
    Cuts(Split(s, pat))
  }

  // The pieces joined again, with ins in the first k cuts and pat in the others.
  function Fill(p: Pieces, k: nat, ins: string, pat: string): string {
    match p
    case Last(text) => text
    case Cut(text, rest) =>
      if k > 0 then text + ins + Fill(rest, k - 1, ins, pat) else text + pat + Fill(rest, 0, ins, pat)
  }

  // The cast of a size_t to int: the low 32 bits, read as a signed number.
  function AsInt(len: nat): (r: int)
    ensures -0x8000_0000 <= r < 0x8000_0000 && (r - len) % 0x1_0000_0000 == 0
  {
    var low := len % 0x1_0000_0000;
    if low < 0x8000_0000 then low else low - 0x1_0000_0000
  }

  // How many of n replacements a limit lets through, when each changes the length by d.
  function Allowed(total: int, d: int, n: nat, limit: nat): (k: nat)
    ensures k <= n
    decreases n
  {
    if n == 0 || (limit != 0 && total + d >= AsInt(limit)) then 0
    else 1 + Allowed(total + d, d, n - 1, limit)
  }

  function Substituted(s: string, pat: string, ins: string, limit: nat): string {
    if pat == [] then s
    else Fill(Split(s, pat), Allowed(|s|, |ins| - |pat|, Count(s, pat), limit), ins, pat)
  }

  // ---------------------------------------------------------------- what Split means

  // Every cut is the first occurrence of the pattern in what follows the cut before it.
  predicate Leftmost(p: Pieces, pat: string) {
    match p
    case Last(text) => NoneBefore(text, pat, |text|)
    case Cut(text, rest) => NoneBefore(text + pat, pat, |text|) && Leftmost(rest, pat)
  }

  lemma OccursLater(s: string, pat: string, i: nat)
    requires s != []
    ensures OccursAt(s[1..], pat, i) <==> OccursAt(s, pat, i + 1)
  {
    if i + 1 <= |s| - |pat| { assert s[1..][i..i + |pat|] == s[i + 1..i + 1 + |pat|]; }
  }

  lemma OccursFirst(s: string, pat: string)
    ensures OccursAt(s, pat, 0) <==> |s| >= |pat| && s[..|pat|] == pat
  {
    if |s| >= |pat| { assert s[0..0 + |pat|] == s[..|pat|]; }
  }

  // An occurrence at k with none before it is where the first cut falls.
  lemma {:induction false} SplitAtFirst(s: string, pat: string, k: nat)
    requires pat != [] && NoneBefore(s, pat, k) && OccursAt(s, pat, k)
    ensures Split(s, pat) == Cut(s[..k], Split(s[k + |pat|..], pat))
    decreases k
  {
    OccursFirst(s, pat);
    if k > 0 {
      assert !OccursAt(s, pat, 0);
      NoneBeforeTail(s, pat, k);
      OccursLater(s, pat, k - 1);
      SplitAtFirst(s[1..], pat, k - 1);
      assert s[1..][k - 1 + |pat|..] == s[k + |pat|..];
      assert [s[0]] + s[1..][..k - 1] == s[..k];
    } else {
      assert s[..0] == [];
    }
  }

  lemma NoneBeforeTail(s: string, pat: string, k: nat)
    requires k > 0 && s != [] && NoneBefore(s, pat, k)
    ensures NoneBefore(s[1..], pat, k - 1)
  {
    forall i | 0 <= i < k - 1 ensures !OccursAt(s[1..], pat, i) { OccursLater(s, pat, i); }
  }

  lemma {:induction false} SplitOfNone(s: string, pat: string)
    requires pat != [] && NoneBefore(s, pat, |s|)
    ensures Split(s, pat) == Last(s)
    decreases |s|
  {
    if |s| >= |pat| {
      OccursFirst(s, pat);
      assert !OccursAt(s, pat, 0);
      NoneBeforeTail(s, pat, |s|);
      SplitOfNone(s[1..], pat);
      assert [s[0]] + s[1..] == s;
    }
  }

  // Filling no cut with the new text gives the string back.
  lemma {:induction false} SplitLosesNothing(s: string, pat: string, ins: string)
    requires pat != []
    ensures Fill(Split(s, pat), 0, ins, pat) == s
    decreases |s|
  {
    if |s| >= |pat| {
      if s[..|pat|] == pat {
        SplitLosesNothing(s[|pat|..], pat, ins);
        assert [] + pat + s[|pat|..] == s;
      } else {
        SplitLosesNothing(s[1..], pat, ins);
        FillPrepended(s[0], Split(s[1..], pat), 0, ins, pat);
        assert [s[0]] + s[1..] == s;
      }
    }
  }

  lemma FillPrepended(c: char, p: Pieces, k: nat, ins: string, pat: string)
    ensures Fill(Prepend(c, p), k, ins, pat) == [c] + Fill(p, k, ins, pat)
  {
    match p {
      case Last(_) =>
      case Cut(text, rest) =>
        var cut := if k > 0 then ins else pat;
        var tail := Fill(rest, if k > 0 then k - 1 else 0, ins, pat);
        assert ([c] + text) + cut + tail == [c] + (text + cut + tail);
    }
  }

  // The least position of an occurrence, given one.
  lemma FirstOccurrence(s: string, pat: string, k: nat) returns (j: nat)
    requires OccursAt(s, pat, k)
    ensures OccursAt(s, pat, j) && NoneBefore(s, pat, j)
  {
    j := 0;
    while !OccursAt(s, pat, j)
      invariant j <= k && NoneBefore(s, pat, j)
      decreases k - j
    {
      j := j + 1;
    }
  }

  lemma NoneBeforeCut(s: string, t: string, pat: string, k: nat)
    requires t <= s && k + |pat| <= |t|
    ensures NoneBefore(s, pat, k) <==> NoneBefore(t, pat, k)
  {
    forall i | 0 <= i < k ensures OccursAt(s, pat, i) <==> OccursAt(t, pat, i) {
      assert s[i..i + |pat|] == t[i..i + |pat|];
    }
  }

  lemma {:induction false} SplitIsLeftmost(s: string, pat: string)
    requires pat != []
    ensures Leftmost(Split(s, pat), pat)
    decreases |s|
  {
    if k: nat :| k <= |s| && OccursAt(s, pat, k) {
      var j := FirstOccurrence(s, pat, k);
      SplitAtFirst(s, pat, j);
      SplitIsLeftmost(s[j + |pat|..], pat);
      assert s[..j] + pat == s[..j + |pat|];
      NoneBeforeCut(s, s[..j] + pat, pat, j);
    } else {
      SplitOfNone(s, pat);
    }
  }

  // No other cutting at first occurrences exists.
  lemma {:induction false} LeftmostIsSplit(p: Pieces, pat: string)
    requires pat != [] && Leftmost(p, pat)
    ensures Split(Fill(p, 0, pat, pat), pat) == p
    decreases p
  {
    match p {
      case Last(text) => SplitOfNone(text, pat);
      case Cut(text, rest) =>
        LeftmostIsSplit(rest, pat);
        var tail := Fill(rest, 0, pat, pat);
        var s := text + pat + tail;
        NoneBeforeCut(s, text + pat, pat, |text|);
        assert s[|text|..|text| + |pat|] == pat;
        assert s[|text| + |pat|..] == tail && s[..|text|] == text;
        SplitAtFirst(s, pat, |text|);
    }
  }

  // ---------------------------------------------------------------- lengths and the limit

  lemma {:induction false} FillLength(p: Pieces, k: nat, ins: string, pat: string)
    requires k <= Cuts(p)
    ensures |Fill(p, k, ins, pat)| == |Fill(p, 0, ins, pat)| + k * (|ins| - |pat|)
    decreases p
  {
    match p {
      case Last(_) =>
      case Cut(_, rest) =>
        if k > 0 {
          FillLength(rest, k - 1, ins, pat);
          assert k * (|ins| - |pat|) == (k - 1) * (|ins| - |pat|) + (|ins| - |pat|);
        }
    }
  }

  lemma {:induction false} NoLimitAllowsAll(total: int, d: int, n: nat)
    ensures Allowed(total, d, n, 0) == n
    decreases n
  {
    if n > 0 { NoLimitAllowsAll(total + d, d, n - 1); }
  }

  // The replacements let through keep every length below the limit, and stop only when the next
  // one would reach it.
  lemma {:induction false} LimitIsKept(total: int, d: int, n: nat, limit: nat)
    requires limit != 0
    ensures var k := Allowed(total, d, n, limit);
      && (forall j :: 1 <= j <= k ==> total + j * d < AsInt(limit))
      && (k < n ==> total + (k + 1) * d >= AsInt(limit))
    decreases n
  {
    var k := Allowed(total, d, n, limit);
    if k > 0 {
      LimitIsKept(total + d, d, n - 1, limit);
      forall j | 1 <= j <= k ensures total + j * d < AsInt(limit) {
        assert total + j * d == total + d + (j - 1) * d by { assert (j - 1) * d == j * d - d; }
        if j > 1 { assert 1 <= j - 1 <= k - 1; }
      }
      assert (k + 1) * d == k * d + d;
    }
  }

  // Without a limit every occurrence is replaced, and the length changes by one difference each.
  lemma UnlimitedLength(s: string, pat: string, ins: string)
    requires pat != []
    ensures Substituted(s, pat, ins, 0) == Fill(Split(s, pat), Count(s, pat), ins, pat)
    ensures |Substituted(s, pat, ins, 0)| == |s| + Count(s, pat) * (|ins| - |pat|)
  {
    NoLimitAllowsAll(|s|, |ins| - |pat|, Count(s, pat));
    FillLength(Split(s, pat), Count(s, pat), ins, pat);
    SplitLosesNothing(s, pat, ins);
  }

  // A string below a non-zero limit stays below it.
  lemma LimitedLength(s: string, pat: string, ins: string, limit: nat)
    requires limit != 0 && |s| < AsInt(limit)
    ensures |Substituted(s, pat, ins, limit)| < AsInt(limit)
  {
    if pat != [] {
      var d := |ins| - |pat|;
      var k := Allowed(|s|, d, Count(s, pat), limit);
      FillLength(Split(s, pat), k, ins, pat);
      SplitLosesNothing(s, pat, ins);
      LimitIsKept(|s|, d, Count(s, pat), limit);
    }
  }

  // ---------------------------------------------------------------- the buffer operations

  // strlen
  method StrLen(b: array<char>, ghost s: string) returns (n: nat)
    requires Holds(b[..], s)
    ensures n == |s|
  {
    n := 0;
    assert forall i :: 0 <= i < |s| ==> b[i] == s[i] by {
      assert forall i :: 0 <= i < |s| ==> b[i] == b[..][..|s|][i];
    }
    while b[n] != NUL
      invariant n <= |s|
      decreases |s| - n
    {
      n := n + 1;
    }
  }

  // strstr on the text b[from..end], the terminator at end.
  method StrStr(b: array<char>, from: nat, end: nat, pat: string) returns (found: bool, p: nat)
    requires from <= end < b.Length
    ensures found ==> from <= p && OccursAt(b[from..end], pat, p - from)
                      && NoneBefore(b[from..end], pat, p - from)
    ensures !found ==> NoneBefore(b[from..end], pat, end - from)
  {
    p := from;
    ghost var s := b[from..end];
    while p + |pat| <= end
      invariant from <= p <= end + 1
      invariant NoneBefore(s, pat, p - from)
    {
      assert s[p - from..][..|pat|] == b[p..p + |pat|];
      assert s[p - from..p - from + |pat|] == s[p - from..][..|pat|];
      if b[p..p + |pat|] == pat {
        found := true;
        return;
      }
      p := p + 1;
    }
    found := false;
    forall i | 0 <= i < end - from ensures !OccursAt(s, pat, i) {}
  }

  // memmove: every byte moved is read before any is written.
  method MemMove(b: array<char>, dst: nat, src: nat, n: nat)
    requires dst + n <= b.Length && src + n <= b.Length
    modifies b
    ensures forall i :: 0 <= i < b.Length ==>
      b[i] == if dst <= i < dst + n then old(b[i - dst + src]) else old(b[i])
  {
    forall i | dst <= i < dst + n { b[i] := b[i - dst + src]; }
  }

  predicate Unsafe(c: char) {
    c in ['`', '"', '\'', ';', '$', '%', '\r', '\n']
  }

  function Sanitised(ins: string): (r: string)
    ensures |r| == |ins|
    ensures forall i :: 0 <= i < |ins| ==>
      !Unsafe(r[i]) && r[i] == (if Unsafe(ins[i]) then '_' else ins[i])
  {
    if ins == [] then []
    else Sanitised(ins[..|ins| - 1]) + [if Unsafe(ins[|ins| - 1]) then '_' else ins[|ins| - 1]]
  }

  function Glued(made: string, rest: string): string { made + rest }

  function Replaced(cur: string, p: nat, lp: nat, ins: string): string
    requires p + lp <= |cur|
  {
    cur[..p] + ins + cur[p + lp..]
  }

  // What one replacement at p makes of the buffer.
  lemma SplicedBuffer(b0: seq<char>, b2: seq<char>, cur: string, p: nat, lp: nat, ins: string)
    requires Holds(b0, cur) && p + lp <= |cur| && NUL !in ins
    requires |b0| == |b2| && |cur| - lp + |ins| < |b0|
    requires forall i :: 0 <= i < p ==> b2[i] == b0[i]
    requires forall i :: p <= i < p + |ins| ==> b2[i] == ins[i - p]
    requires forall i :: p + |ins| <= i <= |cur| - lp + |ins| ==> b2[i] == b0[i - |ins| + lp]
    ensures Holds(b2, Replaced(cur, p, lp, ins))
  {
    var out := cur[..p] + ins + cur[p + lp..];
    assert forall i :: 0 <= i < |cur| ==> cur[i] == b0[..|cur|][i];
    forall i | 0 <= i < |out| ensures b2[i] == out[i] {}
    assert b2[..|out|] == out;
  }

  lemma HoldsLength(b: seq<char>, s: string)
    requires Holds(b, s)
    ensures |s| < |b|
  {}

  // One replacement of all_string_sub: open or close the gap, copy the text in.
  method Put(b: array<char>, ghost cur: string, p: nat, lp: nat, ls: nat, ins: string)
    requires Holds(b[..], cur) && ls == |cur| && p + lp <= ls
    requires NUL !in ins && ls - lp + |ins| < b.Length
    modifies b
    ensures Holds(b[..], Replaced(cur, p, lp, ins))
  {
    hide Replaced, Holds;
    HoldsLength(b[..], cur);
    var li := |ins|;
    ghost var b0 := b[..];
    if li != lp { MemMove(b, p + li, p + lp, ls - (p + lp) + 1); }
    forall i | p <= i < p + li { b[i] := ins[i - p]; }
    SplicedBuffer(b0, b[..], cur, p, lp, ins);
  }

  // One replacement of string_sub: the text is made harmless as it is copied.
  method PutSafe(b: array<char>, ghost cur: string, p: nat, lp: nat, ls: nat, ins: string)
    requires Holds(b[..], cur) && ls == |cur| && p + lp <= ls
    requires NUL !in ins && ls - lp + |ins| < b.Length
    modifies b
    ensures Holds(b[..], Replaced(cur, p, lp, Sanitised(ins)))
  {
    var li := |ins|;
    ghost var safe := Sanitised(ins);
    ghost var b0 := b[..];
    if li != lp { MemMove(b, p + li, p + lp, ls - (p + lp) + 1); }
    ghost var b1 := b[..];
    for i := 0 to li
      invariant forall q :: 0 <= q < b.Length ==> b[q] == if p <= q < p + i then safe[q - p] else b1[q]
    {
      b[p + i] := if Unsafe(ins[i]) then '_' else ins[i];
    }
    SplicedBuffer(b0, b[..], cur, p, lp, safe);
  }

  // What is still to be made of rest, when the whole string is ls long.
  function Remaining(rest: string, pat: string, ins: string, ls: int, len: nat): string
    requires pat != []
  {
    Fill(Split(rest, pat), Allowed(ls, |ins| - |pat|, Count(rest, pat), len), ins, pat)
  }

  // One replacement let through: the rest of the work is the same task on what follows.
  lemma ReplaceOne(rest: string, j: nat, pat: string, ins: string, ls: int, len: nat)
    requires pat != [] && OccursAt(rest, pat, j) && NoneBefore(rest, pat, j)
    requires len == 0 || ls + |ins| - |pat| < AsInt(len)
    ensures Remaining(rest, pat, ins, ls, len)
         == rest[..j] + ins + Remaining(rest[j + |pat|..], pat, ins, ls + |ins| - |pat|, len)
  {
    SplitAtFirst(rest, pat, j);
    var tail := Split(rest[j + |pat|..], pat);
    FillCut(rest[..j], tail, ls, |ins| - |pat|, ins, pat, len);
  }

  lemma FillCut(text: string, tail: Pieces, ls: int, d: int, ins: string, pat: string, len: nat)
    requires len == 0 || ls + d < AsInt(len)
    ensures Fill(Cut(text, tail), Allowed(ls, d, 1 + Cuts(tail), len), ins, pat)
         == text + ins + Fill(tail, Allowed(ls + d, d, Cuts(tail), len), ins, pat)
  {
    assert Allowed(ls, d, 1 + Cuts(tail), len) == 1 + Allowed(ls + d, d, Cuts(tail), len);
  }

  lemma RemainingGrows(rest: string, pat: string, ins: string, ls: int, len: nat)
    requires pat != [] && |ins| > |pat|
    ensures |rest| <= |Remaining(rest, pat, ins, ls, len)|
  {
    var k := Allowed(ls, |ins| - |pat|, Count(rest, pat), len);
    FillLength(Split(rest, pat), k, ins, pat);
    SplitLosesNothing(rest, pat, ins);
    assert k * (|ins| - |pat|) >= 0;
  }

  // The same, for a buffer of which made is finished: the new text, and what it will become.
  lemma Advance(made: string, rest: string, p: nat, pat: string, ins: string, ls: int, len: nat)
      returns (made1: string, rest1: string)
    requires pat != [] && p >= |made|
    requires OccursAt(rest, pat, p - |made|) && NoneBefore(rest, pat, p - |made|)
    requires len == 0 || ls + |ins| - |pat| < AsInt(len)
    requires ls == |made| + |rest|
    ensures p + |pat| <= ls == |Glued(made, rest)|
    ensures |made1| == p + |ins| && |made1| + |rest1| == ls + |ins| - |pat| && |rest1| < |rest|
    ensures Replaced(Glued(made, rest), p, |pat|, ins) == Glued(made1, rest1)
    ensures Glued(made, Remaining(rest, pat, ins, ls, len))
         == Glued(made1, Remaining(rest1, pat, ins, ls + |ins| - |pat|, len))
    ensures |ins| > |pat| ==> ls + |ins| - |pat| <= |Glued(made, Remaining(rest, pat, ins, ls, len))|
  {
    hide Remaining;
    var j := p - |made|;
    made1, rest1 := made + rest[..j] + ins, rest[j + |pat|..];
    ReplaceOne(rest, j, pat, ins, ls, len);
    if |ins| > |pat| { RemainingGrows(rest1, pat, ins, ls + |ins| - |pat|, len); }
    var more := Remaining(rest1, pat, ins, ls + |ins| - |pat|, len);
    assert made + (rest[..j] + ins + more) == made1 + more;
  }

  lemma TailHeld(b: seq<char>, made: string, rest: string)
    requires Holds(b, Glued(made, rest))
    ensures |made| + |rest| < |b| && b[|made|..|made| + |rest|] == rest
  {
    assert b[..|made| + |rest|][|made|..] == (made + rest)[|made|..];
  }

  lemma SubstitutedAtStart(s: string, pat: string, ins: string, len: nat)
    ensures Substituted(s, pat, ins, len) == if pat == [] then s else Glued("", Remaining(s, pat, ins, |s|, len))
    ensures Glued("", s) == s
  {}

  lemma ReplaceNoMore(rest: string, pat: string, ins: string, ls: int, len: nat)
    requires pat != []
    requires NoneBefore(rest, pat, |rest|) || (len != 0 && ls + |ins| - |pat| >= AsInt(len))
    ensures Remaining(rest, pat, ins, ls, len) == rest
  {
    if NoneBefore(rest, pat, |rest|) { SplitOfNone(rest, pat); }
    else { SplitLosesNothing(rest, pat, ins); }
  }

  lemma ShorterHasNone(s: string, pat: string)
    requires |s| < |pat|
    ensures NoneBefore(s, pat, |s|)
  {}

  // all_string_sub
  method AllStringSub(b: array<char>, ghost s: string, pat: string, ins: string, len: nat)
    requires Holds(b[..], s) && NUL !in pat && NUL !in ins
    requires |Substituted(s, pat, ins, len)| < b.Length
    modifies b
    ensures Holds(b[..], Substituted(s, pat, ins, len))
  {
    hide *;
    var ls := StrLen(b, s);
    var lp, li := |pat|, |ins|;
    SubstitutedAtStart(s, pat, ins, len);
    if pat == [] { return; }
    var from := 0;
    ghost var made, rest := "", s;
    while lp <= ls
      invariant Holds(b[..], Glued(made, rest)) && from == |made| && ls == from + |rest|
      invariant Substituted(s, pat, ins, len) == Glued(made, Remaining(rest, pat, ins, ls, len))
      decreases |rest|
    {
      TailHeld(b[..], made, rest);
      var found, p := StrStr(b, from, ls, pat);
      if !found || (len != 0 && ls + (li - lp) >= AsInt(len)) {
        ReplaceNoMore(rest, pat, ins, ls, len);
        break;
      }
      ghost var made1, rest1 := Advance(made, rest, p, pat, ins, ls, len);
      Put(b, Glued(made, rest), p, lp, ls, ins);
      made, rest := made1, rest1;
      from := p + li;
      ls := ls + (li - lp);
    }
    if ls < lp { ShorterHasNone(rest, pat); ReplaceNoMore(rest, pat, ins, ls, len); }
  }

  // string_sub: as all_string_sub, with the characters a shell could act on made harmless.
  method StringSub(b: array<char>, ghost s: string, pat: string, ins: string, len: nat)
    requires Holds(b[..], s) && NUL !in pat && NUL !in ins
    requires |Substituted(s, pat, Sanitised(ins), len)| < b.Length
    modifies b
    ensures Holds(b[..], Substituted(s, pat, Sanitised(ins), len))
  {
    hide *;
    var ls := StrLen(b, s);
    var lp, li := |pat|, |ins|;
    SubstitutedAtStart(s, pat, Sanitised(ins), len);
    if pat == [] { return; }
    var from := 0;
    ghost var made, rest, safe := "", s, Sanitised(ins);
    while lp <= ls
      invariant Holds(b[..], Glued(made, rest)) && from == |made| && ls == from + |rest|
      invariant Substituted(s, pat, safe, len) == Glued(made, Remaining(rest, pat, safe, ls, len))
      decreases |rest|
    {
      TailHeld(b[..], made, rest);
      var found, p := StrStr(b, from, ls, pat);
      if !found || (len != 0 && ls + (li - lp) >= AsInt(len)) {
        ReplaceNoMore(rest, pat, safe, ls, len);
        break;
      }
      ghost var made1, rest1 := Advance(made, rest, p, pat, safe, ls, len);
      PutSafe(b, Glued(made, rest), p, lp, ls, ins);
      made, rest := made1, rest1;
      from := p + li;
      ls := ls + (li - lp);
    }
    if ls < lp { ShorterHasNone(rest, pat); ReplaceNoMore(rest, pat, safe, ls, len); }
  }

  // count_subs
  method CountSubs(b: array<char>, ghost s: string, pat: string) returns (count: nat)
    requires Holds(b[..], s) && NUL !in pat
    ensures count == if pat == [] then 0 else Count(s, pat)
  {
    count := 0;
    var end := StrLen(b, s);
    var ls: int, lp, from := end, |pat|, 0;
    assert s[0..] == s;
    if ls == 0 || lp == 0 { return; }
    while lp <= ls
      invariant from <= end && ls >= end - from
      invariant Count(s, pat) == count + Count(s[from..], pat)
      decreases end - from
    {
      var found, p := StrStr(b, from, end, pat);
      assert b[from..end] == s[from..] by { assert b[..][..end][from..] == s[from..]; }
      if !found {
        SplitOfNone(s[from..], pat);
        break;
      }
      SplitAtFirst(s[from..], pat, p - from);
      assert s[from..][p - from + lp..] == s[p + lp..];
      count := count + 1;
      ls := ls - lp;
      from := p + lp;
    }
  }
}
