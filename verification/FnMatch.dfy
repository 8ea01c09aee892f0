/** The wildcard matcher of system/ms_fnmatch.cpp. Strings are the characters before the
    terminating NUL. */
module FnMatch {

  // ---- the language of a pattern ----

  function LastDot(s: string): (d: int)
    ensures -1 <= d < |s|
    ensures d >= 0 ==> s[d] == '.'
    ensures forall i :: d < i < |s| ==> s[i] != '.'
  {
    if s == [] then -1
    else if s[|s| - 1] == '.' then |s| - 1
    else LastDot(s[..|s| - 1])
  }

  /** How much of s a '<' may take: up to and including the last dot, all of it without one. */
  function Reach(s: string): (n: nat)
    ensures n <= |s|
  {
    if LastDot(s) < 0 then |s| else LastDot(s) + 1
  }

  /** Whether pattern character c may stand for the text w when rest follows it. */
  predicate Takes(c: char, w: string, rest: string) {
    match c
    case '?' => |w| == 1
    case '*' => true
    case '<' => |w| <= Reach(w + rest)
    case '>' =>
      var t := w + rest;
      if t == [] then w == []
      else if t[0] == '.' then w == [] || (w == "." && rest == [])
      else |w| == 1
    case '"' => (w == [] && rest == []) || w == "."
    case _ => w == [c]
  }

  /** The text s is cut into one piece per pattern character, and every piece is allowed. */
  ghost predicate Cut(p: string, pieces: seq<string>, s: string) {
    && |pieces| == |p|
    && (if p == [] then s == [] else
          && pieces[0] <= s
          && Takes(p[0], pieces[0], s[|pieces[0]|..])
          && Cut(p[1..], pieces[1..], s[|pieces[0]|..]))
  }

  ghost predicate InLanguage(p: string, s: string) {
    exists pieces :: Cut(p, pieces, s)
  }

  // ---- the language, one pattern character at a time ----

  ghost predicate Matches(p: string, s: string)
    decreases p
  {
    if p == [] then s == [] else
      exists k :: 0 <= k <= |s| && Takes(p[0], s[..k], s[k..]) && Matches(p[1..], s[k..])
  }

  lemma {:induction false} LanguageIsMatches(p: string, s: string)
    ensures InLanguage(p, s) <==> Matches(p, s)
    decreases p
  {
    if p == [] {
      assert s == [] ==> Cut(p, [], s);
    } else {
      if InLanguage(p, s) {
        var pieces :| Cut(p, pieces, s);
        var k := |pieces[0]|;
        assert Cut(p[1..], pieces[1..], s[k..]);
        LanguageIsMatches(p[1..], s[k..]);
        assert s[..k] == pieces[0];
      }
      if Matches(p, s) {
        var k :| 0 <= k <= |s| && Takes(p[0], s[..k], s[k..]) && Matches(p[1..], s[k..]);
        LanguageIsMatches(p[1..], s[k..]);
        var rest :| Cut(p[1..], rest, s[k..]);
        var pieces := [s[..k]] + rest;
        assert pieces[1..] == rest;
        assert Cut(p, pieces, s);
      }
    }
  }

  // ---- what it means for patterns without and with a star ----

  /** Only characters that stand for themselves, and question marks. */
  predicate Fixed(p: string) {
    forall i :: 0 <= i < |p| ==> p[i] !in {'*', '<', '>', '"'}
  }

  /** Character by character the same, or a question mark. */
  predicate Alike(p: string, s: string)
    requires |p| <= |s|
  {
    forall i :: 0 <= i < |p| ==> p[i] == '?' || s[i] == p[i]
  }

  lemma FixedTakes(p: string, s: string, k: nat)
    requires p != [] && Fixed(p) && k <= |s|
    ensures Takes(p[0], s[..k], s[k..]) <==> k == 1 && (p[0] == '?' || s[0] == p[0])
  {
    if k == 1 { assert s[..1] == [s[0]]; }
  }

  lemma AlikeStep(p: string, s: string)
    requires 0 < |p| <= |s|
    ensures Alike(p, s) <==> (p[0] == '?' || s[0] == p[0]) && Alike(p[1..], s[1..])
  {
    if (p[0] == '?' || s[0] == p[0]) && Alike(p[1..], s[1..]) {
      forall i | 0 <= i < |p| ensures p[i] == '?' || s[i] == p[i] {
        if i > 0 { assert p[1..][i - 1] == p[i] && s[1..][i - 1] == s[i]; }
      }
    }
  }

  /** Without a star: the strings of the same length that are alike. */
  lemma {:induction false} FixedLanguage(p: string, s: string)
    requires Fixed(p)
    ensures InLanguage(p, s) <==> |s| == |p| && Alike(p, s)
    decreases p
  {
    LanguageIsMatches(p, s);
    if p != [] {
      forall k | 0 <= k <= |s| { FixedTakes(p, s, k); }
      if s != [] {
        FixedLanguage(p[1..], s[1..]);
        LanguageIsMatches(p[1..], s[1..]);
        if |s| == |p| { AlikeStep(p, s); }
      }
    }
  }

  /** With a star behind it: whatever begins alike. */
  lemma {:induction false} StarLanguage(p: string, s: string)
    requires Fixed(p)
    ensures InLanguage(p + ['*'], s) <==> |s| >= |p| && Alike(p, s)
    decreases p
  {
    LanguageIsMatches(p + ['*'], s);
    if p == [] {
      assert (p + ['*'])[1..] == [] && s[|s|..] == [];
      assert Takes('*', s[..|s|], s[|s|..]) && Matches([], s[|s|..]);
    } else {
      assert (p + ['*'])[1..] == p[1..] + ['*'];
      forall k | 0 <= k <= |s| { FixedTakes(p, s, k); }
      if s != [] {
        StarLanguage(p[1..], s[1..]);
        LanguageIsMatches(p[1..] + ['*'], s[1..]);
        if |s| >= |p| { AlikeStep(p, s); }
      }
    }
  }

  /** Matching from position n of s with the pattern from position i on. */
  ghost predicate From(p: string, i: nat, s: string, n: nat)
    requires i <= |p| && n <= |s|
  {
    Matches(p[i..], s[n..])
  }

  /** A match of the pattern behind position i, from position m. */
  ghost predicate Behind(p: string, i: nat, s: string, m: nat)
    requires i < |p| && m <= |s|
  {
    From(p, i + 1, s, m)
  }

  /** One pattern character: it takes s[n..m] for some allowed m. */
  lemma FromStep(p: string, i: nat, s: string, n: nat)
    requires i < |p| && n <= |s|
    ensures From(p, i, s, n) <==>
            exists m :: n <= m <= |s| && Takes(p[i], s[n..m], s[m..]) && Behind(p, i, s, m)
  {
    assert p[i..][1..] == p[i + 1..];
    if From(p, i, s, n) {
      var k :| 0 <= k <= |s[n..]| && Takes(p[i], s[n..][..k], s[n..][k..])
               && Matches(p[i..][1..], s[n..][k..]);
      assert s[n..][..k] == s[n..n + k] && s[n..][k..] == s[n + k..];
      assert Behind(p, i, s, n + k);
    }
    if m :| n <= m <= |s| && Takes(p[i], s[n..m], s[m..]) && Behind(p, i, s, m) {
      assert s[n..][..m - n] == s[n..m] && s[n..][m - n..] == s[m..];
    }
  }

  lemma FromEnd(p: string, i: nat, s: string, n: nat)
    requires i == |p| && n <= |s|
    ensures From(p, i, s, n) <==> n == |s|
  {
  }

  // ---- what one iteration of the matcher's loop does to From ----

  lemma OneChar(p: string, i: nat, s: string, n: nat)
    requires i < |p| && n <= |s|
    requires p[i] != '*' && p[i] != '<' && p[i] != '"'
    requires p[i] == '>' ==> n < |s| && s[n] != '.'
    requires p[i] != '?' && p[i] != '>' && n < |s| ==> s[n] == p[i]
    ensures From(p, i, s, n) <==> n < |s| && From(p, i + 1, s, n + 1)
  {
    FromStep(p, i, s, n);
    forall m | n <= m <= |s|
      ensures Takes(p[i], s[n..m], s[m..]) <==> n < |s| && m == n + 1
    {
      assert s[n..m] + s[m..] == s[n..];
      if m == n + 1 { assert s[n..m] == [s[n]]; }
    }
  }

  lemma WrongChar(p: string, i: nat, s: string, n: nat)
    requires i < |p| && n < |s|
    requires p[i] !in ['*', '<', '"', '?', '>'] && s[n] != p[i]
    ensures !From(p, i, s, n)
  {
    FromStep(p, i, s, n);
  }

  /** '>' at a dot or at the end of the string. */
  lemma GreaterAtDot(p: string, i: nat, s: string, n: nat)
    requires i < |p| && p[i] == '>' && n <= |s| && (n < |s| ==> s[n] == '.')
    ensures From(p, i, s, n) <==>
            From(p, i + 1, s, n) || (n + 1 == |s| && From(p, i + 1, s, n + 1))
  {
    FromStep(p, i, s, n);
    forall m | n <= m <= |s|
      ensures Takes('>', s[n..m], s[m..]) <==> m == n || (m == n + 1 && m == |s|)
    {
      assert s[n..m] + s[m..] == s[n..];
      if m == n + 1 { assert s[n..m] == "."; }
    }
  }

  lemma Quote(p: string, i: nat, s: string, n: nat)
    requires i < |p| && p[i] == '"' && n <= |s|
    ensures From(p, i, s, n) <==>
            if n == |s| then From(p, i + 1, s, n) else s[n] == '.' && From(p, i + 1, s, n + 1)
  {
    FromStep(p, i, s, n);
    forall m | n <= m <= |s|
      ensures Takes('"', s[n..m], s[m..]) <==>
              (m == n == |s|) || (m == n + 1 && s[n] == '.')
    {
      if m == n + 1 { assert s[n..m] == [s[n]]; }
    }
  }

  lemma Star(p: string, i: nat, s: string, n: nat)
    requires i < |p| && p[i] == '*' && n <= |s|
    ensures From(p, i, s, n) <==> exists m :: n <= m <= |s| && Behind(p, i, s, m)
  {
    FromStep(p, i, s, n);
    assert forall m :: n <= m <= |s| ==> Takes('*', s[n..m], s[m..]);
  }

  lemma Less(p: string, i: nat, s: string, n: nat)
    requires i < |p| && p[i] == '<' && n <= |s|
    ensures From(p, i, s, n) <==>
            exists m :: n <= m <= n + Reach(s[n..]) && Behind(p, i, s, m)
  {
    FromStep(p, i, s, n);
    forall m | n <= m <= |s|
      ensures Takes('<', s[n..m], s[m..]) <==> m <= n + Reach(s[n..])
    {
      assert s[n..m] + s[m..] == s[n..];
    }
  }

  /** The scan of '<' stops behind the last dot, or at the end when no dot is ahead. */
  lemma ReachIs(s: string, n: nat, e: nat)
    requires n <= e <= |s|
    requires forall i :: e <= i < |s| ==> s[i] != '.'
    requires if e == |s| && (forall i :: n <= i < |s| ==> s[i] != '.') then true
             else n < e && s[e - 1] == '.'
    ensures n + Reach(s[n..]) == e
  {
    var t := s[n..];
    assert forall i :: 0 <= i < |t| ==> t[i] == s[n + i];
    if forall i :: n <= i < |s| ==> s[i] != '.' {
    } else {
      assert t[e - n - 1] == '.';
    }
  }

  // ---- the matcher ----

  /** Whether a dot occurs at or after position n: strchr. */
  method DotAhead(s: string, n: nat) returns (found: bool)
    requires n <= |s|
    ensures found <==> exists i :: n <= i < |s| && s[i] == '.'
  {
    var i := n;
    while i < |s|
      invariant n <= i <= |s|
      invariant forall k :: n <= k < i ==> s[k] != '.'
    {
      if s[i] == '.' { return true; }
      i := i + 1;
    }
    return false;
  }

  /** The loop of '*': false when some later position already matched. */
  method ScanStar(p: string, i: nat, s: string, n0: nat) returns (matched: bool)
    requires i < |p| && p[i] == '*' && n0 <= |s|
    ensures matched ==> From(p, i, s, n0)
    ensures !matched ==> (From(p, i, s, n0) <==> From(p, i + 1, s, |s|))
    decreases |p| - i, 0
  {
    Star(p, i, s, n0);
    var n := n0;
    while n < |s|
      invariant n0 <= n <= |s|
      invariant forall m :: n0 <= m < n ==> !Behind(p, i, s, m)
    {
      var r := MsFnmatch(p, i + 1, s, n);
      assert Behind(p, i, s, n) <==> r == 0;
      if r == 0 { return true; }
      n := n + 1;
    }
    assert Behind(p, i, s, |s|) <==> From(p, i + 1, s, |s|);
    return false;
  }

  /** The loop of '<', which does not scan past the last dot. */
  method ScanLess(p: string, i: nat, s: string, n0: nat) returns (matched: bool, n: nat)
    requires i < |p| && p[i] == '<' && n0 <= |s|
    ensures n <= |s|
    ensures matched ==> From(p, i, s, n0)
    ensures !matched ==> (From(p, i, s, n0) <==> From(p, i + 1, s, n))
    decreases |p| - i, 0
  {
    Less(p, i, s, n0);
    n := n0;
    var stop := false;
    while n < |s| && !stop
      invariant n0 <= n <= |s|
      invariant forall m :: n0 <= m < n ==> !Behind(p, i, s, m)
      invariant n <= n0 + Reach(s[n0..])
      invariant stop ==> n == n0 + Reach(s[n0..])
      invariant !stop && n < |s| ==> n < n0 + Reach(s[n0..])
      decreases |s| - n, !stop
    {
      var r := MsFnmatch(p, i + 1, s, n);
      assert Behind(p, i, s, n) <==> r == 0;
      if r == 0 { return true, n; }
      if s[n] == '.' {
        var more := DotAhead(s, n + 1);
        if !more {
          stop := true;
          ReachIs(s, n0, n + 1);
        }
      }
      if !stop { NotYet(s, n0, n); }
      n := n + 1;
    }
    assert Behind(p, i, s, n) <==> From(p, i + 1, s, n);
    return false, n;
  }

  lemma NotYet(s: string, n0: nat, n: nat)
    requires n0 <= n < |s|
    requires s[n] == '.' ==> exists i :: n < i < |s| && s[i] == '.'
    requires n < n0 + Reach(s[n0..])
    ensures n + 1 < n0 + Reach(s[n0..]) || n + 1 == |s| == n0 + Reach(s[n0..])
  {
    var t := s[n0..];
    assert forall i :: n0 <= i < |s| ==> t[i - n0] == s[i];
  }

  /** ms_fnmatch: 0 for a match, -1 otherwise. */
  method MsFnmatch(p: string, p0: nat, s: string, n0: nat) returns (r: int)
    requires p0 <= |p| && n0 <= |s|
    ensures r == 0 || r == -1
    ensures r == 0 <==> From(p, p0, s, n0)
    decreases |p| - p0, 1
  {
    var i: nat, n: nat := p0, n0;
    while i < |p|
      invariant p0 <= i <= |p| && n <= |s|
      invariant From(p, p0, s, n0) <==> From(p, i, s, n)
      decreases |p| - i
    {
      var c := p[i];
      match c {
      case '?' =>
        OneChar(p, i, s, n);
        if n == |s| { return -1; }
        n := n + 1;
      case '>' =>
        if n < |s| && s[n] == '.' {
          GreaterAtDot(p, i, s, n);
          if n + 1 == |s| {
            var last := MsFnmatch(p, i + 1, s, n + 1);
            if last == 0 { return 0; }
          }
          var here := MsFnmatch(p, i + 1, s, n);
          return here;
        }
        if n == |s| {
          GreaterAtDot(p, i, s, n);
          r := MsFnmatch(p, i + 1, s, n);
          return;
        }
        OneChar(p, i, s, n);
        n := n + 1;
      case '*' =>
        var matched := ScanStar(p, i, s, n);
        if matched { return 0; }
        n := |s|;
      case '<' =>
        var matched, m := ScanLess(p, i, s, n);
        if matched { return 0; }
        n := m;
      case '"' =>
        Quote(p, i, s, n);
        if n == |s| {
          var end := MsFnmatch(p, i + 1, s, n);
          if end == 0 { return 0; }
        }
        if n == |s| || s[n] != '.' { return -1; }
        n := n + 1;
      case _ =>
        if n < |s| && s[n] != c { WrongChar(p, i, s, n); return -1; }
        OneChar(p, i, s, n);
        if n == |s| { return -1; }
        n := n + 1;
      }
      i := i + 1;
    }
    FromEnd(p, i, s, n);
    if n == |s| { return 0; }
    return -1;
  }

  /** The matcher on whole strings decides the language of the pattern. */
  method Match(p: string, s: string) returns (r: int)
    ensures r == 0 <==> InLanguage(p, s)
    ensures r == 0 || r == -1
  {
    r := MsFnmatch(p, 0, s, 0);
    assert p[0..] == p && s[0..] == s;
    LanguageIsMatches(p, s);
  }
}
