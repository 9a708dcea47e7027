// The game ID clean-up: substrings removed in place from a NUL-terminated string
// (main/tools/ps1_gameid.c:10-48).
module GameId {
  const NUL: char := '\0'

  // Searching --------------------------------------------------------------------------

  predicate MatchAt(s: string, i: nat, pat: string)
  {
    i + |pat| <= |s| && s[i..i + |pat|] == pat
  }

  // The leftmost match, or the length of the string.
  function First(s: string, pat: string, from: nat): (r: nat)
    requires from <= |s|
    ensures from <= r <= |s|
    ensures r < |s| ==> MatchAt(s, r, pat)
    ensures forall i :: from <= i < r ==> !MatchAt(s, i, pat)
    decreases |s| - from
  {
    if from == |s| || MatchAt(s, from, pat) then from else First(s, pat, from + 1)
  }

  lemma FirstIsLeast(s: string, pat: string, i: nat)
    requires pat != "" && i < |s| && MatchAt(s, i, pat) && forall k :: 0 <= k < i ==> !MatchAt(s, k, pat)
    ensures First(s, pat, 0) == i
  {
  }

  lemma FirstOfRest(s: string, pat: string, from: nat)
    requires pat != "" && from <= |s|
    ensures First(s, pat, from) == from + First(s[from..], pat, 0)
  {
    forall i: nat | i <= |s| - from
      ensures MatchAt(s, from + i, pat) == MatchAt(s[from..], i, pat)
    {
      if from + i + |pat| <= |s| {
        assert s[from..][i..i + |pat|] == s[from + i..from + i + |pat|];
      }
    }
    var f, g := First(s, pat, from), First(s[from..], pat, 0);
    forall j | 0 <= j < f - from
      ensures !MatchAt(s[from..], j, pat)
    {
      assert !MatchAt(s, from + j, pat);
    }
    forall i | from <= i < from + g
      ensures !MatchAt(s, i, pat)
    {
      assert !MatchAt(s[from..], i - from, pat);
    }
  }

  // Removal ------------------------------------------------------------------------------

  // Every occurrence gone, taken from the left and never overlapping.
  function Removed(s: string, pat: string): string
    requires pat != ""
    decreases |s|
  {
    var i := First(s, pat, 0);
    if i == |s| then s else s[..i] + Removed(s[i + |pat|..], pat)
  }

  // The text between the occurrences.
  function Pieces(s: string, pat: string): (r: seq<string>)
    requires pat != ""
    ensures r != []
    decreases |s|
  {
    var i := First(s, pat, 0);
    if i == |s| then [s] else [s[..i]] + Pieces(s[i + |pat|..], pat)
  }

  function Glue(pieces: seq<string>, pat: string): string
    requires pieces != []
  {
    if |pieces| == 1 then pieces[0] else pieces[0] + pat + Glue(pieces[1..], pat)
  }

  // The pieces hold no occurrence; glued with the pattern they are the string, glued without it the result.
  lemma {:induction false} RemovalByPieces(s: string, pat: string)
    requires pat != ""
    ensures Glue(Pieces(s, pat), pat) == s && Glue(Pieces(s, pat), "") == Removed(s, pat)
    ensures forall k :: 0 <= k < |Pieces(s, pat)| ==> First(Pieces(s, pat)[k], pat, 0) == |Pieces(s, pat)[k]|
    decreases |s|
  {
    var i := First(s, pat, 0);
    if i < |s| {
      NoneBefore(s, pat, i);
      hide Glue, First, MatchAt;
      RemovedMore(s, pat, i);
      var rest := s[i + |pat|..];
      RemovalByPieces(rest, pat);
      GlueMore(s[..i], Pieces(rest, pat), pat);
      GlueMore(s[..i], Pieces(rest, pat), "");
      assert s[..i] + "" == s[..i];
    }
  }

  lemma GlueMore(piece: string, rest: seq<string>, pat: string)
    requires rest != []
    ensures Glue([piece] + rest, pat) == piece + pat + Glue(rest, pat)
  {
    assert ([piece] + rest)[1..] == rest;
  }

  lemma NoneBefore(s: string, pat: string, i: nat)
    requires pat != "" && i <= |s| && forall k :: 0 <= k < i ==> !MatchAt(s, k, pat)
    ensures First(s[..i], pat, 0) == i
  {
    forall k | 0 <= k < i
      ensures !MatchAt(s[..i], k, pat)
    {
      assert !MatchAt(s, k, pat);
      if k + |pat| <= i {
        assert s[..i][k..k + |pat|] == s[k..k + |pat|];
      }
    }
  }

  lemma MatchSplits(s: string, pat: string, i: nat)
    requires MatchAt(s, i, pat)
    ensures i + |pat| <= |s| && s == s[..i] + pat + s[i + |pat|..]
  {
  }

  // The two ways the removal goes on.
  lemma RemovedMore(s: string, pat: string, i: nat)
    requires pat != "" && i == First(s, pat, 0) < |s|
    ensures i + |pat| <= |s| && s == s[..i] + pat + s[i + |pat|..]
    ensures Removed(s, pat) == s[..i] + Removed(s[i + |pat|..], pat)
  {
    MatchSplits(s, pat, i);
  }

  // C strings ------------------------------------------------------------------------------

  ghost predicate Terminated(a: array<char>, n: nat)
    reads a
  {
    n < a.Length && a[n] == NUL && NUL !in a[..n]
  }

  // strstr from a position of the string
  method StrStr(a: array<char>, from: nat, pat: string, ghost n: nat) returns (i: nat, found: bool)
    requires Terminated(a, n) && from <= n && pat != "" && NUL !in pat
    ensures i == First(a[..n], pat, from) && from <= i && found == (i < n)
  {
    i := from;
    while a[i] != NUL
      invariant from <= i <= n && First(a[..n], pat, from) == First(a[..n], pat, i)
      decreases n - i
    {
      var m := Matches(a, i, pat, n);
      if m {
        return i, true;
      }
      i := i + 1;
    }
    found := false;
  }

  lemma CharOfMatch(s: string, i: nat, pat: string, k: nat)
    requires k < |pat|
    ensures MatchAt(s, i, pat) ==> i + k < |s| && s[i + k] == pat[k]
  {
    if MatchAt(s, i, pat) {
      assert s[i..i + |pat|][k] == s[i + k];
    }
  }

  method Matches(a: array<char>, i: nat, pat: string, ghost n: nat) returns (m: bool)
    requires Terminated(a, n) && i <= n && pat != "" && NUL !in pat
    ensures m == MatchAt(a[..n], i, pat)
  {
    for k := 0 to |pat|
      invariant i + k <= n && a[i..i + k] == pat[..k]
    {
      if a[i + k] != pat[k] {
        CharOfMatch(a[..n], i, pat, k);
        return false;
      }
    }
    assert a[..n][i..i + |pat|] == a[i..i + |pat|] && pat[..|pat|] == pat;
    m := true;
  }

  // memmove towards the front of the same array
  method MoveDown(a: array<char>, to: nat, from: nat, count: nat)
    requires to <= from && from + count <= a.Length
    modifies a
    ensures a[..to] == old(a[..to]) && a[to..to + count] == old(a[from..from + count])
    ensures a[to + count..] == old(a[to + count..])
  {
    for k := 0 to count
      invariant a[..to] == old(a[..to]) && a[to..to + k] == old(a[from..from + k])
      invariant forall j :: to + k <= j < a.Length ==> a[j] == old(a[j])
    {
      a[to + k] := a[from + k];
    }
  }

  method StrLen(a: array<char>, from: nat, ghost n: nat) returns (len: nat)
    requires Terminated(a, n) && from <= n
    ensures len == n - from
  {
    len := 0;
    while a[from + len] != NUL
      invariant from + len <= n
      decreases n - len
    {
      len := len + 1;
    }
  }

  // One more occurrence found in the untouched rest of the string.
  lemma RestMatch(now: string, s: string, pat: string, from: nat)
    requires pat != "" && |now| == |s| && from <= |s| && now[from..] == s[from..]
    ensures var i := First(now, pat, from);
            i <= |s| && if i == |s| then Removed(s[from..], pat) == s[from..]
            else from <= i && i + |pat| <= |s| && Removed(s[from..], pat) == now[from..i] + Removed(s[i + |pat|..], pat)
  {
    hide MatchAt, First;
    var i, rest := First(now, pat, from), s[from..];
    FirstOfRest(now, pat, from);
    FirstFits(now, pat, from);
    if i < |s| {
      assert rest[i - from + |pat|..] == s[i + |pat|..];
      assert rest[..i - from] == now[from..][..i - from] == now[from..i];
    }
  }

  lemma FirstFits(s: string, pat: string, from: nat)
    requires from <= |s|
    ensures First(s, pat, from) < |s| ==> First(s, pat, from) + |pat| <= |s|
  {
  }

  lemma Regroup(x: string, y: string, z: string)
    ensures x + (y + z) == (x + y) + z
  {
  }

  // What a move leaves alone.
  lemma Moved(before: string, after: string, to: nat, from: nat, count: nat, n: nat)
    requires to <= from && from + count <= n < |before| == |after|
    requires before[n] == NUL && NUL !in before[..n]
    requires after[..to] == before[..to] && after[to..to + count] == before[from..from + count]
    requires after[to + count..] == before[to + count..]
    ensures after[n] == NUL && NUL !in after[..n] && after[..to + count] == before[..to] + before[from..from + count]
    ensures forall k :: from + count <= k <= n ==> after[k..n] == before[k..n]
  {
    assert after[..n] == after[..to] + after[to..to + count] + after[to + count..][..n - to - count];
    assert after[..n] == before[..to] + before[from..from + count] + before[to + count..n];
    forall k | to + count <= k <= n
      ensures after[k] == before[k]
    {
      assert after[k] == after[to + count..][k - to - count];
    }
  }

  lemma RestKept(before: string, after: string, s: string, from: nat, next: nat, n: nat)
    requires from <= next <= n == |s| && n < |before| == |after| && before[from..n] == s[from..]
    requires after[next..n] == before[next..n]
    ensures after[next..n] == s[next..]
  {
    assert before[next..n] == before[from..n][next - from..];
    assert s[next..] == s[from..][next - from..];
  }

  lemma MovedTail(before: string, after: string, to: nat, from: nat, count: nat, n: nat)
    requires to <= from && from + count == n < |before| == |after|
    requires before[n] == NUL && NUL !in before[..n]
    requires after[..to] == before[..to] && after[to..to + count + 1] == before[from..n + 1]
    ensures after[to + count] == NUL && NUL !in after[..to + count]
    ensures after[..to + count] == before[..to] + before[from..n]
  {
    assert after[..to + count] == after[..to] + after[to..to + count + 1][..count];
    assert before[from..n + 1][..count] == before[from..n];
    assert after[to + count] == after[to..to + count + 1][count];
  }

  // One turn of the loop: the text up to the next occurrence moves down.
  method KeepPiece(a: array<char>, pat: string, str: nat, copyFrom: nat, copyEnd: nat, ghost n: nat, ghost s: string)
    requires Terminated(a, n) && |s| == n && pat != "" && str <= copyFrom <= copyEnd < n
    requires a[copyFrom..n] == s[copyFrom..] && copyEnd == First(a[..n], pat, copyFrom)
    modifies a
    ensures copyEnd + |pat| <= n && Terminated(a, n) && a[copyEnd + |pat|..n] == s[copyEnd + |pat|..]
    ensures old(a[..str]) + Removed(s[copyFrom..], pat)
         == a[..str + copyEnd - copyFrom] + Removed(s[copyEnd + |pat|..], pat)
  {
    hide Removed, First, MatchAt;
    RestMatch(a[..n], s, pat, copyFrom);
    ghost var before := a[..];
    var count := copyEnd - copyFrom;
    MoveDown(a, str, copyFrom, count);
    Moved(before, a[..], str, copyFrom, count, n);
    assert before[..n][copyFrom..copyEnd] == before[copyFrom..copyEnd];
    RestKept(before, a[..], s, copyFrom, copyEnd + |pat|, n);
    Regroup(before[..str], before[copyFrom..copyEnd], Removed(s[copyEnd + |pat|..], pat));
  }

  // rolfl: the searches go on in the part that the moves have not reached.
  method RemoveAll(a: array<char>, pat: string, ghost n: nat) returns (ghost m: nat)
    requires Terminated(a, n) && pat != "" && NUL !in pat
    modifies a
    ensures Terminated(a, m) && m <= n && a[..m] == Removed(old(a[..n]), pat)
  {
    hide Removed, First, MatchAt;
    ghost var s := a[..n];
    RestMatch(s, s, pat, 0);
    assert s[0..] == s;
    var str: nat, copyEnd: nat;
    var found;
    str, found := StrStr(a, 0, pat, n);
    m := n;
    if !found {
      return;
    }
    var copyFrom := str + |pat|;
    copyEnd, found := StrStr(a, copyFrom, pat, n);
    while found
      invariant str + |pat| <= copyFrom <= n && Terminated(a, n) && a[copyFrom..n] == s[copyFrom..]
      invariant Removed(s, pat) == a[..str] + Removed(s[copyFrom..], pat)
      invariant copyEnd == First(a[..n], pat, copyFrom) && copyFrom <= copyEnd && found == (copyEnd < n)
      decreases n - copyFrom
    {
      KeepPiece(a, pat, str, copyFrom, copyEnd, n, s);
      str := str + (copyEnd - copyFrom);
      copyFrom := copyEnd + |pat|;
      copyEnd, found := StrStr(a, copyFrom, pat, n);
    }
    m := KeepTail(a, pat, str, copyFrom, n, s);
  }

  // After the last occurrence: the rest moves down with its terminator.
  method KeepTail(a: array<char>, pat: string, str: nat, copyFrom: nat, ghost n: nat, ghost s: string)
    returns (ghost m: nat)
    requires Terminated(a, n) && |s| == n && pat != "" && str <= copyFrom <= n
    requires a[copyFrom..n] == s[copyFrom..] && First(a[..n], pat, copyFrom) == n
    modifies a
    ensures Terminated(a, m) && m <= n && a[..m] == old(a[..str]) + Removed(s[copyFrom..], pat)
  {
    hide Removed, First, MatchAt;
    RestMatch(a[..n], s, pat, copyFrom);
    ghost var before := a[..];
    var tail := StrLen(a, copyFrom, n);
    MoveDown(a, str, copyFrom, 1 + tail);
    m := str + tail;
    assert before[copyFrom..n] == s[copyFrom..];
    MovedTail(before, a[..], str, copyFrom, tail, n);
  }

  // Replacing ----------------------------------------------------------------------------

  function IndexOf(s: string, c: char): (i: nat)
    ensures i <= |s| && (i < |s| ==> s[i] == c) && forall k :: 0 <= k < i ==> s[k] != c
  {
    if s == "" || s[0] == c then 0 else 1 + IndexOf(s[1..], c)
  }

  function Mapped(s: string, find: char, with: char): (r: string)
    ensures |r| == |s| && forall i :: 0 <= i < |s| ==> r[i] == if s[i] == find then with else s[i]
  {
    seq(|s|, (i: int) requires 0 <= i < |s| => if s[i] == find then with else s[i])
  }

  // Writing the terminator ends the string at the first hit.
  function Replaced(s: string, find: char, with: char): string
  {
    if with == NUL then s[..IndexOf(s, find)] else Mapped(s, find, with)
  }

  method StrChr(a: array<char>, from: nat, c: char, ghost n: nat) returns (i: nat, found: bool)
    requires Terminated(a, n) && from <= n && c != NUL
    ensures from <= i <= n && (forall k :: from <= k < i ==> a[k] != c) && found == (i < n) && (found ==> a[i] == c)
  {
    i := from;
    while a[i] != NUL && a[i] != c
      invariant from <= i <= n && forall k :: from <= k < i ==> a[k] != c
      decreases n - i
    {
      i := i + 1;
    }
    found := a[i] != NUL;
  }

  method ReplaceChar(a: array<char>, find: char, with: char, ghost n: nat) returns (ghost m: nat)
    requires Terminated(a, n) && find != NUL && find != with
    modifies a
    ensures Terminated(a, m) && m <= n && a[..m] == Replaced(old(a[..n]), find, with)
  {
    ghost var s := a[..n];
    m := n;
    var pos: nat;
    var found;
    pos, found := StrChr(a, 0, find, n);
    if with == NUL {
      IndexIs(s, find, pos);
    }
    while found
      invariant pos <= m <= n && Terminated(a, m) && found == (pos < m) && (found ==> a[pos] == find)
      invariant with == NUL ==> pos == IndexOf(s, find) && m == if found then n else pos
      invariant with != NUL ==> m == n
      invariant forall k :: pos <= k < m ==> a[k] == s[k]
      invariant forall k :: 0 <= k < pos ==> a[k] == if s[k] == find then with else s[k]
      decreases found, m - pos
    {
      Overwritten(a[..], m, pos, with);
      a[pos] := with;
      if with == NUL {
        m := pos;
      }
      pos, found := StrChr(a, pos, find, m);
    }
  }

  lemma Overwritten(s: string, m: nat, pos: nat, with: char)
    requires pos < m < |s| && s[m] == NUL && NUL !in s[..m]
    ensures with != NUL ==> NUL !in s[pos := with][..m]
    ensures with == NUL ==> NUL !in s[pos := with][..pos]
  {
    assert s[pos := with][..m] == s[..m][..pos] + [with] + s[..m][pos + 1..];
    assert s[pos := with][..pos] == s[..m][..pos];
  }

  lemma IndexIs(s: string, c: char, i: nat)
    requires i <= |s| && (i < |s| ==> s[i] == c) && forall k :: 0 <= k < i ==> s[k] != c
    ensures IndexOf(s, c) == i
  {
  }

  // Sanitizing -----------------------------------------------------------------------------

  // What ps1_gid_sanitize takes out, in its order.
  const PATTERNS: seq<string> :=
    ["cdrom:", "\\DSC\\", "\\EXE\\", "\\exe\\", "\\TEKKEN3\\", "\\MGS\\", "/", "\\", "."]

  predicate Removable(pats: seq<string>)
  {
    forall i :: 0 <= i < |pats| ==> pats[i] != "" && NUL !in pats[i]
  }

  function RemovedInTurn(s: string, pats: seq<string>): string
    requires Removable(pats)
    decreases |pats|
  {
    if pats == [] then s else Removed(RemovedInTurn(s, pats[..|pats| - 1]), pats[|pats| - 1])
  }

  function Sanitized(s: string): string
  {
    Replaced(Replaced(RemovedInTurn(s, PATTERNS), '_', '-'), ';', NUL)
  }

  method Sanitize(a: array<char>, ghost n: nat) returns (ghost m: nat)
    requires Terminated(a, n)
    modifies a
    ensures Terminated(a, m) && m <= n && a[..m] == Sanitized(old(a[..n]))
  {
    hide Removed, Replaced;
    m := n;
    for i := 0 to |PATTERNS|
      invariant m <= n && Terminated(a, m) && a[..m] == RemovedInTurn(old(a[..n]), PATTERNS[..i])
    {
      assert PATTERNS[..i + 1][..i] == PATTERNS[..i];
      m := RemoveAll(a, PATTERNS[i], m);
    }
    assert PATTERNS[..|PATTERNS|] == PATTERNS;
    m := ReplaceChar(a, '_', '-', m);
    m := ReplaceChar(a, ';', NUL, m);
  }

  // Nothing new comes in, and a single character goes away altogether.
  lemma {:induction false} RemovedLacks(s: string, pat: string, c: char)
    requires pat != "" && (c !in s || pat == [c])
    ensures c !in Removed(s, pat)
    decreases |s|
  {
    var i := First(s, pat, 0);
    if pat == [c] {
      forall k | 0 <= k < i
        ensures s[k] != c
      {
        assert !MatchAt(s, k, pat);
        assert s[k..k + 1] == [s[k]];
      }
    }
    hide MatchAt, First;
    if i < |s| {
      RemovedMore(s, pat, i);
      RemovedLacks(s[i + |pat|..], pat, c);
    }
  }

  lemma {:induction false} InTurnLacks(s: string, pats: seq<string>, c: char)
    requires Removable(pats) && (c !in s || [c] in pats)
    ensures c !in RemovedInTurn(s, pats)
    decreases |pats|
  {
    if pats != [] {
      var last := |pats| - 1;
      if pats[last] != [c] {
        InTurnLacks(s, pats[..last], c);
      }
      RemovedLacks(RemovedInTurn(s, pats[..last]), pats[last], c);
    }
  }

  // No separators, dots, underscores or semicolons remain.
  lemma SanitizedIsClean(s: string)
    ensures forall c :: c in Sanitized(s) ==> c !in ['/', '\\', '.', '_', ';']
  {
    var r := RemovedInTurn(s, PATTERNS);
    assert "/" == PATTERNS[6] && "\\" == PATTERNS[7] && "." == PATTERNS[8];
    InTurnLacks(s, PATTERNS, '/');
    InTurnLacks(s, PATTERNS, '\\');
    InTurnLacks(s, PATTERNS, '.');
    hide RemovedInTurn;
  }

  lemma RemovedNone(s: string, pat: string)
    requires pat != "" && First(s, pat, 0) == |s|
    ensures Removed(s, pat) == s
  {
  }

  lemma SplitWithoutFirst(x: string, c: char, y: string, pat: string)
    requires pat != "" && c !in pat && First(x, pat, 0) == |x|
    ensures Removed(x + [c] + y, pat) == x + [c] + Removed(y, pat)
  {
    hide First, MatchAt, Removed;
    var s, j := x + [c] + y, First(y, pat, 0);
    FirstOfSplit(x, c, y, pat);
    if j < |y| {
      RemovedMore(y, pat, j);
      RemovedMore(s, pat, |x| + 1 + j);
      assert s[|x| + 1 + j + |pat|..] == y[j + |pat|..];
      assert s[..|x| + 1 + j] == x + [c] + y[..j];
      Regroup(x + [c], y[..j], Removed(y[j + |pat|..], pat));
    } else {
      RemovedNone(y, pat);
      RemovedNone(s, pat);
    }
  }

  // A character outside the pattern divides the work in two.
  lemma {:induction false} RemovedSplits(x: string, c: char, y: string, pat: string)
    requires pat != "" && c !in pat
    ensures Removed(x + [c] + y, pat) == Removed(x, pat) + [c] + Removed(y, pat)
    decreases |x|
  {
    hide First, MatchAt, Removed;
    var s, i := x + [c] + y, First(x, pat, 0);
    if i < |x| {
      FirstOfSplit(x, c, y, pat);
      RemovedMore(x, pat, i);
      RemovedMore(s, pat, i);
      var rest := x[i + |pat|..];
      assert s[i + |pat|..] == rest + [c] + y && s[..i] == x[..i];
      RemovedSplits(rest, c, y, pat);
      Regroup(x[..i], Removed(rest, pat), [c] + Removed(y, pat));
      Regroup(Removed(rest, pat), [c], Removed(y, pat));
      Regroup(x[..i] + Removed(rest, pat), [c], Removed(y, pat));
    } else {
      RemovedNone(x, pat);
      SplitWithoutFirst(x, c, y, pat);
    }
  }

  lemma MatchInSplit(x: string, c: char, y: string, pat: string, k: nat)
    requires pat != "" && c !in pat && k <= |x| + 1 + |y|
    ensures MatchAt(x + [c] + y, k, pat)
       <==> (k < |x| && MatchAt(x, k, pat)) || (k > |x| && MatchAt(y, k - |x| - 1, pat))
  {
    var s := x + [c] + y;
    if k + |pat| <= |s| {
      var w := s[k..k + |pat|];
      if k + |pat| <= |x| {
        assert w == x[k..k + |pat|];
      } else if k > |x| {
        assert w == y[k - |x| - 1..k - |x| - 1 + |pat|];
      } else {
        assert w[|x| - k] == c;
      }
    }
  }

  lemma FirstOfSplit(x: string, c: char, y: string, pat: string)
    requires pat != "" && c !in pat
    ensures var i, j := First(x, pat, 0), First(y, pat, 0);
            First(x + [c] + y, pat, 0) == if i < |x| then i else |x| + 1 + j
  {
    var s := x + [c] + y;
    var i, j := First(x, pat, 0), First(y, pat, 0);
    var f := if i < |x| then i else |x| + 1 + j;
    forall k | 0 <= k <= |s|
      ensures MatchAt(s, k, pat) <==> (k < |x| && MatchAt(x, k, pat)) || (k > |x| && MatchAt(y, k - |x| - 1, pat))
    {
      MatchInSplit(x, c, y, pat, k);
    }
    hide MatchAt;
    if f < |s| {
      FirstIsLeast(s, pat, f);
    }
  }

  lemma {:induction false} InTurnSplits(x: string, c: char, y: string, pats: seq<string>)
    requires Removable(pats) && forall i :: 0 <= i < |pats| ==> c !in pats[i]
    ensures RemovedInTurn(x + [c] + y, pats) == RemovedInTurn(x, pats) + [c] + RemovedInTurn(y, pats)
    decreases |pats|
  {
    if pats != [] {
      hide Removed;
      var front, last := pats[..|pats| - 1], pats[|pats| - 1];
      InTurnSplits(x, c, y, front);
      RemovedSplits(RemovedInTurn(x, front), c, RemovedInTurn(y, front), last);
    }
  }

  // Nothing from the first semicolon of the name on has any part in the result.
  lemma OnlyBeforeSemicolon(x: string, y: string)
    requires ';' !in x
    ensures Sanitized(x + [';'] + y) == Sanitized(x)
  {
    assert forall i :: 0 <= i < |PATTERNS| ==> ';' !in PATTERNS[i];
    hide RemovedInTurn, Replaced;
    InTurnSplits(x, ';', y, PATTERNS);
    InTurnLacks(x, PATTERNS, ';');
    CutAtSemicolon(RemovedInTurn(x, PATTERNS), RemovedInTurn(y, PATTERNS));
  }

  lemma CutAtSemicolon(x: string, y: string)
    requires ';' !in x
    ensures Replaced(Replaced(x + [';'] + y, '_', '-'), ';', NUL) == Replaced(Replaced(x, '_', '-'), ';', NUL)
  {
    var both, only := Mapped(x + [';'] + y, '_', '-'), Mapped(x, '_', '-');
    IndexIs(both, ';', |x|);
    IndexIs(only, ';', |x|);
    assert both[..|x|] == only;
  }

  // What one pass leaves --------------------------------------------------------------------

  predicate Lacks(s: string, pat: string)
    requires pat != ""
  {
    First(s, pat, 0) == |s|
  }

  // One character over and over.
  predicate Uniform(pat: string)
  {
    forall i :: 0 <= i < |pat| ==> pat[i] == pat[0]
  }

  lemma LacksIs(s: string, pat: string)
    requires pat != ""
    ensures Lacks(s, pat) <==> forall k :: 0 <= k < |s| ==> !MatchAt(s, k, pat)
  {
  }

  lemma UniformMatch(s: string, pat: string, k: nat, i: nat)
    requires Uniform(pat) && k <= i < k + |pat|
    ensures MatchAt(s, k, pat) ==> i < |s| && s[i] == pat[0]
  {
    CharOfMatch(s, k, pat, i - k);
  }

  // Text in front that does not end in the character cannot help an occurrence along.
  lemma UniformJoin(x: string, y: string, pat: string)
    requires pat != "" && Uniform(pat) && Lacks(x, pat) && Lacks(y, pat) && (x != "" ==> x[|x| - 1] != pat[0])
    ensures Lacks(x + y, pat)
  {
    LacksIs(x, pat);
    LacksIs(y, pat);
    forall k | 0 <= k < |x + y|
      ensures !MatchAt(x + y, k, pat)
    {
      if k >= |x| {
        MatchOfRest(x, y, pat, k);
      } else if k + |pat| <= |x| {
        assert (x + y)[k..k + |pat|] == x[k..k + |pat|];
        assert !MatchAt(x, k, pat);
      } else {
        UniformMatch(x + y, pat, k, |x| - 1);
      }
    }
    LacksIs(x + y, pat);
  }

  lemma MatchOfRest(x: string, y: string, pat: string, k: nat)
    requires k >= |x|
    ensures MatchAt(x + y, k, pat) == MatchAt(y, k - |x|, pat)
  {
    if k + |pat| <= |x + y| {
      assert (x + y)[k..k + |pat|] == y[k - |x|..k - |x| + |pat|];
    }
  }

  lemma MatchOneEarlier(s: string, pat: string, i: nat)
    requires pat != "" && Uniform(pat) && 0 < i <= |s|
    ensures MatchAt(s, i, pat) && s[i - 1] == pat[0] ==> MatchAt(s, i - 1, pat)
  {
    if MatchAt(s, i, pat) && s[i - 1] == pat[0] {
      var w := s[i - 1..i - 1 + |pat|];
      forall j | 0 <= j < |pat|
        ensures w[j] == pat[j]
      {
        if j > 0 {
          UniformMatch(s, pat, i, i - 1 + j);
        }
      }
      assert w == pat;
    }
  }

  // The character before the leftmost occurrence is a different one.
  lemma BeforeFirst(s: string, pat: string)
    requires pat != "" && Uniform(pat)
    ensures var i := First(s, pat, 0); 0 < i < |s| ==> s[i - 1] != pat[0]
  {
    var i := First(s, pat, 0);
    if i > 0 {
      MatchOneEarlier(s, pat, i);
    }
  }

  lemma {:induction false} UniformGoes(s: string, pat: string)
    requires pat != "" && Uniform(pat)
    ensures Lacks(Removed(s, pat), pat)
    decreases |s|
  {
    var i := First(s, pat, 0);
    if i < |s| {
      hide First, MatchAt, Uniform;
      RemovedMore(s, pat, i);
      UniformGoes(s[i + |pat|..], pat);
      NoneBeforeFirst(s, pat);
      BeforeFirst(s, pat);
      UniformJoin(s[..i], Removed(s[i + |pat|..], pat), pat);
    } else {
      RemovedNone(s, pat);
    }
  }

  lemma NoneBeforeFirst(s: string, pat: string)
    requires pat != ""
    ensures Lacks(s[..First(s, pat, 0)], pat)
  {
    NoneBefore(s, pat, First(s, pat, 0));
  }

  // Where the pattern first leaves its first character.
  function Turn(pat: string, from: nat): (k: nat)
    requires from <= |pat|
    ensures from <= k <= |pat| && (k < |pat| ==> pat[k] != pat[0])
    ensures forall i :: from <= i < k ==> pat[i] == pat[0]
    decreases |pat| - from
  {
    if from == |pat| || pat[from] != pat[0] then from else Turn(pat, from + 1)
  }

  // An occurrence put into another one at that place.
  function Nested(pat: string): string
  {
    var k := Turn(pat, 0);
    pat[..k] + pat + pat[k..]
  }

  // Taking out the inner one closes up the outer one, and the pass is over.
  lemma ClosesUp(pat: string)
    requires pat != "" && !Uniform(pat)
    ensures Removed(Nested(pat), pat) == pat && !Lacks(pat, pat)
  {
    var s, k, m := Nested(pat), Turn(pat, 0), |pat|;
    NestedStart(pat);
    assert s[k..k + m] == pat;
    FirstIsLeast(s, pat, k);
    assert s[k + m..] == pat[k..];
    ShortLacks(pat[k..], pat);
    RemovedMore(s, pat, k);
    RemovedNone(pat[k..], pat);
    assert s[..k] == pat[..k] && pat[..k] + pat[k..] == pat;
    assert pat[0..m] == pat && MatchAt(pat, 0, pat);
  }

  lemma NestedStart(pat: string)
    requires pat != "" && !Uniform(pat)
    ensures var k := Turn(pat, 0); 0 < k < |pat| && forall i :: 0 <= i < k ==> !MatchAt(Nested(pat), i, pat)
  {
    var s, k := Nested(pat), Turn(pat, 0);
    assert k < |pat| && k > 0;
    forall i | 0 <= i < k
      ensures !MatchAt(s, i, pat)
    {
      assert s[i + k] == pat[0] by {
        if i > 0 {
          assert s[i + k] == pat[i];
        } else {
          assert s[k] == pat[0];
        }
      }
      CharOfMatch(s, i, pat, k);
    }
  }

  lemma ShortLacks(s: string, pat: string)
    requires |s| < |pat|
    ensures Lacks(s, pat)
  {
    LacksIs(s, pat);
  }

  // One pass gets rid of a pattern for good, whatever the string, if and only if the pattern is uniform.
  lemma RemovalComplete(pat: string)
    requires pat != ""
    ensures (forall s: string :: Lacks(Removed(s, pat), pat)) <==> Uniform(pat)
  {
    hide Removed, Lacks, First, MatchAt;
    if Uniform(pat) {
      forall s: string
        ensures Lacks(Removed(s, pat), pat)
      {
        UniformGoes(s, pat);
      }
    } else {
      ClosesUp(pat);
      assert !Lacks(Removed(Nested(pat), pat), pat);
    }
  }

  // Of the source's patterns that holds for the three single characters only.
  lemma CompletePatterns(i: nat)
    requires i < |PATTERNS|
    ensures (forall s: string :: Lacks(Removed(s, PATTERNS[i]), PATTERNS[i])) <==> i >= 6
  {
    var pat := PATTERNS[i];
    assert i < 6 ==> pat[1] != pat[0];
    RemovalComplete(pat);
    hide Removed, Lacks;
    assert Uniform(pat) <==> i >= 6;
  }

  lemma PatternStarts(i: nat)
    requires 1 <= i < |PATTERNS|
    ensures PATTERNS[i] != "" && PATTERNS[i][0] in ['\\', '/', '.']
  {
  }

  // Yet no path mark survives the whole clean-up, since every one holds a backslash.
  lemma NoPathMarks(s: string, i: nat)
    requires 1 <= i < |PATTERNS|
    ensures PATTERNS[i] != "" && Lacks(Sanitized(s), PATTERNS[i])
  {
    PatternStarts(i);
    SanitizedIsClean(s);
    hide PATTERNS, Sanitized, Lacks, Removed;
    NothingToRemove(Sanitized(s), PATTERNS[i]);
  }

  lemma NothingToRemove(s: string, pat: string)
    requires pat != "" && pat[0] !in s
    ensures Removed(s, pat) == s && Lacks(s, pat)
  {
    forall k | 0 <= k < |s|
      ensures !MatchAt(s, k, pat)
    {
      CharOfMatch(s, k, pat, 0);
      assert s[k] in s;
    }
    LacksIs(s, pat);
    RemovedNone(s, pat);
  }

  lemma {:induction false} OnlyFirstPattern(t: string, s: string, n: nat)
    requires 1 <= n <= |PATTERNS| && s == Removed(t, PATTERNS[0])
    requires '\\' !in s && '/' !in s && '.' !in s
    ensures RemovedInTurn(t, PATTERNS[..n]) == s
  {
    var pats := PATTERNS[..n];
    assert pats[..n - 1] == PATTERNS[..n - 1] && pats[n - 1] == PATTERNS[n - 1];
    if n == 1 {
      assert PATTERNS[..0] == [] && RemovedInTurn(t, []) == t;
    } else {
      OnlyFirstPattern(t, s, n - 1);
      NothingToRemove(s, PATTERNS[n - 1]);
    }
  }

  lemma CleanStays(s: string)
    requires '_' !in s && ';' !in s
    ensures Replaced(Replaced(s, '_', '-'), ';', NUL) == s
  {
    assert Mapped(s, '_', '-') == s;
    IndexIs(s, ';', |s|);
    assert s[..|s|] == s;
  }

  lemma DrivePrefix()
    ensures |PATTERNS| == 9 && PATTERNS[0] == "cdrom:" && PATTERNS[..9] == PATTERNS
    ensures !Uniform(PATTERNS[0]) && forall c :: c in PATTERNS[0] ==> c !in ['/', '\\', '.', '_', ';']
  {
    assert PATTERNS[0][1] != PATTERNS[0][0];
  }

  // The drive prefix can: of the nine patterns it is the only one that can be left in a sanitized name.
  lemma PrefixSurvives()
    ensures PATTERNS[0] != "" && Sanitized(Nested(PATTERNS[0])) == PATTERNS[0] && !Lacks(PATTERNS[0], PATTERNS[0])
  {
    DrivePrefix();
    hide PATTERNS, Removed, RemovedInTurn, Nested, Replaced, Lacks, Uniform;
    var p := PATTERNS[0];
    ClosesUp(p);
    OnlyFirstPattern(Nested(p), p, 9);
    CleanStays(p);
  }
}
