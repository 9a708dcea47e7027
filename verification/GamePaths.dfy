// What the clean-up makes of the paths that games are started from (main/tools/ps1_gameid.c:37-48).
module GamePaths {
  import opened GameId

  // The directories a disc keeps its program in: none of its own, or one of these.
  const ROOT := "\\"
  const DIRECTORIES: seq<string> := ["\\DSC\\", "\\EXE\\", "\\exe\\", "\\TEKKEN3\\", "\\MGS\\"]

  predicate Directory(d: string)
  {
    d == ROOT || d in DIRECTORIES
  }

  // A file name: no separators.
  predicate FileName(x: string)
  {
    forall c :: c in x ==> c !in ['\\', '/', ':', ';']
  }

  // The name without its dots, and with dashes for underscores.
  function Plain(x: string): string
  {
    if x == "" then "" else PlainChar(x[0]) + Plain(x[1..])
  }

  function PlainChar(c: char): string
  {
    if c == '.' then "" else if c == '_' then "-" else [c]
  }

  function Undotted(x: string): string
  {
    if x == "" then "" else (if x[0] == '.' then "" else [x[0]]) + Undotted(x[1..])
  }

  // One pattern ------------------------------------------------------------------------

  // A string that lacks a character of the pattern stays as it is.
  lemma Untouched(s: string, pat: string, k: nat)
    requires k < |pat| && pat[k] !in s
    ensures Removed(s, pat) == s
  {
    forall i | 0 <= i < |s|
      ensures !MatchAt(s, i, pat)
    {
      CharOfMatch(s, i, pat, k);
      assert i + k < |s| ==> s[i + k] in s;
    }
    RemovedNone(s, pat);
  }

  // The pattern at the head of a string that holds no more of it.
  lemma HeadRemoved(pat: string, rest: string, k: nat)
    requires k < |pat| && pat[k] !in rest
    ensures Removed(pat + rest, pat) == rest
  {
    assert (pat + rest)[0..|pat|] == pat;
    FirstIsLeast(pat + rest, pat, 0);
    RemovedMore(pat + rest, pat, 0);
    assert (pat + rest)[|pat|..] == rest && (pat + rest)[..0] == "";
    Untouched(rest, pat, k);
  }

  // Another directory at the head does not match: its two backslashes are not where those of the pattern are, or what
  // is between them differs.
  lemma OtherDirectory(d: string, x: string, pat: string)
    requires Directory(d) && FileName(x) && pat in DIRECTORIES && d != pat
    ensures Removed(d + x, pat) == d + x
  {
    var s := d + x;
    Backslashes(d, x);
    Enclosed(pat);
    forall i | 0 <= i < |s|
      ensures !MatchAt(s, i, pat)
    {
      CharOfMatch(s, i, pat, 0);
      CharOfMatch(s, i, pat, |pat| - 1);
      AtTheHead(d, x, pat);
    }
    RemovedNone(s, pat);
  }

  lemma AtTheHead(d: string, x: string, pat: string)
    ensures |pat| == |d| && MatchAt(d + x, 0, pat) ==> pat == d
  {
    assert (d + x)[..|d|] == d;
  }

  lemma Backslashes(d: string, x: string)
    requires Directory(d) && FileName(x)
    ensures forall i :: 0 <= i < |d + x| && (d + x)[i] == '\\' ==> i == 0 || i == |d| - 1
  {
    forall i | 0 <= i < |d + x|
      ensures (d + x)[i] == '\\' ==> i == 0 || i == |d| - 1
    {
      if i >= |d| {
        assert (d + x)[i] in x;
      } else {
        BackslashesOf(d, i);
      }
    }
  }

  lemma BackslashesOf(d: string, i: nat)
    requires Directory(d) && i < |d|
    ensures d[i] == '\\' ==> i == 0 || i == |d| - 1
  {
    assert d == ROOT || d == DIRECTORIES[0] || d == DIRECTORIES[1] || d == DIRECTORIES[2] || d == DIRECTORIES[3]
           || d == DIRECTORIES[4];
  }

  lemma Enclosed(pat: string)
    requires pat in DIRECTORIES
    ensures |pat| >= 5 && pat[0] == '\\' && pat[|pat| - 1] == '\\'
  {
  }

  // Dots go, one by one.
  lemma {:induction false} DotsRemoved(x: string)
    ensures Removed(x, ".") == Undotted(x)
    decreases |x|
  {
    if x == "" {
      RemovedNone(x, ".");
    } else {
      DotsRemoved(x[1..]);
      if x[0] == '.' {
        assert x == "." + x[1..] && x[0..1] == ".";
        FirstIsLeast(x, ".", 0);
        RemovedMore(x, ".", 0);
        assert x[..0] == "";
      } else {
        RemovedSplits("", x[0], x[1..], ".");
        RemovedNone("", ".");
        assert "" + [x[0]] + x[1..] == x;
      }
    }
  }

  lemma {:induction false} PlainIs(x: string)
    ensures Mapped(Undotted(x), '_', '-') == Plain(x)
    decreases |x|
  {
    if x != "" {
      PlainIs(x[1..]);
      MappedMore(x[0], Undotted(x[1..]));
      assert "" + Undotted(x[1..]) == Undotted(x[1..]) && "" + Plain(x[1..]) == Plain(x[1..]);
      hide Mapped;
    }
  }

  lemma {:induction false} PlainLacks(x: string, c: char)
    requires c !in x && c != '-'
    ensures c !in Plain(x)
    decreases |x|
  {
    if x != "" {
      PlainLacks(x[1..], c);
    }
  }

  lemma MappedMore(c: char, s: string)
    ensures Mapped([c] + s, '_', '-') == [if c == '_' then '-' else c] + Mapped(s, '_', '-')
  {
  }

  // The nine patterns in turn ----------------------------------------------------------

  lemma InTurn(s: string, n: nat)
    requires n < |PATTERNS|
    ensures Removable(PATTERNS[..n]) && Removable(PATTERNS[..n + 1])
    ensures RemovedInTurn(s, PATTERNS[..n + 1]) == Removed(RemovedInTurn(s, PATTERNS[..n]), PATTERNS[n])
  {
    hide Removed;
    assert PATTERNS[..n + 1][..n] == PATTERNS[..n];
  }

  // The drive goes first.
  lemma DriveRemoved(d: string, x: string)
    requires Directory(d) && FileName(x)
    ensures Removed("cdrom:" + d + x, "cdrom:") == d + x
  {
    NoColon(d, x);
    var drive := "cdrom:";
    assert drive[5] == ':' && drive + (d + x) == drive + d + x;
    HeadRemoved(drive, d + x, 5);
    hide Removed, Directory, FileName;
  }

  lemma NoColon(d: string, x: string)
    requires Directory(d) && FileName(x)
    ensures ':' !in d + x && ';' !in "cdrom:" + d + x && '/' !in x && '\\' !in x
  {
    assert ':' !in x && ';' !in x && '/' !in x && '\\' !in x;
    assert d == ROOT || d == DIRECTORIES[0] || d == DIRECTORIES[1] || d == DIRECTORIES[2] || d == DIRECTORIES[3]
           || d == DIRECTORIES[4];
    assert ':' !in d && ';' !in d;
  }

  // What is left after the drive and the first n directory patterns.
  function Left(d: string, x: string, n: nat): string
    requires n <= 5
  {
    if d in DIRECTORIES[..n] then x else d + x
  }

  lemma DirectoryStep(d: string, x: string, n: nat)
    requires Directory(d) && FileName(x) && n < 5
    ensures Removed(Left(d, x, n), DIRECTORIES[n]) == Left(d, x, n + 1)
  {
    var pat := DIRECTORIES[n];
    Enclosed(pat);
    NoColon(d, x);
    Listed(d, n);
    if d in DIRECTORIES[..n] {
      Untouched(x, pat, 0);
    } else if d == pat {
      HeadRemoved(pat, x, 0);
    } else {
      OtherDirectory(d, x, pat);
    }
  }

  lemma Listed(d: string, n: nat)
    requires n < 5
    ensures d in DIRECTORIES[..n + 1] <==> d in DIRECTORIES[..n] || d == DIRECTORIES[n]
  {
    assert DIRECTORIES[..n + 1] == DIRECTORIES[..n] + [DIRECTORIES[n]];
  }

  lemma {:induction false} Directories(d: string, x: string, n: nat)
    requires Directory(d) && FileName(x) && n <= 5
    ensures Removable(PATTERNS[..n + 1])
    ensures RemovedInTurn("cdrom:" + d + x, PATTERNS[..n + 1]) == Left(d, x, n)
  {
    hide RemovedInTurn, Removed, Left, Directory, FileName;
    var s := "cdrom:" + d + x;
    InTurn(s, n);
    if n == 0 {
      DriveTurn(s);
      DriveRemoved(d, x);
      LeftAtFirst(d, x);
    } else {
      Directories(d, x, n - 1);
      DirectoryStep(d, x, n - 1);
      assert PATTERNS[n] == DIRECTORIES[n - 1];
    }
  }

  lemma DriveTurn(s: string)
    ensures PATTERNS[0] == "cdrom:" && PATTERNS[..0] == [] && RemovedInTurn(s, []) == s
  {
  }

  lemma LeftAtFirst(d: string, x: string)
    ensures Left(d, x, 0) == d + x
  {
    assert DIRECTORIES[..0] == [];
  }

  lemma RestRemoved(d: string, x: string)
    requires Directory(d) && FileName(x)
    ensures Removed(Removed(Removed(Left(d, x, 5), "/"), "\\"), ".") == Undotted(x)
  {
    hide Removed, Undotted, Left, DIRECTORIES, FileName;
    NoColon(d, x);
    DotsRemoved(x);
    LeftAtLast(d, x);
    if d == ROOT {
      NoSlash(x);
      Untouched(ROOT + x, "/", 0);
      HeadRemoved(ROOT, x, 0);
    } else {
      Untouched(x, "/", 0);
      Untouched(x, "\\", 0);
    }
  }

  lemma LeftAtLast(d: string, x: string)
    requires Directory(d)
    ensures Left(d, x, 5) == if d == ROOT then ROOT + x else x
  {
    assert DIRECTORIES[..5] == DIRECTORIES;
    assert ROOT != DIRECTORIES[0] && ROOT != DIRECTORIES[1] && ROOT != DIRECTORIES[2] && ROOT != DIRECTORIES[3]
           && ROOT != DIRECTORIES[4];
  }

  lemma NoSlash(x: string)
    requires '/' !in x
    ensures '/' !in ROOT + x
  {
  }

  // Whatever the directory and the version: of a path on the disc the name is left, without dots and with dashes
  // for underscores.
  lemma NameIsLeft(d: string, x: string, version: string)
    requires Directory(d) && FileName(x)
    ensures Sanitized("cdrom:" + d + x + ";" + version) == Plain(x)
  {
    var s := "cdrom:" + d + x;
    NoColon(d, x);
    OnlyBeforeSemicolon(s, version);
    Directories(d, x, 5);
    InTurn(s, 6);
    InTurn(s, 7);
    InTurn(s, 8);
    assert PATTERNS[..9] == PATTERNS && PATTERNS[6] == "/" && PATTERNS[7] == "\\" && PATTERNS[8] == ".";
    RestRemoved(d, x);
    PlainIs(x);
    PlainLacks(x, ';');
    NothingToCut(Plain(x));
    hide RemovedInTurn, Removed, Undotted, Plain, Left, IndexOf;
  }

  lemma NothingToCut(s: string)
    requires ';' !in s
    ensures Replaced(s, ';', NUL) == s
  {
    IndexIs(s, ';', |s|);
    assert s[..|s|] == s;
  }
}
