/**
 Fenced code blocks as section 4.5 of CommonMark reads them, line by line, and
 exactly where the scanner and the rename sweep agree with that reading.

 The lines are what stands between line feeds; a carriage return before the line
 feed belongs to the line ending.
 */
module CommonMark {
  import opened Results
  import opened Text
  import InvariantChecker
  import opened MarkdownScanner
  import opened NodeRenamer

  // ---- section 4.5 ----

  /** The line without the carriage return of its line ending. */
  function Bare(line: string): string {
    if line != "" && line[|line| - 1] == '\r' then line[..|line| - 1] else line
  }

  /** What follows a run that ends at n, up to the line ending. */
  function After(line: string, n: nat): string {
    if n <= |Bare(line)| then Bare(line)[n..] else ""
  }

  /** The first word of the info string: section 4.5 trims spaces and tabs, and nothing else. */
  function Word(info: string): string {
    FirstWord(TrimLeft(info, BlankOrTab()))
  }

  /** The line opens the block f: p spaces, then the fence and its info string. */
  ghost predicate OpensAt(line: string, f: Fence, p: nat) {
    f.Inside? && IsFenceLine(Bare(line), f.ch, p, f.len) && f.info == Word(After(line, p + f.len))
  }

  ghost predicate Opens(line: string, f: Fence) {
    exists p: nat :: OpensAt(line, f, p)
  }

  ghost predicate OnlyBlanks(s: string) {
    forall i :: 0 <= i < |s| ==> s[i] == ' ' || s[i] == '\t'
  }

  /** The line closes a block whose fence is len characters c: at most three spaces before, nothing but spaces and tabs after. */
  ghost predicate ClosesAt(line: string, c: char, len: nat, p: nat, n: nat) {
    IsFenceLine(Bare(line), c, p, n) && n >= len && OnlyBlanks(After(line, p + n))
  }

  ghost predicate Closes(line: string, c: char, len: nat) {
    exists p: nat, n: nat :: ClosesAt(line, c, len, p, n)
  }

  /** What a line is: ordinary text, a fence, text of a block, or (for the scanner alone) none of these. */
  datatype Role = Prose | Opening(block: Fence) | Content(info: string) | Closing | Passed

  ghost function RoleOf(f: Fence, line: string): Role {
    match f
    case Outside => if exists g :: Opens(line, g) then (var g :| Opens(line, g); Opening(g)) else Prose
    case Inside(c, len, info) => if Closes(line, c, len) then Closing else Content(info)
  }

  function AfterRole(f: Fence, r: Role): Fence {
    match r
    case Opening(g) => g
    case Closing => Outside
    case _ => f
  }

  /** The block the n-th line stands in; one that is never closed runs to the end. */
  ghost function BlockBefore(lines: seq<string>, n: nat): Fence
    requires n <= |lines|
  {
    if n == 0 then Outside else AfterRole(BlockBefore(lines, n - 1), RoleOf(BlockBefore(lines, n - 1), lines[n - 1]))
  }

  // ---- the scanner's reading ----

  function ScannedRole(f: Fence, line: string): Role {
    var m := FenceMarker(line);
    match f
    case Outside => if m.Some? then Opening(Inside(m.value.ch, m.value.len, m.value.info)) else Prose
    case Inside(_, _, info) =>
      if m.None? then Content(info) else if NextFence(f, m.value) == Outside then Closing else Passed
  }

  // ---- one line ----

  lemma BareFence(line: string, c: char, p: nat, n: nat)
    ensures IsFenceLine(Bare(line), c, p, n) <==> IsFenceLine(line, c, p, n)
  {
    if Bare(line) != line {
      var k := |line| - 1;
      assert line[k] == '\r' && forall i :: 0 <= i < k ==> Bare(line)[i] == line[i];
      if IsFenceLine(line, c, p, n) {
        assert line[p + n - 1] == c;
      }
    }
  }

  /** A line is a fence in one way only. */
  lemma FenceOnce(line: string, c: char, p: nat, n: nat, d: char, q: nat, m: nat)
    requires IsFenceLine(line, c, p, n) && IsFenceLine(line, d, q, m)
    ensures c == d && p == q && n == m
  {
    assert line[p] == c && line[q] == d;
  }

  lemma OpensOnce(line: string, f: Fence, g: Fence)
    requires Opens(line, f) && Opens(line, g)
    ensures f == g
  {
    hide IsFenceLine, Word, After;
    var p: nat :| OpensAt(line, f, p);
    var q: nat :| OpensAt(line, g, q);
    FenceOnce(Bare(line), f.ch, p, f.len, g.ch, q, g.len);
  }

  /** The marker of a fence line. */
  lemma MarkerOf(line: string, c: char, p: nat, n: nat)
    requires IsFenceLine(line, c, p, n)
    ensures FenceMarker(line) == Some(Marker(c, n, FirstWord(TrimSpace(line[p + n..]))))
  {
    hide FenceMarker, TrimSpace, FirstWord;
    assert line[p] == c;
    FenceExactly(line);
    MarkerIs(line, c, p, n);
    assert line[p..][n..] == line[p + n..];
  }

  lemma AllSpace(s: string)
    requires forall i :: 0 <= i < |s| ==> IsSpace(s[i])
    ensures TrimSpace(s) == ""
  {
    hide IsSpace;
    assert forall i :: 0 <= i < |s| ==> Spaces()(s[i]);
    TrimLeftIs(s, Spaces(), |s|);
  }

  /** The rest of the line is what section 4.5 sees of it, perhaps with a carriage return. */
  lemma RestIs(line: string, n: nat)
    requires n <= |Bare(line)|
    ensures line[n..] == After(line, n) || line[n..] == After(line, n) + "\r"
  {
  }

  /** What closes a block by section 4.5 closes it for the scanner. */
  lemma ClosesScanned(line: string, c: char, len: nat, info: string)
    requires Closes(line, c, len)
    ensures ScannedRole(Inside(c, len, info), line) == Closing
  {
    hide IsFenceLine, FenceMarker, TrimSpace, FirstWord, After;
    var p: nat, n: nat :| ClosesAt(line, c, len, p, n);
    BareFence(line, c, p, n);
    MarkerOf(line, c, p, n);
    FenceFits(Bare(line), c, p, n);
    RestIs(line, p + n);
    SpaceAfter(line, p + n);
    AllSpace(line[p + n..]);
    NoWord();
  }

  lemma FenceFits(line: string, c: char, p: nat, n: nat)
    requires IsFenceLine(line, c, p, n)
    ensures p + n <= |line|
  {
  }

  lemma NoWord()
    ensures FirstWord("") == ""
  {
  }

  lemma SpaceAfter(line: string, n: nat)
    requires n <= |Bare(line)| && OnlyBlanks(After(line, n))
    ensures forall i :: 0 <= i < |line[n..]| ==> IsSpace(line[n..][i])
  {
    RestIs(line, n);
  }

  // ---- info strings ----

  /** The first word is followed by a blank or the end, and holds no blank. */
  lemma {:induction false} FirstWordIs(s: string, n: nat)
    requires n <= |s| && (forall i :: 0 <= i < n ==> s[i] != ' ' && s[i] != '\t') && (n < |s| ==> s[n] == ' ' || s[n] == '\t')
    ensures FirstWord(s) == s[..n]
  {
    if n > 0 {
      FirstWordIs(s[1..], n - 1);
      assert s[..n] == [s[0]] + s[1..][..n - 1];
    }
  }

  lemma FirstWordEnds(s: string) returns (n: nat)
    ensures n <= |s| && (forall i :: 0 <= i < n ==> s[i] != ' ' && s[i] != '\t') && (n < |s| ==> s[n] == ' ' || s[n] == '\t')
    ensures FirstWord(s) == s[..n]
  {
    n := 0;
    while n < |s| && s[n] != ' ' && s[n] != '\t'
      invariant n <= |s| && forall i :: 0 <= i < n ==> s[i] != ' ' && s[i] != '\t'
    {
      n := n + 1;
    }
    FirstWordIs(s, n);
  }

  ghost predicate AllSpaces(s: string) {
    forall i :: 0 <= i < |s| ==> IsSpace(s[i])
  }

  /**
   The first word of the info string begins with white space that is neither a space nor a tab, or ends
   with it and nothing but white space follows.
   */
  ghost predicate OddInfo(info: string) {
    var w, t := Word(info), TrimLeft(info, BlankOrTab());
    w != "" && |w| <= |t| && (IsSpace(w[0]) || (IsSpace(w[|w| - 1]) && AllSpaces(t[|w|..])))
  }

  lemma WordFacts(info: string) returns (d: nat, n: nat)
    ensures d + n <= |info| && OnlyBlanks(info[..d]) && TrimLeft(info, BlankOrTab()) == info[d..] && Word(info) == info[d..d + n]
    ensures forall i :: d <= i < d + n ==> info[i] != ' ' && info[i] != '\t'
    ensures d + n < |info| ==> n > 0 && (info[d + n] == ' ' || info[d + n] == '\t')
  {
    hide TrimLeft, FirstWord;
    d := TrimLeftFacts(info, BlankOrTab());
    var t := info[d..];
    n := FirstWordEnds(t);
    assert t[..n] == info[d..d + n];
    forall i | d <= i < d + n
      ensures info[i] != ' ' && info[i] != '\t'
    {
      assert t[i - d] == info[i];
    }
    forall i | 0 <= i < d
      ensures info[i] == ' ' || info[i] == '\t'
    {
      assert BlankOrTab()(info[i]);
    }
  }

  /** What stands between white space of any kind. */
  lemma TrimFacts(s: string) returns (a: nat, b: nat)
    ensures a <= b <= |s| && TrimSpace(s) == s[a..b] && AllSpaces(s[..a]) && AllSpaces(s[b..])
    ensures a < b ==> !IsSpace(s[a]) && !IsSpace(s[b - 1])
  {
    hide TrimLeft, TrimRight, IsSpace;
    a := TrimLeftFacts(s, Spaces());
    var t := s[a..];
    var e := TrimRightFacts(t, Spaces());
    b := a + e;
    assert t[..e] == s[a..b];
    forall i | 0 <= i < a
      ensures IsSpace(s[i])
    {
      assert Spaces()(s[i]);
    }
    forall i | b <= i < |s|
      ensures IsSpace(s[i])
    {
      assert Spaces()(t[i - a]) && t[i - a] == s[i];
    }
    if a < b {
      assert !Spaces()(t[0]) && !Spaces()(t[e - 1]);
    }
  }

  /** The scanner's first word is that of section 4.5 exactly on plain info strings. */
  lemma InfoExactly(info: string, rest: string)
    requires rest == info || rest == info + "\r"
    ensures FirstWord(TrimSpace(rest)) == Word(info) <==> !OddInfo(info)
  {
    hide TrimSpace, TrimLeft, FirstWord, Word, IsSpace, AllSpaces;
    var d, n := WordFacts(info);
    var a, b := TrimFacts(rest);
    if n == 0 {
      NothingButBlanks(info, rest, d, a, b);
      NoWord();
    } else {
      var m := FirstWordEnds(rest[a..b]);
      ScannedWord(info, rest, d, n, a, b, m);
      assert info[d..d + n][0] == info[d] && info[d..d + n][n - 1] == info[d + n - 1];
      assert info[d..][n..] == info[d + n..];
    }
  }

  lemma NothingButBlanks(info: string, rest: string, d: nat, a: nat, b: nat)
    requires (rest == info || rest == info + "\r") && d == |info| && OnlyBlanks(info[..d])
    requires a <= b <= |rest| && (a < b ==> !IsSpace(rest[a]))
    ensures rest[a..b] == ""
  {
    BlanksAreSpace();
    assert info[..d] == info;
  }

  lemma ScannedWord(info: string, rest: string, d: nat, n: nat, a: nat, b: nat, m: nat)
    requires rest == info || rest == info + "\r"
    requires d + n <= |info| && n > 0 && OnlyBlanks(info[..d]) && (d + n < |info| ==> info[d + n] == ' ' || info[d + n] == '\t')
    requires forall i :: d <= i < d + n ==> info[i] != ' ' && info[i] != '\t'
    requires a <= b <= |rest| && AllSpaces(rest[..a]) && AllSpaces(rest[b..]) && (a < b ==> !IsSpace(rest[a]) && !IsSpace(rest[b - 1]))
    requires m <= b - a && forall i :: 0 <= i < m ==> rest[a..b][i] != ' ' && rest[a..b][i] != '\t'
    requires m < b - a ==> rest[a..b][m] == ' ' || rest[a..b][m] == '\t'
    ensures rest[a..b][..m] == info[d..d + n] <==> !(IsSpace(info[d]) || (IsSpace(info[d + n - 1]) && AllSpaces(info[d + n..])))
  {
    hide IsSpace;
    assert rest[a..b][..m] == rest[a..a + m];
    forall i | a <= i < a + m
      ensures rest[i] != ' ' && rest[i] != '\t'
    {
      assert rest[i] == rest[a..b][i - a];
    }
    assert forall i :: d + n <= i < |info| ==> info[i] == info[d + n..][i - d - n];
    InfoCases(info, rest, d, n, a, b, m);
  }

  lemma BlanksAreSpace()
    ensures IsSpace(' ') && IsSpace('\t') && IsSpace('\r')
  {
  }

  lemma InfoCases(info: string, rest: string, d: nat, n: nat, a: nat, b: nat, m: nat)
    requires rest == info || rest == info + "\r"
    requires d + n <= |info| && n > 0 && OnlyBlanks(info[..d]) && (d + n < |info| ==> info[d + n] == ' ' || info[d + n] == '\t')
    requires forall i :: d <= i < d + n ==> info[i] != ' ' && info[i] != '\t'
    requires a <= b <= |rest| && AllSpaces(rest[..a]) && AllSpaces(rest[b..]) && (a < b ==> !IsSpace(rest[a]) && !IsSpace(rest[b - 1]))
    requires m <= b - a && (forall i :: a <= i < a + m ==> rest[i] != ' ' && rest[i] != '\t')
    requires m < b - a ==> rest[a + m] == ' ' || rest[a + m] == '\t'
    ensures rest[a..a + m] == info[d..d + n] <==>
            !(IsSpace(info[d]) || (IsSpace(info[d + n - 1]) && forall i :: d + n <= i < |info| ==> IsSpace(info[i])))
  {
    hide IsSpace;
    BlanksAreSpace();
    assert forall i :: 0 <= i < a ==> rest[i] == rest[..a][i];
    assert forall i :: b <= i < |rest| ==> rest[i] == rest[b..][i - b];
    assert forall i :: 0 <= i < d ==> info[i] == info[..d][i];
    if IsSpace(info[d]) {
      if m > 0 {
        assert rest[a..a + m][0] == rest[a] && info[d..d + n][0] == info[d];
      }
    } else {
      assert rest[d] == info[d];
      forall i | 0 <= i < d
        ensures IsSpace(rest[i])
      {
        assert rest[i] == info[i];
      }
      assert a == d;
      NotLonger(info, rest, d + n, b, d + m);
      if m == n {
        LastNotSpace(info, rest, d + n, b);
      } else {
        Shorter(info, rest, d + m, d + n, b);
        assert |rest[a..a + m]| != |info[d..d + n]|;
      }
    }
  }

  /** A word the scanner cuts short ends in white space, and so does the line. */
  lemma Shorter(info: string, rest: string, f: nat, e: nat, b: nat)
    requires (rest == info || rest == info + "\r") && f < e <= |info| && f <= b <= |rest| && (f < b ==> rest[f] == ' ' || rest[f] == '\t')
    requires info[f] != ' ' && info[f] != '\t' && forall i :: b <= i < |rest| ==> IsSpace(rest[i])
    ensures IsSpace(info[e - 1]) && forall i :: e <= i < |info| ==> IsSpace(info[i])
  {
    hide IsSpace;
    assert rest[f] == info[f];
    forall i | e - 1 <= i < |info|
      ensures IsSpace(info[i])
    {
      assert rest[i] == info[i];
    }
  }

  /** The scanner's word does not run past the end of the other. */
  lemma NotLonger(info: string, rest: string, e: nat, b: nat, f: nat)
    requires (rest == info || rest == info + "\r") && e <= |info| && f <= b <= |rest| && (b > 0 ==> !IsSpace(rest[b - 1]))
    requires e < |info| ==> info[e] == ' ' || info[e] == '\t'
    requires e < f ==> rest[e] != ' ' && rest[e] != '\t'
    ensures f <= e
  {
    BlanksAreSpace();
    if e < |info| {
      assert rest[e] == info[e];
    }
  }

  lemma LastNotSpace(info: string, rest: string, e: nat, b: nat)
    requires (rest == info || rest == info + "\r") && 0 < e <= b <= |rest| && e <= |info|
    requires !IsSpace(rest[b - 1])
    ensures !(IsSpace(info[e - 1]) && forall i :: e <= i < |info| ==> IsSpace(info[i]))
  {
    BlanksAreSpace();
    if e < b {
      assert rest[b - 1] == info[b - 1];
    }
  }

  // ---- where the two readings part ----

  /** An opening fence whose info string the scanner reads otherwise. */
  ghost predicate OpensOddly(line: string) {
    exists c, p: nat, n: nat :: IsFenceLine(Bare(line), c, p, n) && OddInfo(After(line, p + n))
  }

  /** A fence long enough to close the block, followed by white space of another kind than spaces and tabs. */
  ghost predicate ClosesOddly(line: string, c: char, len: nat) {
    exists p: nat, n: nat :: IsFenceLine(Bare(line), c, p, n) && n >= len && AllSpaces(After(line, p + n)) && !OnlyBlanks(After(line, p + n))
  }

  /** A fence that cannot close the block: of the other character, too short, or with an info string. */
  ghost predicate PassesBy(line: string, c: char, len: nat) {
    exists d, p: nat, n: nat :: IsFenceLine(Bare(line), d, p, n) && !(d == c && n >= len && AllSpaces(After(line, p + n)))
  }

  /** The scanner takes up another block, or another end of the block, on this line. */
  ghost predicate Strays(f: Fence, line: string) {
    match f
    case Outside => OpensOddly(line)
    case Inside(c, len, _) => ClosesOddly(line, c, len)
  }

  ghost predicate Skips(f: Fence, line: string) {
    f.Inside? && PassesBy(line, f.ch, f.len)
  }

  lemma NoFence(line: string)
    requires FenceMarker(line).None?
    ensures forall c, p: nat, n: nat :: !IsFenceLine(Bare(line), c, p, n)
  {
    hide FenceMarker, IsFenceLine;
    FenceExactly(line);
    forall c, p: nat, n: nat
      ensures !IsFenceLine(Bare(line), c, p, n)
    {
      BareFence(line, c, p, n);
    }
  }

  /** A fence line taken apart. */
  lemma FenceParts(line: string) returns (c: char, p: nat, n: nat)
    requires FenceMarker(line).Some?
    ensures IsFenceLine(Bare(line), c, p, n) && p + n <= |Bare(line)|
    ensures FenceMarker(line) == Some(Marker(c, n, FirstWord(TrimSpace(line[p + n..]))))
    ensures forall d, q: nat, m: nat :: IsFenceLine(Bare(line), d, q, m) ==> d == c && q == p && m == n
  {
    hide FenceMarker, IsFenceLine, TrimSpace, FirstWord;
    FenceExactly(line);
    var d, q: nat, m: nat :| IsFenceLine(line, d, q, m);
    c, p, n := d, q, m;
    BareFence(line, c, p, n);
    MarkerOf(line, c, p, n);
    FenceFits(Bare(line), c, p, n);
    forall d, q: nat, m: nat | IsFenceLine(Bare(line), d, q, m)
      ensures d == c && q == p && m == n
    {
      FenceOnce(Bare(line), c, p, n, d, q, m);
    }
  }

  lemma NoWordExactly(line: string, n: nat)
    requires n <= |Bare(line)|
    ensures FirstWord(TrimSpace(line[n..])) == "" <==> AllSpaces(After(line, n))
  {
    hide TrimSpace, FirstWord;
    RestIs(line, n);
    var rest := line[n..];
    var a, b := TrimFacts(rest);
    BlanksAreSpace();
    var m := FirstWordEnds(rest[a..b]);
    if AllSpaces(After(line, n)) {
      assert AllSpaces(rest);
      assert a == b;
    } else {
      var i :| 0 <= i < |After(line, n)| && !IsSpace(After(line, n)[i]);
      assert !IsSpace(rest[i]);
      assert forall j :: 0 <= j < a ==> IsSpace(rest[j]) by {
        assert forall j :: 0 <= j < a ==> rest[j] == rest[..a][j];
      }
      assert forall j :: b <= j < |rest| ==> IsSpace(rest[j]) by {
        assert forall j :: b <= j < |rest| ==> rest[j] == rest[b..][j - b];
      }
      assert a < b && rest[a..b][0] == rest[a];
    }
  }

  lemma InsideRoles(line: string, c: char, len: nat, info: string)
    ensures ScannedRole(Inside(c, len, info), line) == Closing <==> Closes(line, c, len) || ClosesOddly(line, c, len)
    ensures ScannedRole(Inside(c, len, info), line) == Passed <==> PassesBy(line, c, len)
    ensures Closes(line, c, len) ==> !ClosesOddly(line, c, len)
  {
    hide FenceMarker, IsFenceLine, TrimSpace, FirstWord, After, AllSpaces, OnlyBlanks;
    if FenceMarker(line).None? {
      NoFence(line);
    } else {
      var d, p, n := FenceParts(line);
      NoWordExactly(line, p + n);
      BlanksAllSpace(After(line, p + n));
      assert d == c && n >= len && OnlyBlanks(After(line, p + n)) ==> ClosesAt(line, c, len, p, n);
    }
  }

  lemma BlanksAllSpace(s: string)
    ensures OnlyBlanks(s) ==> AllSpaces(s)
  {
    BlanksAreSpace();
  }

  lemma OutsideRoles(line: string)
    ensures ScannedRole(Outside, line) == RoleOf(Outside, line) <==> !OpensOddly(line)
    ensures ScannedRole(Outside, line) == Prose <==> RoleOf(Outside, line) == Prose
  {
    hide FenceMarker, IsFenceLine, TrimSpace, FirstWord, After, Word, OddInfo;
    if FenceMarker(line).None? {
      NoFence(line);
    } else {
      var c, p, n := FenceParts(line);
      RestIs(line, p + n);
      InfoExactly(After(line, p + n), line[p + n..]);
      var f := Inside(c, n, Word(After(line, p + n)));
      assert OpensAt(line, f, p);
      assert Opens(line, f);
      forall g | Opens(line, g)
        ensures g == f
      {
        OpensOnce(line, f, g);
      }
      assert RoleOf(Outside, line) == Opening(f);
    }
  }

  /** One line, from the same block: same role unless the line is odd or skipped, same block after it unless it is odd. */
  lemma RolesExactly(f: Fence, line: string)
    ensures ScannedRole(f, line) == RoleOf(f, line) <==> !Strays(f, line) && !Skips(f, line)
    ensures AfterRole(f, ScannedRole(f, line)) == AfterRole(f, RoleOf(f, line)) <==> !Strays(f, line)
  {
    hide FenceMarker, Opens, Closes, ClosesOddly, OpensOddly, PassesBy;
    match f
    case Outside => OutsideRoles(line);
    case Inside(c, len, info) => InsideRoles(line, c, len, info);
  }

  lemma ScannerSteps(lines: seq<string>, n: nat)
    requires n < |lines|
    ensures FenceBefore(lines, n + 1) == AfterRole(FenceBefore(lines, n), ScannedRole(FenceBefore(lines, n), lines[n]))
  {
    hide FenceMarker;
  }

  // ---- the document ----

  ghost predicate SameRoles(lines: seq<string>, n: nat)
    requires n <= |lines|
  {
    forall i :: 0 <= i < n ==> ScannedRole(FenceBefore(lines, i), lines[i]) == RoleOf(BlockBefore(lines, i), lines[i])
  }

  ghost predicate SameBlocks(lines: seq<string>, n: nat)
    requires n <= |lines|
  {
    forall i :: 0 <= i <= n ==> FenceBefore(lines, i) == BlockBefore(lines, i)
  }

  /** No fence of the first n lines is odd. */
  ghost predicate NoneStray(lines: seq<string>, n: nat)
    requires n <= |lines|
  {
    forall i :: 0 <= i < n ==> !Strays(BlockBefore(lines, i), lines[i])
  }

  ghost predicate NoneSkipped(lines: seq<string>, n: nat)
    requires n <= |lines|
  {
    forall i :: 0 <= i < n ==> !Skips(BlockBefore(lines, i), lines[i])
  }

  /** The scanner finds the blocks of section 4.5 exactly when no fence is odd. */
  lemma {:induction false} BlocksExactly(lines: seq<string>, n: nat)
    requires n <= |lines|
    ensures SameBlocks(lines, n) <==> NoneStray(lines, n)
  {
    hide FenceMarker, RoleOf, ScannedRole, Strays, Skips;
    if n > 0 {
      BlocksExactly(lines, n - 1);
      ScannerSteps(lines, n - 1);
      RolesExactly(BlockBefore(lines, n - 1), lines[n - 1]);
    }
  }

  /** It reads every line as section 4.5 does exactly when no fence is odd and none is passed by. */
  lemma {:induction false} ReadExactly(lines: seq<string>, n: nat)
    requires n <= |lines|
    ensures SameRoles(lines, n) <==> NoneStray(lines, n) && NoneSkipped(lines, n)
    ensures SameRoles(lines, n) ==> FenceBefore(lines, n) == BlockBefore(lines, n)
  {
    hide FenceMarker, RoleOf, ScannedRole, Strays, Skips;
    if n > 0 {
      ReadExactly(lines, n - 1);
      ScannerSteps(lines, n - 1);
      RolesExactly(BlockBefore(lines, n - 1), lines[n - 1]);
    }
  }

  // ---- references ----

  /** What a line of this role adds to the references, and the opening it leaves pending. */
  function Adds(pending: Option<Pending>, r: Role, line: string, no: nat): Found {
    match r
    case Prose => if TrimSpace(line) == "" then Found(Flush(pending), None) else WikiLine(line, no, pending)
    case Content(info) => Found(if info == "dot" then BareHashes(line, no, |line|) else [], pending)
    case _ => Found(Flush(pending), None)
  }

  function ScanAs(s: Scan, r: Role, line: string, no: nat): Scan {
    var a := Adds(s.pending, r, line, no);
    Scan(s.refs + a.refs, AfterRole(s.fence, r), a.pending)
  }

  lemma ScanByRole(s: Scan, line: string, no: nat)
    ensures ScanLine(s, line, no) == ScanAs(s, ScannedRole(s.fence, line), line, no)
  {
    hide FenceMarker, WikiLine, BareHashes, TrimSpace;
    assert s.refs + [] == s.refs;
  }

  /** The same scan with the blocks of section 4.5. */
  ghost function ReadTo(lines: seq<string>, n: nat): Scan
    requires n <= |lines|
  {
    if n == 0 then
      Scan([], Outside, None)
    else
      var s := ReadTo(lines, n - 1);
      ScanAs(s, RoleOf(s.fence, lines[n - 1]), lines[n - 1], n)
  }

  ghost function ReadOf(src: string): seq<LinkRef> {
    var s := ReadTo(Lines(src), |Lines(src)|);
    s.refs + Flush(s.pending)
  }

  lemma {:induction false} BlockFollows(lines: seq<string>, n: nat)
    requires n <= |lines|
    ensures ReadTo(lines, n).fence == BlockBefore(lines, n)
    ensures BlockBefore(lines, n).Inside? ==> ReadTo(lines, n).pending == None
  {
    hide RoleOf, Adds;
    if n > 0 {
      BlockFollows(lines, n - 1);
      PendingEnds(ReadTo(lines, n - 1).pending, BlockBefore(lines, n - 1), lines[n - 1], n);
    }
  }

  /** No opening is pending inside a block. */
  lemma PendingEnds(pending: Option<Pending>, f: Fence, line: string, no: nat)
    requires f.Inside? ==> pending.None?
    ensures var r := RoleOf(f, line); AfterRole(f, r).Inside? ==> Adds(pending, r, line, no).pending == None
  {
    hide WikiLine, BareHashes, TrimSpace, Opens, Closes;
  }

  /** A line of a dot block that the scanner passes by. */
  ghost predicate SkippedDot(lines: seq<string>, i: nat)
    requires i < |lines|
  {
    Skips(BlockBefore(lines, i), lines[i]) && BlockBefore(lines, i).info == "dot"
  }

  ghost predicate HoldsHash(line: string) {
    exists p: nat :: Standalone(line, p)
  }

  /** No line of the first n that the scanner passes by in a dot block holds a node id. */
  ghost predicate NothingLost(lines: seq<string>, n: nat)
    requires n <= |lines|
  {
    forall i :: 0 <= i < n && SkippedDot(lines, i) ==> !HoldsHash(lines[i])
  }

  lemma {:induction false} HashMember(line: string, no: nat, n: nat, r: LinkRef)
    requires n <= |line|
    ensures r in BareHashes(line, no, n) <==> exists p: nat :: p < n && Standalone(line, p) && r == DotRef(line, no, p)
  {
    if n > 0 {
      HashMember(line, no, n - 1, r);
      assert Standalone(line, n - 1) ==> r == DotRef(line, no, n - 1) || r in BareHashes(line, no, n - 1) || r !in BareHashes(line, no, n);
    }
  }

  lemma HashesHeld(line: string, no: nat)
    ensures BareHashes(line, no, |line|) == [] <==> !HoldsHash(line)
  {
    hide BareHashes;
    var found := BareHashes(line, no, |line|);
    if p: nat :| Standalone(line, p) {
      HashMember(line, no, |line|, DotRef(line, no, p));
      assert DotRef(line, no, p) in found;
    } else if found != [] {
      HashMember(line, no, |line|, found[0]);
    }
  }

  lemma SkippedRoles(f: Fence, line: string)
    requires Skips(f, line) && !Strays(f, line)
    ensures f.Inside? && ScannedRole(f, line) == Passed && RoleOf(f, line) == Content(f.info)
  {
    hide FenceMarker, Closes, ClosesOddly, PassesBy;
    InsideRoles(line, f.ch, f.len, f.info);
  }

  /** One line read from the same block: the same references, or those of a dot line the scanner passes by. */
  lemma LostStep(a: Scan, b: Scan, line: string, no: nat) returns (more: seq<LinkRef>)
    requires a.fence == b.fence && a.pending == b.pending && (a.fence.Inside? ==> a.pending.None?) && !Strays(a.fence, line)
    ensures var x, y := ScanLine(a, line, no), ScanAs(b, RoleOf(b.fence, line), line, no);
            && x.pending == y.pending
            && (if Skips(a.fence, line) then x.refs == a.refs && y.refs == b.refs + more else x.refs == a.refs + more && y.refs == b.refs + more)
    ensures Skips(a.fence, line) ==> a.fence.Inside? && (more != [] <==> a.fence.info == "dot" && HoldsHash(line))
  {
    hide ScanLine, ScannedRole, RoleOf, Strays, Skips, Adds, HoldsHash;
    var f := a.fence;
    ScanByRole(a, line, no);
    RolesExactly(f, line);
    more := Adds(b.pending, RoleOf(f, line), line, no).refs;
    if Skips(f, line) {
      SkippedRoles(f, line);
      HashesHeld(line, no);
      SkippedAdds(f, line, no);
      assert a.refs + [] == a.refs;
    }
  }

  /** Where the blocks agree, the scanner's references fall behind as soon as it passes by a node id. */
  lemma {:induction false} LostSoFar(lines: seq<string>, n: nat)
    requires n <= |lines| && SameBlocks(lines, |lines|)
    ensures var a, b := ScanTo(lines, n), ReadTo(lines, n);
            && a.pending == b.pending && |a.refs| <= |b.refs|
            && (if NothingLost(lines, n) then a.refs == b.refs else |a.refs| < |b.refs|)
  {
    hide ScanLine, ScanAs, RoleOf, Strays, Skips, ScanTo, ReadTo, HoldsHash, NoneStray, SameBlocks, BlockBefore, FenceBefore;
    ScanStep(lines, n);
    ReadStep(lines, n);
    if n > 0 {
      LostSoFar(lines, n - 1);
      FenceFollows(lines, n - 1);
      BlockFollows(lines, n - 1);
      SameBlockAt(lines, n - 1);
      var more := LostStep(ScanTo(lines, n - 1), ReadTo(lines, n - 1), lines[n - 1], n);
    }
  }

  lemma SameBlockAt(lines: seq<string>, i: nat)
    requires i < |lines| && SameBlocks(lines, |lines|)
    ensures FenceBefore(lines, i) == BlockBefore(lines, i) && !Strays(BlockBefore(lines, i), lines[i])
  {
    hide Strays, BlockBefore, FenceBefore;
    BlocksExactly(lines, |lines|);
  }

  lemma SkippedAdds(f: Fence, line: string, no: nat)
    requires f.Inside?
    ensures Adds(None, Passed, line, no) == Found([], None)
    ensures Adds(None, Content(f.info), line, no) == Found(if f.info == "dot" then BareHashes(line, no, |line|) else [], None)
  {
  }

  lemma ReadStep(lines: seq<string>, n: nat)
    requires n <= |lines|
    ensures ReadTo(lines, n) ==
            if n == 0 then Scan([], Outside, None)
            else ScanAs(ReadTo(lines, n - 1), RoleOf(ReadTo(lines, n - 1).fence, lines[n - 1]), lines[n - 1], n)
  {
    hide RoleOf, Adds;
  }

  /**
   Where no fence is odd, the scanner returns the references of section 4.5 exactly when no line it
   passes by in a dot block holds a node id.
   */
  lemma RefsExactly(src: string)
    requires NoneStray(Lines(src), |Lines(src)|)
    ensures ScanOf(src) == ReadOf(src) <==> NothingLost(Lines(src), |Lines(src)|)
  {
    hide ScanTo, ReadTo, NothingLost, Strays;
    var lines := Lines(src);
    BlocksExactly(lines, |lines|);
    LostSoFar(lines, |lines|);
  }

  // ---- the rename sweep ----

  /** Text of a dot block. */
  ghost predicate InDotBlock(lines: seq<string>, i: nat)
    requires i < |lines|
  {
    RoleOf(BlockBefore(lines, i), lines[i]) == Content("dot")
  }

  ghost predicate NamesOld(line: string, oldId: string) {
    Seen(line, oldId, |line|)
  }

  ghost predicate StaleAt(lines: seq<string>, oldId: string, i: nat)
    requires i < |lines|
  {
    InDotBlock(lines, i) && NamesOld(lines[i], oldId) && !InDot(lines, i)
  }

  /** Where the blocks agree, the dot lines of section 4.5 are the scanner's and those it passes by. */
  lemma DotLinesExactly(lines: seq<string>, i: nat)
    requires i < |lines| && NoneStray(lines, |lines|)
    ensures InDotBlock(lines, i) <==> InDot(lines, i) || SkippedDot(lines, i)
  {
    hide Strays, Skips, RoleOf, ScannedRole, FenceMarker;
    BlocksExactly(lines, |lines|);
    var f := BlockBefore(lines, i);
    RolesExactly(f, lines[i]);
    ContentExactly(f, lines[i]);
    if Skips(f, lines[i]) {
      SkippedRoles(f, lines[i]);
    }
  }

  lemma ContentExactly(f: Fence, line: string)
    ensures ScannedRole(f, line) == Content("dot") <==> FenceMarker(line).None? && f.Inside? && f.info == "dot"
  {
    hide FenceMarker;
  }

  lemma NamesMember(line: string, no: nat, t: string)
    ensures (exists r :: r in BareHashes(line, no, |line|) && r.target == t) <==> NamesOld(line, t)
  {
    hide BareHashes;
    if p: nat :| p < |line| && Names(line, t, p) {
      HashMember(line, no, |line|, DotRef(line, no, p));
      assert DotRef(line, no, p).target == t;
    }
    if r :| r in BareHashes(line, no, |line|) && r.target == t {
      HashMember(line, no, |line|, r);
      var p: nat :| p < |line| && Standalone(line, p) && r == DotRef(line, no, p);
      assert Names(line, t, p);
    }
  }

  ghost predicate DotTarget(refs: seq<LinkRef>, t: string) {
    exists r :: r in refs && r.kind == DotNode && r.target == t
  }

  lemma {:induction false} HashesAreDots(line: string, no: nat, n: nat)
    requires n <= |line|
    ensures forall r :: r in BareHashes(line, no, n) ==> r.kind == DotNode
  {
    if n > 0 {
      HashesAreDots(line, no, n - 1);
    }
  }

  lemma AddsTarget(pending: Option<Pending>, r: Role, line: string, no: nat, t: string)
    ensures DotTarget(Adds(pending, r, line, no).refs, t) <==> r == Content("dot") && NamesOld(line, t)
  {
    hide BareHashes, WikiLine, TrimSpace, NamesOld;
    NamesMember(line, no, t);
    HashesAreDots(line, no, |line|);
    WikiLineNoDots(line, no, pending);
  }

  /** The dot nodes read by section 4.5 are the ids its dot lines name. */
  lemma {:induction false} TargetsExactly(lines: seq<string>, n: nat, t: string)
    requires n <= |lines|
    ensures DotTarget(ReadTo(lines, n).refs, t) <==> exists i :: 0 <= i < n && InDotBlock(lines, i) && NamesOld(lines[i], t)
  {
    hide Adds, RoleOf, NamesOld, ReadTo;
    ReadStep(lines, n);
    if n > 0 {
      TargetsExactly(lines, n - 1, t);
      BlockFollows(lines, n - 1);
      AddsTarget(ReadTo(lines, n - 1).pending, RoleOf(BlockBefore(lines, n - 1), lines[n - 1]), lines[n - 1], n, t);
      assert ReadTo(lines, n).refs == ReadTo(lines, n - 1).refs + Adds(ReadTo(lines, n - 1).pending, RoleOf(BlockBefore(lines, n - 1), lines[n - 1]), lines[n - 1], n).refs;
    }
  }

  // ---- what the sweep leaves of the reading ----

  /** A line that is no fence plays the part its block gives it. */
  lemma PlainRole(f: Fence, line: string)
    requires FenceMarker(line).None?
    ensures RoleOf(f, line) == if f.Inside? then Content(f.info) else Prose
  {
    hide FenceMarker, IsFenceLine, OnlyBlanks, After;
    NoFence(line);
  }

  lemma SweptRole(lines: seq<string>, oldId: string, newId: string, out: seq<string>, i: nat, f: Fence)
    requires InvariantChecker.IsHash(oldId) && InvariantChecker.IsHash(newId) && i < |lines| == |out| && SweptLine(lines, oldId, newId, i, out[i])
    ensures RoleOf(f, out[i]) == RoleOf(f, lines[i])
  {
    hide FenceMarker, RoleOf, Repointed, Alike, FenceBefore;
    if InDot(lines, i) {
      RepointedAlike(lines[i], oldId, newId, out[i]);
      NoNewFence(lines[i], out[i]);
      PlainRole(f, lines[i]);
      PlainRole(f, out[i]);
    }
  }

  lemma SweptAt(lines: seq<string>, oldId: string, newId: string, out: seq<string>, i: nat)
    requires Swept(lines, oldId, newId, out) && i < |lines|
    ensures |out| == |lines| && SweptLine(lines, oldId, newId, i, out[i])
  {
  }

  lemma {:induction false} SweptBlocks(lines: seq<string>, oldId: string, newId: string, out: seq<string>, n: nat)
    requires InvariantChecker.IsHash(oldId) && InvariantChecker.IsHash(newId) && Swept(lines, oldId, newId, out) && n <= |lines| == |out|
    ensures BlockBefore(out, n) == BlockBefore(lines, n)
  {
    hide SweptLine, RoleOf, Swept;
    if n > 0 {
      SweptBlocks(lines, oldId, newId, out, n - 1);
      SweptAt(lines, oldId, newId, out, n - 1);
      SweptRole(lines, oldId, newId, out, n - 1, BlockBefore(lines, n - 1));
    }
  }

  /** The old id is gone from every line the sweep takes for a dot line, and stands where it stood in all others. */
  lemma NamesAfter(lines: seq<string>, oldId: string, newId: string, out: seq<string>, i: nat)
    requires InvariantChecker.IsHash(oldId) && InvariantChecker.IsHash(newId) && oldId != newId
    requires i < |lines| == |out| && SweptLine(lines, oldId, newId, i, out[i])
    ensures NamesOld(out[i], oldId) <==> NamesOld(lines[i], oldId) && !InDot(lines, i)
  {
    hide InDot, Repointed, Alike;
    if InDot(lines, i) {
      RepointedAlike(lines[i], oldId, newId, out[i]);
      forall p: nat
        ensures !Names(out[i], oldId, p)
      {
        AlikeStandalone(lines[i], out[i], p);
        if Standalone(lines[i], p) {
          TokenAfter(lines[i], oldId, newId, out[i], p);
        }
      }
    }
  }

  /**
   After the sweep section 4.5 still reads a dot node with the old id exactly when some dot line of
   the document named it and is not one the sweep takes for a dot line.
   */
  lemma StaleExactly(data: string, oldId: string, newId: string, out: string)
    requires InvariantChecker.IsHash(oldId) && InvariantChecker.IsHash(newId) && oldId != newId && Swept(Lines(data), oldId, newId, Lines(out))
    ensures DotTarget(ReadOf(out), oldId) <==> exists i :: 0 <= i < |Lines(data)| && StaleAt(Lines(data), oldId, i)
  {
    hide InvariantChecker.IsHash, Swept, SweptLine, NamesOld, RoleOf, InDot, ReadTo, Lines;
    var lines, after := Lines(data), Lines(out);
    SweptCount(lines, oldId, newId, after);
    TargetsExactly(after, |after|, oldId);
    forall i | 0 <= i < |lines|
      ensures InDotBlock(after, i) && NamesOld(after[i], oldId) <==> StaleAt(lines, oldId, i)
    {
      SweptAt(lines, oldId, newId, after, i);
      SweptBlocks(lines, oldId, newId, after, i);
      SweptRole(lines, oldId, newId, after, i, BlockBefore(lines, i));
      NamesAfter(lines, oldId, newId, after, i);
    }
    TargetFlush(ReadTo(after, |after|), oldId);
  }

  lemma TargetFlush(s: Scan, t: string)
    ensures DotTarget(s.refs + Flush(s.pending), t) <==> DotTarget(s.refs, t)
  {
    var all := s.refs + Flush(s.pending);
    if DotTarget(s.refs, t) {
      var r :| r in s.refs && r.kind == DotNode && r.target == t;
      assert r in all;
    }
  }

  /** The sweep changes ordinary text: a line that names the old id, of a dot block to the sweep and of none by section 4.5. */
  ghost predicate ProseSwept(lines: seq<string>, oldId: string, i: nat)
    requires i < |lines|
  {
    InDot(lines, i) && NamesOld(lines[i], oldId) && BlockBefore(lines, i).Outside?
  }

  lemma Unnamed(line: string, oldId: string, newId: string, out: string)
    requires Repointed(line, oldId, newId, out) && !NamesOld(line, oldId)
    ensures out == line
  {
    forall k: nat | k < |line|
      ensures out[k] == line[k]
    {
      forall p: nat
        ensures !Covers(line, oldId, p, k)
      {
      }
      assert !Covered(line, oldId, k);
    }
  }

  lemma AlikeItself(line: string)
    ensures Alike(line, line)
  {
  }

  lemma AddsNoDots(pending: Option<Pending>, r: Role, line: string, no: nat)
    ensures r == Content("dot") || NoDots(Adds(pending, r, line, no).refs)
  {
    hide WikiLine, BareHashes, TrimSpace;
    WikiLineNoDots(line, no, pending);
  }

  /** Where the line stays as it is and names nothing that has to change, neither do its references. */
  lemma AddsUnchanged(pending: Option<Pending>, r: Role, line: string, no: nat, oldId: string, newId: string)
    requires InvariantChecker.IsHash(oldId) && InvariantChecker.IsHash(newId) && (r == Content("dot") ==> !NamesOld(line, oldId))
    ensures SwapRefs(oldId, newId, Adds(pending, r, line, no).refs) == Adds(pending, r, line, no).refs
  {
    hide WikiLine, BareHashes, TrimSpace, NoDots, InvariantChecker.IsHash, Repointed, Alike, SwapRefs;
    AddsNoDots(pending, r, line, no);
    if r == Content("dot") {
      NothingNamed(line, oldId, newId);
      AlikeItself(line);
      HashesAfter(line, oldId, newId, line, no, |line|);
    } else {
      SwapNothing(oldId, newId, Adds(pending, r, line, no).refs);
    }
  }

  lemma AddsSwapped(pending: Option<Pending>, info: string, line: string, no: nat, oldId: string, newId: string, out: string)
    requires InvariantChecker.IsHash(oldId) && InvariantChecker.IsHash(newId) && Repointed(line, oldId, newId, out)
    ensures var r := Content(info);
            Adds(pending, r, out, no) == Found(SwapRefs(oldId, newId, Adds(pending, r, line, no).refs), Adds(pending, r, line, no).pending)
  {
    hide BareHashes, InvariantChecker.IsHash, Repointed, Alike;
    RepointedAlike(line, oldId, newId, out);
    SameLength(line, out);
    HashesAfter(line, oldId, newId, out, no, |line|);
  }

  lemma LineAgrees(lines: seq<string>, oldId: string, newId: string, out: seq<string>, i: nat, pending: Option<Pending>)
    requires InvariantChecker.IsHash(oldId) && InvariantChecker.IsHash(newId) && Swept(lines, oldId, newId, out) && i < |lines| == |out|
    requires !StaleAt(lines, oldId, i) && !ProseSwept(lines, oldId, i)
    ensures var r := RoleOf(BlockBefore(lines, i), lines[i]);
            Adds(pending, r, out[i], i + 1) == Found(SwapRefs(oldId, newId, Adds(pending, r, lines[i], i + 1).refs), Adds(pending, r, lines[i], i + 1).pending)
  {
    hide Adds, InvariantChecker.IsHash, Repointed, RoleOf, NamesOld, SwapRefs, FenceMarker, FenceBefore, BlockBefore, Swept;
    SweptAt(lines, oldId, newId, out, i);
    var f := BlockBefore(lines, i);
    if InDot(lines, i) && NamesOld(lines[i], oldId) {
      PlainRole(f, lines[i]);
      AddsSwapped(pending, f.info, lines[i], i + 1, oldId, newId, out[i]);
    } else {
      if InDot(lines, i) {
        Unnamed(lines[i], oldId, newId, out[i]);
      }
      AddsUnchanged(pending, RoleOf(f, lines[i]), lines[i], i + 1, oldId, newId);
    }
  }

  ghost predicate NothingStale(lines: seq<string>, oldId: string) {
    forall i :: 0 <= i < |lines| ==> !StaleAt(lines, oldId, i)
  }

  ghost predicate NoProseSwept(lines: seq<string>, oldId: string) {
    forall i :: 0 <= i < |lines| ==> !ProseSwept(lines, oldId, i)
  }

  lemma {:induction false} ReadAfter(lines: seq<string>, oldId: string, newId: string, out: seq<string>, n: nat)
    requires InvariantChecker.IsHash(oldId) && InvariantChecker.IsHash(newId) && Swept(lines, oldId, newId, out) && n <= |lines| == |out|
    requires NothingStale(lines, oldId) && NoProseSwept(lines, oldId)
    ensures ReadTo(out, n) == ReadTo(lines, n).(refs := SwapRefs(oldId, newId, ReadTo(lines, n).refs))
  {
    hide Adds, InvariantChecker.IsHash, Swept, SweptLine, RoleOf, StaleAt, ProseSwept, ReadTo, SwapRefs, BlockBefore;
    ReadStep(lines, n);
    ReadStep(out, n);
    if n == 0 {
      SwapNothing(oldId, newId, []);
    } else {
      ReadAfter(lines, oldId, newId, out, n - 1);
      BlockFollows(lines, n - 1);
      var s, r := ReadTo(lines, n - 1), RoleOf(BlockBefore(lines, n - 1), lines[n - 1]);
      SweptAt(lines, oldId, newId, out, n - 1);
      SweptRole(lines, oldId, newId, out, n - 1, s.fence);
      LineAgrees(lines, oldId, newId, out, n - 1, s.pending);
      SwapConcat(oldId, newId, s.refs, Adds(s.pending, r, lines[n - 1], n).refs);
    }
  }

  lemma ReadEnds(data: string, oldId: string, newId: string, out: string)
    requires InvariantChecker.IsHash(oldId) && InvariantChecker.IsHash(newId) && Swept(Lines(data), oldId, newId, Lines(out))
    requires NothingStale(Lines(data), oldId) && NoProseSwept(Lines(data), oldId)
    ensures ReadOf(out) == SwapRefs(oldId, newId, ReadOf(data))
  {
    hide InvariantChecker.IsHash, Swept, ReadTo, NothingStale, NoProseSwept;
    var lines := Lines(data);
    SweptCount(lines, oldId, newId, Lines(out));
    ReadAfter(lines, oldId, newId, Lines(out), |lines|);
    var s := ReadTo(lines, |lines|);
    SwapConcat(oldId, newId, s.refs, Flush(s.pending));
    SwapNothing(oldId, newId, Flush(s.pending));
  }

  /** References with the old id replaced name it no more. */
  lemma SwappedTargets(oldId: string, newId: string, refs: seq<LinkRef>)
    requires oldId != newId
    ensures !DotTarget(SwapRefs(oldId, newId, refs), oldId)
  {
    forall r | r in SwapRefs(oldId, newId, refs)
      ensures !(r.kind == DotNode && r.target == oldId)
    {
      var i :| 0 <= i < |refs| && r == SwapRef(oldId, newId, refs[i]);
    }
  }

  /**
   Rewriter and section 4.5: unless the sweep changes ordinary text, the swept document reads as the
   original with the old id replaced in dot nodes exactly when every dot line that names it is one the
   sweep takes for a dot line.
   */
  lemma AgreesExactly(data: string, oldId: string, newId: string, out: string)
    requires InvariantChecker.IsHash(oldId) && InvariantChecker.IsHash(newId) && oldId != newId && Swept(Lines(data), oldId, newId, Lines(out))
    requires NoProseSwept(Lines(data), oldId)
    ensures ReadOf(out) == SwapRefs(oldId, newId, ReadOf(data)) <==> NothingStale(Lines(data), oldId)
  {
    hide InvariantChecker.IsHash, Swept, ReadOf, StaleAt, NoProseSwept, DotTarget, SwapRefs;
    StaleExactly(data, oldId, newId, out);
    SwappedTargets(oldId, newId, ReadOf(data));
    if NothingStale(Lines(data), oldId) {
      ReadEnds(data, oldId, newId, out);
    }
  }

  /** Without an odd fence the sweep changes no ordinary text, and what it misses stands on lines it passes by. */
  lemma PlainSweep(data: string, oldId: string)
    requires NoneStray(Lines(data), |Lines(data)|)
    ensures NoProseSwept(Lines(data), oldId)
    ensures NothingStale(Lines(data), oldId) <==>
            forall i :: 0 <= i < |Lines(data)| && SkippedDot(Lines(data), i) ==> !NamesOld(Lines(data)[i], oldId)
  {
    hide Strays, RoleOf, NamesOld, FenceMarker, BlockBefore, FenceBefore, Skips;
    var lines := Lines(data);
    BlocksExactly(lines, |lines|);
    forall i | 0 <= i < |lines|
      ensures !ProseSwept(lines, oldId, i) && (StaleAt(lines, oldId, i) <==> SkippedDot(lines, i) && NamesOld(lines[i], oldId))
    {
      DotLinesExactly(lines, i);
      SkippedNoFence(lines, i);
    }
  }

  /** A line passed by is a fence, which no dot line of the sweep is. */
  lemma SkippedNoFence(lines: seq<string>, i: nat)
    requires i < |lines|
    ensures !(SkippedDot(lines, i) && InDot(lines, i))
  {
    hide IsFenceLine, FenceMarker;
    if FenceMarker(lines[i]).None? {
      NoFence(lines[i]);
    }
  }

  // ---- the three departures, each on a document ----

  const ID := "3f9a1c7b2e04"

  lemma IdIsHash()
    ensures InvariantChecker.IsHash(ID)
  {
  }

  /** A fence without indentation, taken apart. */
  lemma FenceAt(line: string, c: char, n: nat)
    requires IsFenceLine(line, c, 0, n) && Bare(line) == line
    ensures FenceMarker(line) == Some(Marker(c, n, FirstWord(TrimSpace(line[n..]))))
    ensures RoleOf(Outside, line) == Opening(Inside(c, n, Word(line[n..])))
    ensures forall d, len: nat :: Closes(line, d, len) <==> d == c && n >= len && OnlyBlanks(line[n..])
  {
    hide FenceMarker, IsFenceLine, TrimSpace, FirstWord, Word, OnlyBlanks;
    MarkerOf(line, c, 0, n);
    FenceFits(line, c, 0, n);
    assert OpensAt(line, Inside(c, n, Word(line[n..])), 0);
    assert Opens(line, Inside(c, n, Word(line[n..])));
    forall g | Opens(line, g)
      ensures g == Inside(c, n, Word(line[n..]))
    {
      OpensOnce(line, Inside(c, n, Word(line[n..])), g);
    }
    forall d, len: nat
      ensures Closes(line, d, len) <==> d == c && n >= len && OnlyBlanks(line[n..])
    {
      if d == c && n >= len && OnlyBlanks(line[n..]) {
        assert ClosesAt(line, c, len, 0, n);
      }
      if q: nat, m: nat :| ClosesAt(line, d, len, q, m) {
        FenceOnce(line, c, 0, n, d, q, m);
      }
    }
  }

  /** A word that ends the line. */
  lemma WordIs(s: string)
    requires s != "" && forall i :: 0 <= i < |s| ==> !IsSpace(s[i])
    ensures TrimSpace(s) == s && FirstWord(s) == s && Word(s) == s
  {
    hide FirstWord;
    TrimLeftIs(s, Spaces(), 0);
    TrimLeftIs(s, BlankOrTab(), 0);
    FirstWordIs(s, |s|);
    assert s[0..] == s && s[..|s|] == s;
    assert !Spaces()(s[|s| - 1]);
  }

  lemma OpeningDot()
    ensures FenceMarker("```dot") == Some(Marker('`', 3, "dot")) && RoleOf(Outside, "```dot") == Opening(Inside('`', 3, "dot"))
  {
    hide TrimSpace, FirstWord, Word, RoleOf;
    var line := "```dot";
    FenceAt(line, '`', 3);
    WordIs("dot");
    assert line[3..] == "dot";
  }

  lemma TwoBlocks(lines: seq<string>)
    requires |lines| >= 2 && lines[0] == "```dot"
    ensures FenceBefore(lines, 1) == BlockBefore(lines, 1) == Inside('`', 3, "dot")
  {
    hide FenceMarker, RoleOf;
    OpeningDot();
    assert FenceBefore(lines, 0) == Outside && BlockBefore(lines, 0) == Outside;
    ScannerSteps(lines, 0);
  }

  lemma OdditiesAt(line: string, c: char, n: nat)
    requires IsFenceLine(line, c, 0, n) && Bare(line) == line
    ensures OpensOddly(line) <==> OddInfo(line[n..])
    ensures forall d, len: nat :: ClosesOddly(line, d, len) <==> d == c && n >= len && AllSpaces(line[n..]) && !OnlyBlanks(line[n..])
    ensures forall d, len: nat :: PassesBy(line, d, len) <==> !(d == c && n >= len && AllSpaces(line[n..]))
  {
    hide IsFenceLine, OddInfo, AllSpaces, OnlyBlanks;
    FenceFits(line, c, 0, n);
    forall d, q: nat, m: nat | IsFenceLine(line, d, q, m)
      ensures d == c && q == 0 && m == n
    {
      FenceOnce(line, c, 0, n, d, q, m);
    }
    assert IsFenceLine(Bare(line), c, 0, n);
  }

  lemma PlainDot()
    ensures !OpensOddly("```dot")
  {
    var line := "```dot";
    OdditiesAt(line, '`', 3);
    WordIs("dot");
    assert line[3..] == "dot";
  }

  /** A closing fence. */
  lemma ClosingFence()
    ensures FenceMarker("```") == Some(Marker('`', 3, "")) && RoleOf(Inside('`', 3, "dot"), "```") == Closing && !ClosesOddly("```", '`', 3)
  {
    hide TrimSpace, FirstWord, Word;
    var line := "```";
    FenceAt(line, '`', 3);
    OdditiesAt(line, '`', 3);
    assert line[3..] == "";
    AllSpace("");
    NoWord();
  }

  lemma PassedByFence()
    ensures var line, f := "~~~ " + ID, Inside('`', 3, "dot");
            FenceMarker(line).Some? && RoleOf(f, line) == Content("dot") && !Strays(f, line) && Skips(f, line)
  {
    hide TrimSpace, FirstWord, Word, AllSpaces, OnlyBlanks, PassesBy, ClosesOddly;
    var line := "~~~ " + ID;
    FenceAt(line, '~', 3);
    OdditiesAt(line, '~', 3);
  }

  lemma IdNamed(before: string)
    requires before == "" || !IsWordChar(before[|before| - 1])
    ensures NamesOld(before + ID, ID) && HoldsHash(before + ID)
  {
    var line := before + ID;
    IdIsHash();
    assert line[|before|..|before| + 12] == ID;
    assert Names(line, ID, |before|);
  }

  /** A fence of the other character inside a dot block: section 4.5 reads a dot node, the scanner and the sweep pass by. */
  lemma PassedByExample()
    ensures var lines := ["```dot", "~~~ " + ID, "```"];
            NoneStray(lines, 3) && SkippedDot(lines, 1) && HoldsHash(lines[1]) && StaleAt(lines, ID, 1)
    ensures var src := Join(["```dot", "~~~ " + ID, "```"]); ScanOf(src) != ReadOf(src)
  {
    hide FenceMarker, RoleOf, NamesOld, HoldsHash, Strays, Skips, ScanOf, ReadOf, Join;
    var lines := ["```dot", "~~~ " + ID, "```"];
    TwoBlocks(lines);
    PassedByFence();
    IdNamed("~~~ ");
    ClosingFence();
    PlainDot();
    StraysAre(Inside('`', 3, "dot"), "```");
    assert BlockBefore(lines, 2) == Inside('`', 3, "dot");
    LinesJoin(lines);
    RefsExactly(Join(lines));
    assert !NothingLost(lines, 3);
  }

  lemma StraysAre(f: Fence, line: string)
    ensures Strays(f, line) == if f.Outside? then OpensOddly(line) else ClosesOddly(line, f.ch, f.len)
    ensures Strays(Outside, "```dot") == OpensOddly("```dot")
  {
  }

  /** A no-break space after a closing fence: the block goes on by section 4.5 and ends for the scanner and the sweep. */
  lemma ClosedOddlyExample()
    ensures var lines := ["```dot", "```\U{00A0}", ID];
            Strays(BlockBefore(lines, 1), lines[1]) && FenceBefore(lines, 2) == Outside && StaleAt(lines, ID, 2)
  {
    hide FenceMarker, RoleOf, NamesOld;
    var lines := ["```dot", "```\U{00A0}", ID];
    TwoBlocks(lines);
    ClosedOddly();
    IdNamed("");
    assert "" + ID == ID;
    ScannerSteps(lines, 1);
    assert BlockBefore(lines, 2) == Inside('`', 3, "dot");
    IdNoFence();
    PlainRole(Inside('`', 3, "dot"), ID);
  }

  lemma ClosedOddly()
    ensures var line, f := "```\U{00A0}", Inside('`', 3, "dot");
            ClosesOddly(line, '`', 3) && RoleOf(f, line) == Content("dot") && ScannedRole(f, line) == Closing
  {
    hide FenceMarker;
    var line := "```\U{00A0}";
    FenceAt(line, '`', 3);
    OdditiesAt(line, '`', 3);
    assert line[3..] == "\U{00A0}";
    assert !OnlyBlanks(line[3..]) && AllSpaces(line[3..]);
    InsideRoles(line, '`', 3, "dot");
  }

  lemma IdNoFence()
    ensures FenceMarker(ID).None?
  {
    hide FenceMarker;
    FenceExactly(ID);
    forall c, p: nat, n: nat
      ensures !IsFenceLine(ID, c, p, n)
    {
      assert ID[0] == '3';
    }
  }

  /** A no-break space after the language: no dot block by section 4.5, a dot block for the scanner and the sweep. */
  lemma OpenedOddlyExample()
    ensures var lines := ["```dot\U{00A0}", ID];
            Strays(BlockBefore(lines, 0), lines[0]) && InDot(lines, 1) && !InDotBlock(lines, 1)
  {
    hide FenceMarker, RoleOf;
    var lines := ["```dot\U{00A0}", ID];
    assert FenceBefore(lines, 0) == Outside && BlockBefore(lines, 0) == Outside;
    OpenedOddly();
    ScannerSteps(lines, 0);
    IdNoFence();
    PlainRole(BlockBefore(lines, 1), ID);
  }

  lemma OpenedOddly()
    ensures var line := "```dot\U{00A0}";
            OpensOddly(line) && RoleOf(Outside, line) == Opening(Inside('`', 3, "dot\U{00A0}")) && ScannedRole(Outside, line) == Opening(Inside('`', 3, "dot"))
  {
    hide FenceMarker, TrimSpace, FirstWord, Word;
    var line := "```dot\U{00A0}";
    FenceAt(line, '`', 3);
    OdditiesAt(line, '`', 3);
    var info := line[3..];
    assert info == "dot\U{00A0}";
    OddWord();
  }

  lemma OddWord()
    ensures var info := "dot\U{00A0}"; Word(info) == info && OddInfo(info) && FirstWord(TrimSpace(info)) == "dot"
  {
    hide FirstWord, IsSpace;
    var info := "dot\U{00A0}";
    TrimLeftIs(info, BlankOrTab(), 0);
    assert info[0..] == info && info[..4] == info;
    FirstWordIs(info, 4);
    DotTrimmed();
    FirstWordIs("dot", 3);
    assert "dot"[..3] == "dot";
    assert info[|info|..] == "";
    NoBreakSpace();
  }

  lemma NoBreakSpace()
    ensures IsSpace('\U{00A0}') && !IsSpace('d') && !IsSpace('t')
  {
  }

  lemma DotTrimmed()
    ensures TrimSpace("dot\U{00A0}") == "dot"
  {
    hide IsSpace;
    NoBreakSpace();
    var info := "dot\U{00A0}";
    TrimLeftIs(info, Spaces(), 0);
    assert info[0..] == info && info[..3] == "dot" && info[3] == '\U{00A0}';
    assert Spaces()(info[3]) && !Spaces()("dot"[2]);
  }
}
