/**
 What a scan of a document finds, said by positions: where references stand, how far a link
 runs, and what each reference holds.  Which lines are prose and which are text of a block is
 given; the laws hold for the scanner's own reading and for that of section 4.5 of CommonMark.
 */
module LinkLaws {
  import opened Results
  import opened Text
  import Bags
  import opened MarkdownScanner
  import opened CommonMark
  import opened LineByLine
  import N = NodeRenamer
  import opened InvariantChecker

  datatype Place = Place(line: nat, col: nat)

  predicate Before(p: Place, q: Place) {
    p.line < q.line || (p.line == q.line && p.col < q.col)
  }

  // ---- what stands where ----

  predicate OpensLink(line: string, x: int) {
    0 <= x && x + 1 < |line| && line[x] == '[' && line[x + 1] == '['
  }

  predicate ClosesLink(line: string, x: int) {
    0 <= x && x + 1 < |line| && line[x] == ']' && line[x + 1] == ']'
  }

  /** Twelve lower-case hex digits with no letter, digit or underscore on either side. */
  ghost predicate Token(line: string, x: int) {
    && 0 <= x && x + 12 <= |line| && (forall i :: x <= i < x + 12 ==> '0' <= line[i] <= '9' || 'a' <= line[i] <= 'f')
    && (x > 0 ==> !InWord(line[x - 1])) && (x + 12 < |line| ==> !InWord(line[x + 12]))
  }

  predicate InWord(c: char) {
    'a' <= c <= 'z' || 'A' <= c <= 'Z' || '0' <= c <= '9' || c == '_'
  }

  /** A line of prose that holds more than white space. */
  ghost predicate Written(lines: seq<string>, roles: seq<Role>, i: int) {
    0 <= i < |lines| && i < |roles| && roles[i] == Prose && exists k :: 0 <= k < |lines[i]| && !IsSpace(lines[i][k])
  }

  ghost predicate DotLine(lines: seq<string>, roles: seq<Role>, i: int) {
    0 <= i < |lines| && i < |roles| && roles[i] == Content("dot")
  }

  ghost predicate Opened(lines: seq<string>, roles: seq<Role>, p: Place) {
    Written(lines, roles, p.line) && OpensLink(lines[p.line], p.col)
  }

  // ---- how far an opening runs ----

  /** Nothing on the rest of its line closes it. */
  ghost predicate LeftOpen(lines: seq<string>, p: Place) {
    p.line < |lines| && forall x :: x >= p.col + 2 ==> !ClosesLink(lines[p.line], x)
  }

  /** It is still open after line m: the lines since are prose and hold no brackets. */
  ghost predicate Running(lines: seq<string>, roles: seq<Role>, p: Place, m: int) {
    && p.line <= m < |lines| && LeftOpen(lines, p)
    && forall k :: p.line < k <= m ==> Written(lines, roles, k) && NoBrackets(lines[k])
  }

  ghost predicate NoBrackets(line: string) {
    forall x :: !OpensLink(line, x) && !ClosesLink(line, x)
  }

  /** The first brackets after it, which close it; they stand on its line or on a later one of the same paragraph. */
  ghost predicate ClosedAt(lines: seq<string>, roles: seq<Role>, p: Place, j: int, d: int) {
    && Opened(lines, roles, p) && 0 <= j < |lines| && ClosesLink(lines[j], d)
    && if j == p.line then d >= p.col + 2 && forall x :: p.col + 2 <= x < d ==> !ClosesLink(lines[j], x)
       else
         && p.line < j && Running(lines, roles, p, j - 1) && Written(lines, roles, j)
         && forall x :: x < d ==> !OpensLink(lines[j], x) && !ClosesLink(lines[j], x)
  }

  /** It stays open after line e and ends there: the paragraph does, or another opening follows first. */
  ghost predicate DanglesAt(lines: seq<string>, roles: seq<Role>, p: Place, e: int) {
    && Opened(lines, roles, p) && Running(lines, roles, p, e)
    && (Written(lines, roles, e + 1) ==> OpensFirst(lines[e + 1]))
  }

  /** The line opens a link before it closes one. */
  ghost predicate OpensFirst(line: string) {
    exists o :: OpensLink(line, o) && forall x :: 0 <= x < o ==> !ClosesLink(line, x)
  }

  // ---- what is read ----

  /** t is s without the white space around it. */
  ghost predicate Stripped(s: string, t: string) {
    exists a, b :: 0 <= a <= b <= |s| && t == s[a..b] && (forall i :: 0 <= i < a || b <= i < |s| ==> IsSpace(s[i]))
                   && (a < b ==> !IsSpace(s[a]) && !IsSpace(s[b - 1]))
  }

  /** t is s without the spaces and tabs before it. */
  ghost predicate Unindented(s: string, t: string) {
    exists a :: 0 <= a <= |s| && t == s[a..] && (forall i :: 0 <= i < a ==> s[i] == ' ' || s[i] == '\t')
                && (a < |s| ==> s[a] != ' ' && s[a] != '\t')
  }

  /** The text of an opening up to the end of line m: each line break reads as one space. */
  ghost predicate Reads(lines: seq<string>, p: Place, m: int, text: string)
    decreases m
  {
    if m == p.line then m < |lines| && p.col + 2 <= |lines[m]| && text == lines[m][p.col + 2..]
    else p.line < m < |lines| && exists before, t :: Reads(lines, p, m - 1, before) && Stripped(lines[m], t) && text == before + " " + t
  }

  ghost predicate ReadsTo(lines: seq<string>, p: Place, j: int, d: int, text: string) {
    if j == p.line then j < |lines| && p.col + 2 <= d <= |lines[j]| && text == lines[j][p.col + 2..d]
    else
      p.line < j < |lines| && 0 <= d <= |lines[j]|
      && exists before, t :: Reads(lines, p, j - 1, before) && Unindented(lines[j][..d], t) && text == before + " " + t
  }

  /** The first bar parts target and display text. */
  ghost predicate LinkSays(r: LinkRef, text: string) {
    && r.kind == Wiki && r.raw == "[[" + text + "]]"
    && (r.hasDisplay <==> '|' in text)
    && (if '|' in text then
          exists k :: 0 <= k < |text| && text[k] == '|' && '|' !in text[..k] && Stripped(text[..k], r.target) && Stripped(text[k + 1..], r.display)
        else Stripped(text, r.target) && r.display == "")
  }

  ghost predicate OpenSays(r: LinkRef, text: string) {
    && r.kind == Unterminated && r.target == "" && r.display == "" && !r.hasDisplay
    && r.raw == "[[" + if |text| <= 48 then text else text[..48] + "\U{2026}"
  }

  /** What a reference at p holds. */
  ghost predicate RefSays(lines: seq<string>, roles: seq<Role>, p: Place, r: LinkRef) {
    && r.line == p.line + 1
    && if DotLine(lines, roles, p.line) then
         && Token(lines[p.line], p.col) && r.kind == DotNode && r.display == "" && !r.hasDisplay
         && r.raw == lines[p.line][p.col..p.col + 12] && r.target == lines[p.line][p.col..p.col + 12]
       else
         || (exists j, d, text :: ClosedAt(lines, roles, p, j, d) && ReadsTo(lines, p, j, d, text) && LinkSays(r, text))
         || (exists e, text :: DanglesAt(lines, roles, p, e) && Reads(lines, p, e, text) && OpenSays(r, text))
  }

  // ---- which places count ----

  ghost predicate Marked(lines: seq<string>, roles: seq<Role>, p: Place) {
    Opened(lines, roles, p) || (DotLine(lines, roles, p.line) && Token(lines[p.line], p.col))
  }

  /** q stands inside what p opened. */
  ghost predicate Covers(lines: seq<string>, roles: seq<Role>, p: Place, q: Place) {
    && Before(p, q) && Opened(lines, roles, p)
    && ((q.line == p.line && LeftOpen(lines, p)) || exists j: nat, d: nat :: ClosedAt(lines, roles, p, j, d) && Before(q, Place(j, d)))
  }

  ghost predicate Uncovered(lines: seq<string>, roles: seq<Role>, at: seq<Place>, q: Place) {
    forall p :: p in at ==> !Covers(lines, roles, p, q)
  }

  ghost predicate InOrder(at: seq<Place>) {
    forall i, j :: 0 <= i < j < |at| ==> Before(at[i], at[j])
  }

  /** The marked places of the first n lines that no earlier one of them covers. */
  ghost predicate Places(lines: seq<string>, roles: seq<Role>, at: seq<Place>, n: nat) {
    && InOrder(at)
    && forall q {:trigger q in at} :: q in at <==> q.line < n && Marked(lines, roles, q) && Uncovered(lines, roles, at, q)
  }

  /** One reference for each such place, in order. */
  ghost predicate ScanSays(lines: seq<string>, roles: seq<Role>, refs: seq<LinkRef>) {
    exists at :: |at| == |refs| && Places(lines, roles, at, |lines|) && forall k :: 0 <= k < |at| ==> RefSays(lines, roles, at[k], refs[k])
  }

  // ---- text ----

  lemma StrippedExactly(s: string)
    ensures Stripped(s, TrimSpace(s))
  {
    hide IsSpace, TrimLeft, TrimRight;
    var left := TrimLeft(s, Spaces());
    var a := TrimLeftFacts(s, Spaces());
    var e := TrimRightFacts(left, Spaces());
    var b := a + e;
    assert TrimSpace(s) == s[a..b];
    forall i | 0 <= i < a || b <= i < |s|
      ensures IsSpace(s[i])
    {
      if i < a {
        assert Spaces()(s[i]);
      } else {
        assert Spaces()(left[i - a]);
      }
    }
    assert a < |s| ==> !Spaces()(s[a]);
    assert e > 0 ==> !Spaces()(left[e - 1]) && left[e - 1] == s[b - 1];
  }

  lemma UnindentedExactly(s: string)
    ensures Unindented(s, TrimLeft(s, BlankOrTab()))
  {
    hide TrimLeft;
    var a := TrimLeftFacts(s, BlankOrTab());
    forall i | 0 <= i < a
      ensures s[i] == ' ' || s[i] == '\t'
    {
      assert BlankOrTab()(s[i]);
    }
    assert a < |s| ==> !BlankOrTab()(s[a]);
  }

  lemma BlankExactly(s: string)
    ensures TrimSpace(s) == "" <==> forall k :: 0 <= k < |s| ==> IsSpace(s[k])
  {
    hide IsSpace, TrimSpace;
    StrippedExactly(s);
    var a, b :| 0 <= a <= b <= |s| && TrimSpace(s) == s[a..b] && (forall i :: 0 <= i < a || b <= i < |s| ==> IsSpace(s[i]))
                && (a < b ==> !IsSpace(s[a]) && !IsSpace(s[b - 1]));
  }

  lemma OpensExactly(line: string, x: nat)
    ensures At(line, "[[", x) <==> OpensLink(line, x)
    ensures At(line, "]]", x) <==> ClosesLink(line, x)
  {
  }

  /** Where the first opening or closing brackets stand. */
  lemma FirstOpening(line: string, from: nat)
    requires from <= |line|
    ensures match Find(line, "[[", from)
            case Some(o) => from <= o && o + 2 <= |line| && OpensLink(line, o) && forall x :: from <= x < o ==> !OpensLink(line, x)
            case None => forall x :: from <= x ==> !OpensLink(line, x)
  {
    hide Find, At;
    FindFacts(line, "[[", from);
    forall x: nat
      ensures At(line, "[[", x) <==> OpensLink(line, x)
    {
      OpensExactly(line, x);
    }
  }

  lemma FirstClosing(line: string, from: nat)
    requires from <= |line|
    ensures match Find(line, "]]", from)
            case Some(d) => from <= d && d + 2 <= |line| && ClosesLink(line, d) && forall x :: from <= x < d ==> !ClosesLink(line, x)
            case None => forall x :: from <= x ==> !ClosesLink(line, x)
  {
    hide Find, At;
    FindFacts(line, "]]", from);
    forall x: nat
      ensures At(line, "]]", x) <==> ClosesLink(line, x)
    {
      OpensExactly(line, x);
    }
  }

  lemma FirstBar(text: string)
    ensures match Find(text, "|", 0)
            case Some(k) => k < |text| && text[k] == '|' && '|' !in text[..k]
            case None => '|' !in text
  {
    hide Find;
    FindFacts(text, "|", 0);
    forall x: nat | x < |text|
      ensures At(text, "|", x) <==> text[x] == '|'
    {
    }
  }

  lemma LinkSaysSo(no: nat, text: string)
    ensures LinkSays(WikiRef(no, text), text) && WikiRef(no, text).line == no
  {
    hide Find, TrimSpace, Stripped;
    FirstBar(text);
    var bar := Find(text, "|", 0);
    if bar.Some? {
      StrippedExactly(text[..bar.value]);
      StrippedExactly(text[bar.value + 1..]);
      assert '|' in text;
    } else {
      StrippedExactly(text);
      NothingStripped();
    }
  }

  lemma NothingStripped()
    ensures TrimSpace("") == ""
  {
    StrippedExactly("");
  }

  lemma TokenExactly(line: string, x: nat)
    ensures Standalone(line, x) <==> Token(line, x)
  {
    if x + 12 <= |line| {
      var s := line[x..x + 12];
      assert forall i :: x <= i < x + 12 ==> line[i] == s[i - x] && s[i - x] in s;
    }
  }

  // ---- one line ----

  lemma ClosedOnce(lines: seq<string>, roles: seq<Role>, p: Place, j: int, d: int, j': int, d': int)
    requires ClosedAt(lines, roles, p, j, d) && ClosedAt(lines, roles, p, j', d')
    ensures j == j' && d == d'
  {
    hide Written;
  }

  /** An opening that dangles is closed nowhere. */
  lemma DanglingOpen(lines: seq<string>, roles: seq<Role>, p: Place, e: int, j: int, d: int)
    requires DanglesAt(lines, roles, p, e)
    ensures !ClosedAt(lines, roles, p, j, d)
  {
    hide Written;
  }

  /** An opening still running is closed no earlier. */
  lemma RunningOpen(lines: seq<string>, roles: seq<Role>, p: Place, m: int, j: int, d: int)
    requires Running(lines, roles, p, m) && ClosedAt(lines, roles, p, j, d)
    ensures j > m
  {
    hide Written;
  }

  /** The places of the openings the rest of a line yields, from idx on. */
  ghost predicate LinePlaces(lines: seq<string>, roles: seq<Role>, n: nat, idx: nat, cols: seq<nat>, f: Found) {
    && n < |lines| && |cols| == |f.refs| + (if f.pending.Some? then 1 else 0)
    && (forall i, j :: 0 <= i < j < |cols| ==> cols[i] < cols[j])
    && (forall x: nat {:trigger x in cols} :: x in cols <==> x >= idx && OpensLink(lines[n], x) && forall c :: c in cols ==> !Covers(lines, roles, Place(n, c), Place(n, x)))
    && (forall k :: 0 <= k < |f.refs| ==> RefSays(lines, roles, Place(n, cols[k]), f.refs[k]) && !LeftOpen(lines, Place(n, cols[k])))
    && (f.pending.Some? ==>
          var c := cols[|cols| - 1];
          LeftOpen(lines, Place(n, c)) && f.pending.value.line == n + 1 && Reads(lines, Place(n, c), n, f.pending.value.buf))
  }

  lemma {:induction false} LineSays(lines: seq<string>, roles: seq<Role>, n: nat, idx: nat) returns (cols: seq<nat>)
    requires n < |lines| && Written(lines, roles, n) && idx <= |lines[n]|
    ensures LinePlaces(lines, roles, n, idx, cols, WikiFrom(lines[n], n + 1, idx))
    decreases |lines[n]| - idx
  {
    hide WikiFrom, Find, WikiRef, RefSays, Covers, Reads, Written;
    var line := lines[n];
    WikiNext(line, n + 1, idx);
    FirstOpening(line, idx);
    var open := Find(line, "[[", idx);
    if open.None? {
      cols := [];
    } else {
      var o := open.value;
      FirstClosing(line, o + 2);
      var close := Find(line, "]]", o + 2);
      if close.None? {
        cols := [o];
        LastOpening(lines, roles, n, idx, o);
      } else {
        var rest := LineSays(lines, roles, n, close.value + 2);
        cols := [o] + rest;
        NextLink(lines, roles, n, idx, o, close.value, rest, WikiFrom(line, n + 1, close.value + 2));
      }
    }
  }

  lemma LastOpening(lines: seq<string>, roles: seq<Role>, n: nat, idx: nat, o: nat)
    requires n < |lines| && Written(lines, roles, n) && idx <= o && OpensLink(lines[n], o)
    requires (forall x :: idx <= x < o ==> !OpensLink(lines[n], x)) && forall x :: o + 2 <= x ==> !ClosesLink(lines[n], x)
    ensures LinePlaces(lines, roles, n, idx, [o], Found([], Some(Pending(n + 1, lines[n][o + 2..]))))
  {
    hide Written;
    assert LeftOpen(lines, Place(n, o)) && Opened(lines, roles, Place(n, o));
    assert forall x: nat :: x > o ==> Covers(lines, roles, Place(n, o), Place(n, x));
    assert !Covers(lines, roles, Place(n, o), Place(n, o));
  }

  /** On its own line a link covers what stands before its closing brackets. */
  lemma LinkCovers(lines: seq<string>, roles: seq<Role>, n: nat, o: nat, d: nat, x: nat)
    requires n < |lines| && Written(lines, roles, n) && OpensLink(lines[n], o) && ClosesLink(lines[n], d) && o + 2 <= d
    requires forall y :: o + 2 <= y < d ==> !ClosesLink(lines[n], y)
    ensures ClosedAt(lines, roles, Place(n, o), n, d) && !LeftOpen(lines, Place(n, o))
    ensures Covers(lines, roles, Place(n, o), Place(n, x)) <==> o < x < d
  {
    hide Written, Running;
    assert ClosedAt(lines, roles, Place(n, o), n, d);
    if Covers(lines, roles, Place(n, o), Place(n, x)) {
      var j: nat, e: nat :| ClosedAt(lines, roles, Place(n, o), j, e) && Before(Place(n, x), Place(j, e));
      ClosedOnce(lines, roles, Place(n, o), n, d, j, e);
    }
  }

  lemma NextLink(lines: seq<string>, roles: seq<Role>, n: nat, idx: nat, o: nat, d: nat, rest: seq<nat>, f: Found)
    requires n < |lines| && Written(lines, roles, n) && idx <= o && OpensLink(lines[n], o) && o + 2 <= d && ClosesLink(lines[n], d)
    requires (forall x :: idx <= x < o ==> !OpensLink(lines[n], x)) && forall x :: o + 2 <= x < d ==> !ClosesLink(lines[n], x)
    requires LinePlaces(lines, roles, n, d + 2, rest, f)
    ensures LinePlaces(lines, roles, n, idx, [o] + rest, Found([WikiRef(n + 1, lines[n][o + 2..d])] + f.refs, f.pending))
  {
    hide Written, Covers, RefSays, Reads, WikiRef, ClosedAt, LeftOpen;
    var cols, r := [o] + rest, WikiRef(n + 1, lines[n][o + 2..d]);
    var all := Found([r] + f.refs, f.pending);
    LinkRefSays(lines, roles, n, o, d);
    forall x: nat
      ensures Covers(lines, roles, Place(n, o), Place(n, x)) <==> o < x < d
    {
      LinkCovers(lines, roles, n, o, d, x);
    }
    forall c | c in rest
      ensures c >= d + 2
    {
    }
    Prepended(o, rest);
    forall c, x | c in rest && Covers(lines, roles, Place(n, c), Place(n, x))
      ensures x > c
    {
      CoversLater(lines, roles, n, c, x);
    }
    forall x: nat {:trigger x in cols}
      ensures x in cols <==> x >= idx && OpensLink(lines[n], x) && forall c :: c in cols ==> !Covers(lines, roles, Place(n, c), Place(n, x))
    {
      assert x in cols <==> x == o || x in rest;
      assert o in cols && forall c :: c in cols <==> c == o || c in rest;
    }
    forall k | 0 <= k < |all.refs|
      ensures RefSays(lines, roles, Place(n, cols[k]), all.refs[k]) && !LeftOpen(lines, Place(n, cols[k]))
    {
      LinkCovers(lines, roles, n, o, d, 0);
      assert k > 0 ==> cols[k] == rest[k - 1] && all.refs[k] == f.refs[k - 1];
    }
  }

  lemma Prepended(o: nat, rest: seq<nat>)
    requires (forall c :: c in rest ==> o < c) && forall i, j :: 0 <= i < j < |rest| ==> rest[i] < rest[j]
    ensures var cols := [o] + rest; forall i, j :: 0 <= i < j < |cols| ==> cols[i] < cols[j]
  {
    var cols := [o] + rest;
    forall i, j | 0 <= i < j < |cols|
      ensures cols[i] < cols[j]
    {
      assert cols[j] == rest[j - 1] && rest[j - 1] in rest;
      assert i > 0 ==> cols[i] == rest[i - 1];
    }
  }

  lemma CoversLater(lines: seq<string>, roles: seq<Role>, n: nat, c: nat, x: nat)
    requires Covers(lines, roles, Place(n, c), Place(n, x))
    ensures x > c
  {
  }

  lemma LinkRefSays(lines: seq<string>, roles: seq<Role>, n: nat, o: nat, d: nat)
    requires n < |lines| && Written(lines, roles, n) && OpensLink(lines[n], o) && o + 2 <= d && ClosesLink(lines[n], d)
    requires forall x :: o + 2 <= x < d ==> !ClosesLink(lines[n], x)
    ensures RefSays(lines, roles, Place(n, o), WikiRef(n + 1, lines[n][o + 2..d]))
  {
    hide WikiRef, LinkSays, Running;
    var text := lines[n][o + 2..d];
    LinkSaysSo(n + 1, text);
    assert ClosedAt(lines, roles, Place(n, o), n, d) && ReadsTo(lines, Place(n, o), n, d, text);
  }

  // ---- the document ----

  /** Every link of these places is closed before column idx of line n. */
  ghost predicate EndBy(lines: seq<string>, roles: seq<Role>, at: seq<Place>, n: nat, idx: nat) {
    forall p, j, d :: p in at && ClosedAt(lines, roles, p, j, d) ==> j < n || (j == n && d + 2 <= idx)
  }

  ghost predicate AllSay(lines: seq<string>, roles: seq<Role>, at: seq<Place>, refs: seq<LinkRef>) {
    |refs| <= |at| && forall k :: 0 <= k < |refs| ==> RefSays(lines, roles, at[k], refs[k])
  }

  /** The places of the first n lines and their references, all ended by column idx of line n. */
  ghost predicate Settled(lines: seq<string>, roles: seq<Role>, at: seq<Place>, refs: seq<LinkRef>, n: nat, idx: nat) {
    |at| == |refs| && Places(lines, roles, at, n) && AllSay(lines, roles, at, refs) && EndBy(lines, roles, at, n, idx)
  }

  ghost predicate Pends(lines: seq<string>, roles: seq<Role>, p: Place, pending: Pending, n: nat) {
    && n > 0 && Opened(lines, roles, p) && Running(lines, roles, p, n - 1)
    && pending.line == p.line + 1 && Reads(lines, p, n - 1, pending.buf)
  }

  /** The same while an opening may be pending: then it is the last place. */
  ghost predicate Open(lines: seq<string>, roles: seq<Role>, at: seq<Place>, refs: seq<LinkRef>, pending: Option<Pending>, n: nat) {
    match pending
    case None => Settled(lines, roles, at, refs, n, 0)
    case Some(pend) =>
      && |at| == |refs| + 1 && Places(lines, roles, at, n) && AllSay(lines, roles, at, refs)
      && EndBy(lines, roles, at[..|refs|], n, 0) && Pends(lines, roles, at[|refs|], pend, n)
  }

  lemma UnclosedSays(lines: seq<string>, roles: seq<Role>, p: Place, pending: Pending, n: nat)
    requires Pends(lines, roles, p, pending, n) && (Written(lines, roles, n) ==> OpensFirst(lines[n]))
    ensures RefSays(lines, roles, p, Unclosed(pending)) && forall j, d :: !ClosedAt(lines, roles, p, j, d)
  {
    hide Written, Running, Reads;
    assert DanglesAt(lines, roles, p, n - 1);
    assert OpenSays(Unclosed(pending), pending.buf);
    NoDotOpened(lines, roles, p);
    forall j, d
      ensures !ClosedAt(lines, roles, p, j, d)
    {
      DanglingOpen(lines, roles, p, n - 1, j, d);
    }
  }

  lemma NoDotOpened(lines: seq<string>, roles: seq<Role>, p: Place)
    requires Opened(lines, roles, p)
    ensures !DotLine(lines, roles, p.line)
  {
  }

  /** What was pending ends as one more reference. */
  lemma OpenEnds(lines: seq<string>, roles: seq<Role>, at: seq<Place>, refs: seq<LinkRef>, pending: Pending, n: nat, r: LinkRef, idx: nat)
    requires Open(lines, roles, at, refs, Some(pending), n) && RefSays(lines, roles, at[|refs|], r)
    requires EndBy(lines, roles, [at[|refs|]], n, idx)
    ensures Settled(lines, roles, at, refs + [r], n, idx)
  {
    hide RefSays, ClosedAt, Places, Pends;
    var last := at[|refs|];
    assert at == at[..|refs|] + [last];
    forall p, j, d | p in at && ClosedAt(lines, roles, p, j, d)
      ensures j < n || (j == n && d + 2 <= idx)
    {
      assert p in at[..|refs|] || p in [last];
    }
  }

  /** Nothing goes on over a line that is not prose, or blank. */
  lemma Flushed(lines: seq<string>, roles: seq<Role>, at: seq<Place>, refs: seq<LinkRef>, pending: Option<Pending>, n: nat)
    requires Open(lines, roles, at, refs, pending, n) && !Written(lines, roles, n)
    ensures Settled(lines, roles, at, refs + Flush(pending), n, 0)
  {
    hide Settled, Places, Pends, RefSays, Written, ClosedAt;
    if pending.Some? {
      UnclosedSays(lines, roles, at[|refs|], pending.value, n);
      OpenEnds(lines, roles, at, refs, pending.value, n, Unclosed(pending.value), 0);
    } else {
      assert refs + [] == refs;
    }
  }

  /** A line without marked places. */
  lemma NoMarks(lines: seq<string>, roles: seq<Role>, at: seq<Place>, n: nat)
    requires Places(lines, roles, at, n) && forall x :: !Marked(lines, roles, Place(n, x))
    ensures Places(lines, roles, at, n + 1)
  {
    hide Marked, Covers;
    forall q: Place | q.line == n
      ensures !Marked(lines, roles, q)
    {
      assert q == Place(n, q.col);
    }
  }

  lemma EmptyLine(lines: seq<string>, roles: seq<Role>, at: seq<Place>, refs: seq<LinkRef>, n: nat)
    requires Settled(lines, roles, at, refs, n, 0) && !Written(lines, roles, n) && !DotLine(lines, roles, n)
    ensures Settled(lines, roles, at, refs, n + 1, 0)
  {
    hide Places, RefSays, Written, DotLine, ClosedAt;
    forall x
      ensures !Marked(lines, roles, Place(n, x))
    {
    }
    NoMarks(lines, roles, at, n);
  }

  function OnLine(n: nat, cols: seq<nat>): (at: seq<Place>)
    ensures |at| == |cols| && forall i :: 0 <= i < |at| ==> at[i] == Place(n, cols[i])
  {
    seq(|cols|, i requires 0 <= i < |cols| => Place(n, cols[i]))
  }

  /** More places, all on line n. */
  lemma MorePlaces(lines: seq<string>, roles: seq<Role>, at: seq<Place>, n: nat, idx: nat, cols: seq<nat>)
    requires Places(lines, roles, at, n) && EndBy(lines, roles, at, n, idx)
    requires forall i, j :: 0 <= i < j < |cols| ==> cols[i] < cols[j]
    requires forall x: nat {:trigger x in cols} :: x in cols <==> x >= idx && Marked(lines, roles, Place(n, x)) && forall c :: c in cols ==> !Covers(lines, roles, Place(n, c), Place(n, x))
    requires forall x: nat :: x < idx ==> !Marked(lines, roles, Place(n, x))
    ensures Places(lines, roles, at + OnLine(n, cols), n + 1)
  {
    hide Marked, Covers, EndBy;
    var more, all := OnLine(n, cols), at + OnLine(n, cols);
    forall x
      ensures x in cols <==> Place(n, x) in more
    {
      OnLineMember(n, cols, x);
    }
    forall i, j | 0 <= i < j < |all|
      ensures Before(all[i], all[j])
    {
      assert i < |at| ==> all[i] in at;
      assert j < |at| ==> all[j] in at;
    }
    forall q {:trigger q in all}
      ensures q in all <==> q.line < n + 1 && Marked(lines, roles, q) && Uncovered(lines, roles, all, q)
    {
      assert q in all <==> q in at || q in more;
      CoveredFrom(lines, roles, at, n, idx, cols, q);
      if q in more {
        assert q == Place(n, q.col);
      }
      if q.line == n {
        assert q == Place(n, q.col);
      }
    }
  }

  lemma OnLineMember(n: nat, cols: seq<nat>, x: nat)
    ensures x in cols <==> Place(n, x) in OnLine(n, cols)
  {
    var at := OnLine(n, cols);
    if x in cols {
      var i :| 0 <= i < |cols| && cols[i] == x;
      assert at[i] == Place(n, x);
    }
  }

  /** Of two sets of places, the later ones cover nothing on earlier lines, and the earlier nothing from idx on. */
  lemma CoveredFrom(lines: seq<string>, roles: seq<Role>, at: seq<Place>, n: nat, idx: nat, cols: seq<nat>, q: Place)
    requires Places(lines, roles, at, n) && EndBy(lines, roles, at, n, idx)
    ensures q.line < n ==> (Uncovered(lines, roles, at + OnLine(n, cols), q) <==> Uncovered(lines, roles, at, q))
    ensures q.line == n && q.col >= idx ==>
              (Uncovered(lines, roles, at + OnLine(n, cols), q) <==> forall c :: c in cols ==> !Covers(lines, roles, Place(n, c), q))
  {
    hide Marked, ClosedAt, Opened, LeftOpen;
    var more := OnLine(n, cols);
    forall c
      ensures c in cols <==> Place(n, c) in more
    {
      OnLineMember(n, cols, c);
    }
    assert forall p :: p in more ==> p == Place(n, p.col);
    assert forall p :: p in at + more <==> p in at || p in more;
    if q.line < n {
      assert forall p :: p in more ==> !Before(p, q);
    }
    if q.line == n && q.col >= idx {
      assert forall p :: p in at ==> p.line < n;
    }
  }

  // ---- lines of a dot block ----

  lemma TokenSays(lines: seq<string>, roles: seq<Role>, n: nat, x: nat)
    requires DotLine(lines, roles, n) && Token(lines[n], x)
    ensures x + 12 <= |lines[n]| && RefSays(lines, roles, Place(n, x), DotRef(lines[n], n + 1, x))
  {
    hide ClosedAt, DanglesAt;
  }

  lemma {:induction false} Tokens(lines: seq<string>, roles: seq<Role>, n: nat, m: nat) returns (cols: seq<nat>)
    requires DotLine(lines, roles, n) && m <= |lines[n]|
    ensures |cols| == |BareHashes(lines[n], n + 1, m)| && forall i, j :: 0 <= i < j < |cols| ==> cols[i] < cols[j]
    ensures forall x: nat :: x in cols <==> x < m && Token(lines[n], x)
    ensures forall k :: 0 <= k < |cols| ==> RefSays(lines, roles, Place(n, cols[k]), BareHashes(lines[n], n + 1, m)[k])
  {
    hide Token, Standalone, RefSays, DotRef;
    if m == 0 {
      cols := [];
    } else {
      var init := Tokens(lines, roles, n, m - 1);
      TokenExactly(lines[n], m - 1);
      cols := init;
      if Token(lines[n], m - 1) {
        cols := init + [m - 1];
        TokenSays(lines, roles, n, m - 1);
        Bags.Appended(init, m - 1);
        assert forall x :: x in cols <==> x in init || x == m - 1;
      }
    }
  }

  lemma TokenInside(line: string, x: int)
    requires Token(line, x)
    ensures 0 <= x < |line|
  {
  }

  lemma DotStep(lines: seq<string>, roles: seq<Role>, at: seq<Place>, refs: seq<LinkRef>, n: nat) returns (all: seq<Place>)
    requires Settled(lines, roles, at, refs, n, 0) && DotLine(lines, roles, n)
    ensures Settled(lines, roles, all, refs + BareHashes(lines[n], n + 1, |lines[n]|), n + 1, 0)
  {
    hide Token, RefSays, ClosedAt, Places, BareHashes;
    var cols := Tokens(lines, roles, n, |lines[n]|);
    all := at + OnLine(n, cols);
    forall x: nat
      ensures Marked(lines, roles, Place(n, x)) <==> Token(lines[n], x)
      ensures Token(lines[n], x) ==> x < |lines[n]|
    {
      if Token(lines[n], x) {
        TokenInside(lines[n], x);
      }
    }
    forall c, x
      ensures !Covers(lines, roles, Place(n, c), Place(n, x))
    {
    }
    MorePlaces(lines, roles, at, n, 0, cols);
    forall p, j, d | p in all && ClosedAt(lines, roles, p, j, d)
      ensures j < n + 1
    {
      if p in OnLine(n, cols) {
        NoDotClosed(lines, roles, p, j, d);
      }
    }
  }

  lemma NoDotClosed(lines: seq<string>, roles: seq<Role>, p: Place, j: int, d: int)
    requires DotLine(lines, roles, p.line)
    ensures !ClosedAt(lines, roles, p, j, d)
  {
  }

  // ---- lines of prose ----

  lemma ProseStep(lines: seq<string>, roles: seq<Role>, at: seq<Place>, refs: seq<LinkRef>, n: nat, idx: nat) returns (all: seq<Place>)
    requires n < |lines| && Settled(lines, roles, at, refs, n, idx) && Written(lines, roles, n) && idx <= |lines[n]|
    requires forall x :: 0 <= x < idx ==> !OpensLink(lines[n], x)
    ensures var f := WikiFrom(lines[n], n + 1, idx); Open(lines, roles, all, refs + f.refs, f.pending, n + 1)
  {
    hide Written, RefSays, ClosedAt, Places, WikiFrom, Running, Reads, Covers, LeftOpen;
    var cols := LineSays(lines, roles, n, idx);
    var f := WikiFrom(lines[n], n + 1, idx);
    all := at + OnLine(n, cols);
    WrittenMarks(lines, roles, n);
    MorePlaces(lines, roles, at, n, idx, cols);
    var closed, ends := refs + f.refs, at + OnLine(n, cols)[..|f.refs|];
    assert all[..|closed|] == ends;
    forall k | 0 <= k < |closed|
      ensures RefSays(lines, roles, all[k], closed[k])
    {
      assert k >= |refs| ==> all[k] == Place(n, cols[k - |refs|]) && closed[k] == f.refs[k - |refs|];
    }
    forall p, j, d | p in ends && ClosedAt(lines, roles, p, j, d)
      ensures j < n + 1
    {
      if p !in at {
        var k :| 0 <= k < |f.refs| && OnLine(n, cols)[k] == p;
        OnOwnLine(lines, roles, p, j, d);
      }
    }
    if f.pending.Some? {
      assert cols[|f.refs|] in cols;
      NowRuns(lines, roles, n, cols[|f.refs|], f.pending.value);
    } else {
      assert all == ends;
    }
  }

  lemma WrittenMarks(lines: seq<string>, roles: seq<Role>, n: nat)
    requires Written(lines, roles, n)
    ensures forall x: nat :: Marked(lines, roles, Place(n, x)) <==> OpensLink(lines[n], x)
  {
  }

  lemma OnOwnLine(lines: seq<string>, roles: seq<Role>, p: Place, j: int, d: int)
    requires ClosedAt(lines, roles, p, j, d) && !LeftOpen(lines, p)
    ensures j == p.line
  {
  }

  lemma NowRuns(lines: seq<string>, roles: seq<Role>, n: nat, c: nat, pending: Pending)
    requires n < |lines| && Written(lines, roles, n) && OpensLink(lines[n], c) && LeftOpen(lines, Place(n, c))
    requires pending.line == n + 1 && Reads(lines, Place(n, c), n, pending.buf)
    ensures Pends(lines, roles, Place(n, c), pending, n + 1)
  {
    hide Written, Reads, LeftOpen;
  }

  /** A line that leaves what is pending open. */
  lemma RunsOn(lines: seq<string>, roles: seq<Role>, p: Place, pending: Pending, n: nat)
    requires n < |lines| && Pends(lines, roles, p, pending, n) && Written(lines, roles, n) && NoBrackets(lines[n])
    ensures Pends(lines, roles, p, pending.(buf := pending.buf + " " + TrimSpace(lines[n])), n + 1)
  {
    hide Written, TrimSpace, Stripped, LeftOpen, NoBrackets;
    StrippedExactly(lines[n]);
  }

  /** A line that closes what is pending. */
  lemma ClosesHere(lines: seq<string>, roles: seq<Role>, p: Place, pending: Pending, n: nat, d: nat)
    requires n < |lines| && Pends(lines, roles, p, pending, n) && Written(lines, roles, n) && ClosesLink(lines[n], d)
    requires forall x :: x < d ==> !OpensLink(lines[n], x) && !ClosesLink(lines[n], x)
    ensures RefSays(lines, roles, p, WikiRef(pending.line, pending.buf + " " + TrimLeft(lines[n][..d], BlankOrTab())))
    ensures EndBy(lines, roles, [p], n, d + 2)
  {
    hide Written, TrimLeft, Unindented, Running, Reads, WikiRef, LinkSays, Opened;
    var t := TrimLeft(lines[n][..d], BlankOrTab());
    var text := pending.buf + " " + t;
    UnindentedExactly(lines[n][..d]);
    LinkSaysSo(pending.line, text);
    assert p.line < n by { RunsTo(lines, roles, p, n - 1); }
    assert ClosedAt(lines, roles, p, n, d) && ReadsTo(lines, p, n, d, text);
    NoDotOpened(lines, roles, p);
    forall j, e | ClosedAt(lines, roles, p, j, e)
      ensures j == n && e == d
    {
      ClosedOnce(lines, roles, p, n, d, j, e);
    }
  }

  lemma RunsTo(lines: seq<string>, roles: seq<Role>, p: Place, m: int)
    requires Running(lines, roles, p, m)
    ensures p.line <= m < |lines|
  {
  }

  lemma PendingStep(lines: seq<string>, roles: seq<Role>, at: seq<Place>, refs: seq<LinkRef>, pending: Pending, n: nat) returns (all: seq<Place>)
    requires n < |lines| && Open(lines, roles, at, refs, Some(pending), n) && Written(lines, roles, n)
    ensures var f := WikiLine(lines[n], n + 1, Some(pending)); Open(lines, roles, all, refs + f.refs, f.pending, n + 1)
  {
    hide Written, RefSays, ClosedAt, Places, WikiFrom, Pends, WikiRef, Unclosed, Find, TrimSpace, TrimLeft, Settled, OpensFirst;
    var line, p := lines[n], at[|refs|];
    FirstOpening(line, 0);
    FirstClosing(line, 0);
    var open, close := Find(line, "[[", 0), Find(line, "]]", 0);
    if open.Some? && (close.None? || open.value < close.value) {
      FirstOpens(line, open.value);
      UnclosedSays(lines, roles, p, pending, n);
      OpenEnds(lines, roles, at, refs, pending, n, Unclosed(pending), open.value);
      all := ProseStep(lines, roles, at, refs + [Unclosed(pending)], n, open.value);
      var rest := WikiFrom(line, n + 1, open.value);
      assert refs + ([Unclosed(pending)] + rest.refs) == (refs + [Unclosed(pending)]) + rest.refs;
    } else if close.None? {
      all := at;
      assert refs + [] == refs;
      assert NoBrackets(line);
      RunsOn(lines, roles, p, pending, n);
      WrittenMarks(lines, roles, n);
      NoMarks(lines, roles, at, n);
    } else {
      var link := WikiRef(pending.line, pending.buf + " " + TrimLeft(line[..close.value], BlankOrTab()));
      ClosesHere(lines, roles, p, pending, n, close.value);
      OpenEnds(lines, roles, at, refs, pending, n, link, close.value + 2);
      all := ProseStep(lines, roles, at, refs + [link], n, close.value + 2);
      var rest := WikiFrom(line, n + 1, close.value + 2);
      assert refs + ([link] + rest.refs) == (refs + [link]) + rest.refs;
    }
  }

  lemma FirstOpens(line: string, o: nat)
    requires OpensLink(line, o) && forall x :: 0 <= x < o ==> !ClosesLink(line, x)
    ensures OpensFirst(line)
  {
  }

  // ---- the scan ----

  lemma WrittenExactly(lines: seq<string>, roles: seq<Role>, n: nat)
    requires n < |lines| == |roles|
    ensures Written(lines, roles, n) <==> roles[n] == Prose && TrimSpace(lines[n]) != ""
  {
    hide IsSpace, TrimSpace;
    BlankExactly(lines[n]);
  }

  lemma Step(lines: seq<string>, roles: seq<Role>, at: seq<Place>, s: Scan, n: nat) returns (all: seq<Place>)
    requires n < |lines| == |roles| && Open(lines, roles, at, s.refs, s.pending, n) && (roles[n].Content? ==> s.pending == None)
    ensures var t := ScanAs(s, roles[n], lines[n], n + 1); Open(lines, roles, all, t.refs, t.pending, n + 1)
  {
    hide Open, Settled, WikiLine, BareHashes, TrimSpace, Written, DotLine, Flush;
    WrittenExactly(lines, roles, n);
    DotExactly(lines, roles, n);
    if Written(lines, roles, n) {
      if s.pending.None? {
        SettledOpen(lines, roles, at, s.refs, n);
        all := ProseStep(lines, roles, at, s.refs, n, 0);
        FromStart(lines[n], n + 1);
      } else {
        all := PendingStep(lines, roles, at, s.refs, s.pending.value, n);
      }
    } else {
      Flushed(lines, roles, at, s.refs, s.pending, n);
      NothingFlushed(s.refs);
      if DotLine(lines, roles, n) {
        all := DotStep(lines, roles, at, s.refs, n);
      } else {
        all := at;
        EmptyLine(lines, roles, at, s.refs + Flush(s.pending), n);
      }
      SettledOpen(lines, roles, all, ScanAs(s, roles[n], lines[n], n + 1).refs, n + 1);
    }
  }

  lemma SettledOpen(lines: seq<string>, roles: seq<Role>, at: seq<Place>, refs: seq<LinkRef>, n: nat)
    ensures Open(lines, roles, at, refs, None, n) <==> Settled(lines, roles, at, refs, n, 0)
  {
  }

  lemma FromStart(line: string, no: nat)
    ensures WikiLine(line, no, None) == WikiFrom(line, no, 0)
  {
  }

  lemma NothingFlushed(refs: seq<LinkRef>)
    ensures Flush(None) == [] && refs + Flush(None) == refs
  {
  }

  lemma DotExactly(lines: seq<string>, roles: seq<Role>, n: nat)
    requires n < |lines| == |roles|
    ensures DotLine(lines, roles, n) <==> roles[n] == Content("dot")
  {
  }

  lemma {:induction false} StepsSay(lines: seq<string>, roles: seq<Role>, n: nat) returns (at: seq<Place>)
    requires n <= |lines| == |roles| && Coherent(lines, roles)
    ensures var s := ScanBy(lines, roles, n); Open(lines, roles, at, s.refs, s.pending, n)
  {
    hide Open, ScanAs;
    if n == 0 {
      at := [];
      NothingYet(lines, roles);
    } else {
      var before := StepsSay(lines, roles, n - 1);
      at := Step(lines, roles, before, ScanBy(lines, roles, n - 1), n - 1);
    }
  }

  lemma NothingYet(lines: seq<string>, roles: seq<Role>)
    ensures Open(lines, roles, [], [], None, 0)
  {
  }

  /** The references of a document, by the parts its lines play. */
  lemma RefsSay(lines: seq<string>, roles: seq<Role>)
    requires |lines| == |roles| && Coherent(lines, roles)
    ensures ScanSays(lines, roles, RefsBy(lines, roles))
  {
    hide Open, ScanAs, Settled, Written, Places, RefSays;
    var at := StepsSay(lines, roles, |lines|);
    var s := ScanBy(lines, roles, |lines|);
    NotWritten(lines, roles);
    Flushed(lines, roles, at, s.refs, s.pending, |lines|);
    SettledSays(lines, roles, at, s.refs + Flush(s.pending));
  }

  lemma NotWritten(lines: seq<string>, roles: seq<Role>)
    ensures !Written(lines, roles, |lines|)
  {
  }

  lemma SettledSays(lines: seq<string>, roles: seq<Role>, at: seq<Place>, refs: seq<LinkRef>)
    requires Settled(lines, roles, at, refs, |lines|, 0)
    ensures ScanSays(lines, roles, refs)
  {
    hide Places, RefSays;
  }

  /** The scanner finds what stands in the document as it reads it, and the reading of section 4.5 likewise. */
  lemma ScanSaysSo(src: string)
    ensures ScanSays(Lines(src), ScannedRoles(Lines(src)), ScanOf(src))
    ensures ScanSays(Lines(src), SpecRoles(Lines(src)), ReadOf(src))
  {
    hide ScanSays, ScanOf, ReadOf, RefsBy, Coherent;
    BothBy(src);
    BothCoherent(Lines(src));
    RefsSay(Lines(src), ScannedRoles(Lines(src)));
    RefsSay(Lines(src), SpecRoles(Lines(src)));
  }

  // ---- one answer ----

  lemma StrippedOnce(s: string, t: string, u: string)
    requires Stripped(s, t) && Stripped(s, u)
    ensures t == u
  {
    hide IsSpace;
    var a, b :| 0 <= a <= b <= |s| && t == s[a..b] && (forall i :: 0 <= i < a || b <= i < |s| ==> IsSpace(s[i]))
                && (a < b ==> !IsSpace(s[a]) && !IsSpace(s[b - 1]));
    var c, d :| 0 <= c <= d <= |s| && u == s[c..d] && (forall i :: 0 <= i < c || d <= i < |s| ==> IsSpace(s[i]))
                && (c < d ==> !IsSpace(s[c]) && !IsSpace(s[d - 1]));
    assert a < b ==> c <= a && b <= d && c < d;
    assert c < d ==> a <= c && d <= b;
  }

  lemma UnindentedOnce(s: string, t: string, u: string)
    requires Unindented(s, t) && Unindented(s, u)
    ensures t == u
  {
  }

  lemma {:induction false} ReadsOnce(lines: seq<string>, p: Place, m: int, t: string, u: string)
    requires Reads(lines, p, m, t) && Reads(lines, p, m, u)
    ensures t == u
    decreases m
  {
    hide Stripped;
    if m != p.line {
      var b, x :| Reads(lines, p, m - 1, b) && Stripped(lines[m], x) && t == b + " " + x;
      var c, y :| Reads(lines, p, m - 1, c) && Stripped(lines[m], y) && u == c + " " + y;
      ReadsOnce(lines, p, m - 1, b, c);
      StrippedOnce(lines[m], x, y);
    }
  }

  lemma ReadsToOnce(lines: seq<string>, p: Place, j: int, d: int, t: string, u: string)
    requires ReadsTo(lines, p, j, d, t) && ReadsTo(lines, p, j, d, u)
    ensures t == u
  {
    hide Unindented, Reads;
    if j != p.line {
      var b, x :| Reads(lines, p, j - 1, b) && Unindented(lines[j][..d], x) && t == b + " " + x;
      var c, y :| Reads(lines, p, j - 1, c) && Unindented(lines[j][..d], y) && u == c + " " + y;
      ReadsOnce(lines, p, j - 1, b, c);
      UnindentedOnce(lines[j][..d], x, y);
    }
  }

  lemma BarsBefore(text: string, k: nat)
    requires k <= |text|
    ensures '|' !in text[..k] <==> forall i :: 0 <= i < k ==> text[i] != '|'
  {
    assert forall i :: 0 <= i < k ==> text[..k][i] == text[i];
  }

  lemma LinkOnce(r: LinkRef, q: LinkRef, text: string)
    requires LinkSays(r, text) && LinkSays(q, text) && r.line == q.line
    ensures r == q
  {
    hide Stripped;
    if '|' in text {
      var k :| 0 <= k < |text| && text[k] == '|' && '|' !in text[..k] && Stripped(text[..k], r.target) && Stripped(text[k + 1..], r.display);
      var l :| 0 <= l < |text| && text[l] == '|' && '|' !in text[..l] && Stripped(text[..l], q.target) && Stripped(text[l + 1..], q.display);
      BarsBefore(text, k);
      BarsBefore(text, l);
      assert k == l;
      StrippedOnce(text[..k], r.target, q.target);
      StrippedOnce(text[k + 1..], r.display, q.display);
    } else {
      StrippedOnce(text, r.target, q.target);
    }
  }

  lemma DanglesOnce(lines: seq<string>, roles: seq<Role>, p: Place, e: int, f: int)
    requires DanglesAt(lines, roles, p, e) && DanglesAt(lines, roles, p, f)
    ensures e == f
  {
    hide Written;
  }

  /** A reference is determined by its place. */
  lemma RefOnce(lines: seq<string>, roles: seq<Role>, p: Place, r: LinkRef, q: LinkRef)
    requires RefSays(lines, roles, p, r) && RefSays(lines, roles, p, q)
    ensures r == q
  {
    hide Token, ClosedAt, DanglesAt, Reads, ReadsTo, LinkSays;
    if !DotLine(lines, roles, p.line) {
      forall e, j, d | DanglesAt(lines, roles, p, e)
        ensures !ClosedAt(lines, roles, p, j, d)
      {
        DanglingOpen(lines, roles, p, e, j, d);
      }
      if j, d, text :| ClosedAt(lines, roles, p, j, d) && ReadsTo(lines, p, j, d, text) && LinkSays(r, text) {
        var k, e, other :| ClosedAt(lines, roles, p, k, e) && ReadsTo(lines, p, k, e, other) && LinkSays(q, other);
        ClosedOnce(lines, roles, p, j, d, k, e);
        ReadsToOnce(lines, p, j, d, text, other);
        LinkOnce(r, q, text);
      } else {
        var e, text :| DanglesAt(lines, roles, p, e) && Reads(lines, p, e, text) && OpenSays(r, text);
        var f, other :| DanglesAt(lines, roles, p, f) && Reads(lines, p, f, other) && OpenSays(q, other);
        DanglesOnce(lines, roles, p, e, f);
        ReadsOnce(lines, p, e, text, other);
      }
    }
  }

  lemma {:induction false} SamePlace(lines: seq<string>, roles: seq<Role>, a: seq<Place>, b: seq<Place>, n: nat, q: Place)
    requires Places(lines, roles, a, n) && Places(lines, roles, b, n)
    ensures q in a <==> q in b
    decreases q.line, q.col
  {
    hide Marked, Opened, ClosedAt, LeftOpen;
    forall p | Before(p, q)
      ensures p in a <==> p in b
    {
      SamePlace(lines, roles, a, b, n, p);
    }
    assert Uncovered(lines, roles, a, q) <==> Uncovered(lines, roles, b, q);
  }

  lemma {:induction false} OrderedOnce(a: seq<Place>, b: seq<Place>)
    requires InOrder(a) && InOrder(b) && forall q :: q in a <==> q in b
    ensures a == b
  {
    assert b != [] ==> b[0] in a;
    if a != [] {
      assert a[0] in b && b[0] in a;
      assert a[0] == b[0];
      forall q
        ensures q in a[1..] <==> q in b[1..]
      {
        LaterPlace(a, q);
        LaterPlace(b, q);
      }
      OrderedOnce(a[1..], b[1..]);
      assert a == [a[0]] + a[1..] && b == [b[0]] + b[1..];
    }
  }

  lemma LaterPlace(a: seq<Place>, q: Place)
    requires a != [] && InOrder(a)
    ensures q in a[1..] <==> q in a && q != a[0]
  {
    assert a == [a[0]] + a[1..];
    if q in a[1..] {
      var i :| 0 <= i < |a[1..]| && a[1..][i] == q;
      assert Before(a[0], a[i + 1]);
    }
  }

  /** What stands in a document determines its references. */
  lemma ScanOnce(lines: seq<string>, roles: seq<Role>, refs: seq<LinkRef>, others: seq<LinkRef>)
    requires ScanSays(lines, roles, refs) && ScanSays(lines, roles, others)
    ensures refs == others
  {
    hide Places, RefSays;
    var a :| |a| == |refs| && Places(lines, roles, a, |lines|) && forall k :: 0 <= k < |a| ==> RefSays(lines, roles, a[k], refs[k]);
    var b :| |b| == |others| && Places(lines, roles, b, |lines|) && forall k :: 0 <= k < |b| ==> RefSays(lines, roles, b[k], others[k]);
    PlacesOnce(lines, roles, a, b, |lines|);
    forall k | 0 <= k < |refs|
      ensures refs[k] == others[k]
    {
      RefOnce(lines, roles, a[k], refs[k], others[k]);
    }
  }

  lemma PlacesOnce(lines: seq<string>, roles: seq<Role>, a: seq<Place>, b: seq<Place>, n: nat)
    requires Places(lines, roles, a, n) && Places(lines, roles, b, n)
    ensures a == b
  {
    hide Marked, Uncovered;
    forall q
      ensures q in a <==> q in b
    {
      SamePlace(lines, roles, a, b, n, q);
    }
    OrderedOnce(a, b);
  }

  /** w is the info string up to the first space or tab. */
  ghost predicate WordSays(info: string, w: string) {
    && w <= info && (forall i :: 0 <= i < |w| ==> w[i] != ' ' && w[i] != '\t')
    && (|w| < |info| ==> info[|w|] == ' ' || info[|w|] == '\t')
  }

  /** The language of a fence is the first word of its info string. */
  lemma {:induction false} WordExactly(info: string)
    ensures WordSays(info, FirstWord(info))
  {
    if info != "" && info[0] != ' ' && info[0] != '\t' {
      var rest := info[1..];
      WordExactly(rest);
      WordLonger(info, FirstWord(rest));
    }
  }

  lemma WordLonger(info: string, w: string)
    requires info != "" && info[0] != ' ' && info[0] != '\t' && WordSays(info[1..], w)
    ensures WordSays(info, [info[0]] + w)
  {
    var more := [info[0]] + w;
    assert info == [info[0]] + info[1..];
    assert forall i :: 0 < i < |more| ==> more[i] == w[i - 1];
    assert |more| < |info| ==> info[|more|] == info[1..][|w|];
  }

  // ---- the sweep ----

  ghost predicate NamesAt(line: string, id: string, x: int) {
    Token(line, x) && line[x..x + 12] == id
  }

  /** A node id of the line that is the old one becomes the new one; every other character stays. */
  ghost predicate LineSwept(line: string, oldId: string, newId: string, out: string) {
    && |out| == |line|
    && (forall x :: NamesAt(line, oldId, x) ==> x + 12 <= |out| && out[x..x + 12] == newId)
    && (forall k :: 0 <= k < |line| && (forall x :: NamesAt(line, oldId, x) ==> !(x <= k < x + 12)) ==> out[k] == line[k])
  }

  lemma LineSweptSo(line: string, oldId: string, newId: string, out: string)
    requires N.Repointed(line, oldId, newId, out)
    ensures LineSwept(line, oldId, newId, out)
  {
    hide Token, Standalone;
    forall x
      ensures NamesAt(line, oldId, x) <==> x >= 0 && N.Names(line, oldId, x)
      ensures NamesAt(line, oldId, x) ==> 0 <= x && x + 12 <= |line|
    {
      NamesExactly(line, oldId, x);
    }
    forall k | 0 <= k < |line| && forall x :: NamesAt(line, oldId, x) ==> !(x <= k < x + 12)
      ensures out[k] == line[k]
    {
      assert !N.Covered(line, oldId, k);
    }
  }

  lemma NamesExactly(line: string, id: string, x: int)
    ensures NamesAt(line, id, x) <==> x >= 0 && N.Names(line, id, x)
    ensures NamesAt(line, id, x) ==> 0 <= x && x + 12 <= |line|
  {
    if x >= 0 {
      TokenExactly(line, x);
    }
  }

  /** The sweep changes the text of dot blocks alone, and there exactly the old node ids. */
  lemma SweepSaysSo(lines: seq<string>, oldId: string, newId: string, out: seq<string>)
    requires N.Swept(lines, oldId, newId, out)
    ensures |out| == |lines|
    ensures forall i :: 0 <= i < |lines| ==>
              if ScannedRoles(lines)[i] == Content("dot") then LineSwept(lines[i], oldId, newId, out[i]) else out[i] == lines[i]
  {
    hide N.Repointed, LineSwept, FenceMarker;
    forall i | 0 <= i < |lines|
      ensures if ScannedRoles(lines)[i] == Content("dot") then LineSwept(lines[i], oldId, newId, out[i]) else out[i] == lines[i]
    {
      assert N.SweptLine(lines, oldId, newId, i, out[i]);
      assert N.InDot(lines, i) <==> ScannedRoles(lines)[i] == Content("dot");
      if N.InDot(lines, i) {
        LineSweptSo(lines[i], oldId, newId, out[i]);
      }
    }
  }
}
