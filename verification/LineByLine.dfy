/**
 References compared line by line: two scans of a document agree exactly when they
 agree on every line, whichever blocks each of them sees.
 */
module LineByLine {
  import opened Results
  import opened Text
  import InvariantChecker
  import opened MarkdownScanner
  import opened NodeRenamer
  import opened CommonMark

  // ---- the references of one line ----

  function OnLine(k: nat): LinkRef -> bool {
    (r: LinkRef) => r.line == k
  }

  function DotOn(k: nat): LinkRef -> bool {
    (r: LinkRef) => r.line == k && r.kind == DotNode
  }

  function LinkOn(k: nat): LinkRef -> bool {
    (r: LinkRef) => r.line == k && r.kind != DotNode
  }

  function Pick(keep: LinkRef -> bool, refs: seq<LinkRef>): seq<LinkRef> {
    if refs == [] then [] else Pick(keep, refs[..|refs| - 1]) + if keep(refs[|refs| - 1]) then [refs[|refs| - 1]] else []
  }

  /** The links in prose that open on line k. */
  function LinksOn(refs: seq<LinkRef>, k: nat): seq<LinkRef> {
    Pick(LinkOn(k), refs)
  }

  lemma {:induction false} PickConcat(keep: LinkRef -> bool, a: seq<LinkRef>, b: seq<LinkRef>)
    ensures Pick(keep, a + b) == Pick(keep, a) + Pick(keep, b)
  {
    if b == [] {
      assert a + b == a;
    } else {
      assert (a + b)[..|a + b| - 1] == a + b[..|b| - 1];
      PickConcat(keep, a, b[..|b| - 1]);
    }
  }

  lemma {:induction false} PickAll(keep: LinkRef -> bool, refs: seq<LinkRef>)
    requires forall r :: r in refs ==> keep(r)
    ensures Pick(keep, refs) == refs
  {
    if refs != [] {
      PickAll(keep, refs[..|refs| - 1]);
    }
  }

  lemma {:induction false} PickNone(keep: LinkRef -> bool, refs: seq<LinkRef>)
    requires forall r :: r in refs ==> !keep(r)
    ensures Pick(keep, refs) == []
  {
    if refs != [] {
      PickNone(keep, refs[..|refs| - 1]);
    }
  }

  lemma {:induction false} PickSame(p: LinkRef -> bool, q: LinkRef -> bool, refs: seq<LinkRef>)
    requires forall r :: r in refs ==> p(r) == q(r)
    ensures Pick(p, refs) == Pick(q, refs)
  {
    if refs != [] {
      PickSame(p, q, refs[..|refs| - 1]);
    }
  }

  lemma {:induction false} PickMember(keep: LinkRef -> bool, refs: seq<LinkRef>, r: LinkRef)
    ensures r in Pick(keep, refs) <==> r in refs && keep(r)
  {
    if refs != [] {
      PickMember(keep, refs[..|refs| - 1], r);
      assert refs == refs[..|refs| - 1] + [refs[|refs| - 1]];
    }
  }

  ghost predicate Ascending(refs: seq<LinkRef>) {
    forall i, j :: 0 <= i < j < |refs| ==> refs[i].line <= refs[j].line
  }

  ghost predicate SameOnLines(a: seq<LinkRef>, b: seq<LinkRef>) {
    forall k: nat {:trigger Pick(OnLine(k), a)} {:trigger Pick(OnLine(k), b)} :: Pick(OnLine(k), a) == Pick(OnLine(k), b)
  }

  lemma LastLine(a: seq<LinkRef>, b: seq<LinkRef>)
    requires Ascending(a) && Ascending(b) && SameOnLines(a, b) && a != []
    ensures b != [] && b[|b| - 1] == a[|a| - 1]
  {
    var x := a[|a| - 1];
    var here := Pick(OnLine(x.line), a);
    assert here == Pick(OnLine(x.line), b);
    PickMember(OnLine(x.line), b, x);
    PickMember(OnLine(x.line), a, x);
    var y := b[|b| - 1];
    PickMember(OnLine(y.line), a, y);
    PickMember(OnLine(y.line), b, y);
    assert Pick(OnLine(y.line), a) == Pick(OnLine(y.line), b);
    var i :| 0 <= i < |b| && b[i] == x;
    var j :| 0 <= j < |a| && a[j] == y;
    assert x.line <= y.line && y.line <= x.line;
    LastPicked(OnLine(x.line), a);
    LastPicked(OnLine(x.line), b);
  }

  lemma LastPicked(keep: LinkRef -> bool, refs: seq<LinkRef>)
    requires refs != [] && keep(refs[|refs| - 1])
    ensures Pick(keep, refs) != [] && Pick(keep, refs)[|Pick(keep, refs)| - 1] == refs[|refs| - 1]
  {
  }

  lemma PickFront(keep: LinkRef -> bool, refs: seq<LinkRef>)
    requires refs != []
    ensures Pick(keep, refs) == Pick(keep, refs[..|refs| - 1]) + if keep(refs[|refs| - 1]) then [refs[|refs| - 1]] else []
  {
  }

  lemma Cancel(x: seq<LinkRef>, y: seq<LinkRef>, t: seq<LinkRef>)
    requires x + t == y + t
    ensures x == y
  {
    assert |x| == |y|;
    assert (x + t)[..|x|] == x && (y + t)[..|x|] == y;
  }

  /** Ascending lists that agree on every line are one list. */
  lemma {:induction false} LinesDecide(a: seq<LinkRef>, b: seq<LinkRef>)
    requires Ascending(a) && Ascending(b) && SameOnLines(a, b)
    ensures a == b
    decreases |a|
  {
    if a == [] {
      if b != [] {
        LastLine(b, a);
      }
    } else {
      LastLine(a, b);
      var p, q := a[..|a| - 1], b[..|b| - 1];
      forall k: nat
        ensures Pick(OnLine(k), p) == Pick(OnLine(k), q)
      {
        assert Pick(OnLine(k), a) == Pick(OnLine(k), b);
        PickFront(OnLine(k), a);
        PickFront(OnLine(k), b);
        Cancel(Pick(OnLine(k), p), Pick(OnLine(k), q), if OnLine(k)(a[|a| - 1]) then [a[|a| - 1]] else []);
      }
      LinesDecide(p, q);
      assert a == p + [a[|a| - 1]] && b == q + [b[|b| - 1]];
    }
  }

  // ---- a scan by the parts the lines play ----

  ghost function ScanBy(lines: seq<string>, roles: seq<Role>, n: nat): Scan
    requires n <= |lines| == |roles|
  {
    if n == 0 then Scan([], Outside, None) else ScanAs(ScanBy(lines, roles, n - 1), roles[n - 1], lines[n - 1], n)
  }

  ghost function RefsBy(lines: seq<string>, roles: seq<Role>): seq<LinkRef>
    requires |lines| == |roles|
  {
    var s := ScanBy(lines, roles, |lines|);
    s.refs + Flush(s.pending)
  }

  /** No link is pending where a block's text begins. */
  ghost predicate Coherent(lines: seq<string>, roles: seq<Role>)
    requires |lines| == |roles|
  {
    forall i {:trigger ScanBy(lines, roles, i)} :: 0 <= i < |lines| && roles[i].Content? ==> ScanBy(lines, roles, i).pending == None
  }

  /** References of the first n lines, in order; dot nodes on text of blocks, links elsewhere. */
  ghost predicate Tidy(roles: seq<Role>, refs: seq<LinkRef>, n: nat)
    requires n <= |roles|
  {
    && Ascending(refs)
    && forall r :: r in refs ==> 1 <= r.line <= n && (r.kind == DotNode <==> roles[r.line - 1].Content?)
  }

  ghost predicate PendingTidy(roles: seq<Role>, s: Scan, n: nat)
    requires n <= |roles|
  {
    s.pending.Some? ==>
      var p := s.pending.value;
      1 <= p.line <= n && !roles[p.line - 1].Content? && forall r :: r in s.refs ==> r.line <= p.line
  }

  /** What a line adds stands on it, or is the link that was pending, put first. */
  ghost predicate AddsTidy(pending: Option<Pending>, r: Role, no: nat, a: Found) {
    && (forall x :: x in a.refs ==> (x.kind == DotNode <==> r.Content?))
    && (forall i :: 0 <= i < |a.refs| ==> a.refs[i].line == no || (i == 0 && pending.Some? && a.refs[i].line == pending.value.line))
    && (a.pending.Some? ==> a.pending.value.line == no || (a.refs == [] && pending.Some? && a.pending.value.line == pending.value.line))
    && (a.pending.Some? && a.pending.value.line == no ==> !r.Content?)
  }

  lemma {:induction false} WikiFromTidy(line: string, no: nat, idx: nat)
    requires idx <= |line|
    ensures var f := WikiFrom(line, no, idx);
            (forall i :: 0 <= i < |f.refs| ==> f.refs[i].line == no) && (f.pending.Some? ==> f.pending.value.line == no)
    decreases |line| - idx
  {
    hide WikiFrom, Find;
    WikiNext(line, no, idx);
    var open := Find(line, "[[", idx);
    if open.Some? {
      var close := Find(line, "]]", open.value + 2);
      if close.Some? {
        WikiFromTidy(line, no, close.value + 2);
      }
    }
  }

  lemma WikiLineTidy(line: string, no: nat, pending: Option<Pending>)
    ensures AddsTidy(pending, Prose, no, WikiLine(line, no, pending))
  {
    hide WikiFrom, Find, TrimSpace, Truncate;
    WikiLineNoDots(line, no, pending);
    if pending.None? {
      WikiFromTidy(line, no, 0);
    } else {
      var open, close := Find(line, "[[", 0), Find(line, "]]", 0);
      if open.Some? && (close.None? || open.value < close.value) {
        WikiFromTidy(line, no, open.value);
      } else if close.Some? {
        WikiFromTidy(line, no, close.value + 2);
      }
    }
  }

  lemma {:induction false} HashesTidy(line: string, no: nat, n: nat)
    requires n <= |line|
    ensures forall r :: r in BareHashes(line, no, n) ==> r.line == no && r.kind == DotNode
  {
    if n > 0 {
      HashesTidy(line, no, n - 1);
    }
  }

  lemma RoleTidy(pending: Option<Pending>, r: Role, line: string, no: nat)
    requires r.Content? ==> pending.None?
    ensures AddsTidy(pending, r, no, Adds(pending, r, line, no))
  {
    hide WikiLine, BareHashes, TrimSpace, Truncate;
    WikiLineTidy(line, no, pending);
    HashesTidy(line, no, |line|);
  }

  lemma TidyNext(roles: seq<Role>, s: Scan, r: Role, a: Found, n: nat)
    requires 0 < n <= |roles| && roles[n - 1] == r && Tidy(roles, s.refs, n - 1) && PendingTidy(roles, s, n - 1)
    requires AddsTidy(s.pending, r, n, a) && (r.Content? ==> s.pending.None?)
    ensures Tidy(roles, s.refs + a.refs, n)
    ensures PendingTidy(roles, Scan(s.refs + a.refs, AfterRole(s.fence, r), a.pending), n)
  {
    hide AfterRole;
    var all := s.refs + a.refs;
    forall i, j | 0 <= i < j < |all|
      ensures all[i].line <= all[j].line
    {
      assert i < |s.refs| ==> all[i] in s.refs;
    }
    forall x | x in all
      ensures 1 <= x.line <= n && (x.kind == DotNode <==> roles[x.line - 1].Content?)
    {
      if x !in s.refs {
        var i :| 0 <= i < |a.refs| && a.refs[i] == x;
      }
    }
  }

  lemma {:induction false} ScanTidy(lines: seq<string>, roles: seq<Role>, n: nat)
    requires n <= |lines| == |roles| && Coherent(lines, roles)
    ensures Tidy(roles, ScanBy(lines, roles, n).refs, n) && PendingTidy(roles, ScanBy(lines, roles, n), n)
  {
    hide Adds, AddsTidy, Tidy, PendingTidy;
    if n == 0 {
      NothingTidy(roles);
    } else {
      ScanTidy(lines, roles, n - 1);
      var s := ScanBy(lines, roles, n - 1);
      RoleTidy(s.pending, roles[n - 1], lines[n - 1], n);
      TidyNext(roles, s, roles[n - 1], Adds(s.pending, roles[n - 1], lines[n - 1], n), n);
    }
  }

  lemma NothingTidy(roles: seq<Role>)
    ensures Tidy(roles, [], 0) && PendingTidy(roles, Scan([], Outside, None), 0)
  {
  }

  lemma RefsTidy(lines: seq<string>, roles: seq<Role>)
    requires |lines| == |roles| && Coherent(lines, roles)
    ensures Tidy(roles, RefsBy(lines, roles), |lines|)
  {
    hide ScanBy, Truncate;
    ScanTidy(lines, roles, |lines|);
    var s := ScanBy(lines, roles, |lines|);
    var all := s.refs + Flush(s.pending);
    forall x | x in all
      ensures 1 <= x.line <= |lines| && (x.kind == DotNode <==> roles[x.line - 1].Content?)
    {
    }
    forall i, j | 0 <= i < j < |all|
      ensures all[i].line <= all[j].line
    {
      assert all[i] in s.refs;
    }
  }

  // ---- what stands on a line of a block ----

  /** The dot nodes of line k: its standalone ids when it is text of a dot block, and none otherwise. */
  function DotsAt(lines: seq<string>, roles: seq<Role>, k: nat): seq<LinkRef>
    requires |lines| == |roles| && 1 <= k <= |lines|
  {
    if roles[k - 1] == Content("dot") then BareHashes(lines[k - 1], k, |lines[k - 1]|) else []
  }

  lemma OthersDots(a: seq<LinkRef>, k: nat, no: nat, r: Role, pending: Option<Pending>, found: Found)
    requires AddsTidy(pending, r, no, found) && a == found.refs && no != k && (r.Content? ==> pending.None?)
    ensures Pick(DotOn(k), a) == []
  {
    forall x | x in a
      ensures !DotOn(k)(x)
    {
      var i :| 0 <= i < |a| && a[i] == x;
    }
    PickNone(DotOn(k), a);
  }

  lemma DotsStep(s: Scan, r: Role, line: string, no: nat, k: nat)
    requires r.Content? ==> s.pending.None?
    ensures Pick(DotOn(k), ScanAs(s, r, line, no).refs) ==
            Pick(DotOn(k), s.refs) + if k == no && r == Content("dot") then BareHashes(line, no, |line|) else []
  {
    hide Adds, AddsTidy, BareHashes, Pick, AfterRole;
    var a := Adds(s.pending, r, line, no);
    RoleTidy(s.pending, r, line, no);
    PickConcat(DotOn(k), s.refs, a.refs);
    if k == no {
      OwnDots(s.pending, r, line, no);
    } else {
      OthersDots(a.refs, k, no, r, s.pending, a);
    }
  }

  lemma {:induction false} DotsExactly(lines: seq<string>, roles: seq<Role>, n: nat, k: nat)
    requires n <= |lines| == |roles| && Coherent(lines, roles) && 1 <= k <= |lines|
    ensures Pick(DotOn(k), ScanBy(lines, roles, n).refs) == if k <= n then DotsAt(lines, roles, k) else []
  {
    hide ScanAs, BareHashes;
    if n > 0 {
      hide Pick;
      DotsExactly(lines, roles, n - 1, k);
      DotsStep(ScanBy(lines, roles, n - 1), roles[n - 1], lines[n - 1], n, k);
    }
  }

  lemma OwnDots(pending: Option<Pending>, r: Role, line: string, no: nat)
    requires r.Content? ==> pending.None?
    ensures Pick(DotOn(no), Adds(pending, r, line, no).refs) == if r == Content("dot") then BareHashes(line, no, |line|) else []
  {
    hide BareHashes, WikiLine, TrimSpace, Truncate;
    var a := Adds(pending, r, line, no).refs;
    RoleTidy(pending, r, line, no);
    HashesTidy(line, no, |line|);
    if r == Content("dot") {
      PickAll(DotOn(no), a);
    } else {
      PickNone(DotOn(no), a);
    }
  }

  lemma DotsBy(lines: seq<string>, roles: seq<Role>, k: nat)
    requires |lines| == |roles| && Coherent(lines, roles) && 1 <= k <= |lines|
    ensures Pick(DotOn(k), RefsBy(lines, roles)) == DotsAt(lines, roles, k)
  {
    hide ScanBy, BareHashes, Truncate;
    DotsExactly(lines, roles, |lines|, k);
    var s := ScanBy(lines, roles, |lines|);
    PickConcat(DotOn(k), s.refs, Flush(s.pending));
    PickNone(DotOn(k), Flush(s.pending));
  }

  /** On one line stand dot nodes or links, not both. */
  lemma OneKind(roles: seq<Role>, refs: seq<LinkRef>, n: nat, k: nat)
    requires n <= |roles| && Tidy(roles, refs, n)
    ensures Pick(OnLine(k), refs) == Pick(DotOn(k), refs) + LinksOn(refs, k)
    ensures Pick(DotOn(k), refs) == [] || LinksOn(refs, k) == []
  {
    if 1 <= k <= n && roles[k - 1].Content? {
      PickSame(OnLine(k), DotOn(k), refs);
      PickNone(LinkOn(k), refs);
    } else {
      PickSame(OnLine(k), LinkOn(k), refs);
      PickNone(DotOn(k), refs);
    }
  }

  ghost predicate SameDots(a: seq<LinkRef>, b: seq<LinkRef>, n: nat) {
    forall k: nat {:trigger Pick(DotOn(k), a)} {:trigger Pick(DotOn(k), b)} :: 1 <= k <= n ==> Pick(DotOn(k), a) == Pick(DotOn(k), b)
  }

  ghost predicate SameLinks(a: seq<LinkRef>, b: seq<LinkRef>, n: nat) {
    forall k: nat {:trigger LinksOn(a, k)} {:trigger LinksOn(b, k)} :: 1 <= k <= n ==> LinksOn(a, k) == LinksOn(b, k)
  }

  /** Two tidy lists are one exactly when every line holds the same dot nodes and the same links in both. */
  lemma SplitExactly(r1: seq<Role>, a: seq<LinkRef>, r2: seq<Role>, b: seq<LinkRef>, n: nat)
    requires n <= |r1| && n <= |r2| && Tidy(r1, a, n) && Tidy(r2, b, n)
    ensures a == b <==> SameDots(a, b, n) && SameLinks(a, b, n)
  {
    hide Pick, Tidy;
    if SameDots(a, b, n) && SameLinks(a, b, n) {
      forall k: nat
        ensures Pick(OnLine(k), a) == Pick(OnLine(k), b)
      {
        OneKind(r1, a, n, k);
        OneKind(r2, b, n, k);
        if !(1 <= k <= n) {
          OffLines(r1, a, n, k);
          OffLines(r2, b, n, k);
        } else {
          assert LinksOn(a, k) == LinksOn(b, k);
        }
      }
      TidyAscends(r1, a, n);
      TidyAscends(r2, b, n);
      LinesDecide(a, b);
    }
  }

  lemma TidyAscends(roles: seq<Role>, refs: seq<LinkRef>, n: nat)
    requires n <= |roles| && Tidy(roles, refs, n)
    ensures Ascending(refs)
  {
  }

  lemma OffLines(roles: seq<Role>, refs: seq<LinkRef>, n: nat, k: nat)
    requires n <= |roles| && Tidy(roles, refs, n) && !(1 <= k <= n)
    ensures Pick(OnLine(k), refs) == []
  {
    PickNone(OnLine(k), refs);
  }

  // ---- the scanner and section 4.5 ----

  ghost function ScannedRoles(lines: seq<string>): (r: seq<Role>)
    ensures |r| == |lines| && forall i :: 0 <= i < |r| ==> r[i] == ScannedRole(FenceBefore(lines, i), lines[i])
  {
    seq(|lines|, i requires 0 <= i < |lines| => ScannedRole(FenceBefore(lines, i), lines[i]))
  }

  ghost function SpecRoles(lines: seq<string>): (r: seq<Role>)
    ensures |r| == |lines| && forall i :: 0 <= i < |r| ==> r[i] == RoleOf(BlockBefore(lines, i), lines[i])
  {
    seq(|lines|, i requires 0 <= i < |lines| => RoleOf(BlockBefore(lines, i), lines[i]))
  }

  lemma {:induction false} ScannedBy(lines: seq<string>, n: nat)
    requires n <= |lines|
    ensures ScanTo(lines, n) == ScanBy(lines, ScannedRoles(lines), n)
    ensures FenceBefore(lines, n).Inside? ==> ScanTo(lines, n).pending == None
  {
    hide ScanLine, ScannedRole, ScanAs, ScanTo, ScannedRoles, FenceBefore;
    ScanStep(lines, n);
    FenceFollows(lines, n);
    if n > 0 {
      ScannedBy(lines, n - 1);
      FenceFollows(lines, n - 1);
      ScanByRole(ScanTo(lines, n - 1), lines[n - 1], n);
      ScannedPending(ScanTo(lines, n - 1), lines[n - 1], n);
    } else {
      assert ScanTo(lines, 0).pending == None;
    }
  }

  lemma ScannedPending(s: Scan, line: string, no: nat)
    requires s.fence.Inside? ==> s.pending == None
    ensures var t := ScanAs(s, ScannedRole(s.fence, line), line, no); t.fence.Inside? ==> t.pending == None
  {
    hide FenceMarker, WikiLine, BareHashes, TrimSpace;
  }

  lemma {:induction false} ReadBy(lines: seq<string>, n: nat)
    requires n <= |lines|
    ensures ReadTo(lines, n) == ScanBy(lines, SpecRoles(lines), n)
  {
    hide RoleOf, ScanAs, ReadTo, SpecRoles, BlockBefore;
    ReadStep(lines, n);
    if n > 0 {
      ReadBy(lines, n - 1);
      BlockFollows(lines, n - 1);
    }
  }

  lemma ContentInside(f: Fence, line: string)
    ensures ScannedRole(f, line).Content? || RoleOf(f, line).Content? ==> f.Inside?
  {
    hide FenceMarker, Opens, Closes;
  }

  lemma BothCoherent(lines: seq<string>)
    ensures Coherent(lines, ScannedRoles(lines)) && Coherent(lines, SpecRoles(lines))
  {
    hide ScannedRole, RoleOf, ScanBy, ScanTo, ReadTo, BlockBefore, FenceBefore;
    forall i {:trigger ScanBy(lines, ScannedRoles(lines), i)} | 0 <= i < |lines| && ScannedRoles(lines)[i].Content?
      ensures ScanBy(lines, ScannedRoles(lines), i).pending == None
    {
      ScannedBy(lines, i);
      ContentInside(FenceBefore(lines, i), lines[i]);
    }
    forall i {:trigger ScanBy(lines, SpecRoles(lines), i)} | 0 <= i < |lines| && SpecRoles(lines)[i].Content?
      ensures ScanBy(lines, SpecRoles(lines), i).pending == None
    {
      ReadBy(lines, i);
      BlockFollows(lines, i);
      ContentInside(BlockBefore(lines, i), lines[i]);
    }
  }

  lemma BothBy(src: string)
    ensures ScanOf(src) == RefsBy(Lines(src), ScannedRoles(Lines(src)))
    ensures ReadOf(src) == RefsBy(Lines(src), SpecRoles(Lines(src)))
  {
    hide ScanBy, ScanTo, ReadTo, ScannedRoles, SpecRoles;
    ScannedBy(Lines(src), |Lines(src)|);
    ReadBy(Lines(src), |Lines(src)|);
  }

  /** A line that holds node ids is text of a dot block to both, or to neither. */
  ghost predicate DotsAgree(lines: seq<string>, i: nat)
    requires i < |lines|
  {
    HoldsHash(lines[i]) ==> (InDot(lines, i) <==> InDotBlock(lines, i))
  }

  lemma DotsAgreeExactly(lines: seq<string>, i: nat)
    requires i < |lines|
    ensures DotsAt(lines, ScannedRoles(lines), i + 1) == DotsAt(lines, SpecRoles(lines), i + 1) <==> DotsAgree(lines, i)
  {
    hide ScannedRole, RoleOf, BareHashes, HoldsHash, FenceMarker, FenceBefore, BlockBefore;
    HashesHeld(lines[i], i + 1);
    ContentExactly(FenceBefore(lines, i), lines[i]);
  }

  /**
   On every document: the scanner returns the references of section 4.5 exactly when every line that
   holds node ids is text of a dot block to both or to neither, and the same links open on every line.
   */
  lemma RefsLineByLine(src: string)
    ensures var lines := Lines(src);
            ScanOf(src) == ReadOf(src) <==>
            (forall i :: 0 <= i < |lines| ==> DotsAgree(lines, i)) && SameLinks(ScanOf(src), ReadOf(src), |lines|)
  {
    hide ScanOf, ReadOf, RefsBy, DotsAgree, DotsAt, Lines, Coherent, Tidy, ScannedRoles, SpecRoles, SameLinks, Pick;
    var lines := Lines(src);
    var n, a, b := |lines|, ScanOf(src), ReadOf(src);
    BothBy(src);
    BothCoherent(lines);
    RefsTidy(lines, ScannedRoles(lines));
    RefsTidy(lines, SpecRoles(lines));
    SplitExactly(ScannedRoles(lines), a, SpecRoles(lines), b, n);
    forall k: nat | 1 <= k <= n
      ensures Pick(DotOn(k), a) == Pick(DotOn(k), b) <==> DotsAgree(lines, k - 1)
    {
      DotsBy(lines, ScannedRoles(lines), k);
      DotsBy(lines, SpecRoles(lines), k);
      DotsAgreeExactly(lines, k - 1);
    }
    DotsByLine(lines, a, b);
  }

  lemma DotsByLine(lines: seq<string>, a: seq<LinkRef>, b: seq<LinkRef>)
    requires forall k: nat {:trigger Pick(DotOn(k), a)} :: 1 <= k <= |lines| ==> (Pick(DotOn(k), a) == Pick(DotOn(k), b) <==> DotsAgree(lines, k - 1))
    ensures SameDots(a, b, |lines|) <==> forall i :: 0 <= i < |lines| ==> DotsAgree(lines, i)
  {
    hide Pick, DotsAgree;
    if SameDots(a, b, |lines|) {
      forall i: nat | i < |lines|
        ensures DotsAgree(lines, i)
      {
        assert Pick(DotOn(i + 1), a) == Pick(DotOn(i + 1), b);
      }
    }
  }

  /** The dot nodes alone: the two readings find the same ones exactly on that condition. */
  lemma DotNodesExactly(src: string)
    ensures var lines := Lines(src);
            SameDots(ScanOf(src), ReadOf(src), |lines|) <==> forall i :: 0 <= i < |lines| ==> DotsAgree(lines, i)
  {
    hide ScanOf, ReadOf, RefsBy, DotsAgree, DotsAt, Lines, Coherent, ScannedRoles, SpecRoles, Pick, SameDots;
    var lines := Lines(src);
    BothBy(src);
    BothCoherent(lines);
    forall k: nat | 1 <= k <= |lines|
      ensures Pick(DotOn(k), ScanOf(src)) == Pick(DotOn(k), ReadOf(src)) <==> DotsAgree(lines, k - 1)
    {
      DotsBy(lines, ScannedRoles(lines), k);
      DotsBy(lines, SpecRoles(lines), k);
      DotsAgreeExactly(lines, k - 1);
    }
    DotsByLine(lines, ScanOf(src), ReadOf(src));
  }

  // ---- the rename sweep ----

  lemma {:induction false} PickSwap(keep: LinkRef -> bool, oldId: string, newId: string, refs: seq<LinkRef>)
    requires forall r :: keep(SwapRef(oldId, newId, r)) == keep(r)
    ensures Pick(keep, SwapRefs(oldId, newId, refs)) == SwapRefs(oldId, newId, Pick(keep, refs))
  {
    if refs != [] {
      var init, last := refs[..|refs| - 1], refs[|refs| - 1];
      assert refs == init + [last];
      PickSwap(keep, oldId, newId, init);
      SwapConcat(oldId, newId, init, [last]);
      var swapped := SwapRefs(oldId, newId, refs);
      assert swapped[..|swapped| - 1] == SwapRefs(oldId, newId, init);
      assert SwapRefs(oldId, newId, [last]) == [SwapRef(oldId, newId, last)];
      SwapConcat(oldId, newId, Pick(keep, init), if keep(last) then [last] else []);
      assert SwapRefs(oldId, newId, []) == [];
    }
  }

  /** Swapping ids leaves the links of every line alone. */
  lemma SwappedLinks(oldId: string, newId: string, refs: seq<LinkRef>, k: nat)
    ensures LinksOn(SwapRefs(oldId, newId, refs), k) == LinksOn(refs, k)
  {
    PickSwap(LinkOn(k), oldId, newId, refs);
    var links := LinksOn(refs, k);
    forall r | r in links
      ensures r.kind != DotNode
    {
      PickMember(LinkOn(k), refs, r);
    }
    SwapNothing(oldId, newId, links);
  }

  lemma SwapTidy(roles: seq<Role>, refs: seq<LinkRef>, n: nat, oldId: string, newId: string)
    requires n <= |roles| && Tidy(roles, refs, n)
    ensures Tidy(roles, SwapRefs(oldId, newId, refs), n)
  {
    var after := SwapRefs(oldId, newId, refs);
    hide SwapRefs;
    assert forall i :: 0 <= i < |after| ==> after[i].line == refs[i].line && (after[i].kind == DotNode <==> refs[i].kind == DotNode);
    forall x | x in after
      ensures 1 <= x.line <= n && (x.kind == DotNode <==> roles[x.line - 1].Content?)
    {
      var i :| 0 <= i < |after| && after[i] == x;
      assert refs[i] in refs;
    }
  }

  lemma SweptRoles(lines: seq<string>, oldId: string, newId: string, out: seq<string>)
    requires InvariantChecker.IsHash(oldId) && InvariantChecker.IsHash(newId) && Swept(lines, oldId, newId, out)
    ensures |out| == |lines| && SpecRoles(out) == SpecRoles(lines)
  {
    hide InvariantChecker.IsHash, Swept, SweptLine, RoleOf, BlockBefore, SpecRoles;
    SweptCount(lines, oldId, newId, out);
    forall i | 0 <= i < |lines|
      ensures SpecRoles(out)[i] == SpecRoles(lines)[i]
    {
      SweptAt(lines, oldId, newId, out, i);
      SweptBlocks(lines, oldId, newId, out, i);
      SweptRole(lines, oldId, newId, out, i, BlockBefore(lines, i));
    }
  }

  /** The ids of a dot line come out swapped exactly when the line is not left stale. */
  lemma SweptDots(lines: seq<string>, oldId: string, newId: string, out: seq<string>, i: nat)
    requires InvariantChecker.IsHash(oldId) && InvariantChecker.IsHash(newId) && oldId != newId
    requires i < |lines| == |out| && SweptLine(lines, oldId, newId, i, out[i]) && InDotBlock(lines, i)
    ensures BareHashes(out[i], i + 1, |out[i]|) == SwapRefs(oldId, newId, BareHashes(lines[i], i + 1, |lines[i]|)) <==> !StaleAt(lines, oldId, i)
  {
    hide InvariantChecker.IsHash, BareHashes, Repointed, Alike, Seen, RoleOf, FenceMarker, FenceBefore, BlockBefore, SwapRefs;
    var line, no := lines[i], i + 1;
    var refs := BareHashes(line, no, |line|);
    if InDot(lines, i) {
      RepointedAlike(line, oldId, newId, out[i]);
      SameLength(line, out[i]);
      HashesAfter(line, oldId, newId, out[i], no, |line|);
    } else if !NamesOld(line, oldId) {
      NothingNamed(line, oldId, newId);
      AlikeItself(line);
      HashesAfter(line, oldId, newId, line, no, |line|);
    } else {
      StillNamed(line, no, oldId, newId);
    }
  }

  lemma StillNamed(line: string, no: nat, oldId: string, newId: string)
    requires NamesOld(line, oldId) && oldId != newId
    ensures BareHashes(line, no, |line|) != SwapRefs(oldId, newId, BareHashes(line, no, |line|))
  {
    hide BareHashes, NamesOld;
    var refs := BareHashes(line, no, |line|);
    NamesMember(line, no, oldId);
    HashesAreDots(line, no, |line|);
    var r :| r in refs && r.target == oldId;
    SwappedTargets(oldId, newId, refs);
    assert DotTarget(refs, oldId);
  }

  lemma DotSwap(oldId: string, newId: string, refs: seq<LinkRef>, k: nat)
    ensures Pick(DotOn(k), SwapRefs(oldId, newId, refs)) == SwapRefs(oldId, newId, Pick(DotOn(k), refs))
  {
    PickSwap(DotOn(k), oldId, newId, refs);
  }

  lemma SweptDotsAt(lines: seq<string>, oldId: string, newId: string, out: seq<string>, k: nat)
    requires InvariantChecker.IsHash(oldId) && InvariantChecker.IsHash(newId) && oldId != newId && Swept(lines, oldId, newId, out)
    requires 1 <= k <= |lines| == |out| && SpecRoles(out) == SpecRoles(lines)
    ensures DotsAt(out, SpecRoles(out), k) == SwapRefs(oldId, newId, DotsAt(lines, SpecRoles(lines), k)) <==> !StaleAt(lines, oldId, k - 1)
  {
    hide InvariantChecker.IsHash, Swept, SweptLine, RoleOf, BlockBefore, SpecRoles, BareHashes, InDot, NamesOld;
    SweptAt(lines, oldId, newId, out, k - 1);
    if InDotBlock(lines, k - 1) {
      SweptDots(lines, oldId, newId, out, k - 1);
    } else {
      SwapNothing(oldId, newId, []);
    }
  }

  lemma StaleByLine(lines: seq<string>, oldId: string, a: seq<LinkRef>, b: seq<LinkRef>)
    requires forall k: nat {:trigger Pick(DotOn(k), a)} :: 1 <= k <= |lines| ==> (Pick(DotOn(k), a) == Pick(DotOn(k), b) <==> !StaleAt(lines, oldId, k - 1))
    ensures SameDots(a, b, |lines|) <==> NothingStale(lines, oldId)
  {
    hide Pick, StaleAt;
    if SameDots(a, b, |lines|) {
      forall i: nat | i < |lines|
        ensures !StaleAt(lines, oldId, i)
      {
        assert Pick(DotOn(i + 1), a) == Pick(DotOn(i + 1), b);
      }
    }
  }

  /**
   On every document: the swept document reads by section 4.5 as the original with the old id replaced in
   dot nodes exactly when every dot line that names it is one to the sweep, and every line opens the
   links it opened before.
   */
  lemma AgreesLineByLine(data: string, oldId: string, newId: string, out: string)
    requires InvariantChecker.IsHash(oldId) && InvariantChecker.IsHash(newId) && oldId != newId && Swept(Lines(data), oldId, newId, Lines(out))
    ensures ReadOf(out) == SwapRefs(oldId, newId, ReadOf(data)) <==>
            NothingStale(Lines(data), oldId) && SameLinks(ReadOf(out), ReadOf(data), |Lines(data)|)
  {
    hide InvariantChecker.IsHash, Swept, ReadOf, RefsBy, DotsAt, Lines, Coherent, Tidy, SpecRoles, Pick, LinksOn, SwapRefs, StaleAt, NothingStale;
    var lines, after := Lines(data), Lines(out);
    var n, roles, a, b := |lines|, SpecRoles(lines), ReadOf(out), SwapRefs(oldId, newId, ReadOf(data));
    BothBy(data);
    BothBy(out);
    BothCoherent(lines);
    BothCoherent(after);
    SweptRoles(lines, oldId, newId, after);
    RefsTidy(lines, roles);
    RefsTidy(after, roles);
    SwapTidy(roles, ReadOf(data), n, oldId, newId);
    SplitExactly(roles, a, roles, b, n);
    forall k: nat | 1 <= k <= n
      ensures Pick(DotOn(k), a) == Pick(DotOn(k), b) <==> !StaleAt(lines, oldId, k - 1)
    {
      DotsBy(lines, roles, k);
      DotsBy(after, roles, k);
      DotSwap(oldId, newId, ReadOf(data), k);
      SweptDotsAt(lines, oldId, newId, after, k);
    }
    StaleByLine(lines, oldId, a, b);
    forall k: nat
      ensures LinksOn(b, k) == LinksOn(ReadOf(data), k)
    {
      SwappedLinks(oldId, newId, ReadOf(data), k);
    }
  }
}
