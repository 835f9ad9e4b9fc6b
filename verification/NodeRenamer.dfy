/**
 The renamer's sweep of dot fences, and its agreement with the scanner: what the
 scanner reads after a rename is what it read before, with the old id replaced.
 */
module NodeRenamer {
  import opened Results
  import opened Text
  import opened InvariantChecker
  import opened MarkdownScanner

  // ---- one line ----

  /** The old id stands alone at p. */
  predicate Names(line: string, oldId: string, p: nat) {
    Standalone(line, p) && line[p..p + 12] == oldId
  }

  /** Position k of the line lies in a standalone old id that starts at p. */
  predicate Covers(line: string, oldId: string, p: nat, k: nat) {
    Names(line, oldId, p) && p <= k < p + 12
  }

  ghost predicate Covered(line: string, oldId: string, k: nat) {
    exists p: nat :: Covers(line, oldId, p, k)
  }

  /** Every standalone old id has become the new one; everything else stands as it was. */
  ghost predicate Repointed(line: string, oldId: string, newId: string, out: string) {
    && |out| == |line|
    && (forall p: nat :: Names(line, oldId, p) ==> p + 12 <= |out| && out[p..p + 12] == newId)
    && (forall k: nat :: k < |line| && !Covered(line, oldId, k) ==> out[k] == line[k])
  }

  lemma NamesApart(line: string, oldId: string, p: nat, q: nat)
    requires Names(line, oldId, p) && Names(line, oldId, q) && p < q
    ensures p + 12 <= q
  {
    if q < p + 12 {
      TokensApart(line, p, q);
    }
  }

  /** What has been written of the line's first n characters. */
  ghost predicate Written(line: string, oldId: string, newId: string, out: string, n: nat) {
    && |out| == n <= |line|
    && (forall p: nat :: Names(line, oldId, p) && p < n ==> p + 12 <= n && out[p..p + 12] == newId)
    && (forall k: nat :: k < n && !Covered(line, oldId, k) ==> out[k] == line[k])
  }

  ghost predicate Seen(line: string, oldId: string, n: nat) {
    exists p: nat :: p < n && Names(line, oldId, p)
  }

  ghost predicate NoneIn(line: string, oldId: string, n: nat, m: nat) {
    forall p: nat :: n <= p < m ==> !Names(line, oldId, p)
  }

  /** Text without a name that starts in it, and into which none reaches, is copied. */
  lemma Copy(line: string, oldId: string, newId: string, out: string, n: nat, m: nat)
    requires Written(line, oldId, newId, out, n) && n <= m <= |line| && NoneIn(line, oldId, n, m)
    ensures Written(line, oldId, newId, out + line[n..m], m)
    ensures Seen(line, oldId, m) <==> Seen(line, oldId, n)
  {
    var more := out + line[n..m];
    forall p: nat | Names(line, oldId, p) && p < m
      ensures p + 12 <= m && more[p..p + 12] == newId
    {
      assert more[p..p + 12] == out[p..p + 12];
    }
  }

  lemma Replace(line: string, oldId: string, newId: string, out: string, n: nat)
    requires Written(line, oldId, newId, out, n) && Names(line, oldId, n) && |newId| == 12
    ensures Written(line, oldId, newId, out + newId, n + 12) && Seen(line, oldId, n + 12)
  {
    var more := out + newId;
    forall p: nat | Names(line, oldId, p) && p < n + 12
      ensures p + 12 <= n + 12 && more[p..p + 12] == newId
    {
      if p < n {
        assert more[p..p + 12] == out[p..p + 12];
      } else if p > n {
        NamesApart(line, oldId, n, p);
      }
    }
    forall k: nat | n <= k < n + 12
      ensures Covered(line, oldId, k)
    {
      assert Covers(line, oldId, n, k);
    }
  }

  method RepointBareHashLine(line: string, oldId: string, newId: string) returns (out: string, changed: bool)
    requires IsHash(oldId) && IsHash(newId)
    ensures Repointed(line, oldId, newId, out)
    ensures changed <==> Seen(line, oldId, |line|)
  {
    hide Written, Names, IsHash, Seen, NoneIn, Find, Repointed;
    out, changed := "", false;
    var i := 0;
    NothingWritten(line, oldId, newId);
    HashLength(newId);
    while true
      invariant i <= |line| && Written(line, oldId, newId, out, i)
      invariant changed <==> Seen(line, oldId, i)
      decreases |line| - i
    {
      var found := Find(line, oldId, i);
      FindFacts(line, oldId, i);
      if found.None? {
        NotFound(line, oldId, i, |line|);
        Copy(line, oldId, newId, out, i, |line|);
        out := out + line[i..];
        assert line[i..] == line[i..|line|];
        AllWritten(line, oldId, newId, out);
        return;
      }
      var start := found.value;
      var end := start + |oldId|;
      NotFound(line, oldId, i, start);
      Copy(line, oldId, newId, out, i, start);
      FoundHere(line, oldId, start);
      var before := start == 0 || !IsWordChar(line[start - 1]);
      var after := end == |line| || !IsWordChar(line[end]);
      if before && after {
        Replace(line, oldId, newId, out + line[i..start], start);
        out := out + line[i..start] + newId;
        changed := true;
        i := end;
      } else {
        OneIn(line, oldId, start);
        Copy(line, oldId, newId, out + line[i..start], start, start + 1);
        assert line[i..start] + line[start..start + 1] == line[i..start + 1];
        assert out + line[i..start] + line[start..start + 1] == out + line[i..start + 1];
        out := out + line[i..start + 1];
        i := start + 1;
      }
    }
  }

  lemma HashLength(id: string)
    requires IsHash(id)
    ensures |id| == 12
  {
  }

  lemma NothingWritten(line: string, oldId: string, newId: string)
    ensures Written(line, oldId, newId, "", 0) && !Seen(line, oldId, 0)
  {
  }

  lemma AllWritten(line: string, oldId: string, newId: string, out: string)
    requires Written(line, oldId, newId, out, |line|)
    ensures Repointed(line, oldId, newId, out)
  {
  }

  lemma NotFound(line: string, oldId: string, from: nat, to: nat)
    requires IsHash(oldId) && from <= to <= |line| && forall p: nat :: from <= p < to ==> !At(line, oldId, p)
    ensures NoneIn(line, oldId, from, to)
  {
    forall p: nat | from <= p < to
      ensures !Names(line, oldId, p)
    {
      assert !At(line, oldId, p);
    }
  }

  lemma OneIn(line: string, oldId: string, p: nat)
    requires !Names(line, oldId, p)
    ensures NoneIn(line, oldId, p, p + 1)
  {
  }

  lemma FoundHere(line: string, oldId: string, p: nat)
    requires IsHash(oldId) && At(line, oldId, p)
    ensures p + 12 <= |line| && |oldId| == 12
    ensures Names(line, oldId, p) <==> (p == 0 || !IsWordChar(line[p - 1])) && (p + 12 == |line| || !IsWordChar(line[p + 12]))
  {
  }

  // ---- the document ----

  /** The fence the n-th line stands in. */
  function FenceBefore(lines: seq<string>, n: nat): Fence
    requires n <= |lines|
  {
    if n == 0 then
      Outside
    else
      var m := FenceMarker(lines[n - 1]);
      if m.Some? then NextFence(FenceBefore(lines, n - 1), m.value) else FenceBefore(lines, n - 1)
  }

  /** A line of a dot fence that is not itself a fence. */
  predicate InDot(lines: seq<string>, i: nat)
    requires i < |lines|
  {
    FenceMarker(lines[i]).None? && FenceBefore(lines, i).Inside? && FenceBefore(lines, i).info == "dot"
  }

  ghost predicate SweptLine(lines: seq<string>, oldId: string, newId: string, i: nat, line: string)
    requires i < |lines|
  {
    if InDot(lines, i) then Repointed(lines[i], oldId, newId, line) else line == lines[i]
  }

  /** The lines of dot fences are repointed, all others untouched. */
  ghost predicate Swept(lines: seq<string>, oldId: string, newId: string, out: seq<string>) {
    |out| == |lines| && forall i :: 0 <= i < |lines| ==> SweptLine(lines, oldId, newId, i, out[i])
  }

  ghost predicate NamedInDot(lines: seq<string>, oldId: string, i: nat)
    requires i < |lines|
  {
    InDot(lines, i) && Seen(lines[i], oldId, |lines[i]|)
  }

  /** The sweep so far: the first n lines done, the rest as read. */
  ghost predicate Sweeping(lines: seq<string>, oldId: string, newId: string, out: seq<string>, n: nat) {
    n <= |lines| == |out| && forall i :: 0 <= i < |lines| ==> if i < n then SweptLine(lines, oldId, newId, i, out[i]) else out[i] == lines[i]
  }

  ghost predicate AnyNamed(lines: seq<string>, oldId: string, n: nat)
    requires n <= |lines|
  {
    exists i :: 0 <= i < n && NamedInDot(lines, oldId, i)
  }

  method SweepLines(lines: seq<string>, oldId: string, newId: string) returns (out: seq<string>, changed: bool)
    requires IsHash(oldId) && IsHash(newId)
    ensures Swept(lines, oldId, newId, out)
    ensures changed <==> AnyNamed(lines, oldId, |lines|)
    ensures !changed ==> out == lines
  {
    hide FenceMarker, Repointed, Seen, IsHash;
    out, changed := lines, false;
    var fence := Outside;
    for i := 0 to |lines|
      invariant fence == FenceBefore(lines, i) && Sweeping(lines, oldId, newId, out, i)
      invariant changed <==> AnyNamed(lines, oldId, i)
      invariant !changed ==> out == lines
    {
      var line := lines[i];
      var m := ReadFenceMarker(line);
      if m.Some? {
        fence := NextFence(fence, m.value);
      } else if fence.Inside? && fence.info == "dot" {
        var newLine, found := RepointBareHashLine(line, oldId, newId);
        if found {
          out := out[i := newLine];
          changed := true;
        } else {
          NothingNamed(line, oldId, newId);
        }
      }
      AnyNext(lines, oldId, i);
    }
  }

  lemma AnyNext(lines: seq<string>, oldId: string, i: nat)
    requires i < |lines|
    ensures AnyNamed(lines, oldId, i + 1) <==> AnyNamed(lines, oldId, i) || NamedInDot(lines, oldId, i)
  {
    hide NamedInDot;
  }

  lemma NothingNamed(line: string, oldId: string, newId: string)
    requires !Seen(line, oldId, |line|)
    ensures Repointed(line, oldId, newId, line)
  {
    forall p: nat
      ensures !Names(line, oldId, p)
    {
      assert p >= |line| ==> !Standalone(line, p);
    }
  }

  method RepointDotNodeRefs(data: string, oldId: string, newId: string) returns (out: string, changed: bool)
    requires IsHash(oldId) && IsHash(newId)
    ensures Swept(Lines(data), oldId, newId, Lines(out))
    ensures changed <==> AnyNamed(Lines(data), oldId, |Lines(data)|)
    ensures !changed ==> out == data
  {
    hide Swept, AnyNamed;
    var lines;
    lines, changed := SweepLines(Lines(data), oldId, newId);
    if !changed {
      return data, false;
    }
    SweptLinesPlain(Lines(data), oldId, newId, lines);
    LinesJoin(lines);
    return Join(lines), true;
  }

  // ---- agreement ----

  predicate Similar(a: char, b: char) {
    a == b || (IsHexDigit(a) && IsHexDigit(b))
  }

  /** The lines differ only in hex digits. */
  ghost predicate Alike(line: string, out: string) {
    |out| == |line| && forall k :: 0 <= k < |line| ==> Similar(line[k], out[k])
  }

  lemma RepointedAlike(line: string, oldId: string, newId: string, out: string)
    requires IsHash(oldId) && IsHash(newId) && Repointed(line, oldId, newId, out)
    ensures Alike(line, out)
  {
    forall k: nat | k < |line|
      ensures Similar(line[k], out[k])
    {
      if Covered(line, oldId, k) {
        var p: nat :| Covers(line, oldId, p, k);
        assert line[k] == line[p..p + 12][k - p] == oldId[k - p] && oldId[k - p] in oldId;
        assert out[k] == out[p..p + 12][k - p] == newId[k - p] && newId[k - p] in newId;
      }
    }
  }

  lemma SweptLinesPlain(lines: seq<string>, oldId: string, newId: string, out: seq<string>)
    requires IsHash(oldId) && IsHash(newId) && Swept(lines, oldId, newId, out) && lines != []
    requires forall i :: 0 <= i < |lines| ==> '\n' !in lines[i]
    ensures out != [] && forall i :: 0 <= i < |out| ==> '\n' !in out[i]
  {
    forall i | 0 <= i < |out|
      ensures '\n' !in out[i]
    {
      assert SweptLine(lines, oldId, newId, i, out[i]);
      if InDot(lines, i) {
        RepointedAlike(lines[i], oldId, newId, out[i]);
        forall k | 0 <= k < |out[i]|
          ensures out[i][k] != '\n'
        {
          assert Similar(lines[i][k], out[i][k]) && lines[i][k] in lines[i];
        }
      }
    }
  }

  lemma AlikeFence(line: string, out: string, c: char, p: nat, n: nat)
    requires Alike(line, out) && IsFenceLine(out, c, p, n)
    ensures IsFenceLine(line, c, p, n)
  {
    forall i | 0 <= i < |line|
      ensures (line[i] == ' ' <==> out[i] == ' ') && (line[i] == c <==> out[i] == c) && (line[i] == '`' <==> out[i] == '`')
    {
      assert Similar(line[i], out[i]);
    }
  }

  /** Repointing makes no fence. */
  lemma NoNewFence(line: string, out: string)
    requires Alike(line, out) && FenceMarker(line).None?
    ensures FenceMarker(out).None?
  {
    hide FenceMarker, IsFenceLine, Alike;
    FenceExactly(line);
    FenceExactly(out);
    if c, p, n :| IsFenceLine(out, c, p, n) {
      AlikeFence(line, out, c, p, n);
    }
  }

  lemma AlikeHash(line: string, out: string, p: nat)
    requires Alike(line, out) && p + 12 <= |line|
    ensures IsHash(line[p..p + 12]) <==> IsHash(out[p..p + 12])
  {
    var a, b := line[p..p + 12], out[p..p + 12];
    forall k | 0 <= k < 12
      ensures IsHexDigit(a[k]) <==> IsHexDigit(b[k])
    {
      assert Similar(line[p + k], out[p + k]);
    }
    HashByIndex(a);
    HashByIndex(b);
  }

  lemma HashByIndex(s: string)
    ensures IsHash(s) <==> |s| == 12 && forall k :: 0 <= k < |s| ==> IsHexDigit(s[k])
  {
    if IsHash(s) {
      forall k | 0 <= k < |s|
        ensures IsHexDigit(s[k])
      {
        assert s[k] in s;
      }
    }
  }

  lemma AlikeStandalone(line: string, out: string, p: nat)
    requires Alike(line, out)
    ensures Standalone(line, p) <==> Standalone(out, p)
  {
    hide IsHash;
    if p + 12 <= |line| {
      AlikeHash(line, out, p);
      assert p > 0 ==> Similar(line[p - 1], out[p - 1]);
      assert p + 12 < |line| ==> Similar(line[p + 12], out[p + 12]);
    }
  }

  /** A token that stands alone is the new id where the old one was, and otherwise unchanged. */
  lemma TokenAfter(line: string, oldId: string, newId: string, out: string, p: nat)
    requires Repointed(line, oldId, newId, out) && Standalone(line, p)
    ensures out[p..p + 12] == if line[p..p + 12] == oldId then newId else line[p..p + 12]
  {
    if line[p..p + 12] == oldId {
      assert Names(line, oldId, p);
    } else {
      forall k: nat | p <= k < p + 12
        ensures out[k] == line[k]
      {
        forall q: nat
          ensures !Covers(line, oldId, q, k)
        {
          if p < q < p + 12 {
            TokensApart(line, p, q);
          } else if Covers(line, oldId, q, k) && q < p {
            TokensApart(line, q, p);
          }
        }
        assert !Covered(line, oldId, k);
      }
    }
  }

  function SwapRef(oldId: string, newId: string, r: LinkRef): LinkRef {
    if r.kind == DotNode && r.target == oldId then r.(raw := newId, target := newId) else r
  }

  /** The scan with the old id replaced in dot-node references; everything else as it was. */
  function SwapRefs(oldId: string, newId: string, refs: seq<LinkRef>): (r: seq<LinkRef>)
    ensures |r| == |refs| && forall i :: 0 <= i < |r| ==> r[i] == SwapRef(oldId, newId, refs[i])
  {
    seq(|refs|, i requires 0 <= i < |refs| => SwapRef(oldId, newId, refs[i]))
  }

  lemma SwapConcat(oldId: string, newId: string, a: seq<LinkRef>, b: seq<LinkRef>)
    ensures SwapRefs(oldId, newId, a + b) == SwapRefs(oldId, newId, a) + SwapRefs(oldId, newId, b)
  {
  }

  ghost predicate NoDots(refs: seq<LinkRef>) {
    forall i :: 0 <= i < |refs| ==> refs[i].kind != DotNode
  }

  lemma SwapNothing(oldId: string, newId: string, refs: seq<LinkRef>)
    requires NoDots(refs)
    ensures SwapRefs(oldId, newId, refs) == refs
  {
  }

  lemma WikiKind(no: nat, inner: string, rest: seq<LinkRef>)
    requires NoDots(rest)
    ensures NoDots([WikiRef(no, inner)] + rest)
  {
    hide TrimSpace, Find;
  }

  lemma {:induction false} WikiFromNoDots(line: string, no: nat, idx: nat)
    requires idx <= |line|
    ensures NoDots(WikiFrom(line, no, idx).refs)
    decreases |line| - idx
  {
    hide WikiFrom, Find, WikiRef, NoDots;
    WikiNext(line, no, idx);
    NoneNoDots();
    var open := Find(line, "[[", idx);
    if open.Some? {
      var close := Find(line, "]]", open.value + 2);
      if close.Some? {
        WikiFromNoDots(line, no, close.value + 2);
        WikiKind(no, line[open.value + 2..close.value], WikiFrom(line, no, close.value + 2).refs);
      }
    }
  }

  lemma NoneNoDots()
    ensures NoDots([])
  {
  }

  lemma UnclosedKind(p: Pending, rest: seq<LinkRef>)
    requires NoDots(rest)
    ensures NoDots([Unclosed(p)] + rest)
  {
    hide Truncate;
  }

  lemma WikiLineNoDots(line: string, no: nat, pending: Option<Pending>)
    ensures NoDots(WikiLine(line, no, pending).refs)
  {
    hide WikiFrom, Find, NoDots, WikiRef, Unclosed, TrimSpace;
    NoneNoDots();
    if pending.None? {
      WikiFromNoDots(line, no, 0);
    } else {
      var p := pending.value;
      var open, close := Find(line, "[[", 0), Find(line, "]]", 0);
      if open.Some? && (close.None? || open.value < close.value) {
        WikiFromNoDots(line, no, open.value);
        UnclosedKind(p, WikiFrom(line, no, open.value).refs);
      } else if close.Some? {
        WikiFromNoDots(line, no, close.value + 2);
        WikiKind(p.line, p.buf + " " + TrimLeft(line[..close.value], BlankOrTab()), WikiFrom(line, no, close.value + 2).refs);
      }
    }
  }

  lemma {:induction false} HashesAfter(line: string, oldId: string, newId: string, out: string, no: nat, n: nat)
    requires IsHash(oldId) && IsHash(newId) && Repointed(line, oldId, newId, out) && Alike(line, out) && n <= |line|
    ensures BareHashes(out, no, n) == SwapRefs(oldId, newId, BareHashes(line, no, n))
  {
    hide Repointed, Alike, IsHash;
    if n > 0 {
      HashesAfter(line, oldId, newId, out, no, n - 1);
      AlikeStandalone(line, out, n - 1);
      if Standalone(line, n - 1) {
        TokenAfter(line, oldId, newId, out, n - 1);
        SwapConcat(oldId, newId, BareHashes(line, no, n - 1), [DotRef(line, no, n - 1)]);
      }
    }
  }

  lemma FenceFollows(lines: seq<string>, n: nat)
    requires n <= |lines|
    ensures ScanTo(lines, n).fence == FenceBefore(lines, n)
  {
    hide FenceMarker, WikiLine, BareHashes;
    if n > 0 {
      FenceFollows(lines, n - 1);
    }
  }

  /** One line adds, after the sweep, what it added before with the old id swapped. */
  lemma LineAfter(lines: seq<string>, oldId: string, newId: string, out: seq<string>, i: nat, s: Scan, t: Scan)
    requires IsHash(oldId) && IsHash(newId) && Swept(lines, oldId, newId, out) && i < |lines| && s.fence == FenceBefore(lines, i)
    requires t == s.(refs := SwapRefs(oldId, newId, s.refs))
    ensures var u := ScanLine(s, lines[i], i + 1);
            ScanLine(t, out[i], i + 1) == u.(refs := SwapRefs(oldId, newId, u.refs))
  {
    hide FenceMarker, WikiLine, BareHashes, Repointed, Alike, IsHash, FenceBefore;
    assert SweptLine(lines, oldId, newId, i, out[i]);
    var line, no := lines[i], i + 1;
    SwapConcat(oldId, newId, s.refs, Flush(s.pending));
    SwapNothing(oldId, newId, Flush(s.pending));
    SwapConcat(oldId, newId, s.refs, WikiLine(line, no, s.pending).refs);
    WikiLineNoDots(line, no, s.pending);
    SwapNothing(oldId, newId, WikiLine(line, no, s.pending).refs);
    if InDot(lines, i) {
      RepointedAlike(line, oldId, newId, out[i]);
      SameLength(line, out[i]);
      NoNewFence(line, out[i]);
      HashesAfter(line, oldId, newId, out[i], no, |line|);
      SwapConcat(oldId, newId, s.refs, BareHashes(line, no, |line|));
    }
  }

  lemma SameLength(line: string, out: string)
    requires Alike(line, out)
    ensures |out| == |line|
  {
  }

  lemma {:induction false} ScanAfter(lines: seq<string>, oldId: string, newId: string, out: seq<string>, n: nat)
    requires IsHash(oldId) && IsHash(newId) && Swept(lines, oldId, newId, out) && n <= |lines|
    ensures ScanTo(out, n) == ScanTo(lines, n).(refs := SwapRefs(oldId, newId, ScanTo(lines, n).refs))
  {
    hide ScanLine, IsHash, Swept, ScanTo, SwapRefs;
    SweptCount(lines, oldId, newId, out);
    ScanStep(lines, n);
    ScanStep(out, n);
    if n == 0 {
      assert SwapRefs(oldId, newId, []) == [];
    } else {
      ScanAfter(lines, oldId, newId, out, n - 1);
      FenceFollows(lines, n - 1);
      LineAfter(lines, oldId, newId, out, n - 1, ScanTo(lines, n - 1), ScanTo(out, n - 1));
    }
  }

  /**
   Rewriter agrees with scanner: scanning the swept document gives the original scan with the old id
   replaced in dot-node references, line by line and in the same order, every other reference untouched.
   */
  lemma ScanAgrees(data: string, oldId: string, newId: string, out: string)
    requires IsHash(oldId) && IsHash(newId) && Swept(Lines(data), oldId, newId, Lines(out))
    ensures ScanOf(out) == SwapRefs(oldId, newId, ScanOf(data))
  {
    hide IsHash, Swept, ScanTo;
    var lines := Lines(data);
    SweptCount(lines, oldId, newId, Lines(out));
    ScanAfter(lines, oldId, newId, Lines(out), |lines|);
    var s := ScanTo(lines, |lines|);
    SwapConcat(oldId, newId, s.refs, Flush(s.pending));
    SwapNothing(oldId, newId, Flush(s.pending));
  }

  lemma SweptCount(lines: seq<string>, oldId: string, newId: string, out: seq<string>)
    requires Swept(lines, oldId, newId, out)
    ensures |out| == |lines|
  {
  }

  /** After a rename no dot node refers to the old id any more. */
  lemma NoneStale(data: string, oldId: string, newId: string, out: string, r: LinkRef)
    requires IsHash(oldId) && IsHash(newId) && oldId != newId && Swept(Lines(data), oldId, newId, Lines(out))
    requires r in ScanOf(out) && r.kind == DotNode
    ensures r.target != oldId
  {
    hide IsHash, Swept, ScanOf;
    ScanAgrees(data, oldId, newId, out);
    var i :| 0 <= i < |ScanOf(out)| && ScanOf(out)[i] == r;
    assert r == SwapRef(oldId, newId, ScanOf(data)[i]);
  }
}
