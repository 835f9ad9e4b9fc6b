/**
 The validator's scanner: fenced blocks, links in prose, and the bare identity
 hashes that are node ids inside a dot fence.
 */
module MarkdownScanner {
  import opened Results
  import opened Text
  import opened InvariantChecker

  datatype LinkKind = Wiki | DotNode | Unterminated

  datatype LinkRef = LinkRef(kind: LinkKind, line: nat, raw: string, target: string, display: string, hasDisplay: bool)

  // ---- fences ----

  datatype Marker = Marker(ch: char, len: nat, info: string)

  datatype Fence = Outside | Inside(ch: char, len: nat, info: string)

  function Blank(): char -> bool {
    (c: char) => c == ' '
  }

  function RunLength(s: string, c: char): (n: nat)
    ensures n <= |s|
  {
    if s != "" && s[0] == c then 1 + RunLength(s[1..], c) else 0
  }

  /** Up to the first space or tab. */
  function FirstWord(s: string): string {
    if s == "" || s[0] == ' ' || s[0] == '\t' then "" else [s[0]] + FirstWord(s[1..])
  }

  /** A line that opens or closes a fenced block, with its run and info string. */
  function FenceMarker(line: string): Option<Marker> {
    var trimmed := TrimLeft(line, Blank());
    if |line| - |trimmed| > 3 || |trimmed| < 3 || (trimmed[0] != '`' && trimmed[0] != '~') then
      None
    else
      var c := trimmed[0];
      var n := RunLength(trimmed, c);
      var rest := TrimSpace(trimmed[n..]);
      if n < 3 || (c == '`' && '`' in rest) then None else Some(Marker(c, n, FirstWord(rest)))
  }

  /**
   Section 4.5 of CommonMark: at most three spaces, then at least three backticks or tildes, the info
   string of a backtick fence holding no backtick.  p is the indentation, n the length of the run.
   */
  ghost predicate IsFenceLine(line: string, c: char, p: nat, n: nat) {
    && (c == '`' || c == '~') && p <= 3 && n >= 3 && p + n <= |line|
    && (forall i :: 0 <= i < p ==> line[i] == ' ')
    && (forall i :: p <= i < p + n ==> line[i] == c)
    && (p + n < |line| ==> line[p + n] != c)
    && (c == '`' ==> forall i :: p + n <= i < |line| ==> line[i] != '`')
  }

  lemma TrimSpaceKeeps(s: string, c: char)
    requires !IsSpace(c)
    ensures c in TrimSpace(s) <==> c in s
  {
    hide IsSpace, TrimLeft, TrimRight;
    var left := TrimLeft(s, Spaces());
    var d := TrimLeftFacts(s, Spaces());
    var e := TrimRightFacts(left, Spaces());
    forall j | 0 <= j < d
      ensures s[j] != c
    {
      assert Spaces()(s[j]);
    }
    forall j | e <= j < |left|
      ensures left[j] != c
    {
      assert Spaces()(left[j]);
    }
    if c in s {
      var i :| 0 <= i < |s| && s[i] == c;
      assert left[i - d] == c;
      assert left[..e][i - d] == c;
    }
  }

  lemma {:induction false} RunIs(s: string, c: char, n: nat)
    requires n <= |s| && (forall i :: 0 <= i < n ==> s[i] == c) && (n < |s| ==> s[n] != c)
    ensures RunLength(s, c) == n
  {
    if n > 0 {
      RunIs(s[1..], c, n - 1);
    }
  }

  /** The marker of a line whose indentation and run are known. */
  function MarkerAt(trimmed: string, c: char, n: nat): Option<Marker>
    requires n <= |trimmed|
  {
    var rest := TrimSpace(trimmed[n..]);
    if n < 3 || (c == '`' && '`' in rest) then None else Some(Marker(c, n, FirstWord(rest)))
  }

  lemma MarkerIs(line: string, c: char, p: nat, n: nat)
    requires p <= |line| && (forall i :: 0 <= i < p ==> line[i] == ' ')
    requires p < |line| && line[p] == c && c != ' '
    requires p + n <= |line| && (forall i :: p <= i < p + n ==> line[i] == c) && (p + n < |line| ==> line[p + n] != c)
    ensures FenceMarker(line) ==
            if p > 3 || |line| - p < 3 || (c != '`' && c != '~') then None else MarkerAt(line[p..], c, n)
  {
    hide TrimSpace, FirstWord;
    TrimLeftIs(line, Blank(), p);
    RunIs(line[p..], c, n);
  }

  lemma BlankLine(line: string)
    requires forall i :: 0 <= i < |line| ==> line[i] == ' '
    ensures FenceMarker(line) == None
  {
    TrimLeftIs(line, Blank(), |line|);
  }

  /** Every line is blank or has an indentation and a run of its first other character. */
  lemma Shape(line: string) returns (p: nat, n: nat)
    ensures p <= |line| && forall i :: 0 <= i < p ==> line[i] == ' '
    ensures p < |line| ==> line[p] != ' ' && n >= 1 && p + n <= |line|
                           && (forall i :: p <= i < p + n ==> line[i] == line[p]) && (p + n < |line| ==> line[p + n] != line[p])
  {
    p, n := 0, 0;
    while p < |line| && line[p] == ' '
      invariant p <= |line| && forall i :: 0 <= i < p ==> line[i] == ' '
    {
      p := p + 1;
    }
    if p < |line| {
      n := 1;
      while p + n < |line| && line[p + n] == line[p]
        invariant n >= 1 && p + n <= |line| && forall i :: p <= i < p + n ==> line[i] == line[p]
      {
        n := n + 1;
      }
    }
  }

  lemma MarkerAtSome(trimmed: string, c: char, n: nat)
    requires n <= |trimmed|
    ensures MarkerAt(trimmed, c, n).Some? <==> n >= 3 && (c == '`' ==> '`' !in trimmed[n..])
  {
    TrimSpaceKeeps(trimmed[n..], '`');
    hide TrimSpace, FirstWord;
  }

  lemma ShapeExactly(line: string, p: nat, n: nat)
    requires p < |line| && line[p] != ' ' && (forall i :: 0 <= i < p ==> line[i] == ' ') && n >= 1 && p + n <= |line|
    requires (forall i :: p <= i < p + n ==> line[i] == line[p]) && (p + n < |line| ==> line[p + n] != line[p])
    ensures FenceMarker(line).Some? <==> IsFenceLine(line, line[p], p, n)
  {
    hide FenceMarker, MarkerAt;
    MarkerIs(line, line[p], p, n);
    MarkerAtSome(line[p..], line[p], n);
    RestAgrees(line, p, n);
  }

  /** The marker is found exactly on the lines the specification calls fences. */
  lemma FenceExactly(line: string)
    ensures FenceMarker(line).Some? <==> exists c, p, n :: IsFenceLine(line, c, p, n)
  {
    hide FenceMarker;
    var p, n := Shape(line);
    if p == |line| {
      BlankLine(line);
      forall c, q: nat, m: nat
        ensures !IsFenceLine(line, c, q, m)
      {
        assert q < |line| ==> line[q] == ' ';
      }
    } else {
      forall c, q: nat, m: nat | IsFenceLine(line, c, q, m)
        ensures c == line[p] && q == p && m == n
      {
        FenceShape(line, p, n, c, q, m);
      }
      ShapeExactly(line, p, n);
    }
  }

  lemma RestAgrees(line: string, p: nat, n: nat)
    requires p + n <= |line|
    ensures '`' in line[p..][n..] <==> exists i :: p + n <= i < |line| && line[i] == '`'
  {
    var rest := line[p..][n..];
    forall i | p + n <= i < |line|
      ensures line[i] == rest[i - p - n] && line[i] in rest
    {
    }
    forall k | 0 <= k < |rest|
      ensures rest[k] == line[p + n + k]
    {
    }
  }

  lemma FenceShape(line: string, p: nat, n: nat, c: char, q: nat, m: nat)
    requires p < |line| && line[p] != ' ' && (forall i :: 0 <= i < p ==> line[i] == ' ')
    requires p + n <= |line| && (forall i :: p <= i < p + n ==> line[i] == line[p]) && (p + n < |line| ==> line[p + n] != line[p])
    requires IsFenceLine(line, c, q, m)
    ensures c == line[p] && q == p && m == n
  {
    assert line[q] == c;
  }

  /** A closing fence has the opening's character, at least its length, and no info string. */
  function NextFence(f: Fence, m: Marker): Fence {
    match f
    case Outside => Inside(m.ch, m.len, m.info)
    case Inside(ch, len, _) => if m.ch == ch && m.len >= len && m.info == "" then Outside else f
  }

  method ReadFenceMarker(line: string) returns (m: Option<Marker>)
    ensures m == FenceMarker(line)
  {
    hide TrimSpace, FirstWord, RunLength;
    var trimmed := TrimLeft(line, Blank());
    if |line| - |trimmed| > 3 || |trimmed| < 3 {
      return None;
    }
    var c := trimmed[0];
    if c != '`' && c != '~' {
      return None;
    }
    var n := 0;
    while n < |trimmed| && trimmed[n] == c
      invariant n <= |trimmed| && forall i :: 0 <= i < n ==> trimmed[i] == c
    {
      n := n + 1;
    }
    RunIs(trimmed, c, n);
    if n < 3 {
      return None;
    }
    var rest := TrimSpace(trimmed[n..]);
    if c == '`' && '`' in rest {
      return None;
    }
    return Some(Marker(c, n, FirstWord(rest)));
  }

  // ---- bare hashes ----

  /** A 12-hex token at p whose neighbours are no word characters. */
  predicate Standalone(line: string, p: nat) {
    p + 12 <= |line| && IsHash(line[p..p + 12]) &&
    (p > 0 ==> !IsWordChar(line[p - 1])) && (p + 12 < |line| ==> !IsWordChar(line[p + 12]))
  }

  function DotRef(line: string, no: nat, p: nat): LinkRef
    requires p + 12 <= |line|
  {
    LinkRef(DotNode, no, line[p..p + 12], line[p..p + 12], "", false)
  }

  /** The standalone tokens that start before n, in order. */
  function BareHashes(line: string, no: nat, n: nat): seq<LinkRef>
    requires n <= |line|
  {
    if n == 0 then [] else BareHashes(line, no, n - 1) + if Standalone(line, n - 1) then [DotRef(line, no, n - 1)] else []
  }

  lemma {:induction false} NoHashes(line: string, no: nat, from: nat, n: nat)
    requires from <= n <= |line| && forall p :: from <= p < n ==> !Standalone(line, p)
    ensures BareHashes(line, no, n) == BareHashes(line, no, from)
  {
    if from < n {
      NoHashes(line, no, from, n - 1);
    }
  }

  /** Inside a token nothing else stands alone. */
  lemma TokensApart(line: string, p: nat, q: nat)
    requires p < q < p + 12 <= |line| && IsHash(line[p..p + 12])
    ensures !Standalone(line, q)
  {
    var token := line[p..p + 12];
    assert line[q - 1] == token[q - 1 - p] && token[q - 1 - p] in token;
  }

  /** Leftmost matches that do not overlap, those with word neighbours dropped, are the standalone tokens. */
  method ScanBareHashes(line: string, no: nat) returns (refs: seq<LinkRef>)
    ensures refs == BareHashes(line, no, |line|)
  {
    refs := [];
    var i := 0;
    while i + 12 <= |line|
      invariant i <= |line| && refs == BareHashes(line, no, i)
    {
      if IsHash(line[i..i + 12]) {
        forall q | i < q < i + 12
          ensures !Standalone(line, q)
        {
          TokensApart(line, i, q);
        }
        NoHashes(line, no, i + 1, i + 12);
        if (i == 0 || !IsWordChar(line[i - 1])) && (i + 12 == |line| || !IsWordChar(line[i + 12])) {
          refs := refs + [LinkRef(DotNode, no, line[i..i + 12], line[i..i + 12], "", false)];
        }
        i := i + 12;
      } else {
        i := i + 1;
      }
    }
    NoHashes(line, no, i, |line|);
  }

  // ---- links in prose ----

  /** An opening whose closing brackets have not been seen yet. */
  datatype Pending = Pending(line: nat, buf: string)

  function Truncate(s: string, n: nat): string {
    if |s| <= n then s else s[..n] + "\U{2026}"
  }

  function Unclosed(p: Pending): LinkRef {
    LinkRef(Unterminated, p.line, "[[" + Truncate(p.buf, 48), "", "", false)
  }

  function WikiRef(no: nat, inner: string): LinkRef {
    var bar := Find(inner, "|", 0);
    LinkRef(Wiki, no, "[[" + inner + "]]",
            TrimSpace(if bar.Some? then inner[..bar.value] else inner),
            TrimSpace(if bar.Some? then inner[bar.value + 1..] else ""), bar.Some?)
  }

  datatype Found = Found(refs: seq<LinkRef>, pending: Option<Pending>)

  /** The links that open at or after idx, and the opening left over at the end of the line. */
  function WikiFrom(line: string, no: nat, idx: nat): Found
    requires idx <= |line|
    decreases |line| - idx
  {
    var open := Find(line, "[[", idx);
    if open.None? then
      Found([], None)
    else
      var close := Find(line, "]]", open.value + 2);
      if close.None? then
        Found([], Some(Pending(no, line[open.value + 2..])))
      else
        var rest := WikiFrom(line, no, close.value + 2);
        Found([WikiRef(no, line[open.value + 2..close.value])] + rest.refs, rest.pending)
  }

  function BlankOrTab(): char -> bool {
    (c: char) => c == ' ' || c == '\t'
  }

  /** One line of prose, continuing an opening from an earlier line; a second opening ends the first. */
  function WikiLine(line: string, no: nat, pending: Option<Pending>): Found {
    if pending.None? then
      WikiFrom(line, no, 0)
    else
      var p := pending.value;
      var open, close := Find(line, "[[", 0), Find(line, "]]", 0);
      if open.Some? && (close.None? || open.value < close.value) then
        var rest := WikiFrom(line, no, open.value);
        Found([Unclosed(p)] + rest.refs, rest.pending)
      else if close.None? then
        Found([], Some(p.(buf := p.buf + " " + TrimSpace(line))))
      else
        var inner := p.buf + " " + TrimLeft(line[..close.value], BlankOrTab());
        var rest := WikiFrom(line, no, close.value + 2);
        Found([WikiRef(p.line, inner)] + rest.refs, rest.pending)
  }

  /** What the scan of the rest of a line comes to, by what it finds first. */
  lemma WikiNext(line: string, no: nat, idx: nat)
    requires idx <= |line|
    ensures var open := Find(line, "[[", idx);
            if open.None? then WikiFrom(line, no, idx) == Found([], None)
            else
              open.value + 2 <= |line| &&
              var close := Find(line, "]]", open.value + 2);
              if close.None? then WikiFrom(line, no, idx) == Found([], Some(Pending(no, line[open.value + 2..])))
              else
                open.value + 2 <= close.value <= |line| - 2 &&
                var rest := WikiFrom(line, no, close.value + 2);
                WikiFrom(line, no, idx) == Found([WikiRef(no, line[open.value + 2..close.value])] + rest.refs, rest.pending)
  {
    hide WikiRef;
  }

  method ScanWikiFrom(line: string, no: nat, from: nat, before: seq<LinkRef>) returns (r: Found)
    requires from <= |line|
    ensures r == Found(before + WikiFrom(line, no, from).refs, WikiFrom(line, no, from).pending)
  {
    hide WikiFrom, WikiRef, Find;
    var refs := before;
    var idx := from;
    while true
      invariant from <= idx <= |line|
      invariant refs + WikiFrom(line, no, idx).refs == before + WikiFrom(line, no, from).refs
      invariant WikiFrom(line, no, idx).pending == WikiFrom(line, no, from).pending
      decreases |line| - idx
    {
      WikiNext(line, no, idx);
      var open := Find(line, "[[", idx);
      if open.None? {
        assert refs + [] == refs;
        return Found(refs, None);
      }
      var close := Find(line, "]]", open.value + 2);
      if close.None? {
        assert refs + [] == refs;
        return Found(refs, Some(Pending(no, line[open.value + 2..])));
      }
      var link := WikiRef(no, line[open.value + 2..close.value]);
      ghost var rest := WikiFrom(line, no, close.value + 2).refs;
      assert refs + ([link] + rest) == (refs + [link]) + rest;
      refs := refs + [link];
      idx := close.value + 2;
    }
  }

  method ScanWikiLinks(line: string, no: nat, pending: Option<Pending>) returns (r: Found)
    ensures r == WikiLine(line, no, pending)
  {
    if pending.None? {
      r := ScanWikiFrom(line, no, 0, []);
      return;
    }
    var p := pending.value;
    var close, open := Find(line, "]]", 0), Find(line, "[[", 0);
    if open.Some? && (close.None? || open.value < close.value) {
      r := ScanWikiFrom(line, no, open.value, [Unclosed(p)]);
    } else if close.None? {
      r := Found([], Some(p.(buf := p.buf + " " + TrimSpace(line))));
    } else {
      var inner := p.buf + " " + TrimLeft(line[..close.value], BlankOrTab());
      r := ScanWikiFrom(line, no, close.value + 2, [WikiRef(p.line, inner)]);
    }
  }

  // ---- the document ----

  function Flush(pending: Option<Pending>): seq<LinkRef> {
    if pending.Some? then [Unclosed(pending.value)] else []
  }

  datatype Scan = Scan(refs: seq<LinkRef>, fence: Fence, pending: Option<Pending>)

  /** What one more line adds. */
  function ScanLine(s: Scan, line: string, no: nat): Scan {
    var m := FenceMarker(line);
    if m.Some? then
      Scan(s.refs + Flush(s.pending), NextFence(s.fence, m.value), None)
    else if s.fence.Inside? then
      if s.fence.info == "dot" then s.(refs := s.refs + BareHashes(line, no, |line|)) else s
    else if TrimSpace(line) == "" then
      Scan(s.refs + Flush(s.pending), s.fence, None)
    else
      var found := WikiLine(line, no, s.pending);
      Scan(s.refs + found.refs, s.fence, found.pending)
  }

  function ScanTo(lines: seq<string>, n: nat): Scan
    requires n <= |lines|
  {
    if n == 0 then Scan([], Outside, None) else ScanLine(ScanTo(lines, n - 1), lines[n - 1], n)
  }

  function ScanOf(src: string): seq<LinkRef> {
    var s := ScanTo(Lines(src), |Lines(src)|);
    s.refs + Flush(s.pending)
  }

  lemma ScanStep(lines: seq<string>, n: nat)
    requires n <= |lines|
    ensures ScanTo(lines, n) == if n == 0 then Scan([], Outside, None) else ScanLine(ScanTo(lines, n - 1), lines[n - 1], n)
  {
    hide ScanLine;
  }

  method ScanLinks(src: string) returns (refs: seq<LinkRef>)
    ensures refs == ScanOf(src)
  {
    hide ScanTo, WikiLine, BareHashes, FenceMarker, Flush, TrimSpace, NextFence, Lines;
    refs := [];
    var lines := Lines(src);
    ScanStep(lines, 0);
    var fence := Outside;
    var pending: Option<Pending> := None;
    for i := 0 to |lines|
      invariant Scan(refs, fence, pending) == ScanTo(lines, i)
    {
      var line := lines[i];
      ScanStep(lines, i + 1);
      var m := ReadFenceMarker(line);
      if m.Some? {
        refs, pending := refs + Flush(pending), None;
        fence := NextFence(fence, m.value);
      } else if fence.Inside? {
        if fence.info == "dot" {
          var found := ScanBareHashes(line, i + 1);
          refs := refs + found;
        }
      } else if TrimSpace(line) == "" {
        refs, pending := refs + Flush(pending), None;
      } else {
        var found := ScanWikiLinks(line, i + 1, pending);
        refs, pending := refs + found.refs, found.pending;
      }
    }
    refs := refs + Flush(pending);
  }
}
