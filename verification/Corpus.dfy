/**
 The removed-name sweep: how the corpus is cut into tokens, which names may be
 declared, and why these are exactly the names the sweep can find.
 */
module Corpus {
  import opened Results
  import opened Text

  const MAX_NAME_WORDS := 6

  // ---- tokens ----

  /** The punctuation stripped from both ends of a token. */
  predicate InCutset(c: char) {
    c == '`' || c == '*' || c == '_' || c == '"' || c == '\'' || c == '(' || c == ')' || c == '[' || c == ']' || c == ',' ||
    c == ';' || c == ':' || c == '!' || c == '?' ||
    c == '\U{201C}' || c == '\U{201D}' || c == '\U{2018}' || c == '\U{2019}'
  }

  function Cutset(): char -> bool {
    (c: char) => InCutset(c)
  }

  function Period(): char -> bool {
    (c: char) => c == '.'
  }

  /** Without the suffix, when something else would be left. */
  function DropSuffix(s: string, suffix: string): (r: string)
    ensures r <= s
  {
    if |s| > |suffix| && s[|s| - |suffix|..] == suffix then s[..|s| - |suffix|] else s
  }

  /** Wrapping punctuation, then trailing periods, then a possessive. */
  function Strip(s: string): string {
    DropSuffix(DropSuffix(TrimRight(Trim(s, Cutset()), Period()), "'s"), "\U{2019}s")
  }

  ghost predicate PartOf(t: string, s: string) {
    exists i: nat :: At(s, t, i)
  }

  lemma PartPrefix(t: string, s: string)
    requires t <= s
    ensures PartOf(t, s)
  {
    assert At(s, t, 0);
  }

  lemma PartTransitive(a: string, b: string, c: string)
    requires PartOf(a, b) && PartOf(b, c)
    ensures PartOf(a, c)
  {
    var i: nat :| At(b, a, i);
    var j: nat :| At(c, b, j);
    forall k | 0 <= k < |a|
      ensures c[j + i + k] == a[k]
    {
      assert c[j..j + |b|][i + k] == b[i + k] == b[i..i + |a|][k];
    }
    assert c[j + i..j + i + |a|] == a;
    assert At(c, a, j + i);
  }

  lemma StripPart(s: string)
    ensures PartOf(Strip(s), s)
  {
    hide TrimLeft, TrimRight, InCutset;
    var left := TrimLeft(s, Cutset());
    var both := Trim(s, Cutset());
    var plain := TrimRight(both, Period());
    var d := TrimLeftFacts(s, Cutset());
    var e := TrimRightFacts(left, Cutset());
    var f := TrimRightFacts(both, Period());
    assert At(s, left, d);
    PartPrefix(both, left);
    PartPrefix(plain, both);
    PartTransitive(both, left, s);
    PartTransitive(plain, both, s);
    var once := DropSuffix(plain, "'s");
    var twice := DropSuffix(once, "\U{2019}s");
    PartPrefix(once, plain);
    PartPrefix(twice, once);
    PartTransitive(once, plain, s);
    PartTransitive(twice, once, s);
  }

  lemma PartShorter(t: string, s: string)
    requires PartOf(t, s) && t != s
    ensures |t| < |s|
  {
    var i: nat :| At(s, t, i);
    assert s[0..|s|] == s;
  }

  /** Stripping until nothing changes; it ends because every change shortens the token. */
  function Normalize(s: string): (r: string)
    ensures Strip(r) == r
    decreases |s|
  {
    var t := Strip(s);
    if t == s then
      s
    else
      StripPart(s);
      PartShorter(t, s);
      Normalize(t)
  }

  method NormalizeToken(token: string) returns (t: string)
    ensures t == Normalize(token)
  {
    hide Strip;
    var s := token;
    while true
      invariant Normalize(s) == Normalize(token)
      decreases |s|
    {
      t := DropSuffix(DropSuffix(TrimRight(Trim(s, Cutset()), Period()), "'s"), "\U{2019}s");
      StripIs(s);
      if t == s {
        return;
      }
      StripPart(s);
      PartShorter(t, s);
      s := t;
    }
  }

  lemma StripIs(s: string)
    ensures Strip(s) == DropSuffix(DropSuffix(TrimRight(Trim(s, Cutset()), Period()), "'s"), "\U{2019}s")
  {
  }

  /** Idempotent: a normal token is left alone. */
  lemma NormalizeTwice(s: string)
    ensures Normalize(Normalize(s)) == Normalize(s)
  {
  }

  lemma {:induction false} NormalizePart(s: string)
    ensures PartOf(Normalize(s), s)
    decreases |s|
  {
    hide Strip;
    var t := Strip(s);
    if t == s {
      PartPrefix(s, s);
    } else {
      StripPart(s);
      PartShorter(t, s);
      NormalizePart(t);
      PartTransitive(Normalize(s), t, s);
    }
  }

  predicate IsBreak(c: char) {
    c == ' ' || c == '\t' || c == '\n' || c == '\r' || c == '\U{000B}' || c == '\U{000C}'
  }

  /** The length of the word a text starts with. */
  function WordLength(s: string): (n: nat)
    ensures n <= |s|
  {
    if s != "" && !IsBreak(s[0]) then 1 + WordLength(s[1..]) else 0
  }

  lemma {:induction false} WordFacts(s: string)
    requires s != "" && !IsBreak(s[0])
    ensures StartsWithWord(s, WordLength(s))
  {
    hide IsBreak;
    var n := WordLength(s);
    if n > 1 {
      var t := s[1..];
      WordFacts(t);
      forall i | 0 <= i < n
        ensures !IsBreak(s[i])
      {
        assert i > 0 ==> s[i] == t[i - 1];
      }
      assert n < |s| ==> s[n] == t[n - 1];
    }
  }

  datatype Token = Token(text: string, line: nat)

  /** The normal words of a text that starts on the given line; a line break is white space like any other. */
  function Tokens(s: string, line: nat): seq<Token>
    decreases |s|
  {
    if s == "" then
      []
    else if IsBreak(s[0]) then
      Tokens(s[1..], if s[0] == '\n' then line + 1 else line)
    else
      var n := WordLength(s);
      Word(s[..n], line) + Tokens(s[n..], line)
  }

  /** The token of one word, unless nothing is left of it. */
  function Word(w: string, line: nat): seq<Token> {
    if Normalize(w) != "" then [Token(Normalize(w), line)] else []
  }

  lemma TokensBreak(s: string, line: nat)
    requires s != "" && IsBreak(s[0])
    ensures Tokens(s, line) == Tokens(s[1..], if s[0] == '\n' then line + 1 else line)
  {
  }

  ghost predicate StartsWithWord(s: string, n: nat) {
    0 < n <= |s| && (forall i :: 0 <= i < n ==> !IsBreak(s[i])) && (n < |s| ==> IsBreak(s[n]))
  }

  lemma TokensWord(s: string, line: nat, n: nat)
    requires StartsWithWord(s, n)
    ensures Tokens(s, line) == Word(s[..n], line) + Tokens(s[n..], line)
  {
    hide Word;
    WordIs(s, n);
  }

  lemma NoTokens(line: nat)
    ensures Tokens("", line) == []
  {
  }

  /** The word that starts at i, and where it ends. */
  method ReadWord(src: string, i: nat, line: nat) returns (w: seq<Token>, j: nat)
    requires i < |src| && !IsBreak(src[i])
    ensures i < j <= |src| && Tokens(src[i..], line) == w + Tokens(src[j..], line)
  {
    hide Tokens, Normalize, IsBreak;
    j := i;
    while j < |src| && !IsBreak(src[j])
      invariant i <= j <= |src| && forall k :: i <= k < j ==> !IsBreak(src[k])
    {
      j := j + 1;
    }
    var t := NormalizeToken(src[i..j]);
    w := if t != "" then [Token(t, line)] else [];
    SliceWord(src, i, j, line);
  }

  lemma SliceWord(src: string, i: nat, j: nat, line: nat)
    requires i < j <= |src| && (forall k :: i <= k < j ==> !IsBreak(src[k])) && (j < |src| ==> IsBreak(src[j]))
    ensures Tokens(src[i..], line) == Word(src[i..j], line) + Tokens(src[j..], line)
  {
    hide Tokens, Word, IsBreak;
    var s := src[i..];
    SliceStarts(src, i, j);
    TokensWord(s, line, j - i);
    assert s[..j - i] == src[i..j];
    assert s[j - i..] == src[j..];
  }

  lemma SliceStarts(src: string, i: nat, j: nat)
    requires i < j <= |src| && (forall k :: i <= k < j ==> !IsBreak(src[k])) && (j < |src| ==> IsBreak(src[j]))
    ensures StartsWithWord(src[i..], j - i)
  {
    hide IsBreak;
    forall k | 0 <= k < j - i
      ensures !IsBreak(src[i..][k])
    {
      assert src[i..][k] == src[i + k];
    }
  }

  method TokenizeCorpus(src: string) returns (tokens: seq<Token>)
    ensures tokens == Tokens(src, 1)
  {
    hide Tokens, Normalize, IsBreak;
    tokens := [];
    var line, i := 1, 0;
    assert src[0..] == src;
    while i < |src|
      invariant i <= |src| && tokens + Tokens(src[i..], line) == Tokens(src, 1)
    {
      if IsBreak(src[i]) {
        TokensBreak(src[i..], line);
        assert src[i..][1..] == src[i + 1..];
        line := if src[i] == '\n' then line + 1 else line;
        i := i + 1;
      } else {
        var w, j := ReadWord(src, i, line);
        ghost var rest := Tokens(src[j..], line);
        assert tokens + (w + rest) == (tokens + w) + rest;
        tokens := tokens + w;
        i := j;
      }
    }
    NoTokens(line);
    assert src[i..] == "" && tokens + [] == tokens;
  }

  lemma {:induction false} WordIs(s: string, n: nat)
    requires n <= |s| && (forall i :: 0 <= i < n ==> !IsBreak(s[i])) && (n < |s| ==> IsBreak(s[n]))
    ensures WordLength(s) == n
  {
    if n > 0 {
      WordIs(s[1..], n - 1);
    }
  }

  /** The token texts alone. */
  function Texts(tokens: seq<Token>): (r: seq<string>)
    ensures |r| == |tokens| && forall i :: 0 <= i < |r| ==> r[i] == tokens[i].text
  {
    seq(|tokens|, i requires 0 <= i < |tokens| => tokens[i].text)
  }

  function NameTokens(s: string): seq<string> {
    Texts(Tokens(s, 1))
  }

  /** A normal word: not empty, no white space in it, and left alone by normalization. */
  predicate Plain(t: string) {
    t != "" && (forall i :: 0 <= i < |t| ==> !IsBreak(t[i])) && Normalize(t) == t
  }

  lemma PartUnbroken(t: string, s: string)
    requires PartOf(t, s) && forall i :: 0 <= i < |s| ==> !IsBreak(s[i])
    ensures forall i :: 0 <= i < |t| ==> !IsBreak(t[i])
  {
    hide IsBreak;
    var k: nat :| At(s, t, k);
    forall i | 0 <= i < |t|
      ensures t[i] == s[k + i]
    {
      assert t[i] == s[k..k + |t|][i];
    }
  }

  lemma NormalPlain(s: string)
    requires (forall i :: 0 <= i < |s| ==> !IsBreak(s[i])) && Normalize(s) != ""
    ensures Plain(Normalize(s))
  {
    NormalizePart(s);
    NormalizeTwice(s);
    hide Normalize, PartOf, IsBreak;
    PartUnbroken(Normalize(s), s);
  }

  lemma {:induction false} TokensPlain(s: string, line: nat)
    ensures forall i :: 0 <= i < |Tokens(s, line)| ==> Plain(Tokens(s, line)[i].text)
    decreases |s|
  {
    hide Normalize, Plain, Tokens;
    if s == "" {
      NoTokens(line);
    } else if IsBreak(s[0]) {
      TokensBreak(s, line);
      TokensPlain(s[1..], if s[0] == '\n' then line + 1 else line);
    } else {
      var n := WordLength(s);
      WordFacts(s);
      TokensWord(s, line, n);
      TokensPlain(s[n..], line);
      if Normalize(s[..n]) != "" {
        NormalPlain(s[..n]);
      }
    }
  }

  // ---- cutting and joining ----

  function Spaced(words: seq<string>): string {
    if words == [] then "" else if |words| == 1 then words[0] else words[0] + " " + Spaced(words[1..])
  }

  /** Which line a text starts on makes no difference to its words. */
  lemma {:induction false} TextsAnyLine(s: string, a: nat, b: nat)
    ensures Texts(Tokens(s, a)) == Texts(Tokens(s, b))
    decreases |s|
  {
    hide Normalize, Tokens;
    if s == "" {
      NoTokens(a);
      NoTokens(b);
    } else if IsBreak(s[0]) {
      TokensBreak(s, a);
      TokensBreak(s, b);
      TextsAnyLine(s[1..], if s[0] == '\n' then a + 1 else a, if s[0] == '\n' then b + 1 else b);
    } else {
      var n := WordLength(s);
      WordFacts(s);
      TokensWord(s, a, n);
      TokensWord(s, b, n);
      TextsAnyLine(s[n..], a, b);
      TextsConcat(Word(s[..n], a), Tokens(s[n..], a));
      TextsConcat(Word(s[..n], b), Tokens(s[n..], b));
      assert Texts(Word(s[..n], a)) == Texts(Word(s[..n], b));
    }
  }

  lemma TextsConcat(a: seq<Token>, b: seq<Token>)
    ensures Texts(a + b) == Texts(a) + Texts(b)
  {
  }

  /** The texts meet at white space, or one is empty. */
  predicate Parted(a: string, b: string) {
    a == "" || b == "" || IsBreak(a[|a| - 1]) || IsBreak(b[0])
  }

  /** The first word of a text is its first word with more text behind it. */
  lemma WordKept(a: string, b: string, line: nat)
    requires Parted(a, b) && a != "" && !IsBreak(a[0])
    ensures var n := WordLength(a);
            && n > 0 && Parted(a[n..], b)
            && Tokens(a, line) == Word(a[..n], line) + Tokens(a[n..], line)
            && Tokens(a + b, line) == Word(a[..n], line) + Tokens(a[n..] + b, line)
  {
    hide Tokens, Word, WordLength, IsBreak;
    var n := WordLength(a);
    WordFacts(a);
    WordAcross(a, b, n);
    TokensWord(a, line, n);
    TokensWord(a + b, line, n);
    assert (a + b)[..n] == a[..n] && (a + b)[n..] == a[n..] + b;
    assert n < |a| ==> a[n..][|a| - n - 1] == a[|a| - 1];
  }

  /** Cutting a text where words part cuts its tokens. */
  lemma {:induction false} TokensConcat(a: string, b: string, line: nat)
    requires Parted(a, b)
    ensures Texts(Tokens(a + b, line)) == Texts(Tokens(a, line)) + NameTokens(b)
    decreases |a|
  {
    hide Tokens, Word, WordLength, Texts;
    if a == "" {
      assert a + b == b;
      NoTokens(line);
      NoTexts();
      TextsAnyLine(b, line, 1);
    } else if IsBreak(a[0]) {
      assert (a + b)[1..] == a[1..] + b;
      TokensBreak(a, line);
      TokensBreak(a + b, line);
      TokensConcat(a[1..], b, if a[0] == '\n' then line + 1 else line);
    } else {
      hide IsBreak;
      var n := WordLength(a);
      WordKept(a, b, line);
      TokensConcat(a[n..], b, line);
      var head, rest := Word(a[..n], line), Tokens(a[n..], line);
      TextsConcat(head, rest);
      TextsConcat(head, Tokens(a[n..] + b, line));
      assert Texts(head) + Texts(rest) + NameTokens(b) == Texts(head) + (Texts(rest) + NameTokens(b));
    }
  }

  lemma NoTexts()
    ensures Texts([]) == []
  {
  }

  lemma WordAcross(a: string, b: string, n: nat)
    requires Parted(a, b) && StartsWithWord(a, n)
    ensures StartsWithWord(a + b, n)
  {
    hide IsBreak;
    assert n == |a| && b != "" ==> !IsBreak(a[|a| - 1]);
  }

  lemma PlainTokens(t: string)
    requires Plain(t)
    ensures NameTokens(t) == [t]
  {
    hide Tokens, Normalize, Plain, StartsWithWord;
    PlainWord(t);
    TokensWord(t, 1, |t|);
    NoTokens(1);
    assert t[..|t|] == t && t[|t|..] == "";
    assert Tokens(t, 1) == [Token(t, 1)];
  }

  lemma PlainWord(t: string)
    requires Plain(t)
    ensures StartsWithWord(t, |t|) && Normalize(t) == t && t != ""
  {
    hide Normalize;
  }

  /** Tokenizing space-joined tokens gives them back. */
  lemma {:induction false} TokensOfSpaced(words: seq<string>)
    requires forall i :: 0 <= i < |words| ==> Plain(words[i])
    ensures NameTokens(Spaced(words)) == words
  {
    hide Normalize, Plain, Tokens;
    if words == [] {
      NoTokens(1);
    } else if |words| == 1 {
      PlainTokens(words[0]);
    } else {
      var rest := Spaced(words[1..]);
      TokensOfSpaced(words[1..]);
      PlainTokens(words[0]);
      BreakTokens();
      TokensConcat(" ", rest, 1);
      TokensConcat(words[0], " " + rest, 1);
      assert words[0] + " " + rest == words[0] + (" " + rest);
      assert words == [words[0]] + words[1..];
    }
  }

  lemma BreakTokens()
    ensures NameTokens(" ") == []
  {
    TokensBreak(" ", 1);
    NoTokens(1);
    assert " "[1..] == "";
  }

  // ---- declarable and sweepable ----

  function DeclarableName(name: string): (r: (string, bool)) {
    var toks := NameTokens(name);
    (Spaced(toks), 0 < |toks| <= MAX_NAME_WORDS && Spaced(toks) == name)
  }

  predicate Declarable(name: string) {
    DeclarableName(name).1
  }

  /** The phrase of n tokens that starts at token i. */
  function Phrase(tokens: seq<Token>, i: nat, n: nat): string
    requires i + n <= |tokens|
  {
    Spaced(Texts(tokens)[i..i + n])
  }

  predicate Candidate(tokens: seq<Token>, i: nat, n: nat) {
    1 <= n <= MAX_NAME_WORDS && i + n <= |tokens|
  }

  lemma PhraseTokens(src: string, i: nat, n: nat)
    requires i + n <= |Tokens(src, 1)|
    ensures NameTokens(Phrase(Tokens(src, 1), i, n)) == Texts(Tokens(src, 1))[i..i + n]
  {
    TokensPlain(src, 1);
    TokensOfSpaced(Texts(Tokens(src, 1))[i..i + n]);
  }

  /** Every phrase the sweep builds may be declared. */
  lemma PhraseDeclarable(src: string, i: nat, n: nat)
    requires Candidate(Tokens(src, 1), i, n)
    ensures Declarable(Phrase(Tokens(src, 1), i, n))
  {
    PhraseTokens(src, i, n);
  }

  /** The name's words stand in the text between white space, however they are wrapped, quoted or punctuated. */
  predicate Occurs(name: string, pre: string, body: string, post: string) {
    NameTokens(body) == NameTokens(name) && Parted(pre, body) && Parted(body, post) && Parted(pre, body + post)
  }

  /** Every declarable name that occurs in a text is a phrase the sweep builds there. */
  lemma DeclarableFound(name: string, pre: string, body: string, post: string) returns (i: nat, n: nat)
    requires Declarable(name) && Occurs(name, pre, body, post)
    ensures Candidate(Tokens(pre + body + post, 1), i, n) && Phrase(Tokens(pre + body + post, 1), i, n) == name
  {
    hide Tokens;
    assert pre + body + post == pre + (body + post);
    TokensConcat(pre, body + post, 1);
    TokensConcat(body, post, 1);
    i, n := |NameTokens(pre)|, |NameTokens(name)|;
    var all := Texts(Tokens(pre + body + post, 1));
    assert all == NameTokens(pre) + (NameTokens(name) + NameTokens(post));
    assert all[i..i + n] == NameTokens(name);
  }

  /** Declarable equals sweepable: the names that may be declared are exactly the phrases some corpus makes the sweep build. */
  lemma DeclarableIffSweepable(name: string)
    ensures Declarable(name) <==>
            exists src, i, n :: Candidate(Tokens(src, 1), i, n) && Phrase(Tokens(src, 1), i, n) == name
  {
    if Declarable(name) {
      var i, n := DeclarableFound(name, "", name, "");
      assert "" + name + "" == name;
    }
    forall src, i: nat, n: nat | Candidate(Tokens(src, 1), i, n) && Phrase(Tokens(src, 1), i, n) == name
      ensures Declarable(name)
    {
      PhraseDeclarable(src, i, n);
    }
  }

  // ---- the sweep of one file ----

  /** The removed keys of one module and node type. */
  datatype Group = Group(mod: string, nodeType: string, keys: set<string>)

  datatype Hit = Hit(start: nat, words: nat, line: nat, name: string, group: nat, key: string)

  datatype Span = Span(words: nat, name: string)

  /** The identity hash, left abstract. */
  type Hash = (string, string, string) -> string

  ghost predicate IsHit(tokens: seq<Token>, groups: seq<Group>, hash: Hash, h: Hit) {
    && Candidate(tokens, h.start, h.words) && h.name == Phrase(tokens, h.start, h.words) && h.line == tokens[h.start].line
    && h.group < |groups| && h.key == hash(groups[h.group].mod, groups[h.group].nodeType, h.name)
    && h.key in groups[h.group].keys
  }

  /** By start, then length, then group. */
  predicate HitBefore(a: Hit, b: Hit) {
    a.start < b.start || (a.start == b.start && (a.words < b.words || (a.words == b.words && a.group < b.group)))
  }

  ghost predicate InOrder(hits: seq<Hit>) {
    forall i, j :: 0 <= i < j < |hits| ==> HitBefore(hits[i], hits[j])
  }

  lemma InOrderConcat(a: seq<Hit>, b: seq<Hit>)
    requires InOrder(a) && InOrder(b) && forall x, y :: x in a && y in b ==> HitBefore(x, y)
    ensures InOrder(a + b)
  {
    var s := a + b;
    forall i, j | 0 <= i < j < |s|
      ensures HitBefore(s[i], s[j])
    {
      assert i < |a| ==> s[i] in a;
      assert j >= |a| ==> s[j] in b;
    }
  }

  /** An ordered list of hits is determined by what it holds, each of its hits once. */
  lemma {:induction false} InOrderUnique(a: seq<Hit>, b: seq<Hit>)
    requires InOrder(a) && InOrder(b) && forall h :: h in a <==> h in b
    ensures a == b
  {
    assert b != [] ==> b[0] in a;
    if a != [] {
      assert a[0] in b && b != [] && b[0] in a;
      assert a[0] == b[0];
      forall h
        ensures h in a[1..] <==> h in b[1..]
      {
        RestMember(a, h);
        RestMember(b, h);
      }
      InOrderUnique(a[1..], b[1..]);
      assert a == [a[0]] + a[1..] && b == [b[0]] + b[1..];
    }
  }

  lemma RestMember(a: seq<Hit>, h: Hit)
    requires a != [] && InOrder(a)
    ensures h in a[1..] <==> h in a && h != a[0]
  {
    assert a == [a[0]] + a[1..];
    if h in a[1..] {
      var i :| 0 <= i < |a[1..]| && a[1..][i] == h;
      assert HitBefore(a[0], a[i + 1]);
    }
  }

  /** A live name occupies the m tokens from j on. */
  predicate Lives(tokens: seq<Token>, live: set<string>, j: nat, m: nat) {
    m >= 1 && j + m <= |tokens| && Phrase(tokens, j, m) in live
  }

  predicate Contains(j: nat, m: nat, h: Hit) {
    j <= h.start && h.start + h.words <= j + m
  }

  ghost predicate CoveredBy(tokens: seq<Token>, live: set<string>, h: Hit, j: nat, m: nat) {
    Lives(tokens, live, j, m) && Contains(j, m, h)
  }

  /** Some occurrence of a live name, of any length and anywhere in the file, contains the hit. */
  ghost predicate CoveredAnywhere(tokens: seq<Token>, live: set<string>, h: Hit) {
    exists j: nat, m: nat :: CoveredBy(tokens, live, h, j, m)
  }

  /** The same among occurrences of at most the bounded length. */
  ghost predicate Covered(tokens: seq<Token>, live: set<string>, h: Hit) {
    exists j: nat, m: nat :: CoveredBy(tokens, live, h, j, m) && m <= MAX_NAME_WORDS
  }

  /** A span that is recorded at j: a live phrase of at most the bounded length. */
  predicate IsSpan(tokens: seq<Token>, live: set<string>, j: nat, sp: Span) {
    Candidate(tokens, j, sp.words) && Phrase(tokens, j, sp.words) in live && sp.name == Phrase(tokens, j, sp.words)
  }

  ghost predicate Records(tokens: seq<Token>, live: set<string>, spans: map<nat, seq<Span>>, n: nat) {
    forall j: nat, sp :: sp in SpansAt(spans, j) <==> (j < n && IsSpan(tokens, live, j, sp))
  }

  function SpansAt(spans: map<nat, seq<Span>>, j: nat): seq<Span> {
    if j in spans then spans[j] else []
  }

  /** A live name is declarable, so its occurrences are within the bound. */
  lemma LiveBounded(src: string, live: set<string>, j: nat, m: nat)
    requires Lives(Tokens(src, 1), live, j, m) && forall name :: name in live ==> Declarable(name)
    ensures m <= MAX_NAME_WORDS
  {
    PhraseTokens(src, j, m);
    assert Declarable(Phrase(Tokens(src, 1), j, m));
  }

  /** Looks only at the starts from which a bounded span can still reach the hit. */
  method CoveringLiveName(h: Hit, spans: map<nat, seq<Span>>) returns (cover: Option<string>)
    requires h.words >= 1 && forall j, sp :: sp in SpansAt(spans, j) ==> sp.words <= MAX_NAME_WORDS
    ensures cover.Some? <==> exists j: nat, sp :: sp in SpansAt(spans, j) && Contains(j, sp.words, h)
    ensures cover.Some? ==> exists j: nat, sp :: sp in SpansAt(spans, j) && Contains(j, sp.words, h) && sp.name == cover.value
  {
    var first := if h.start < MAX_NAME_WORDS - 1 then 0 else h.start - MAX_NAME_WORDS + 1;
    for j := first to h.start + 1
      invariant forall i: nat, sp :: first <= i < j && sp in SpansAt(spans, i) ==> !Contains(i, sp.words, h)
    {
      var here := SpansAt(spans, j);
      for k := 0 to |here|
        invariant forall sp :: sp in here[..k] ==> !Contains(j, sp.words, h)
      {
        assert here[..k + 1] == here[..k] + [here[k]];
        if here[k].words >= h.words && j + here[k].words >= h.start + h.words {
          assert here[k] in SpansAt(spans, j) && Contains(j, here[k].words, h);
          return Some(here[k].name);
        }
      }
      assert here[..|here|] == here;
    }
    return None;
  }

  lemma {:induction false} SpacedNext(words: seq<string>, w: string)
    requires words != []
    ensures Spaced(words + [w]) == Spaced(words) + " " + w
  {
    var all := words + [w];
    if |words| == 1 {
      assert all[1..] == [w];
    } else {
      assert all[1..] == words[1..] + [w];
      SpacedNext(words[1..], w);
      assert words[0] + " " + (Spaced(words[1..]) + " " + w) == (words[0] + " " + Spaced(words[1..])) + " " + w;
    }
  }

  lemma PhraseNext(tokens: seq<Token>, i: nat, n: nat)
    requires n >= 1 && i + n < |tokens|
    ensures Phrase(tokens, i, n + 1) == Phrase(tokens, i, n) + " " + tokens[i + n].text
  {
    var texts := Texts(tokens);
    assert texts[i..i + n + 1] == texts[i..i + n] + [texts[i + n]];
    SpacedNext(texts[i..i + n], texts[i + n]);
  }

  lemma PhraseOne(tokens: seq<Token>, i: nat)
    requires i < |tokens|
    ensures Phrase(tokens, i, 1) == tokens[i].text
  {
    assert Texts(tokens)[i..i + 1] == [tokens[i].text];
  }

  method MatchGroups(tokens: seq<Token>, i: nat, n: nat, phrase: string, groups: seq<Group>, hash: Hash) returns (hits: seq<Hit>)
    requires Candidate(tokens, i, n) && phrase == Phrase(tokens, i, n)
    ensures forall h :: h in hits <==> IsHit(tokens, groups, hash, h) && h.start == i && h.words == n
    ensures InOrder(hits)
  {
    hide Phrase;
    hits := [];
    for g := 0 to |groups|
      invariant InOrder(hits)
      invariant forall h :: h in hits <==> IsHit(tokens, groups, hash, h) && h.start == i && h.words == n && h.group < g
    {
      var key := hash(groups[g].mod, groups[g].nodeType, phrase);
      if key in groups[g].keys {
        hits := hits + [Hit(i, n, tokens[i].line, phrase, g, key)];
      }
    }
  }

  /** The phrases that start at token i. */
  method ScanStart(tokens: seq<Token>, i: nat, groups: seq<Group>, live: set<string>, hash: Hash) returns (spans: seq<Span>, hits: seq<Hit>)
    requires i < |tokens|
    ensures forall sp :: sp in spans <==> IsSpan(tokens, live, i, sp)
    ensures forall h :: h in hits <==> IsHit(tokens, groups, hash, h) && h.start == i
    ensures InOrder(hits)
  {
    hide Phrase;
    spans, hits := [], [];
    var phrase := tokens[i].text;
    var n := 1;
    PhraseOne(tokens, i);
    while n <= MAX_NAME_WORDS && i + n <= |tokens|
      invariant n >= 1 && (i + n <= |tokens| ==> phrase == Phrase(tokens, i, n))
      invariant forall sp :: sp in spans <==> IsSpan(tokens, live, i, sp) && sp.words < n
      invariant forall h :: h in hits <==> IsHit(tokens, groups, hash, h) && h.start == i && h.words < n
      invariant InOrder(hits)
      decreases |tokens| - n
    {
      if phrase in live {
        spans := spans + [Span(n, phrase)];
      }
      var more := MatchGroups(tokens, i, n, phrase, groups, hash);
      InOrderConcat(hits, more);
      hits := hits + more;
      if i + n < |tokens| {
        PhraseNext(tokens, i, n);
        phrase := phrase + " " + tokens[i + n].text;
      }
      n := n + 1;
    }
  }

  method CollectFile(tokens: seq<Token>, groups: seq<Group>, live: set<string>, hash: Hash)
    returns (spans: map<nat, seq<Span>>, hits: seq<Hit>)
    ensures Records(tokens, live, spans, |tokens|)
    ensures forall h :: h in hits <==> IsHit(tokens, groups, hash, h)
    ensures InOrder(hits)
  {
    hide IsSpan;
    spans, hits := map[], [];
    for i := 0 to |tokens|
      invariant Records(tokens, live, spans, i)
      invariant forall j: nat :: j in spans ==> j < i
      invariant forall h :: h in hits <==> IsHit(tokens, groups, hash, h) && h.start < i
      invariant InOrder(hits)
    {
      var here, found := ScanStart(tokens, i, groups, live, hash);
      ghost var before := spans;
      spans := spans[i := here];
      InOrderConcat(hits, found);
      hits := hits + found;
      forall j: nat
        ensures SpansAt(spans, j) == if j == i then here else SpansAt(before, j)
      {
      }
    }
  }

  lemma SpansAnswer(tokens: seq<Token>, live: set<string>, spans: map<nat, seq<Span>>, h: Hit)
    requires Records(tokens, live, spans, |tokens|)
    ensures Covered(tokens, live, h) <==> exists j: nat, sp :: sp in SpansAt(spans, j) && Contains(j, sp.words, h)
  {
    hide Phrase;
    if Covered(tokens, live, h) {
      var j: nat, m: nat :| CoveredBy(tokens, live, h, j, m) && m <= MAX_NAME_WORDS;
      var sp := Span(m, Phrase(tokens, j, m));
      assert sp in SpansAt(spans, j);
    }
    if j: nat, sp :| sp in SpansAt(spans, j) && Contains(j, sp.words, h) {
      assert IsSpan(tokens, live, j, sp);
      assert CoveredBy(tokens, live, h, j, sp.words);
    }
  }

  /** With every live name declarable, the bounded window misses no occurrence. */
  lemma BoundedIsUnbounded(src: string, live: set<string>, h: Hit)
    requires forall name :: name in live ==> Declarable(name)
    ensures Covered(Tokens(src, 1), live, h) <==> CoveredAnywhere(Tokens(src, 1), live, h)
  {
    hide Tokens, Phrase, Declarable;
    if CoveredAnywhere(Tokens(src, 1), live, h) {
      var j: nat, m: nat :| CoveredBy(Tokens(src, 1), live, h, j, m);
      LiveBounded(src, live, j, m);
    }
  }

  /**
   The sweep of one file keeps exactly the phrases that hash to a removed key and that no occurrence of a
   live name contains; the others are set aside as suppressed.  Both lists are by start, length and group,
   each hit once.
   */
  method ScanFile(src: string, groups: seq<Group>, live: set<string>, hash: Hash) returns (kept: seq<Hit>, suppressed: seq<Hit>)
    ensures forall h :: h in kept <==> IsHit(Tokens(src, 1), groups, hash, h) && !Covered(Tokens(src, 1), live, h)
    ensures forall h :: h in suppressed <==> IsHit(Tokens(src, 1), groups, hash, h) && Covered(Tokens(src, 1), live, h)
    ensures InOrder(kept) && InOrder(suppressed)
  {
    hide Tokens, Covered;
    var tokens := TokenizeCorpus(src);
    var spans, hits := CollectFile(tokens, groups, live, hash);
    kept, suppressed := [], [];
    for k := 0 to |hits|
      invariant forall h :: h in kept <==> h in hits[..k] && !Covered(tokens, live, h)
      invariant forall h :: h in suppressed <==> h in hits[..k] && Covered(tokens, live, h)
      invariant InOrder(kept) && InOrder(suppressed)
    {
      var h := hits[k];
      assert hits[..k + 1] == hits[..k] + [h];
      assert h in hits;
      LaterHit(hits, k, kept, suppressed);
      SpansAnswer(tokens, live, spans, h);
      SpansShort(tokens, live, spans);
      var cover := CoveringLiveName(h, spans);
      if cover.Some? {
        suppressed := suppressed + [h];
      } else {
        kept := kept + [h];
      }
    }
    assert hits[..|hits|] == hits;
  }

  lemma LaterHit(hits: seq<Hit>, k: nat, kept: seq<Hit>, suppressed: seq<Hit>)
    requires InOrder(hits) && k < |hits| && InOrder(kept) && InOrder(suppressed)
    requires (forall h :: h in kept ==> h in hits[..k]) && (forall h :: h in suppressed ==> h in hits[..k])
    ensures InOrder(kept + [hits[k]]) && InOrder(suppressed + [hits[k]])
  {
    forall x | x in hits[..k]
      ensures HitBefore(x, hits[k])
    {
      var i :| 0 <= i < k && hits[i] == x;
    }
    InOrderConcat(kept, [hits[k]]);
    InOrderConcat(suppressed, [hits[k]]);
  }

  lemma SpansShort(tokens: seq<Token>, live: set<string>, spans: map<nat, seq<Span>>)
    requires Records(tokens, live, spans, |tokens|)
    ensures forall j, sp :: sp in SpansAt(spans, j) ==> sp.words <= MAX_NAME_WORDS
  {
    hide Phrase;
  }

  /**
   A removed name that was declarable and still stands in a file, however it is wrapped or punctuated, is hit
   by the sweep: it is kept or set aside, never missed.
   */
  lemma RemovedNameHit(name: string, pre: string, body: string, post: string, groups: seq<Group>, g: nat, hash: Hash)
    requires Declarable(name) && Occurs(name, pre, body, post)
    requires g < |groups| && hash(groups[g].mod, groups[g].nodeType, name) in groups[g].keys
    ensures exists h :: IsHit(Tokens(pre + body + post, 1), groups, hash, h) && h.name == name && h.group == g
  {
    hide Tokens, Phrase, Declarable, Occurs;
    var i, n := DeclarableFound(name, pre, body, post);
    var tokens := Tokens(pre + body + post, 1);
    var h := Hit(i, n, tokens[i].line, name, g, hash(groups[g].mod, groups[g].nodeType, name));
    assert IsHit(tokens, groups, hash, h);
  }
}
