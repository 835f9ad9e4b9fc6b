/**
 What the sweep reads: the words of a text by their places, and the normal form of a word by
 what is peeled off it.
 */
module CorpusLaws {
  import opened Results
  import opened Text
  import opened Corpus

  // ---- the normal form of a word ----

  /** t is s without its last character, a wrapping mark or a period, or without a possessive that leaves something. */
  ghost predicate Peels(s: string, t: string) {
    && t <= s
    && ((|s| == |t| + 1 && (InCutset(s[|t|]) || s[|t|] == '.'))
        || (|s| == |t| + 2 && t != "" && (s[|t|] == '\'' || s[|t|] == '\U{2019}') && s[|t| + 1] == 's'))
  }

  ghost predicate PeelsTo(s: string, r: string)
    decreases |s|
  {
    s == r || exists t :: |t| < |s| && Peels(s, t) && PeelsTo(t, r)
  }

  /** Nothing is left to peel. */
  ghost predicate Ends(r: string) {
    forall t :: !Peels(r, t)
  }

  /** The wrapping marks before the word are gone, and its end is peeled until nothing more comes off. */
  ghost predicate NormalSays(s: string, r: string) {
    exists i ::
      && 0 <= i <= |s| && (forall k :: 0 <= k < i ==> InCutset(s[k])) && (i < |s| ==> !InCutset(s[i]))
      && PeelsTo(s[i..], r) && Ends(r)
  }

  lemma {:induction false} PeelsOn(a: string, b: string, c: string)
    requires PeelsTo(a, b) && PeelsTo(b, c)
    ensures PeelsTo(a, c)
    decreases |a|
  {
    hide Peels;
    if a != b {
      var t :| |t| < |a| && Peels(a, t) && PeelsTo(t, b);
      PeelsOn(t, b, c);
    }
  }

  lemma {:induction false} PeelsRun(s: string, drop: char -> bool)
    requires forall c :: drop(c) ==> InCutset(c) || c == '.'
    ensures PeelsTo(s, TrimRight(s, drop))
  {
    hide InCutset;
    if s != "" && drop(s[|s| - 1]) {
      var t := s[..|s| - 1];
      PeelsRun(t, drop);
      assert Peels(s, t);
    }
  }

  lemma PeelsSuffix(s: string, suffix: string)
    requires suffix == "'s" || suffix == "\U{2019}s"
    ensures PeelsTo(s, DropSuffix(s, suffix))
  {
    hide InCutset;
    var t := DropSuffix(s, suffix);
    if t != s {
      assert s[|t|..] == suffix;
      assert s[|t|] == suffix[0] && s[|t| + 1] == suffix[1];
      assert Peels(s, t) && PeelsTo(t, t);
    }
  }

  lemma StripPeels(s: string)
    ensures PeelsTo(TrimLeft(s, Cutset()), Strip(s))
  {
    hide InCutset, PeelsTo, TrimRight, TrimLeft, DropSuffix;
    var left := TrimLeft(s, Cutset());
    var both := TrimRight(left, Cutset());
    var plain := TrimRight(both, Period());
    var once := DropSuffix(plain, "'s");
    PeelsRun(left, Cutset());
    PeelsRun(both, Period());
    PeelsSuffix(plain, "'s");
    PeelsSuffix(once, "\U{2019}s");
    PeelsOn(left, both, plain);
    PeelsOn(left, plain, once);
    PeelsOn(left, once, Strip(s));
  }

  lemma {:induction false} PeelsPrefix(s: string, r: string)
    requires PeelsTo(s, r)
    ensures r <= s
    decreases |s|
  {
    hide InCutset;
    if s != r {
      var t :| |t| < |s| && Peels(s, t) && PeelsTo(t, r);
      PeelsPrefix(t, r);
    }
  }

  /** What stripping leaves alone has nothing left to trim. */
  lemma StripFixed(s: string)
    requires Strip(s) == s
    ensures TrimLeft(s, Cutset()) == s && Ends(s)
  {
    hide InCutset, PeelsTo, DropSuffix;
    var left := TrimLeft(s, Cutset());
    var both := TrimRight(left, Cutset());
    var plain := TrimRight(both, Period());
    var once := DropSuffix(plain, "'s");
    var d := TrimLeftFacts(s, Cutset());
    var e := TrimRightFacts(left, Cutset());
    var f := TrimRightFacts(both, Period());
    SuffixShortens(plain, "'s");
    SuffixShortens(once, "\U{2019}s");
    assert |s| <= |once| <= |plain| <= |both| <= |left| <= |s|;
    assert left == s && both == s && plain == s && once == s;
    SuffixGone(s, "'s");
    SuffixGone(s, "\U{2019}s");
    assert s != "" ==> !Cutset()(s[|s| - 1]) && !Period()(s[|s| - 1]);
    NothingPeels(s);
  }

  lemma NothingPeels(s: string)
    requires s != "" ==> !InCutset(s[|s| - 1]) && s[|s| - 1] != '.'
    requires |s| > 2 ==> s[|s| - 2..] != "'s" && s[|s| - 2..] != "\U{2019}s"
    ensures Ends(s)
  {
    forall t
      ensures !Peels(s, t)
    {
      if |s| == |t| + 2 && t <= s && t != "" {
        assert s[|t|..] == [s[|t|], s[|t| + 1]];
      }
    }
  }

  lemma SuffixShortens(s: string, suffix: string)
    ensures |DropSuffix(s, suffix)| <= |s|
  {
  }

  lemma SuffixGone(s: string, suffix: string)
    requires DropSuffix(s, suffix) == s && suffix != ""
    ensures |s| > |suffix| ==> s[|s| - |suffix|..] != suffix
  {
  }

  /** Normalization leaves what this description says. */
  lemma {:induction false} NormalSaysSo(s: string)
    ensures NormalSays(s, Normalize(s))
    decreases |s|
  {
    hide InCutset, PeelsTo, Strip, TrimLeft, Ends;
    var t, r := Strip(s), Normalize(s);
    var d := TrimLeftFacts(s, Cutset());
    var left := TrimLeft(s, Cutset());
    assert forall k :: 0 <= k < d ==> Cutset()(s[k]);
    if t == s {
      StripFixed(s);
      PeelsNone(s);
    } else {
      StripPart(s);
      PartShorter(t, s);
      NormalSaysSo(t);
      StripPeels(s);
      PeelsPrefix(left, t);
      var i :| 0 <= i <= |t| && (forall k :: 0 <= k < i ==> InCutset(t[k])) && (i < |t| ==> !InCutset(t[i])) && PeelsTo(t[i..], r) && Ends(r);
      assert d < |s| ==> !Cutset()(s[d]);
      assert t != "" ==> t[0] == left[0] == s[d];
      assert i == 0;
      assert t[0..] == t;
      PeelsOn(left, t, r);
    }
  }

  lemma PeelsNone(s: string)
    ensures PeelsTo(s, s)
  {
  }

  // ---- the words of a text ----

  datatype Extent = Extent(start: nat, end: nat)

  /** A word: as long as white space does not end it. */
  ghost predicate WordAt(src: string, x: Extent) {
    && x.start < x.end <= |src| && (forall k :: x.start <= k < x.end ==> !IsBreak(src[k]))
    && (x.start > 0 ==> IsBreak(src[x.start - 1])) && (x.end < |src| ==> IsBreak(src[x.end]))
  }

  /** A word that has a normal form. */
  ghost predicate Counts(src: string, x: Extent) {
    WordAt(src, x) && Normalize(src[x.start..x.end]) != ""
  }

  /** The line a place stands on. */
  function LineOf(src: string, i: nat): nat
    requires i <= |src|
  {
    1 + multiset(src[..i])['\n']
  }

  /** The token of a word: its normal form and its line. */
  ghost predicate TokenSays(src: string, x: Extent, t: Token) {
    x.start <= x.end <= |src| && t.text == Normalize(src[x.start..x.end]) && t.line == LineOf(src, x.start)
  }

  /** One token for each word from a place on, in order. */
  ghost predicate WordsSay(src: string, at: seq<Extent>, tokens: seq<Token>, from: nat) {
    && |at| == |tokens| && (forall k, l :: 0 <= k < l < |at| ==> at[k].start < at[l].start)
    && (forall x :: x in at <==> from <= x.start && Counts(src, x))
    && (forall k :: 0 <= k < |at| ==> TokenSays(src, at[k], tokens[k]))
  }

  lemma LineNext(src: string, p: nat, q: nat)
    requires p <= q <= |src|
    ensures LineOf(src, q) == LineOf(src, p) + multiset(src[p..q])['\n']
  {
    assert src[..q] == src[..p] + src[p..q];
  }

  lemma {:induction false} WordsFrom(src: string, p: nat) returns (at: seq<Extent>)
    requires p <= |src| && (0 < p < |src| ==> IsBreak(src[p - 1]) || IsBreak(src[p]))
    ensures WordsSay(src, at, Tokens(src[p..], LineOf(src, p)), p)
    decreases |src| - p
  {
    hide Normalize, Tokens, IsBreak, LineOf, WordsSay, Word, WordAt;
    if p == |src| {
      at := [];
      NoWords(src);
    } else if IsBreak(src[p]) {
      at := WordsFrom(src, p + 1);
      TokensBreak(src[p..], LineOf(src, p));
      assert src[p..][1..] == src[p + 1..];
      LineStep(src, p);
      SkipBreak(src, p, at, Tokens(src[p + 1..], LineOf(src, p + 1)));
    } else {
      var j := WordHere(src, p);
      SliceWord(src, p, j, LineOf(src, p));
      SameLine(src, p, j);
      var rest := WordsFrom(src, j);
      at := MoreWords(src, Extent(p, j), rest, Tokens(src[j..], LineOf(src, j)));
    }
  }

  lemma NoWords(src: string)
    ensures WordsSay(src, [], Tokens(src[|src|..], LineOf(src, |src|)), |src|)
  {
    NoTokens(LineOf(src, |src|));
    assert src[|src|..] == "";
  }

  lemma LineStep(src: string, p: nat)
    requires p < |src|
    ensures LineOf(src, p + 1) == if src[p] == '\n' then LineOf(src, p) + 1 else LineOf(src, p)
  {
    LineNext(src, p, p + 1);
    assert src[p..p + 1] == [src[p]];
  }

  /** No word starts with white space. */
  lemma SkipBreak(src: string, p: nat, at: seq<Extent>, tokens: seq<Token>)
    requires p < |src| && IsBreak(src[p]) && WordsSay(src, at, tokens, p + 1)
    ensures WordsSay(src, at, tokens, p)
  {
    hide IsBreak, TokenSays, Normalize;
    forall x: Extent | x.start == p
      ensures !Counts(src, x)
    {
    }
  }

  /** The word that starts here. */
  lemma WordHere(src: string, p: nat) returns (j: nat)
    requires p < |src| && !IsBreak(src[p]) && (p > 0 ==> IsBreak(src[p - 1]))
    ensures p < j <= |src| && WordAt(src, Extent(p, j))
    ensures (forall k :: p <= k < j ==> !IsBreak(src[k])) && (j < |src| ==> IsBreak(src[j]))
  {
    hide IsBreak;
    j := p + 1;
    while j < |src| && !IsBreak(src[j])
      invariant p < j <= |src| && forall k :: p <= k < j ==> !IsBreak(src[k])
    {
      j := j + 1;
    }
  }

  lemma SameLine(src: string, p: nat, j: nat)
    requires p <= j <= |src| && forall k :: p <= k < j ==> !IsBreak(src[k])
    ensures LineOf(src, j) == LineOf(src, p)
  {
    LineNext(src, p, j);
    forall k | 0 <= k < |src[p..j]|
      ensures src[p..j][k] != '\n'
    {
      assert src[p..j][k] == src[p + k] && IsBreak('\n');
    }
    assert '\n' !in src[p..j];
  }

  /** A word is the only one that starts in it. */
  lemma OnlyWord(src: string, w: Extent, x: Extent)
    requires WordAt(src, w) && w.start <= x.start < w.end
    ensures WordAt(src, x) <==> x == w
  {
    hide IsBreak;
  }

  lemma MoreWords(src: string, w: Extent, rest: seq<Extent>, tokens: seq<Token>) returns (at: seq<Extent>)
    requires WordAt(src, w) && w.start < w.end <= |src| && WordsSay(src, rest, tokens, w.end)
    ensures WordsSay(src, at, Word(src[w.start..w.end], LineOf(src, w.start)) + tokens, w.start)
  {
    hide Normalize, IsBreak, LineOf, WordAt, TokenSays;
    forall x: Extent | w.start <= x.start < w.end
      ensures Counts(src, x) <==> x == w && Counts(src, w)
    {
      OnlyWord(src, w, x);
    }
    if Counts(src, w) {
      at := [w] + rest;
      FirstInOrder(w, rest);
      assert TokenSays(src, w, Token(Normalize(src[w.start..w.end]), LineOf(src, w.start))) by { TokenOf(src, w); }
      assert forall x :: x in at <==> x == w || x in rest;
      assert Word(src[w.start..w.end], LineOf(src, w.start)) + tokens == [Token(Normalize(src[w.start..w.end]), LineOf(src, w.start))] + tokens;
    } else {
      at := rest;
      assert Word(src[w.start..w.end], LineOf(src, w.start)) + tokens == tokens;
    }
  }

  lemma TokenOf(src: string, w: Extent)
    requires w.start <= w.end <= |src|
    ensures TokenSays(src, w, Token(Normalize(src[w.start..w.end]), LineOf(src, w.start)))
  {
  }

  lemma FirstInOrder(w: Extent, rest: seq<Extent>)
    requires (forall x :: x in rest ==> w.start < x.start) && forall k, l :: 0 <= k < l < |rest| ==> rest[k].start < rest[l].start
    ensures var at := [w] + rest; forall k, l :: 0 <= k < l < |at| ==> at[k].start < at[l].start
  {
    var at := [w] + rest;
    forall k, l | 0 <= k < l < |at|
      ensures at[k].start < at[l].start
    {
      assert at[l] == rest[l - 1] && rest[l - 1] in rest;
      assert k > 0 ==> at[k] == rest[k - 1];
    }
  }

  /** The tokens of a text are its words in order, each in its normal form with its line, those without a normal form left out. */
  lemma TokensSaySo(src: string) returns (at: seq<Extent>)
    ensures WordsSay(src, at, Tokens(src, 1), 0)
  {
    hide Tokens, WordsSay;
    at := WordsFrom(src, 0);
    assert src[0..] == src && src[..0] == "";
    assert LineOf(src, 0) == 1;
  }
}
