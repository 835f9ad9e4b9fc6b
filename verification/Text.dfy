/** Strings as the markdown and corpus code takes them apart. */
module Text {
  import opened Results

  /** White space in the sense of Unicode's White_Space property. */
  predicate IsSpace(c: char) {
    c == '\t' || c == '\n' || c == '\U{000B}' || c == '\U{000C}' || c == '\r' || c == ' ' || c == '\U{0085}' || c == '\U{00A0}' ||
    c == '\U{1680}' || '\U{2000}' <= c <= '\U{200A}' || c == '\U{2028}' || c == '\U{2029}' || c == '\U{202F}' ||
    c == '\U{205F}' || c == '\U{3000}'
  }

  predicate IsWordChar(c: char) {
    c == '_' || '0' <= c <= '9' || 'a' <= c <= 'z' || 'A' <= c <= 'Z'
  }

  /** The string without its leading characters of a kind. */
  function TrimLeft(s: string, drop: char -> bool): string {
    if s != "" && drop(s[0]) then TrimLeft(s[1..], drop) else s
  }

  function TrimRight(s: string, drop: char -> bool): string {
    if s != "" && drop(s[|s| - 1]) then TrimRight(s[..|s| - 1], drop) else s
  }

  /** What is left is a suffix, all that is gone was to go, and what starts it stays. */
  lemma {:induction false} TrimLeftFacts(s: string, drop: char -> bool) returns (d: nat)
    ensures d <= |s| && TrimLeft(s, drop) == s[d..] && (d < |s| ==> !drop(s[d]))
    ensures forall i :: 0 <= i < d ==> drop(s[i])
  {
    if s != "" && drop(s[0]) {
      d := TrimLeftFacts(s[1..], drop);
      assert s[1..][d..] == s[d + 1..];
      forall i | 0 <= i < d + 1
        ensures drop(s[i])
      {
        assert i > 0 ==> s[i] == s[1..][i - 1];
      }
      d := d + 1;
    } else {
      d := 0;
      assert s[0..] == s;
    }
  }

  lemma {:induction false} TrimRightFacts(s: string, drop: char -> bool) returns (d: nat)
    ensures d <= |s| && TrimRight(s, drop) == s[..d] && (d > 0 ==> !drop(s[d - 1]))
    ensures forall i :: d <= i < |s| ==> drop(s[i])
  {
    if s != "" && drop(s[|s| - 1]) {
      d := TrimRightFacts(s[..|s| - 1], drop);
      assert s[..|s| - 1][..d] == s[..d];
    } else {
      d := |s|;
      assert s[..|s|] == s;
    }
  }

  lemma {:induction false} TrimLeftIs(s: string, drop: char -> bool, d: nat)
    requires d <= |s| && (forall i :: 0 <= i < d ==> drop(s[i])) && (d < |s| ==> !drop(s[d]))
    ensures TrimLeft(s, drop) == s[d..]
  {
    if d > 0 {
      TrimLeftIs(s[1..], drop, d - 1);
      assert s[1..][d - 1..] == s[d..];
    }
  }

  function Trim(s: string, drop: char -> bool): string {
    TrimRight(TrimLeft(s, drop), drop)
  }

  function Spaces(): char -> bool {
    (c: char) => IsSpace(c)
  }

  function TrimSpace(s: string): string {
    Trim(s, Spaces())
  }

  predicate At(s: string, pat: string, i: nat) {
    i + |pat| <= |s| && s[i..i + |pat|] == pat
  }

  /** Where the pattern first occurs at or after `from`. */
  function Find(s: string, pat: string, from: nat): (r: Option<nat>)
    requires from <= |s|
    ensures r.Some? ==> from <= r.value && r.value + |pat| <= |s|
    decreases |s| - from
  {
    if At(s, pat, from) then Some(from)
    else if from == |s| then None
    else Find(s, pat, from + 1)
  }

  /** It occurs there, and nowhere before. */
  lemma {:induction false} FindFacts(s: string, pat: string, from: nat)
    requires from <= |s|
    ensures var r := Find(s, pat, from); r.Some? ==> At(s, pat, r.value)
    ensures forall i: nat {:trigger At(s, pat, i)} :: from <= i < (if Find(s, pat, from).Some? then Find(s, pat, from).value else |s| + 1) ==> !At(s, pat, i)
    decreases |s| - from
  {
    hide At;
    if !At(s, pat, from) && from < |s| {
      FindFacts(s, pat, from + 1);
    }
  }

  // ---- lines ----

  /** The lines of a text: what stands between line feeds. */
  function Lines(s: string): (r: seq<string>)
    ensures r != []
    ensures forall i :: 0 <= i < |r| ==> '\n' !in r[i]
  {
    if s == "" then
      [""]
    else
      var rest := Lines(s[1..]);
      if s[0] == '\n' then [""] + rest else [[s[0]] + rest[0]] + rest[1..]
  }

  function Join(lines: seq<string>): string {
    if lines == [] then ""
    else if |lines| == 1 then lines[0]
    else lines[0] + "\n" + Join(lines[1..])
  }

  lemma {:induction false} JoinLines(s: string)
    ensures Join(Lines(s)) == s
  {
    if s != "" {
      JoinLines(s[1..]);
      var rest := Lines(s[1..]);
      var all := Lines(s);
      if s[0] == '\n' {
        assert all[1..] == rest;
      } else if |rest| > 1 {
        assert all[1..] == rest[1..];
      }
    }
  }

  lemma {:induction false} LinesOfLine(line: string, rest: string)
    requires '\n' !in line
    ensures Lines(line) == [line]
    ensures Lines(line + "\n" + rest) == [line] + Lines(rest)
  {
    if line == "" {
      assert line + "\n" + rest == "\n" + rest && ("\n" + rest)[1..] == rest;
    } else {
      LinesOfLine(line[1..], rest);
      assert (line + "\n" + rest)[1..] == line[1..] + "\n" + rest;
      assert line == [line[0]] + line[1..];
      var tail := Lines(line[1..] + "\n" + rest);
      assert tail[0] == line[1..] && tail[1..] == Lines(rest);
    }
  }

  /** Splitting what was joined gives the lines back. */
  lemma {:induction false} LinesJoin(lines: seq<string>)
    requires lines != [] && forall i :: 0 <= i < |lines| ==> '\n' !in lines[i]
    ensures Lines(Join(lines)) == lines
  {
    if |lines| == 1 {
      LinesOfLine(lines[0], "");
    } else {
      LinesJoin(lines[1..]);
      LinesOfLine(lines[0], Join(lines[1..]));
      assert lines == [lines[0]] + lines[1..];
    }
  }
}
