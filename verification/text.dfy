/** The Rust `str` operations the `ldd` output parser relies on: `contains`,
    `starts_with`, `lines`, `split_whitespace`, `trim` and `trim_matches`,
    each with the exact edge-case behaviour of the standard library. */
module Text {
  import opened Base

  /** Unicode White_Space, the class `char::is_whitespace` tests. */
  predicate IsWhitespace(c: char) {
    || ('\t' <= c <= '\r')
    || c == ' '
    || c == '\U{0085}'
    || c == '\U{00A0}'
    || c == '\U{1680}'
    || ('\U{2000}' <= c <= '\U{200A}')
    || c == '\U{2028}'
    || c == '\U{2029}'
    || c == '\U{202F}'
    || c == '\U{205F}'
    || c == '\U{3000}'
  }

  /** A non-empty run of non-whitespace characters. */
  predicate IsToken(s: string) {
    s != [] && forall i :: 0 <= i < |s| ==> !IsWhitespace(s[i])
  }

  predicate AllWhitespace(s: string) {
    forall i :: 0 <= i < |s| ==> IsWhitespace(s[i])
  }

  predicate StartsWith(s: string, pre: string) {
    |pre| <= |s| && s[..|pre|] == pre
  }

  /** `str::contains` with a string pattern. */
  predicate Contains(s: string, pat: string)
    decreases |s|
  {
    StartsWith(s, pat) || (s != [] && Contains(s[1..], pat))
  }

  lemma {:induction false} ContainsAt(s: string, pat: string, i: nat)
    requires i + |pat| <= |s| && s[i..i + |pat|] == pat
    ensures Contains(s, pat)
  {
    if i > 0 {
      assert s[1..][i - 1..i - 1 + |pat|] == s[i..i + |pat|];
      ContainsAt(s[1..], pat, i - 1);
    }
  }

  /** A pattern whose first character never occurs cannot occur. */
  lemma {:induction false} NotContainsWithoutFirstChar(s: string, pat: string)
    requires pat != [] && pat[0] !in s
    ensures !Contains(s, pat)
    decreases |s|
  {
    if s != [] {
      assert s[0] != pat[0];
      assert pat[0] !in s[1..];
      NotContainsWithoutFirstChar(s[1..], pat);
    }
  }

  /** First position of `c` in `s`. */
  function IndexOf(s: string, c: char): (r: Option<nat>)
    ensures r.Some? ==> r.value < |s| && s[r.value] == c && c !in s[..r.value]
    ensures r.None? <==> c !in s
  {
    if s == [] then None
    else if s[0] == c then Some(0)
    else match IndexOf(s[1..], c)
      case None => None
      case Some(i) =>
        assert s[..i + 1] == [s[0]] + s[1..][..i];
        Some(i + 1)
  }

  /** Last position of `c` in `s`. */
  function LastIndexOf(s: string, c: char): (r: Option<nat>)
    ensures r.Some? ==> r.value < |s| && s[r.value] == c && c !in s[r.value + 1..]
    ensures r.None? <==> c !in s
  {
    if s == [] then None
    else if s[|s| - 1] == c then Some(|s| - 1)
    else
      var r := LastIndexOf(s[..|s| - 1], c);
      assert s == s[..|s| - 1] + [s[|s| - 1]];
      r
  }

  lemma IndexOfJoin(a: string, c: char, b: string)
    requires c !in a
    ensures IndexOf(a + [c] + b, c) == Some(|a|)
  {
    var s := a + [c] + b;
    assert s[|a|] == c;
    assert forall k :: 0 <= k < |a| ==> s[k] == a[k];
    assert c in s[..|a| + 1];
  }

  lemma {:induction false} LastIndexOfJoin(a: string, c: char, b: string)
    requires c !in b
    ensures LastIndexOf(a + [c] + b, c) == Some(|a|)
    decreases |b|
  {
    var s := a + [c] + b;
    if b != [] {
      var b' := b[..|b| - 1];
      assert s[|s| - 1] == b[|b| - 1];
      assert s[..|s| - 1] == a + [c] + b';
      assert c !in b' by { assert forall k :: 0 <= k < |b'| ==> b'[k] == b[k]; }
      LastIndexOfJoin(a, c, b');
    }
  }

  /** A line with one trailing carriage return removed. */
  function StripCr(line: string): string {
    if |line| > 0 && line[|line| - 1] == '\r' then line[..|line| - 1] else line
  }

  /** `str::lines`: split after every '\n', drop the '\n' and one '\r' just
      before it; a final line without '\n' is kept as it is, and a trailing
      '\n' does not start another (empty) line. */
  function Lines(s: string): (r: seq<string>)
    ensures forall i :: 0 <= i < |r| ==> '\n' !in r[i]
    decreases |s|
  {
    match IndexOf(s, '\n')
    case None => if s == [] then [] else [s]
    case Some(k) => [StripCr(s[..k])] + Lines(s[k + 1..])
  }

  /** Each line followed by '\n', the way a line-oriented tool prints. */
  function JoinLines(lines: seq<string>): string {
    if lines == [] then [] else lines[0] + "\n" + JoinLines(lines[1..])
  }

  /** `Lines` recovers the lines a tool printed, as long as none of them
      holds a '\n' or ends in '\r'. */
  lemma {:induction false} LinesOfJoinLines(lines: seq<string>)
    requires forall i :: 0 <= i < |lines| ==> '\n' !in lines[i]
    requires forall i :: 0 <= i < |lines| ==> StripCr(lines[i]) == lines[i]
    ensures Lines(JoinLines(lines)) == lines
  {
    if lines != [] {
      var l := lines[0];
      var rest := JoinLines(lines[1..]);
      assert JoinLines(lines) == l + ['\n'] + rest;
      LinesCons(l, rest);
      LinesOfJoinLines(lines[1..]);
      assert lines == [l] + lines[1..];
    }
  }

  /** A line ended by '\n' is split off the front. */
  lemma LinesCons(l: string, rest: string)
    requires '\n' !in l
    ensures Lines(l + ['\n'] + rest) == [StripCr(l)] + Lines(rest)
  {
    IndexOfJoin(l, '\n', rest);
    assert (l + ['\n'] + rest)[..|l|] == l;
    assert (l + ['\n'] + rest)[|l| + 1..] == rest;
  }

  /** `s` without its leading whitespace. */
  function DropWhitespace(s: string): (r: string)
    ensures |r| <= |s| && r == s[|s| - |r|..]
    ensures AllWhitespace(s[..|s| - |r|])
    ensures r == [] || !IsWhitespace(r[0])
  {
    if s == [] || !IsWhitespace(s[0]) then s else DropWhitespace(s[1..])
  }

  /** The longest prefix of `s` without whitespace. */
  function TakeToken(s: string): (r: string)
    ensures |r| <= |s| && r == s[..|r|]
    ensures forall i :: 0 <= i < |r| ==> !IsWhitespace(r[i])
    ensures |r| == |s| || IsWhitespace(s[|r|])
  {
    if s == [] || IsWhitespace(s[0]) then [] else [s[0]] + TakeToken(s[1..])
  }

  /** `str::split_whitespace`: the maximal whitespace-free runs, in order. */
  function SplitWhitespace(s: string): (r: seq<string>)
    ensures AllTokens(r)
    decreases |s|
  {
    var t := DropWhitespace(s);
    if t == [] then []
    else
      var tok := TakeToken(t);
      TokenAtFront(t);
      var rest := SplitWhitespace(t[|tok|..]);
      TokensCons(tok, rest);
      [tok] + rest
  }

  /** Every word is a token. */
  predicate AllTokens(ts: seq<string>) {
    ts == [] || (IsToken(ts[0]) && AllTokens(ts[1..]))
  }

  lemma TokensCons(tok: string, rest: seq<string>)
    requires IsToken(tok) && AllTokens(rest)
    ensures AllTokens([tok] + rest)
  {
    assert ([tok] + rest)[1..] == rest;
  }

  /** Text that starts with a non-whitespace character starts with a token. */
  lemma TokenAtFront(t: string)
    requires t != [] && !IsWhitespace(t[0])
    ensures IsToken(TakeToken(t)) && 0 < |TakeToken(t)| <= |t|
  {
  }

  lemma {:induction false} SplitAllWhitespace(w: string)
    requires AllWhitespace(w)
    ensures SplitWhitespace(w) == []
    decreases |w|
  {
    if w != [] {
      assert IsWhitespace(w[0]);
      assert DropWhitespace(w) == DropWhitespace(w[1..]);
      SplitAllWhitespace(w[1..]);
    }
  }

  lemma {:induction false} DropWhitespaceJoin(w: string, rest: string)
    requires AllWhitespace(w)
    requires rest == [] || !IsWhitespace(rest[0])
    ensures DropWhitespace(w + rest) == rest
    decreases |w|
  {
    if w != [] {
      assert (w + rest)[1..] == w[1..] + rest;
      DropWhitespaceJoin(w[1..], rest);
    } else {
      assert w + rest == rest;
    }
  }

  lemma {:induction false} TakeTokenJoin(tok: string, rest: string)
    requires forall i :: 0 <= i < |tok| ==> !IsWhitespace(tok[i])
    requires rest == [] || IsWhitespace(rest[0])
    ensures TakeToken(tok + rest) == tok
    decreases |tok|
  {
    if tok == [] {
      assert tok + rest == rest;
    } else {
      assert (tok + rest)[0] == tok[0];
      assert (tok + rest)[1..] == tok[1..] + rest;
      TakeTokenJoin(tok[1..], rest);
    }
  }

  /** Splitting a line that starts with optional whitespace and a token. */
  lemma SplitLeadingToken(w: string, tok: string, rest: string)
    requires AllWhitespace(w) && IsToken(tok)
    requires rest == [] || IsWhitespace(rest[0])
    ensures SplitWhitespace(w + (tok + rest)) == [tok] + SplitWhitespace(rest)
  {
    DropWhitespaceJoin(w, tok + rest);
    TakeTokenJoin(tok, rest);
    assert (tok + rest)[|tok|..] == rest;
  }

  /** The same, for a single blank before the token. */
  lemma SplitAfterBlank(b: char, tok: string, rest: string)
    requires IsWhitespace(b) && IsToken(tok)
    requires rest == [] || IsWhitespace(rest[0])
    ensures SplitWhitespace([b] + (tok + rest)) == [tok] + SplitWhitespace(rest)
  {
    SplitLeadingToken([b], tok, rest);
  }

  /** A tab and three tokens separated by single spaces, then a tail that
      starts with whitespace or is empty: the first three words are the
      three tokens. */
  lemma ThreeTokens(t0: string, t1: string, t2: string, tail: string)
    requires IsToken(t0) && IsToken(t1) && IsToken(t2)
    requires tail == [] || IsWhitespace(tail[0])
    ensures SplitWhitespace(['\t'] + (t0 + ([' '] + (t1 + ([' '] + (t2 + tail))))))
      == [t0] + ([t1] + ([t2] + SplitWhitespace(tail)))
  {
    BlankSeparated('\t', ' ', ' ', t0, t1, t2, tail);
  }

  /** Three tokens, each after one blank, then a tail. */
  lemma BlankSeparated(b0: char, b1: char, b2: char, t0: string, t1: string, t2: string, tail: string)
    requires IsWhitespace(b0) && IsWhitespace(b1) && IsWhitespace(b2)
    requires IsToken(t0) && IsToken(t1) && IsToken(t2)
    requires tail == [] || IsWhitespace(tail[0])
    ensures SplitWhitespace([b0] + (t0 + ([b1] + (t1 + ([b2] + (t2 + tail))))))
      == [t0] + ([t1] + ([t2] + SplitWhitespace(tail)))
  {
    var s2 := [b2] + (t2 + tail);
    var s1 := [b1] + (t1 + s2);
    var w2 := [t2] + SplitWhitespace(tail);
    SplitBefore(b2, t2, tail, SplitWhitespace(tail));
    SplitBefore(b1, t1, s2, w2);
    SplitBefore(b0, t0, s1, [t1] + w2);
  }

  /** A blank and a token in front of text whose words are known. */
  lemma SplitBefore(b: char, tok: string, rest: string, words: seq<string>)
    requires IsWhitespace(b) && IsToken(tok)
    requires rest == [] || IsWhitespace(rest[0])
    requires SplitWhitespace(rest) == words
    ensures SplitWhitespace([b] + (tok + rest)) == [tok] + words
  {
    SplitAfterBlank(b, tok, rest);
  }

  /** `s` with every leading character satisfying `p` removed. */
  function TrimStartBy(s: string, p: char -> bool): (r: string)
    ensures |r| <= |s| && r == s[|s| - |r|..]
    ensures forall i :: 0 <= i < |s| - |r| ==> p(s[i])
    ensures r == [] || !p(r[0])
  {
    if s == [] || !p(s[0]) then s else TrimStartBy(s[1..], p)
  }

  /** `s` with every trailing character satisfying `p` removed. */
  function TrimEndBy(s: string, p: char -> bool): (r: string)
    ensures |r| <= |s| && r == s[..|r|]
    ensures forall i :: |r| <= i < |s| ==> p(s[i])
    ensures r == [] || !p(r[|r| - 1])
  {
    if s == [] || !p(s[|s| - 1]) then s else TrimEndBy(s[..|s| - 1], p)
  }

  /** `str::trim_matches` with a character predicate: strip matching
      characters from both ends. The result is a slice of `s` whose ends do
      not match; a string whose ends do not match is returned unchanged. */
  function TrimMatches(s: string, p: char -> bool): (r: string)
    ensures |r| <= |s|
    ensures r == [] || (!p(r[0]) && !p(r[|r| - 1]))
    ensures s == [] || (!p(s[0]) && !p(s[|s| - 1])) ==> r == s
    ensures TrimmedSlice(s, r, p)
  {
    var t := TrimStartBy(s, p);
    assert t != [] ==> t[0] == s[|s| - |t|];
    assert s != [] && !p(s[0]) ==> t == s;
    var r := TrimEndBy(t, p);
    assert r != [] ==> r[0] == t[0];
    TrimsAreSlices(s, p);
    r
  }

  lemma TrimsAreSlices(s: string, p: char -> bool)
    ensures TrimmedSlice(s, TrimEndBy(TrimStartBy(s, p), p), p)
  {
    var t := TrimStartBy(s, p);
    var r := TrimEndBy(t, p);
    var i := |s| - |t|;
    assert t == s[i..];
    assert r == t[..|r|];
    assert AllMatch(s[..i], p) by {
      assert forall k :: 0 <= k < i ==> s[..i][k] == s[k];
    }
    assert AllMatch(t[|r|..], p) by {
      assert forall k :: 0 <= k < |t| - |r| ==> t[|r|..][k] == t[|r| + k];
    }
    assert 0 <= i <= |s| - |r| && r == s[i..][..|r|] && AllMatch(s[..i], p) && AllMatch(s[i..][|r|..], p);
  }

  /** Every character of `s` satisfies `p`. */
  predicate AllMatch(s: string, p: char -> bool) {
    forall k :: 0 <= k < |s| ==> p(s[k])
  }

  /** `r` is a slice of `s`, and everything of `s` before and after it
      satisfies `p`. */
  predicate TrimmedSlice(s: string, r: string, p: char -> bool) {
    exists i :: 0 <= i <= |s| - |r| && r == s[i..][..|r|]
      && AllMatch(s[..i], p) && AllMatch(s[i..][|r|..], p)
  }

  /** Trimming a string that is `t` wrapped in matching characters gives `t`
      back, provided neither end of `t` matches. */
  lemma TrimMatchesWrapped(a: string, t: string, b: string, p: char -> bool)
    requires forall k :: 0 <= k < |a| ==> p(a[k])
    requires forall k :: 0 <= k < |b| ==> p(b[k])
    requires t != [] && !p(t[0]) && !p(t[|t| - 1])
    ensures TrimMatches(a + (t + b), p) == t
  {
    TrimStartJoin(a, t + b, p);
    TrimEndJoin(t, b, p);
  }

  lemma {:induction false} TrimStartJoin(a: string, u: string, p: char -> bool)
    requires forall k :: 0 <= k < |a| ==> p(a[k])
    requires u != [] && !p(u[0])
    ensures TrimStartBy(a + u, p) == u
  {
    if a == [] {
      assert a + u == u;
    } else {
      assert (a + u)[0] == a[0];
      assert (a + u)[1..] == a[1..] + u;
      assert forall k :: 0 <= k < |a| - 1 ==> a[1..][k] == a[k + 1];
      TrimStartJoin(a[1..], u, p);
    }
  }

  lemma {:induction false} TrimEndJoin(u: string, b: string, p: char -> bool)
    requires forall k :: 0 <= k < |b| ==> p(b[k])
    requires u != [] && !p(u[|u| - 1])
    ensures TrimEndBy(u + b, p) == u
    decreases |b|
  {
    if b == [] {
      assert u + b == u;
    } else {
      var s := u + b;
      var b' := b[..|b| - 1];
      assert s[|s| - 1] == b[|b| - 1];
      assert s[..|s| - 1] == u + b';
      assert forall k :: 0 <= k < |b'| ==> b'[k] == b[k];
      TrimEndJoin(u, b', p);
    }
  }

  /** A string that matches throughout is trimmed to nothing. */
  lemma TrimMatchesAll(s: string, p: char -> bool)
    requires forall i :: 0 <= i < |s| ==> p(s[i])
    ensures TrimMatches(s, p) == []
  {
    TrimStartAll(s, p);
  }

  lemma {:induction false} TrimStartAll(s: string, p: char -> bool)
    requires forall i :: 0 <= i < |s| ==> p(s[i])
    ensures TrimStartBy(s, p) == []
  {
    if s != [] {
      assert p(s[0]);
      assert forall i :: 0 <= i < |s| - 1 ==> s[1..][i] == s[i + 1];
      TrimStartAll(s[1..], p);
    }
  }

  /** `str::trim`. */
  function Trim(s: string): string {
    TrimMatches(s, IsWhitespace)
  }
}
