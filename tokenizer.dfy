/** The tokenizer of the similarity engine: `text.toLowerCase().match(/\b\w+\b/g) || []`.

    The text is lower-cased and then cut into its maximal runs of word
    characters (the class `\w`: ASCII letters, digits and `_`), in order of
    appearance; a text with no word character gives no token. */
module Tokenizer {

  /** The characters of the regular-expression class `\w`. */
  predicate IsWordChar(c: char) {
    ('a' <= c <= 'z') || ('A' <= c <= 'Z') || ('0' <= c <= '9') || c == '_'
  }

  /** A word character as it can appear after lower-casing: `[a-z0-9_]`. */
  predicate IsLowerWordChar(c: char) {
    ('a' <= c <= 'z') || ('0' <= c <= '9') || c == '_'
  }

  /** `toLowerCase` on one character (ASCII letters only). */
  function LowerChar(c: char): (r: char)
    ensures IsWordChar(r) <==> IsWordChar(c)
    ensures IsWordChar(r) ==> IsLowerWordChar(r)
  {
    if 'A' <= c <= 'Z' then (c as int + 32) as char else c
  }

  /** `toLowerCase`: character by character; word characters stay word characters and
      come out as `[a-z0-9_]`, other characters stay other characters. */
  function LowerCase(s: string): (r: string)
    ensures |r| == |s|
    ensures forall i :: 0 <= i < |s| ==> (IsWordChar(r[i]) <==> IsWordChar(s[i]))
    ensures forall i :: 0 <= i < |s| && IsWordChar(r[i]) ==> IsLowerWordChar(r[i])
  {
    seq(|s|, i requires 0 <= i < |s| => LowerChar(s[i]))
  }

  /** A token: a non-empty run of lower-case word characters. */
  predicate IsToken(w: string) {
    w != [] && forall i :: 0 <= i < |w| ==> IsLowerWordChar(w[i])
  }

  predicate AllWordChars(w: string) {
    forall i :: 0 <= i < |w| ==> IsWordChar(w[i])
  }

  predicate NoWordChars(w: string) {
    forall i :: 0 <= i < |w| ==> !IsWordChar(w[i])
  }

  /** The length of the longest prefix of s made of word characters: how far `\w+` reaches. */
  function RunLength(s: string): (n: nat)
    ensures n <= |s|
    ensures AllWordChars(s[..n])
    ensures n < |s| ==> !IsWordChar(s[n])
  {
    if s == [] || !IsWordChar(s[0]) then 0
    else
      var n := 1 + RunLength(s[1..]);
      assert s[..n] == [s[0]] + s[1..][..n - 1];
      n
  }

  /** The successive matches of `/\b\w+\b/g` in s: its maximal runs of word characters. */
  function Runs(s: string): (tokens: seq<string>)
    ensures forall k :: 0 <= k < |tokens| ==> tokens[k] != [] && AllWordChars(tokens[k])
    decreases |s|
  {
    if s == [] then []
    else if !IsWordChar(s[0]) then Runs(s[1..])
    else
      var n := RunLength(s);
      [s[..n]] + Runs(s[n..])
  }

  /** The separators around the runs: Gaps(s)[k] is the text between run k-1 and run k. */
  function Gaps(s: string): (gaps: seq<string>)
    ensures |gaps| == |Runs(s)| + 1
    decreases |s|
  {
    if s == [] then [[]]
    else if !IsWordChar(s[0]) then
      var g := Gaps(s[1..]);
      [[s[0]] + g[0]] + g[1..]
    else
      [[]] + Gaps(s[RunLength(s)..])
  }

  /** `tokenize`: every token is a non-empty word over `[a-z0-9_]`. */
  function Tokenize(text: string): (tokens: seq<string>)
    ensures forall k :: 0 <= k < |tokens| ==> IsToken(tokens[k])
  {
    RunsOfLower(LowerCase(text));
    Runs(LowerCase(text))
  }

  /** gaps[0] + tokens[0] + gaps[1] + ... + tokens[k-1] + gaps[k]. */
  function Join(gaps: seq<string>, tokens: seq<string>): string
    requires |gaps| == |tokens| + 1
    decreases |tokens|
  {
    if tokens == [] then gaps[0] else gaps[0] + tokens[0] + Join(gaps[1..], tokens[1..])
  }

  /** tokens and gaps cut a text into maximal word runs: the tokens are non-empty runs of
      word characters, the gaps hold none, and consecutive tokens are separated by a non-empty gap. */
  ghost predicate MaximalRuns(gaps: seq<string>, tokens: seq<string>) {
    && |gaps| == |tokens| + 1
    && (forall k :: 0 <= k < |tokens| ==> tokens[k] != [] && AllWordChars(tokens[k]))
    && (forall k :: 0 <= k < |gaps| ==> NoWordChars(gaps[k]))
    && (forall k :: 0 < k < |tokens| ==> gaps[k] != [])
  }

  lemma {:induction false} RunLengthOfRun(w: string, rest: string)
    requires AllWordChars(w)
    requires rest == [] || !IsWordChar(rest[0])
    ensures RunLength(w + rest) == |w|
    decreases |w|
  {
    if w != [] {
      assert (w + rest)[1..] == w[1..] + rest;
      RunLengthOfRun(w[1..], rest);
    } else {
      assert w + rest == rest;
    }
  }

  lemma {:induction false} JoinStart(gaps: seq<string>, tokens: seq<string>)
    requires MaximalRuns(gaps, tokens)
    ensures var s := Join(gaps, tokens); s == [] || (gaps[0] != [] && s[0] == gaps[0][0]) || (gaps[0] == [] && tokens != [] && s[0] == tokens[0][0])
  {
  }

  /** Runs(s) and Gaps(s) are a cut of s into maximal runs. */
  lemma {:induction false} RunsCutText(s: string)
    ensures MaximalRuns(Gaps(s), Runs(s))
    ensures Join(Gaps(s), Runs(s)) == s
    decreases |s|
  {
    if s == [] {
    } else if !IsWordChar(s[0]) {
      RunsCutText(s[1..]);
      UnfoldAtSeparator(s);
      CutAfterSeparator(s, Gaps(s[1..]), Runs(s[1..]));
    } else {
      var n := RunLength(s);
      RunsCutText(s[n..]);
      UnfoldAtRun(s);
      CutAfterRun(s, Gaps(s[n..]), Runs(s[n..]));
    }
  }

  lemma UnfoldAtSeparator(s: string)
    requires s != [] && !IsWordChar(s[0])
    ensures Gaps(s) == [[s[0]] + Gaps(s[1..])[0]] + Gaps(s[1..])[1..]
    ensures Runs(s) == Runs(s[1..])
  {
  }

  lemma UnfoldAtRun(s: string)
    requires s != [] && IsWordChar(s[0])
    ensures Gaps(s) == [[]] + Gaps(s[RunLength(s)..])
    ensures Runs(s) == [s[..RunLength(s)]] + Runs(s[RunLength(s)..])
  {
  }

  /** A separator in front of a cut joins the first gap. */
  lemma CutAfterSeparator(s: string, g: seq<string>, t: seq<string>)
    requires s != [] && !IsWordChar(s[0])
    requires MaximalRuns(g, t) && Join(g, t) == s[1..]
    ensures MaximalRuns([[s[0]] + g[0]] + g[1..], t)
    ensures Join([[s[0]] + g[0]] + g[1..], t) == s
  {
    var g0 := [s[0]] + g[0];
    var gs := [g0] + g[1..];
    assert NoWordChars(g0) by {
      assert NoWordChars(g[0]);
      forall i | 0 <= i < |g0| ensures !IsWordChar(g0[i]) {
        if i > 0 { assert g0[i] == g[0][i - 1]; }
      }
    }
    assert forall k :: 0 < k < |gs| ==> gs[k] == g[k];
    JoinFirstGap(g, t, [s[0]]);
    assert s == [s[0]] + s[1..];
  }

  /** Prefixing the first gap prefixes the joined text. */
  lemma JoinFirstGap(gaps: seq<string>, tokens: seq<string>, p: string)
    requires |gaps| == |tokens| + 1
    ensures Join([p + gaps[0]] + gaps[1..], tokens) == p + Join(gaps, tokens)
  {
    var gs := [p + gaps[0]] + gaps[1..];
    assert gs[1..] == gaps[1..];
  }

  /** A maximal run in front of a cut becomes its first token, after an empty gap. */
  lemma CutAfterRun(s: string, g: seq<string>, t: seq<string>)
    requires s != [] && IsWordChar(s[0])
    requires MaximalRuns(g, t) && Join(g, t) == s[RunLength(s)..]
    ensures MaximalRuns([[]] + g, [s[..RunLength(s)]] + t)
    ensures Join([[]] + g, [s[..RunLength(s)]] + t) == s
  {
    var n := RunLength(s);
    JoinAfterRun(g, t, s[..n]);
    assert s == s[..n] + s[n..];
    RunThenGap(s[n..], g, t);
    PrependRun(g, t, s[..n]);
  }

  /** After a maximal run the text goes on with a separator, so the first gap is not empty. */
  lemma RunThenGap(rest: string, g: seq<string>, t: seq<string>)
    requires rest == [] || !IsWordChar(rest[0])
    requires MaximalRuns(g, t) && Join(g, t) == rest
    ensures t != [] ==> g[0] != []
  {
    if t != [] {
      JoinStart(g, t);
      if g[0] == [] {
        assert false;
      }
    }
  }

  lemma JoinAfterRun(gaps: seq<string>, tokens: seq<string>, w: string)
    requires |gaps| == |tokens| + 1
    ensures Join([[]] + gaps, [w] + tokens) == w + Join(gaps, tokens)
  {
    var gs: seq<string> := [[]] + gaps;
    var ts: seq<string> := [w] + tokens;
    assert gs[1..] == gaps && ts[1..] == tokens;
    assert Join(gs, ts) == gs[0] + ts[0] + Join(gaps, tokens);
    assert gs[0] + ts[0] == w;
  }

  lemma PrependRun(gaps: seq<string>, tokens: seq<string>, w: string)
    requires MaximalRuns(gaps, tokens)
    requires w != [] && AllWordChars(w)
    requires tokens != [] ==> gaps[0] != []
    ensures MaximalRuns([[]] + gaps, [w] + tokens)
  {
    var gs := [[]] + gaps;
    var ts := [w] + tokens;
    assert forall k :: 0 < k < |gs| ==> gs[k] == gaps[k - 1];
    assert forall k :: 0 < k < |ts| ==> ts[k] == tokens[k - 1];
  }

  /** Conversely, a cut of s into maximal runs is unique: its tokens are Runs(s). */
  lemma {:induction false} MaximalRunsAreUnique(s: string, gaps: seq<string>, tokens: seq<string>)
    requires MaximalRuns(gaps, tokens)
    requires Join(gaps, tokens) == s
    ensures tokens == Runs(s)
    decreases |s|
  {
    if gaps[0] != [] {
      var gaps' := [gaps[0][1..]] + gaps[1..];
      assert MaximalRuns(gaps', tokens);
      if tokens == [] {
        assert Join(gaps', tokens) == s[1..];
      } else {
        assert Join(gaps', tokens) == gaps[0][1..] + tokens[0] + Join(gaps[1..], tokens[1..]);
        assert s == gaps[0] + tokens[0] + Join(gaps[1..], tokens[1..]);
        assert s[1..] == gaps[0][1..] + tokens[0] + Join(gaps[1..], tokens[1..]);
      }
      assert !IsWordChar(s[0]);
      MaximalRunsAreUnique(s[1..], gaps', tokens);
    } else if tokens != [] {
      var w := tokens[0];
      var rest := Join(gaps[1..], tokens[1..]);
      assert s == w + rest;
      assert MaximalRuns(gaps[1..], tokens[1..]);
      JoinStart(gaps[1..], tokens[1..]);
      if rest != [] {
        if gaps[1] == [] {
          assert false;
        }
        assert rest[0] == gaps[1][0];
      }
      RunLengthOfRun(w, rest);
      assert s[0] == w[0];
      assert s[..|w|] == w && s[|w|..] == rest;
      MaximalRunsAreUnique(rest, gaps[1..], tokens[1..]);
    }
  }

  lemma {:induction false} RunsEmpty(s: string)
    ensures Runs(s) == [] <==> NoWordChars(s)
    decreases |s|
  {
    if s != [] && !IsWordChar(s[0]) {
      RunsEmpty(s[1..]);
      assert NoWordChars(s) <==> NoWordChars(s[1..]) by {
        assert forall i :: 1 <= i < |s| ==> s[i] == s[1..][i - 1];
      }
    }
  }

  /** A text whose word characters are all lower-case has only lower-case tokens. */
  lemma {:induction false} RunsOfLower(s: string)
    requires forall i :: 0 <= i < |s| && IsWordChar(s[i]) ==> IsLowerWordChar(s[i])
    ensures forall k :: 0 <= k < |Runs(s)| ==> IsToken(Runs(s)[k])
    decreases |s|
  {
    if s != [] {
      if !IsWordChar(s[0]) {
        assert forall i :: 0 <= i < |s| - 1 ==> s[1..][i] == s[i + 1];
        RunsOfLower(s[1..]);
      } else {
        var n := RunLength(s);
        assert forall i :: 0 <= i < |s| - n ==> s[n..][i] == s[i + n];
        RunsOfLower(s[n..]);
        assert IsToken(s[..n]) by {
          assert forall i :: 0 <= i < n ==> s[..n][i] == s[i];
        }
        assert Runs(s) == [s[..n]] + Runs(s[n..]);
      }
    }
  }

  /** The tokens are exactly the maximal word runs of the lower-cased text, in order:
      together with Gaps they rebuild the text and, by MaximalRunsAreUnique, no other
      sequence of tokens does. */
  lemma TokensAreMaximalRuns(text: string)
    ensures MaximalRuns(Gaps(LowerCase(text)), Tokenize(text))
    ensures Join(Gaps(LowerCase(text)), Tokenize(text)) == LowerCase(text)
  {
    RunsCutText(LowerCase(text));
  }

  /** `match` returns null, replaced by `[]`, exactly when the text has no word character. */
  lemma TokenizeEmpty(text: string)
    ensures Tokenize(text) == [] <==> NoWordChars(text)
  {
    var s := LowerCase(text);
    RunsEmpty(s);
    assert NoWordChars(s) <==> NoWordChars(text) by {
      assert forall i :: 0 <= i < |s| ==> s[i] == LowerChar(text[i]);
    }
  }

  /** Lower-casing leaves a text without upper-case letters as it is. */
  lemma LowerCaseOfLower(s: string)
    requires forall i :: 0 <= i < |s| ==> !('A' <= s[i] <= 'Z')
    ensures LowerCase(s) == s
  {
  }
}
