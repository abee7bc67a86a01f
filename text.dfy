/** The few pieces of Python's string library the core relies on, over
    `seq<char>`: `str.isspace`, `int()` of a digit string, `str.split()`,
    `str.split(sep)`, `str.strip()` and the joins that invert the splits. */
module Text {

  /** Python's `str.isspace()`: the characters that `str.split()`,
      `str.strip()` and the regular expression class `\s` treat as white space. */
  predicate IsSpace(c: char) {
    c == ' ' || ('\t' <= c <= '\r') || ('\U{1c}' <= c <= '\U{1f}')
    || c == '\U{85}' || c == '\U{a0}' || c == '\U{1680}'
    || ('\U{2000}' <= c <= '\U{200a}') || c == '\U{2028}' || c == '\U{2029}'
    || c == '\U{202f}' || c == '\U{205f}' || c == '\U{3000}'
  }

  /** The regular expression class `\d`, restricted to ASCII digits. */
  predicate IsDigit(c: char) {
    '0' <= c <= '9'
  }

  predicate AllDigits(s: string) {
    forall k | 0 <= k < |s| :: IsDigit(s[k])
  }

  /** A string `int()` accepts without a sign: one or more digits. */
  predicate IsDigits(s: string) {
    |s| > 0 && AllDigits(s)
  }

  predicate NoSpace(s: string) {
    forall k | 0 <= k < |s| :: !IsSpace(s[k])
  }

  predicate AllSpace(s: string) {
    forall k | 0 <= k < |s| :: IsSpace(s[k])
  }

  type DigitString = s: string | IsDigits(s) witness "0"

  /** `int(s)` for a string of decimal digits. */
  function IntOf(s: string): nat
    requires AllDigits(s)
    decreases |s|
  {
    if s == [] then 0 else IntOf(s[..|s| - 1]) * 10 + (s[|s| - 1] as int - '0' as int)
  }

  function Pow10(w: nat): (p: nat)
    ensures p >= 1
  {
    if w == 0 then 1 else 10 * Pow10(w - 1)
  }

  /** `n` written with exactly `w` decimal digits, zero-padded on the left
      (the `%02d`-style formatting of the timestamp fields). */
  function Digits(n: nat, w: nat): (s: string)
    ensures |s| == w && AllDigits(s)
  {
    if w == 0 then "" else Digits(n / 10, w - 1) + [(n % 10 + '0' as int) as char]
  }

  lemma {:induction false} IntOfDigits(n: nat, w: nat)
    requires n < Pow10(w)
    ensures IntOf(Digits(n, w)) == n
  {
    if w > 0 {
      var s := Digits(n, w);
      assert s[..|s| - 1] == Digits(n / 10, w - 1);
      IntOfDigits(n / 10, w - 1);
    }
  }

  lemma {:induction false} DigitsOfInt(s: string)
    requires AllDigits(s)
    ensures IntOf(s) < Pow10(|s|)
    ensures Digits(IntOf(s), |s|) == s
  {
    if s != [] {
      var init := s[..|s| - 1];
      DigitsOfInt(init);
      var d := s[|s| - 1] as int - '0' as int;
      assert 0 <= d < 10;
      assert (IntOf(init) * 10 + d) / 10 == IntOf(init);
      assert (IntOf(init) * 10 + d) % 10 == d;
      assert s == init + [s[|s| - 1]];
    }
  }

  /** Length of the run of non-space characters that starts `s`. */
  function WordLength(s: string): (n: nat)
    requires s != [] && !IsSpace(s[0])
    ensures 1 <= n <= |s| && NoSpace(s[..n]) && (n < |s| ==> IsSpace(s[n]))
  {
    if |s| == 1 || IsSpace(s[1]) then 1 else 1 + WordLength(s[1..])
  }

  /** Python's `str.split()` with no argument: the maximal runs of non-space
      characters, in order. */
  function Words(s: string): (r: seq<string>)
    ensures forall k | 0 <= k < |r| :: r[k] != [] && NoSpace(r[k])
    decreases |s|
  {
    if s == [] then []
    else if IsSpace(s[0]) then Words(s[1..])
    else
      var n := WordLength(s);
      [s[..n]] + Words(s[n..])
  }

  /** `sep.join(ps)` for a one-character separator. */
  function JoinWith(ps: seq<string>, sep: char): string {
    if |ps| == 0 then ""
    else if |ps| == 1 then ps[0]
    else ps[0] + [sep] + JoinWith(ps[1..], sep)
  }

  function CountChar(s: string, c: char): nat {
    if s == [] then 0 else (if s[0] == c then 1 else 0) + CountChar(s[1..], c)
  }

  /** Python's `s.split(sep)` for a one-character separator: every piece
      between separators, empty pieces included. */
  function SplitOn(s: string, sep: char): (r: seq<string>)
    ensures |r| == CountChar(s, sep) + 1
    ensures forall k | 0 <= k < |r| :: sep !in r[k]
  {
    if s == [] then [""]
    else
      var rest := SplitOn(s[1..], sep);
      if s[0] == sep then [""] + rest else [[s[0]] + rest[0]] + rest[1..]
  }

  /** Python's `str.lstrip()`. */
  function TrimStart(s: string): (r: string)
    ensures |r| <= |s| && r == s[|s| - |r|..] && AllSpace(s[..|s| - |r|])
    ensures r == [] || !IsSpace(r[0])
  {
    if s != [] && IsSpace(s[0]) then TrimStart(s[1..]) else s
  }

  lemma AllSpaceAppend(a: string, c: char)
    requires AllSpace(a) && IsSpace(c)
    ensures AllSpace(a + [c])
  {
    forall k | 0 <= k < |a| + 1 ensures IsSpace((a + [c])[k]) {
      if k < |a| {
        assert (a + [c])[k] == a[k];
      }
    }
  }

  /** Python's `str.rstrip()`. */
  function TrimEnd(s: string): (r: string)
    ensures |r| <= |s| && r == s[..|r|] && AllSpace(s[|r|..])
    ensures r == [] || !IsSpace(r[|r| - 1])
  {
    if s != [] && IsSpace(s[|s| - 1]) then
      var r := TrimEnd(s[..|s| - 1]);
      assert s[..|s| - 1][..|r|] == s[..|r|];
      assert s[|r|..] == s[..|s| - 1][|r|..] + [s[|s| - 1]];
      AllSpaceAppend(s[..|s| - 1][|r|..], s[|s| - 1]);
      r
    else s
  }

  /** Python's `str.strip()`. */
  function Strip(s: string): string {
    TrimEnd(TrimStart(s))
  }

  /** `str.strip()` removes white space at both ends and nothing else. */
  lemma StripRemovesOnlyOuterSpace(s: string)
    ensures var r := Strip(s);
      exists i | 0 <= i <= |s| - |r| :: s[i..i + |r|] == r && AllSpace(s[..i]) && AllSpace(s[i + |r|..])
  {
    StripInfix(s, TrimStart(s), Strip(s));
  }

  /** The result of `str.strip()` neither starts nor ends with white space. */
  lemma StripEndsNotSpace(s: string)
    ensures var r := Strip(s); r == [] || (!IsSpace(r[0]) && !IsSpace(r[|r| - 1]))
  {
    var t := TrimStart(s);
    var r := TrimEnd(t);
    if r != [] {
      assert r[0] == t[0];
    }
  }

  lemma StripInfix(s: string, t: string, r: string)
    requires t == TrimStart(s) && r == TrimEnd(t)
    ensures exists j | 0 <= j <= |s| - |r| :: s[j..j + |r|] == r && AllSpace(s[..j]) && AllSpace(s[j + |r|..])
  {
    InfixBetweenSpace(s, t, r, |s| - |t|);
  }

  /** A prefix `r` of a suffix `t = s[i..]` of `s`, with only white space cut
      away on either side, sits in `s` between white space. */
  lemma InfixBetweenSpace(s: string, t: string, r: string, i: nat)
    requires i <= |s| && t == s[i..] && AllSpace(s[..i])
    requires |r| <= |t| && r == t[..|r|] && AllSpace(t[|r|..])
    ensures exists j | 0 <= j <= |s| - |r| :: s[j..j + |r|] == r && AllSpace(s[..j]) && AllSpace(s[j + |r|..])
  {
    assert s[i + |r|..] == t[|r|..];
    assert s[i..i + |r|] == r;
  }

  lemma {:induction false} WordsAfterWord(w: string, t: string)
    requires w != [] && NoSpace(w) && (t == [] || IsSpace(t[0]))
    ensures Words(w + t) == [w] + Words(t)
  {
    var s := w + t;
    WordLengthOf(w, t);
    assert s[..|w|] == w && s[|w|..] == t;
  }

  lemma {:induction false} WordLengthOf(w: string, t: string)
    requires w != [] && NoSpace(w) && (t == [] || IsSpace(t[0]))
    ensures WordLength(w + t) == |w|
    decreases |w|
  {
    var s := w + t;
    if |w| > 1 {
      assert s[1..] == w[1..] + t;
      WordLengthOf(w[1..], t);
    }
  }

  /** `" ".join(ws).split() == ws` when every word is non-empty and has no space. */
  lemma {:induction false} WordsOfJoin(ws: seq<string>)
    requires forall k | 0 <= k < |ws| :: ws[k] != [] && NoSpace(ws[k])
    ensures Words(JoinWith(ws, ' ')) == ws
  {
    if |ws| == 1 {
      WordsAfterWord(ws[0], "");
      assert ws[0] + "" == ws[0];
    } else if |ws| > 1 {
      var rest := JoinWith(ws[1..], ' ');
      WordsOfJoin(ws[1..]);
      WordsAfterWord(ws[0], [' '] + rest);
      assert ws[0] + [' '] + rest == ws[0] + ([' '] + rest);
      assert ([' '] + rest)[1..] == rest;
    }
  }

  /** Words `ws[0]`, `ws[1]`, ... with `gaps[k]` written between `ws[k]` and `ws[k + 1]`. */
  function Interleave(ws: seq<string>, gaps: seq<string>): string
    requires |ws| == |gaps| + 1
    decreases |gaps|
  {
    if |gaps| == 0 then ws[0] else ws[0] + gaps[0] + Interleave(ws[1..], gaps[1..])
  }

  /** `ws` laid out between white space: non-empty words free of white
      space, separated by non-empty runs of white space. */
  predicate SpacedWords(ws: seq<string>, gaps: seq<string>) {
    && |ws| == |gaps| + 1
    && (forall k | 0 <= k < |ws| :: ws[k] != [] && NoSpace(ws[k]))
    && (forall k | 0 <= k < |gaps| :: gaps[k] != [] && AllSpace(gaps[k]))
  }

  /** Leading white space does not change `str.split()`. */
  lemma {:induction false} WordsAfterSpace(lead: string, t: string)
    requires AllSpace(lead)
    ensures Words(lead + t) == Words(t)
    decreases |lead|
  {
    if lead != [] {
      var s := lead + t;
      assert s[0] == lead[0] && IsSpace(s[0]);
      assert s[1..] == lead[1..] + t;
      assert AllSpace(lead[1..]) by {
        forall k | 0 <= k < |lead| - 1 ensures IsSpace(lead[1..][k]) {
          assert lead[1..][k] == lead[k + 1];
        }
      }
      WordsAfterSpace(lead[1..], t);
      assert Words(s) == Words(s[1..]);
    } else {
      assert lead + t == t;
    }
  }

  /** `str.split()` gives no word exactly when the text is all white space. */
  lemma {:induction false} NoWordsIffSpace(s: string)
    ensures Words(s) == [] <==> AllSpace(s)
    decreases |s|
  {
    if s != [] && IsSpace(s[0]) {
      NoWordsIffSpace(s[1..]);
      assert AllSpace(s[1..]) ==> AllSpace(s) by {
        if AllSpace(s[1..]) {
          forall k | 1 <= k < |s| ensures IsSpace(s[k]) {
            assert s[k] == s[1..][k - 1];
          }
        }
      }
    }
  }

  /** A word, then a run of white space: the word comes first. */
  lemma WordThenGap(w: string, gap: string, rest: string)
    requires w != [] && NoSpace(w) && gap != [] && AllSpace(gap)
    ensures Words(w + (gap + rest)) == [w] + Words(rest)
  {
    assert (gap + rest)[0] == gap[0];
    WordsAfterWord(w, gap + rest);
    WordsAfterSpace(gap, rest);
  }

  lemma InterleaveCons(ws: seq<string>, gaps: seq<string>, trail: string)
    requires |ws| == |gaps| + 1 && |gaps| > 0
    ensures Interleave(ws, gaps) + trail == ws[0] + (gaps[0] + (Interleave(ws[1..], gaps[1..]) + trail))
  {
  }

  lemma SpacedWordsTail(ws: seq<string>, gaps: seq<string>)
    requires SpacedWords(ws, gaps) && |gaps| > 0
    ensures SpacedWords(ws[1..], gaps[1..])
  {
    forall k | 0 <= k < |ws| - 1 ensures ws[1..][k] != [] && NoSpace(ws[1..][k]) {
      assert ws[1..][k] == ws[k + 1];
    }
    forall k | 0 <= k < |gaps| - 1 ensures gaps[1..][k] != [] && AllSpace(gaps[1..][k]) {
      assert gaps[1..][k] == gaps[k + 1];
    }
  }

  /** `str.split()` of words separated by runs of white space, with white
      space before the first and after the last, gives back exactly the words. */
  lemma WordsOfSpaced(lead: string, ws: seq<string>, gaps: seq<string>, trail: string)
    requires AllSpace(lead) && AllSpace(trail) && SpacedWords(ws, gaps)
    ensures Words(lead + Interleave(ws, gaps) + trail) == ws
  {
    assert lead + Interleave(ws, gaps) + trail == lead + (Interleave(ws, gaps) + trail);
    WordsAfterSpace(lead, Interleave(ws, gaps) + trail);
    WordsOfBody(ws, gaps, trail);
  }

  lemma {:induction false} WordsOfBody(ws: seq<string>, gaps: seq<string>, trail: string)
    requires AllSpace(trail) && SpacedWords(ws, gaps)
    ensures Words(Interleave(ws, gaps) + trail) == ws
    decreases |gaps|
  {
    if |gaps| == 0 {
      WordsAfterWord(ws[0], trail);
      NoWordsIffSpace(trail);
    } else {
      InterleaveCons(ws, gaps, trail);
      WordThenGap(ws[0], gaps[0], Interleave(ws[1..], gaps[1..]) + trail);
      SpacedWordsTail(ws, gaps);
      WordsOfBody(ws[1..], gaps[1..], trail);
      assert ws == [ws[0]] + ws[1..];
    }
  }

  lemma InterleaveStart(ws: seq<string>, gaps: seq<string>, trail: string)
    requires SpacedWords(ws, gaps)
    ensures Interleave(ws, gaps) + trail != [] && (Interleave(ws, gaps) + trail)[0] == ws[0][0]
  {
    if |gaps| > 0 {
      InterleaveCons(ws, gaps, trail);
    }
  }

  /** Every text with a word is its words laid out between white space, so
      with `WordsOfSpaced` this determines `str.split()` completely. */
  lemma {:induction false} SpacedForm(s: string) returns (lead: string, gaps: seq<string>, trail: string)
    requires Words(s) != []
    ensures AllSpace(lead) && AllSpace(trail) && SpacedWords(Words(s), gaps)
    ensures s == lead + Interleave(Words(s), gaps) + trail
    decreases |s|, 1
  {
    if IsSpace(s[0]) {
      assert Words(s) == Words(s[1..]);
      var l;
      l, gaps, trail := SpacedForm(s[1..]);
      lead := SpaceCons(s, l, Interleave(Words(s[1..]), gaps) + trail);
    } else {
      lead := "";
      gaps, trail := SpacedFormWord(s);
      assert s == lead + Interleave(Words(s), gaps) + trail;
    }
  }

  /** `SpacedForm` for a text that starts with a word. */
  lemma {:induction false} SpacedFormWord(s: string) returns (gaps: seq<string>, trail: string)
    requires s != [] && !IsSpace(s[0])
    ensures AllSpace(trail) && SpacedWords(Words(s), gaps)
    ensures s == Interleave(Words(s), gaps) + trail
    decreases |s|, 0
  {
    var n := WordLength(s);
    var w, t := s[..n], s[n..];
    assert s == w + t;
    WordsAfterWord(w, t);
    if Words(t) == [] {
      NoWordsIffSpace(t);
      gaps, trail := [], t;
    } else {
      var l2, g2, tr2 := SpacedForm(t);
      gaps, trail := WordCons(w, t, Words(t), l2, g2, tr2);
    }
  }

  /** The leading-space step of `SpacedForm`. */
  lemma SpaceCons(s: string, l: string, body: string) returns (lead: string)
    requires s != [] && IsSpace(s[0]) && AllSpace(l) && s[1..] == l + body
    requires Words(s) == Words(s[1..])
    ensures AllSpace(lead) && s == lead + body
  {
    lead := [s[0]] + l;
    forall k | 1 <= k < |lead| ensures IsSpace(lead[k]) {
      assert lead[k] == l[k - 1];
    }
    assert s == [s[0]] + s[1..];
  }

  /** The word step of `SpacedForm`: the layout of `t` after the word `w`
      must start with white space, which becomes the first gap. */
  lemma WordCons(w: string, t: string, wt: seq<string>, l2: string, g2: seq<string>, tr2: string)
      returns (gaps: seq<string>, trail: string)
    requires w != [] && NoSpace(w) && t != [] && IsSpace(t[0])
    requires AllSpace(l2) && AllSpace(tr2) && SpacedWords(wt, g2)
    requires t == l2 + Interleave(wt, g2) + tr2
    ensures AllSpace(trail) && SpacedWords([w] + wt, gaps)
    ensures w + t == Interleave([w] + wt, gaps) + trail
  {
    InterleaveStart(wt, g2, tr2);
    if l2 == [] {
      assert false;
    }
    gaps, trail := [l2] + g2, tr2;
    var ws := [w] + wt;
    assert ws[1..] == wt && gaps[1..] == g2;
    InterleaveCons(ws, gaps, trail);
    forall k | 1 <= k < |ws| ensures ws[k] != [] && NoSpace(ws[k]) {
      assert ws[k] == wt[k - 1];
    }
    forall k | 1 <= k < |gaps| ensures gaps[k] != [] && AllSpace(gaps[k]) {
      assert gaps[k] == g2[k - 1];
    }
  }

  /** The first whitespace-separated word of `w + t`, when `t` starts with white space. */
  lemma FirstWord(w: string, t: string)
    requires w != [] && NoSpace(w) && (t == [] || IsSpace(t[0]))
    ensures |Words(w + t)| >= 1 && Words(w + t)[0] == w
  {
    WordsAfterWord(w, t);
  }

  lemma {:induction false} SplitAfterPiece(p: string, sep: char, t: string)
    requires sep !in p
    ensures SplitOn(p + [sep] + t, sep) == [p] + SplitOn(t, sep)
    decreases |p|
  {
    var s := p + [sep] + t;
    if p == [] {
      assert s[1..] == t;
    } else {
      assert s[1..] == p[1..] + [sep] + t;
      SplitAfterPiece(p[1..], sep, t);
      assert s[0] == p[0] && p[0] in p;
      assert [p[0]] + p[1..] == p;
    }
  }

  lemma {:induction false} SplitOfPiece(p: string, sep: char)
    requires sep !in p
    ensures SplitOn(p, sep) == [p]
    decreases |p|
  {
    if p != [] {
      SplitOfPiece(p[1..], sep);
      assert [p[0]] + p[1..] == p;
    }
  }

  /** `sep.join(ps).split(sep) == ps` when no piece holds the separator. */
  lemma {:induction false} SplitOfJoin(ps: seq<string>, sep: char)
    requires |ps| >= 1
    requires forall k | 0 <= k < |ps| :: sep !in ps[k]
    ensures SplitOn(JoinWith(ps, sep), sep) == ps
  {
    if |ps| == 1 {
      SplitOfPiece(ps[0], sep);
    } else {
      SplitOfJoin(ps[1..], sep);
      SplitAfterPiece(ps[0], sep, JoinWith(ps[1..], sep));
      assert [ps[0]] + ps[1..] == ps;
    }
  }

  /** `sep.join(s.split(sep)) == s`. */
  lemma {:induction false} JoinOfSplit(s: string, sep: char)
    ensures JoinWith(SplitOn(s, sep), sep) == s
  {
    if s != [] {
      var rest := SplitOn(s[1..], sep);
      JoinOfSplit(s[1..], sep);
      if s[0] == sep {
        JoinCons("", rest, sep);
      } else {
        JoinPrepend(s[0], rest, sep);
      }
      assert [s[0]] + s[1..] == s;
    }
  }

  lemma JoinCons(p: string, ps: seq<string>, sep: char)
    requires ps != []
    ensures JoinWith([p] + ps, sep) == p + [sep] + JoinWith(ps, sep)
  {
    assert ([p] + ps)[1..] == ps;
  }

  /** Putting a character in front of the first piece puts it in front of the join. */
  lemma JoinPrepend(c: char, ps: seq<string>, sep: char)
    requires ps != []
    ensures JoinWith([[c] + ps[0]] + ps[1..], sep) == [c] + JoinWith(ps, sep)
  {
    var r := [[c] + ps[0]] + ps[1..];
    if |ps| > 1 {
      assert r[1..] == ps[1..];
      assert JoinWith(r, sep) == [c] + ps[0] + [sep] + JoinWith(ps[1..], sep);
    }
  }
}
