/** The regular expressions `Metar.parse` runs over the whole raw report,
    written as scanners over `seq<char>`. Each `...At` function tries one
    pattern at one position, taking the alternatives in the order Python's
    backtracking engine tries them; `FindFirst` is `re.search` (and
    `re.findall(...)[0]`), `FindAll` is `re.findall`. */
module MetarScan {
  import opened Wrappers
  import opened Text

  /** One match: its capture groups, and the span `s[start..end]` it consumed. */
  datatype Hit<+G> = Hit(groups: G, start: nat, end: nat)

  /** A pattern tried at one position of a string. */
  type Matcher<G> = (string, nat) -> Option<Hit<G>>

  /** A match found at position `i` starts at `i` and consumes at least one
      character (none of the patterns here can match the empty string). */
  ghost predicate Anchored<G>(at: Matcher<G>) {
    forall s: string, i: nat :: at(s, i).Some? ==> at(s, i).value.start == i && i < at(s, i).value.end <= |s|
  }

  /** `lit` occurs in `s` at position `i`. */
  predicate HasAt(s: string, i: nat, lit: string) {
    i + |lit| <= |s| && s[i..i + |lit|] == lit
  }

  /** `\d{n}` matches at position `i`. */
  predicate DigitsAt(s: string, i: nat, n: nat) {
    n > 0 && i + n <= |s| && IsDigits(s[i..i + n])
  }

  /** The leftmost match at or after position `i`. */
  function FindFirst<G>(at: Matcher<G>, s: string, i: nat): (m: Option<Hit<G>>)
    requires Anchored(at)
    ensures m.Some? ==> i <= m.value.start < |s| && at(s, m.value.start) == m
    ensures m.Some? ==> forall j | i <= j < m.value.start :: at(s, j).None?
    ensures m.None? ==> forall j | i <= j < |s| :: at(s, j).None?
    decreases |s| - i
  {
    if i >= |s| then None
    else if at(s, i).Some? then at(s, i)
    else FindFirst(at, s, i + 1)
  }

  /** `ms` is the chain of leftmost matches from `i`: the first match at or
      after `i`, then the first at or after where that one ended, and so on
      until none is left. */
  ghost predicate Scanned<G>(at: Matcher<G>, s: string, i: nat, ms: seq<Hit<G>>)
    requires Anchored(at)
  {
    && (ms == [] <==> FindFirst(at, s, i).None?)
    && (ms != [] ==> FindFirst(at, s, i) == Some(ms[0]))
    && (forall k | 0 <= k < |ms| - 1 :: FindFirst(at, s, ms[k].end) == Some(ms[k + 1]))
    && (ms != [] ==> FindFirst(at, s, ms[|ms| - 1].end).None?)
  }

  /** Every non-overlapping match at or after position `i`, left to right:
      after a match the scan resumes where the match ended. `FindAllScanned`
      adds that no match is skipped. */
  function FindAll<G>(at: Matcher<G>, s: string, i: nat): (ms: seq<Hit<G>>)
    requires Anchored(at)
    ensures forall k | 0 <= k < |ms| :: i <= ms[k].start < ms[k].end <= |s| && at(s, ms[k].start) == Some(ms[k])
    ensures forall k | 0 <= k < |ms| - 1 :: ms[k].end <= ms[k + 1].start
    ensures ms == [] <==> FindFirst(at, s, i).None?
    ensures ms != [] ==> FindFirst(at, s, i) == Some(ms[0])
    decreases |s| - i
  {
    if i >= |s| then []
    else match at(s, i)
      case Some(h) => [h] + FindAll(at, s, h.end)
      case None => FindAll(at, s, i + 1)
  }

  /** `FindAll` is the chain of leftmost matches: no match is skipped. */
  lemma {:induction false} FindAllScanned<G>(at: Matcher<G>, s: string, i: nat)
    requires Anchored(at)
    ensures Scanned(at, s, i, FindAll(at, s, i))
    decreases |s| - i
  {
    if i < |s| {
      var m := at(s, i);
      if m.Some? {
        var rest := FindAll(at, s, m.value.end);
        FindAllScanned(at, s, m.value.end);
        ScannedCons(at, s, i, m.value, rest);
        assert FindAll(at, s, i) == [m.value] + rest;
      } else {
        FindAllScanned(at, s, i + 1);
        ScannedSkip(at, s, i, FindAll(at, s, i + 1));
        assert FindAll(at, s, i) == FindAll(at, s, i + 1);
      }
    }
  }

  /** The chain of leftmost matches is unique: `FindAll` is the only list
      that is `Scanned`. */
  lemma {:induction false} ScannedUnique<G>(at: Matcher<G>, s: string, i: nat, ms: seq<Hit<G>>)
    requires Anchored(at) && Scanned(at, s, i, ms)
    ensures ms == FindAll(at, s, i)
    decreases |ms|
  {
    if ms != [] {
      var rest := ms[1..];
      assert Scanned(at, s, ms[0].end, rest) by {
        assert forall k | 1 <= k < |ms| :: ms[k] == rest[k - 1];
        if rest != [] {
          assert FindFirst(at, s, ms[0].end) == Some(rest[0]);
          assert rest[|rest| - 1] == ms[|ms| - 1];
        }
      }
      ScannedUnique(at, s, ms[0].end, rest);
      FindAllFromFirst(at, s, i);
      assert ms == [ms[0]] + rest;
    }
  }

  /** With no match at `i`, the chain from `i` is the chain from `i + 1`. */
  lemma ScannedSkip<G>(at: Matcher<G>, s: string, i: nat, ms: seq<Hit<G>>)
    requires Anchored(at) && i < |s| && at(s, i).None?
    requires Scanned(at, s, i + 1, ms)
    ensures Scanned(at, s, i, ms)
  {
    assert FindFirst(at, s, i) == FindFirst(at, s, i + 1);
  }

  /** A match at `i` followed by the chain from its end is the chain from `i`. */
  lemma ScannedCons<G>(at: Matcher<G>, s: string, i: nat, h: Hit<G>, rest: seq<Hit<G>>)
    requires Anchored(at) && i < |s| && at(s, i) == Some(h)
    requires Scanned(at, s, h.end, rest)
    ensures Scanned(at, s, i, [h] + rest)
  {
    var ms := [h] + rest;
    assert FindFirst(at, s, i) == Some(h);
    assert forall k | 1 <= k < |ms| :: ms[k] == rest[k - 1];
    if rest == [] {
      assert ms[|ms| - 1] == h;
    } else {
      assert ms[|ms| - 1] == rest[|rest| - 1];
    }
  }

  /** From `i`, `FindAll` is the first match followed by `FindAll` from where it ended. */
  lemma {:induction false} FindAllFromFirst<G>(at: Matcher<G>, s: string, i: nat)
    requires Anchored(at) && FindFirst(at, s, i).Some?
    ensures FindAll(at, s, i) == [FindFirst(at, s, i).value] + FindAll(at, s, FindFirst(at, s, i).value.end)
    decreases |s| - i
  {
    if at(s, i).None? {
      FindAllFromFirst(at, s, i + 1);
    }
  }

  /** The capture groups of a list of matches, which is what `re.findall` returns. */
  function Groups<G>(ms: seq<Hit<G>>): (gs: seq<G>)
    ensures |gs| == |ms| && forall k | 0 <= k < |ms| :: gs[k] == ms[k].groups
  {
    seq(|ms|, k requires 0 <= k < |ms| => ms[k].groups)
  }

  // ---------------------------------------------------------------- wind
  // (\d{3}|VRB)(\d{2,3})G?(\d{2,3})?KT

  /** The groups of a wind match; `gust` is "" when the optional group did not take part. */
  datatype WindGroups = WindGroups(direction: string, speed: DigitString, gust: string)

  /** `t` is text the wind pattern matches with groups `g`. */
  predicate WindText(t: string, g: WindGroups) {
    && |g.direction| == 3 && (IsDigits(g.direction) || g.direction == "VRB")
    && 2 <= |g.speed| <= 3
    && (g.gust == "" || (IsDigits(g.gust) && 2 <= |g.gust| <= 3))
    && (t == g.direction + g.speed + g.gust + "KT" || t == g.direction + g.speed + "G" + g.gust + "KT")
  }

  lemma HasAtConcat(s: string, j: nat, a: string, b: string)
    requires HasAt(s, j, a) && HasAt(s, j + |a|, b)
    ensures HasAt(s, j, a + b)
  {
    assert s[j..j + |a| + |b|] == s[j..j + |a|] + s[j + |a|..j + |a| + |b|];
  }

  lemma HasAtSplit(s: string, j: nat, a: string, b: string)
    requires HasAt(s, j, a + b)
    ensures HasAt(s, j, a) && HasAt(s, j + |a|, b)
  {
    assert s[j..j + |a|] == (a + b)[..|a|] == a;
    assert s[j + |a|..j + |a| + |b|] == (a + b)[|a|..] == b;
  }

  /** `(\d{2,3})?KT` at `k`: three gust digits, then two, then no gust group. */
  function WindGust(s: string, i: nat, k: nat, dir: string, speed: DigitString): (m: Option<Hit<WindGroups>>)
    ensures m.Some? ==> var g := m.value.groups;
      && m.value.start == i && g.direction == dir && g.speed == speed
      && (g.gust == "" || (IsDigits(g.gust) && 2 <= |g.gust| <= 3))
      && m.value.end == k + |g.gust| + 2 && HasAt(s, k, g.gust + "KT")
  {
    if DigitsAt(s, k, 3) && HasAt(s, k + 3, "KT") then
      HasAtConcat(s, k, s[k..k + 3], "KT");
      Some(Hit(WindGroups(dir, speed, s[k..k + 3]), i, k + 5))
    else if DigitsAt(s, k, 2) && HasAt(s, k + 2, "KT") then
      HasAtConcat(s, k, s[k..k + 2], "KT");
      Some(Hit(WindGroups(dir, speed, s[k..k + 2]), i, k + 4))
    else if HasAt(s, k, "KT") then
      assert "" + "KT" == "KT";
      Some(Hit(WindGroups(dir, speed, ""), i, k + 2))
    else None
  }

  lemma SpeedThenGust(s: string, j: nat, speed: string, gust: string)
    requires HasAt(s, j, speed) && HasAt(s, j + |speed|, "G") && HasAt(s, j + |speed| + 1, gust + "KT")
    ensures HasAt(s, j, speed + "G" + gust + "KT")
  {
    HasAtConcat(s, j, speed, "G");
    HasAtConcat(s, j, speed + "G", gust + "KT");
    assert speed + "G" + (gust + "KT") == speed + "G" + gust + "KT";
  }

  /** `(\d{n})G?(\d{2,3})?KT` at `j`: with the `G` first, then without it. */
  function WindSpeed(s: string, i: nat, j: nat, dir: string, n: nat): (m: Option<Hit<WindGroups>>)
    ensures m.Some? ==> var g := m.value.groups;
      && m.value.start == i && g.direction == dir && |g.speed| == n
      && (g.gust == "" || (IsDigits(g.gust) && 2 <= |g.gust| <= 3))
      && ((m.value.end == j + n + |g.gust| + 2 && HasAt(s, j, g.speed + g.gust + "KT"))
          || (m.value.end == j + n + |g.gust| + 3 && HasAt(s, j, g.speed + "G" + g.gust + "KT")))
  {
    if DigitsAt(s, j, n) then
      var speed: DigitString := s[j..j + n];
      var k := j + n;
      var withG := if HasAt(s, k, "G") then WindGust(s, i, k + 1, dir, speed) else None;
      if withG.Some? then
        SpeedThenGust(s, j, speed, withG.value.groups.gust);
        withG
      else
        var without := WindGust(s, i, k, dir, speed);
        if without.Some? then
          var g := without.value.groups;
          HasAtConcat(s, j, speed, g.gust + "KT");
          assert speed + (g.gust + "KT") == speed + g.gust + "KT";
          without
        else None
    else None
  }

  /** The wind pattern at position `i`: speed of three digits first, then two. */
  function WindAt(s: string, i: nat): (m: Option<Hit<WindGroups>>)
    ensures m.Some? ==> m.value.start == i && i < m.value.end <= |s|
    ensures m.Some? ==> i + 3 <= |s| && m.value.groups.direction == s[i..i + 3]
    ensures m.Some? ==> DigitsAt(s, i, 3) || HasAt(s, i, "VRB")
    ensures m.Some? ==> 2 <= |m.value.groups.speed| <= 3
    ensures m.Some? ==> var g := m.value.groups;
      ((m.value.end == i + 3 + |g.speed| + |g.gust| + 2 && HasAt(s, i + 3, g.speed + g.gust + "KT"))
       || (m.value.end == i + 3 + |g.speed| + |g.gust| + 3 && HasAt(s, i + 3, g.speed + "G" + g.gust + "KT")))
  {
    if DigitsAt(s, i, 3) || HasAt(s, i, "VRB") then
      var dir := s[i..i + 3];
      WindSpeed(s, i, i + 3, dir, 3).OrElse(WindSpeed(s, i, i + 3, dir, 2))
    else None
  }

  /** What the wind scanner matched is text of the wind pattern, and its groups are the pattern's groups. */
  lemma WindAtText(s: string, i: nat)
    requires WindAt(s, i).Some?
    ensures WindText(s[i..WindAt(s, i).value.end], WindAt(s, i).value.groups)
  {
    var m := WindAt(s, i).value;
    WindTextOf(s, i, m.end, m.groups);
  }

  /** The span a wind match consumed, read back as wind text. */
  lemma WindTextOf(s: string, i: nat, e: nat, g: WindGroups)
    requires i + 3 <= |s| && g.direction == s[i..i + 3]
    requires DigitsAt(s, i, 3) || HasAt(s, i, "VRB")
    requires 2 <= |g.speed| <= 3
    requires g.gust == "" || (IsDigits(g.gust) && 2 <= |g.gust| <= 3)
    requires (e == i + 3 + |g.speed| + |g.gust| + 2 && HasAt(s, i + 3, g.speed + g.gust + "KT"))
          || (e == i + 3 + |g.speed| + |g.gust| + 3 && HasAt(s, i + 3, g.speed + "G" + g.gust + "KT"))
    ensures WindText(s[i..e], g)
  {
    var dir := g.direction;
    if e == i + 3 + |g.speed| + |g.gust| + 2 && HasAt(s, i + 3, g.speed + g.gust + "KT") {
      var t := g.speed + g.gust + "KT";
      HasAtConcat(s, i, dir, t);
      assert dir + t == dir + g.speed + g.gust + "KT";
    } else {
      var t := g.speed + "G" + g.gust + "KT";
      HasAtConcat(s, i, dir, t);
      assert dir + t == dir + g.speed + "G" + g.gust + "KT";
    }
  }

  /** `(\d{2,3})?KT` text at `k` is matched there with exactly its gust group:
      a digit where `KT` would start rules out the shorter alternatives. */
  lemma WindGustExact(s: string, i: nat, k: nat, dir: string, speed: DigitString, gust: string)
    requires gust == "" || (IsDigits(gust) && 2 <= |gust| <= 3)
    requires HasAt(s, k, gust + "KT")
    ensures WindGust(s, i, k, dir, speed) == Some(Hit(WindGroups(dir, speed, gust), i, k + |gust| + 2))
  {
    HasAtSplit(s, k, gust, "KT");
    assert s[k + |gust|] == 'K';
    if |gust| == 2 {
      assert !IsDigit(s[k..k + 3][2]);
    } else if gust == "" {
      assert !IsDigit(s[k..k + 2][0]);
    }
  }

  /** The wind text after the direction, with or without the `G`. */
  function SpeedText(speed: string, withG: bool, gust: string): string {
    speed + (if withG then "G" else "") + gust + "KT"
  }

  /** Speed-and-gust text at `j` is matched there with exactly its groups
      when the speed alternative tried has the speed's length. */
  lemma WindSpeedExact(s: string, i: nat, j: nat, dir: string, speed: DigitString, withG: bool, gust: string)
    requires |speed| > 0 && (gust == "" || (IsDigits(gust) && 2 <= |gust| <= 3))
    requires HasAt(s, j, SpeedText(speed, withG, gust))
    ensures WindSpeed(s, i, j, dir, |speed|)
         == Some(Hit(WindGroups(dir, speed, gust), i, j + |SpeedText(speed, withG, gust)|))
  {
    var g := if withG then "G" else "";
    assert SpeedText(speed, withG, gust) == speed + (g + gust + "KT");
    HasAtSplit(s, j, speed, g + gust + "KT");
    if withG {
      assert g + gust + "KT" == "G" + (gust + "KT");
      WindSpeedWithG(s, i, j, dir, speed, gust);
    } else {
      assert g + gust + "KT" == gust + "KT";
      WindSpeedWithoutG(s, i, j, dir, speed, gust);
    }
  }

  lemma WindSpeedWithG(s: string, i: nat, j: nat, dir: string, speed: DigitString, gust: string)
    requires |speed| > 0 && (gust == "" || (IsDigits(gust) && 2 <= |gust| <= 3))
    requires HasAt(s, j, speed) && HasAt(s, j + |speed|, "G" + (gust + "KT"))
    ensures WindSpeed(s, i, j, dir, |speed|) == Some(Hit(WindGroups(dir, speed, gust), i, j + |speed| + |gust| + 3))
  {
    var k := j + |speed|;
    HasAtSplit(s, k, "G", gust + "KT");
    WindGustExact(s, i, k + 1, dir, speed, gust);
    assert DigitsAt(s, j, |speed|) && s[j..k] == speed;
  }

  lemma WindSpeedWithoutG(s: string, i: nat, j: nat, dir: string, speed: DigitString, gust: string)
    requires |speed| > 0 && (gust == "" || (IsDigits(gust) && 2 <= |gust| <= 3))
    requires HasAt(s, j, speed) && HasAt(s, j + |speed|, gust + "KT")
    ensures WindSpeed(s, i, j, dir, |speed|) == Some(Hit(WindGroups(dir, speed, gust), i, j + |speed| + |gust| + 2))
  {
    var k := j + |speed|;
    WindGustExact(s, i, k, dir, speed, gust);
    assert s[k] == s[k..k + |gust| + 2][0] == (gust + "KT")[0];
    assert !HasAt(s, k, "G");
    assert DigitsAt(s, j, |speed|) && s[j..k] == speed;
  }

  /** Wind text at `i` is always matched there. The match has exactly its
      groups when its speed has three digits; with a two-digit speed, the
      match may instead take a three-digit speed, which the engine tries first. */
  lemma WindAtExact(s: string, i: nat, t: string, g: WindGroups)
    requires WindText(t, g) && HasAt(s, i, t)
    ensures WindAt(s, i).Some?
    ensures WindAt(s, i) == Some(Hit(g, i, i + |t|)) || (|g.speed| == 2 && |WindAt(s, i).value.groups.speed| == 3)
  {
    var withG := t != g.direction + g.speed + g.gust + "KT";
    if withG {
      assert SpeedText(g.speed, withG, g.gust) == g.speed + "G" + g.gust + "KT";
    } else {
      assert SpeedText(g.speed, withG, g.gust) == g.speed + "" + g.gust + "KT" == g.speed + g.gust + "KT";
    }
    WindAtOfForm(s, i, g, withG, t);
  }

  lemma WindAtOfForm(s: string, i: nat, g: WindGroups, withG: bool, t: string)
    requires |g.direction| == 3 && (IsDigits(g.direction) || g.direction == "VRB")
    requires 2 <= |g.speed| <= 3 && (g.gust == "" || (IsDigits(g.gust) && 2 <= |g.gust| <= 3))
    requires t == g.direction + SpeedText(g.speed, withG, g.gust) && HasAt(s, i, t)
    ensures WindAt(s, i).Some?
    ensures WindAt(s, i) == Some(Hit(g, i, i + |t|)) || (|g.speed| == 2 && |WindAt(s, i).value.groups.speed| == 3)
  {
    WindFormSplit(s, i, g.direction, SpeedText(g.speed, withG, g.gust), t);
    WindSpeedExact(s, i, i + 3, g.direction, g.speed, withG, g.gust);
    WindAtOfSpeed(s, i, g, i + |t|);
  }

  /** Wind text splits into the direction and the speed text after it. */
  lemma WindFormSplit(s: string, i: nat, dir: string, rest: string, t: string)
    requires |dir| == 3 && t == dir + rest && HasAt(s, i, t)
    ensures i + 3 <= |s| && s[i..i + 3] == dir && HasAt(s, i + 3, rest) && |t| == 3 + |rest|
  {
    HasAtSplit(s, i, dir, rest);
  }

  /** Given the match of the speed alternative of the right length, the
      wind pattern at `i` finds it, unless a three-digit speed is tried first and matches. */
  lemma WindAtOfSpeed(s: string, i: nat, g: WindGroups, e: nat)
    requires i + 3 <= |s| && s[i..i + 3] == g.direction && (IsDigits(g.direction) || g.direction == "VRB")
    requires 2 <= |g.speed| <= 3
    requires WindSpeed(s, i, i + 3, g.direction, |g.speed|) == Some(Hit(g, i, e))
    ensures WindAt(s, i).Some?
    ensures WindAt(s, i) == Some(Hit(g, i, e)) || (|g.speed| == 2 && |WindAt(s, i).value.groups.speed| == 3)
  {
    assert DigitsAt(s, i, 3) || HasAt(s, i, "VRB");
  }

  // ---------------------------------------------------------- visibility
  // \s(\d{4})\s

  /** White space, four digits and white space at `i`. */
  predicate VisibilityText(s: string, i: nat) {
    i + 6 <= |s| && IsSpace(s[i]) && DigitsAt(s, i + 1, 4) && IsSpace(s[i + 5])
  }

  /** A visibility match is white space, four digits and white space; the group is the digits. */
  function VisibilityAt(s: string, i: nat): (m: Option<Hit<DigitString>>)
    ensures m.Some? <==> VisibilityText(s, i)
    ensures m.Some? ==> m.value.start == i && m.value.end == i + 6 && m.value.groups == s[i + 1..i + 5]
  {
    if i + 6 <= |s| && IsSpace(s[i]) && DigitsAt(s, i + 1, 4) && IsSpace(s[i + 5])
    then Some(Hit(s[i + 1..i + 5], i, i + 6))
    else None
  }

  // -------------------------------------------------------------- clouds
  // (FEW|SCT|BKN|OVC)(\d{3})

  /** One cloud layer as `re.findall` returns it: cover code and three-digit height. */
  datatype Cloud = Cloud(cover: string, height: DigitString)

  predicate IsCover(c: string) {
    c == "FEW" || c == "SCT" || c == "BKN" || c == "OVC"
  }

  /** A cloud match is a cover code followed by three digits; the groups are those two parts. */
  function CloudAt(s: string, i: nat): (m: Option<Hit<Cloud>>)
    ensures m.Some? <==> i + 6 <= |s| && IsCover(s[i..i + 3]) && DigitsAt(s, i + 3, 3)
    ensures m.Some? ==> m.value.start == i && m.value.end == i + 6
    ensures m.Some? ==> m.value.groups == Cloud(s[i..i + 3], s[i + 3..i + 6])
    ensures m.Some? ==> IsCover(m.value.groups.cover) && |m.value.groups.height| == 3
  {
    if i + 6 <= |s| && IsCover(s[i..i + 3]) && DigitsAt(s, i + 3, 3)
    then Some(Hit(Cloud(s[i..i + 3], s[i + 3..i + 6]), i, i + 6))
    else None
  }

  // ----------------------------------------------------------------- QNH
  // Q(\d{4})

  /** A QNH match is `Q` and four digits; the group is the digits. */
  function QnhAt(s: string, i: nat): (m: Option<Hit<string>>)
    ensures m.Some? <==> HasAt(s, i, "Q") && DigitsAt(s, i + 1, 4)
    ensures m.Some? ==> m.value.start == i && m.value.end == i + 5 <= |s| && m.value.groups == s[i + 1..i + 5]
    ensures m.Some? ==> IsDigits(m.value.groups) && |m.value.groups| == 4
  {
    if HasAt(s, i, "Q") && DigitsAt(s, i + 1, 4) then Some(Hit(s[i + 1..i + 5], i, i + 5)) else None
  }

  // ----------------------------------------------------- temperature/dew
  // (\d{2}|M\d{2})\/(\d{2}|M\d{2})

  /** A group of the temperature pattern: two digits, or `M` and two digits. */
  predicate IsTempGroup(g: string) {
    (|g| == 2 && IsDigits(g)) || (|g| == 3 && g[0] == 'M' && IsDigits(g[1..]))
  }

  type TempGroup = g: string | IsTempGroup(g) witness "00"

  datatype TempDew = TempDew(temp: TempGroup, dew: TempGroup)

  /** Alternative `n` of `(\d{2}|M\d{2})` at `i`: 2 for the digits, 3 for the `M` form. */
  predicate TempGroupAt(s: string, i: nat, n: nat) {
    (n == 2 && DigitsAt(s, i, 2)) || (n == 3 && HasAt(s, i, "M") && DigitsAt(s, i + 1, 2))
  }

  lemma TempGroupAtIsGroup(s: string, i: nat, n: nat)
    requires TempGroupAt(s, i, n)
    ensures i + n <= |s| && IsTempGroup(s[i..i + n])
  {
    if n == 3 {
      assert s[i..i + 3][1..] == s[i + 1..i + 3];
      assert s[i..i + 3][0] == s[i..i + 1][0] == 'M';
    }
  }

  function TempDewEnd(s: string, i: nat, n1: nat, n2: nat): (m: Option<Hit<TempDew>>)
    requires TempGroupAt(s, i, n1)
    ensures m.Some? <==> TempGroupAt(s, i + n1 + 1, n2)
    ensures m.Some? ==> i + n1 + 1 + n2 <= |s| && m.value.start == i && m.value.end == i + n1 + 1 + n2
    ensures m.Some? ==> m.value.groups.temp == s[i..i + n1] && m.value.groups.dew == s[i + n1 + 1..i + n1 + 1 + n2]
  {
    var j := i + n1 + 1;
    if TempGroupAt(s, j, n2) then
      TempGroupAtIsGroup(s, i, n1);
      TempGroupAtIsGroup(s, j, n2);
      Some(Hit(TempDew(s[i..i + n1], s[j..j + n2]), i, j + n2))
    else None
  }

  function TempDewFrom(s: string, i: nat, n1: nat): (m: Option<Hit<TempDew>>)
    ensures m.Some? ==> m.value.start == i && i < m.value.end <= |s|
    ensures m.Some? ==> HasAt(s, i, m.value.groups.temp + "/" + m.value.groups.dew)
    ensures m.Some? ==> m.value.end == i + |m.value.groups.temp| + 1 + |m.value.groups.dew|
  {
    if TempGroupAt(s, i, n1) && HasAt(s, i + n1, "/") then
      var two := TempDewEnd(s, i, n1, 2);
      if two.Some? then
        TempDewHitText(s, i, two.value.groups.temp, two.value.groups.dew);
        two
      else
        var three := TempDewEnd(s, i, n1, 3);
        if three.Some? then
          TempDewHitText(s, i, three.value.groups.temp, three.value.groups.dew);
          three
        else None
    else None
  }

  lemma TempDewHitText(s: string, i: nat, temp: string, dew: string)
    requires HasAt(s, i, temp) && HasAt(s, i + |temp|, "/") && HasAt(s, i + |temp| + 1, dew)
    ensures HasAt(s, i, temp + "/" + dew)
  {
    HasAtConcat(s, i, temp, "/");
    HasAtConcat(s, i, temp + "/", dew);
  }

  /** The temperature pattern at `i`: the two-digit alternative of each group first. */
  function TempDewAt(s: string, i: nat): (m: Option<Hit<TempDew>>)
    ensures m.Some? ==> m.value.start == i && i < m.value.end <= |s|
    ensures m.Some? ==> var g := m.value.groups;
      HasAt(s, i, g.temp + "/" + g.dew) && m.value.end == i + |g.temp| + 1 + |g.dew|
  {
    TempDewFrom(s, i, 2).OrElse(TempDewFrom(s, i, 3))
  }

  /** A group of the temperature pattern at `i` matches with its own length and no other. */
  lemma TempGroupAtExact(s: string, i: nat, t: TempGroup)
    requires HasAt(s, i, t)
    ensures TempGroupAt(s, i, |t|) && !TempGroupAt(s, i, 5 - |t|) && s[i..i + |t|] == t
  {
    if |t| == 3 {
      assert s[i..i + 1] == t[..1] && t[0] == s[i];
      assert s[i + 1..i + 3] == t[1..];
    } else {
      assert s[i] == t[0] && IsDigit(t[0]);
    }
  }

  /** Temperature text at `i` is matched there, with exactly its groups:
      the two alternatives of each group differ in their first character. */
  lemma TempDewAtExact(s: string, i: nat, g: TempDew)
    requires HasAt(s, i, g.temp + "/" + g.dew)
    ensures TempDewAt(s, i) == Some(Hit(g, i, i + |g.temp| + 1 + |g.dew|))
  {
    var n1 := |g.temp|;
    var j := i + n1 + 1;
    HasAtSplit(s, i, g.temp + "/", g.dew);
    HasAtSplit(s, i, g.temp, "/");
    TempGroupAtExact(s, i, g.temp);
    TempGroupAtExact(s, j, g.dew);
    assert TempDewFrom(s, i, 5 - n1).None?;
    if n1 == 2 {
      assert TempDewAt(s, i) == TempDewFrom(s, i, 2);
    }
  }

  // ------------------------------------------------------------- weather
  // \s(-|\+)?(VC)?(RA|SN|BR|FG|HZ|TS|DZ|SH|PL|GR|GS|UP)

  datatype WeatherGroups = WeatherGroups(intensity: string, proximity: string, code: string) {
    /** The f-string `f'{wx[0]}{wx[1]}{wx[2]}'`. */
    function Merged(): string {
      intensity + proximity + code
    }
  }

  predicate IsWeatherCode(c: string) {
    c in ["RA", "SN", "BR", "FG", "HZ", "TS", "DZ", "SH", "PL", "GR", "GS", "UP"]
  }

  /** `t` is what the weather pattern matches after its white space, with groups `g`. */
  predicate WeatherText(t: string, g: WeatherGroups) {
    && (g.intensity == "" || g.intensity == "-" || g.intensity == "+")
    && (g.proximity == "" || g.proximity == "VC")
    && IsWeatherCode(g.code)
    && t == g.Merged()
  }

  function WeatherCodeAt(s: string, i: nat, j: nat, intensity: string, proximity: string): (m: Option<Hit<WeatherGroups>>)
    ensures m.Some? ==> j + 2 <= |s| && IsWeatherCode(s[j..j + 2])
    ensures m.Some? ==> m.value == Hit(WeatherGroups(intensity, proximity, s[j..j + 2]), i, j + 2)
  {
    if j + 2 <= |s| && IsWeatherCode(s[j..j + 2])
    then Some(Hit(WeatherGroups(intensity, proximity, s[j..j + 2]), i, j + 2))
    else None
  }

  /** `(VC)?(code)` at `j`: with the proximity group first, then without it. */
  function WeatherAfterIntensity(s: string, i: nat, j: nat, intensity: string): (m: Option<Hit<WeatherGroups>>)
    requires intensity == "" || intensity == "-" || intensity == "+"
    ensures m.Some? ==> m.value.start == i && j < m.value.end <= |s|
    ensures m.Some? ==> m.value.groups.intensity == intensity && WeatherText(intensity + s[j..m.value.end], m.value.groups)
  {
    var withVC := if HasAt(s, j, "VC") then WeatherCodeAt(s, i, j + 2, intensity, "VC") else None;
    if withVC.Some? then
      CodeText(s, j, "VC", intensity, withVC.value.groups);
      withVC
    else
      var without := WeatherCodeAt(s, i, j, intensity, "");
      if without.Some? then
        CodeText(s, j, "", intensity, without.value.groups);
        without
      else None
  }

  /** The text of a match of `(VC)?(code)` with proximity group `p`, after its intensity sign. */
  lemma CodeText(s: string, j: nat, p: string, intensity: string, g: WeatherGroups)
    requires intensity == "" || intensity == "-" || intensity == "+"
    requires (p == "" || p == "VC") && HasAt(s, j, p)
    requires j + |p| + 2 <= |s| && IsWeatherCode(s[j + |p|..j + |p| + 2])
    requires g == WeatherGroups(intensity, p, s[j + |p|..j + |p| + 2])
    ensures WeatherText(intensity + s[j..j + |p| + 2], g)
  {
    var code := s[j + |p|..j + |p| + 2];
    assert s[j..j + |p|] == p;
    assert s[j..j + |p| + 2] == s[j..j + |p|] + code;
    assert intensity + s[j..j + |p| + 2] == intensity + p + code == g.Merged();
  }

  /** The weather pattern at `i`: white space, then the intensity sign if there is one
      (tried first), then the rest. */
  function WeatherAt(s: string, i: nat): (m: Option<Hit<WeatherGroups>>)
    ensures m.Some? ==> m.value.start == i && i < m.value.end <= |s|
    ensures m.Some? ==> IsSpace(s[i]) && WeatherText(s[i + 1..m.value.end], m.value.groups)
  {
    if i < |s| && IsSpace(s[i]) then
      var signed :=
        if i + 1 < |s| && (s[i + 1] == '-' || s[i + 1] == '+')
        then WeatherAfterIntensity(s, i, i + 2, [s[i + 1]]) else None;
      if signed.Some? then
        assert s[i + 1..signed.value.end] == [s[i + 1]] + s[i + 2..signed.value.end];
        signed
      else
        var unsigned := WeatherAfterIntensity(s, i, i + 1, "");
        if unsigned.Some? then
          assert s[i + 1..unsigned.value.end] == "" + s[i + 1..unsigned.value.end];
          unsigned
        else None
    else None
  }

  /** No weather code is `VC` or starts with an intensity sign. */
  lemma WeatherCodeLetters(c: string)
    requires IsWeatherCode(c)
    ensures |c| == 2 && c != "VC" && c[0] != '-' && c[0] != '+'
  {
  }

  /** `(VC)?(code)` text at `j` is matched there with exactly its groups. */
  lemma WeatherAfterIntensityExact(s: string, i: nat, j: nat, intensity: string, proximity: string, code: string)
    requires intensity == "" || intensity == "-" || intensity == "+"
    requires (proximity == "" || proximity == "VC") && IsWeatherCode(code)
    requires HasAt(s, j, proximity + code)
    ensures WeatherAfterIntensity(s, i, j, intensity)
         == Some(Hit(WeatherGroups(intensity, proximity, code), i, j + |proximity| + 2))
  {
    WeatherCodeLetters(code);
    HasAtSplit(s, j, proximity, code);
    if proximity == "" {
      assert s[j..j + 2] == code;
      assert !HasAt(s, j, "VC");
    }
  }

  /** Weather text after white space at `i` is matched there with exactly
      its groups: the sign, `VC` and the codes cannot be mistaken for one another. */
  lemma WeatherAtExact(s: string, i: nat, t: string, g: WeatherGroups)
    requires i < |s| && IsSpace(s[i]) && WeatherText(t, g) && HasAt(s, i + 1, t)
    ensures WeatherAt(s, i) == Some(Hit(g, i, i + 1 + |t|))
  {
    if g.intensity == "" {
      WeatherAtExactUnsigned(s, i, t, g);
    } else {
      WeatherAtExactSigned(s, i, t, g);
    }
  }

  lemma WeatherAtExactUnsigned(s: string, i: nat, t: string, g: WeatherGroups)
    requires i < |s| && IsSpace(s[i]) && WeatherText(t, g) && HasAt(s, i + 1, t) && g.intensity == ""
    ensures WeatherAt(s, i) == Some(Hit(g, i, i + 1 + |t|))
  {
    WeatherCodeLetters(g.code);
    assert t == g.proximity + g.code;
    WeatherAfterIntensityExact(s, i, i + 1, "", g.proximity, g.code);
    assert s[i + 1] == t[0];
    WeatherAtUnsigned(s, i, g, i + 1 + |t|);
  }

  lemma WeatherAtExactSigned(s: string, i: nat, t: string, g: WeatherGroups)
    requires i < |s| && IsSpace(s[i]) && WeatherText(t, g) && HasAt(s, i + 1, t) && g.intensity != ""
    ensures WeatherAt(s, i) == Some(Hit(g, i, i + 1 + |t|))
  {
    SignedWeatherText(s, i + 1, t, g);
    WeatherAfterIntensityExact(s, i, i + 2, g.intensity, g.proximity, g.code);
    assert [s[i + 1]] == s[i + 1..i + 2] == g.intensity;
    WeatherAtSigned(s, i, g, i + 1 + |t|);
  }

  /** Signed weather text splits into the sign and the `(VC)?(code)` text after it. */
  lemma SignedWeatherText(s: string, j: nat, t: string, g: WeatherGroups)
    requires WeatherText(t, g) && HasAt(s, j, t) && g.intensity != ""
    ensures HasAt(s, j, g.intensity) && HasAt(s, j + 1, g.proximity + g.code)
    ensures |g.intensity| == 1 && |t| == 1 + |g.proximity| + 2
  {
    WeatherCodeLetters(g.code);
    assert t == g.intensity + (g.proximity + g.code);
    HasAtSplit(s, j, g.intensity, g.proximity + g.code);
  }

  lemma WeatherAtSigned(s: string, i: nat, g: WeatherGroups, e: nat)
    requires i + 1 < |s| && IsSpace(s[i]) && (s[i + 1] == '-' || s[i + 1] == '+')
    requires WeatherAfterIntensity(s, i, i + 2, [s[i + 1]]) == Some(Hit(g, i, e))
    ensures WeatherAt(s, i) == Some(Hit(g, i, e))
  {
  }

  lemma WeatherAtUnsigned(s: string, i: nat, g: WeatherGroups, e: nat)
    requires i + 1 < |s| && IsSpace(s[i]) && s[i + 1] != '-' && s[i + 1] != '+'
    requires WeatherAfterIntensity(s, i, i + 1, "") == Some(Hit(g, i, e))
    ensures WeatherAt(s, i) == Some(Hit(g, i, e))
  {
  }

  // ------------------------------------------------- the calls in `parse`

  lemma MatchersAnchored()
    ensures Anchored(WindAt) && Anchored(VisibilityAt) && Anchored(CloudAt)
    ensures Anchored(QnhAt) && Anchored(TempDewAt) && Anchored(WeatherAt)
  {
  }

  /** `re.findall(wind, raw)[0]` when there is a match. */
  function FirstWind(raw: string): Option<Hit<WindGroups>> {
    MatchersAnchored();
    FindFirst(WindAt, raw, 0)
  }

  /** `re.search(visibility, raw)`: the digits of the leftmost place where
      the visibility text occurs, or nothing when it occurs nowhere. */
  function FirstVisibility(raw: string): (v: Option<Hit<DigitString>>)
    ensures v.Some? ==> var p := v.value.start;
      && VisibilityText(raw, p) && v.value.groups == raw[p + 1..p + 5]
      && forall q | 0 <= q < p :: !VisibilityText(raw, q)
    ensures v.None? ==> forall q | 0 <= q < |raw| :: !VisibilityText(raw, q)
  {
    MatchersAnchored();
    var v := FindFirst(VisibilityAt, raw, 0);
    assert forall q | 0 <= q < |raw| && VisibilityText(raw, q) :: VisibilityAt(raw, q).Some?;
    v
  }

  /** The matches of `re.findall(clouds, raw)`. */
  function CloudHits(raw: string): (ms: seq<Hit<Cloud>>)
    ensures forall k | 0 <= k < |ms| :: IsCover(ms[k].groups.cover) && |ms[k].groups.height| == 3
  {
    MatchersAnchored();
    FindAll(CloudAt, raw, 0)
  }

  /** `re.findall(clouds, raw)`: one layer per match. */
  function AllClouds(raw: string): (cs: seq<Cloud>)
    ensures |cs| == |CloudHits(raw)| && forall k | 0 <= k < |cs| :: cs[k] == CloudHits(raw)[k].groups
    ensures forall k | 0 <= k < |cs| :: IsCover(cs[k].cover) && |cs[k].height| == 3
  {
    Groups(CloudHits(raw))
  }

  /** The cloud matches are the whole chain of leftmost matches, and each
      layer is a cover code and the three digits after it in the report. */
  lemma AllCloudsFromText(raw: string)
    ensures (MatchersAnchored(); Scanned(CloudAt, raw, 0, CloudHits(raw)))
    ensures var ms := CloudHits(raw); var cs := AllClouds(raw);
      forall k | 0 <= k < |cs| :: var p := ms[k].start;
        && ms[k].end == p + 6 <= |raw| && IsCover(raw[p..p + 3]) && DigitsAt(raw, p + 3, 3)
        && cs[k] == Cloud(raw[p..p + 3], raw[p + 3..p + 6])
  {
    MatchersAnchored();
    FindAllScanned(CloudAt, raw, 0);
  }

  /** The matches of `re.findall(qnh, raw)`. */
  function QnhHits(raw: string): (ms: seq<Hit<string>>)
    ensures forall k | 0 <= k < |ms| :: IsDigits(ms[k].groups) && |ms[k].groups| == 4
  {
    MatchersAnchored();
    FindAll(QnhAt, raw, 0)
  }

  /** `re.findall(qnh, raw)`: the four digits of each match. */
  function AllQnh(raw: string): (qs: seq<string>)
    ensures |qs| == |QnhHits(raw)| && forall k | 0 <= k < |qs| :: qs[k] == QnhHits(raw)[k].groups
    ensures forall k | 0 <= k < |qs| :: IsDigits(qs[k]) && |qs[k]| == 4
  {
    Groups(QnhHits(raw))
  }

  /** The QNH matches are the whole chain of leftmost matches, and each value
      is the four digits after a `Q` in the report. */
  lemma AllQnhFromText(raw: string)
    ensures (MatchersAnchored(); Scanned(QnhAt, raw, 0, QnhHits(raw)))
    ensures var ms := QnhHits(raw); var qs := AllQnh(raw);
      forall k | 0 <= k < |qs| :: var p := ms[k].start;
        && ms[k].end == p + 5 <= |raw| && raw[p] == 'Q' && DigitsAt(raw, p + 1, 4)
        && qs[k] == raw[p + 1..p + 5]
  {
    MatchersAnchored();
    FindAllScanned(QnhAt, raw, 0);
    var ms := QnhHits(raw);
    forall k | 0 <= k < |ms| ensures raw[ms[k].start] == 'Q' {
      assert raw[ms[k].start] == raw[ms[k].start..ms[k].start + 1][0];
    }
  }

  /** `re.findall(temp_dew, raw)[0]` when there is a match. */
  function FirstTempDew(raw: string): Option<Hit<TempDew>> {
    MatchersAnchored();
    FindFirst(TempDewAt, raw, 0)
  }

  /** The matches of `re.findall(weather, raw)`, with their positions. */
  function WeatherHits(raw: string): (ms: seq<Hit<WeatherGroups>>)
    ensures forall k | 0 <= k < |ms| :: ms[k].start < ms[k].end <= |raw| && IsSpace(raw[ms[k].start])
    ensures forall k | 0 <= k < |ms| :: WeatherText(raw[ms[k].start + 1..ms[k].end], ms[k].groups)
  {
    MatchersAnchored();
    FindAll(WeatherAt, raw, 0)
  }

  /** The weather matches are the whole chain of leftmost matches. */
  lemma WeatherHitsScanned(raw: string)
    ensures (MatchersAnchored(); Scanned(WeatherAt, raw, 0, WeatherHits(raw)))
  {
    MatchersAnchored();
    FindAllScanned(WeatherAt, raw, 0);
  }

  /** `re.findall(weather, raw)`. */
  function AllWeather(raw: string): seq<WeatherGroups> {
    Groups(WeatherHits(raw))
  }
}
