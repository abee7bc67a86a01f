/** `merge_consecutive_metar_requests`: per-day fetch requests, sorted in
    place by their start, coalesced into as few upstream requests as the
    one-day slack and the four-week cap allow.

    Timestamps are whole minutes. The `%Y%m%d%H%M` text that the source
    parses and prints is an order-preserving bijection onto minutes, so it
    is not modelled: a request's `begin` and `end` are those minutes. */
module Fetcher {
  import opened Wrappers

  /** `timedelta(days=1)` and `timedelta(weeks=4)` in minutes. */
  const OneDay: int := 1440
  const FourWeeks: int := 40320

  /** A request dictionary: station, start, end and the `header` flag. */
  datatype Request = Request(icao: string, begin: int, end: int, header: string)

  /** The `current` group being grown. */
  datatype Span = Span(icao: string, begin: int, end: int)

  // ---------------------------------------------------------------- sort

  /** Begins never decrease. */
  predicate SortedByBegin(s: seq<Request>) {
    forall i, j | 0 <= i < j < |s| :: s[i].begin <= s[j].begin
  }

  /** The requests of `s` that start at `b`, in order: stability of a sort
      is that it keeps these sub-sequences. */
  function WithBegin(s: seq<Request>, b: int): (r: seq<Request>)
    ensures |r| <= |s|
    ensures forall k | 0 <= k < |r| :: r[k].begin == b
  {
    if s == [] then []
    else WithBegin(s[..|s| - 1], b) + (if s[|s| - 1].begin == b then [s[|s| - 1]] else [])
  }

  /** Places `x` after every element of `t` that starts no later than it. */
  function Insert(t: seq<Request>, x: Request): seq<Request>
  {
    if t == [] || t[|t| - 1].begin <= x.begin then t + [x]
    else Insert(t[..|t| - 1], x) + [t[|t| - 1]]
  }

  /** `requests.sort(key=lambda r: r["begin"])`: a stable sort by begin. */
  function SortByBegin(s: seq<Request>): seq<Request>
  {
    if s == [] then [] else Insert(SortByBegin(s[..|s| - 1]), s[|s| - 1])
  }

  lemma {:induction false} InsertPermutes(t: seq<Request>, x: Request)
    ensures multiset(Insert(t, x)) == multiset(t) + multiset{x}
  {
    if t == [] || t[|t| - 1].begin <= x.begin {
    } else {
      InsertPermutes(t[..|t| - 1], x);
      assert t == t[..|t| - 1] + [t[|t| - 1]];
    }
  }

  lemma {:induction false} InsertSorted(t: seq<Request>, x: Request)
    requires SortedByBegin(t)
    ensures SortedByBegin(Insert(t, x))
  {
    if t == [] || t[|t| - 1].begin <= x.begin {
    } else {
      var init, last := t[..|t| - 1], t[|t| - 1];
      InsertSorted(init, x);
      InsertPermutes(init, x);
      var u := Insert(init, x);
      forall k | 0 <= k < |u|
        ensures u[k].begin <= last.begin
      {
        assert u[k] in multiset(u);
        assert u[k] in multiset(init) || u[k] == x;
      }
    }
  }

  lemma {:induction false} WithBeginAppend(s: seq<Request>, x: Request, b: int)
    ensures WithBegin(s + [x], b) == WithBegin(s, b) + (if x.begin == b then [x] else [])
  {
    assert (s + [x])[..|s|] == s;
  }

  lemma {:induction false} InsertStable(t: seq<Request>, x: Request, b: int)
    ensures WithBegin(Insert(t, x), b) == WithBegin(t, b) + (if x.begin == b then [x] else [])
  {
    if t == [] || t[|t| - 1].begin <= x.begin {
      WithBeginAppend(t, x, b);
    } else {
      var init, last := t[..|t| - 1], t[|t| - 1];
      InsertStable(init, x, b);
      WithBeginAppend(Insert(init, x), last, b);
    }
  }

  /** The sort orders by begin. */
  lemma {:induction false} SortByBeginSorted(s: seq<Request>)
    ensures SortedByBegin(SortByBegin(s))
  {
    if s != [] {
      SortByBeginSorted(s[..|s| - 1]);
      InsertSorted(SortByBegin(s[..|s| - 1]), s[|s| - 1]);
    }
  }

  /** The sort neither loses nor duplicates a request. */
  lemma {:induction false} SortByBeginPermutes(s: seq<Request>)
    ensures multiset(SortByBegin(s)) == multiset(s)
    ensures |SortByBegin(s)| == |s|
  {
    if s != [] {
      SortByBeginPermutes(s[..|s| - 1]);
      InsertPermutes(SortByBegin(s[..|s| - 1]), s[|s| - 1]);
      assert s == s[..|s| - 1] + [s[|s| - 1]];
    }
    assert |multiset(SortByBegin(s))| == |multiset(s)|;
  }

  /** The sort is stable: requests with equal begins keep their order. */
  lemma {:induction false} SortByBeginStable(s: seq<Request>, b: int)
    ensures WithBegin(SortByBegin(s), b) == WithBegin(s, b)
  {
    if s != [] {
      SortByBeginStable(s[..|s| - 1], b);
      InsertStable(SortByBegin(s[..|s| - 1]), s[|s| - 1], b);
    }
  }

  /** Line 14: the stable in-place sort (an insertion sort: Python's own
      sort is stable too, and only its result is observable). */
  method SortInPlace(a: array<Request>)
    modifies a
    ensures a[..] == SortByBegin(old(a[..]))
  {
    ghost var input := a[..];
    for i := 0 to a.Length
      invariant a[..i] == SortByBegin(input[..i])
      invariant a[i..] == input[i..]
    {
      assert input[..i + 1][..i] == input[..i];
      assert a[i] == input[i] && a[i + 1..] == input[i + 1..];
      InsertInPlace(a, i);
    }
    assert input[..a.Length] == input;
  }

  /** Moves `a[i]` back past the elements of `a[..i]` that start later. */
  method InsertInPlace(a: array<Request>, i: nat)
    requires i < a.Length
    modifies a
    ensures a[..i + 1] == Insert(old(a[..i]), old(a[i]))
    ensures a[i + 1..] == old(a[i + 1..])
  {
    ghost var t := a[..i];
    var x := a[i];
    var j := i;
    while j > 0 && a[j - 1].begin > x.begin
      invariant 0 <= j <= i
      invariant forall k | 0 <= k < j :: a[k] == t[k]
      invariant forall k | j < k <= i :: a[k] == t[k - 1]
      invariant forall k | i < k < a.Length :: a[k] == old(a[k])
      invariant forall k | j <= k < i :: t[k].begin > x.begin
    {
      a[j] := a[j - 1];
      j := j - 1;
    }
    a[j] := x;
    InsertAt(t, j, x);
    Shifted(a[..], t, j, x);
    assert a[i + 1..] == old(a[i + 1..]);
  }

  /** The array after the insertion loop, read as a sequence. */
  lemma Shifted(s: seq<Request>, t: seq<Request>, j: nat, x: Request)
    requires j <= |t| < |s|
    requires forall k | 0 <= k < j :: s[k] == t[k]
    requires s[j] == x
    requires forall k | j < k <= |t| :: s[k] == t[k - 1]
    ensures s[..|t| + 1] == t[..j] + [x] + t[j..]
  {
    assert s[..j] == t[..j];
    assert s[j + 1..|t| + 1] == t[j..];
    assert s[..|t| + 1] == s[..j] + [x] + s[j + 1..|t| + 1];
  }

  /** Where the insertion loop stops is where `Insert` puts `x`. */
  lemma {:induction false} InsertAt(t: seq<Request>, j: nat, x: Request)
    requires j <= |t| && (j == 0 || t[j - 1].begin <= x.begin)
    requires forall k | j <= k < |t| :: t[k].begin > x.begin
    ensures Insert(t, x) == t[..j] + [x] + t[j..]
    decreases |t| - j
  {
    if j < |t| {
      var init := t[..|t| - 1];
      assert init[..j] == t[..j];
      InsertAt(init, j, x);
      assert t[j..] == init[j..] + [t[|t| - 1]];
    } else {
      assert t[..j] == t;
    }
  }

  // --------------------------------------------------------------- merge

  /** The loop's state: the groups pushed so far, and `current`. */
  datatype Progress = Progress(merged: seq<Request>, current: Option<Span>)

  /** A group started from one request. */
  function Open(r: Request): Span {
    Span(r.icao, r.begin, r.end)
  }

  /** The dictionary pushed for a group: its times printed back, no header. */
  function Emit(c: Span): Request {
    Request(c.icao, c.begin, c.end, "no")
  }

  /** One iteration of the loop, lines 20-61. */
  function Step(p: Progress, r: Request): Progress {
    if p.current.None? then Progress(p.merged, Some(Open(r)))
    else
      var c := p.current.value;
      if r.icao == c.icao && r.end <= c.end + OneDay then
        var grown := if r.end > c.end then c.(end := r.end) else c;
        if grown.begin + FourWeeks < grown.end then Progress(p.merged + [Emit(grown)], Some(Open(r)))
        else Progress(p.merged, Some(grown))
      else Progress(p.merged + [Emit(c)], Some(Open(r)))
  }

  /** The loop run over a prefix of the sorted requests. */
  function Run(rs: seq<Request>): Progress {
    if rs == [] then Progress([], None) else Step(Run(rs[..|rs| - 1]), rs[|rs| - 1])
  }

  /** Lines 64-70: the last group is pushed when there is one. */
  function Close(p: Progress): seq<Request> {
    if p.current.Some? then p.merged + [Emit(p.current.value)] else p.merged
  }

  /** The merge pass over requests already in order. */
  function Coalesce(rs: seq<Request>): seq<Request> {
    Close(Run(rs))
  }

  /** What `merge_consecutive_metar_requests(requests)` returns. */
  function Merge(rs: seq<Request>): seq<Request> {
    Coalesce(SortByBegin(rs))
  }

  /** `merge_consecutive_metar_requests`: sorts the caller's list, then one
      pass that grows `current` and pushes finished groups. */
  method MergeConsecutiveMetarRequests(requests: array<Request>) returns (merged: seq<Request>)
    modifies requests
    ensures requests[..] == SortByBegin(old(requests[..]))
    ensures merged == Merge(old(requests[..]))
  {
    SortInPlace(requests);
    merged := [];
    var current: Option<Span> := None;
    for i := 0 to requests.Length
      invariant Progress(merged, current) == Run(requests[..i])
    {
      var req := requests[i];
      assert requests[..i + 1][..i] == requests[..i];
      if current.None? {
        current := Some(Span(req.icao, req.begin, req.end));
      } else if req.icao == current.value.icao && req.end <= current.value.end + OneDay {
        if req.end > current.value.end {
          current := Some(current.value.(end := req.end));
        }
        if current.value.begin + FourWeeks < current.value.end {
          merged := merged + [Emit(current.value)];
          current := Some(Span(req.icao, req.begin, req.end));
        }
      } else {
        merged := merged + [Emit(current.value)];
        current := Some(Span(req.icao, req.begin, req.end));
      }
    }
    if current.Some? {
      merged := merged + [Emit(current.value)];
    }
    assert requests[..requests.Length] == requests[..];
  }

  // ---------------------------------------------------------- properties

  /** Every loop iteration after the first leaves one group open and has
      pushed fewer groups than it has read requests. */
  lemma {:induction false} RunCount(rs: seq<Request>)
    ensures Run(rs).current.Some? <==> rs != []
    ensures rs != [] ==> |Run(rs).merged| < |rs|
  {
    if rs != [] {
      RunCount(rs[..|rs| - 1]);
    }
  }

  /** No input gives no output, and there are never more groups than requests. */
  lemma CoalesceCount(rs: seq<Request>)
    ensures |Coalesce(rs)| <= |rs|
    ensures Coalesce(rs) == [] <==> rs == []
  {
    RunCount(rs);
  }

  /** `g` is for the station of `r` and spans all of `r`. */
  predicate Covers(g: Request, r: Request) {
    g.icao == r.icao && g.begin <= r.begin && r.end <= g.end
  }

  /** A group's station, begin and end each come from some input request
      for that station. */
  ghost predicate FromInput(g: Request, rs: seq<Request>) {
    && (exists r | r in rs :: r.icao == g.icao && r.begin == g.begin)
    && (exists r | r in rs :: r.icao == g.icao && r.end == g.end)
  }

  /** What the loop keeps true of the groups pushed and the one open. */
  ghost predicate Traced(p: Progress, rs: seq<Request>) {
    && (forall g | g in p.merged :: g.header == "no" && FromInput(g, rs))
    && (p.current.Some? ==> FromInput(Emit(p.current.value), rs))
  }

  lemma {:induction false} RunTraced(rs: seq<Request>)
    ensures Traced(Run(rs), rs)
  {
    if rs != [] {
      var init, r := rs[..|rs| - 1], rs[|rs| - 1];
      RunTraced(init);
      assert r in rs;
      forall g | FromInput(g, init) ensures FromInput(g, rs) {
        var a :| a in init && a.icao == g.icao && a.begin == g.begin;
        var b :| b in init && b.icao == g.icao && b.end == g.end;
        assert a in rs && b in rs;
      }
      var p := Run(init);
      if p.current.Some? {
        var c := p.current.value;
        if r.icao == c.icao && r.end <= c.end + OneDay && r.end > c.end {
          assert FromInput(Emit(c.(end := r.end)), rs);
        }
      }
    }
  }

  /** Station grouping: every group has header "no", and its station, begin
      and end are those of input requests for that one station. */
  lemma CoalesceTraced(rs: seq<Request>)
    ensures forall g | g in Coalesce(rs) :: g.header == "no" && FromInput(g, rs)
  {
    RunTraced(rs);
  }

  /** Begins never decrease and the open group starts no later than the
      last request read. */
  lemma {:induction false} RunOrdered(rs: seq<Request>)
    requires SortedByBegin(rs)
    ensures var p := Run(rs);
      && SortedByBegin(p.merged)
      && (rs != [] ==> p.current.Some? && p.current.value.begin <= rs[|rs| - 1].begin
                       && forall g | g in p.merged :: g.begin <= p.current.value.begin)
  {
    if rs != [] {
      var init, r := rs[..|rs| - 1], rs[|rs| - 1];
      RunOrdered(init);
      RunCount(init);
    }
  }

  /** On sorted input the groups come out in order of their begins. */
  lemma CoalesceOrdered(rs: seq<Request>)
    requires SortedByBegin(rs)
    ensures SortedByBegin(Coalesce(rs))
  {
    RunOrdered(rs);
    RunCount(rs);
  }

  /** Every request read is covered by a pushed group or by the open one. */
  lemma {:induction false} RunCovers(rs: seq<Request>)
    requires SortedByBegin(rs)
    ensures forall k | 0 <= k < |rs| ::
      (exists g | g in Run(rs).merged :: Covers(g, rs[k]))
      || (Run(rs).current.Some? && Covers(Emit(Run(rs).current.value), rs[k]))
  {
    if rs != [] {
      var init, r := rs[..|rs| - 1], rs[|rs| - 1];
      RunCovers(init);
      RunOrdered(init);
      RunCount(init);
      var p, q := Run(init), Run(rs);
      assert forall g | g in p.merged :: g in q.merged;
      if init != [] {
        var c := p.current.value;
        assert c.begin <= r.begin;
        forall k | 0 <= k < |rs|
          ensures (exists g | g in q.merged :: Covers(g, rs[k]))
                  || (q.current.Some? && Covers(Emit(q.current.value), rs[k]))
        {
          if k < |init| {
            assert rs[k] == init[k];
            if !exists g | g in p.merged :: Covers(g, rs[k]) {
              assert Covers(Emit(c), rs[k]);
              if r.icao == c.icao && r.end <= c.end + OneDay {
                var grown := if r.end > c.end then c.(end := r.end) else c;
                assert Covers(Emit(grown), rs[k]);
                if grown.begin + FourWeeks < grown.end {
                  assert Emit(grown) in q.merged;
                }
              } else {
                assert Emit(c) in q.merged;
              }
            }
          } else {
            if r.icao == c.icao && r.end <= c.end + OneDay {
              var grown := if r.end > c.end then c.(end := r.end) else c;
              assert Covers(Emit(grown), r);
              if grown.begin + FourWeeks < grown.end {
                assert Emit(grown) in q.merged;
              }
            }
          }
        }
      }
    }
  }

  /** Coverage: on sorted input every request lies inside a group for its station. */
  lemma CoalesceCovers(rs: seq<Request>)
    requires SortedByBegin(rs)
    ensures forall k | 0 <= k < |rs| :: exists g | g in Coalesce(rs) :: Covers(g, rs[k])
  {
    RunCovers(rs);
    RunCount(rs);
    var p := Run(rs);
    forall k | 0 <= k < |rs| ensures exists g | g in Coalesce(rs) :: Covers(g, rs[k]) {
      if !exists g | g in p.merged :: Covers(g, rs[k]) {
        assert Emit(p.current.value) in Coalesce(rs);
      } else {
        var g :| g in p.merged && Covers(g, rs[k]);
        assert g in Coalesce(rs);
      }
    }
  }

  /** Well-formed requests give well-formed groups. */
  lemma {:induction false} RunWellFormed(rs: seq<Request>)
    requires forall k | 0 <= k < |rs| :: rs[k].begin <= rs[k].end
    ensures forall g | g in Run(rs).merged :: g.begin <= g.end
    ensures Run(rs).current.Some? ==> Run(rs).current.value.begin <= Run(rs).current.value.end
  {
    if rs != [] {
      RunWellFormed(rs[..|rs| - 1]);
    }
  }

  // ------------------------------------------------- the function as called

  /** Every group of the merge covers nothing but input requests' station,
      and its times are input times with header "no". */
  lemma MergeTraced(rs: seq<Request>)
    ensures forall g | g in Merge(rs) :: g.header == "no" && FromInput(g, rs)
  {
    var t := SortByBegin(rs);
    CoalesceTraced(t);
    SortByBeginPermutes(rs);
    forall g | g in Merge(rs) ensures FromInput(g, rs) {
      var a :| a in t && a.icao == g.icao && a.begin == g.begin;
      var b :| b in t && b.icao == g.icao && b.end == g.end;
      assert a in multiset(t) && b in multiset(t);
      assert a in rs && b in rs;
    }
  }

  /** Empty in, empty out; never more groups than requests. */
  lemma MergeCount(rs: seq<Request>)
    ensures |Merge(rs)| <= |rs|
    ensures Merge(rs) == [] <==> rs == []
  {
    SortByBeginPermutes(rs);
    CoalesceCount(SortByBegin(rs));
  }

  /** The groups come out in order of their begins. */
  lemma MergeOrdered(rs: seq<Request>)
    ensures SortedByBegin(Merge(rs))
  {
    SortByBeginSorted(rs);
    CoalesceOrdered(SortByBegin(rs));
  }

  /** Every request, in whatever order it was given, lies inside a group
      for its station. */
  lemma MergeCovers(rs: seq<Request>)
    ensures forall k | 0 <= k < |rs| :: exists g | g in Merge(rs) :: Covers(g, rs[k])
  {
    var t := SortByBegin(rs);
    SortByBeginSorted(rs);
    SortByBeginPermutes(rs);
    CoalesceCovers(t);
    forall k | 0 <= k < |rs| ensures exists g | g in Merge(rs) :: Covers(g, rs[k]) {
      assert rs[k] in multiset(rs);
      assert rs[k] in t;
      var j :| 0 <= j < |t| && t[j] == rs[k];
    }
  }

  /** If every request has begin <= end, so has every group. */
  lemma MergeWellFormed(rs: seq<Request>)
    requires forall k | 0 <= k < |rs| :: rs[k].begin <= rs[k].end
    ensures forall g | g in Merge(rs) :: g.begin <= g.end
  {
    var t := SortByBegin(rs);
    SortByBeginPermutes(rs);
    forall k | 0 <= k < |t| ensures t[k].begin <= t[k].end {
      assert t[k] in multiset(rs);
    }
    RunWellFormed(t);
  }

  /** Sorting a list that is already in order leaves it as it is. */
  lemma {:induction false} SortKeepsSorted(s: seq<Request>)
    requires SortedByBegin(s)
    ensures SortByBegin(s) == s
  {
    if s != [] {
      var init := s[..|s| - 1];
      SortKeepsSorted(init);
      assert init + [s[|s| - 1]] == s;
    }
  }

  // ------------------------------------------------------------ examples

  /** The four-week rule: the group that passes the cap is pushed with the
      request that stretched it, and a new group starts at that same
      request, so it is fetched twice and the first group spans more than
      four weeks. */
  lemma FourWeekSplitExample()
    ensures var rs := [Request("EGKA", 0, 40000, "no"), Request("EGKA", 100, 41000, "no")];
      && Merge(rs) == [Request("EGKA", 0, 41000, "no"), Request("EGKA", 100, 41000, "no")]
      && Merge(rs)[0].end - Merge(rs)[0].begin > FourWeeks
  {
    var rs := [Request("EGKA", 0, 40000, "no"), Request("EGKA", 100, 41000, "no")];
    SortKeepsSorted(rs);
    assert rs[..1] == [rs[0]];
    assert Run(rs[..1]) == Progress([], Some(Open(rs[0])));
  }

  /** The slack is measured on the next request's end: a request that
      overlaps the group but ends more than a day after it starts a new
      group. */
  lemma EndSlackExample()
    ensures var rs := [Request("EGKA", 0, 100, "no"), Request("EGKA", 50, 3000, "no")];
      Merge(rs) == [Request("EGKA", 0, 100, "no"), Request("EGKA", 50, 3000, "no")]
  {
    var rs := [Request("EGKA", 0, 100, "no"), Request("EGKA", 50, 3000, "no")];
    SortKeepsSorted(rs);
    assert rs[..1] == [rs[0]];
    assert Run(rs[..1]) == Progress([], Some(Open(rs[0])));
  }

  /** Daily windows of the same hours, for days 0, 1 and 3 after `start`:
      consecutive days merge, the missing day splits. */
  lemma DailyWindowsExample(icao: string, start: int, from: int, to: int)
    requires 0 <= from <= to < OneDay
    ensures var rs := [Request(icao, start + from, start + to, "no"),
                       Request(icao, start + OneDay + from, start + OneDay + to, "no"),
                       Request(icao, start + 3 * OneDay + from, start + 3 * OneDay + to, "no")];
      Merge(rs) == [Request(icao, start + from, start + OneDay + to, "no"),
                    Request(icao, start + 3 * OneDay + from, start + 3 * OneDay + to, "no")]
  {
    var rs := [Request(icao, start + from, start + to, "no"),
               Request(icao, start + OneDay + from, start + OneDay + to, "no"),
               Request(icao, start + 3 * OneDay + from, start + 3 * OneDay + to, "no")];
    SortKeepsSorted(rs);
    assert rs[..2][..1] == rs[..1] == [rs[0]];
    var p1 := Progress([], Some(Open(rs[0])));
    assert Run(rs[..1]) == p1;
    var p2 := Step(p1, rs[1]);
    assert p2 == Progress([], Some(Span(icao, start + from, start + OneDay + to)));
    assert Run(rs[..2]) == p2;
    var p3 := Step(p2, rs[2]);
    assert p3 == Progress([Request(icao, start + from, start + OneDay + to, "no")], Some(Open(rs[2])));
    assert Run(rs) == p3;
  }

  /** Requests for different stations are never merged. */
  lemma StationsKeptApartExample()
    ensures var rs := [Request("EGKA", 0, 100, "no"), Request("EGLL", 50, 120, "no")];
      Merge(rs) == [Request("EGKA", 0, 100, "no"), Request("EGLL", 50, 120, "no")]
  {
    var rs := [Request("EGKA", 0, 100, "no"), Request("EGLL", 50, 120, "no")];
    SortKeepsSorted(rs);
    assert rs[..1] == [rs[0]];
    assert Run(rs[..1]) == Progress([], Some(Open(rs[0])));
  }

  /** The sort runs first: the same requests given out of order give the
      same groups. */
  lemma UnsortedInputExample()
    ensures Merge([Request("EGKA", 1920, 2520, "no"), Request("EGKA", 480, 1080, "no")])
         == [Request("EGKA", 480, 2520, "no")]
  {
    var rs := [Request("EGKA", 1920, 2520, "no"), Request("EGKA", 480, 1080, "no")];
    var t := [rs[1], rs[0]];
    assert rs[..1] == [rs[0]];
    assert SortByBegin(rs[..1]) == [rs[0]];
    assert Insert([rs[0]], rs[1]) == t by {
      assert [rs[0]][..0] == [];
    }
    assert t[..1] == [t[0]];
    assert Run(t[..1]) == Progress([], Some(Open(t[0])));
  }

  /** Only the end is tested: a request that starts long after the group
      but whose end falls within the slack is absorbed. */
  lemma BeginNotTestedExample()
    ensures var rs := [Request("EGKA", 0, 100, "no"), Request("EGKA", 5000, 200, "no")];
      Merge(rs) == [Request("EGKA", 0, 200, "no")]
  {
    var rs := [Request("EGKA", 0, 100, "no"), Request("EGKA", 5000, 200, "no")];
    SortKeepsSorted(rs);
    assert rs[..1] == [rs[0]];
    assert Run(rs[..1]) == Progress([], Some(Open(rs[0])));
  }

  /** Within a group the end only grows: a step that pushes nothing keeps
      the open group's station and begin and does not lower its end. */
  lemma StepGrowsGroup(p: Progress, r: Request)
    requires p.current.Some?
    ensures var q := Step(p, r);
      && q.current.Some?
      && (q.merged == p.merged ==>
            && q.current.value.icao == p.current.value.icao == r.icao
            && q.current.value.begin == p.current.value.begin
            && q.current.value.end >= p.current.value.end
            && q.current.value.end >= r.end)
      && (q.merged != p.merged ==> q.current == Some(Open(r)) && |q.merged| == |p.merged| + 1)
  {
  }
}
