/** What `Metar(raw)` promises about the record it builds, and how
    `is_flyable` behaves as its limits change. */
module MetarProperties {
  import opened Wrappers
  import opened Text
  import opened MetarScan
  import opened MetarModel

  /** The record `parse` scans once the station and time are read. */
  function Located(raw: string): Observation
    requires |StationTokens(raw)| >= 3
  {
    var parts := StationTokens(raw);
    Blank(raw).(station := Some(parts[2]), time := ParseStamp(parts[0]))
  }

  /** `Metar(raw)` raises `IndexError` exactly when fewer than three tokens
      remain once a `COR` third token is removed, and `ValueError` exactly
      when, beyond that, the first token is not a timestamp; otherwise the
      record is the located one with every field scanned. */
  lemma DecodeOutcome(raw: string)
    ensures var parts := StationTokens(raw);
      && (Decode(raw) == Failure(TooFewTokens) <==> |parts| < 3)
      && (Decode(raw) == Failure(BadTimestamp) <==> |parts| >= 3 && ParseStamp(parts[0]).None?)
      && (Decode(raw).Success? <==> |parts| >= 3 && ParseStamp(parts[0]).Some?)
      && (Decode(raw).Success? ==> Decode(raw).value == ScanFields(Located(raw)))
  {
  }

  /** Each field of a scanned record comes from the one step of `parse`
      that assigns it; the raw text, station and time are left as they were. */
  lemma ScanFieldsParts(o: Observation)
    ensures var r := ScanFields(o);
      && r.raw == o.raw && r.station == o.station && r.time == o.time
      && r.windDirection == WithWind(o).windDirection
      && r.windSpeed == WithWind(o).windSpeed
      && r.windGust == WithWind(o).windGust
      && r.visibility == WithVisibility(o).visibility
      && r.clouds == WithClouds(o).clouds
      && r.base == WithClouds(o).base
      && r.ceiling == WithClouds(o).ceiling
      && r.qnh == WithQnh(o).qnh
      && r.temperature == WithTempDew(o).temperature
      && r.dewpoint == WithTempDew(o).dewpoint
      && r.weather == WithWeather(o).weather
  {
    var o1 := WithWind(o);
    var o2 := WithVisibility(o1);
    var o3 := WithClouds(o2);
    var o4 := WithQnh(o3);
    var o5 := WithTempDew(o4);
    var o6 := WithWeather(o5);
    assert o6 == ScanFields(o);
    SameVisibility(o1, o);
    ScanClouds(o2, o);
    SameQnh(o3, o);
    ScanTemperature(o4, o);
    SameWeather(o5, o);
  }

  /** The visibility step reads only the raw text and the visibility. */
  lemma SameVisibility(a: Observation, b: Observation)
    requires a.raw == b.raw && a.visibility == b.visibility
    ensures WithVisibility(a).visibility == WithVisibility(b).visibility
  {
  }

  /** The cloud step reads only the raw text and the cloud layers. */
  lemma ScanClouds(a: Observation, b: Observation)
    requires a.raw == b.raw && a.clouds == b.clouds
    ensures WithClouds(a).clouds == WithClouds(b).clouds
    ensures WithClouds(a).base == WithClouds(b).base && WithClouds(a).ceiling == WithClouds(b).ceiling
  {
  }

  /** The QNH step reads only the raw text. */
  lemma SameQnh(a: Observation, b: Observation)
    requires a.raw == b.raw
    ensures WithQnh(a).qnh == WithQnh(b).qnh
  {
  }

  /** The temperature step reads only the raw text and the two fields it sets. */
  lemma ScanTemperature(a: Observation, b: Observation)
    requires a.raw == b.raw && a.temperature == b.temperature && a.dewpoint == b.dewpoint
    ensures WithTempDew(a).temperature == WithTempDew(b).temperature
    ensures WithTempDew(a).dewpoint == WithTempDew(b).dewpoint
  {
  }

  /** The weather step reads only the raw text and the weather. */
  lemma SameWeather(a: Observation, b: Observation)
    requires a.raw == b.raw && a.weather == b.weather
    ensures WithWeather(a).weather == WithWeather(b).weather
  {
  }

  /** On success the raw text is kept verbatim, the station is the third
      token (the fourth after a `COR` third token), and the time is read
      from the first token. */
  lemma DecodeStationAndTime(raw: string)
    requires Decode(raw).Success?
    ensures var o := Decode(raw).value; var w := Words(raw);
      && o.raw == raw
      && |w| >= 3
      && o.station == Some(if w[2] == "COR" then w[3] else w[2])
      && o.time == ParseStamp(w[0]) && o.time.Some?
  {
    DecodeOutcome(raw);
    var l := Located(raw);
    ScanFieldsParts(l);
    var w, parts := Words(raw), StationTokens(raw);
    assert parts[0] == w[0];
    assert parts[2] == if w[2] == "COR" then w[3] else w[2];
    assert l.station == Some(parts[2]) && l.time == ParseStamp(parts[0]) && l.raw == raw;
  }

  /** Wind: only the first match counts; the direction is its three-character
      group, the speed its number, and the gust is set just when the gust
      group took part. */
  lemma DecodeWind(raw: string)
    requires Decode(raw).Success?
    ensures var o := Decode(raw).value; var w := FirstWind(raw);
      && (o.windDirection.Some? <==> w.Some?)
      && (o.windSpeed.Some? <==> w.Some?)
      && (o.windGust.Some? <==> w.Some? && w.value.groups.gust != "")
      && (w.Some? ==> var g := w.value.groups;
           && o.windDirection == Some(g.direction)
           && |g.direction| == 3 && (IsDigits(g.direction) || g.direction == "VRB")
           && o.windSpeed == Some(IntOf(g.speed))
           && (g.gust != "" ==> o.windGust == Some(IntOf(g.gust))))
  {
    DecodeOutcome(raw);
    ScanFieldsParts(Located(raw));
    var w := FirstWind(raw);
    if w.Some? {
      WindAtText(raw, w.value.start);
    }
  }

  /** `vis` is the four digits of the leftmost white space, four digits,
      white space in `raw`, or unset when there is no such place. */
  predicate VisibilityOf(raw: string, vis: Option<nat>) {
    var v := FirstVisibility(raw);
    && (vis.Some? <==> v.Some?)
    && (v.Some? ==> var p := v.value.start;
         && VisibilityText(raw, p) && vis == Some(IntOf(raw[p + 1..p + 5]))
         && forall q | 0 <= q < p :: !VisibilityText(raw, q))
    && (v.None? ==> forall q | 0 <= q < |raw| :: !VisibilityText(raw, q))
  }

  /** Visibility: the leftmost visibility group of the report, or unset. */
  lemma DecodeVisibility(raw: string)
    requires Decode(raw).Success?
    ensures VisibilityOf(raw, Decode(raw).value.visibility)
  {
    DecodeOutcome(raw);
    var l := Located(raw);
    ScanFieldsParts(l);
    var v := FirstVisibility(raw);
    assert l.raw == raw && l.visibility.None?;
    assert Decode(raw).value.visibility == WithVisibility(l).visibility;
    assert WithVisibility(l).visibility == if v.Some? then Some(IntOf(v.value.groups)) else None;
  }

  /** Clouds: every layer in report order, or `None` when there is none;
      base and ceiling are derived from the layers. */
  lemma DecodeClouds(raw: string)
    requires Decode(raw).Success?
    ensures var o := Decode(raw).value; var cs := AllClouds(raw);
      && o.clouds == (if cs == [] then None else Some(cs))
      && o.base == o.GetBase() && o.ceiling == o.GetCeiling()
      && (o.base.None? <==> cs == [])
      && (cs != [] ==> o.base == Some(IntOf(cs[0].height) * 100))
      && (o.ceiling == (if cs == [] then None else FirstCeiling(cs)))
  {
    DecodeOutcome(raw);
    ScanFieldsParts(Located(raw));
  }

  /** Temperature and dewpoint are set together, from the first match. */
  lemma DecodeTemperature(raw: string)
    requires Decode(raw).Success?
    ensures var o := Decode(raw).value; var td := FirstTempDew(raw);
      && (o.temperature.Some? <==> td.Some?)
      && (o.dewpoint.Some? <==> td.Some?)
      && (td.Some? ==>
            o.temperature == Some(SignedValue(td.value.groups.temp)) && o.dewpoint == Some(SignedValue(td.value.groups.dew)))
  {
    DecodeOutcome(raw);
    ScanFieldsParts(Located(raw));
    var td := FirstTempDew(raw);
    if td.Some? {
      PlaceholderNeverMatches(td.value.groups.temp);
      PlaceholderNeverMatches(td.value.groups.dew);
    }
  }

  /** QNH is the list of every `Q`+four-digit match, possibly empty, so it is never `None`. */
  lemma DecodeQnh(raw: string)
    requires Decode(raw).Success?
    ensures Decode(raw).value.qnh == Some(AllQnh(raw))
  {
    DecodeOutcome(raw);
    ScanFieldsParts(Located(raw));
  }

  /** Weather is `None` when nothing matched, otherwise one string per
      match, each the text that follows a white-space character of the report. */
  lemma DecodeWeather(raw: string)
    requires Decode(raw).Success?
    ensures var o := Decode(raw).value; var hs := WeatherHits(raw);
      && (o.weather.None? <==> hs == [])
      && (o.weather.Some? ==>
            && |o.weather.value| == |hs|
            && forall k | 0 <= k < |hs| ::
                 && o.weather.value[k] == raw[hs[k].start + 1..hs[k].end]
                 && IsSpace(raw[hs[k].start])
                 && IsWeatherCode(hs[k].groups.code))
  {
    DecodeOutcome(raw);
    var l := Located(raw);
    ScanFieldsParts(l);
    WeatherStepText(l);
  }

  /** The weather step in terms of the matches over the raw text. */
  lemma WeatherStepText(l: Observation)
    ensures var w := WithWeather(l).weather; var hs := WeatherHits(l.raw);
      && (w.None? <==> hs == [] && l.weather.None?)
      && (hs != [] ==>
            && w.Some? && |w.value| == |hs|
            && forall k | 0 <= k < |hs| ::
                 && w.value[k] == l.raw[hs[k].start + 1..hs[k].end]
                 && IsSpace(l.raw[hs[k].start])
                 && IsWeatherCode(hs[k].groups.code))
      && (hs == [] ==> w == l.weather)
  {
    var hs, wx := WeatherHits(l.raw), AllWeather(l.raw);
    if wx != [] {
      var merged := MergedWeather(wx);
      forall k | 0 <= k < |hs| ensures merged[k] == l.raw[hs[k].start + 1..hs[k].end] {
        assert merged[k] == wx[k].Merged() && wx[k] == hs[k].groups;
      }
    }
  }

  // ------------------------------------------------------ derived fields

  /** Layers reported from the lowest up, as METAR lists them, make the base
      the lowest layer and put no ceiling below it. */
  lemma BaseIsLowest(o: Observation)
    requires o.clouds.Some?
    requires forall k | 0 <= k < |o.clouds.value| - 1 :: IntOf(o.clouds.value[k].height) <= IntOf(o.clouds.value[k + 1].height)
    ensures o.GetBase().Some? <==> o.clouds.value != []
    ensures o.GetBase().Some? ==> forall k | 0 <= k < |o.clouds.value| :: o.GetBase().value <= IntOf(o.clouds.value[k].height) * 100
    ensures o.GetCeiling().Some? ==> o.GetBase().Some? && o.GetBase().value <= o.GetCeiling().value
  {
    var cs := o.clouds.value;
    if cs != [] {
      forall k | 0 <= k < |cs| ensures IntOf(cs[0].height) <= IntOf(cs[k].height) {
        AscendingFromFirst(cs, k);
      }
    }
  }

  lemma {:induction false} AscendingFromFirst(cs: seq<Cloud>, k: nat)
    requires k < |cs|
    requires forall j | 0 <= j < |cs| - 1 :: IntOf(cs[j].height) <= IntOf(cs[j + 1].height)
    ensures IntOf(cs[0].height) <= IntOf(cs[k].height)
  {
    if k > 0 {
      AscendingFromFirst(cs, k - 1);
    }
  }

  /** A few/broken/overcast sky (`FEW005 BKN020 OVC035`, say): the base is the
      few layer, the ceiling the broken one above it; the overcast layer is not reached. */
  lemma CeilingExample(h1: DigitString, h2: DigitString, h3: DigitString)
    ensures var o := Blank("").(clouds := Some([Cloud("FEW", h1), Cloud("BKN", h2), Cloud("OVC", h3)]));
      o.GetBase() == Some(IntOf(h1) * 100) && o.GetCeiling() == Some(IntOf(h2) * 100)
  {
    var cs := [Cloud("FEW", h1), Cloud("BKN", h2), Cloud("OVC", h3)];
    assert !IsCeilingCover("FEW") by {
      assert "FEW"[0] != "BKN"[0] && "FEW"[0] != "OVC"[0];
    }
    assert cs[1..] == [Cloud("BKN", h2), Cloud("OVC", h3)];
    assert FirstCeiling(cs) == FirstCeiling(cs[1..]);
    assert FirstCeiling(cs[1..]) == Some(IntOf(h2) * 100);
  }

  /** A leading `M` makes the value negative: `M05` reads as -5, and `M00` as 0. */
  lemma MinusPrefixExample()
    ensures SignedValue("M05") == -5 && SignedValue("05") == 5 && SignedValue("M00") == 0
  {
    assert "M05"[1..] == "05";
    assert "M00"[1..] == "00" && "00"[..1] == "0";
    assert "05"[..1] == "0" && "0"[..0] == "";
  }

  // ---------------------------------------------------------- the rules

  /** `b` is at least as strict as `a` in every threshold: a minimum no lower,
      a maximum no higher, a superset of bad weather codes; and a threshold
      set in `a` is set in `b`. */
  predicate Tighter(a: Limits, b: Limits) {
    && AtLeast(a.minVisibility, b.minVisibility)
    && AtLeast(a.minCeiling, b.minCeiling)
    && AtLeast(a.minBase, b.minBase)
    && AtMost(a.maxWindSpeed, b.maxWindSpeed)
    && AtMost(a.maxWindGust, b.maxWindGust)
    && AtLeast(a.minTemperature, b.minTemperature)
    && AtMost(a.maxTemperature, b.maxTemperature)
    && (a.badWeather.None? || (b.badWeather.Some? && forall k | 0 <= k < |a.badWeather.value| :: a.badWeather.value[k] in b.badWeather.value))
  }

  predicate AtLeast(a: Option<int>, b: Option<int>) {
    a.None? || (b.Some? && b.value >= a.value)
  }

  predicate AtMost(a: Option<int>, b: Option<int>) {
    a.None? || (b.Some? && b.value <= a.value)
  }

  /** Tightening thresholds can only turn a pass into a failure. */
  lemma FlyableMonotone(o: Observation, a: Limits, b: Limits)
    requires Tighter(a, b)
    ensures o.IsFlyable(b) ==> o.IsFlyable(a)
  {
  }

  /** Raising one minimum can turn a pass into a failure. */
  lemma TighteningCanFail()
    ensures var o := Blank("").(visibility := Some(3000));
      o.IsFlyable(NoLimits.(minVisibility := Some(2000))) && !o.IsFlyable(NoLimits.(minVisibility := Some(5000)))
  {
  }

  /** A field that is not reported passes its check whatever the limit. */
  lemma UnreportedFieldPasses(o: Observation, l: Limits)
    ensures o.visibility.None? ==> o.IsFlyable(l) == o.IsFlyable(l.(minVisibility := None))
    ensures o.ceiling.None? ==> o.IsFlyable(l) == o.IsFlyable(l.(minCeiling := None))
    ensures o.base.None? ==> o.IsFlyable(l) == o.IsFlyable(l.(minBase := None))
    ensures o.windSpeed.None? ==> o.IsFlyable(l) == o.IsFlyable(l.(maxWindSpeed := None))
    ensures o.windGust.None? ==> o.IsFlyable(l) == o.IsFlyable(l.(maxWindGust := None))
    ensures o.weather.None? ==> o.IsFlyable(l) == o.IsFlyable(l.(badWeather := None))
    ensures o.temperature.None? ==> o.IsFlyable(l) == o.IsFlyable(l.(minTemperature := None, maxTemperature := None))
  {
  }

  /** The weather check is exact membership: a bad code `RA` does not reject `-RA`. */
  lemma WeatherCheckIsExact()
    ensures var o := Blank("").(weather := Some(["-RA"]));
      o.IsFlyable(NoLimits.(badWeather := Some(["RA"]))) && !o.IsFlyable(NoLimits.(badWeather := Some(["-RA"])))
  {
    var o := Blank("").(weather := Some(["-RA"]));
    assert "RA" !in ["-RA"];
    assert ["-RA"][0] in o.weather.value;
  }

  /** A report with 8 kt of wind and 10 km or more of visibility is flyable
      for a 5000 m / 14 kt pilot, and not for one whose wind limit is 5 kt. */
  lemma FlyableScenario()
    ensures var o := Blank("202501020900 METAR EGKA 020900Z 24008KT 9999 FEW025 18/12 Q1015")
              .(windSpeed := Some(8), windDirection := Some("240"), visibility := Some(9999),
                clouds := Some([Cloud("FEW", "025")]), base := Some(2500),
                temperature := Some(18), dewpoint := Some(12), qnh := Some(["1015"]));
      && o.IsFlyable(NoLimits.(minVisibility := Some(5000), maxWindSpeed := Some(14)))
      && !o.IsFlyable(NoLimits.(maxWindSpeed := Some(5)))
  {
  }
}
