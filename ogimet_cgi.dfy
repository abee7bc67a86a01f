/** The reformatting loop of `fetch_metar` in `ogimet_cgi.py`: the body of
    the upstream response, one CSV line per report
    `ICAO,YYYY,MM,DD,HH,MM,<report>`, becomes the lines
    `"YYYYMMDDHHMM <report>"` that `Metar` parses. The HTTP request that
    produces the body is outside the model; the body is the input. */
module OgimetCgi {
  import opened Wrappers
  import opened Text
  import opened MetarModel
  import opened MetarProperties

  /** Lines 30-34: the stripped body split on newlines, without its first
      line when a header was asked for. */
  function ResponseLines(text: string, header: string): (lines: seq<string>)
    ensures forall k | 0 <= k < |lines| :: '\n' !in lines[k]
    ensures header != "yes" ==> JoinWith(lines, '\n') == Strip(text)
    ensures header == "yes" ==> exists first | '\n' !in first :: JoinWith([first] + lines, '\n') == Strip(text)
  {
    var all := SplitOn(Strip(text), '\n');
    JoinOfSplit(Strip(text), '\n');
    if header == "yes" then
      assert [all[0]] + all[1..] == all;
      all[1..]
    else all
  }

  /** Line 39: a line is a report when it has exactly seven fields. */
  predicate IsReportLine(line: string) {
    |SplitOn(line, ',')| == 7
  }

  /** Lines 40-42: the five date fields run together, a space, the report;
      the station field is dropped. */
  function FormatLine(parts: seq<string>): string
    requires |parts| == 7
  {
    var timestamp := parts[1] + parts[2] + parts[3] + parts[4] + parts[5];
    timestamp + " " + parts[6]
  }

  /** Lines 36-43 over the lines read so far. */
  function Reformatted(lines: seq<string>): seq<string> {
    if lines == [] then []
    else
      var line := lines[|lines| - 1];
      var parts := SplitOn(line, ',');
      Reformatted(lines[..|lines| - 1]) + (if |parts| == 7 then [FormatLine(parts)] else [])
  }

  /** Lines 30-44 of `fetch_metar`, after the response has arrived. */
  method FormatResponse(text: string, header: string) returns (formattedLines: seq<string>)
    ensures formattedLines == Reformatted(ResponseLines(text, header))
  {
    var lines := SplitOn(Strip(text), '\n');
    if header == "yes" {
      lines := lines[1..];
    }
    formattedLines := FormatLines(lines);
  }

  /** Lines 36-44: the loop over the response lines. */
  method FormatLines(lines: seq<string>) returns (formattedLines: seq<string>)
    ensures formattedLines == Reformatted(lines)
  {
    formattedLines := [];
    for i := 0 to |lines|
      invariant formattedLines == Reformatted(lines[..i])
    {
      var line := lines[i];
      var parts := SplitOn(line, ',');
      ReformattedPrefix(lines, i);
      if |parts| == 7 {
        var timestamp := parts[1] + parts[2] + parts[3] + parts[4] + parts[5];
        var formattedLine := timestamp + " " + parts[6];
        formattedLines := formattedLines + [formattedLine];
      }
    }
    assert lines[..|lines|] == lines;
  }

  /** One more line read: its output, if any, comes after the rest. */
  lemma ReformattedPrefix(lines: seq<string>, i: nat)
    requires i < |lines|
    ensures var parts := SplitOn(lines[i], ',');
      Reformatted(lines[..i + 1]) == Reformatted(lines[..i]) + (if |parts| == 7 then [FormatLine(parts)] else [])
  {
    assert lines[..i + 1][..i] == lines[..i];
  }

  // ---------------------------------------------------------- properties

  /** A line yields output exactly when it holds six commas. */
  lemma ReportLineHasSixCommas(line: string)
    ensures IsReportLine(line) <==> CountChar(line, ',') == 6
  {
  }

  /** The lines are handled one at a time and in order. */
  lemma {:induction false} ReformattedAppend(a: seq<string>, b: seq<string>)
    ensures Reformatted(a + b) == Reformatted(a) + Reformatted(b)
    decreases |b|
  {
    if b == [] {
      assert a + b == a;
    } else {
      var init := b[..|b| - 1];
      ReformattedAppend(a, init);
      assert (a + b)[..|a + b| - 1] == a + init;
      assert (a + b)[|a + b| - 1] == b[|b| - 1];
    }
  }

  /** One line gives one output line when it is a report and none otherwise. */
  lemma ReformattedSingle(line: string)
    ensures Reformatted([line]) == if IsReportLine(line) then [FormatLine(SplitOn(line, ','))] else []
  {
    assert [line][..0] == [];
  }

  /** Never more output than lines; nothing is dropped when every line is a
      report, one output line per line. */
  lemma {:induction false} ReformattedCount(lines: seq<string>)
    ensures |Reformatted(lines)| <= |lines|
    ensures (forall k | 0 <= k < |lines| :: IsReportLine(lines[k])) ==> |Reformatted(lines)| == |lines|
    ensures (forall k | 0 <= k < |lines| :: !IsReportLine(lines[k])) ==> Reformatted(lines) == []
  {
    if lines != [] {
      ReformattedCount(lines[..|lines| - 1]);
    }
  }

  /** With a header, the output is that of the same body without its
      first line. */
  lemma HeaderDropsFirstLine(text: string)
    ensures var lines := SplitOn(Strip(text), '\n');
      && Reformatted(ResponseLines(text, "no")) == Reformatted(lines[..1]) + Reformatted(ResponseLines(text, "yes"))
  {
    var lines := SplitOn(Strip(text), '\n');
    ReformattedAppend(lines[..1], lines[1..]);
    assert lines[..1] + lines[1..] == lines;
  }

  /** Any seven comma-free fields joined by commas give back the five date
      fields run together, a space, and the last field. */
  lemma FormatLineOfFields(fields: seq<string>)
    requires |fields| == 7 && forall k | 0 <= k < 7 :: ',' !in fields[k]
    ensures IsReportLine(JoinWith(fields, ','))
    ensures FormatLine(SplitOn(JoinWith(fields, ','), ','))
         == fields[1] + fields[2] + fields[3] + fields[4] + fields[5] + " " + fields[6]
  {
    SplitOfJoin(fields, ',');
  }

  /** The CSV line upstream sends for a report at time `t`. */
  function CsvLine(icao: string, t: DateTime, report: string): string
    requires ValidDateTime(t)
  {
    JoinWith([icao, Digits(t.year, 4), Digits(t.month, 2), Digits(t.day, 2), Digits(t.hour, 2), Digits(t.minute, 2), report], ',')
  }

  /** A well-formed CSV line is kept and rewritten as the timestamp, a
      space, and the report: the station field is dropped. */
  lemma {:induction false} CsvLineReformatted(icao: string, t: DateTime, report: string)
    requires ValidDateTime(t)
    requires ',' !in icao && ',' !in report
    ensures IsReportLine(CsvLine(icao, t, report))
    ensures FormatLine(SplitOn(CsvLine(icao, t, report), ',')) == FormatStamp(t) + " " + report
  {
    var ps := [icao, Digits(t.year, 4), Digits(t.month, 2), Digits(t.day, 2), Digits(t.hour, 2), Digits(t.minute, 2), report];
    forall k | 0 <= k < |ps| ensures ',' !in ps[k] {
      if 1 <= k <= 5 {
        assert IsDigits(ps[k]);
      }
    }
    SplitOfJoin(ps, ',');
  }

  /** The rewritten line is what `Metar` expects: its first token is the
      timestamp and reads back as `t`, and, when the report has at least
      three words, `Metar(line)` parses without an exception at time `t`. */
  lemma ReformattedLineParses(t: DateTime, report: string)
    requires ValidDateTime(t)
    ensures var line := FormatStamp(t) + " " + report;
      && Words(line) == [FormatStamp(t)] + Words(report)
      && ParseStamp(Words(line)[0]) == Some(t)
      && (|Words(report)| >= 3 ==> Decode(line).Success? && Decode(line).value.time == Some(t))
  {
    var stamp := FormatStamp(t);
    var line := stamp + " " + report;
    StampLineWords(t, report);
    StampRoundTrip(t);
    if |Words(report)| >= 3 {
      DecodeAtStamp(line, t);
    }
  }

  /** A line of at least four words whose first word is a timestamp decodes at that time. */
  lemma DecodeAtStamp(line: string, t: DateTime)
    requires |Words(line)| >= 4 && ParseStamp(Words(line)[0]) == Some(t)
    ensures Decode(line).Success? && Decode(line).value.time == Some(t)
  {
    var parts := Words(line);
    assert |StationTokens(line)| >= 3 && StationTokens(line)[0] == parts[0];
    DecodeOutcome(line);
    assert Decode(line).value == ScanFields(Located(line));
  }

  /** The words of the rewritten line: the timestamp, then the report's. */
  lemma StampLineWords(t: DateTime, report: string)
    requires ValidDateTime(t)
    ensures Words(FormatStamp(t) + " " + report) == [FormatStamp(t)] + Words(report)
  {
    var stamp := FormatStamp(t);
    var line := stamp + " " + report;
    assert NoSpace(stamp) by {
      forall k | 0 <= k < |stamp| ensures !IsSpace(stamp[k]) {
        assert IsDigit(stamp[k]);
      }
    }
    WordsAfterWord(stamp, " " + report);
    assert stamp + (" " + report) == line;
    assert (" " + report)[1..] == report;
  }
}
