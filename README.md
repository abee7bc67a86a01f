# METAR fetch-and-parse core in Dafny

This project models the core of a small METAR toolkit. Upstream returns
weather reports as CSV. The toolkit turns each report into a
`"YYYYMMDDHHMM <report>"` line, parses that line into a `Metar` record, and
judges the record against visual-flight and user-set limits. It also
coalesces per-day fetch requests into as few upstream requests as it can.

Modules, one per concern:

- `Wrappers` (`wrappers.dfy`): `Option` and `Result`.
- `Text` (`text.dfy`): Python's string operations on `seq<char>`.
  - `str.split()` and `str.split(sep)`, `str.strip()`, `sep.join`.
  - Digit strings and `int()`.
  - The full `str.isspace` character set.
  - Their round-trip lemmas.
- `MetarScan` (`metar_scan.dfy`): the six regular expressions of `parse`.
  - Each is a scanner that tries its alternatives in the order Python's
    backtracking engine does.
  - `FindFirst` is `re.search` or `re.findall(...)[0]`.
  - `FindAll` is `re.findall`: leftmost, non-overlapping matches, in order.
- `MetarModel` (`metar_model.dfy`):
  - The timestamp.
  - The record (`Observation`) and its derived values: base, ceiling,
    temperature.
  - `is_vfr` and `is_flyable`.
  - `parse` as a function on records, `ParseStep`.
  - The class `Metar`. Its fields are the object's attributes, its `Parse`
    method updates them one block of the source at a time, and `Metar.New`
    is the constructor call including the exception `parse` may raise.
- `MetarProperties` (`metar_properties.dfy`): what parsing produces, field by
  field, and how `is_flyable` responds to its limits.
- `Fetcher` (`fetcher.dfy`): `merge_consecutive_metar_requests`.
  - A stable in-place sort of an `array<Request>`.
  - The greedy merge loop.
  - Both are proved against functional definitions (`SortByBegin`,
    `Coalesce`) whose properties are lemmas.
- `OgimetCgi` (`ogimet_cgi.dfy`): the line reformatting loop of `fetch_metar`.

In these places the model follows the code as written:

- `COR` is looked for at token index 2, the token after `METAR`, not after
  the station. A `COR` third token is removed, and the station is then read
  from the same index.
- The merge test compares the next request's end with the group's end plus
  one day. The toolkit means to merge a request that starts no later than a
  day after the group ends. The next request's begin is never compared
  (`BeginNotTestedExample`, whose request begins after it ends). On sorted
  input where every request has begin <= end, the end test already bounds
  the begin. There the only visible effect is the slack on the end
  (`EndSlackExample`): an overlapping request ending more than a day past
  the group starts a new group.
- The four-week cap is checked only when a request is absorbed. The toolkit
  means to keep each upstream request within four weeks. As written, the
  group pushed already contains that request, and a new group starts at the
  same request (`FourWeekSplitExample`).
- The `'//'` placeholder test in `parse` is meant to skip a report whose
  temperature is missing. It can never fire: a matched temperature group is
  two digits, optionally after `M` (`PlaceholderNeverMatches`). A missing
  temperature never matches in the first place.

## Model

| member | source | states |
|---|---|---|
| MetarModel.Metar.Unparsed | ogimet_model.py:6-20 | with `parse=False` the raw text is stored and every other field is `None` |
| MetarModel.Metar.New | ogimet_model.py:6-23 | constructing with `parse=True` yields the object whose fields are `Decode(raw)`, or raises the error `Decode` reports; with `parse=False` the blank record |
| MetarModel.Metar.Parse | ogimet_model.py:43-81 | the object's new fields are `ParseStep` of the old ones; the exception raised is the one `ParseStep` reports |
| MetarModel.Metar.ReadWind | ogimet_model.py:51-57 | the wind block: only the wind fields change, as the first wind match dictates |
| MetarModel.Metar.ReadVisibility | ogimet_model.py:59-61 | the visibility block changes only the visibility |
| MetarModel.Metar.ReadClouds | ogimet_model.py:63-67 | the cloud block stores the layers when there are any, then refreshes base and ceiling |
| MetarModel.Metar.ReadQnh | ogimet_model.py:69 | QNH becomes the list of all Q-group values |
| MetarModel.Metar.ReadTemperature | ogimet_model.py:71-74 | temperature and dewpoint are set together from the first match |
| MetarModel.Metar.ReadWeather | ogimet_model.py:76-81 | the `merged_wx` loop builds one string per weather match, in order |
| MetarProperties.DecodeOutcome | ogimet_model.py:44-49 | `IndexError` exactly when fewer than three tokens remain after removing a `COR` third token; `ValueError` exactly when the first token is not a timestamp; otherwise success with every field scanned |
| MetarProperties.DecodeStationAndTime | ogimet_model.py:44-49 | raw kept verbatim; station is token 2, or token 3 when token 2 is `COR`; time is token 0 read as a timestamp |
| MetarProperties.DecodeWind | ogimet_model.py:51-57 | only the first wind match counts; direction is 3 digits or `VRB`; speed is its integer; gust is set iff the gust group took part |
| MetarProperties.DecodeClouds | ogimet_model.py:63-67 | clouds are `AllClouds` (the complete chain of leftmost cover+height matches, see `AllCloudsFromText`), or `None` when there is none; base is set iff there is a layer and is the first height times 100; ceiling is the first BKN/OVC height times 100 |
| MetarProperties.DecodeVisibility | ogimet_model.py:59-61 | visibility is set iff some position holds white space, four digits, white space; it is the value of the leftmost such four digits |
| MetarProperties.DecodeTemperature | ogimet_model.py:71-74 | temperature and dewpoint are both set or both unset, from the signed values of the first match |
| MetarProperties.DecodeQnh | ogimet_model.py:69 | QNH is always set, to `AllQnh`: the digits of every Q+4-digit match in order, possibly none |
| MetarProperties.DecodeWeather | ogimet_model.py:76-81 | weather is `None` iff there is no weather match; otherwise one string per match of `WeatherHits`, each the matched text after its white-space character, ending in one of the twelve codes |
| MetarProperties.WeatherStepText | ogimet_model.py:76-81 | the weather block leaves the field alone without matches; with matches it sets one string per match, the matched text after its white space |
| MetarProperties.ScanFieldsParts | ogimet_model.py:51-81 | each field after the station step is decided by the one block that assigns it; raw, station and time are untouched |
| MetarModel.Observation.GetBase | ogimet_model.py:91-102 | the base is set iff there is a layer, from the first layer's height; a ceiling implies a base; a first layer that is BKN or OVC makes base equal ceiling |
| MetarProperties.CeilingExample | ogimet_model.py:91-102 | with FEW, BKN and OVC layers in that order the base is the FEW layer's height and the ceiling the BKN layer's, in feet |
| MetarProperties.MinusPrefixExample | ogimet_model.py:83-89 | `M05` reads as -5, `05` as 5 and `M00` as 0 |
| MetarModel.Observation.IsVfr | ogimet_model.py:104-107 | `is_vfr` with given minima equals `is_flyable` with only those two minima set |
| MetarProperties.FlyableMonotone | ogimet_model.py:132-167 | tightening any thresholds can only turn a pass into a failure |
| MetarProperties.TighteningCanFail | ogimet_model.py:132-135 | raising the visibility minimum from 2000 to 5000 rejects a 3000 m report |
| MetarProperties.UnreportedFieldPasses | ogimet_model.py:132-165 | a check whose field is `None` passes, so its limit has no effect |
| MetarProperties.WeatherCheckIsExact | ogimet_model.py:152-155 | bad weather is exact membership: `RA` does not reject `-RA`, `-RA` does |
| MetarProperties.FlyableScenario | ogimet_model.py:132-167 | the 8 kt, 9999 m example is flyable at 5000 m / 14 kt and not with a 5 kt wind limit |
| MetarProperties.BaseIsLowest | ogimet_model.py:98-102 | when layers are reported lowest first, the base is set iff there is a layer, is at or below every layer, and is at or below the ceiling |
| MetarModel.Observation.GetCeiling | ogimet_model.py:91-96 | `None` iff there are no layers or none is BKN/OVC; otherwise the height times 100 of a BKN/OVC layer with no BKN/OVC layer before it |
| MetarModel.Observation.IsFlyable | ogimet_model.py:109-167 | no limits always passes; a record with none of the checked fields always passes |
| MetarModel.FirstCeiling | ogimet_model.py:91-96 | `None` iff no layer is BKN/OVC; otherwise the height times 100 of a BKN/OVC layer with no BKN/OVC layer before it |
| MetarModel.ParseStamp | ogimet_model.py:49 | an accepted token yields a valid calendar date and time |
| MetarModel.StampRoundTrip | ogimet_model.py:49 | printing a valid date as `%Y%m%d%H%M` and reading it back gives the same date |
| MetarModel.StampCanonical | ogimet_model.py:49 | every accepted token is the printed form of the date it reads as |
| MetarModel.SignedValueOfEncoding | ogimet_model.py:83-89 | reading a temperature group inverts writing one, for -99..99 |
| MetarModel.SignedValueRange | ogimet_model.py:83-89 | a temperature group reads as a value in -99..99, negative only with `M` |
| MetarModel.ReadsEncoding | ogimet_model.py:83-89 | a temperature group that is the written form of a value in -99..99 reads as that value |
| MetarModel.EncodingOfReading | ogimet_model.py:83-89 | every temperature group is the written form of the value it reads as, except `M00`, which reads as 0 |
| MetarModel.GetTemperature | ogimet_model.py:83-85 | the temperature lies in -99..99 and is negative only with `M`; the group is its written form, except `M00`, which reads as 0 |
| MetarModel.GetDewpoint | ogimet_model.py:87-89 | the same for the dewpoint, `M00` included |
| MetarModel.ParseStep | ogimet_model.py:43-81 | `IndexError` leaves the record unchanged; `ValueError` sets only the station; success keeps the raw text and sets station and time |
| MetarModel.Decode | ogimet_model.py:6-23 | a successful parse keeps the raw text verbatim and sets station and time |
| MetarModel.PlaceholderNeverMatches | ogimet_model.py:71-72 | no matched temperature group equals `//` |
| MetarModel.MergedWeatherAppend | ogimet_model.py:78-80 | each loop iteration appends the merged string of one more match |
| MetarScan.FindFirst | ogimet_model.py:59 | the leftmost match from a position; `None` means no position matches |
| MetarScan.FindAll | ogimet_model.py:63 | matches are genuine, in order and non-overlapping; empty iff there is no first match; the first is the leftmost |
| MetarScan.FindAllScanned | ogimet_model.py:63 | `findall` is complete: each match after the first is the leftmost match from where the previous one ended, and none remains after the last |
| MetarScan.ScannedUnique | ogimet_model.py:63 | any chain of leftmost matches with nothing after it is exactly the `findall` result |
| MetarScan.WindAt | ogimet_model.py:51-52 | a wind match starts where asked; its direction is the three characters there, three digits or `VRB`; its speed has two or three digits; the text it spans is speed, optional `G` and gust, then `KT` |
| MetarScan.WindAtExact | ogimet_model.py:51-52 | wherever a well-formed wind group is written, it matches there, with exactly those groups; the one exception is a two-digit speed that the greedy `\d{2,3}` lengthens to three |
| MetarScan.WindAtText | ogimet_model.py:51-52 | the matched text is direction, speed, optional `G` and gust, then `KT` |
| MetarScan.CloudAt | ogimet_model.py:63 | a cloud matches iff there are six characters, a FEW/SCT/BKN/OVC cover then 3 digits; the groups are those two slices |
| MetarScan.QnhAt | ogimet_model.py:69 | a QNH matches iff there is `Q` then four digits; the value is those four digits |
| MetarScan.TempDewAt | ogimet_model.py:71 | a temperature/dewpoint match is the text temperature, `/`, dewpoint, starting where asked |
| MetarScan.TempDewAtExact | ogimet_model.py:71 | wherever two temperature groups are written around `/`, they match there, with exactly those groups |
| MetarScan.VisibilityAt | ogimet_model.py:59 | a visibility matches iff there is white space, four digits, white space; the value is the four digits |
| MetarScan.FirstVisibility | ogimet_model.py:59-61 | the first visibility match is the leftmost such position; `None` iff there is none |
| MetarScan.WeatherAt | ogimet_model.py:76 | a weather match starts at a white-space character, followed by optional intensity, optional `VC` and one of the twelve codes |
| MetarScan.WeatherAtExact | ogimet_model.py:76 | wherever white space is followed by a well-formed weather group, it matches there, with exactly those groups |
| MetarScan.AllClouds | ogimet_model.py:63 | one layer per match of the chain `CloudHits`, in order; every layer has a known cover and a 3-digit height |
| MetarScan.AllCloudsFromText | ogimet_model.py:63 | the layers are the complete leftmost-match chain, and each is the cover and height read at its match position |
| MetarScan.AllQnh | ogimet_model.py:69 | one value per match of the chain `QnhHits`, in order; every value is four digits |
| MetarScan.AllQnhFromText | ogimet_model.py:69 | the values are the complete leftmost-match chain, and each is the four digits after a `Q` at its match position |
| MetarScan.WeatherHits | ogimet_model.py:76 | every weather match begins on white space and the rest is a weather group |
| MetarScan.WeatherHitsScanned | ogimet_model.py:76 | the weather matches are the complete leftmost-match chain |
| Text.Words | ogimet_model.py:44 | `str.split()` gives non-empty words with no white space |
| Text.WordsOfJoin | ogimet_model.py:44 | splitting words joined by spaces gives the words back |
| Text.NoWordsIffSpace | ogimet_model.py:44 | `str.split()` gives no words exactly when the text is all white space |
| Text.WordsOfSpaced | ogimet_model.py:44 | non-empty words without white space, laid out between non-empty runs of white space with any white space before and after, split back to exactly those words |
| Text.SpacedForm | ogimet_model.py:44 | every text with a word has that layout around its `split()` words, so the words are its maximal non-space runs, in order |
| Text.SplitOn | ogimet_cgi.py:30 | `split(sep)` gives one more piece than there are separators, none holding one |
| Text.SplitOfJoin | ogimet_cgi.py:38 | splitting pieces joined by a separator they lack gives the pieces back |
| Text.JoinOfSplit | ogimet_cgi.py:38 | joining the pieces of a split gives the text back |
| Text.StripRemovesOnlyOuterSpace | ogimet_cgi.py:30 | `strip()` leaves a contiguous part of the text, with only white space removed at both ends |
| Text.StripEndsNotSpace | ogimet_cgi.py:30 | the stripped text neither starts nor ends with white space |
| Text.IntOfDigits | ogimet_model.py:49 | reading a zero-padded number back gives the number |
| Fetcher.SortInPlace | metar_fetcher.py:14 | the array afterwards is `SortByBegin` of its old contents |
| Fetcher.SortByBeginSorted | metar_fetcher.py:14 | the sort orders requests by begin |
| Fetcher.SortByBeginPermutes | metar_fetcher.py:14 | the sort is a permutation |
| Fetcher.SortByBeginStable | metar_fetcher.py:14 | the sort is stable: requests with equal begins keep their order |
| Fetcher.SortKeepsSorted | metar_fetcher.py:14 | sorting sorted input changes nothing |
| Fetcher.MergeConsecutiveMetarRequests | metar_fetcher.py:12-72 | the caller's list is sorted in place and the result is `Merge` of the original list |
| Fetcher.StepGrowsGroup | metar_fetcher.py:30-61 | a step that pushes nothing keeps the group's station and begin and never lowers its end; a step that pushes opens a group at the request |
| Fetcher.CoalesceCount | metar_fetcher.py:16-72 | no groups iff no requests; never more groups than requests |
| Fetcher.MergeCount | metar_fetcher.py:12-72 | the same for the whole function |
| Fetcher.CoalesceTraced | metar_fetcher.py:23-70 | every group has header `no`, and its begin and end are those of input requests for its one station |
| Fetcher.MergeTraced | metar_fetcher.py:12-72 | the same for the whole function |
| Fetcher.CoalesceOrdered | metar_fetcher.py:23-61 | on sorted input the groups' begins never decrease |
| Fetcher.MergeOrdered | metar_fetcher.py:12-72 | the groups' begins never decrease |
| Fetcher.CoalesceCovers | metar_fetcher.py:31-61 | on sorted input every request lies inside a group for its station |
| Fetcher.MergeCovers | metar_fetcher.py:12-72 | every request lies inside a group for its station, whatever the input order |
| Fetcher.MergeWellFormed | metar_fetcher.py:12-72 | if every request has begin <= end, so has every group |
| Fetcher.FourWeekSplitExample | metar_fetcher.py:36-48 | past four weeks the group is pushed including the request, which then starts a new group; the first group spans more than four weeks |
| Fetcher.EndSlackExample | metar_fetcher.py:31-32 | an overlapping request ending more than a day after the group starts a new group |
| Fetcher.DailyWindowsExample | metar_fetcher.py:31-61 | daily windows merge across consecutive days and split at a missing day |
| Fetcher.StationsKeptApartExample | metar_fetcher.py:31 | requests for different stations are never merged |
| Fetcher.UnsortedInputExample | metar_fetcher.py:14 | requests given out of order are sorted before merging |
| Fetcher.BeginNotTestedExample | metar_fetcher.py:31-32 | a request starting long after the group but ending within the slack is absorbed |
| OgimetCgi.ResponseLines | ogimet_cgi.py:30-34 | no line holds a newline; the lines joined by newlines give the stripped body back, after one leading line when a header was asked for |
| OgimetCgi.FormatResponse | ogimet_cgi.py:30-44 | the loop's output is `Reformatted` of the response lines |
| OgimetCgi.FormatLines | ogimet_cgi.py:36-44 | the loop's output over any list of lines is `Reformatted` of that list |
| OgimetCgi.FormatLineOfFields | ogimet_cgi.py:38-42 | seven comma-free fields joined by commas form a report line, and reformatting it gives the five date fields, a space, then the report; the station field is dropped |
| OgimetCgi.ReportLineHasSixCommas | ogimet_cgi.py:38-39 | a line gives output iff it has exactly six commas |
| OgimetCgi.ReformattedAppend | ogimet_cgi.py:37-43 | lines are handled independently and in order |
| OgimetCgi.ReformattedSingle | ogimet_cgi.py:38-43 | a single line gives its reformatted form if it is a report, nothing otherwise |
| OgimetCgi.ReformattedCount | ogimet_cgi.py:36-44 | never more output than lines; all reports give one output each; no reports give no output |
| OgimetCgi.HeaderDropsFirstLine | ogimet_cgi.py:33-34 | with a header, the output is that of the same body without its first line |
| OgimetCgi.CsvLineReformatted | ogimet_cgi.py:38-42 | a well-formed upstream CSV line is kept and becomes timestamp, space, report |
| OgimetCgi.ReformattedLineParses | ogimet_cgi.py:40-42 | the rewritten line's first token reads back as the report time, and `Metar` parses it whenever the report has three words |
| OgimetCgi.StampLineWords | ogimet_cgi.py:40-42 | the words of the rewritten line are the timestamp followed by the report's words |
| OgimetCgi.DecodeAtStamp | ogimet_model.py:44-49 | a line of at least four words whose first word is a timestamp parses, at that time |

## Left out

- The HTTP request of `fetch_metar` and its printing. The model takes the response body as input.
- `fetch_metars`: time zones and daylight saving go through a foreign library, and cache lookups are SQLite queries. The model starts from the list of requests it builds.
- `Metar.from_db_row`: storage deserialisation through `literal_eval` and `fromisoformat`.
- `ogimet_utils.py`, `ogimet.py` and `metar_analysis.py` are not part of this model: they are database, browser and network code.
- `Metar(None)`: the `raw is not None` guard is not modelled. Reports are always strings here.
- `is_flyable` thresholds are integers. Every checked field is an integer, so a finite float threshold behaves like an integer one (`x >= 1500.5` iff `x >= 1501`, `x <= 14.5` iff `x <= 14`). NaN and infinite thresholds are not modelled. Neither are keyword arguments of other types, other than a list of strings for `bad_weather`, nor unknown keywords.
- MetarModel.ParseStamp: accepts exactly twelve ASCII digits that form a valid date. `strptime` also accepts some shorter field widths, and `strptime` and `int()` also accept other Unicode decimal digits. Neither is modelled.
- MetarScan: `\d` is ASCII digits only. Python's `\d` also matches other Unicode decimal digits, which are not modelled.
- Fetcher.Request: times are whole minutes, not `%Y%m%d%H%M` strings. Parsing and printing such a string is an order-preserving bijection with minutes, so it is not modelled, and neither are malformed timestamps, which would raise `ValueError`.
- Fetcher.MergeConsecutiveMetarRequests: `current` is a local value, not a shared dictionary. No other reference to it exists in the source, so mutating it in place is the same as replacing it.
- Fetcher.SortInPlace: an insertion sort stands in for Python's Timsort. Both are stable sorts by the same key, so they give the same result.
- MetarProperties.FlyableScenario: the record is written out field by field. The model does not run the regular expressions over the example report text.
