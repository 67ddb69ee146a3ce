# imp_pn: EP5 rotations and DGFiP chancellery rates, modelled in Dafny

The repository helps an airline crew member prepare their tax return. It has two parts.

- **The EP5 analysis** (`ep5_app.py`). An EP5 is a monthly flight-duty statement. Each
  matching line of an EP5 page is a flight segment. The segment has an aircraft type and
  registration, a departure airport, day and `H.dd` time, and an arrival airport and day.
  - The bare days are resolved against the month and year read from the file name. An
    arrival day smaller than the departure day rolls over into the next month, or into
    January of the next year.
  - The segments are sorted by departure date and time.
  - A two-state loop cuts the sorted segments into rotations. A rotation opens on a
    departure from a home base (CDG or ORY) and closes on the next segment that arrives at
    a home base.
  - `analyse_missions` gathers the rotations of every EP5 page of every file and
    deduplicates them by dates and itinerary. It sorts them, picks the predominant year and
    counts aircraft types and registrations.
  - The reference data is also part of the model: airport directory rows, the per-diem
    schedules of a year (grouped by code and sorted newest first), the tax-location code of
    a stopover, and the per-diem amount in force on a day.
- **The chancellery rates** (`dgfip_data.py`). The DGFiP publishes three tab-separated
  text files:
  - Webpays: country names;
  - Webmiss: per-diem scales, with amounts in ten-thousandths;
  - Webtaux: exchange rates.

  Their readers build per-code tables. Each Webmiss list is deduplicated and sorted newest
  first. Further operations look up the rate or the scale in force on a day and compute the
  start, end and mean rates of a year. For one code and one year, a selection step picks
  the scales to print: the scales of the year, the last one before it, and a last-resort
  scale. It then keeps one row per date and currency, sorted by date.

The model is a set of Dafny modules.
- `Wrappers`: `Option`.
- `Text`: strip, split, digits, the string order.
- `Calendar`: proleptic Gregorian dates, ISO and `dd/mm/yyyy` forms, day counts.
- `Sequences`: a stable sort, first-occurrence deduplication, grouping, first-match search.
- `Ep5Parse`, `Ep5Rotations`, `Ep5Page`, `Ep5RotationFacts`, `Ep5Reference`, `Ep5Missions`:
  the EP5 analysis.
- `DgfipParse`, `DgfipRates`: the chancellery rates.

Loops and in-place updates of the source are methods with loop invariants. Each is proved
equal to a specification function. The properties are lemmas about those functions.
Dictionaries updated in place are `map` values that the methods rebuild and return. Python
list sorts are the verified stable insertion sort `Sequences.SortBy`.

Where the code and the design description of the system disagree, the model follows the
code:
- Rotations are deduplicated on (departure date, return date, whole itinerary), not on
  (departure date, return date, departure airport, arrival airport).
- The predominant year is the greatest year string of the kept rotations, not the most
  frequent one.
- The indemnity of every rotation is the placeholder 0.0 the code computes, so the total is
  0.0.
- One unreadable row empties the whole per-diem table of a year.

Dates in `dgfip_data.py` are ISO 8601 calendar dates in the extended format `YYYY-MM-DD`
(section 5.2.1.1 of ISO 8601:2004), and the source compares them as strings.
`Calendar.IsoOrder` and `DgfipRates.IsoDatesOrder` prove that on such strings the string
order is the chronological order. The lookups are proved both in the source's string terms
and in calendar terms.

## Model

| member | source | states |
|---|---|---|
| Ep5Parse.ResolveDay | ep5_app.py:101-111 | a resolved date is a real date carrying the given day; resolved against a departure date it is never before that departure |
| Ep5Parse.ResolveWithoutAnchor | ep5_app.py:101-110 | without a departure date the day is taken in the reference month and year, and an impossible date is rejected |
| Ep5Parse.ResolveSameMonth | ep5_app.py:105-110 | a day at or after the departure day that exists in the departure month stays in that month |
| Ep5Parse.ResolveEqualDay | ep5_app.py:105-110 | an arrival on the departure day never rolls over |
| Ep5Parse.ResolveNextMonth | ep5_app.py:105-110 | before December a smaller day moves to the next month of the same year, or is rejected when that month lacks the day |
| Ep5Parse.ResolveNewYear | ep5_app.py:107-109 | in December a smaller day moves to January of the next year |
| Ep5Parse.ResolveJuneRollover | ep5_app.py:101-111 | departure 29 June 2024 with arrival day 2 arrives 2 July 2024 |
| Ep5Parse.FractionValue | ep5_app.py:97 | the fraction padded on the right with '0' to two characters reads as hundredths (one digit counts tens) |
| Ep5Parse.DecodeDigits | ep5_app.py:95-97 | `H.f` decodes to (H, f padded to two digits) |
| Ep5Parse.DecodeWholeHours | ep5_app.py:98 | a time without a dot decodes as (H, 0) |
| Ep5Parse.DecodeBadHours | ep5_app.py:97-99 | a non-integer hour part decodes as (0, 0) |
| Ep5Parse.DecodeEncode | ep5_app.py:95-99 | decoding reads back every hour and two-digit minute written as `H.mm` |
| Ep5Parse.ExtractSegment | ep5_app.py:126-137 | a recorded segment carries the line's airports, aircraft, line index and file, departs in the reference month, is well dated, and is rejected exactly when one of its days does not resolve |
| Ep5Parse.SegmentLeTotal | ep5_app.py:138 | the (departure date, departure time) key is a total preorder |
| Ep5Parse.SortSegments | ep5_app.py:138 | the segments sorted by that key, a permutation of the input |
| Ep5Rotations.LineSegment | ep5_app.py:121-137 | a line yields at most one well-dated segment, recording its own index and the file |
| Ep5Rotations.ExtractedExactly | ep5_app.py:119-137 | the extracted segments are exactly those of the lines that yield one; a bad line drops only itself |
| Ep5Rotations.PageSegments | ep5_app.py:118-138 | the segment list is sorted by departure and is a permutation of the extracted segments, all well dated |
| Ep5Rotations.ScanBounds | ep5_app.py:141-160 | closed runs hold at least two segments, come in order and do not overlap; an open run starts after them |
| Ep5Rotations.ScanShape | ep5_app.py:144-160 | every run starts with a departure from a base and ends with its first later arrival at a base |
| Ep5Rotations.ScanGaps | ep5_app.py:144-149 | a segment outside every run and before the open one does not leave a base |
| Ep5Rotations.CollapseShape | ep5_app.py:156 | collapsing keeps the first and last airport, leaves no equal neighbours and keeps exactly the airports |
| Ep5Rotations.LoopSkip | ep5_app.py:145-146 | idle, a segment not leaving a base changes nothing |
| Ep5Rotations.LoopOpen | ep5_app.py:145-149 | idle, a departure from a base opens a rotation with its two airports and itself |
| Ep5Rotations.LoopExtend | ep5_app.py:150-152 | open, a segment not arriving at a base is appended with its arrival airport |
| Ep5Rotations.LoopClose | ep5_app.py:150-160 | open, an arrival at a base closes the rotation with its dates, inclusive duration and collapsed itinerary, and resets the state |
| Ep5Rotations.LoopEnd | ep5_app.py:144-161 | at the end of the page the rotations gathered are those of the page's runs; an open run is dropped |
| Ep5Page.ExtractSegments | ep5_app.py:119-137 | the line loop appends exactly the extracted segments, in line order |
| Ep5Page.BuildRotations | ep5_app.py:141-161 | the two-state loop returns the rotations of the runs of the sorted segments |
| Ep5Page.AnalysePage | ep5_app.py:118-161 | the page gives the sorted segments and the rotations cut from them |
| Ep5RotationFacts.RotationBoundaries | ep5_app.py:144-160 | each rotation is a run of at least two segments from a departure at a base to the first later arrival at a base, dated by those two segments |
| Ep5RotationFacts.RotationsDisjoint | ep5_app.py:144-160 | rotations follow the segment order and share no segment |
| Ep5RotationFacts.NoRotationMissed | ep5_app.py:144-160 | a departure from a base in no rotation lies in a run that nothing later closes |
| Ep5RotationFacts.UnclosedDropped | ep5_app.py:141-161 | segments after which no arrival at a base follows belong to no rotation |
| Ep5RotationFacts.RotationItinerary | ep5_app.py:148-156 | the itinerary starts and ends at a base, has no equal neighbours, and names exactly the first departure and every arrival |
| Ep5RotationFacts.RunDuration | ep5_app.py:154-155 | a run whose last arrival is not before its first departure lasts at least one day |
| Ep5RotationFacts.RotationDuration | ep5_app.py:130-155 | every rotation of a page returns on or after its departure and lasts at least one day |
| Ep5RotationFacts.NewYorkRoundTrip | ep5_app.py:141-161 | CDG to JFK on 5 June and back on 12 June 2024 give one 8-day rotation CDG, JFK, CDG |
| Ep5Reference.TaxCode | ep5_app.py:51-59 | the tax code is the country code or one of the six location codes |
| Ep5Reference.TaxCodeDefault | ep5_app.py:52-59 | an airport no override names keeps its country code |
| Ep5Reference.TaxCodeOverrides | ep5_app.py:53-58 | each override in its order of precedence: Tokyo, New York or EWR, then the airport lists of Toronto, Vancouver, Lomé and Nigeria whenever neither city override applies |
| Ep5Reference.TaxCodeExamples | ep5_app.py:53-54 | EWR is New York; any airport of Tokyo is Tokyo |
| Ep5Reference.OrNotAvailable | ep5_app.py:32-34 | a blank field becomes "N/A", so no field is empty |
| Ep5Reference.AirportTableEntries | ep5_app.py:27-39 | the directory holds exactly the codes of rows with a code, each from its last row, with no empty field |
| Ep5Reference.LoadAirports | ep5_app.py:19-45 | a missing column gives an empty directory; otherwise the directory of the rows |
| Ep5Reference.SortSchedule | ep5_app.py:82-83 | each schedule is sorted newest first and is a permutation of its rows |
| Ep5Reference.GroupRows | ep5_app.py:76-81 | the reading loop succeeds exactly when every row reads, grouping the rates by code in row order |
| Ep5Reference.LoadIndemnityData | ep5_app.py:62-86 | missing exactly when neither path exists; loaded gives the grouped, sorted table; a bad row gives an empty table |
| Ep5Reference.IndemnityTableContents | ep5_app.py:76-84 | each code of the table holds exactly its rows' rates, newest first |
| Ep5Reference.IndemnityTableDefined | ep5_app.py:73-86 | a year's table loads exactly when every row reads |
| Ep5Reference.ApplicableIndemnity | ep5_app.py:88-93 | the amount of the first rate valid on the day, or 0.0 when the code is absent or no rate is valid yet |
| Ep5Reference.ApplicableIsNewest | ep5_app.py:88-93 | on a schedule sorted newest first the rate found is the newest valid on the day |
| Ep5Reference.NewYorkPerDiem | ep5_app.py:88-93 | a two-rate New York schedule gives the right rate before and after the change, and 0.0 for an absent code |
| Ep5Missions.DatePattern | ep5_app.py:181 | the pattern matches at the first position holding four digits, and nowhere when there is none |
| Ep5Missions.FilenameDate | ep5_app.py:180-189 | the month read from a file name is 1 to 12, or both month and year stay 0 |
| Ep5Missions.FilenameLongStamp | ep5_app.py:181-188 | a month then a four-digit year is read as that month and year |
| Ep5Missions.FilenameShortStamp | ep5_app.py:187 | a month then a two-digit year not followed by a digit is read as year 20yy |
| Ep5Missions.FilenameNoMonth | ep5_app.py:184-185 | a first group that is no month leaves the date at (0, 0), with no later match tried |
| Ep5Missions.FilenameExamples | ep5_app.py:180-189 | `planning_062024.pdf` is June 2024; `vol_20240615.pdf` gives no date, since 20 is no month |
| Ep5Missions.UniqueRotations | ep5_app.py:216-223 | the kept rotations are sorted by departure and are the first rotation of each key |
| Ep5Missions.UniqueRotationsShape | ep5_app.py:216-223 | the kept rotations are sorted, carry each key once, lose no key, and are exactly the first of each key |
| Ep5Missions.UniqueRotationsIdempotent | ep5_app.py:216-223 | deduplicating and sorting twice is doing it once |
| Ep5Missions.DuplicateAcrossFiles | ep5_app.py:218-222 | the same rotation read from two files is kept once, from the first file |
| Ep5Missions.PredominantYear | ep5_app.py:226 | the predominant year is the year of some kept rotation, and no kept rotation has a greater one as a string |
| Ep5Missions.TableByDeparture | ep5_app.py:223-241 | the table lines go by departure date |
| Ep5Missions.KeptAreRead | ep5_app.py:216-241 | each table line is the line of a rotation read |
| Ep5Missions.ReadAreKept | ep5_app.py:216-241 | every rotation read has the line of the rotation kept for its dates and itinerary |
| Ep5Missions.IsEp5PageAt | ep5_app.py:203 | a page is kept exactly when three consecutive characters spell `EP5` in any letter case |
| Text.ContainsAt | ep5_app.py:203 | `sub in s` holds exactly when `sub` occurs at some position of `s` |
| Ep5Missions.AnalyseFile | ep5_app.py:199-207 | the page loop of one file gives the tagged rotations and segments of its EP5 pages |
| Ep5Missions.CollectFiles | ep5_app.py:171-210 | the file loop gathers every file's rotations and segments in order, and one load message per new year plus one warning per failed file |
| Ep5Missions.LoadOnce | ep5_app.py:193-197 | a year's per-diem data is loaded, and its message kept, only the first time the year is met |
| Ep5Missions.CollectStep | ep5_app.py:171-210 | what one more file adds to the rotations, segments, years and warnings |
| Ep5Missions.BuildTable | ep5_app.py:227-242 | the table loop gives one line per rotation and a total of 0.0 |
| Ep5Missions.Summarise | ep5_app.py:212-255 | no rotations gives only the warnings; otherwise deduplicated sorted rotations, the greatest year string, a 0.0 total and the aircraft counts |
| Ep5Missions.AnalyseMissions | ep5_app.py:163-255 | the whole assembly over the files, as the two parts above state |
| Text.LexMax | ep5_app.py:226 | the predominant year is one of the years and no year is greater as a string |
| Sequences.Counts | ep5_app.py:248-255 | each aircraft type or registration is counted exactly as often as it occurs |
| Sequences.SortBy | ep5_app.py:223 | sorted, and a permutation of its input |
| Sequences.SortByStable | ep5_app.py:223 | the sort is stable: the elements tied with any element keep their input order |
| Sequences.KeepFirst | ep5_app.py:216-222 | the seen-set loop keeps the first element of each key, in order |
| Sequences.DedupKeys | ep5_app.py:216-222 | the kept elements carry each key once, cover every key and come from the input |
| Sequences.DedupIdempotent | ep5_app.py:216-222 | keeping first occurrences twice is doing it once |
| Sequences.FirstIndex | dgfip_data.py:185-189 | the first index whose element satisfies the test, or none when none does |
| Calendar.MakeDate | ep5_app.py:110 | a date is built exactly when it is a real Gregorian date |
| Calendar.ParseIsoString | dgfip_data.py:289 | a date's `%Y-%m-%d` form reads back as the date |
| Calendar.ParseDmyString | dgfip_data.py:115 | a date's `%d/%m/%Y` form reads back as the date |
| Calendar.IsoOrder | dgfip_data.py:188 | on ISO forms the string order is the chronological order, strict and non-strict |
| DgfipParse.StorageCode | dgfip_data.py:51 | the storage mapping never changes a code |
| DgfipParse.WebpaysEntry | dgfip_data.py:76-84 | an accepted Webpays line has a non-empty code that is not BU, EU, MC, PS or XC |
| DgfipParse.NameCountryEnriches | dgfip_data.py:85-89 | one record adds its code with no scales, or renames a known code only when its name was empty or the code |
| DgfipParse.NameCountriesEnriches | dgfip_data.py:75-89 | applying the records keeps every code and scale and adds exactly the records' codes |
| DgfipParse.NameLines | dgfip_data.py:75-89 | the line loop applies the accepted records in order |
| DgfipParse.Webpays | dgfip_data.py:71-91 | the table is the initial copy with the accepted lines applied in order |
| DgfipParse.WebpaysEffect | dgfip_data.py:71-91 | Webpays keeps every code and scale, adds exactly the codes of its accepted lines, never an excluded one, and renames only empty or placeholder names |
| DgfipParse.WebpaysNames | dgfip_data.py:85-89 | a known name is kept, a placeholder equal to the code is replaced, a new code is added |
| DgfipParse.FormatAmountDigits | dgfip_data.py:93-98 | four or more digits denote their value in ten-thousandths |
| DgfipParse.FormatAmountPadded | dgfip_data.py:93-98 | writing an amount with at least four digits and reading it gives the amount back |
| DgfipParse.FormatAmountShort | dgfip_data.py:94 | an empty text or one shorter than four characters reads as 0 |
| DgfipParse.FormatAmountNotNumber | dgfip_data.py:95-98 | a text that does not read as a number once the point is put in reads as 0 |
| DgfipParse.FormatAmountRejects | dgfip_data.py:94-98 | examples: the empty text, a three-character text and one with a letter read as 0 |
| DgfipParse.FormatAmountPlain | dgfip_data.py:95-97 | "1234567" is 123.4567 |
| DgfipParse.FormatAmountSigned | dgfip_data.py:95-97 | "-12345" is -1.2345, as `float` reads it |
| DgfipParse.WebmissEntry | dgfip_data.py:106-117 | an accepted Webmiss line has a code and a currency |
| DgfipParse.WebmissEntryAccepted | dgfip_data.py:106-121 | a line is accepted exactly when its four fields are present, its date reads and is at most five years ahead; its scale is then dated in ISO form by that date, with the currency upper-cased and the amount decoded |
| DgfipParse.NewestFirstOrders | dgfip_data.py:142 | the (date, -amount) reversed key is a total preorder |
| DgfipParse.NormaliseScalesShape | dgfip_data.py:132-143 | a normalised list is sorted newest first, holds no scale twice, and holds exactly the scales of the list |
| DgfipParse.NormaliseIdempotent | dgfip_data.py:132-143 | normalising twice is normalising once |
| DgfipParse.AppendScales | dgfip_data.py:118-121 | one step creates the entry from the initial name when the code is new, then appends, as `Extend` defines it |
| DgfipParse.ExtendAllContents | dgfip_data.py:118-130 | after appending, a code is present exactly when it was or got scales, and its list ends with its appended scales in order |
| DgfipParse.ExtendAllKeys | dgfip_data.py:118-130 | appending adds exactly the codes appended to |
| DgfipParse.ExtendAllBase | dgfip_data.py:118-130 | each code's entry is its old or created entry with its scales appended in order |
| DgfipParse.ScaleLines | dgfip_data.py:105-123 | the line loop appends every accepted line's scale to its code, in line order |
| DgfipParse.ExtendManual | dgfip_data.py:125-130 | the manual loop appends each manual list to its code |
| DgfipParse.NormaliseEntry | dgfip_data.py:133-143 | one code's list loses its later duplicates and is sorted newest first |
| DgfipParse.NormaliseAll | dgfip_data.py:132-143 | every code's list normalised, the codes unchanged |
| DgfipParse.Normalised | dgfip_data.py:132-143 | normalising keeps the codes |
| DgfipParse.Webmiss | dgfip_data.py:100-145 | the lines' scales, then the manual ones, appended, then every list normalised |
| DgfipParse.WebmissContents | dgfip_data.py:100-145 | after Webmiss the codes are the known, read and manual ones; each keeps its name and markers, and its list holds exactly its old, read and manual scales, each once, newest first |
| DgfipParse.WebtauxEntry | dgfip_data.py:167-181 | an accepted Webtaux line has a currency other than ZWR |
| DgfipParse.LaterFirstOrders | dgfip_data.py:182 | the reversed date key is a total preorder |
| DgfipParse.RateLines | dgfip_data.py:167-181 | the line loop groups the accepted rates by currency in line order |
| DgfipParse.Webtaux | dgfip_data.py:163-183 | the accepted rates grouped by currency, each list sorted newest first |
| DgfipParse.WebtauxContents | dgfip_data.py:163-183 | the currencies are those read, never ZWR; each list holds its rates as often as read, newest first |
| DgfipRates.IsoDatesOrder | dgfip_data.py:188 | on ISO date strings, string order and chronological order agree |
| DgfipRates.IsoStringIsoDate | dgfip_data.py:215 | the `%Y-%m-%d` form of a valid date is an ISO date that reads back as the date |
| DgfipRates.ApplicableRate | dgfip_data.py:185-189 | a rate is found exactly when some entry is dated at most the target; it is the first such entry's rate |
| DgfipRates.ApplicableRateNewest | dgfip_data.py:185-189 | on a list sorted newest first the rate found is that of the latest entry dated at most the target |
| DgfipRates.ApplicableRateOnDay | dgfip_data.py:185-189 | in calendar terms the rate found is the one in force on the day, and none is found only when no entry is in force |
| DgfipRates.StartBeforeEnd | dgfip_data.py:192 | 1 January precedes 31 December as strings |
| DgfipRates.StartFoundImpliesEnd | dgfip_data.py:200-203 | a rate found for 1 January implies one found for 31 December |
| DgfipRates.YearRatesShape | dgfip_data.py:198-210 | the three rates are all present or all absent; the end rate is the 31 December one, the start rate is the 1 January one or else the end rate, and the mean is their mean |
| DgfipRates.CurrencyRates | dgfip_data.py:199-210 | one currency's lookups, fallback and mean |
| DgfipRates.AnnualRates | dgfip_data.py:191-211 | the loop fills the fixed currencies, then every other currency of the history |
| DgfipRates.AnnualTableContents | dgfip_data.py:191-211 | EUR is 1 and XAF and XOF are 655.957 whatever the history holds; every other currency of the history gets its year's rates, and no other currency appears |
| DgfipRates.IndemnityOnDate | dgfip_data.py:213-221 | a scale is found exactly when some scale is dated at most the day's ISO form; it is the first such scale |
| DgfipRates.IndemnityOnDateNewest | dgfip_data.py:213-221 | on a normalised list the scale found is the one in force on the day |
| DgfipRates.CollectInYear | dgfip_data.py:284-294 | the first loop keeps, in order, exactly the scales dated in the year |
| DgfipRates.FindNewestBefore | dgfip_data.py:297-307 | the search with `break` finds the first scale dated strictly before 1 January |
| DgfipRates.NewestBeforeOnDay | dgfip_data.py:296-307 | on a normalised list that scale is the newest one strictly before the day, and is absent only when none is |
| DgfipRates.Select | dgfip_data.py:281-330 | the loops, the flag and the last resort compute the year's candidates |
| DgfipRates.SelectionMembers | dgfip_data.py:281-330 | the candidates are the scales of the year, plus the one before 1 January unless a scale of the year starts that day, plus the first scale when there is neither |
| DgfipRates.CandidatesMembers | dgfip_data.py:281-330 | the same, for the year as the source tests it |
| DgfipRates.YearString | dgfip_data.py:290 | a four-digit year string reads as its year, and its first day string is 1 January of that year |
| DgfipRates.InYearOnDay | dgfip_data.py:289-290 | a scale is of a four-digit year exactly when its date falls in that year |
| DgfipRates.DateThenLargestOrders | dgfip_data.py:337 | the (date, -amount) key is a total preorder |
| DgfipRates.EarlierFirstOrders | dgfip_data.py:348 | the date key is a total preorder |
| DgfipRates.SelectYearRows | dgfip_data.py:281-348 | the row selection of one code computes the year's rows |
| DgfipRates.YearRowsShape | dgfip_data.py:332-348 | the rows are sorted by date, hold each date and currency once, are candidates and cover every candidate's date and currency; a code with scales has rows |
| DgfipRates.YearRowsLargest | dgfip_data.py:335-345 | the row kept for a date and currency has the largest amount among the candidates with them |
| DgfipRates.KeptLargest | dgfip_data.py:337-345 | after the (date, -amount) sort, the first scale of a date and currency has the largest amount |

## Left out

- Regular expressions. The EP5 line pattern (`ep5_app.py:113-116`) is the parameter `matchLine`, which returns the captured groups. The two name-cleaning substitutions of Webpays are the parameter `cleanName`. The file-name pattern is modelled directly, over ASCII digits (see below).
- PDF reading. Each file is given as its pages' text and whether reading raised. Opening the file and extracting the text are outside the model.
- CSV reading through pandas. The airport and per-diem files are given as rows already read. Whether a file exists is the parameter `fileExists`.
- HTTP download (`telecharger_fichier_dgfip`), CSV writing, directory creation and the `__main__` orchestration of `dgfip_data.py`.
- The outer per-country loop of `generer_csv_final`, its rate columns, and the conversion `round(amount / rate, 2)`. The model covers the row selection for one code.
- Floating point. `formater_taux_webtaux` (the parse and the reciprocal) is the parameter `decodeRate`. The mean of two rates is the parameter `mean`. Python's `float` of a per-diem amount is the parameter `parseAmount`. Rates are `real`. Webmiss amounts are exact integers in ten-thousandths, so the source's `float` identity in deduplication is integer equality.
- `calculer_moyenne_indemnites_europe`: floating-point averages, not part of this model.
- DgfipParse.FormatAmount reads an optional sign and digits. It does not accept the other spellings Python's `float` takes (exponents, underscores, surrounding spaces, `inf`, `nan`), which Webmiss amounts do not use.
- Text.Upper upper-cases ASCII letters only. Python's `str.upper` also maps other Unicode letters.
- Text.ParseInt, Calendar.DayField and Ep5Missions.DatePattern read ASCII digits `0`-`9` only. Python's `\d`, the `%Y`/`%m`/`%d` fields of `strptime` and `int()` also accept the other Unicode decimal digits. `int()` also accepts underscores between digits (`"2_025"`). `%d` also accepts a space followed by one digit (`" 5"`). The model rejects these spellings; the dates, years and file names the files hold use ASCII digits.
- The type checks of the source (`isinstance`, three-element lists, string dates). Every record of the model is well formed, so the branches that skip malformed items never apply.
- The manual per-diem dictionary of `traiter_webmiss` is a sequence of (code, scales) pairs, in the dictionary's insertion order.
- DgfipParse.Webmiss works on values, so nothing is shared between calls. In the source, `{k: v.copy() ...}` (`dgfip_data.py:72`, `:395`) copies each entry's dictionary but not its `"a"` list. The `append` of line 121 and the `extend` of line 130 therefore also grow the lists held in the global `PAYS_INITIAUX_ET_CORRECTIONS`, and the next year of `__main__` (`dgfip_data.py:386-405`) starts from lists that already hold the previous year's raw scales. The model does not capture this accumulation across years. With an unchanged Webmiss file, deduplication hides it.
- DgfipParse.WebmissResult takes the name table as the parameter `initial`. The source reads the global `PAYS_INITIAUX_ET_CORRECTIONS`, which is `DgfipParse.InitialCountries`.
- DgfipRates.YearRates omits the branch `elif taux_debut_eur_d is not None` (`dgfip_data.py:207-208`). After the fallback of lines 202-203, both rates are present or both are absent, so that branch can never run.
- Messages printed to the console, `st.cache_data` caching, the `strftime("%B %Y")` month label (the table keeps the date), and the pandas frames of the aircraft counts (kept as a map from value to count).
- Dates are limited to years 1 to 9999, as Python's `date` is.
