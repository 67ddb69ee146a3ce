/**
  `analyse_missions`: every EP5 page of every PDF analysed, the rotations tagged with the
  year of their file, deduplicated and sorted, the predominant year, the table of
  rotations with its placeholder indemnities, and the aircraft counts.
*/
module Ep5Missions {
  import opened Wrappers
  import opened Text
  import opened Calendar
  import opened Sequences
  import opened Ep5Parse
  import opened Ep5Rotations
  import opened Ep5Page
  import opened Ep5Reference

  // ---------------------------------------------------------------- the month and year of a file name

  /** Four ASCII digits start at position `j` of `s`. */
  predicate FourDigitsAt(s: string, j: nat)
  {
    j + 4 <= |s| && IsDigit(s[j]) && IsDigit(s[j + 1]) && IsDigit(s[j + 2]) && IsDigit(s[j + 3])
  }

  /** `int(s[j:j + 2])` on two digits. */
  function TwoDigitsAt(s: string, j: nat): nat
    requires j + 2 <= |s| && IsDigit(s[j]) && IsDigit(s[j + 1])
  {
    10 * DigitValue(s[j]) + DigitValue(s[j + 1])
  }

  /**
    Where `re.search(r"(\d{2})(\d{4}|\d{2})", s[from:])` matches: the first position with
    four digits, since two digits followed by two or four more is four digits at least.
    `\d` is read as an ASCII digit.
  */
  function DatePattern(s: string, from: nat): (r: Option<nat>)
    ensures r.Some? ==> from <= r.value && FourDigitsAt(s, r.value)
    ensures r.Some? ==> forall j :: from <= j < r.value ==> !FourDigitsAt(s, j)
    ensures r.None? ==> forall j :: from <= j ==> !FourDigitsAt(s, j)
    decreases |s| - from
  {
    if from + 4 > |s| then None
    else if FourDigitsAt(s, from) then Some(from)
    else DatePattern(s, from + 1)
  }

  /**
    The year and month a file name announces, `(0, 0)` when none. The first group is the
    month; the second is four digits when six digits are there, otherwise two, read as
    `20yy`. A first group that is no month leaves both at zero: no later match is tried.
  */
  function FilenameDate(name: string): (r: (nat, nat))
    ensures 1 <= r.1 <= 12 || r == (0, 0)
  {
    match DatePattern(name, 0)
    case None => (0, 0)
    case Some(i) =>
      var month := TwoDigitsAt(name, i);
      if 1 <= month <= 12 then
        if FourDigitsAt(name, i + 2) then (100 * TwoDigitsAt(name, i + 2) + TwoDigitsAt(name, i + 4), month)
        else (2000 + TwoDigitsAt(name, i + 2), month)
      else (0, 0)
  }

  predicate NoDigits(s: string)
  {
    forall k :: 0 <= k < |s| ==> !IsDigit(s[k])
  }

  /** Four digits right after a prefix without digits are the first match. */
  lemma StampFound(s: string, prefix: string)
    requires NoDigits(prefix) && |prefix| <= |s| && s[..|prefix|] == prefix && FourDigitsAt(s, |prefix|)
    ensures DatePattern(s, 0) == Some(|prefix|)
  {
    forall j | 0 <= j < |prefix| ensures !FourDigitsAt(s, j) {
      assert s[j] == s[..|prefix|][j];
    }
  }

  /** After a prefix without digits, a month then a four-digit year: both are read. */
  lemma FilenameLongStamp(prefix: string, m1: char, m2: char, y1: char, y2: char, y3: char, y4: char, suffix: string)
    requires NoDigits(prefix) && IsDigit(m1) && IsDigit(m2) && IsDigit(y1) && IsDigit(y2) && IsDigit(y3) && IsDigit(y4)
    requires 1 <= 10 * DigitValue(m1) + DigitValue(m2) <= 12
    ensures FilenameDate(prefix + [m1, m2, y1, y2, y3, y4] + suffix) ==
      (1000 * DigitValue(y1) + 100 * DigitValue(y2) + 10 * DigitValue(y3) + DigitValue(y4), 10 * DigitValue(m1) + DigitValue(m2))
  {
    var s := prefix + [m1, m2, y1, y2, y3, y4] + suffix;
    var i := |prefix|;
    assert s[..i] == prefix;
    assert s[i] == m1 && s[i + 1] == m2 && s[i + 2] == y1 && s[i + 3] == y2 && s[i + 4] == y3 && s[i + 5] == y4;
    StampFound(s, prefix);
  }

  /** After a prefix without digits, a month then a two-digit year not followed by a digit: `20yy`. */
  lemma FilenameShortStamp(prefix: string, m1: char, m2: char, y1: char, y2: char, suffix: string)
    requires NoDigits(prefix) && IsDigit(m1) && IsDigit(m2) && IsDigit(y1) && IsDigit(y2)
    requires 1 <= 10 * DigitValue(m1) + DigitValue(m2) <= 12
    requires suffix == [] || !IsDigit(suffix[0])
    ensures FilenameDate(prefix + [m1, m2, y1, y2] + suffix) ==
      (2000 + 10 * DigitValue(y1) + DigitValue(y2), 10 * DigitValue(m1) + DigitValue(m2))
  {
    var s := prefix + [m1, m2, y1, y2] + suffix;
    var i := |prefix|;
    assert s[..i] == prefix;
    assert s[i] == m1 && s[i + 1] == m2 && s[i + 2] == y1 && s[i + 3] == y2;
    if |suffix| > 0 {
      assert s[i + 4] == suffix[0];
    }
    StampFound(s, prefix);
  }

  /** After a prefix without digits, four digits whose first two are no month: no date at all. */
  lemma FilenameNoMonth(prefix: string, m1: char, m2: char, c3: char, c4: char, suffix: string)
    requires NoDigits(prefix) && IsDigit(m1) && IsDigit(m2) && IsDigit(c3) && IsDigit(c4)
    requires !(1 <= 10 * DigitValue(m1) + DigitValue(m2) <= 12)
    ensures FilenameDate(prefix + [m1, m2, c3, c4] + suffix) == (0, 0)
  {
    var s := prefix + [m1, m2, c3, c4] + suffix;
    var i := |prefix|;
    assert s[..i] == prefix;
    assert s[i] == m1 && s[i + 1] == m2 && s[i + 2] == c3 && s[i + 3] == c4;
    StampFound(s, prefix);
  }

  /** Names the source meets, and one it misreads: a year written first is taken for month 20. */
  lemma FilenameExamples()
    ensures FilenameDate("planning_062024.pdf") == (2024, 6)
    ensures FilenameDate("vol_20240615.pdf") == (0, 0)
  {
    FilenameLongStamp("planning_", '0', '6', '2', '0', '2', '4', ".pdf");
    assert "planning_062024.pdf" == "planning_" + ['0', '6', '2', '0', '2', '4'] + ".pdf";
    FilenameNoMonth("vol_", '2', '0', '2', '4', "0615.pdf");
    assert "vol_20240615.pdf" == "vol_" + ['2', '0', '2', '4'] + "0615.pdf";
  }

  // ---------------------------------------------------------------- what the files hold

  /**
    A PDF as read: the text of each page read (`extract_text() or ""`), and whether reading
    raised after those pages.
  */
  datatype PdfFile = PdfFile(name: string, pages: seq<string>, readError: bool)

  /** A rotation with the year of the file it came from (`"Année_PDF"`). */
  datatype FiledRotation = FiledRotation(rotation: Rotation, pdfYear: string)

  /** The warnings gathered: the message of each per-diem load, and each PDF that failed. */
  datatype Warning = LoadMessage(status: LoadStatus) | PdfFailure(fileName: string)

  /** A line of the table of rotations; the month label of `strftime("%B %Y")` is left to the date. */
  datatype TableRow = TableRow(departure: Date, itinerary: string, indemnity: real)

  datatype Missions =
    | NoResults(warnings: seq<Warning>)
    | Results(table: seq<TableRow>, typeCounts: map<string, nat>, registrationCounts: map<string, nat>,
              total: real, predominantYear: string, warnings: seq<Warning>)

  /** `"EP5" in texte.upper()`. */
  predicate IsEp5Page(text: string)
  {
    Contains(Upper(text), "EP5")
  }

  /** `EP5` spelt in any case from position `i` on. */
  predicate Ep5At(text: string, i: int)
  {
    0 <= i <= |text| - 3 && UpperChar(text[i]) == 'E' && UpperChar(text[i + 1]) == 'P' && text[i + 2] == '5'
  }

  lemma UpperWindow(text: string, i: int)
    ensures OccursAt(Upper(text), "EP5", i) <==> Ep5At(text, i)
  {
    if 0 <= i <= |text| - 3 {
      var w := Upper(text)[i..i + 3];
      assert w[0] == UpperChar(text[i]) && w[1] == UpperChar(text[i + 1]) && w[2] == UpperChar(text[i + 2]);
      assert w == "EP5" <==> w[0] == 'E' && w[1] == 'P' && w[2] == '5';
    }
  }

  /** A page is an EP5 page exactly when some three consecutive characters spell `EP5` in any case. */
  lemma IsEp5PageAt(text: string)
    ensures IsEp5Page(text) <==> exists i :: Ep5At(text, i)
  {
    ContainsAt(Upper(text), "EP5");
    forall i
      ensures OccursAt(Upper(text), "EP5", i) <==> Ep5At(text, i)
    {
      UpperWindow(text, i);
    }
  }

  /** `str(annee_fichier_base)`. */
  function FileYear(f: PdfFile): string
  {
    NatToString(FilenameDate(f.name).0)
  }

  function Tag(rs: seq<Rotation>, year: string): (r: seq<FiledRotation>)
    ensures |r| == |rs| && forall k :: 0 <= k < |rs| ==> r[k].rotation == rs[k] && r[k].pdfYear == year
  {
    seq(|rs|, k requires 0 <= k < |rs| => FiledRotation(rs[k], year))
  }

  /**
    The rotations of the first `n` pages of a file read for `year` and `month`: those of its
    EP5 pages, tagged with `yearText`.
  */
  function PagesRotations(pages: seq<string>, n: nat, year: int, month: int, name: string, yearText: string,
                          matchLine: string -> Option<LineMatch>): seq<FiledRotation>
    requires n <= |pages|
  {
    if n == 0 then []
    else
      PagesRotations(pages, n - 1, year, month, name, yearText, matchLine) +
        if IsEp5Page(pages[n - 1]) then Tag(PageRotations(PageSegments(pages[n - 1], year, month, name, matchLine), name), yearText)
        else []
  }

  /** The segments of the first `n` pages of a file read for `year` and `month`: those of its EP5 pages. */
  function PagesSegments(pages: seq<string>, n: nat, year: int, month: int, name: string,
                         matchLine: string -> Option<LineMatch>): seq<Segment>
    requires n <= |pages|
  {
    if n == 0 then []
    else
      PagesSegments(pages, n - 1, year, month, name, matchLine) +
        if IsEp5Page(pages[n - 1]) then PageSegments(pages[n - 1], year, month, name, matchLine) else []
  }

  /** The rotations of a file, read for the date of its name. */
  function FileRotations(f: PdfFile, matchLine: string -> Option<LineMatch>): seq<FiledRotation>
  {
    var (year, month) := FilenameDate(f.name);
    PagesRotations(f.pages, |f.pages|, year, month, f.name, NatToString(year), matchLine)
  }

  /** The segments of a file, read for the date of its name. */
  function FileSegments(f: PdfFile, matchLine: string -> Option<LineMatch>): seq<Segment>
  {
    var (year, month) := FilenameDate(f.name);
    PagesSegments(f.pages, |f.pages|, year, month, f.name, matchLine)
  }

  /** The rotations of the first `n` files, in file and page order. */
  function FilesRotations(files: seq<PdfFile>, n: nat, matchLine: string -> Option<LineMatch>): seq<FiledRotation>
    requires n <= |files|
  {
    if n == 0 then [] else FilesRotations(files, n - 1, matchLine) + FileRotations(files[n - 1], matchLine)
  }

  /** The segments of the first `n` files, in file and page order. */
  function FilesSegments(files: seq<PdfFile>, n: nat, matchLine: string -> Option<LineMatch>): seq<Segment>
    requires n <= |files|
  {
    if n == 0 then [] else FilesSegments(files, n - 1, matchLine) + FileSegments(files[n - 1], matchLine)
  }

  /** The years of the first `n` files: the keys of `indemnity_data_par_annee` after them. */
  function YearsBefore(files: seq<PdfFile>, n: nat): set<string>
    requires n <= |files|
  {
    if n == 0 then {} else YearsBefore(files, n - 1) + {FileYear(files[n - 1])}
  }

  /**
    The warnings after the first `n` files: for each file, the load message of its year
    when that year is met for the first time, then its failure if reading it raised.
  */
  function Warnings(files: seq<PdfFile>, n: nat, fileExists: string -> bool, yearRows: string -> seq<IndemnityRow>,
                    parseAmount: string -> Option<real>): seq<Warning>
    requires n <= |files|
  {
    if n == 0 then []
    else
      var f := files[n - 1];
      var year := FileYear(f);
      Warnings(files, n - 1, fileExists, yearRows, parseAmount)
        + (if year in YearsBefore(files, n - 1) then [] else [LoadMessage(LoadStatusOf(year, fileExists, yearRows(year), parseAmount))])
        + (if f.readError then [PdfFailure(f.name)] else [])
  }

  // ---------------------------------------------------------------- deduplication and order

  /** `(r["Départ"], r["Retour"], tuple(r["Itinéraire_aéroports"]))`. */
  function RotationKey(r: FiledRotation): (Date, Date, seq<string>)
  {
    (r.rotation.departure, r.rotation.returnDate, r.rotation.itinerary)
  }

  /** `sort(key=lambda r: r["Départ"])`. */
  predicate DepartsNoLater(a: FiledRotation, b: FiledRotation)
  {
    AtOrBefore(a.rotation.departure, b.rotation.departure)
  }

  /** The first rotation of each key, in their order, then stably sorted by departure. */
  function UniqueRotations(rs: seq<FiledRotation>): (u: seq<FiledRotation>)
    ensures SortedBy(u, DepartsNoLater) && multiset(u) == multiset(Dedup(rs, RotationKey))
  {
    assert TotalPreorder(DepartsNoLater);
    SortBy(Dedup(rs, RotationKey), DepartsNoLater)
  }

  /**
    The rotations kept are sorted by departure, carry no key twice, lose no key, and are
    exactly the first rotation of each key.
  */
  lemma UniqueRotationsShape(rs: seq<FiledRotation>)
    ensures var u := UniqueRotations(rs);
      && SortedBy(u, DepartsNoLater)
      && UniqueKeys(u, RotationKey)
      && KeysOf(u, RotationKey) == KeysOf(rs, RotationKey)
      && (forall x :: x in u <==> exists i :: 0 <= i < |rs| && rs[i] == x && IsFirst(rs, i, RotationKey))
  {
    var d := Dedup(rs, RotationKey);
    var u := UniqueRotations(rs);
    DedupKeys(rs, RotationKey);
    UniqueKeysPermutation(d, u, RotationKey);
    assert forall x :: x in u <==> x in d by {
      forall x ensures x in u <==> x in d {
        assert x in u <==> x in multiset(u);
        assert x in d <==> x in multiset(d);
      }
    }
    assert KeysOf(u, RotationKey) == KeysOf(d, RotationKey);
    forall x ensures x in u <==> exists i :: 0 <= i < |rs| && rs[i] == x && IsFirst(rs, i, RotationKey) {
      if x in d {
        DedupOnlyFirsts(rs, RotationKey, x);
      }
      if exists i :: 0 <= i < |rs| && rs[i] == x && IsFirst(rs, i, RotationKey) {
        var i :| 0 <= i < |rs| && rs[i] == x && IsFirst(rs, i, RotationKey);
        DedupKeepsFirst(rs, RotationKey, i);
      }
    }
  }

  /** Deduplicating and sorting twice is doing it once. */
  lemma UniqueRotationsIdempotent(rs: seq<FiledRotation>)
    ensures UniqueRotations(UniqueRotations(rs)) == UniqueRotations(rs)
  {
    var u := UniqueRotations(rs);
    UniqueRotationsShape(rs);
    DedupOfUnique(u, RotationKey);
    assert TotalPreorder(DepartsNoLater);
    SortBySorted(u, DepartsNoLater);
  }

  /** Two rotations with the same dates and itinerary, read from two files: the first is kept. */
  lemma DuplicateAcrossFiles(r: Rotation, other: string)
    ensures UniqueRotations([FiledRotation(r, "2024"), FiledRotation(r.(fileName := other), "2025")]) == [FiledRotation(r, "2024")]
  {
    var x, y := FiledRotation(r, "2024"), FiledRotation(r.(fileName := other), "2025");
    assert [x, y][..1] == [x];
    assert KeysOf([x], RotationKey) == {RotationKey(x)};
    assert Dedup([x], RotationKey) == [x] by {
      assert [x][..0] == [];
    }
    assert Dedup([x, y], RotationKey) == [x];
    assert TotalPreorder(DepartsNoLater);
    SortBySorted([x], DepartsNoLater);
  }

  /** The years of the rotations kept, whose maximum as strings is the predominant year. */
  function Years(u: seq<FiledRotation>): (ys: seq<string>)
    ensures |ys| == |u| && forall k :: 0 <= k < |u| ==> ys[k] == u[k].pdfYear
  {
    seq(|u|, k requires 0 <= k < |u| => u[k].pdfYear)
  }

  /** The line of a rotation: its departure, its airports joined by arrows, and the indemnity 0.0. */
  function Row(r: FiledRotation): TableRow
  {
    TableRow(r.rotation.departure, Join(r.rotation.itinerary, " → "), 0.0)
  }

  /** The table of rotations, one line each, in their order. */
  function Table(u: seq<FiledRotation>): (t: seq<TableRow>)
    ensures |t| == |u| && forall k :: 0 <= k < |u| ==> t[k] == Row(u[k])
  {
    seq(|u|, k requires 0 <= k < |u| => Row(u[k]))
  }

  /**
    The predominant year (`max(annees)`) of the rotations read: the year of some kept
    rotation, and no kept rotation has a greater one as a string.
  */
  lemma PredominantYear(rs: seq<FiledRotation>)
    requires rs != []
    ensures var u := UniqueRotations(rs);
      && |u| > 0
      && (exists k :: 0 <= k < |u| && u[k].pdfYear == LexMax(Years(u)))
      && (forall k :: 0 <= k < |u| ==> LexAtMost(u[k].pdfYear, LexMax(Years(u))))
  {
    var u := UniqueRotations(rs);
    DedupNonEmpty(rs, RotationKey);
    var d := Dedup(rs, RotationKey);
    assert d[0] in multiset(u);
    var ys := Years(u);
    var y := LexMax(ys);
    var k :| 0 <= k < |ys| && ys[k] == y;
    forall m | 0 <= m < |u| ensures LexAtMost(u[m].pdfYear, y) {
      assert ys[m] in ys;
    }
  }

  /** The lines of the table of the rotations read go by departure date. */
  lemma TableByDeparture(rs: seq<FiledRotation>)
    ensures var t := Table(UniqueRotations(rs));
      forall i, j :: 0 <= i < j < |t| ==> AtOrBefore(t[i].departure, t[j].departure)
  {
    var u := UniqueRotations(rs);
    var t := Table(u);
    forall i, j | 0 <= i < j < |t| ensures AtOrBefore(t[i].departure, t[j].departure) {
      assert DepartsNoLater(u[i], u[j]);
    }
  }

  /** Each line of the table is the line of a rotation read. */
  lemma KeptAreRead(rs: seq<FiledRotation>)
    ensures var t := Table(UniqueRotations(rs));
      forall k :: 0 <= k < |t| ==> exists x :: x in rs && t[k] == Row(x)
  {
    var u := UniqueRotations(rs);
    UniqueRotationsShape(rs);
    var t := Table(u);
    forall k | 0 <= k < |t| ensures exists x :: x in rs && t[k] == Row(x) {
      assert u[k] in u;
      var i :| 0 <= i < |rs| && rs[i] == u[k] && IsFirst(rs, i, RotationKey);
      assert rs[i] in rs && t[k] == Row(rs[i]);
    }
  }

  /** Every rotation read has the line of the rotation kept for its dates and itinerary. */
  lemma ReadAreKept(rs: seq<FiledRotation>)
    ensures var u := UniqueRotations(rs);
      forall x :: x in rs ==> exists k :: 0 <= k < |u| && RotationKey(u[k]) == RotationKey(x) && Table(u)[k] == Row(u[k])
  {
    var u := UniqueRotations(rs);
    UniqueRotationsShape(rs);
    forall x | x in rs ensures exists k :: 0 <= k < |u| && RotationKey(u[k]) == RotationKey(x) && Table(u)[k] == Row(u[k]) {
      assert RotationKey(x) in KeysOf(rs, RotationKey);
      assert RotationKey(x) in KeysOf(u, RotationKey);
      var y :| y in u && RotationKey(y) == RotationKey(x);
      var k :| 0 <= k < |u| && u[k] == y;
    }
  }

  function AircraftTypes(segs: seq<Segment>): seq<string>
  {
    seq(|segs|, k requires 0 <= k < |segs| => segs[k].aircraftType)
  }

  function Registrations(segs: seq<Segment>): seq<string>
  {
    seq(|segs|, k requires 0 <= k < |segs| => segs[k].registration)
  }

  // ---------------------------------------------------------------- the assembly

  /**
    The page loop of `analyse_missions` for one file: each EP5 page analysed, its rotations
    tagged with the file's year; other pages skipped.
  */
  method AnalyseFile(f: PdfFile, year: nat, month: nat, yearText: string, matchLine: string -> Option<LineMatch>)
    returns (rotations: seq<FiledRotation>, segments: seq<Segment>)
    ensures rotations == PagesRotations(f.pages, |f.pages|, year, month, f.name, yearText, matchLine)
    ensures segments == PagesSegments(f.pages, |f.pages|, year, month, f.name, matchLine)
  {
    rotations, segments := [], [];
    var j := 0;
    while j < |f.pages|
      invariant j <= |f.pages|
      invariant rotations == PagesRotations(f.pages, j, year, month, f.name, yearText, matchLine)
      invariant segments == PagesSegments(f.pages, j, year, month, f.name, matchLine)
    {
      var text := f.pages[j];
      if IsEp5Page(text) {
        var pageRotations, pageSegments := AnalysePage(text, year, month, f.name, matchLine);
        rotations := rotations + Tag(pageRotations, yearText);
        segments := segments + pageSegments;
      }
      j := j + 1;
    }
  }

  /**
    The file loop of `analyse_missions`. For each file: its month and year from its name;
    the per-diem data of that year loaded once (`load_indemnity_data`, over `fileExists` and
    the rows `yearRows` gives for a year), its message kept; every EP5 page analysed; a
    warning if reading the file raised.
  */
  method CollectFiles(files: seq<PdfFile>, matchLine: string -> Option<LineMatch>, fileExists: string -> bool,
                      yearRows: string -> seq<IndemnityRow>, parseAmount: string -> Option<real>)
    returns (rotations: seq<FiledRotation>, segments: seq<Segment>, warnings: seq<Warning>)
    ensures rotations == FilesRotations(files, |files|, matchLine)
    ensures segments == FilesSegments(files, |files|, matchLine)
    ensures warnings == Warnings(files, |files|, fileExists, yearRows, parseAmount)
  {
    rotations, segments, warnings := [], [], [];
    var cache: map<string, map<string, seq<Rate>>> := map[];
    var i := 0;
    while i < |files|
      invariant i <= |files|
      invariant rotations == FilesRotations(files, i, matchLine)
      invariant segments == FilesSegments(files, i, matchLine)
      invariant cache.Keys == YearsBefore(files, i)
      invariant warnings == Warnings(files, i, fileExists, yearRows, parseAmount)
    {
      rotations, segments, cache, warnings :=
        CollectFile(files, i, matchLine, fileExists, yearRows, parseAmount, rotations, segments, cache, warnings);
      i := i + 1;
    }
  }

  /** One turn of the file loop of `analyse_missions`: what file `i` adds. */
  method CollectFile(files: seq<PdfFile>, i: nat, matchLine: string -> Option<LineMatch>, fileExists: string -> bool,
                     yearRows: string -> seq<IndemnityRow>, parseAmount: string -> Option<real>,
                     rotations: seq<FiledRotation>, segments: seq<Segment>,
                     cache: map<string, map<string, seq<Rate>>>, warnings: seq<Warning>)
    returns (rotations': seq<FiledRotation>, segments': seq<Segment>,
             cache': map<string, map<string, seq<Rate>>>, warnings': seq<Warning>)
    requires i < |files|
    requires rotations == FilesRotations(files, i, matchLine)
    requires segments == FilesSegments(files, i, matchLine)
    requires cache.Keys == YearsBefore(files, i)
    requires warnings == Warnings(files, i, fileExists, yearRows, parseAmount)
    ensures rotations' == FilesRotations(files, i + 1, matchLine)
    ensures segments' == FilesSegments(files, i + 1, matchLine)
    ensures cache'.Keys == YearsBefore(files, i + 1)
    ensures warnings' == Warnings(files, i + 1, fileExists, yearRows, parseAmount)
  {
    var f := files[i];
    var (year, month) := FilenameDate(f.name);
    var yearText := NatToString(year);
    CollectStep(files, i, matchLine, fileExists, yearRows, parseAmount);
    var loaded := LoadOnce(cache, yearText, fileExists, yearRows, parseAmount);
    cache', warnings' := loaded.0, warnings + loaded.1;
    var fileRotations, fileSegments := AnalyseFile(f, year, month, yearText, matchLine);
    rotations' := rotations + fileRotations;
    segments' := segments + fileSegments;
    if f.readError {
      warnings' := warnings' + [PdfFailure(f.name)];
    }
  }

  /**
    The per-diem data of a year, loaded only when the year is not cached yet; the message
    of that load, or none.
  */
  method LoadOnce(cache: map<string, map<string, seq<Rate>>>, yearText: string, fileExists: string -> bool,
                  yearRows: string -> seq<IndemnityRow>, parseAmount: string -> Option<real>)
    returns (r: (map<string, map<string, seq<Rate>>>, seq<Warning>))
    ensures r.0.Keys == cache.Keys + {yearText}
    ensures yearText in cache ==> r == (cache, [])
    ensures yearText !in cache ==> r.1 == [LoadMessage(LoadStatusOf(yearText, fileExists, yearRows(yearText), parseAmount))]
  {
    if yearText in cache {
      return (cache, []);
    }
    var data, status := LoadIndemnityData(yearText, fileExists, yearRows(yearText), parseAmount);
    return (cache[yearText := data], [LoadMessage(status)]);
  }

  /** What one more file adds to the rotations, segments, years and warnings. */
  lemma CollectStep(files: seq<PdfFile>, i: nat, matchLine: string -> Option<LineMatch>, fileExists: string -> bool,
                    yearRows: string -> seq<IndemnityRow>, parseAmount: string -> Option<real>)
    requires i < |files|
    ensures var f := files[i]; var (year, month) := FilenameDate(f.name); var yearText := NatToString(year);
      && FilesRotations(files, i + 1, matchLine) == FilesRotations(files, i, matchLine) + FileRotations(f, matchLine)
      && FilesSegments(files, i + 1, matchLine) == FilesSegments(files, i, matchLine) + FileSegments(f, matchLine)
      && FileRotations(f, matchLine) == PagesRotations(f.pages, |f.pages|, year, month, f.name, yearText, matchLine)
      && FileSegments(f, matchLine) == PagesSegments(f.pages, |f.pages|, year, month, f.name, matchLine)
      && YearsBefore(files, i + 1) == YearsBefore(files, i) + {yearText}
      && Warnings(files, i + 1, fileExists, yearRows, parseAmount) ==
         Warnings(files, i, fileExists, yearRows, parseAmount)
           + (if yearText in YearsBefore(files, i) then [] else [LoadMessage(LoadStatusOf(yearText, fileExists, yearRows(yearText), parseAmount))])
           + (if f.readError then [PdfFailure(f.name)] else [])
  {
  }

  /**
    The end of `analyse_missions` over what the files gave. Without rotations only the
    warnings are returned. Otherwise the rotations are deduplicated and sorted, the year is
    the greatest year string, every rotation's indemnity is the placeholder 0.0, and the
    segments' aircraft types and registrations are counted.
  */
  method Summarise(rotations: seq<FiledRotation>, segments: seq<Segment>, warnings: seq<Warning>) returns (result: Missions)
    ensures result.warnings == warnings
    ensures result.NoResults? <==> rotations == []
    ensures result.Results? ==>
      var u := UniqueRotations(rotations);
      && |u| > 0 && result.table == Table(u) && result.total == 0.0
      && result.predominantYear == LexMax(Years(u))
      && result.typeCounts == Counts(AircraftTypes(segments))
      && result.registrationCounts == Counts(Registrations(segments))
  {
    if rotations == [] {
      return NoResults(warnings);
    }
    var unique := KeepFirst(rotations, RotationKey);
    DedupNonEmpty(rotations, RotationKey);
    assert TotalPreorder(DepartsNoLater);
    unique := SortBy(unique, DepartsNoLater);
    var predominant := LexMax(Years(unique));
    var table, total := BuildTable(unique);
    var types, registrations := map[], map[];
    if segments != [] {
      types := Counts(AircraftTypes(segments));
      registrations := Counts(Registrations(segments));
    }
    result := Results(table, types, registrations, total, predominant, warnings);
  }

  /**
    The table loop of `analyse_missions`: one line per rotation, its indemnity added to the
    total.
  */
  method BuildTable(unique: seq<FiledRotation>) returns (table: seq<TableRow>, total: real)
    ensures table == Table(unique) && total == 0.0
  {
    table, total := [], 0.0;
    var k := 0;
    while k < |unique|
      invariant k <= |unique|
      invariant |table| == k && forall m :: 0 <= m < k ==> table[m] == Row(unique[m])
      invariant total == 0.0
    {
      var r := unique[k];
      var row := TableRow(r.rotation.departure, Join(r.rotation.itinerary, " → "), 0.0);
      table := table + [row];
      total := total + row.indemnity;
      k := k + 1;
    }
  }

  /** `analyse_missions`: the files collected, then summarised. */
  method AnalyseMissions(files: seq<PdfFile>, matchLine: string -> Option<LineMatch>, fileExists: string -> bool,
                         yearRows: string -> seq<IndemnityRow>, parseAmount: string -> Option<real>) returns (result: Missions)
    ensures result.warnings == Warnings(files, |files|, fileExists, yearRows, parseAmount)
    ensures result.NoResults? <==> FilesRotations(files, |files|, matchLine) == []
    ensures result.Results? ==>
      var u := UniqueRotations(FilesRotations(files, |files|, matchLine));
      var segs := FilesSegments(files, |files|, matchLine);
      && |u| > 0 && result.table == Table(u) && result.total == 0.0
      && result.predominantYear == LexMax(Years(u))
      && result.typeCounts == Counts(AircraftTypes(segs))
      && result.registrationCounts == Counts(Registrations(segs))
  {
    var rotations, segments, warnings := CollectFiles(files, matchLine, fileExists, yearRows, parseAmount);
    result := Summarise(rotations, segments, warnings);
  }
}
