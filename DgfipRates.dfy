/**
  What is done with the rates once read: the exchange rate and the per-diem scale in force
  on a day, the three exchange rates of a year, and the scales kept for the rows of one
  year's table. Dates are ISO strings compared as strings, as the source compares them.
*/
module DgfipRates {
  import opened Wrappers
  import opened Text
  import opened Calendar
  import opened Sequences
  import opened DgfipParse

  // ---------------------------------------------------------------- dates as strings

  /** On ISO dates the string order is the order of the dates. */
  lemma IsoDatesOrder(s: string, t: string)
    requires IsoDate(s) && IsoDate(t)
    ensures LexAtMost(s, t) <==> AtOrBefore(DayOf(s), DayOf(t))
    ensures LexLess(s, t) <==> Before(DayOf(s), DayOf(t))
  {
    IsoOrder(ParseIso(s).value, ParseIso(t).value);
  }

  /** The ISO form of a valid date is an ISO date. */
  lemma IsoStringIsoDate(d: Date)
    requires IsValid(d)
    ensures IsoDate(IsoString(d)) && ParseIso(IsoString(d)) == Some(d)
  {
    ParseIsoString(d);
  }

  // ---------------------------------------------------------------- exchange rate on a day

  function RateOnOrBefore(target: string): DatedRate -> bool
  {
    (x: DatedRate) => LexAtMost(x.date, target)
  }

  /**
    `find_applicable_rate`: the rate of the first entry whose date string is at most
    `target`, or `None` when the list is empty or no entry is.
  */
  function ApplicableRate(rates: seq<DatedRate>, target: string): (r: Option<real>)
    ensures r.Some? <==> exists i :: 0 <= i < |rates| && LexAtMost(rates[i].date, target)
    ensures r.Some? ==> exists i :: (0 <= i < |rates| && r.value == rates[i].rate && LexAtMost(rates[i].date, target)
      && forall j :: 0 <= j < i ==> !LexAtMost(rates[j].date, target))
  {
    if rates == [] then None
    else
      match FirstIndex(rates, RateOnOrBefore(target))
      case Some(i) => Some(rates[i].rate)
      case None => None
  }

  /**
    On a list sorted newest first, the rate found is that of an entry dated at most `target`
    that no other such entry postdates.
  */
  lemma ApplicableRateNewest(rates: seq<DatedRate>, target: string)
    requires SortedBy(rates, LaterFirst)
    ensures var r := ApplicableRate(rates, target);
      r.Some? ==> exists i :: (0 <= i < |rates| && r.value == rates[i].rate && LexAtMost(rates[i].date, target)
        && forall j :: 0 <= j < |rates| && LexAtMost(rates[j].date, target) ==> LexAtMost(rates[j].date, rates[i].date))
  {
    var f := FirstIndex(rates, RateOnOrBefore(target));
    if f.Some? {
      var i := f.value;
      forall j | 0 <= j < |rates| && LexAtMost(rates[j].date, target)
        ensures LexAtMost(rates[j].date, rates[i].date)
      {
        if j > i {
          assert LaterFirst(rates[i], rates[j]);
        }
      }
    }
  }

  /**
    With ISO dates, the rate found for a day is the rate in force that day: its entry is
    dated on or before the day, and every entry dated on or before the day is no later.
  */
  lemma ApplicableRateOnDay(rates: seq<DatedRate>, day: Date)
    requires IsValid(day) && SortedBy(rates, LaterFirst)
    requires forall i :: 0 <= i < |rates| ==> IsoDate(rates[i].date)
    ensures var r := ApplicableRate(rates, IsoString(day));
      && (r.Some? <==> exists i :: 0 <= i < |rates| && AtOrBefore(DayOf(rates[i].date), day))
      && (r.Some? ==> exists i :: (0 <= i < |rates| && r.value == rates[i].rate && AtOrBefore(DayOf(rates[i].date), day)
            && forall j :: 0 <= j < |rates| && AtOrBefore(DayOf(rates[j].date), day) ==>
                 AtOrBefore(DayOf(rates[j].date), DayOf(rates[i].date))))
  {
    var t := IsoString(day);
    IsoStringIsoDate(day);
    forall i | 0 <= i < |rates|
      ensures LexAtMost(rates[i].date, t) <==> AtOrBefore(DayOf(rates[i].date), day)
    {
      IsoDatesOrder(rates[i].date, t);
    }
    ApplicableRateNewest(rates, t);
    var r := ApplicableRate(rates, t);
    if r.Some? {
      var i :| 0 <= i < |rates| && r.value == rates[i].rate && LexAtMost(rates[i].date, t)
        && forall j :: 0 <= j < |rates| && LexAtMost(rates[j].date, t) ==> LexAtMost(rates[j].date, rates[i].date);
      forall j | 0 <= j < |rates| && AtOrBefore(DayOf(rates[j].date), day)
        ensures AtOrBefore(DayOf(rates[j].date), DayOf(rates[i].date))
      {
        IsoDatesOrder(rates[j].date, rates[i].date);
      }
    }
  }

  // ---------------------------------------------------------------- the rates of a year

  /** The three rates of a currency for a year: on 1 January, on 31 December, and their mean. */
  datatype AnnualRate = AnnualRate(start: Option<real>, end: Option<real>, mean: Option<real>)

  /** Euros per franc CFA (XAF and XOF), fixed whatever Webtaux says. */
  const CfaRate: real := 655.957

  /** The currencies whose rates are fixed. */
  const FixedCurrencies: set<string> := {"EUR", "XAF", "XOF"}

  function YearStart(year: string): string
  {
    year + "-01-01"
  }

  function YearEnd(year: string): string
  {
    year + "-12-31"
  }

  /** The first day of a year comes before its last, as strings. */
  lemma StartBeforeEnd(year: string)
    ensures LexLess(YearStart(year), YearEnd(year))
  {
    LexConcat(year, "-01-01", year, "-12-31");
    assert "-01-01"[1..] == "01-01" && "-12-31"[1..] == "12-31";
  }

  /**
    The rates of one currency (`calculer_taux_annuels`): those in force on the first and on
    the last day of the year; one missing is replaced by the other, and `mean` combines the
    two. With neither, all three are missing.
  */
  function YearRates(rates: seq<DatedRate>, year: string, mean: (real, real) -> real): AnnualRate
  {
    var s0 := ApplicableRate(rates, YearStart(year));
    var e0 := ApplicableRate(rates, YearEnd(year));
    var s := if s0.None? && e0.Some? then e0 else s0;
    var e := if e0.None? && s0.Some? then s0 else e0;
    if s.Some? && e.Some? then AnnualRate(s, e, Some(mean(s.value, e.value)))
    else AnnualRate(None, None, None)
  }

  /** A rate in force on the first day of the year is in force on its last day too. */
  lemma StartFoundImpliesEnd(rates: seq<DatedRate>, year: string)
    ensures ApplicableRate(rates, YearStart(year)).Some? ==> ApplicableRate(rates, YearEnd(year)).Some?
  {
    if ApplicableRate(rates, YearStart(year)).Some? {
      var i :| 0 <= i < |rates| && LexAtMost(rates[i].date, YearStart(year));
      StartBeforeEnd(year);
      LexAtMostTotalOrder(rates[i].date, YearStart(year), YearEnd(year));
    }
  }

  /**
    The three rates are all present or all missing; they are present exactly when some
    entry is dated on or before 31 December. The end rate is the one in force on
    31 December, the start rate the one in force on 1 January or else the end rate, and
    the mean is `mean` of the two.
  */
  lemma YearRatesShape(rates: seq<DatedRate>, year: string, mean: (real, real) -> real)
    ensures var r := YearRates(rates, year, mean);
      var s0 := ApplicableRate(rates, YearStart(year));
      var e0 := ApplicableRate(rates, YearEnd(year));
      && r.start.Some? == r.end.Some? == r.mean.Some?
      && (r.end.Some? <==> exists i :: 0 <= i < |rates| && LexAtMost(rates[i].date, YearEnd(year)))
      && (r.end.Some? ==>
            && r.end == e0
            && r.start == (if s0.Some? then s0 else e0)
            && r.mean == Some(mean(r.start.value, r.end.value)))
  {
    StartFoundImpliesEnd(rates, year);
  }

  /** The rate of a currency whose rates are fixed. */
  function FixedRate(c: string): AnnualRate
    requires c in FixedCurrencies
  {
    if c == "EUR" then AnnualRate(Some(1.0), Some(1.0), Some(1.0))
    else AnnualRate(Some(CfaRate), Some(CfaRate), Some(CfaRate))
  }

  /** What `calculer_taux_annuels` returns: the fixed currencies, and every other one of `history`. */
  function AnnualTable(history: map<string, seq<DatedRate>>, year: string, mean: (real, real) -> real): map<string, AnnualRate>
  {
    map c | c in FixedCurrencies + history.Keys ::
      if c in FixedCurrencies then FixedRate(c) else YearRates(history[c], year, mean)
  }

  /**
    `calculer_taux_annuels`: EUR at 1, XAF and XOF at 655.957, then each other currency of
    `history` with its rates for the year.
  */
  method AnnualRates(history: map<string, seq<DatedRate>>, year: string, mean: (real, real) -> real)
    returns (annual: map<string, AnnualRate>)
    ensures annual == AnnualTable(history, year, mean)
  {
    annual := map["EUR" := AnnualRate(Some(1.0), Some(1.0), Some(1.0))];
    annual := annual["XAF" := AnnualRate(Some(CfaRate), Some(CfaRate), Some(CfaRate))];
    annual := annual["XOF" := AnnualRate(Some(CfaRate), Some(CfaRate), Some(CfaRate))];
    var todo := history.Keys;
    while todo != {}
      invariant AnnualBut(history, year, mean, annual, todo)
      decreases todo
    {
      var c :| c in todo;
      if c !in annual {
        var r := CurrencyRates(history[c], year, mean);
        annual := annual[c := r];
      }
      AnnualButStep(history, year, mean, annual, todo, c);
      todo := todo - {c};
    }
    assert forall c :: c in annual ==> annual[c] == AnnualTable(history, year, mean)[c];
  }

  /** Every currency is done but those of `todo`, which are not there unless fixed. */
  predicate AnnualBut(history: map<string, seq<DatedRate>>, year: string, mean: (real, real) -> real,
                      annual: map<string, AnnualRate>, todo: set<string>)
  {
    && todo <= history.Keys
    && annual.Keys == FixedCurrencies + (history.Keys - todo)
    && forall c :: c in annual ==> annual[c] == AnnualTable(history, year, mean)[c]
  }

  lemma AnnualButStep(history: map<string, seq<DatedRate>>, year: string, mean: (real, real) -> real,
                      annual: map<string, AnnualRate>, todo: set<string>, c: string)
    requires c in todo && todo <= history.Keys
    requires annual.Keys == FixedCurrencies + (history.Keys - todo) + {c}
    requires forall d :: d in annual ==> annual[d] == AnnualTable(history, year, mean)[d]
    ensures AnnualBut(history, year, mean, annual, todo - {c})
  {
  }

  /** The body of that loop for one currency: the two lookups, the fallback, the mean. */
  method CurrencyRates(rates: seq<DatedRate>, year: string, mean: (real, real) -> real) returns (r: AnnualRate)
    ensures r == YearRates(rates, year, mean)
  {
    var start := ApplicableRate(rates, YearStart(year));
    var end := ApplicableRate(rates, YearEnd(year));
    if end.None? && start.Some? {
      end := start;
    } else if start.None? && end.Some? {
      start := end;
    }
    if start.Some? && end.Some? {
      r := AnnualRate(start, end, Some(mean(start.value, end.value)));
    } else {
      r := AnnualRate(None, None, None);
    }
  }

  /**
    The fixed currencies keep their fixed rates whatever the history holds; every other
    currency of the history gets its rates for the year, and no other currency appears.
  */
  lemma AnnualTableContents(history: map<string, seq<DatedRate>>, year: string, mean: (real, real) -> real, c: string)
    ensures var t := AnnualTable(history, year, mean);
      && (c in t <==> c in history || c in FixedCurrencies)
      && (c == "EUR" ==> t[c] == AnnualRate(Some(1.0), Some(1.0), Some(1.0)))
      && (c == "XAF" || c == "XOF" ==> t[c] == AnnualRate(Some(655.957), Some(655.957), Some(655.957)))
      && (c in history && c !in FixedCurrencies ==> t[c] == YearRates(history[c], year, mean))
  {
  }

  // ---------------------------------------------------------------- per-diem scale on a day

  function ScaleOnOrBefore(target: string): Scale -> bool
  {
    (s: Scale) => LexAtMost(s.date, target)
  }

  /**
    `find_applicable_indemnity_for_date`: the first scale whose date string is at most the
    ISO form of `target`, or `None` when the list is empty or no scale is.
  */
  function IndemnityOnDate(scales: seq<Scale>, target: Date): (r: Option<Scale>)
    requires IsValid(target)
    ensures r.Some? <==> exists i :: 0 <= i < |scales| && LexAtMost(scales[i].date, IsoString(target))
    ensures r.Some? ==> exists i :: (0 <= i < |scales| && r.value == scales[i] && LexAtMost(scales[i].date, IsoString(target))
      && forall j :: 0 <= j < i ==> !LexAtMost(scales[j].date, IsoString(target)))
  {
    if scales == [] then None
    else
      match FirstIndex(scales, ScaleOnOrBefore(IsoString(target)))
      case Some(i) => Some(scales[i])
      case None => None
  }

  /**
    On a list normalised by Webmiss (sorted newest first) with ISO dates, the scale found
    for a day is the one in force that day: dated on or before it, and no scale dated on or
    before it is later.
  */
  lemma IndemnityOnDateNewest(scales: seq<Scale>, day: Date)
    requires IsValid(day) && SortedBy(scales, NewestFirst)
    requires forall i :: 0 <= i < |scales| ==> IsoDate(scales[i].date)
    ensures var r := IndemnityOnDate(scales, day);
      && (r.Some? <==> exists i :: 0 <= i < |scales| && AtOrBefore(DayOf(scales[i].date), day))
      && (r.Some? ==> exists i :: (0 <= i < |scales| && r.value == scales[i] && AtOrBefore(DayOf(scales[i].date), day)
            && forall j :: 0 <= j < |scales| && AtOrBefore(DayOf(scales[j].date), day) ==>
                 AtOrBefore(DayOf(scales[j].date), DayOf(scales[i].date))))
  {
    var t := IsoString(day);
    IsoStringIsoDate(day);
    forall i | 0 <= i < |scales|
      ensures LexAtMost(scales[i].date, t) <==> AtOrBefore(DayOf(scales[i].date), day)
    {
      IsoDatesOrder(scales[i].date, t);
    }
    var f := FirstIndex(scales, ScaleOnOrBefore(t));
    if f.Some? {
      var i := f.value;
      forall j | 0 <= j < |scales| && AtOrBefore(DayOf(scales[j].date), day)
        ensures AtOrBefore(DayOf(scales[j].date), DayOf(scales[i].date))
      {
        if j > i {
          assert NewestFirst(scales[i], scales[j]);
        }
        IsoDatesOrder(scales[j].date, scales[i].date);
      }
    }
  }

  // ---------------------------------------------------------------- the rows of a year

  /** The date of `s` read as `%Y-%m-%d` falls in the year `year` reads as (`int(annee_str)`). */
  predicate InYear(s: Scale, year: string)
  {
    ParseIso(s.date).Some? && ParseInt(year).Some? && ParseIso(s.date).value.year == ParseInt(year).value
  }

  function InYearTest(year: string): Scale -> bool
  {
    (s: Scale) => InYear(s, year)
  }

  function DatedBefore(day: string): Scale -> bool
  {
    (s: Scale) => LexLess(s.date, day)
  }

  /** The first scale dated strictly before `day`: on a list sorted newest first, the newest. */
  function NewestBefore(scales: seq<Scale>, day: string): Option<Scale>
  {
    match FirstIndex(scales, DatedBefore(day))
    case Some(i) => Some(scales[i])
    case None => None
  }

  /** Some scale of `rows` starts on `day`. */
  predicate StartsOn(rows: seq<Scale>, day: string)
  {
    exists k :: 0 <= k < |rows| && rows[k].date == day
  }

  /**
    The scales chosen for a year before deduplication: those dated in the year; then the
    one before 1 January, unless a scale of the year starts that day; and when that leaves
    nothing, the first scale of the list.
  */
  function Candidates(scales: seq<Scale>, year: string): seq<Scale>
  {
    Selection(scales, InYearTest(year), YearStart(year))
  }

  /** The same, for any test `inYear` of the year and its first day `newYear`. */
  function Selection(scales: seq<Scale>, inYear: Scale -> bool, newYear: string): seq<Scale>
  {
    var ofYear := Filter(scales, inYear);
    var withPre :=
      match NewestBefore(scales, newYear)
      case Some(p) => if StartsOn(ofYear, newYear) then ofYear else ofYear + [p]
      case None => ofYear;
    if withPre == [] && scales != [] then [scales[0]] else withPre
  }

  /** The order of `sort(key=(date, -amount))`: earlier first, and on one date the larger amount first. */
  predicate DateThenLargest(a: Scale, b: Scale)
  {
    LexLess(a.date, b.date) || (a.date == b.date && a.amount >= b.amount)
  }

  lemma DateThenLargestOrders()
    ensures TotalPreorder(DateThenLargest)
  {
    forall a: Scale, b: Scale, c: Scale ensures DateThenLargest(a, b) || DateThenLargest(b, a)
      ensures DateThenLargest(a, b) && DateThenLargest(b, c) ==> DateThenLargest(a, c)
    {
      LexAtMostTotalOrder(a.date, b.date, c.date);
      if LexLess(a.date, b.date) && LexLess(b.date, c.date) {
        LexLessTransitive(a.date, b.date, c.date);
      }
    }
  }

  /** The order of the final `sort(key=date)`. */
  predicate EarlierFirst(a: Scale, b: Scale)
  {
    LexAtMost(a.date, b.date)
  }

  lemma EarlierFirstOrders()
    ensures TotalPreorder(EarlierFirst)
  {
    forall a: Scale, b: Scale, c: Scale ensures EarlierFirst(a, b) || EarlierFirst(b, a)
      ensures EarlierFirst(a, b) && EarlierFirst(b, c) ==> EarlierFirst(a, c)
    {
      LexAtMostTotalOrder(a.date, b.date, c.date);
    }
  }

  /** The key of the final deduplication: `(date, currency)`. */
  function DateCurrency(s: Scale): (string, string)
  {
    (s.date, s.currency)
  }

  /**
    The scales of one code that the table of `year` shows: the candidates sorted by date and
    then larger amount first, the first of each date and currency kept, sorted by date.
  */
  function YearRows(scales: seq<Scale>, year: string): seq<Scale>
  {
    DateThenLargestOrders();
    EarlierFirstOrders();
    SortBy(Dedup(SortBy(Candidates(scales, year), DateThenLargest), DateCurrency), EarlierFirst)
  }

  /**
    The row selection of `generer_csv_final` for one code: the scales of the year, the
    search for the last one before the year with its `break`, the flag that decides whether
    to add it, the last-resort scale, then sort, deduplication and sort again.
  */
  method SelectYearRows(scales: seq<Scale>, year: string) returns (rows: seq<Scale>)
    ensures rows == YearRows(scales, year)
  {
    var selected := Select(scales, InYearTest(year), YearStart(year));
    DateThenLargestOrders();
    var sorted := SortBy(selected, DateThenLargest);
    var unique := KeepFirst(sorted, DateCurrency);
    EarlierFirstOrders();
    rows := SortBy(unique, EarlierFirst);
  }

  /** The choice of the candidates, for any test `inYear` of the year and its first day `newYear`. */
  method Select(scales: seq<Scale>, inYear: Scale -> bool, newYear: string) returns (selected: seq<Scale>)
    ensures selected == Selection(scales, inYear, newYear)
  {
    selected := CollectInYear(scales, inYear);
    var pre := FindNewestBefore(scales, newYear);
    if pre.Some? {
      var addPre := true;
      if selected == [] {
        selected := selected + [pre.value];
        addPre := false;
      } else {
        var k := 0;
        while k < |selected|
          invariant k <= |selected| && addPre
          invariant forall m :: 0 <= m < k ==> selected[m].date != newYear
        {
          if selected[k].date == newYear {
            addPre := false;
            break;
          }
          k := k + 1;
        }
      }
      if addPre {
        selected := selected + [pre.value];
      }
    }
    if selected == [] && scales != [] {
      selected := selected + [scales[0]];
    }
  }

  /** The first loop: the scales `keep` accepts, in order. */
  method CollectInYear(scales: seq<Scale>, keep: Scale -> bool) returns (selected: seq<Scale>)
    ensures selected == Filter(scales, keep)
  {
    selected := [];
    var i := 0;
    while i < |scales|
      invariant i <= |scales| && selected == Filter(scales[..i], keep)
    {
      assert scales[..i + 1][..i] == scales[..i];
      if keep(scales[i]) {
        selected := selected + [scales[i]];
      }
      i := i + 1;
    }
    assert scales[..|scales|] == scales;
  }

  /** The second loop: the first scale dated before `day`, the search stopped by `break`. */
  method FindNewestBefore(scales: seq<Scale>, day: string) returns (pre: Option<Scale>)
    ensures pre == NewestBefore(scales, day)
  {
    pre := None;
    var i := 0;
    while i < |scales|
      invariant i <= |scales| && pre.None?
      invariant forall j :: 0 <= j < i ==> !DatedBefore(day)(scales[j])
    {
      if DatedBefore(day)(scales[i]) {
        pre := Some(scales[i]);
        break;
      }
      i := i + 1;
    }
  }

  /**
    What the selection holds: the scales `inYear` accepts; the first scale dated before
    `newYear`, unless an accepted scale starts on `newYear`; and, when there is neither, the
    first scale of the list.
  */
  lemma SelectionMembers(scales: seq<Scale>, inYear: Scale -> bool, newYear: string, x: Scale)
    ensures x in Selection(scales, inYear, newYear) <==>
      || (x in scales && inYear(x))
      || (NewestBefore(scales, newYear) == Some(x) && !exists y :: y in scales && inYear(y) && y.date == newYear)
      || (scales != [] && x == scales[0] && NewestBefore(scales, newYear).None? && forall y :: y in scales ==> !inYear(y))
  {
    var ofYear := Filter(scales, inYear);
    FilterMembers(scales, inYear);
    assert StartsOn(ofYear, newYear) <==> exists y :: y in scales && inYear(y) && y.date == newYear by {
      if exists y :: y in scales && inYear(y) && y.date == newYear {
        var y :| y in scales && inYear(y) && y.date == newYear;
        assert y in ofYear;
        var k :| 0 <= k < |ofYear| && ofYear[k] == y;
      }
      if StartsOn(ofYear, newYear) {
        var k :| 0 <= k < |ofYear| && ofYear[k].date == newYear;
        assert ofYear[k] in ofYear;
      }
    }
    assert ofYear == [] <==> forall y :: y in scales ==> !inYear(y) by {
      if ofYear != [] {
        assert ofYear[0] in ofYear;
      }
    }
  }

  /**
    The candidates of a year: the scales dated in the year; the scale found before
    1 January, unless a scale of the year starts that day; and when there is neither, the
    first scale of the list.
  */
  lemma CandidatesMembers(scales: seq<Scale>, year: string, x: Scale)
    ensures x in Candidates(scales, year) <==>
      || (x in scales && InYear(x, year))
      || (NewestBefore(scales, YearStart(year)) == Some(x) && !exists y :: y in scales && InYear(y, year) && y.date == YearStart(year))
      || (scales != [] && x == scales[0] && NewestBefore(scales, YearStart(year)).None? && forall y :: y in scales ==> !InYear(y, year))
  {
    SelectionMembers(scales, InYearTest(year), YearStart(year), x);
  }

  /**
    On a list sorted newest first with ISO dates, the scale found before a day is the
    newest scale strictly before it; there is none only when no scale is.
  */
  lemma NewestBeforeOnDay(scales: seq<Scale>, day: Date)
    requires IsValid(day) && SortedBy(scales, NewestFirst)
    requires forall i :: 0 <= i < |scales| ==> IsoDate(scales[i].date)
    ensures var p := NewestBefore(scales, IsoString(day));
      && (p.Some? <==> exists i :: 0 <= i < |scales| && Before(DayOf(scales[i].date), day))
      && (p.Some? ==> exists i :: (0 <= i < |scales| && p.value == scales[i] && Before(DayOf(scales[i].date), day)
            && forall j :: 0 <= j < |scales| && Before(DayOf(scales[j].date), day) ==>
                 AtOrBefore(DayOf(scales[j].date), DayOf(scales[i].date))))
  {
    var t := IsoString(day);
    IsoStringIsoDate(day);
    forall i | 0 <= i < |scales|
      ensures LexLess(scales[i].date, t) <==> Before(DayOf(scales[i].date), day)
    {
      IsoDatesOrder(scales[i].date, t);
    }
    var f := FirstIndex(scales, DatedBefore(t));
    if f.Some? {
      var i := f.value;
      forall j | 0 <= j < |scales| && Before(DayOf(scales[j].date), day)
        ensures AtOrBefore(DayOf(scales[j].date), DayOf(scales[i].date))
      {
        if j > i {
          assert NewestFirst(scales[i], scales[j]);
        }
        IsoDatesOrder(scales[j].date, scales[i].date);
      }
    }
  }

  /** Written with four digits, a year reads back as itself and its first day is 1 January. */
  lemma YearString(y: int)
    requires 1 <= y <= 9999
    ensures ParseInt(PadDigits(y, 4)) == Some(y)
    ensures YearStart(PadDigits(y, 4)) == IsoString(Date(y, 1, 1))
  {
    var ys := PadDigits(y, 4);
    assert Pow10(4) == 10000;
    PadDigitsValue(y, 4);
    ParseDigits(ys);
    assert PadDigits(1, 2) == "01";
    JoinThree(ys, "01", "01", "-");
    assert ys + "-" + ("01" + "-" + "01") == ys + "-01-01";
  }

  /** For a four-digit year, a scale with an ISO date is of the year exactly when its day is. */
  lemma InYearOnDay(x: Scale, y: int)
    requires 1 <= y <= 9999 && IsoDate(x.date)
    ensures InYear(x, PadDigits(y, 4)) <==> DayOf(x.date).year == y
  {
    YearString(y);
  }

  /**
    The rows of a year are sorted by date, hold one scale per date and currency, each a
    candidate, and cover the dates and currencies of all candidates; a code has rows
    exactly when it has scales.
  */
  lemma YearRowsShape(scales: seq<Scale>, year: string)
    ensures var r := YearRows(scales, year); var c := Candidates(scales, year);
      && SortedBy(r, EarlierFirst) && UniqueKeys(r, DateCurrency)
      && (forall x :: x in r ==> x in c)
      && KeysOf(r, DateCurrency) == KeysOf(c, DateCurrency)
      && (r == [] <==> scales == [])
  {
    DateThenLargestOrders();
    EarlierFirstOrders();
    var c := Candidates(scales, year);
    var sorted := SortBy(c, DateThenLargest);
    var d := Dedup(sorted, DateCurrency);
    var r := SortBy(d, EarlierFirst);
    DedupKeys(sorted, DateCurrency);
    UniqueKeysPermutation(d, r, DateCurrency);
    SameMembers(c, sorted);
    SameMembers(d, r);
    assert KeysOf(sorted, DateCurrency) == KeysOf(c, DateCurrency);
    assert KeysOf(r, DateCurrency) == KeysOf(d, DateCurrency);
    if scales != [] {
      assert Selection(scales, InYearTest(year), YearStart(year)) != [];
      DedupNonEmpty(sorted, DateCurrency);
    }
  }

  lemma SameMembers(s: seq<Scale>, t: seq<Scale>)
    requires multiset(s) == multiset(t)
    ensures forall x :: x in s <==> x in t
  {
    forall x ensures x in s <==> x in t {
      assert x in s <==> x in multiset(s);
      assert x in t <==> x in multiset(t);
    }
  }

  /** The row kept for a date and currency has the largest amount of the candidates with them. */
  lemma YearRowsLargest(scales: seq<Scale>, year: string, x: Scale, y: Scale)
    requires x in YearRows(scales, year) && y in Candidates(scales, year)
    requires DateCurrency(y) == DateCurrency(x)
    ensures y.amount <= x.amount
  {
    DateThenLargestOrders();
    EarlierFirstOrders();
    var c := Candidates(scales, year);
    var sorted := SortBy(c, DateThenLargest);
    var d := Dedup(sorted, DateCurrency);
    SameMembers(d, SortBy(d, EarlierFirst));
    SameMembers(c, sorted);
    KeptLargest(sorted, x, y);
  }

  /** In a list sorted by date then largest amount, the first scale of a date and currency is the largest. */
  lemma KeptLargest(sorted: seq<Scale>, x: Scale, y: Scale)
    requires SortedBy(sorted, DateThenLargest)
    requires x in Dedup(sorted, DateCurrency) && y in sorted
    requires DateCurrency(y) == DateCurrency(x)
    ensures y.amount <= x.amount
  {
    DedupOnlyFirsts(sorted, DateCurrency, x);
    var i :| 0 <= i < |sorted| && sorted[i] == x && IsFirst(sorted, i, DateCurrency);
    var j :| 0 <= j < |sorted| && sorted[j] == y;
    if i < j {
      assert DateThenLargest(sorted[i], sorted[j]);
      LexLessIrreflexive(x.date);
    }
  }
}
