/**
  One line of an EP5 flight-duty page: the groups the line pattern captures, the
  resolution of bare days of the month into calendar dates, the `H.dd` time format, and
  the flight segment built from them.
*/
module Ep5Parse {
  import opened Wrappers
  import opened Text
  import opened Calendar
  import opened Sequences

  /** The home bases: a rotation starts by leaving one and ends by coming back to one. */
  const Bases: seq<string> := ["CDG", "ORY"]

  predicate IsBase(airport: string)
  {
    airport in Bases
  }

  /**
    The groups of the line pattern that the page analysis reads: aircraft type (group 1),
    registration (2), departure airport (4), departure day (5) and time (6), arrival
    airport (7) and arrival day (8). Group 3 and the arrival time (9) are not used.
  */
  datatype LineMatch = LineMatch(
    aircraftType: string, registration: string,
    depAirport: string, depDay: string, depTime: string,
    arrAirport: string, arrDay: string)

  /** A flight segment as the page analysis records it. */
  datatype Segment = Segment(
    aircraftType: string, registration: string,
    depAirport: string, depDate: Date, depTime: (int, int),
    arrAirport: string, arrDate: Date,
    lineIndex: nat, fileName: string)

  /** What every recorded segment satisfies: real dates, and no arrival before departure. */
  predicate WellDated(s: Segment)
  {
    IsValid(s.depDate) && IsValid(s.arrDate) && AtOrBefore(s.depDate, s.arrDate)
  }

  // ---------------------------------------------------------------- dates

  /**
    `calculer_date_segment`: the day `dayText` in the reference month, or, given the
    departure date `anchor`, in the anchor's month, moving to the next month when the day
    is smaller than the anchor's. `None` where Python raises `ValueError`.
  */
  function ResolveDay(dayText: string, refYear: int, refMonth: int, anchor: Option<Date>): (r: Option<Date>)
    requires anchor.Some? ==> IsValid(anchor.value)
    ensures r.Some? ==> IsValid(r.value) && ParseInt(dayText) == Some(r.value.day)
    ensures r.Some? && anchor.Some? ==> AtOrBefore(anchor.value, r.value)
  {
    match ParseInt(dayText)
    case None => None
    case Some(day) =>
      var (y, m) :=
        if anchor.None? then (refYear, refMonth)
        else if day < anchor.value.day then NextMonth(anchor.value.year, anchor.value.month)
        else (anchor.value.year, anchor.value.month);
      MakeDate(y, m, day)
  }

  /** Without an anchor, the day is taken in the reference month and year. */
  lemma ResolveWithoutAnchor(dayText: string, day: int, refYear: int, refMonth: int)
    requires ParseInt(dayText) == Some(day)
    ensures ResolveDay(dayText, refYear, refMonth, None) ==
      if IsValid(Date(refYear, refMonth, day)) then Some(Date(refYear, refMonth, day)) else None
  {
  }

  /** A day at or after the anchor's day, existing in the anchor's month, stays in that month. */
  lemma ResolveSameMonth(dayText: string, day: int, refYear: int, refMonth: int, anchor: Date)
    requires IsValid(anchor) && ParseInt(dayText) == Some(day)
    requires anchor.day <= day <= DaysInMonth(anchor.year, anchor.month)
    ensures ResolveDay(dayText, refYear, refMonth, Some(anchor)) == Some(Date(anchor.year, anchor.month, day))
  {
  }

  /** An arrival day equal to the departure day gives the departure date itself. */
  lemma ResolveEqualDay(dayText: string, refYear: int, refMonth: int, anchor: Date)
    requires IsValid(anchor) && ParseInt(dayText) == Some(anchor.day)
    ensures ResolveDay(dayText, refYear, refMonth, Some(anchor)) == Some(anchor)
  {
  }

  /** A smaller day moves to the following month of the same year, before December. */
  lemma ResolveNextMonth(dayText: string, day: int, refYear: int, refMonth: int, anchor: Date)
    requires IsValid(anchor) && ParseInt(dayText) == Some(day)
    requires day < anchor.day && anchor.month < 12
    ensures ResolveDay(dayText, refYear, refMonth, Some(anchor)) ==
      if 1 <= day <= DaysInMonth(anchor.year, anchor.month + 1)
      then Some(Date(anchor.year, anchor.month + 1, day)) else None
  {
  }

  /** In December a smaller day moves to January of the next year. */
  lemma ResolveNewYear(dayText: string, day: int, refYear: int, refMonth: int, anchor: Date)
    requires IsValid(anchor) && ParseInt(dayText) == Some(day)
    requires 1 <= day < anchor.day && anchor.month == 12 && anchor.year < 9999
    ensures ResolveDay(dayText, refYear, refMonth, Some(anchor)) == Some(Date(anchor.year + 1, 1, day))
  {
  }

  /** A departure on 29 June 2024 with arrival day 2 arrives on 2 July 2024. */
  lemma ResolveJuneRollover()
    ensures ResolveDay("2", 2024, 6, Some(Date(2024, 6, 29))) == Some(Date(2024, 7, 2))
  {
    ParseDigits("2");
  }

  // ---------------------------------------------------------------- times

  /**
    `convertir_ep5_heure_en_objet_temps`: `"H.f"` gives `(int(H), int(f padded on the right
    with '0' to two characters))`, a text without a dot gives `(int(text), 0)`, and any part
    that is not an integer gives `(0, 0)`.
  */
  function DecodeTime(t: string): (int, int)
  {
    if '.' in t then
      var i := IndexOf(t, '.');
      match (ParseInt(t[..i]), ParseInt(LeftJustify(t[i + 1..], 2, '0')))
      case (Some(h), Some(c)) => (h, c)
      case _ => (0, 0)
    else
      match ParseInt(t)
      case Some(h) => (h, 0)
      case None => (0, 0)
  }

  /** The text `NatToString(h) + "." + two digits of m`, the form the decoder reads back. */
  function EncodeTime(h: nat, m: nat): string
    requires m < 100
  {
    NatToString(h) + "." + PadDigits(m, 2)
  }

  lemma DigitsHaveNoDot(s: string)
    requires AllDigits(s)
    ensures '.' !in s
  {
    forall k | 0 <= k < |s| ensures s[k] != '.' {
      assert IsDigit(s[k]);
    }
  }

  /** In `h + "." + f` with `h` made of digits, the first dot follows `h`. */
  lemma DotAfterDigits(h: string, f: string)
    requires AllDigits(h)
    ensures var t := h + "." + f;
      && '.' in t && IndexOf(t, '.') == |h|
      && t[..|h|] == h && t[|h| + 1..] == f
  {
    var t := h + "." + f;
    DigitsHaveNoDot(h);
    assert t == h + ("." + f);
    IndexOfAfter(h, "." + f, '.');
  }

  /** The fraction, padded on the right to two characters, parses as hundredths. */
  lemma FractionValue(f: string)
    requires |f| >= 1 && AllDigits(f)
    ensures ParseInt(LeftJustify(f, 2, '0')) == Some(if |f| == 1 then 10 * DigitsValue(f) else DigitsValue(f))
  {
    var g := LeftJustify(f, 2, '0');
    if |f| == 1 {
      assert g == f + ['0'];
      assert g[..|g| - 1] == f;
      assert AllDigits(g);
      assert DigitsValue(g) == 10 * DigitsValue(f);
      ParseDigits(g);
    } else {
      assert g == f;
      ParseDigits(f);
    }
  }

  /** Digits, a dot and digits decode as hours and the fraction; one fraction digit counts tens. */
  lemma DecodeDigits(h: string, f: string)
    requires |h| >= 1 && AllDigits(h) && |f| >= 1 && AllDigits(f)
    ensures DecodeTime(h + "." + f) == (DigitsValue(h), if |f| == 1 then 10 * DigitsValue(f) else DigitsValue(f))
  {
    DotAfterDigits(h, f);
    ParseDigits(h);
    FractionValue(f);
  }

  /** Digits without a dot decode as whole hours. */
  lemma DecodeWholeHours(h: string)
    requires |h| >= 1 && AllDigits(h)
    ensures DecodeTime(h) == (DigitsValue(h), 0)
  {
    DigitsHaveNoDot(h);
    ParseDigits(h);
  }

  /** A text whose part before the first dot is not an integer decodes as `(0, 0)`. */
  lemma DecodeBadHours(t: string)
    requires '.' in t && ParseInt(t[..IndexOf(t, '.')]).None?
    ensures DecodeTime(t) == (0, 0)
  {
  }

  /** Decoding reads back what `EncodeTime` writes. */
  lemma DecodeEncode(h: nat, m: nat)
    requires m < 100
    ensures DecodeTime(EncodeTime(h, m)) == (h, m)
  {
    assert Pow10(2) == 100;
    NatToStringValue(h);
    PadDigitsValue(m, 2);
    DecodeDigits(NatToString(h), PadDigits(m, 2));
  }

  // ---------------------------------------------------------------- segments

  /**
    The segment recorded for a matched line: the departure day taken in the reference month,
    the arrival day resolved against the departure date. `None` where either raises, which
    the page analysis skips.
  */
  function ExtractSegment(m: LineMatch, refYear: int, refMonth: int, lineIndex: nat, fileName: string): (r: Option<Segment>)
    ensures r.Some? ==> WellDated(r.value)
    ensures r.Some? ==>
              && r.value.depAirport == m.depAirport && r.value.arrAirport == m.arrAirport
              && r.value.aircraftType == m.aircraftType && r.value.registration == m.registration
              && r.value.lineIndex == lineIndex && r.value.fileName == fileName
              && r.value.depDate.year == refYear && r.value.depDate.month == refMonth
              && r.value.depTime == DecodeTime(m.depTime)
    ensures r.None? <==>
              || ResolveDay(m.depDay, refYear, refMonth, None).None?
              || ResolveDay(m.arrDay, refYear, refMonth, ResolveDay(m.depDay, refYear, refMonth, None)).None?
  {
    match ResolveDay(m.depDay, refYear, refMonth, None)
    case None => None
    case Some(dep) =>
      match ResolveDay(m.arrDay, refYear, refMonth, Some(dep))
      case None => None
      case Some(arr) =>
        Some(Segment(m.aircraftType, m.registration, m.depAirport, dep, DecodeTime(m.depTime),
                     m.arrAirport, arr, lineIndex, fileName))
  }

  /** Python's `<=` on `(hours, minutes)` tuples. */
  predicate TimeAtOrBefore(a: (int, int), b: (int, int))
  {
    a.0 < b.0 || (a.0 == b.0 && a.1 <= b.1)
  }

  /** The sort key of the page analysis: departure date, then departure time. */
  predicate SegmentLe(a: Segment, b: Segment)
  {
    Before(a.depDate, b.depDate) || (a.depDate == b.depDate && TimeAtOrBefore(a.depTime, b.depTime))
  }

  lemma SegmentLeTotal()
    ensures TotalPreorder(SegmentLe)
  {
  }

  /** `segments.sort(key=lambda s: (s.dep_date, s.dep_time))`. */
  function SortSegments(segs: seq<Segment>): (r: seq<Segment>)
    ensures SortedBy(r, SegmentLe) && multiset(r) == multiset(segs) && |r| == |segs|
  {
    SegmentLeTotal();
    SortBy(segs, SegmentLe)
  }
}
