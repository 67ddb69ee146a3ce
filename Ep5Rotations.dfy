/**
  The analysis of one EP5 page (`analyser_page_ep5`): the segments of the lines the line
  pattern matches, sorted by departure, then cut into rotations by a two-state loop. A
  rotation opens on a departure from a base and closes on the next later segment that
  arrives at a base.

  The reference definitions below say which segments a page yields (`PageSegments`), which
  runs of them become rotations (`Scan`, `Runs`) and what each rotation holds
  (`MakeRotation`); the methods of `Ep5Page` are proved to compute exactly these.
*/
module Ep5Rotations {
  import opened Wrappers
  import opened Text
  import opened Calendar
  import opened Sequences
  import opened Ep5Parse

  /** A rotation: departure and return dates, length in days, file, airports, segments. */
  datatype Rotation = Rotation(
    departure: Date, returnDate: Date, duration: int, fileName: string,
    itinerary: seq<string>, segments: seq<Segment>)

  predicate AllWellDated(t: seq<Segment>)
  {
    forall k :: 0 <= k < |t| ==> WellDated(t[k])
  }

  /** Both months of the segment are real months, all a day count needs. */
  predicate InRange(s: Segment)
  {
    1 <= s.depDate.month <= 12 && 1 <= s.arrDate.month <= 12
  }

  /** The dates of every segment of `t` can be counted in days. */
  predicate Countable(t: seq<Segment>)
  {
    forall k :: 0 <= k < |t| ==> InRange(t[k])
  }

  lemma WellDatedCountable(t: seq<Segment>)
    requires AllWellDated(t)
    ensures Countable(t)
  {
    forall k | 0 <= k < |t| ensures InRange(t[k]) {
      assert WellDated(t[k]);
    }
  }

  // ---------------------------------------------------------------- extraction

  /** The segment line `k` of the page yields, if the pattern matches it and its days resolve. */
  function LineSegment(lines: seq<string>, k: nat, refYear: int, refMonth: int, fileName: string,
                       matchLine: string -> Option<LineMatch>): (r: Option<Segment>)
    requires k < |lines|
    ensures r.Some? ==> WellDated(r.value) && r.value.lineIndex == k && r.value.fileName == fileName
  {
    match matchLine(Strip(lines[k]))
    case None => None
    case Some(m) => ExtractSegment(m, refYear, refMonth, k, fileName)
  }

  /** What each line of the page yields, line by line. */
  function LineResults(lines: seq<string>, refYear: int, refMonth: int, fileName: string,
                       matchLine: string -> Option<LineMatch>): (r: seq<Option<Segment>>)
    ensures |r| == |lines|
  {
    seq(|lines|, k requires 0 <= k < |lines| => LineSegment(lines, k, refYear, refMonth, fileName, matchLine))
  }

  /** The segments of the page, in line order. */
  function Extracted(lines: seq<string>, refYear: int, refMonth: int, fileName: string,
                     matchLine: string -> Option<LineMatch>): seq<Segment>
  {
    Present(LineResults(lines, refYear, refMonth, fileName, matchLine))
  }

  /**
    The extracted segments are exactly those of the lines that yield one: a line whose
    dates do not resolve is dropped and changes nothing else. All of them are well dated.
  */
  lemma ExtractedExactly(lines: seq<string>, refYear: int, refMonth: int, fileName: string,
                         matchLine: string -> Option<LineMatch>)
    ensures forall k :: 0 <= k < |lines| ==>
      var line := LineResults(lines, refYear, refMonth, fileName, matchLine)[k];
      line.Some? ==> line.value in Extracted(lines, refYear, refMonth, fileName, matchLine)
    ensures forall s :: s in Extracted(lines, refYear, refMonth, fileName, matchLine) ==>
      && s.lineIndex < |lines|
      && LineResults(lines, refYear, refMonth, fileName, matchLine)[s.lineIndex] == Some(s)
      && WellDated(s)
  {
    var rs := LineResults(lines, refYear, refMonth, fileName, matchLine);
    forall k | 0 <= k < |lines| && rs[k].Some? ensures rs[k].value in Present(rs) {
      PresentKeeps(rs, k);
    }
    forall s | s in Present(rs) ensures s.lineIndex < |lines| && rs[s.lineIndex] == Some(s) && WellDated(s) {
      PresentFrom(rs, s);
      var k :| 0 <= k < |rs| && rs[k] == Some(s);
      assert rs[k] == LineSegment(lines, k, refYear, refMonth, fileName, matchLine);
    }
  }

  lemma ExtractedWellDated(lines: seq<string>, refYear: int, refMonth: int, fileName: string,
                           matchLine: string -> Option<LineMatch>)
    ensures AllWellDated(Extracted(lines, refYear, refMonth, fileName, matchLine))
  {
    ExtractedExactly(lines, refYear, refMonth, fileName, matchLine);
    var r := Extracted(lines, refYear, refMonth, fileName, matchLine);
    forall k | 0 <= k < |r| ensures WellDated(r[k]) {
      assert r[k] in r;
    }
  }

  /** Rearranging well-dated segments leaves them well dated. */
  lemma WellDatedPermutation(a: seq<Segment>, b: seq<Segment>)
    requires AllWellDated(a) && multiset(a) == multiset(b)
    ensures AllWellDated(b)
  {
    forall k | 0 <= k < |b| ensures WellDated(b[k]) {
      assert b[k] in multiset(a);
      var j :| 0 <= j < |a| && a[j] == b[k];
    }
  }

  /**
    The segment list of a page: its lines are cut at `'\n'`, the segments extracted, then
    sorted by departure date and time. Every extracted segment is in it, each once.
  */
  function PageSegments(text: string, refYear: int, refMonth: int, fileName: string,
                        matchLine: string -> Option<LineMatch>): (r: seq<Segment>)
    ensures SortedBy(r, SegmentLe)
    ensures multiset(r) == multiset(Extracted(Split(text, {'\n'}), refYear, refMonth, fileName, matchLine))
    ensures AllWellDated(r) && Countable(r)
  {
    var e := Extracted(Split(text, {'\n'}), refYear, refMonth, fileName, matchLine);
    ExtractedWellDated(Split(text, {'\n'}), refYear, refMonth, fileName, matchLine);
    WellDatedPermutation(e, SortSegments(e));
    WellDatedCountable(SortSegments(e));
    SortSegments(e)
  }

  // ---------------------------------------------------------------- rotation boundaries

  /** Where the second loop stands: outside any rotation, or inside one opened at segment `start`. */
  datatype Phase = Idle | Open(start: nat)

  /**
    The runs `t[i..j]` closed after reading `t[..p]`, and the phase then. Idle, a segment
    leaving a base opens a run (whatever its arrival); open, a segment arriving at a base
    closes it, and any other segment extends it.
  */
  function Scan(t: seq<Segment>, p: nat): (seq<(nat, nat)>, Phase)
    requires p <= |t|
  {
    if p == 0 then ([], Idle)
    else
      var (done, phase) := Scan(t, p - 1);
      var s := t[p - 1];
      match phase
      case Idle => if IsBase(s.depAirport) then (done, Open(p - 1)) else (done, Idle)
      case Open(a) => if IsBase(s.arrAirport) then (done + [(a, p)], Idle) else (done, Open(a))
  }

  /** The runs of the whole page; a run still open after the last segment is not among them. */
  function Runs(t: seq<Segment>): seq<(nat, nat)>
  {
    Scan(t, |t|).0
  }

  predicate SpansWithin(t: seq<Segment>, sp: seq<(nat, nat)>)
  {
    forall k :: 0 <= k < |sp| ==> sp[k].0 + 2 <= sp[k].1 <= |t|
  }

  /**
    Runs hold at least two segments, lie in `t[..p]`, come in order without overlapping,
    and the open run, if any, starts after the last closed one.
  */
  lemma {:induction false} ScanBounds(t: seq<Segment>, p: nat)
    requires p <= |t|
    ensures var (done, phase) := Scan(t, p);
      && (forall k :: 0 <= k < |done| ==> done[k].0 + 2 <= done[k].1 <= p)
      && (forall k, l :: 0 <= k < l < |done| ==> done[k].1 <= done[l].0)
      && (phase.Open? ==> phase.start < p && forall k :: 0 <= k < |done| ==> done[k].1 <= phase.start)
  {
    if p > 0 {
      ScanBounds(t, p - 1);
    }
  }

  /**
    Each run starts with a segment leaving a base and ends with one arriving at a base, and
    no segment strictly inside it arrives at a base; the same holds so far for an open run.
  */
  lemma {:induction false} ScanShape(t: seq<Segment>, p: nat)
    requires p <= |t|
    ensures var (done, phase) := Scan(t, p);
      && (forall k :: 0 <= k < |done| ==> done[k].0 + 2 <= done[k].1 <= p)
      && (forall k :: 0 <= k < |done| ==> IsBase(t[done[k].0].depAirport) && IsBase(t[done[k].1 - 1].arrAirport))
      && (forall k, m :: 0 <= k < |done| && done[k].0 < m < done[k].1 - 1 ==> !IsBase(t[m].arrAirport))
      && (phase.Open? ==> phase.start < p && IsBase(t[phase.start].depAirport))
      && (phase.Open? ==> forall m :: phase.start < m < p ==> !IsBase(t[m].arrAirport))
  {
    if p > 0 {
      ScanShape(t, p - 1);
      var (done, phase) := Scan(t, p - 1);
      if phase.Open? && IsBase(t[p - 1].arrAirport) {
        var done' := done + [(phase.start, p)];
        forall k | 0 <= k < |done'| ensures done'[k] == if k < |done| then done[k] else (phase.start, p) { }
      }
    }
  }

  /** The runs of the whole page lie within it. */
  lemma RunsWithin(t: seq<Segment>)
    ensures SpansWithin(t, Runs(t))
  {
    ScanBounds(t, |t|);
  }

  /** Run `k` of the page, as `ScanShape` describes it. */
  lemma RunShape(t: seq<Segment>, k: nat)
    requires k < |Runs(t)|
    ensures var (i, j) := Runs(t)[k];
      && i + 2 <= j <= |t|
      && IsBase(t[i].depAirport) && IsBase(t[j - 1].arrAirport)
      && (forall m :: i < m < j - 1 ==> !IsBase(t[m].arrAirport))
  {
    ScanShape(t, |t|);
  }

  /** Segment `m` belongs to one of the runs. */
  ghost predicate InRun(done: seq<(nat, nat)>, m: nat)
  {
    exists k :: 0 <= k < |done| && done[k].0 <= m < done[k].1
  }

  /**
    A segment of `t[..p]` outside every run, and before the open run if any, does not leave
    a base: no rotation is missed.
  */
  lemma {:induction false} ScanGaps(t: seq<Segment>, p: nat)
    requires p <= |t|
    ensures var (done, phase) := Scan(t, p);
      forall m :: 0 <= m < p && !InRun(done, m) && !(phase.Open? && phase.start <= m) ==> !IsBase(t[m].depAirport)
  {
    if p > 0 {
      ScanGaps(t, p - 1);
      ScanBounds(t, p - 1);
      var (done, phase) := Scan(t, p - 1);
      if phase.Open? && IsBase(t[p - 1].arrAirport) {
        forall m | 0 <= m < p ensures InRun(done + [(phase.start, p)], m) <==> InRun(done, m) || phase.start <= m {
          InRunSnoc(done, phase.start, p, m);
        }
      }
    }
  }

  lemma InRunSnoc(done: seq<(nat, nat)>, i: nat, j: nat, m: nat)
    ensures InRun(done + [(i, j)], m) <==> InRun(done, m) || i <= m < j
  {
    var done' := done + [(i, j)];
    if InRun(done, m) {
      var k :| 0 <= k < |done| && done[k].0 <= m < done[k].1;
      assert done'[k] == done[k];
    }
    if i <= m < j {
      assert done'[|done|] == (i, j);
    }
    if InRun(done', m) {
      var k :| 0 <= k < |done'| && done'[k].0 <= m < done'[k].1;
      if k < |done| {
        assert done[k] == done'[k];
      }
    }
  }

  // ---------------------------------------------------------------- what a rotation holds

  /** The airports in order: where the first segment leaves from, then where each one lands. */
  function RawItinerary(segs: seq<Segment>): seq<string>
    requires |segs| >= 1
  {
    [segs[0].depAirport] + seq(|segs|, k requires 0 <= k < |segs| => segs[k].arrAirport)
  }

  /**
    The itinerary with consecutive repeats removed: the first airport, then every airport
    that differs from the one before it in `xs`.
  */
  function Collapse(xs: seq<string>): seq<string>
    requires |xs| >= 1
  {
    if |xs| == 1 then xs
    else
      var c := Collapse(xs[..|xs| - 1]);
      if xs[|xs| - 1] != xs[|xs| - 2] then c + [xs[|xs| - 1]] else c
  }

  /**
    Collapsing keeps the first and the last airport, leaves no airport next to itself, and
    keeps exactly the airports of `xs`.
  */
  lemma {:induction false} CollapseShape(xs: seq<string>)
    requires |xs| >= 1
    ensures var r := Collapse(xs);
      && |r| >= 1 && r[0] == xs[0] && r[|r| - 1] == xs[|xs| - 1]
      && (forall k :: 1 <= k < |r| ==> r[k - 1] != r[k])
      && (forall x :: x in r <==> x in xs)
  {
    if |xs| > 1 {
      var init := xs[..|xs| - 1];
      assert xs == init + [xs[|xs| - 1]];
      CollapseShape(init);
    }
  }

  function MakeRotation(segs: seq<Segment>, fileName: string): Rotation
    requires |segs| >= 1 && Countable(segs)
  {
    var start := segs[0].depDate;
    var end := segs[|segs| - 1].arrDate;
    Rotation(start, end, DaysBetween(start, end) + 1, fileName, Collapse(RawItinerary(segs)), segs)
  }

  lemma CountableSlice(t: seq<Segment>, i: nat, j: nat)
    requires Countable(t) && i <= j <= |t|
    ensures Countable(t[i..j])
  {
    forall k | 0 <= k < j - i ensures InRange(t[i..j][k]) {
      assert t[i..j][k] == t[i + k];
    }
  }

  /** One rotation per run, in order. */
  function RotationsOf(t: seq<Segment>, sp: seq<(nat, nat)>, fileName: string): (r: seq<Rotation>)
    requires Countable(t) && SpansWithin(t, sp)
    ensures |r| == |sp|
  {
    if sp == [] then []
    else
      var (i, j) := sp[|sp| - 1];
      CountableSlice(t, i, j);
      RotationsOf(t, sp[..|sp| - 1], fileName) + [MakeRotation(t[i..j], fileName)]
  }

  lemma {:induction false} RotationsOfAt(t: seq<Segment>, sp: seq<(nat, nat)>, fileName: string, k: nat)
    requires Countable(t) && SpansWithin(t, sp) && k < |sp|
    ensures Countable(t[sp[k].0..sp[k].1])
    ensures RotationsOf(t, sp, fileName)[k] == MakeRotation(t[sp[k].0..sp[k].1], fileName)
  {
    CountableSlice(t, sp[k].0, sp[k].1);
    if k < |sp| - 1 {
      RotationsOfAt(t, sp[..|sp| - 1], fileName, k);
    }
  }

  /** The rotations of a page whose sorted segments are `t`. */
  function PageRotations(t: seq<Segment>, fileName: string): (r: seq<Rotation>)
    requires Countable(t)
    ensures |r| == |Runs(t)|
  {
    RunsWithin(t);
    RotationsOf(t, Runs(t), fileName)
  }

  // ---------------------------------------------------------------- the loop

  /** One more segment extends the itinerary by its arrival airport. */
  lemma RawItinerarySnoc(segs: seq<Segment>, s: Segment)
    requires |segs| >= 1
    ensures RawItinerary(segs + [s]) == RawItinerary(segs) + [s.arrAirport]
  {
  }

  /**
    The state of the second loop after reading `t[..p]`: the runs closed so far are `done`
    and their rotations are `rotations`; open since segment `a`, `current` holds `t[a..p]`,
    `itinerary` their airports and `start` the departure date; idle, all three are empty.
  */
  ghost predicate Loop(t: seq<Segment>, fileName: string, p: nat, done: seq<(nat, nat)>, a: nat,
                       active: bool, start: Option<Date>, itinerary: seq<string>, current: seq<Segment>,
                       rotations: seq<Rotation>)
  {
    && Countable(t) && p <= |t|
    && Scan(t, p) == (done, if active then Open(a) else Idle)
    && SpansWithin(t, done)
    && rotations == RotationsOf(t, done, fileName)
    && (!active ==> start.None? && itinerary == [] && current == [])
    && (active ==> a < p && current == t[a..p] && itinerary == RawItinerary(current) && start == Some(t[a].depDate))
  }

  lemma LoopStart(t: seq<Segment>, fileName: string)
    requires Countable(t)
    ensures Loop(t, fileName, 0, [], 0, false, None, [], [], [])
  {
  }

  /** Idle, a segment that does not leave a base is passed over. */
  lemma LoopSkip(t: seq<Segment>, fileName: string, p: nat, done: seq<(nat, nat)>, a: nat, rotations: seq<Rotation>)
    requires p < |t| && !IsBase(t[p].depAirport)
    ensures Loop(t, fileName, p, done, a, false, None, [], [], rotations) ==>
      Loop(t, fileName, p + 1, done, a, false, None, [], [], rotations)
  {
  }

  /** Idle, a segment leaving a base opens a rotation with its two airports. */
  lemma LoopOpen(t: seq<Segment>, fileName: string, p: nat, done: seq<(nat, nat)>, a: nat, rotations: seq<Rotation>)
    requires p < |t| && IsBase(t[p].depAirport)
    ensures Loop(t, fileName, p, done, a, false, None, [], [], rotations) ==>
      Loop(t, fileName, p + 1, done, p, true, Some(t[p].depDate), [t[p].depAirport, t[p].arrAirport], [t[p]], rotations)
  {
    if Loop(t, fileName, p, done, a, false, None, [], [], rotations) {
      assert t[p..p + 1] == [t[p]];
    }
  }

  /** Open, a segment not arriving at a base is appended. */
  lemma LoopExtend(t: seq<Segment>, fileName: string, p: nat, done: seq<(nat, nat)>, a: nat,
                   start: Option<Date>, itinerary: seq<string>, current: seq<Segment>, rotations: seq<Rotation>)
    requires p < |t| && !IsBase(t[p].arrAirport)
    ensures Loop(t, fileName, p, done, a, true, start, itinerary, current, rotations) ==>
      Loop(t, fileName, p + 1, done, a, true, start, itinerary + [t[p].arrAirport], current + [t[p]], rotations)
  {
    if Loop(t, fileName, p, done, a, true, start, itinerary, current, rotations) {
      assert t[a..p + 1] == t[a..p] + [t[p]];
      RawItinerarySnoc(current, t[p]);
    }
  }

  /** Open, a segment arriving at a base is appended and closes the rotation. */
  lemma LoopClose(t: seq<Segment>, fileName: string, p: nat, done: seq<(nat, nat)>, a: nat,
                  start: Option<Date>, itinerary: seq<string>, current: seq<Segment>, rotations: seq<Rotation>)
    requires p < |t| && IsBase(t[p].arrAirport)
    ensures Loop(t, fileName, p, done, a, true, start, itinerary, current, rotations) ==>
      && start.Some?
      && Loop(t, fileName, p + 1, done + [(a, p + 1)], a, false, None, [], [],
              rotations + [Rotation(start.value, t[p].arrDate, DaysBetween(start.value, t[p].arrDate) + 1, fileName,
                                    Collapse(itinerary + [t[p].arrAirport]), current + [t[p]])])
  {
    if Loop(t, fileName, p, done, a, true, start, itinerary, current, rotations) {
      CloseRotation(t, fileName, p, a, start, itinerary, current);
      RotationsSnoc(t, done, a, p + 1, fileName);
      assert Scan(t, p + 1) == (done + [(a, p + 1)], Idle);
    }
  }

  /** The rotation the loop builds on closing is the one of the run `t[a..p + 1]`. */
  lemma CloseRotation(t: seq<Segment>, fileName: string, p: nat, a: nat,
                      start: Option<Date>, itinerary: seq<string>, current: seq<Segment>)
    requires Countable(t) && a < p < |t|
    requires current == t[a..p] && itinerary == RawItinerary(current) && start == Some(t[a].depDate)
    ensures Countable(t[a..p + 1])
    ensures Rotation(start.value, t[p].arrDate, DaysBetween(start.value, t[p].arrDate) + 1, fileName,
                     Collapse(itinerary + [t[p].arrAirport]), current + [t[p]]) == MakeRotation(t[a..p + 1], fileName)
  {
    var segs := t[a..p + 1];
    assert segs == current + [t[p]];
    RawItinerarySnoc(current, t[p]);
    CountableSlice(t, a, p + 1);
  }

  lemma RotationsSnoc(t: seq<Segment>, done: seq<(nat, nat)>, i: nat, j: nat, fileName: string)
    requires Countable(t) && SpansWithin(t, done) && i + 2 <= j <= |t|
    ensures SpansWithin(t, done + [(i, j)]) && Countable(t[i..j])
    ensures RotationsOf(t, done + [(i, j)], fileName) == RotationsOf(t, done, fileName) + [MakeRotation(t[i..j], fileName)]
  {
    CountableSlice(t, i, j);
    assert (done + [(i, j)])[..|done|] == done;
  }

  /** At the end of the page, the rotations are those of the page's runs. */
  lemma LoopEnd(t: seq<Segment>, fileName: string, done: seq<(nat, nat)>, a: nat, active: bool,
                start: Option<Date>, itinerary: seq<string>, current: seq<Segment>, rotations: seq<Rotation>)
    requires Loop(t, fileName, |t|, done, a, active, start, itinerary, current, rotations)
    ensures rotations == PageRotations(t, fileName)
  {
  }
}
