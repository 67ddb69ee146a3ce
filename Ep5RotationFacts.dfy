/**
  What the rotations of a page are: where each one starts and ends, that they do not
  overlap, that none is missed, what their itinerary and duration are.
*/
module Ep5RotationFacts {
  import opened Wrappers
  import opened Calendar
  import opened Sequences
  import opened Ep5Parse
  import opened Ep5Rotations

  /**
    Rotation `k` holds the run `t[i..j]` of at least two segments: the first leaves a base,
    the last is the first segment after it to arrive at a base, and its dates are the
    departure of the first and the arrival of the last.
  */
  lemma RotationBoundaries(t: seq<Segment>, fileName: string, k: nat)
    requires Countable(t) && k < |Runs(t)|
    ensures var (i, j) := Runs(t)[k]; var r := PageRotations(t, fileName)[k];
      && i + 2 <= j <= |t|
      && r.segments == t[i..j] && r.fileName == fileName
      && r.departure == t[i].depDate && r.returnDate == t[j - 1].arrDate
      && IsBase(t[i].depAirport) && IsBase(t[j - 1].arrAirport)
      && (forall m :: i < m < j - 1 ==> !IsBase(t[m].arrAirport))
  {
    RunsWithin(t);
    RunShape(t, k);
    RotationsOfAt(t, Runs(t), fileName, k);
  }

  /** Rotations come in the order of the segments and share no segment. */
  lemma RotationsDisjoint(t: seq<Segment>, k: nat, l: nat)
    requires k < l < |Runs(t)|
    ensures Runs(t)[k].1 <= Runs(t)[l].0
  {
    ScanBounds(t, |t|);
  }

  /**
    No rotation is missed: a segment leaving a base that is in no rotation lies in a run
    that was opened at or before it and that no later segment closes.
  */
  lemma NoRotationMissed(t: seq<Segment>, m: nat)
    requires m < |t| && IsBase(t[m].depAirport) && !InRun(Runs(t), m)
    ensures exists a: nat :: a <= m && IsBase(t[a].depAirport) && forall n :: a < n < |t| ==> !IsBase(t[n].arrAirport)
  {
    ScanGaps(t, |t|);
    ScanShape(t, |t|);
    var phase := Scan(t, |t|).1;
    assert phase.Open? && phase.start <= m;
    assert IsBase(t[phase.start].depAirport);
  }

  /** A segment with no arrival at a base at or after it belongs to no rotation. */
  lemma UnclosedDropped(t: seq<Segment>, n: nat)
    requires n < |t| && forall m :: n <= m < |t| ==> !IsBase(t[m].arrAirport)
    ensures !InRun(Runs(t), n)
  {
    ScanShape(t, |t|);
  }

  /** The airports of a run of segments: where the first leaves from and where each lands. */
  lemma {:induction false} ItineraryOfSegments(segs: seq<Segment>)
    requires |segs| >= 1
    ensures var it := Collapse(RawItinerary(segs));
      && |it| >= 1 && it[0] == segs[0].depAirport && it[|it| - 1] == segs[|segs| - 1].arrAirport
      && (forall q :: 1 <= q < |it| ==> it[q - 1] != it[q])
      && (forall x :: x in it <==> x == segs[0].depAirport || exists s :: s in segs && s.arrAirport == x)
  {
    var raw := RawItinerary(segs);
    CollapseShape(raw);
    forall x ensures x in raw <==> x == segs[0].depAirport || exists s :: s in segs && s.arrAirport == x {
      if x in raw && x != segs[0].depAirport {
        var p :| 0 <= p < |raw| && raw[p] == x;
        assert segs[p - 1] in segs;
      }
      if exists s :: s in segs && s.arrAirport == x {
        var s :| s in segs && s.arrAirport == x;
        var q :| 0 <= q < |segs| && segs[q] == s;
        assert raw[q + 1] == x;
      }
    }
  }

  /**
    The itinerary of a rotation starts at the base it leaves and ends at the base it comes
    back to, never names the same airport twice in a row, and names exactly the departure
    airport of its first segment and the arrival airports of its segments.
  */
  lemma RotationItinerary(t: seq<Segment>, fileName: string, k: nat)
    requires Countable(t) && k < |Runs(t)|
    ensures var r := PageRotations(t, fileName)[k]; var it := r.itinerary; var segs := r.segments;
      && |segs| >= 2 && |it| >= 1
      && it[0] == segs[0].depAirport && IsBase(it[0])
      && it[|it| - 1] == segs[|segs| - 1].arrAirport && IsBase(it[|it| - 1])
      && (forall q :: 1 <= q < |it| ==> it[q - 1] != it[q])
      && (forall x :: x in it <==> x == segs[0].depAirport || exists s :: s in segs && s.arrAirport == x)
  {
    RunsWithin(t);
    RunShape(t, k);
    RotationsOfAt(t, Runs(t), fileName, k);
    var (i, j) := Runs(t)[k];
    RunEnds(t, i, j);
    ItineraryOfSegments(t[i..j]);
  }

  lemma RunEnds(t: seq<Segment>, i: nat, j: nat)
    requires i < j <= |t|
    ensures t[i..j][0] == t[i] && t[i..j][j - i - 1] == t[j - 1]
  {
  }

  /** A run whose last segment departs no earlier than the first and arrives after it departs. */
  lemma RunDuration(t: seq<Segment>, i: nat, j: nat, fileName: string)
    requires i < j <= |t| && Countable(t[i..j])
    requires WellDated(t[i]) && WellDated(t[j - 1]) && SegmentLe(t[i], t[j - 1])
    ensures var r := MakeRotation(t[i..j], fileName);
      AtOrBefore(r.departure, r.returnDate) && r.duration >= 1
  {
    var segs := t[i..j];
    assert segs[0] == t[i];
    assert segs[|segs| - 1] == t[j - 1];
    AtOrBeforeTransitive(t[i].depDate, t[j - 1].depDate, t[j - 1].arrDate);
    OrdinalOrder(t[i].depDate, t[j - 1].arrDate);
  }

  /**
    On the sorted segments of a page, every rotation returns on or after the day it leaves,
    so its duration is at least one day.
  */
  lemma RotationDuration(text: string, refYear: int, refMonth: int, fileName: string,
                         matchLine: string -> Option<LineMatch>, k: nat)
    requires k < |Runs(PageSegments(text, refYear, refMonth, fileName, matchLine))|
    ensures var t := PageSegments(text, refYear, refMonth, fileName, matchLine);
      var r := PageRotations(t, fileName)[k];
      AtOrBefore(r.departure, r.returnDate) && r.duration >= 1
  {
    var t := PageSegments(text, refYear, refMonth, fileName, matchLine);
    RunsWithin(t);
    RunShape(t, k);
    RotationsOfAt(t, Runs(t), fileName, k);
    var (i, j) := Runs(t)[k];
    assert SegmentLe(t[i], t[j - 1]);
    assert WellDated(t[i]) && WellDated(t[j - 1]);
    RunDuration(t, i, j, fileName);
  }

  /**
    A page with CDG to JFK on 5 June 2024 and JFK to CDG on 12 June 2024 has one rotation of
    8 days with itinerary CDG, JFK, CDG.
  */
  lemma NewYorkRoundTrip()
    ensures var out := Segment("B772", "FGSQA", "CDG", Date(2024, 6, 5), (10, 30), "JFK", Date(2024, 6, 5), 3, "ep5.pdf");
      var back := Segment("B772", "FGSQB", "JFK", Date(2024, 6, 12), (18, 0), "CDG", Date(2024, 6, 12), 7, "ep5.pdf");
      PageRotations([out, back], "ep5.pdf") ==
        [Rotation(Date(2024, 6, 5), Date(2024, 6, 12), 8, "ep5.pdf", ["CDG", "JFK", "CDG"], [out, back])]
  {
    var out := Segment("B772", "FGSQA", "CDG", Date(2024, 6, 5), (10, 30), "JFK", Date(2024, 6, 5), 3, "ep5.pdf");
    var back := Segment("B772", "FGSQB", "JFK", Date(2024, 6, 12), (18, 0), "CDG", Date(2024, 6, 12), 7, "ep5.pdf");
    var t := [out, back];
    assert IsBase("CDG") && !IsBase("JFK");
    assert Scan(t, 1) == ([], Open(0));
    assert Runs(t) == [(0, 2)];
    assert t[0..2] == t;
    SameMonthDays(Date(2024, 6, 5), Date(2024, 6, 12));
    assert RawItinerary(t) == ["CDG", "JFK", "CDG"];
    assert ["CDG", "JFK", "CDG"][..2] == ["CDG", "JFK"];
    assert ["CDG", "JFK"][..1] == ["CDG"];
    assert Collapse(["CDG", "JFK", "CDG"]) == ["CDG", "JFK", "CDG"];
    assert MakeRotation(t, "ep5.pdf") == Rotation(Date(2024, 6, 5), Date(2024, 6, 12), 8, "ep5.pdf", ["CDG", "JFK", "CDG"], t);
    RunsWithin(t);
    RotationsOfAt(t, Runs(t), "ep5.pdf", 0);
  }
}
