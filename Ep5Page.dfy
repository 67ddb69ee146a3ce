/**
  The page analysis itself (`analyser_page_ep5`): its two loops, proved to compute the
  reference definitions of the module `Ep5Rotations`.
*/
module Ep5Page {
  import opened Wrappers
  import opened Text
  import opened Calendar
  import opened Sequences
  import opened Ep5Parse
  import opened Ep5Rotations

  /** The first loop of the page analysis: one pass over the lines, appending segments. */
  method ExtractSegments(lines: seq<string>, refYear: int, refMonth: int, fileName: string,
                         matchLine: string -> Option<LineMatch>) returns (segments: seq<Segment>)
    ensures segments == Extracted(lines, refYear, refMonth, fileName, matchLine)
  {
    ghost var rs := LineResults(lines, refYear, refMonth, fileName, matchLine);
    segments := [];
    var i := 0;
    while i < |lines|
      invariant i <= |lines|
      invariant segments == Present(rs[..i])
    {
      assert rs[..i + 1][..i] == rs[..i];
      var m := matchLine(Strip(lines[i]));
      if m.Some? {
        var s := ExtractSegment(m.value, refYear, refMonth, i, fileName);
        assert rs[i] == s;
        if s.Some? {
          segments := segments + [s.value];
        }
      } else {
        assert rs[i] == None;
      }
      i := i + 1;
    }
    assert rs[..|lines|] == rs;
  }

  /**
    The second loop of the page analysis. Idle, it opens a rotation on a segment leaving a
    base; open, it appends each segment and its arrival airport, and closes the rotation on
    a segment arriving at a base, recording dates, duration and collapsed itinerary. A
    rotation still open after the last segment is dropped.
  */
  method BuildRotations(t: seq<Segment>, fileName: string) returns (rotations: seq<Rotation>)
    requires Countable(t)
    ensures rotations == PageRotations(t, fileName)
  {
    rotations := [];
    var active := false;
    var start: Option<Date> := None;
    var itinerary: seq<string> := [];
    var current: seq<Segment> := [];
    ghost var done: seq<(nat, nat)> := [];
    ghost var a: nat := 0;
    var p: nat := 0;
    LoopStart(t, fileName);
    while p < |t|
      invariant p <= |t|
      invariant Loop(t, fileName, p, done, a, active, start, itinerary, current, rotations)
    {
      var s := t[p];
      if !active {
        if IsBase(s.depAirport) {
          LoopOpen(t, fileName, p, done, a, rotations);
          active := true;
          start := Some(s.depDate);
          itinerary := [s.depAirport, s.arrAirport];
          current := [s];
          a := p;
        } else {
          LoopSkip(t, fileName, p, done, a, rotations);
        }
      } else {
        ghost var itinerary0, current0 := itinerary, current;
        itinerary := itinerary + [s.arrAirport];
        current := current + [s];
        if IsBase(s.arrAirport) {
          LoopClose(t, fileName, p, done, a, start, itinerary0, current0, rotations);
          var end := s.arrDate;
          var duration := DaysBetween(start.value, end) + 1;
          var simplified := Collapse(itinerary);
          rotations := rotations + [Rotation(start.value, end, duration, fileName, simplified, current)];
          done := done + [(a, p + 1)];
          active := false;
          start := None;
          itinerary := [];
          current := [];
        } else {
          LoopExtend(t, fileName, p, done, a, start, itinerary0, current0, rotations);
        }
      }
      p := p + 1;
    }
    LoopEnd(t, fileName, done, a, active, start, itinerary, current, rotations);
  }

  /**
    `analyser_page_ep5`: the segments of the page text, sorted, and the rotations cut from
    them.
  */
  method AnalysePage(text: string, refYear: int, refMonth: int, fileName: string,
                     matchLine: string -> Option<LineMatch>) returns (rotations: seq<Rotation>, segments: seq<Segment>)
    ensures segments == PageSegments(text, refYear, refMonth, fileName, matchLine)
    ensures Countable(segments) && rotations == PageRotations(segments, fileName)
  {
    var lines := Split(text, {'\n'});
    segments := ExtractSegments(lines, refYear, refMonth, fileName, matchLine);
    if |segments| > 0 {
      segments := SortSegments(segments);
    } else {
      assert SortSegments(segments) == [];
    }
    assert segments == PageSegments(text, refYear, refMonth, fileName, matchLine);
    rotations := BuildRotations(segments, fileName);
  }
}
