/**
 How long an attendee was connected inside the qualifying window.

 Connections of one attendee may overlap, so the loop that adds them up sorts the
 clipped spans and merges them. It is proved against a set of instants: the result is
 the number of instants of the window at which some connection was in force.
 */
module ConnectedTime {
  import opened Prelude

  datatype Window = Window(joinedAt: int, leftAt: Option<int>, roomEndedAt: Option<int>, roomReplacedAt: Option<int>)

  datatype Span = Span(start: int, end: int)

  predicate Before(limit: Option<int>, t: int) {
    limit.Some? ==> t < limit.value
  }

  predicate InForce(w: Window, t: int) {
    w.joinedAt <= t && Before(w.leftAt, t) && Before(w.roomEndedAt, t) && Before(w.roomReplacedAt, t)
  }

  function Range(lo: int, hi: int): (r: set<int>)
    ensures forall t :: t in r <==> lo <= t < hi
    decreases Max(hi - lo, 0)
  {
    if lo < hi then {lo} + Range(lo + 1, hi) else {}
  }

  function ConnectedInstants(ws: seq<Window>, lo: int, hi: int): set<int> {
    set t | t in Range(lo, hi) && exists i :: 0 <= i < |ws| && InForce(ws[i], t)
  }

  // ----- clipping and ordering -----

  function Or(limit: Option<int>, otherwise: int): int {
    if limit.Some? then limit.value else otherwise
  }

  function Clip(w: Window, lo: int, hi: int): Span {
    Span(Max(w.joinedAt, lo),
         Min(Min(Or(w.leftAt, hi), Or(w.roomEndedAt, hi)), Min(Or(w.roomReplacedAt, hi), hi)))
  }

  function Bounded(ws: seq<Window>, lo: int, hi: int): seq<Span> {
    if ws == [] then []
    else var s := Clip(ws[0], lo, hi);
         (if s.end > s.start then [s] else []) + Bounded(ws[1..], lo, hi)
  }

  predicate Precedes(a: Span, b: Span) {
    a.start < b.start || (a.start == b.start && a.end <= b.end)
  }

  function Insert(s: Span, ss: seq<Span>): seq<Span> {
    if ss == [] || Precedes(s, ss[0]) then [s] + ss else [ss[0]] + Insert(s, ss[1..])
  }

  function Sorted(ss: seq<Span>): seq<Span> {
    if ss == [] then [] else Insert(ss[0], Sorted(ss[1..]))
  }

  ghost predicate Ascending(ss: seq<Span>) {
    forall i, j :: 0 <= i < j < |ss| ==> ss[i].start <= ss[j].start
  }

  function Covered(ss: seq<Span>): set<int> {
    if ss == [] then {} else Range(ss[0].start, ss[0].end) + Covered(ss[1..])
  }

  lemma {:induction false} RangeSize(lo: int, hi: int)
    requires lo <= hi
    ensures |Range(lo, hi)| == hi - lo
    decreases hi - lo
  {
    if lo < hi { RangeSize(lo + 1, hi); }
  }

  /** Clipping and dropping empty spans keeps exactly the connected instants. */
  lemma {:induction false} BoundedCovers(ws: seq<Window>, lo: int, hi: int)
    ensures Covered(Bounded(ws, lo, hi)) == ConnectedInstants(ws, lo, hi)
  {
    if ws != [] {
      var s, rest := Clip(ws[0], lo, hi), ws[1..];
      BoundedCovers(rest, lo, hi);
      forall t ensures t in ConnectedInstants(ws, lo, hi) <==> t in Range(s.start, s.end) || t in ConnectedInstants(rest, lo, hi) {
        if lo <= t < hi {
          if i :| 0 <= i < |ws| && InForce(ws[i], t) { assert i > 0 ==> InForce(rest[i - 1], t); }
          if i :| 0 <= i < |rest| && InForce(rest[i], t) { assert InForce(ws[i + 1], t); }
        }
      }
      CoveredOfHead(ws, lo, hi);
    }
  }

  lemma CoveredOfHead(ws: seq<Window>, lo: int, hi: int)
    requires ws != []
    ensures var s := Clip(ws[0], lo, hi);
      Covered(Bounded(ws, lo, hi)) == Range(s.start, s.end) + Covered(Bounded(ws[1..], lo, hi))
  {
    var s, rest := Clip(ws[0], lo, hi), Bounded(ws[1..], lo, hi);
    if s.end > s.start {
      assert Bounded(ws, lo, hi) == [s] + rest;
      assert ([s] + rest)[1..] == rest;
    } else {
      assert Bounded(ws, lo, hi) == rest;
      assert Range(s.start, s.end) == {};
    }
  }

  lemma {:induction false} InsertAdds(s: Span, ss: seq<Span>)
    ensures multiset(Insert(s, ss)) == multiset(ss) + multiset{s}
  {
    if ss != [] && !Precedes(s, ss[0]) {
      InsertAdds(s, ss[1..]);
      assert ss == [ss[0]] + ss[1..];
    }
  }

  lemma {:induction false} InsertCovers(s: Span, ss: seq<Span>)
    ensures Covered(Insert(s, ss)) == Range(s.start, s.end) + Covered(ss)
  {
    if ss == [] || Precedes(s, ss[0]) {
      assert ([s] + ss)[1..] == ss;
    } else {
      InsertCovers(s, ss[1..]);
      var tail := Insert(s, ss[1..]);
      assert ([ss[0]] + tail)[1..] == tail;
    }
  }

  lemma {:induction false} InsertSorts(s: Span, ss: seq<Span>)
    requires Ascending(ss)
    ensures Ascending(Insert(s, ss))
  {
    if ss != [] && !Precedes(s, ss[0]) {
      InsertSorts(s, ss[1..]);
      InsertAdds(s, ss[1..]);
      var tail := Insert(s, ss[1..]);
      forall j | 0 <= j < |tail| ensures ss[0].start <= tail[j].start {
        assert tail[j] in multiset(tail);
        assert tail[j] == s || tail[j] in ss[1..];
      }
    }
  }

  lemma {:induction false} SortedSorts(ss: seq<Span>)
    ensures Ascending(Sorted(ss)) && Covered(Sorted(ss)) == Covered(ss)
    ensures multiset(Sorted(ss)) == multiset(ss)
  {
    if ss != [] {
      SortedSorts(ss[1..]);
      InsertSorts(ss[0], Sorted(ss[1..]));
      InsertCovers(ss[0], Sorted(ss[1..]));
      InsertAdds(ss[0], Sorted(ss[1..]));
      assert ss == [ss[0]] + ss[1..];
    }
  }

  lemma {:induction false} CoveredAppend(ss: seq<Span>, s: Span)
    ensures Covered(ss + [s]) == Covered(ss) + Range(s.start, s.end)
  {
    if ss == [] {
      assert ss + [s] == [s];
    } else {
      assert (ss + [s])[1..] == ss[1..] + [s];
      CoveredAppend(ss[1..], s);
    }
  }

  // ----- the loop -----

  /** What the loop has established: the spans so far cover the last merged span and,
      below it, `total` instants more. */
  ghost predicate Merged(covered: set<int>, total: int, span: Span) {
    && span.start < span.end
    && var below := covered - Range(span.start, span.end);
       && (forall t :: t in below ==> t < span.start)
       && |below| == total && Range(span.start, span.end) <= covered
  }

  lemma MergedSize(covered: set<int>, total: int, span: Span)
    requires Merged(covered, total, span)
    ensures |covered| == total + span.end - span.start
  {
    var last := Range(span.start, span.end);
    assert covered == (covered - last) + last;
    DisjointSize(covered - last, last);
    RangeSize(span.start, span.end);
  }

  lemma Widened(covered: set<int>, total: int, span: Span, next: Span)
    requires Merged(covered, total, span) && span.start <= next.start <= span.end
    ensures Merged(covered + Range(next.start, next.end), total, Span(span.start, Max(span.end, next.end)))
  {
    var wide := Range(span.start, Max(span.end, next.end));
    assert covered + Range(next.start, next.end) - wide == covered - Range(span.start, span.end);
  }

  lemma Separated(covered: set<int>, total: int, span: Span, next: Span)
    requires Merged(covered, total, span) && span.end < next.start < next.end
    ensures Merged(covered + Range(next.start, next.end), total + span.end - span.start, next)
  {
    MergedSize(covered, total, span);
    forall t | t in covered ensures t < next.start {
      if t !in Range(span.start, span.end) { assert t in covered - Range(span.start, span.end); }
    }
    assert covered + Range(next.start, next.end) - Range(next.start, next.end) == covered;
  }

  lemma {:induction false} BoundedNonempty(ws: seq<Window>, lo: int, hi: int)
    ensures forall i :: 0 <= i < |Bounded(ws, lo, hi)| ==> Bounded(ws, lo, hi)[i].start < Bounded(ws, lo, hi)[i].end
  {
    if ws != [] { BoundedNonempty(ws[1..], lo, hi); }
  }

  lemma SortedNonempty(ws: seq<Window>, lo: int, hi: int)
    ensures var ss := Sorted(Bounded(ws, lo, hi)); forall i :: 0 <= i < |ss| ==> ss[i].start < ss[i].end
  {
    BoundedNonempty(ws, lo, hi);
    SortedSorts(Bounded(ws, lo, hi));
    var ss := Sorted(Bounded(ws, lo, hi));
    forall i | 0 <= i < |ss| ensures ss[i].start < ss[i].end {
      assert ss[i] in multiset(Bounded(ws, lo, hi));
    }
  }

  /** The spans read so far: nothing yet, or a merged span and what lies below it. */
  ghost predicate Progress(read: seq<Span>, total: int, current: Option<Span>) {
    if read == [] then current.None? && total == 0
    else current.Some? && Merged(Covered(read), total, current.value) && current.value.start <= read[|read| - 1].start
  }

  lemma Advances(read: seq<Span>, total: int, current: Option<Span>, next: Span)
    requires Progress(read, total, current) && next.start < next.end
    requires read != [] ==> read[|read| - 1].start <= next.start
    ensures current.None? ==> Progress(read + [next], total, Some(next))
    ensures current.Some? && next.start <= current.value.end
      ==> Progress(read + [next], total, Some(Span(current.value.start, Max(current.value.end, next.end))))
    ensures current.Some? && next.start > current.value.end
      ==> Progress(read + [next], total + current.value.end - current.value.start, Some(next))
  {
    CoveredAppend(read, next);
    if current.None? {
      assert Covered(read + [next]) - Range(next.start, next.end) == {};
    } else if next.start <= current.value.end {
      Widened(Covered(read), total, current.value, next);
    } else {
      Separated(Covered(read), total, current.value, next);
    }
  }

  ghost predicate Ready(spans: seq<Span>) {
    forall i :: 0 <= i < |spans| ==> spans[i].start < spans[i].end && (i > 0 ==> spans[i - 1].start <= spans[i].start)
  }

  lemma SpansReady(ws: seq<Window>, lo: int, hi: int)
    ensures Ready(Sorted(Bounded(ws, lo, hi)))
    ensures Covered(Sorted(Bounded(ws, lo, hi))) == ConnectedInstants(ws, lo, hi)
  {
    SortedSorts(Bounded(ws, lo, hi));
    BoundedCovers(ws, lo, hi);
    SortedNonempty(ws, lo, hi);
  }

  /** The qualifying time is the number of instants of the window at which the attendee
      was connected, however the connections overlap and in whatever order they come. */
  method QualifyingTime(ws: seq<Window>, lo: int, hi: int) returns (total: int)
    ensures total == |ConnectedInstants(ws, lo, hi)|
  {
    if hi <= lo { return 0; }
    SpansReady(ws, lo, hi);
    total := MergeSpans(Sorted(Bounded(ws, lo, hi)));
  }

  method MergeSpans(spans: seq<Span>) returns (total: int)
    requires Ready(spans)
    ensures total == |Covered(spans)|
  {
    total := 0;
    var current: Option<Span> := None;
    for i := 0 to |spans|
      invariant Progress(spans[..i], total, current)
    {
      var span := spans[i];
      assert spans[..i + 1] == spans[..i] + [span];
      Advances(spans[..i], total, current, span);
      if current.None? {
        current := Some(span);
        continue;
      }
      if span.start <= current.value.end {
        current := Some(Span(current.value.start, Max(current.value.end, span.end)));
        continue;
      }
      total := total + current.value.end - current.value.start;
      current := Some(span);
    }
    assert spans[..|spans|] == spans;
    if current.Some? {
      MergedSize(Covered(spans), total, current.value);
      total := total + current.value.end - current.value.start;
    }
  }

  /** Another connection never shortens the time, and it lengthens it by no more than the
      part of the window it covers. */
  lemma MoreConnections(ws: seq<Window>, w: Window, lo: int, hi: int)
    ensures |ConnectedInstants(ws, lo, hi)| <= |ConnectedInstants(ws + [w], lo, hi)|
    ensures |ConnectedInstants(ws + [w], lo, hi)| <= |ConnectedInstants(ws, lo, hi)| + |ConnectedInstants([w], lo, hi)|
  {
    var before, one, after := ConnectedInstants(ws, lo, hi), ConnectedInstants([w], lo, hi), ConnectedInstants(ws + [w], lo, hi);
    assert [w][0] == w && (ws + [w])[|ws|] == w;
    forall t ensures t in after <==> t in before || t in one {
      if i :| 0 <= i < |ws| && InForce(ws[i], t) { assert InForce((ws + [w])[i], t); }
      if InForce(w, t) { assert InForce([w][0], t) && InForce((ws + [w])[|ws|], t); }
    }
    assert after == before + one;
    SubsetSize(before, after);
    assert after == before + (one - before);
    SubsetSize(one - before, one);
  }
}
