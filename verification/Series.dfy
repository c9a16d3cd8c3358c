/** A bounded series of measurements (bentod/src/metrics.rs, `Series`). */
module Series {

  datatype Point = Point(at: int, value: real)

  const INTERVAL: int := 30
  const DAY: int := 24 * 60 * 60
  const CAPACITY: nat := 2880

  function Push(points: seq<Point>, p: Point): seq<Point> {
    (if |points| == CAPACITY then points[1..] else points) + [p]
  }

  /** The points inside the window, oldest first. */
  function Window(points: seq<Point>, width: int, now: int): seq<Point>
    decreases |points|
  {
    if points == [] then []
    else
      var last := points[|points| - 1];
      Window(points[..|points| - 1], width, now) + (if last.at >= now - width then [last] else [])
  }

  class Ring {
    var points: seq<Point>

    constructor ()
      ensures points == []
    {
      points := [];
    }

    method PushPoint(at: int, value: real)
      modifies this
      ensures points == Push(old(points), Point(at, value))
    {
      if |points| == CAPACITY {
        points := points[1..];
      }
      points := points + [Point(at, value)];
    }

    method PointsInside(width: int, now: int) returns (inside: seq<Point>)
      ensures inside == Window(points, width, now)
    {
      var first := now - width;
      inside := [];
      for i := 0 to |points|
        invariant inside == Window(points[..i], width, now)
      {
        assert points[..i + 1][..i] == points[..i];
        if points[i].at >= first {
          inside := inside + [points[i]];
        }
      }
      assert points[..|points|] == points;
    }
  }

  /** The ring after every push of a log. */
  function Kept(log: seq<Point>): seq<Point>
    decreases |log|
  {
    if log == [] then [] else Push(Kept(log[..|log| - 1]), log[|log| - 1])
  }

  /** The ring is the newest part of the log, in order and never longer than its bound. */
  lemma {:induction false} KeptIsNewest(log: seq<Point>)
    ensures Kept(log) == if |log| <= CAPACITY then log else log[|log| - CAPACITY..]
    decreases |log|
  {
    if log != [] {
      var front := log[..|log| - 1];
      KeptIsNewest(front);
      assert log == front + [log[|log| - 1]];
    }
  }

  lemma {:induction false} WindowConcat(a: seq<Point>, b: seq<Point>, width: int, now: int)
    ensures Window(a + b, width, now) == Window(a, width, now) + Window(b, width, now)
    decreases |b|
  {
    if b == [] {
      assert a + b == a;
    } else {
      assert (a + b)[..|a + b| - 1] == a + b[..|b| - 1];
      WindowConcat(a, b[..|b| - 1], width, now);
    }
  }

  /** These places are in order, and hold exactly these points: all those at or after a moment. */
  ghost predicate Selects(points: seq<Point>, first: int, places: seq<nat>, chosen: seq<Point>) {
    && |places| == |chosen|
    && (forall i, j :: 0 <= i < j < |places| ==> places[i] < places[j])
    && (forall i :: 0 <= i < |places| ==> places[i] < |points| && chosen[i] == points[places[i]])
    && (forall k: nat :: k < |points| ==> (k in places <==> points[k].at >= first))
  }

  lemma SelectsNext(points: seq<Point>, first: int, places: seq<nat>, chosen: seq<Point>, p: Point)
    requires Selects(points, first, places, chosen)
    ensures p.at >= first ==> Selects(points + [p], first, places + [|points|], chosen + [p])
    ensures p.at < first ==> Selects(points + [p], first, places, chosen)
  {
    var more := points + [p];
    assert forall k: nat :: k < |points| ==> more[k] == points[k];
    assert more[|points|] == p;
    assert |points| !in places;
    var longer := places + [|points|];
    assert forall k: nat :: k in longer <==> k in places || k == |points|;
  }

  /** A window is the points at or after its first moment, all of them, once each and in order. */
  lemma {:induction false} WindowIsSubsequence(points: seq<Point>, width: int, now: int) returns (places: seq<nat>)
    ensures Selects(points, now - width, places, Window(points, width, now))
    decreases |points|
  {
    places := [];
    if points != [] {
      var n := |points| - 1;
      places := WindowIsSubsequence(points[..n], width, now);
      assert points == points[..n] + [points[n]];
      SelectsNext(points[..n], now - width, places, Window(points[..n], width, now), points[n]);
      if points[n].at >= now - width {
        places := places + [n];
      }
    }
  }

  ghost predicate InOrder(log: seq<Point>) {
    forall i, j :: 0 <= i < j < |log| ==> log[i].at <= log[j].at
  }

  lemma {:induction false} WindowEmptyExactlyWhen(log: seq<Point>, width: int, now: int)
    requires InOrder(log)
    ensures Window(log, width, now) == [] <==> log == [] || log[|log| - 1].at < now - width
    decreases |log|
  {
    if |log| > 1 {
      WindowEmptyExactlyWhen(log[..|log| - 1], width, now);
    }
  }

  /**
   * When dropping the oldest points shows. For readings in time order the
   * ring answers a window exactly as the whole log would, if and only if
   * nothing was dropped or the newest dropped point lies before the window.
   */
  lemma RingAnswersLikeLogExactlyWhen(log: seq<Point>, width: int, now: int)
    requires InOrder(log)
    ensures Window(Kept(log), width, now) == Window(log, width, now)
            <==> |log| <= CAPACITY || log[|log| - CAPACITY - 1].at < now - width
  {
    KeptIsNewest(log);
    if |log| > CAPACITY {
      var dropped, kept := log[..|log| - CAPACITY], log[|log| - CAPACITY..];
      assert log == dropped + kept;
      WindowConcat(dropped, kept, width, now);
      WindowEmptyExactlyWhen(dropped, width, now);
    }
  }

  // ------------------------------------------------------------------
  // Readings one interval apart
  // ------------------------------------------------------------------

  ghost predicate Spaced(log: seq<Point>) {
    forall i :: 0 < i < |log| ==> log[i - 1].at + INTERVAL <= log[i].at
  }

  lemma {:induction false} SpacedApart(log: seq<Point>, i: nat, j: nat)
    requires Spaced(log) && i <= j < |log|
    ensures log[i].at + INTERVAL * (j - i) <= log[j].at
    decreases j
  {
    if i < j {
      SpacedApart(log, i, j - 1);
      assert log[j - 1].at + INTERVAL <= log[j].at;
    }
  }

  lemma SpacedInOrder(log: seq<Point>)
    requires Spaced(log)
    ensures InOrder(log)
  {
    forall i, j | 0 <= i < j < |log| ensures log[i].at <= log[j].at {
      SpacedApart(log, i, j);
    }
  }

  /** Every log of spaced readings that ends at `newest` is answered in full. */
  ghost predicate CoversWindow(width: int, now: int, newest: int) {
    forall log: seq<Point> :: Spaced(log) && log != [] && log[|log| - 1].at == newest ==>
      Window(Kept(log), width, now) == Window(log, width, now)
  }

  lemma SpacedLogIsCovered(log: seq<Point>, width: int, now: int)
    requires Spaced(log) && log != [] && width < DAY + (now - log[|log| - 1].at)
    ensures Window(Kept(log), width, now) == Window(log, width, now)
  {
    SpacedInOrder(log);
    if |log| > CAPACITY {
      SpacedApart(log, |log| - CAPACITY - 1, |log| - 1);
    }
    RingAnswersLikeLogExactlyWhen(log, width, now);
  }

  /** One reading per interval for a day and one more. */
  function FullDay(newest: int): (log: seq<Point>)
    ensures |log| == CAPACITY + 1
    ensures forall i :: 0 <= i < |log| ==> log[i] == Point(newest - DAY + INTERVAL * i, 0.0)
  {
    seq(CAPACITY + 1, i => Point(newest - DAY + INTERVAL * i, 0.0))
  }

  /**
   * How wide a window the buffer of one day covers. With readings at least
   * one interval apart, every log is answered in full if and only if the
   * window is narrower than a day plus the age of the newest reading: a day
   * exactly needs a query later than the newest reading.
   */
  lemma WindowIsCoveredExactlyWhen(width: int, now: int, newest: int)
    ensures CoversWindow(width, now, newest) <==> width < DAY + (now - newest)
  {
    if width < DAY + (now - newest) {
      forall log: seq<Point> | Spaced(log) && log != [] && log[|log| - 1].at == newest
        ensures Window(Kept(log), width, now) == Window(log, width, now)
      {
        SpacedLogIsCovered(log, width, now);
      }
    } else {
      var log := FullDay(newest);
      assert Spaced(log);
      SpacedInOrder(log);
      RingAnswersLikeLogExactlyWhen(log, width, now);
      assert log[|log| - 1].at == newest;
    }
  }
}
