/**
 * The timed loop that keeps the controller lease alive
 * (bentod/src/serve.rs, `every` and `spawn_lease_renewal`). Times are
 * nanoseconds on one clock.
 */
module LeaseRenewal {
  import opened Options
  import ControllerStore

  const TTL: int := 30_000_000_000
  const PERIOD: int := TTL / 3
  /** A tick this late still keeps the old rhythm. */
  const GRACE: int := 5_000_000

  datatype Outcome = Renewed | LeaseLost | StoreError

  /**
   * One turn of the loop: how long after it could fire the tick is noticed,
   * and when, counted from there, the database reads its clock and the new
   * lease is published (or the failure is known).
   */
  datatype Turn = Turn(late: nat, commits: nat, ends: nat, outcome: Outcome)

  datatype Publication = Publication(at: int, expiresAt: int)

  /** `deadline` is the next tick, `busyUntil` when the running step is over. */
  datatype Loop = Loop(deadline: int, busyUntil: int, published: seq<Publication>, cancelled: bool)

  function Max(a: int, b: int): int { if a >= b then a else b }

  function Fires(l: Loop, t: Turn): int { Max(l.deadline, l.busyUntil) + t.late }

  /** A late tick delays the rhythm instead of being repeated. */
  function NextDeadline(deadline: int, fired: int): int {
    if fired > deadline + GRACE then fired + PERIOD else deadline + PERIOD
  }

  function Step(l: Loop, t: Turn): Loop {
    if l.cancelled then l
    else
      var fired := Fires(l, t);
      var next := l.(deadline := NextDeadline(l.deadline, fired), busyUntil := fired + t.ends);
      if t.outcome.Renewed? then
        next.(published := l.published + [Publication(fired + t.ends, fired + t.commits + TTL)])
      else
        next.(cancelled := true)
  }

  /** The loop after all turns, started at `start`: the first tick comes one period later. */
  function After(start: int, turns: seq<Turn>): Loop
    decreases |turns|
  {
    if turns == [] then Loop(start + PERIOD, start, [], false)
    else Step(After(start, turns[..|turns| - 1]), turns[|turns| - 1])
  }

  method Renew(start: int, turns: seq<Turn>) returns (published: seq<Publication>, cancelled: bool)
    ensures published == After(start, turns).published && cancelled == After(start, turns).cancelled
  {
    published, cancelled := [], false;
    var deadline, busyUntil := start + PERIOD, start;
    for i := 0 to |turns|
      invariant !cancelled && After(start, turns[..i]) == Loop(deadline, busyUntil, published, false)
    {
      assert turns[..i + 1][..i] == turns[..i];
      var fired := Max(deadline, busyUntil) + turns[i].late;
      deadline := if fired > deadline + GRACE then fired + PERIOD else deadline + PERIOD;
      busyUntil := fired + turns[i].ends;
      match turns[i].outcome {
        case Renewed =>
          published := published + [Publication(busyUntil, fired + turns[i].commits + TTL)];
        case _ =>
          cancelled := true;
          CancelledIsFinal(start, turns, i + 1, |turns|);
          assert turns[..|turns|] == turns;
          return;
      }
    }
    assert turns[..|turns|] == turns;
  }

  /** After the first failed renewal nothing is published and cancellation stays set. */
  lemma {:induction false} CancelledIsFinal(start: int, turns: seq<Turn>, i: nat, j: nat)
    requires i <= j <= |turns| && After(start, turns[..i]).cancelled
    ensures After(start, turns[..j]) == After(start, turns[..i])
    decreases j
  {
    if i < j {
      assert turns[..j][..j - 1] == turns[..j - 1];
      CancelledIsFinal(start, turns, i, j - 1);
    }
  }

  /** The loop was cancelled exactly when some renewal failed. */
  lemma {:induction false} CancelledExactlyWhen(start: int, turns: seq<Turn>)
    ensures After(start, turns).cancelled <==> exists i :: 0 <= i < |turns| && !turns[i].outcome.Renewed?
    decreases |turns|
  {
    if turns != [] {
      var front, last := turns[..|turns| - 1], turns[|turns| - 1];
      CancelledExactlyWhen(start, front);
      if i :| 0 <= i < |front| && !front[i].outcome.Renewed? {
        assert !turns[i].outcome.Renewed?;
      }
      if !last.outcome.Renewed? {
        assert !turns[|turns| - 1].outcome.Renewed?;
      }
    }
  }

  /**
   * A late tick delays the rhythm. Of two turns, the second fires a period
   * after the first if that one was punctual or later than the grace, and a
   * period after the deadline the first was due at if it was within the
   * grace; never sooner, and later only by how long the first one takes and
   * how late it is itself. So no two fire closer than a period less the grace,
   * which are ten seconds and five milliseconds.
   */
  lemma FiringsAreSpaced(l: Loop, first: Turn, second: Turn)
    requires !l.cancelled
    ensures
      var fired, next := Fires(l, first), Step(l, first);
      var late := fired - l.deadline;
      && late >= 0
      && Fires(next, second) == second.late
           + Max(fired + 10_000_000_000 - (if late <= 5_000_000 then late else 0), fired + first.ends)
      && Fires(next, second) >= fired + 10_000_000_000 - 5_000_000
      && (late == 0 || late > 5_000_000 ==> Fires(next, second) >= fired + 10_000_000_000)
  {
  }

  // ------------------------------------------------------------------
  // How much of the lease is left
  // ------------------------------------------------------------------

  /** Ticks are noticed within `lateness` and renewals take at most `duration`. */
  predicate Within(turns: seq<Turn>, lateness: nat, duration: nat) {
    forall i :: 0 <= i < |turns| ==>
      turns[i].late <= lateness && turns[i].commits <= turns[i].ends <= duration
  }

  /** The latest moment the next turn can end. */
  function NextEnd(l: Loop, lateness: nat, duration: nat): int {
    Max(l.deadline, l.busyUntil) + lateness + duration
  }

  function Last(s: seq<Publication>): Publication
    requires s != []
  {
    s[|s| - 1]
  }

  /** The guaranteed rest of the published lease: a renewal that outlasts the period puts the next one off. */
  function Margin(lateness: nat, duration: nat): int { TTL - Max(PERIOD, duration) - lateness - duration }

  lemma {:induction false} LastLease(start: int, turns: seq<Turn>, lateness: nat, duration: nat)
    requires Within(turns, lateness, duration)
    requires After(start, turns).published != []
    ensures
      var l := After(start, turns);
      !l.cancelled ==> Last(l.published).expiresAt - NextEnd(l, lateness, duration) >= Margin(lateness, duration)
    decreases |turns|
  {
  }

  /** Each published lease outlives the publication of the next one by the margin. */
  lemma {:induction false} LeaseUntilNext(start: int, turns: seq<Turn>, lateness: nat, duration: nat, i: nat)
    requires Within(turns, lateness, duration)
    requires i + 1 < |After(start, turns).published|
    ensures
      var p := After(start, turns).published;
      p[i].expiresAt - p[i + 1].at >= Margin(lateness, duration)
    decreases |turns|
  {
    var front := turns[..|turns| - 1];
    var before, l := After(start, front), After(start, turns);
    if i + 1 < |before.published| {
      LeaseUntilNext(start, front, lateness, duration, i);
    } else {
      LastLease(start, front, lateness, duration);
    }
  }

  /**
   * The published lease at any moment between its publication and the end of
   * the next turn has at least the time to live left, less the period or the
   * duration of a renewal if that is longer, less the lateness of a tick and
   * the duration of the next renewal. With renewals within one period and
   * punctual ticks that is a third of the time to live, ten seconds.
   */
  lemma {:induction false} PublishedLeaseIsLive(start: int, turns: seq<Turn>, lateness: nat, duration: nat, i: nat, moment: int)
    requires Within(turns, lateness, duration)
    requires i < |After(start, turns).published|
    requires
      var l := After(start, turns);
      if i + 1 < |l.published| then moment <= l.published[i + 1].at
      else !l.cancelled && moment <= NextEnd(l, lateness, duration)
    ensures After(start, turns).published[i].expiresAt - moment >= Margin(lateness, duration)
    ensures Margin(0, 10_000_000_000) == 10_000_000_000
  {
    if i + 1 < |After(start, turns).published| {
      LeaseUntilNext(start, turns, lateness, duration, i);
    } else {
      LastLease(start, turns, lateness, duration);
    }
  }

  /**
   * A renewal is not lost by being slow: while the margin is positive, the
   * next turn still finds this holder's own row live. It is then refused
   * exactly if the expiry is misread as text, which a margin of a second
   * rules out; otherwise only another holder can make it fail.
   */
  lemma RenewalFindsLiveRow(start: int, turns: seq<Turn>, next: Turn, lateness: nat, duration: nat, holder: string,
                            epoch: int)
    requires Within(turns + [next], lateness, duration) && Margin(lateness, duration) > 0
    requires After(start, turns).published != [] && !After(start, turns).cancelled
    ensures
      var l := After(start, turns);
      var expiry, at := Last(l.published).expiresAt, Fires(l, next) + next.commits;
      var row := ControllerStore.RowOf(ControllerStore.Lease(holder, epoch, expiry));
      && at < expiry
      && (ControllerStore.Renew(row, holder, at, TTL).Some? <==> !ControllerStore.Misread(expiry, at))
      && (Margin(lateness, duration) >= ControllerStore.NS_PER_SEC ==> !ControllerStore.Misread(expiry, at))
  {
    var l := After(start, turns);
    assert (turns + [next])[|turns|] == next;
    assert forall i :: 0 <= i < |turns| ==> (turns + [next])[i] == turns[i];
    LastLease(start, turns, lateness, duration);
    ControllerStore.TextOrderIsRightExactlyWhen(Last(l.published).expiresAt, Fires(l, next) + next.commits);
  }

  /** What a published lease has left when the next one is published. */
  function Rest(start: int, turns: seq<Turn>, i: nat): int
    requires i + 1 < |After(start, turns).published|
  {
    After(start, turns).published[i].expiresAt - After(start, turns).published[i + 1].at
  }

  /** Under these bounds no published lease is ever left with less. */
  ghost predicate Promised(lateness: nat, duration: nat, promise: int) {
    forall start: int, turns: seq<Turn>, i: nat ::
      Within(turns, lateness, duration) && i + 1 < |After(start, turns).published| ==> Rest(start, turns, i) >= promise
  }

  lemma FirstTurn(duration: nat) returns (first: Turn)
    ensures first == Turn(0, 0, duration, Renewed)
    ensures After(0, [first]) == Loop(2 * PERIOD, PERIOD + duration, [Publication(PERIOD + duration, PERIOD + TTL)], false)
  {
    first := Turn(0, 0, duration, Renewed);
    assert [first][..0] == [];
    var p := Publication(PERIOD + duration, PERIOD + TTL);
    assert [] + [p] == [p];
  }

  lemma WorstCase(lateness: nat, duration: nat) returns (turns: seq<Turn>)
    ensures Within(turns, lateness, duration) && |After(0, turns).published| == 2
    ensures Rest(0, turns, 0) == Margin(lateness, duration)
  {
    var first := FirstTurn(duration);
    turns := [first, Turn(lateness, 0, duration, Renewed)];
    assert turns[..1] == [first];
  }

  /** The margin is exact: it cannot be promised any larger, for any bounds. */
  lemma MarginIsExact(lateness: nat, duration: nat, promise: int)
    ensures Promised(lateness, duration, promise) <==> promise <= Margin(lateness, duration)
  {
    var worst := WorstCase(lateness, duration);
    if promise <= Margin(lateness, duration) {
      forall start: int, turns: seq<Turn>, i: nat | Within(turns, lateness, duration) && i + 1 < |After(start, turns).published|
        ensures Rest(start, turns, i) >= promise
      {
        LeaseUntilNext(start, turns, lateness, duration, i);
      }
    }
  }
}
