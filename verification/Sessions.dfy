/** Server-side login sessions (crates/auth/src/session.rs). */
module Sessions {
  import opened Options

  datatype Session = Session(id: string, userId: int, createdAt: int, expiresAt: int)

  type Table = map<string, Session>

  /** The session under an identifier that has not expired. */
  function Live(m: Table, id: string, now: int): Option<Session> {
    if id != "" && id in m && m[id].expiresAt > now then Some(m[id]) else None
  }

  /** A lookup that meets an expired session removes it. */
  function AfterLookup(m: Table, id: string, now: int): Table {
    if id != "" && id in m && m[id].expiresAt <= now then m - {id} else m
  }

  function Sweep(m: Table, at: int): Table {
    map id | id in m && m[id].expiresAt > at :: m[id]
  }

  class SessionStore {
    var sessions: Table

    constructor ()
      ensures sessions == map[]
    {
      sessions := map[];
    }

    method Put(session: Session)
      modifies this
      ensures sessions == old(sessions)[session.id := session]
    {
      sessions := sessions[session.id := session];
    }

    method Delete(id: string)
      modifies this
      ensures sessions == old(sessions) - {id}
    {
      sessions := sessions - {id};
    }

    method DeleteExpired(now: int)
      modifies this
      ensures sessions == Sweep(old(sessions), now)
    {
      var kept: Table := map[];
      var left := sessions.Keys;
      while left != {}
        invariant left <= sessions.Keys && sessions == old(sessions)
        invariant kept == map id | id in sessions && id !in left && sessions[id].expiresAt > now :: sessions[id]
        decreases |left|
      {
        var id :| id in left;
        left := left - {id};
        if sessions[id].expiresAt > now {
          kept := kept[id := sessions[id]];
        }
      }
      sessions := kept;
    }

    method NewSession(token: string, userId: int, now: int, ttl: int) returns (session: Session)
      modifies this
      ensures session == Session(token, userId, now, now + ttl)
      ensures sessions == old(sessions)[token := session]
      ensures token != "" ==> (Live(sessions, token, now) == Some(session) <==> ttl > 0)
    {
      session := Session(token, userId, now, now + ttl);
      Put(session);
    }

    method Lookup(id: string, now: int) returns (r: Option<Session>)
      modifies this
      ensures r == Live(old(sessions), id, now)
      ensures sessions == AfterLookup(old(sessions), id, now)
    {
      if id == "" || id !in sessions {
        return None;
      }
      var session := sessions[id];
      if session.expiresAt <= now {
        Delete(id);
        return None;
      }
      return Some(session);
    }

    /** Logging out with an empty cookie deletes nothing. */
    method Logout(id: string)
      modifies this
      ensures sessions == if id == "" then old(sessions) else old(sessions) - {id}
    {
      if id != "" {
        Delete(id);
      }
    }
  }

  // ------------------------------------------------------------------
  // Every run
  // ------------------------------------------------------------------

  datatype Event =
    | Stores(session: Session)
    | Looks(id: string)
    | LogsOut(id: string)
    | Passes(span: nat)
    | Sweeps(age: nat)

  datatype Server = Server(sessions: Table, now: int)

  /** One event. A sweep uses a moment that has already come. */
  function Do(s: Server, e: Event): Server {
    match e
    case Stores(session) => s.(sessions := s.sessions[session.id := session])
    case Looks(id) => s.(sessions := AfterLookup(s.sessions, id, s.now))
    case LogsOut(id) => if id == "" then s else s.(sessions := s.sessions - {id})
    case Passes(span) => s.(now := s.now + span)
    case Sweeps(age) => s.(sessions := Sweep(s.sessions, s.now - age))
  }

  /** The answers of all lookups, each with the moment it was given. */
  function Answers(s: Server, events: seq<Event>): seq<(int, Option<Session>)>
    decreases |events|
  {
    if events == [] then []
    else
      (if events[0].Looks? then [(s.now, Live(s.sessions, events[0].id, s.now))] else [])
      + Answers(Do(s, events[0]), events[1..])
  }

  /** The run without its sweeps. */
  function Unswept(events: seq<Event>): seq<Event> {
    if events == [] then []
    else (if events[0].Sweeps? then [] else [events[0]]) + Unswept(events[1..])
  }

  /** Two servers at one moment that no lookup can tell apart. */
  ghost predicate Alike(a: Server, b: Server) {
    a.now == b.now && forall id :: Live(a.sessions, id, a.now) == Live(b.sessions, id, b.now)
  }

  lemma StepKeepsAlike(a: Server, b: Server, e: Event)
    requires Alike(a, b)
    ensures Alike(Do(a, e), Do(b, e))
  {
    match e {
      case Passes(span) =>
        forall id ensures Live(a.sessions, id, Do(a, e).now) == Live(b.sessions, id, Do(b, e).now) {
          assert Live(a.sessions, id, a.now) == Live(b.sessions, id, b.now);
        }
      case Stores(session) =>
        forall id ensures Live(Do(a, e).sessions, id, a.now) == Live(Do(b, e).sessions, id, b.now) {
          assert Live(a.sessions, id, a.now) == Live(b.sessions, id, b.now);
        }
      case LogsOut(gone) =>
        forall id ensures Live(Do(a, e).sessions, id, a.now) == Live(Do(b, e).sessions, id, b.now) {
          assert Live(a.sessions, id, a.now) == Live(b.sessions, id, b.now);
        }
      case Looks(looked) =>
        forall id ensures Live(Do(a, e).sessions, id, a.now) == Live(Do(b, e).sessions, id, b.now) {
          assert Live(a.sessions, id, a.now) == Live(b.sessions, id, b.now);
        }
      case Sweeps(age) =>
        forall id ensures Live(Do(a, e).sessions, id, a.now) == Live(Do(b, e).sessions, id, b.now) {
          assert Live(a.sessions, id, a.now) == Live(b.sessions, id, b.now);
        }
    }
  }

  lemma SweepIsAlike(s: Server, age: nat)
    ensures Alike(Do(s, Sweeps(age)), s)
  {
  }

  lemma {:induction false} AlikeAnswerAlike(a: Server, b: Server, events: seq<Event>)
    requires Alike(a, b)
    ensures Answers(a, events) == Answers(b, Unswept(events))
    decreases |events|
  {
    if events != [] {
      var e, rest := events[0], events[1..];
      if e.Sweeps? {
        SweepIsAlike(a, e.age);
        assert Alike(Do(a, e), b);
        AlikeAnswerAlike(Do(a, e), b, rest);
        assert Unswept(events) == Unswept(rest);
      } else {
        StepKeepsAlike(a, b, e);
        AlikeAnswerAlike(Do(a, e), Do(b, e), rest);
        assert Unswept(events) == [e] + Unswept(rest);
        assert ([e] + Unswept(rest))[1..] == Unswept(rest);
      }
    }
  }

  /**
   * Sweeping only reclaims memory: whatever sessions are stored, looked up
   * and logged out while the clock goes on, taking out every sweep changes no
   * answer.
   */
  lemma SweepingIsUnobservable(s: Server, events: seq<Event>)
    ensures Answers(s, events) == Answers(s, Unswept(events))
  {
    AlikeAnswerAlike(s, s, events);
  }

  /** A lookup takes nothing away that any lookup, now or later, could still find. */
  lemma LookupDisturbsNothing(m: Table, id: string, now: int, other: string, later: int)
    requires now <= later
    ensures Live(AfterLookup(m, id, now), other, later) == Live(m, other, later)
  {
  }

  function Run(s: Server, events: seq<Event>): Server
    decreases |events|
  {
    if events == [] then s else Do(Run(s, events[..|events| - 1]), events[|events| - 1])
  }

  /** The event puts a session under this identifier, or logs it out. */
  predicate Touches(e: Event, id: string) {
    (e.Stores? && e.session.id == id) || (e.LogsOut? && e.id == id)
  }

  lemma StepKeepsLive(s: Server, e: Event, session: Session)
    requires session.id in s.sessions && s.sessions[session.id] == session
    requires !Touches(e, session.id) && Do(s, e).now < session.expiresAt
    ensures session.id in Do(s, e).sessions && Do(s, e).sessions[session.id] == session
  {
  }

  lemma ClockGoesOn(s: Server, e: Event)
    ensures s.now <= Do(s, e).now
  {
  }

  lemma {:induction false} RunKeepsLive(s: Server, events: seq<Event>, session: Session)
    requires session.id in s.sessions && s.sessions[session.id] == session
    requires forall k :: 0 <= k < |events| ==> !Touches(events[k], session.id)
    requires Run(s, events).now < session.expiresAt
    ensures session.id in Run(s, events).sessions && Run(s, events).sessions[session.id] == session
    decreases |events|
  {
    if events != [] {
      var before, e := events[..|events| - 1], events[|events| - 1];
      ClockGoesOn(Run(s, before), e);
      RunKeepsLive(s, before, session);
      StepKeepsLive(Run(s, before), e, session);
    }
  }

  /**
   * A stored session is found until it expires: whatever else is stored,
   * looked up, logged out and swept in between, a lookup finds it exactly
   * while its expiry has not come.
   */
  lemma StoredIsFoundExactlyWhile(s: Server, session: Session, events: seq<Event>)
    requires session.id != ""
    requires forall k :: 0 <= k < |events| ==> !Touches(events[k], session.id)
    ensures
      var t := Run(Do(s, Stores(session)), events);
      Live(t.sessions, session.id, t.now) == if t.now < session.expiresAt then Some(session) else None
  {
    var t := Run(Do(s, Stores(session)), events);
    if t.now < session.expiresAt {
      RunKeepsLive(Do(s, Stores(session)), events, session);
    } else {
      OnlyOneUnderId(Do(s, Stores(session)), events, session);
    }
  }

  lemma {:induction false} OnlyOneUnderId(s: Server, events: seq<Event>, session: Session)
    requires session.id in s.sessions ==> s.sessions[session.id] == session
    requires forall k :: 0 <= k < |events| ==> !Touches(events[k], session.id)
    ensures session.id in Run(s, events).sessions ==> Run(s, events).sessions[session.id] == session
    decreases |events|
  {
    if events != [] {
      OnlyOneUnderId(s, events[..|events| - 1], session);
    }
  }

  lemma {:induction false} RunKeepsGone(s: Server, events: seq<Event>, id: string)
    requires id !in s.sessions
    requires forall k :: 0 <= k < |events| ==> !Touches(events[k], id)
    ensures id !in Run(s, events).sessions
    decreases |events|
  {
    if events != [] {
      RunKeepsGone(s, events[..|events| - 1], id);
    }
  }

  /** A session that was logged out is found no more, until one is stored under its identifier. */
  lemma LoggedOutIsGone(s: Server, id: string, events: seq<Event>)
    requires forall k :: 0 <= k < |events| ==> !Touches(events[k], id)
    ensures
      var t := Run(Do(s, LogsOut(id)), events);
      Live(t.sessions, id, t.now) == None
  {
    if id != "" {
      RunKeepsGone(Do(s, LogsOut(id)), events, id);
    }
  }

  /** No lookup ever returns a session at or past its expiry. */
  lemma {:induction false} AnswersAreLive(s: Server, events: seq<Event>, i: nat)
    requires i < |Answers(s, events)|
    ensures
      var answer := Answers(s, events)[i];
      answer.1.Some? ==> answer.0 < answer.1.value.expiresAt
    decreases |events|
  {
    if events[0].Looks? {
      if i > 0 {
        AnswersAreLive(Do(s, events[0]), events[1..], i - 1);
      }
    } else {
      AnswersAreLive(Do(s, events[0]), events[1..], i);
    }
  }

  /** A sweep is invisible for every table exactly when its moment is not in the future. */
  lemma SweepIsInvisibleExactlyWhen(at: int, now: int)
    ensures (forall m: Table, id: string :: Live(Sweep(m, at), id, now) == Live(m, id, now)) <==> at <= now
  {
    if at > now {
      var m: Table := map["s" := Session("s", 1, now, at)];
      assert Live(m, "s", now) == Some(m["s"]);
      assert Live(Sweep(m, at), "s", now) == None;
    }
  }
}
