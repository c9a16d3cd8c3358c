/**
 * The landing page's silent sign-on (crates/auth/src/landing.rs), the login
 * flow it borrows (crates/auth/src/oidc.rs) and logout
 * (crates/auth/src/session.rs), seen from one browser.
 *
 * A request and the storing of its answer's cookies are one step; the cookie
 * values are the ones `Cookies` shows to survive printing and parsing. Tokens,
 * the provider's answers and the results of the token exchange, the token
 * check and the user tables are inputs.
 */
module SilentLogin {
  import opened Options
  import opened Sessions

  /** Random tokens are 32 encoded bytes, so never empty. */
  type Token = s: string | s != "" witness "t"

  /** A path of this site, or a URL that was checked: never empty, never a path that names another host. */
  type ReturnPath = s: string | s != "" && !(|s| > 1 && s[0] == '/' && s[1] == '/') witness "/"

  const PROBE_INTERVAL := 600
  const FLOW_TTL := 600

  datatype Name = SessionId | State | Nonce | Next | Silent | Probed

  // ------------------------------------------------------------------
  // The browser
  // ------------------------------------------------------------------

  datatype Cookie = Cookie(value: string, dies: int)

  type Jar = map<Name, Cookie>

  datatype Life = MaxAge(seconds: int) | Expires(at: int)

  datatype SetCookie = SetCookie(value: string, life: Life)

  function Dies(life: Life, now: int): int {
    match life
    case MaxAge(seconds) => now + seconds
    case Expires(at) => at
  }

  /** What the browser sends under a name. */
  function Sent(jar: Jar, name: Name, now: int): Option<string> {
    if name in jar && now < jar[name].dies then Some(jar[name].value) else None
  }

  /** Storing an answer's cookies; one that is already dead deletes. */
  function Keep(jar: Jar, cookies: map<Name, SetCookie>, now: int): Jar {
    map name |
      && name in jar.Keys + cookies.Keys
      && (name in cookies ==> now < Dies(cookies[name].life, now))
      :: if name in cookies then Cookie(cookies[name].value, Dies(cookies[name].life, now)) else jar[name]
  }

  // ------------------------------------------------------------------
  // The service
  // ------------------------------------------------------------------

  datatype Target = Provider(state: Token, nonce: Token, silent: bool) | Path(path: string)

  datatype Body = Dashboard | Splash | Error(status: nat) | Redirect(target: Target)

  /** An answer; no answer sets one cookie twice. */
  datatype Response = Response(body: Body, cookies: map<Name, SetCookie>)

  datatype Reply = Reply(response: Response, sessions: Table)

  datatype Config = Config(oidc: bool, ttl: int)

  /** The callback's query; an absent error is empty. */
  datatype Query = Query(error: string, state: Option<string>)

  datatype Found = LookupFailed | NoUser | User(id: int)

  datatype Account = SignupsClosed | ProvisionFailed | Created(id: int)

  /** What the calls behind the callback came back with. */
  datatype Verdict = Verdict(
    exchanged: bool,
    nonce: Option<string>,
    found: Found,
    account: Account,
    stored: bool,
    elsewhere: ReturnPath)

  /** A flag cookie, and a flow cookie whose empty value deletes. */
  function Flag(on: bool): SetCookie {
    if on then SetCookie("1", MaxAge(PROBE_INTERVAL)) else SetCookie("", MaxAge(-1))
  }

  function Flow(value: string): SetCookie {
    SetCookie(value, MaxAge(if value == "" then -1 else FLOW_TTL))
  }

  /** The return path; `elsewhere` is what the URL check makes of an absolute one. */
  function SafeNext(next: string, elsewhere: ReturnPath): ReturnPath {
    if next == "" then "/"
    else if next[0] == '/' then (if |next| > 1 && next[1] == '/' then "/" else next)
    else elsewhere
  }

  function Gate(c: Config, jar: Jar, html: bool, state: Token, nonce: Token, m: Table, now: int): Reply {
    var id := Sent(jar, SessionId, now);
    var after := if id.Some? then AfterLookup(m, id.value, now) else m;
    if id.Some? && Live(m, id.value, now).Some? then
      Reply(Response(Dashboard, map[]), after)
    else if c.oidc && Sent(jar, Probed, now).None? && html then
      Reply(Response(Redirect(Provider(state, nonce, true)),
                     map[State := Flow(state), Nonce := Flow(nonce), Next := Flow("/"), Silent := Flag(true)]), after)
    else
      Reply(Response(Splash, map[]), after)
  }

  function Begin(c: Config, next: string, elsewhere: ReturnPath, state: Token, nonce: Token): Response {
    if !c.oidc then Response(Error(500), map[])
    else
      Response(Redirect(Provider(state, nonce, false)),
               map[State := Flow(state), Nonce := Flow(nonce), Next := Flow(SafeNext(next, elsewhere))])
  }

  /** Who the callback signs in, or the status it fails with. */
  function Identify(jar: Jar, query: Query, v: Verdict, now: int): (int, nat) {
    var state := Sent(jar, State, now);
    if state.None? || state.value == "" || query.state != state then (0, 400)
    else if !v.exchanged then (0, 502)
    else if v.nonce.None? then (0, 401)
    else if Sent(jar, Nonce, now) != v.nonce || v.nonce.value == "" then (0, 400)
    else if v.found.LookupFailed? then (0, 500)
    else if v.found.User? then (v.found.id, 200)
    else if v.account.Created? then (v.account.id, 200)
    else if v.account.ProvisionFailed? then (0, 500)
    else (0, 403)
  }

  function SignedIn(jar: Jar, v: Verdict, session: Session, now: int): Response {
    var next := Sent(jar, Next, now);
    Response(Redirect(Path(if next.Some? then SafeNext(next.value, v.elsewhere) else "/")),
             map[State := Flow(""), Nonce := Flow(""), Next := Flow(""), Silent := Flag(false),
                 Probed := Flag(false), SessionId := SetCookie(session.id, Expires(session.expiresAt))])
  }

  function Finish(c: Config, jar: Jar, query: Query, v: Verdict, sid: Token, m: Table, now: int): Reply {
    if !c.oidc then Reply(Response(Error(500), map[]), m)
    else if query.error != "" then
      Reply(if Sent(jar, Silent, now) == Some("1")
            then Response(Splash, map[Silent := Flag(false), Probed := Flag(true)])
            else Response(Error(403), map[]), m)
    else
      var who := Identify(jar, query, v, now);
      if who.1 != 200 then Reply(Response(Error(who.1), map[]), m)
      else if !v.stored then Reply(Response(Error(500), map[]), m)
      else
        var session := Session(sid, who.0, now, now + c.ttl);
        Reply(SignedIn(jar, v, session, now), m[sid := session])
  }

  function Leave(jar: Jar, m: Table, now: int): Reply {
    var id := Sent(jar, SessionId, now);
    Reply(Response(Redirect(Path("/")), map[SessionId := SetCookie("", MaxAge(-1)), Probed := Flag(true)]),
          if id.Some? && id.value != "" then m - {id.value} else m)
  }

  /** The service itself, over its session store. */
  class Service {
    const config: Config
    const store: SessionStore

    constructor (config: Config, store: SessionStore)
      ensures this.config == config && this.store == store
    {
      this.config := config;
      this.store := store;
    }

    method DashboardGate(jar: Jar, html: bool, state: Token, nonce: Token, now: int)
      returns (response: Response)
      modifies store
      ensures Reply(response, store.sessions) == Gate(config, jar, html, state, nonce, old(store.sessions), now)
    {
      var id := Sent(jar, SessionId, now);
      if id.Some? {
        var session := store.Lookup(id.value, now);
        if session.Some? {
          return Response(Dashboard, map[]);
        }
      }
      if config.oidc && Sent(jar, Probed, now).None? && html {
        var cookies := map[State := Flow(state), Nonce := Flow(nonce), Next := Flow("/")];
        cookies := cookies[Silent := Flag(true)];
        return Response(Redirect(Provider(state, nonce, true)), cookies);
      }
      return Response(Splash, map[]);
    }

    method LoginResponse(next: string, elsewhere: ReturnPath, state: Token, nonce: Token) returns (response: Response)
      ensures response == Begin(config, next, elsewhere, state, nonce)
    {
      if !config.oidc {
        return Response(Error(500), map[]);
      }
      var cookies := map[State := Flow(state), Nonce := Flow(nonce)];
      cookies := cookies[Next := Flow(SafeNext(next, elsewhere))];
      return Response(Redirect(Provider(state, nonce, false)), cookies);
    }

    method CallbackResponse(jar: Jar, query: Query, v: Verdict, sid: Token, now: int) returns (response: Response)
      modifies store
      ensures Reply(response, store.sessions) == Finish(config, jar, query, v, sid, old(store.sessions), now)
    {
      if !config.oidc {
        return Response(Error(500), map[]);
      }
      var silent := Sent(jar, Silent, now) == Some("1");
      if query.error != "" {
        if silent {
          return Response(Splash, map[Silent := Flag(false), Probed := Flag(true)]);
        }
        return Response(Error(403), map[]);
      }
      var state := Sent(jar, State, now);
      if state.None? || state.value == "" {
        return Response(Error(400), map[]);
      }
      if query.state != state {
        return Response(Error(400), map[]);
      }
      if !v.exchanged {
        return Response(Error(502), map[]);
      }
      if v.nonce.None? {
        return Response(Error(401), map[]);
      }
      var nonce := Sent(jar, Nonce, now);
      if nonce.None? || nonce.value == "" || nonce != v.nonce {
        return Response(Error(400), map[]);
      }
      var user: int;
      match v.found {
        case LookupFailed => return Response(Error(500), map[]);
        case User(id) => user := id;
        case NoUser =>
          match v.account {
            case Created(id) => user := id;
            case ProvisionFailed => return Response(Error(500), map[]);
            case SignupsClosed => return Response(Error(403), map[]);
          }
      }
      if !v.stored {
        return Response(Error(500), map[]);
      }
      var session := store.NewSession(sid, user, now, config.ttl);
      var next := Sent(jar, Next, now);
      var target := "/";
      if next.Some? {
        target := SafeNext(next.value, v.elsewhere);
      }
      var cookies := map[State := Flow(""), Nonce := Flow(""), Next := Flow("")];
      cookies := cookies[Silent := Flag(false)][Probed := Flag(false)];
      cookies := cookies[SessionId := SetCookie(session.id, Expires(session.expiresAt))];
      return Response(Redirect(Path(target)), cookies);
    }

    method LogoutResponse(jar: Jar, now: int) returns (response: Response)
      modifies store
      ensures Reply(response, store.sessions) == Leave(jar, old(store.sessions), now)
    {
      var id := Sent(jar, SessionId, now);
      if id.Some? {
        store.Logout(id.value);
      }
      var cookies := map[SessionId := SetCookie("", MaxAge(-1))];
      cookies := cookies[Probed := Flag(true)];
      return Response(Redirect(Path("/")), cookies);
    }
  }

  // ------------------------------------------------------------------
  // One redirect chain
  // ------------------------------------------------------------------

  datatype World = World(jar: Jar, sessions: Table, now: int)

  datatype Spot = AtGate | AtProvider | AtCallback(query: Query) | Elsewhere(path: string) | Ended(body: Body)

  /** What is open at one hop: its delay, fresh tokens and everything foreign. */
  datatype Hop = Hop(delay: nat, state: Token, nonce: Token, sid: Token, answer: Query, verdict: Verdict)

  function Browse(w: World, reply: Reply, now: int): World {
    World(Keep(w.jar, reply.response.cookies, now), reply.sessions, now)
  }

  /** The place a browser goes after an answer. */
  function Land(body: Body): Spot {
    match body
    case Redirect(Provider(_, _, _)) => AtProvider
    case Redirect(Path(path)) => if path == "/" then AtGate else Elsewhere(path)
    case Dashboard => Ended(body)
    case Splash => Ended(body)
    case Error(_) => Ended(body)
  }

  function Follow(c: Config, w: World, spot: Spot, hop: Hop): (World, Spot) {
    var now := w.now + hop.delay;
    match spot
    case AtGate =>
      var reply := Gate(c, w.jar, true, hop.state, hop.nonce, w.sessions, now);
      (Browse(w, reply, now), Land(reply.response.body))
    case AtProvider => (w.(now := now), AtCallback(hop.answer))
    case AtCallback(query) =>
      var reply := Finish(c, w.jar, query, hop.verdict, hop.sid, w.sessions, now);
      (Browse(w, reply, now), Land(reply.response.body))
    case Elsewhere(_) => (w, spot)
    case Ended(_) => (w, spot)
  }

  /** How often a chain goes to the provider, and where it ends up. */
  function ProviderVisits(c: Config, w: World, spot: Spot, hops: seq<Hop>): nat
    decreases |hops|
  {
    if hops == [] then 0
    else
      var next := Follow(c, w, spot, hops[0]);
      (if next.1.AtProvider? then 1 else 0) + ProviderVisits(c, next.0, next.1, hops[1..])
  }

  function Reached(c: Config, w: World, spot: Spot, hops: seq<Hop>): Spot
    decreases |hops|
  {
    if hops == [] then spot
    else
      var next := Follow(c, w, spot, hops[0]);
      Reached(c, next.0, next.1, hops[1..])
  }

  /** The return path set with the state goes when the state goes. */
  predicate ReturnsHome(jar: Jar) {
    State in jar ==> Next in jar && jar[Next].value == "/" && jar[Next].dies == jar[State].dies
  }

  /** The world right after a sign-in: a session just made, its cookie stored if it lives at all. */
  predicate Fresh(c: Config, w: World) {
    var until := w.now + c.ttl;
    && c.oidc
    && Probed !in w.jar
    && (if c.ttl > 0 then
          && SessionId in w.jar && w.jar[SessionId].dies == until && w.jar[SessionId].value != ""
          && w.jar[SessionId].value in w.sessions && w.sessions[w.jar[SessionId].value].expiresAt == until
        else SessionId !in w.jar)
  }

  /** Follow-ups of a sign-in that come when the new session is over. */
  function LateFollowUps(c: Config, w: World, spot: Spot, hops: seq<Hop>): nat
    decreases |hops|
  {
    if hops == [] then 0
    else
      var next := Follow(c, w, spot, hops[0]);
      (if spot == AtGate && Fresh(c, w) && hops[0].delay >= c.ttl then 1 else 0)
      + LateFollowUps(c, next.0, next.1, hops[1..])
  }

  /** Where a chain from the landing page can be, and what it is sure of there. */
  predicate OnChain(c: Config, w: World, spot: Spot) {
    match spot
    case AtGate => true
    case AtProvider => ReturnsHome(w.jar)
    case AtCallback(_) => ReturnsHome(w.jar)
    case Elsewhere(_) => false
    case Ended(body) => body.Dashboard? || body.Splash? || body.Error?
  }

  lemma GateHop(c: Config, w: World, hop: Hop)
    ensures
      var next := Follow(c, w, AtGate, hop);
      && OnChain(c, next.0, next.1)
      && (next.1.AtProvider? || next.1.Ended?)
      && (Fresh(c, w) ==> next.1 == if hop.delay < c.ttl then Ended(Dashboard) else AtProvider)
  {
  }

  lemma CallbackHop(c: Config, w: World, query: Query, hop: Hop)
    requires ReturnsHome(w.jar)
    ensures
      var next := Follow(c, w, AtCallback(query), hop);
      && (next.1.Ended? || (next.1 == AtGate && Fresh(c, next.0)))
      && OnChain(c, next.0, next.1)
  {
    var now := w.now + hop.delay;
    var reply := Finish(c, w.jar, query, hop.verdict, hop.sid, w.sessions, now);
    if reply.response.body.Redirect? {
      assert Sent(w.jar, State, now).Some?;
      assert Sent(w.jar, Next, now) == Some("/");
      assert SafeNext("/", hop.verdict.elsewhere) == "/";
    }
  }

  /** Hops a chain still needs when no follow-up is late. */
  function Need(c: Config, w: World, spot: Spot): nat {
    match spot
    case AtGate => if Fresh(c, w) then 1 else 4
    case AtProvider => 3
    case AtCallback(_) => 2
    case Elsewhere(_) => 0
    case Ended(_) => 0
  }

  lemma {:induction false} EndedStays(c: Config, w: World, spot: Spot, hops: seq<Hop>)
    requires spot.Ended?
    ensures LateFollowUps(c, w, spot, hops) == 0
    ensures ProviderVisits(c, w, spot, hops) == 0 && Reached(c, w, spot, hops) == spot
    decreases |hops|
  {
    if hops != [] {
      EndedStays(c, w, spot, hops[1..]);
    }
  }

  /**
   * A chain goes to the provider once when the landing page starts a probe,
   * and once more for every follow-up that finds its new session over; it is
   * at its end four hops, and three more per late follow-up, after it began.
   */
  lemma {:induction false} VisitsCountLateFollowUps(c: Config, w: World, spot: Spot, hops: seq<Hop>)
    requires OnChain(c, w, spot)
    ensures ProviderVisits(c, w, spot, hops) == LateFollowUps(c, w, spot, hops)
            + if spot == AtGate && !Fresh(c, w) && hops != [] && Follow(c, w, spot, hops[0]).1.AtProvider? then 1 else 0
    ensures |hops| >= Need(c, w, spot) + 3 * LateFollowUps(c, w, spot, hops) ==>
              Reached(c, w, spot, hops).Ended? && OnChain(c, w, Reached(c, w, spot, hops))
    decreases |hops|
  {
    if spot.Ended? {
      EndedStays(c, w, spot, hops);
    } else if hops != [] {
      var next := Follow(c, w, spot, hops[0]);
      match spot {
        case AtGate => GateHop(c, w, hops[0]);
        case AtCallback(query) => CallbackHop(c, w, query, hops[0]);
        case AtProvider =>
      }
      VisitsCountLateFollowUps(c, next.0, next.1, hops[1..]);
    }
  }

  /**
   * The sign-on chain ends. From any cookie jar and any sessions, whatever the
   * provider answers, a chain that starts at the landing page and finds its
   * new session alive goes to the provider at most once, and within four hops
   * is at the dashboard, the splash or an error page.
   */
  lemma ChainEnds(c: Config, w: World, hops: seq<Hop>)
    requires LateFollowUps(c, w, AtGate, hops) == 0
    ensures ProviderVisits(c, w, AtGate, hops) <= 1
    ensures |hops| >= 4 ==>
              var last := Reached(c, w, AtGate, hops);
              last.Ended? && (last.body.Dashboard? || last.body.Splash? || last.body.Error?)
  {
    VisitsCountLateFollowUps(c, w, AtGate, hops);
  }

  // ------------------------------------------------------------------
  // What the answers say
  // ------------------------------------------------------------------

  /** The browser's cookie names a session that is stored and not over. */
  predicate IsSignedIn(jar: Jar, m: Table, now: int) {
    && SessionId in jar && now < jar[SessionId].dies && jar[SessionId].value != ""
    && jar[SessionId].value in m && now < m[jar[SessionId].value].expiresAt
  }

  /**
   * A visitor gets the dashboard exactly when signed in, and is sent to the
   * provider exactly when not signed in, with a provider there, a browser that
   * asks for a page, and no probe cookie; everybody else gets the splash.
   */
  lemma VisitIsAnsweredExactly(c: Config, jar: Jar, html: bool, state: Token, nonce: Token, m: Table, now: int)
    ensures
      var body := Gate(c, jar, html, state, nonce, m, now).response.body;
      var probed := Probed in jar && now < jar[Probed].dies;
      && (body == Dashboard <==> IsSignedIn(jar, m, now))
      && (body.Redirect? <==> !IsSignedIn(jar, m, now) && c.oidc && html && !probed)
      && (body.Dashboard? || body.Redirect? || body == Splash)
  {
  }

  /** The callback brings the state the browser keeps. */
  predicate StateMatches(jar: Jar, query: Query, now: int) {
    State in jar && now < jar[State].dies && jar[State].value != "" && query.state == Some(jar[State].value)
  }

  /** The token carries the nonce the browser keeps. */
  predicate NonceMatches(jar: Jar, v: Verdict, now: int) {
    Nonce in jar && now < jar[Nonce].dies && jar[Nonce].value != "" && v.nonce == Some(jar[Nonce].value)
  }

  /** Why a callback without a provider's error fails, by its status. */
  lemma CallbackFailsExactlyWhen(c: Config, jar: Jar, query: Query, v: Verdict, sid: Token, m: Table, now: int)
    requires c.oidc && query.error == ""
    ensures
      var reply := Finish(c, jar, query, v, sid, m, now);
      var body := reply.response.body;
      var redeemed := StateMatches(jar, query, now) && v.exchanged;
      var trusted := redeemed && NonceMatches(jar, v, now);
      && (body == Error(400) <==> !StateMatches(jar, query, now) || (redeemed && v.nonce.Some? && !NonceMatches(jar, v, now)))
      && (body == Error(502) <==> StateMatches(jar, query, now) && !v.exchanged)
      && (body == Error(401) <==> redeemed && v.nonce.None?)
      && (body == Error(403) <==> trusted && v.found.NoUser? && v.account.SignupsClosed?)
      && (body == Error(500) <==>
            && trusted
            && (|| v.found.LookupFailed?
                || (v.found.NoUser? && v.account.ProvisionFailed?)
                || ((v.found.User? || v.account.Created?) && !v.stored)))
      && (body.Redirect? <==> trusted && v.stored && (v.found.User? || (v.found.NoUser? && v.account.Created?)))
      && (!body.Redirect? ==> reply.sessions == m && reply.response.cookies == map[])
  {
  }

  // ------------------------------------------------------------------
  // Any number of tabs
  // ------------------------------------------------------------------

  datatype Request =
    | Visit(html: bool)
    | Login(next: string, elsewhere: ReturnPath)
    | Callback(query: Query, verdict: Verdict)
    | Logout

  /** One request of some tab, a while after the one before. */
  datatype Event = Event(delay: nat, request: Request, state: Token, nonce: Token, sid: Token)

  function Time(w: World, e: Event): int {
    w.now + e.delay
  }

  function Answer(c: Config, w: World, e: Event): Reply {
    var now := Time(w, e);
    match e.request
    case Visit(html) => Gate(c, w.jar, html, e.state, e.nonce, w.sessions, now)
    case Login(next, elsewhere) => Reply(Begin(c, next, elsewhere, e.state, e.nonce), w.sessions)
    case Callback(query, verdict) => Finish(c, w.jar, query, verdict, e.sid, w.sessions, now)
    case Logout => Leave(w.jar, w.sessions, now)
  }

  function Do(c: Config, w: World, e: Event): World {
    Browse(w, Answer(c, w, e), Time(w, e))
  }

  function Run(c: Config, w: World, events: seq<Event>): World {
    if events == [] then w
    else Do(c, Run(c, w, events[..|events| - 1]), events[|events| - 1])
  }

  predicate Probes(c: Config, w: World, e: Event) {
    e.request.Visit? && Answer(c, w, e).response.body.Redirect?
  }

  predicate SignsIn(c: Config, w: World, e: Event) {
    e.request.Callback? && Answer(c, w, e).response.body.Redirect?
  }

  /** The provider answers with an error. */
  predicate IsError(e: Event) {
    e.request.Callback? && e.request.query.error != ""
  }

  /** An error that the callback takes as the answer to a probe. */
  predicate EndsProbe(c: Config, w: World, e: Event) {
    IsError(e) && Answer(c, w, e).response.body == Splash
  }

  predicate Unsigned(c: Config, w: World, events: seq<Event>) {
    forall k :: 0 <= k < |events| ==> !SignsIn(c, Run(c, w, events[..k]), events[k])
  }

  /** The moment up to which the browser holds a cookie. */
  predicate HeldUntil(w: World, name: Name, until: int) {
    name in w.jar && until <= w.jar[name].dies
  }

  /** Up to `until` a visit finds the probe cookie or a live session. */
  predicate Guarded(w: World, until: int) {
    || until <= w.now
    || HeldUntil(w, Probed, until)
    || (HeldUntil(w, SessionId, until) && Live(w.sessions, w.jar[SessionId].value, until - 1).Some?)
  }

  lemma StepKeepsGuard(c: Config, w: World, e: Event, until: int)
    requires Guarded(w, until) && until <= w.now + PROBE_INTERVAL
    requires !SignsIn(c, w, e)
    ensures Guarded(Do(c, w, e), until)
  {
  }

  lemma GuardStopsProbe(c: Config, w: World, e: Event, until: int)
    requires Guarded(w, until) && Probes(c, w, e)
    ensures until <= Time(w, e)
  {
  }

  lemma {:induction false} RunKeepsGuard(c: Config, w: World, events: seq<Event>, until: int)
    requires Guarded(w, until) && until <= w.now + PROBE_INTERVAL
    requires Unsigned(c, w, events)
    ensures Guarded(Run(c, w, events), until) && w.now <= Run(c, w, events).now
    decreases |events|
  {
    if events != [] {
      var n := |events| - 1;
      var before := events[..n];
      assert forall k :: 0 <= k < n ==> before[..k] == events[..k];
      RunKeepsGuard(c, w, before, until);
      StepKeepsGuard(c, Run(c, w, before), events[n], until);
    }
  }

  /** Without a sign-in, no tab starts a probe before a given moment. */
  ghost predicate NoProbeBefore(c: Config, w: World, until: int) {
    forall events: seq<Event>, e: Event ::
      Unsigned(c, w, events) && Probes(c, Run(c, w, events), e) ==> until <= Time(Run(c, w, events), e)
  }

  /** A logout now and a visit when its probe cookie is gone: that visit probes. */
  lemma LogoutThenVisitProbes(c: Config, w: World)
    requires c.oidc
    ensures
      var logout, visit := Event(0, Logout, "t", "t", "t"), Event(PROBE_INTERVAL, Visit(true), "t", "t", "t");
      && Unsigned(c, w, [logout]) && Run(c, w, [logout]) == Do(c, w, logout)
      && Probes(c, Do(c, w, logout), visit) && Time(Do(c, w, logout), visit) == w.now + PROBE_INTERVAL
  {
    var logout := Event(0, Logout, "t", "t", "t");
    assert [logout][..0] == [];
    assert Run(c, w, []) == w;
  }

  /**
   * Over every interleaving of tabs without a sign-in: no probe starts before
   * a moment exactly when it is at most one interval away and the browser
   * holds the probe cookie or a live session until then.
   */
  lemma NoProbeBeforeExactlyWhen(c: Config, w: World, until: int)
    requires c.oidc
    ensures NoProbeBefore(c, w, until) <==> until <= w.now + PROBE_INTERVAL && Guarded(w, until)
  {
    if until > w.now + PROBE_INTERVAL {
      var logout, visit := Event(0, Logout, "t", "t", "t"), Event(PROBE_INTERVAL, Visit(true), "t", "t", "t");
      LogoutThenVisitProbes(c, w);
      assert Probes(c, Run(c, w, [logout]), visit);
    } else if Guarded(w, until) {
      forall events: seq<Event>, e: Event | Unsigned(c, w, events) && Probes(c, Run(c, w, events), e)
        ensures until <= Time(Run(c, w, events), e)
      {
        RunKeepsGuard(c, w, events, until);
        GuardStopsProbe(c, Run(c, w, events), e, until);
      }
    } else {
      var e := Event(until - 1 - w.now, Visit(true), "t", "t", "t");
      assert Run(c, w, []) == w && Unsigned(c, w, []);
      assert Probes(c, Run(c, w, []), e);
    }
  }

  /** A logout keeps the browser from probing for the whole interval. */
  lemma NoProbeAfterLogout(c: Config, w: World, e: Event)
    requires c.oidc && e.request.Logout?
    ensures NoProbeBefore(c, Do(c, w, e), Time(w, e) + 600)
  {
    NoProbeBeforeExactlyWhen(c, Do(c, w, e), Time(w, e) + 600);
  }

  /**
   * A provider's error keeps the browser from probing for the whole interval
   * exactly when the callback takes it as the answer to a probe, or the
   * browser was guarded that long anyway.
   */
  lemma NoProbeAfterErrorExactlyWhen(c: Config, w: World, e: Event)
    requires c.oidc && IsError(e)
    ensures
      var until := Time(w, e) + PROBE_INTERVAL;
      NoProbeBefore(c, Do(c, w, e), until) <==> EndsProbe(c, w, e) || Guarded(w, until)
  {
    var until := Time(w, e) + PROBE_INTERVAL;
    NoProbeBeforeExactlyWhen(c, Do(c, w, e), until);
  }

  // ------------------------------------------------------------------
  // When an error is taken as the answer to a probe
  // ------------------------------------------------------------------

  /** The start of the last probe that no answer has closed. */
  function OpenProbe(c: Config, w: World, events: seq<Event>): Option<int> {
    if events == [] then None
    else
      var before := events[..|events| - 1];
      var e := events[|events| - 1];
      var at := Run(c, w, before);
      if Probes(c, at, e) then Some(Time(at, e))
      else if EndsProbe(c, at, e) || SignsIn(c, at, e) then None
      else OpenProbe(c, w, before)
  }

  /** Only a probe sets the mark; only its answer or a sign-in takes it away. */
  lemma MarkStep(c: Config, w: World, e: Event)
    ensures
      var jar := Do(c, w, e).jar;
      if Probes(c, w, e) then Silent in jar && jar[Silent] == Cookie("1", Time(w, e) + PROBE_INTERVAL)
      else if EndsProbe(c, w, e) || SignsIn(c, w, e) then Silent !in jar
      else if Silent in w.jar then Silent in jar && jar[Silent] == w.jar[Silent]
      else Silent !in jar
  {
    var reply := Answer(c, w, e);
    assert Do(c, w, e).jar == Keep(w.jar, reply.response.cookies, Time(w, e));
  }

  lemma {:induction false} SilentCookieIsOpenProbe(c: Config, w: World, events: seq<Event>)
    requires Silent !in w.jar
    ensures
      var jar := Run(c, w, events).jar;
      match OpenProbe(c, w, events)
      case None => Silent !in jar
      case Some(start) => Silent in jar && jar[Silent] == Cookie("1", start + PROBE_INTERVAL)
    decreases |events|
  {
    if events != [] {
      var before := events[..|events| - 1];
      SilentCookieIsOpenProbe(c, w, before);
      MarkStep(c, Run(c, w, before), events[|events| - 1]);
    }
  }

  /**
   * In a browser that starts without the probe's mark, the callback takes an
   * error as the answer to a probe exactly when some tab's probe is open and
   * was started less than an interval ago, whichever flow the error is for.
   */
  lemma ErrorEndsProbeExactlyWhen(c: Config, w: World, events: seq<Event>, e: Event)
    requires Silent !in w.jar && c.oidc && IsError(e)
    ensures
      var at := Run(c, w, events);
      EndsProbe(c, at, e) <==>
      OpenProbe(c, w, events).Some? && Time(at, e) < OpenProbe(c, w, events).value + PROBE_INTERVAL
  {
    SilentCookieIsOpenProbe(c, w, events);
  }

  /** After a probe was answered with an error, the mark is gone until `until` has come. */
  predicate Unmarked(w: World, until: int) {
    HeldUntil(w, Probed, until) && (Silent in w.jar ==> until <= w.now)
  }

  lemma StepKeepsUnmarked(c: Config, w: World, e: Event, until: int)
    requires Unmarked(w, until) && until <= w.now + PROBE_INTERVAL
    requires !SignsIn(c, w, e)
    ensures Unmarked(Do(c, w, e), until)
  {
    MarkStep(c, w, e);
    if Probes(c, w, e) {
      GuardStopsProbe(c, w, e, until);
    }
  }

  lemma {:induction false} RunKeepsUnmarked(c: Config, w: World, events: seq<Event>, until: int)
    requires Unmarked(w, until) && until <= w.now + PROBE_INTERVAL
    requires Unsigned(c, w, events)
    ensures Unmarked(Run(c, w, events), until) && w.now <= Run(c, w, events).now
    decreases |events|
  {
    if events != [] {
      var before := events[..|events| - 1];
      assert forall k :: 0 <= k < |before| ==> before[..k] == events[..k];
      RunKeepsUnmarked(c, w, before, until);
      StepKeepsUnmarked(c, Run(c, w, before), events[|events| - 1], until);
    }
  }

  /** Probes answered with an error are at least an interval apart, with no sign-in between. */
  lemma AnsweredProbesAreSpaced(c: Config, w: World, first: Event, events: seq<Event>, second: Event)
    requires EndsProbe(c, w, first)
    requires Unsigned(c, Do(c, w, first), events)
    requires EndsProbe(c, Run(c, Do(c, w, first), events), second)
    ensures Time(w, first) + PROBE_INTERVAL <= Time(Run(c, Do(c, w, first), events), second)
  {
    RunKeepsUnmarked(c, Do(c, w, first), events, Time(w, first) + PROBE_INTERVAL);
  }

  // ------------------------------------------------------------------
  // Signing out
  // ------------------------------------------------------------------

  /** A sign-in hands this identifier out. */
  predicate Issues(c: Config, w: World, e: Event, id: string) { SignsIn(c, w, e) && e.sid == id }

  lemma StepKeepsGone(c: Config, w: World, e: Event, id: string)
    requires id !in w.sessions && !Issues(c, w, e, id)
    ensures id !in Do(c, w, e).sessions
  {
  }

  lemma {:induction false} RunKeepsGone(c: Config, w: World, events: seq<Event>, id: string)
    requires id !in w.sessions
    requires forall k :: 0 <= k < |events| ==> !Issues(c, Run(c, w, events[..k]), events[k], id)
    ensures id !in Run(c, w, events).sessions
    decreases |events|
  {
    if events != [] {
      var before := events[..|events| - 1];
      assert forall k :: 0 <= k < |before| ==> before[..k] == events[..k];
      RunKeepsGone(c, w, before, id);
      StepKeepsGone(c, Run(c, w, before), events[|events| - 1], id);
    }
  }

  /** A logout takes away the session its cookie names and no other. */
  lemma LogoutTakesOneSession(c: Config, w: World, e: Event, id: string)
    requires e.request.Logout?
    ensures id in Do(c, w, e).sessions <==>
              id in w.sessions && (id == "" || Sent(w.jar, SessionId, Time(w, e)) != Some(id))
    ensures id in Do(c, w, e).sessions ==> Do(c, w, e).sessions[id] == w.sessions[id]
    ensures SessionId !in Do(c, w, e).jar && Land(Answer(c, w, e).response.body) == AtGate
  {
  }

  /**
   * A logout ends the session. Whatever happens afterwards in any number of
   * tabs, as long as no sign-in hands the same identifier out again, a
   * browser with any copy of the cookie does not get to the dashboard by it.
   */
  lemma LogoutEndsSession(c: Config, w: World, e: Event, events: seq<Event>, jar: Jar, html: bool, state: Token,
                          nonce: Token, now: int)
    requires e.request.Logout? && Sent(w.jar, SessionId, Time(w, e)).Some?
    requires
      var id := Sent(w.jar, SessionId, Time(w, e)).value;
      && Sent(jar, SessionId, now) == Some(id)
      && forall k :: 0 <= k < |events| ==> !Issues(c, Run(c, Do(c, w, e), events[..k]), events[k], id)
    ensures
      var later := Run(c, Do(c, w, e), events);
      Gate(c, jar, html, state, nonce, later.sessions, now).response.body != Dashboard
  {
    var id := Sent(w.jar, SessionId, Time(w, e)).value;
    LogoutTakesOneSession(c, w, e, id);
    if id != "" {
      RunKeepsGone(c, Do(c, w, e), events, id);
    }
  }

  // ------------------------------------------------------------------
  // Errors that are not taken as an answer
  // ------------------------------------------------------------------

  predicate IsPageVisit(e: Event) {
    e.request.Visit? && e.request.html
  }

  /** A browser with no session and no probe cookie. */
  predicate Stranger(w: World) {
    SessionId !in w.jar && Probed !in w.jar
  }

  lemma StrangerProbes(c: Config, w: World, visit: Event)
    requires c.oidc && Stranger(w) && IsPageVisit(visit)
    ensures Probes(c, w, visit) && Stranger(Do(c, w, visit))
    ensures var jar := Do(c, w, visit).jar;
            Silent in jar && jar[Silent] == Cookie("1", Time(w, visit) + PROBE_INTERVAL)
  {
    MarkStep(c, w, visit);
  }

  lemma ErrorStep(c: Config, w: World, e: Event)
    requires c.oidc && IsError(e)
    ensures Answer(c, w, e).response.body == if Sent(w.jar, Silent, Time(w, e)) == Some("1") then Splash else Error(403)
    ensures Answer(c, w, e).response.body == Error(403) && Stranger(w) ==> Stranger(Do(c, w, e))
    ensures Answer(c, w, e).response.body == Splash ==> Silent !in Do(c, w, e).jar
  {
  }

  /**
   * Two tabs of one stranger probe, and both probes are refused within the
   * interval: the first refusal takes the mark away, so the second tab shows
   * an error page however soon it comes.
   */
  lemma SecondTabGetsAnError(c: Config, w: World, one: Event, two: Event, first: Event, second: Event)
    requires c.oidc && Stranger(w)
    requires IsPageVisit(one) && IsPageVisit(two) && IsError(first) && IsError(second)
    requires first.delay < PROBE_INTERVAL
    ensures
      var both := Do(c, Do(c, w, one), two);
      var answered := Do(c, both, first);
      && Probes(c, w, one) && Probes(c, Do(c, w, one), two)
      && EndsProbe(c, both, first)
      && Answer(c, answered, second).response.body == Error(403)
  {
    var both := Do(c, Do(c, w, one), two);
    StrangerProbes(c, w, one);
    StrangerProbes(c, Do(c, w, one), two);
    ErrorStep(c, both, first);
    ErrorStep(c, Do(c, both, first), second);
  }

  /**
   * A provider that takes the whole interval to refuse outlives the mark: the
   * visitor gets an error page, and the next visit probes at once.
   */
  lemma SlowRefusalProbesAgain(c: Config, w: World, visit: Event, refusal: Event, again: Event)
    requires c.oidc && Stranger(w)
    requires IsPageVisit(visit) && IsError(refusal) && IsPageVisit(again)
    requires refusal.delay >= PROBE_INTERVAL
    ensures
      var probing := Do(c, w, visit);
      && Probes(c, w, visit)
      && Answer(c, probing, refusal).response.body == Error(403)
      && Probes(c, Do(c, probing, refusal), again)
  {
    var probing := Do(c, w, visit);
    StrangerProbes(c, w, visit);
    ErrorStep(c, probing, refusal);
    StrangerProbes(c, Do(c, probing, refusal), again);
  }
}
