/**
 * Which callback signs a browser in (crates/auth/src/oidc.rs). The state,
 * nonce and return path of a flow live only in the browser's cookies; this
 * says what that amounts to over every run of any number of tabs.
 */
module LoginFlow {
  import opened Options
  import Sessions
  import opened SilentLogin

  /** A flow this browser was sent off on. */
  datatype Begun = Begun(at: int, state: Token, nonce: Token, next: ReturnPath)

  /** The answer sends the browser to the provider. */
  predicate Begins(c: Config, w: World, e: Event) {
    var body := Answer(c, w, e).response.body;
    body.Redirect? && body.target.Provider?
  }

  /** What the provider is sent, and where the visitor wants to go. */
  function BegunBy(c: Config, w: World, e: Event): Begun
    requires Begins(c, w, e)
  {
    var target := Answer(c, w, e).response.body.target;
    Begun(Time(w, e), target.state, target.nonce,
          if e.request.Login? then SafeNext(e.request.next, e.request.elsewhere) else "/")
  }

  /** The last flow begun in any tab, unless a sign-in came after it. */
  function OpenFlow(c: Config, w: World, events: seq<Event>): Option<Begun> {
    if events == [] then None
    else
      var before := events[..|events| - 1];
      var e := events[|events| - 1];
      var at := Run(c, w, before);
      if Begins(c, at, e) then Some(BegunBy(c, at, e))
      else if SignsIn(c, at, e) then None
      else OpenFlow(c, w, before)
  }

  /** The flow cookies are exactly those of this flow. */
  predicate Carries(jar: Jar, flow: Option<Begun>) {
    match flow
    case None => State !in jar && Nonce !in jar && Next !in jar
    case Some(f) =>
      && State in jar && jar[State] == Cookie(f.state, f.at + FLOW_TTL)
      && Nonce in jar && jar[Nonce] == Cookie(f.nonce, f.at + FLOW_TTL)
      && Next in jar && jar[Next] == Cookie(f.next, f.at + FLOW_TTL)
  }

  lemma BeginningCarries(c: Config, w: World, e: Event)
    requires Begins(c, w, e)
    ensures Carries(Do(c, w, e).jar, Some(BegunBy(c, w, e)))
  {
    assert e.request.Login? || e.request.Visit?;
    var cookies := Answer(c, w, e).response.cookies;
    assert State in cookies && Nonce in cookies && Next in cookies;
  }

  /**
   * Who is sent to the provider: with one configured, whoever asks to sign in,
   * and a visit to a page by somebody who is neither signed in nor marked as
   * probed. Without one, asking to sign in fails and changes nothing.
   */
  lemma BeginsExactlyWhen(c: Config, w: World, e: Event)
    ensures
      var now := Time(w, e);
      var stranger := !IsSignedIn(w.jar, w.sessions, now) && !(Probed in w.jar && now < w.jar[Probed].dies);
      Begins(c, w, e) <==> c.oidc && (e.request.Login? || (e.request.Visit? && e.request.html && stranger))
    ensures e.request.Login? && !c.oidc ==> Answer(c, w, e) == Reply(Response(Error(500), map[]), w.sessions)
  {
    match e.request {
      case Visit(html) => VisitIsAnsweredExactly(c, w.jar, html, e.state, e.nonce, w.sessions, Time(w, e));
      case _ =>
    }
  }

  /** The browser keeps what the provider is sent, and only a visit asks it to stay silent. */
  lemma ProviderIsToldWhatIsKept(c: Config, w: World, e: Event)
    requires Begins(c, w, e)
    ensures
      var target, jar, now := Answer(c, w, e).response.body.target, Do(c, w, e).jar, Time(w, e);
      && Sent(jar, State, now) == Some(target.state) && Sent(jar, Nonce, now) == Some(target.nonce)
      && (target.silent <==> e.request.Visit?)
  {
    BeginningCarries(c, w, e);
  }

  lemma SignInCarriesNothing(c: Config, w: World, e: Event)
    requires SignsIn(c, w, e)
    ensures Carries(Do(c, w, e).jar, None)
  {
  }

  lemma OtherStepsCarry(c: Config, w: World, e: Event, flow: Option<Begun>)
    requires !Begins(c, w, e) && !SignsIn(c, w, e) && Carries(w.jar, flow)
    ensures Carries(Do(c, w, e).jar, flow)
  {
    var cookies := Answer(c, w, e).response.cookies;
    assert State !in cookies && Nonce !in cookies && Next !in cookies;
  }

  lemma {:induction false} CookiesAreTheOpenFlow(c: Config, w: World, events: seq<Event>)
    requires Carries(w.jar, None)
    ensures Carries(Run(c, w, events).jar, OpenFlow(c, w, events))
    decreases |events|
  {
    if events != [] {
      var before, e := events[..|events| - 1], events[|events| - 1];
      var at := Run(c, w, before);
      CookiesAreTheOpenFlow(c, w, before);
      if Begins(c, at, e) {
        BeginningCarries(c, at, e);
      } else if SignsIn(c, at, e) {
        SignInCarriesNothing(c, at, e);
      } else {
        OtherStepsCarry(c, at, e, OpenFlow(c, w, before));
      }
    }
  }

  /** The provider vouched for a user there is or can be, and the session was stored. */
  predicate Vouched(v: Verdict) {
    && v.exchanged && v.nonce.Some? && v.stored
    && (v.found.User? || (v.found.NoUser? && v.account.Created?))
  }

  function UserOf(v: Verdict): int
    requires Vouched(v)
  {
    if v.found.User? then v.found.id else v.account.id
  }

  /** The callback answers this flow within ten minutes. */
  predicate Matches(flow: Option<Begun>, query: Query, v: Verdict, now: int) {
    && query.error == "" && Vouched(v)
    && flow.Some? && now < flow.value.at + 600
    && query.state == Some(flow.value.state) && v.nonce == Some(flow.value.nonce)
  }

  lemma IdentifiesExactlyWhen(jar: Jar, query: Query, v: Verdict, now: int, flow: Option<Begun>)
    requires Carries(jar, flow) && query.error == "" && v.stored
    ensures Identify(jar, query, v, now).1 == 200 <==> Matches(flow, query, v, now)
    ensures Matches(flow, query, v, now) ==> Identify(jar, query, v, now).0 == UserOf(v)
  {
    var state, nonce := Sent(jar, State, now), Sent(jar, Nonce, now);
    match flow {
      case None => assert state.None?;
      case Some(f) =>
        assert state == if now < f.at + FLOW_TTL then Some(f.state) else None;
        assert nonce == if now < f.at + FLOW_TTL then Some(f.nonce) else None;
    }
  }

  lemma FinishesExactlyWhen(c: Config, w: World, e: Event, flow: Option<Begun>)
    requires c.oidc && Carries(w.jar, flow) && e.request.Callback?
    ensures SignsIn(c, w, e) <==> Matches(flow, e.request.query, e.request.verdict, Time(w, e))
  {
    if e.request.query.error == "" && e.request.verdict.stored {
      IdentifiesExactlyWhen(w.jar, e.request.query, e.request.verdict, Time(w, e), flow);
    }
  }

  /**
   * A callback signs in exactly when it answers the flow begun last in this
   * browser, within ten minutes and before any other sign-in, with the state
   * and nonce the provider was sent for that flow.
   */
  lemma SignsInExactlyWhen(c: Config, w: World, events: seq<Event>, e: Event)
    requires c.oidc && Carries(w.jar, None) && e.request.Callback?
    ensures
      var at := Run(c, w, events);
      SignsIn(c, at, e) <==>
      Matches(OpenFlow(c, w, events), e.request.query, e.request.verdict, Time(at, e))
  {
    CookiesAreTheOpenFlow(c, w, events);
    FinishesExactlyWhen(c, Run(c, w, events), e, OpenFlow(c, w, events));
  }

  /** The answer leaves for the return path of the flow, with a new session of the vouched user. */
  predicate Completes(c: Config, w: World, e: Event, flow: Begun)
    requires e.request.Callback? && Vouched(e.request.verdict)
  {
    var v, now, reply := e.request.verdict, Time(w, e), Answer(c, w, e);
    && reply.response.body == Redirect(Path(SafeNext(flow.next, v.elsewhere)))
    && reply.sessions == w.sessions[e.sid := Sessions.Session(e.sid, UserOf(v), now, now + c.ttl)]
  }

  lemma FinishesWith(c: Config, w: World, e: Event, flow: Option<Begun>)
    requires c.oidc && Carries(w.jar, flow) && e.request.Callback?
    requires Matches(flow, e.request.query, e.request.verdict, Time(w, e))
    ensures Completes(c, w, e, flow.value)
  {
    IdentifiesExactlyWhen(w.jar, e.request.query, e.request.verdict, Time(w, e), flow);
    assert Sent(w.jar, Next, Time(w, e)) == Some(flow.value.next);
  }

  /** A return path on this site survives being checked again. */
  lemma ReturnPathIsKept(path: ReturnPath, elsewhere: ReturnPath)
    requires path[0] == '/'
    ensures SafeNext(path, elsewhere) == path
  {
  }

  /**
   * A sign-in leaves for the return path of its flow, with a session of the
   * vouched user: exactly there if the path is on this site, and where the
   * second check of the URL says otherwise.
   */
  lemma SignInReturnsWhereItBegan(c: Config, w: World, events: seq<Event>, e: Event)
    requires c.oidc && Carries(w.jar, None) && e.request.Callback? && SignsIn(c, Run(c, w, events), e)
    ensures OpenFlow(c, w, events).Some? && Vouched(e.request.verdict)
    ensures Completes(c, Run(c, w, events), e, OpenFlow(c, w, events).value)
    ensures
      var flow := OpenFlow(c, w, events).value;
      Answer(c, Run(c, w, events), e).response.body
        == Redirect(Path(if flow.next[0] == '/' then flow.next else e.request.verdict.elsewhere))
  {
    var at, flow := Run(c, w, events), OpenFlow(c, w, events);
    SignsInExactlyWhen(c, w, events, e);
    assert Matches(flow, e.request.query, e.request.verdict, Time(at, e));
    CookiesAreTheOpenFlow(c, w, events);
    FinishesWith(c, at, e, flow);
    if flow.value.next[0] == '/' {
      ReturnPathIsKept(flow.value.next, e.request.verdict.elsewhere);
    }
  }

  lemma {:induction false} NoFlowNoState(c: Config, w: World, events: seq<Event>)
    requires State !in w.jar
    requires forall k :: 0 <= k < |events| ==> !Begins(c, Run(c, w, events[..k]), events[k])
    ensures State !in Run(c, w, events).jar
    decreases |events|
  {
    if events != [] {
      var before, e := events[..|events| - 1], events[|events| - 1];
      assert forall k :: 0 <= k < |before| ==> before[..k] == events[..k];
      NoFlowNoState(c, w, before);
      var at := Run(c, w, before);
      assert !Begins(c, at, e);
      NoStateStep(c, at, e);
    }
  }

  lemma NoStateStep(c: Config, w: World, e: Event)
    requires State !in w.jar && !Begins(c, w, e)
    ensures State !in Do(c, w, e).jar
  {
  }

  lemma NoStateNoSignIn(c: Config, w: World, e: Event)
    requires State !in w.jar
    ensures !SignsIn(c, w, e)
  {
  }

  /** A callback cannot be replayed: after a sign-in nothing signs in until a new flow has begun. */
  lemma CallbackIsNotReplayed(c: Config, w: World, first: Event, events: seq<Event>, again: Event)
    requires SignsIn(c, w, first)
    requires
      var after := Do(c, w, first);
      forall k :: 0 <= k < |events| ==> !Begins(c, Run(c, after, events[..k]), events[k])
    ensures !SignsIn(c, Run(c, Do(c, w, first), events), again)
  {
    SignInCarriesNothing(c, w, first);
    var after := Do(c, w, first);
    assert State !in after.jar;
    NoFlowNoState(c, after, events);
    NoStateNoSignIn(c, Run(c, after, events), again);
  }
}
