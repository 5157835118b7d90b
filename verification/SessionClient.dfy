/** The browser's single-flight refresh (`api.ts`) interleaved with the server of SessionModel. */
module SessionClient {
  import opened Common
  import opened SessionModel
  import opened SessionLaws

  type CallId = nat
  type ActivationId = nat
  /** An access token is known by the refresh token it was issued with. */
  type AccessToken = TokenId

  /** Where one run of `refreshAccessToken` stands. */
  datatype Activation =
    | Requesting(sent: TokenId)              // POST /refresh on its way
    | Refused                                // a response that is not ok is on its way back
    | Granted(pair: TokenId)                 // an ok response is on its way back
    | ReadingBody(pair: TokenId)             // headers in, awaiting response.json()
    | Returned(result: Option<AccessToken>)  // function body done, `finally` still to run
    | Settled(result: Option<AccessToken>)   // `finally` has run, waiters may resume

  /** Where one `apiFetch` stands. */
  datatype Call =
    | Sent(token: Option<AccessToken>, anonymous: bool)
    | AwaitingRefresh(activation: ActivationId)
    | Resent(retryWith: AccessToken)
    | Finished

  datatype Client = Client(
    accessToken: Option<AccessToken>,
    stored: Option<TokenId>,
    refreshInFlight: Option<ActivationId>,
    activations: map<ActivationId, Activation>,
    calls: map<CallId, Call>)

  // ------------------------------------------------------------------ atomic pieces of api.ts

  function Begin(k: Client, call: CallId, anonymous: bool): Client {
    k.(calls := k.calls[call := Sent(if anonymous then None else k.accessToken, anonymous)])
  }

  /** `refreshOnce`, up to the first await: join the refresh in flight, or start one. */
  function RefreshOnce(k: Client, call: CallId, activation: ActivationId): Client {
    if k.refreshInFlight.Some? then
      k.(calls := k.calls[call := AwaitingRefresh(k.refreshInFlight.value)])
    else
      k.(refreshInFlight := Some(activation),
         activations := k.activations[activation := if k.stored.Some? then Requesting(k.stored.value)
                                      else Returned(None)],
         calls := k.calls[call := AwaitingRefresh(activation)])
  }

  function HeadersArrive(k: Client, a: ActivationId): Client
    requires a in k.activations
  {
    match k.activations[a]
    case Refused => k.(accessToken := None, stored := None, activations := k.activations[a := Returned(None)])
    case Granted(pair) => k.(activations := k.activations[a := ReadingBody(pair)])
    case _ => k
  }

  function BodyArrives(k: Client, a: ActivationId): Client
    requires a in k.activations
  {
    match k.activations[a]
    case ReadingBody(pair) =>
      k.(accessToken := Some(pair), stored := Some(pair), activations := k.activations[a := Returned(Some(pair))])
    case _ => k
  }

  function RunFinally(k: Client, a: ActivationId): Client
    requires a in k.activations
  {
    match k.activations[a]
    case Returned(result) => k.(refreshInFlight := None, activations := k.activations[a := Settled(result)])
    case _ => k
  }

  function Resume(k: Client, call: CallId): Client
    requires call in k.calls && k.calls[call].AwaitingRefresh? && k.calls[call].activation in k.activations
  {
    match k.activations[k.calls[call].activation]
    case Settled(result) =>
      k.(calls := k.calls[call := if result.Some? then Resent(result.value) else Finished])
    case _ => k
  }

  // ------------------------------------------------------------------ the interleaving

  datatype System = System(server: State, client: Client)

  datatype Move =
    | StartCall(call: CallId, anonymous: bool)
    | RestoreSession(call: CallId, activation: ActivationId)
    | Unauthorised(call: CallId, activation: ActivationId)
    | OtherAnswer(call: CallId)
    | ServerHandlesRefresh(activation: ActivationId, id: TokenId, now: Time)
    | ServerTurnsRefreshAway(activation: ActivationId)
    | DeliverHeaders(activation: ActivationId)
    | DeliverBody(activation: ActivationId)
    | Finally(activation: ActivationId)
    | ResumeCall(call: CallId)
    | Elsewhere(event: Event, now: Time)

  /** Server activity that is not about session `f`: no logout, replay or rotation with one of its
      tokens, and no reset of its owner's password. */
  ghost predicate Foreign(s: State, f: FamilyId, e: Event) {
    match e
    case Refresh(presented, _) => presented in s.tokens ==> s.tokens[presented].family != f
    case Logout(presented) => presented in s.tokens ==> s.tokens[presented].family != f
    case ResetPassword(reset, _) => reset in s.resets && f in s.families ==> s.resets[reset].user != s.families[f]
    case _ => true
  }

  ghost predicate Possible(x: System, f: FamilyId, m: Move) {
    var k := x.client;
    match m
    case StartCall(call, _) => call !in k.calls
    case RestoreSession(call, activation) => call !in k.calls && activation !in k.activations && k.stored.Some?
    case Unauthorised(call, activation) =>
      call in k.calls && k.calls[call].Sent? && !k.calls[call].anonymous && activation !in k.activations
    case OtherAnswer(call) => call in k.calls && (k.calls[call].Sent? || k.calls[call].Resent?)
    case ServerHandlesRefresh(a, id, now) =>
      a in k.activations && k.activations[a].Requesting? && Enabled(x.server, Refresh(k.activations[a].sent, id), now)
    case ServerTurnsRefreshAway(a) => a in k.activations && k.activations[a].Requesting?
    case DeliverHeaders(a) => a in k.activations && (k.activations[a].Refused? || k.activations[a].Granted?)
    case DeliverBody(a) => a in k.activations && k.activations[a].ReadingBody?
    case Finally(a) => a in k.activations && k.activations[a].Returned?
    case ResumeCall(call) =>
      call in k.calls && k.calls[call].AwaitingRefresh? && k.calls[call].activation in k.activations
      && k.activations[k.calls[call].activation].Settled?
    case Elsewhere(event, now) => Enabled(x.server, event, now) && Foreign(x.server, f, event)
  }

  ghost function Advance(c: Settings, x: System, f: FamilyId, m: Move): System
    requires Possible(x, f, m)
  {
    var k := x.client;
    match m
    case StartCall(call, anonymous) => x.(client := Begin(k, call, anonymous))
    case RestoreSession(call, activation) => x.(client := RefreshOnce(k, call, activation))
    case Unauthorised(call, activation) => x.(client := RefreshOnce(k, call, activation))
    case OtherAnswer(call) => x.(client := k.(calls := k.calls[call := Finished]))
    case ServerHandlesRefresh(a, id, now) =>
      var (server, outcome) := RefreshStep(c, x.server, k.activations[a].sent, id, now);
      var reply := match outcome case Rotated(successor) => Granted(successor) case _ => Refused;
      System(server, k.(activations := k.activations[a := reply]))
    case ServerTurnsRefreshAway(a) => x.(client := k.(activations := k.activations[a := Refused]))
    case DeliverHeaders(a) => x.(client := HeadersArrive(k, a))
    case DeliverBody(a) => x.(client := BodyArrives(k, a))
    case Finally(a) => x.(client := RunFinally(k, a))
    case ResumeCall(call) => x.(client := Resume(k, call))
    case Elsewhere(event, now) => x.(server := Step(c, x.server, event, now))
  }

  // ------------------------------------------------------------------ what every interleaving keeps

  /** `t` is the unrevoked head of family `f`, or has expired and been purged, and the family with it. */
  ghost predicate HeadOrGone(s: State, f: FamilyId, t: TokenId) {
    && t in s.issued && f in s.families
    && (t in s.tokens ==> s.tokens[t].family == f && !s.tokens[t].IsRevoked())
    && (t !in s.tokens ==> forall x :: x in s.tokens ==> s.tokens[x].family != f)
  }

  /** The guard variable names the one run of `refreshAccessToken` that has not settled. */
  ghost predicate SingleFlight(k: Client) {
    && (k.refreshInFlight.Some? ==>
        k.refreshInFlight.value in k.activations && !k.activations[k.refreshInFlight.value].Settled?)
    && (forall a :: a in k.activations && k.refreshInFlight != Some(a) ==> k.activations[a].Settled?)
  }

  /** The token that the next request will present, wherever it currently is. */
  ghost predicate CurrentTokenIsHead(x: System, f: FamilyId) {
    var k := x.client;
    var stage := if k.refreshInFlight.Some? && k.refreshInFlight.value in k.activations
                 then k.activations[k.refreshInFlight.value] else Settled(None);
    match stage
    case Granted(pair) => HeadOrGone(x.server, f, pair)
    case ReadingBody(pair) => HeadOrGone(x.server, f, pair)
    case Refused => true
    case Requesting(sent) => k.stored == Some(sent) && HeadOrGone(x.server, f, sent)
    case _ => k.stored.Some? ==> HeadOrGone(x.server, f, k.stored.value)
  }

  ghost predicate Good(c: Settings, x: System, f: FamilyId) {
    && Inv(c, x.server)
    && SingleFlight(x.client)
    && CurrentTokenIsHead(x, f)
  }

  lemma ElsewhereKeepsHead(c: Settings, s: State, e: Event, now: Time, f: FamilyId, t: TokenId)
    requires Inv(c, s) && Enabled(s, e, now) && Foreign(s, f, e)
    requires HeadOrGone(s, f, t)
    ensures HeadOrGone(Step(c, s, e, now), f, t)
  {
    if t !in s.tokens {
      GoneStaysGone(c, s, e, now, f, t);
    } else if e.Purge? {
      PurgeKeepsHead(c, s, now, f, t);
    } else {
      assert t in s.issued && s.tokens[t].user == s.families[f];
      hide Inv, HeadOrGone;
      match e
      case Refresh(presented, id) => RotationElsewhereKeepsHead(c, s, presented, id, now, f, t);
      case Logout(presented) => LogoutElsewhereKeepsHead(s, presented, now, f, t);
      case ResetPassword(reset, newPassword) => ResetElsewhereKeepsHead(c, s, reset, newPassword, now, f, t);
      case _ => HarmlessEventKeepsHead(c, s, e, now, f, t);
    }
  }

  lemma PurgeKeepsHead(c: Settings, s: State, now: Time, f: FamilyId, t: TokenId)
    requires Inv(c, s) && t in s.tokens && HeadOrGone(s, f, t)
    ensures HeadOrGone(PurgeStep(s, now), f, t)
  {
    HeadOutlivesItsFamily(c, s, f, t);
    hide ChainsOnly;
  }

  lemma LogoutElsewhereKeepsHead(s: State, presented: TokenId, now: Time, f: FamilyId, t: TokenId)
    requires presented in s.tokens ==> s.tokens[presented].family != f
    requires HeadOrGone(s, f, t)
    ensures HeadOrGone(LogoutStep(s, presented, now), f, t)
  {
  }

  lemma ResetElsewhereKeepsHead(c: Settings, s: State, reset: ResetId, newPassword: Password, now: Time, f: FamilyId,
                                t: TokenId)
    requires t in s.tokens && HeadOrGone(s, f, t) && s.tokens[t].user == s.families[f]
    requires reset in s.resets ==> s.resets[reset].user != s.families[f]
    ensures HeadOrGone(ResetPasswordStep(c, s, reset, newPassword, now).0, f, t)
  {
  }

  lemma HarmlessEventKeepsHead(c: Settings, s: State, e: Event, now: Time, f: FamilyId, t: TokenId)
    requires || e.Login? || e.Google? || e.RequestReset? || e.SetActive?
             || e.Register? || e.Resend? || e.VerifyEmail? || e.MarkVerified?
    requires Enabled(s, e, now) && t in s.tokens && t in s.issued && HeadOrGone(s, f, t)
    ensures HeadOrGone(Step(c, s, e, now), f, t)
  {
    hide InvalidateLinks, AccountFor, FoundFor, FoundByEmail;
  }

  lemma GoneStaysGone(c: Settings, s: State, e: Event, now: Time, f: FamilyId, t: TokenId)
    requires Inv(c, s) && Enabled(s, e, now) && HeadOrGone(s, f, t) && t !in s.tokens
    ensures HeadOrGone(Step(c, s, e, now), f, t)
  {
    hide Step, HasEffect, HeadOrGone, Enabled, ChainsOnly;
    var effect := EffectOf(c, s, e, now);
    GoneUnderEffect(c, s, Step(c, s, e, now), now, effect, f, t);
  }

  lemma GoneUnderEffect(c: Settings, s: State, s': State, now: Time, effect: Effect, f: FamilyId, t: TokenId)
    requires HasEffect(c, s, s', now, effect) && HeadOrGone(s, f, t) && t !in s.tokens
    ensures HeadOrGone(s', f, t)
  {
  }

  /** No token of a family expires later than its unrevoked one. */
  lemma HeadOutlivesItsFamily(c: Settings, s: State, f: FamilyId, t: TokenId)
    requires Inv(c, s) && t in s.tokens && s.tokens[t].family == f && !s.tokens[t].IsRevoked()
    ensures forall x :: x in s.tokens && s.tokens[x].family == f ==> s.tokens[x].expiresAt <= s.tokens[t].expiresAt
  {
    var chain :| IsChain(s.tokens, f, chain);
    UnrevokedIsLast(s.tokens, f, chain, t);
    forall x | x in s.tokens && s.tokens[x].family == f
      ensures s.tokens[x].expiresAt <= s.tokens[t].expiresAt
    {
      assert x in chain;
      var i :| 0 <= i < |chain| && chain[i] == x;
      ExpiryGrows(s.tokens, f, chain, i, |chain| - 1);
    }
  }

  lemma RotationElsewhereKeepsHead(c: Settings, s: State, presented: TokenId, id: TokenId, now: Time, f: FamilyId,
                                   t: TokenId)
    requires presented in s.tokens ==> s.tokens[presented].family != f
    requires id !in s.issued && HeadOrGone(s, f, t)
    ensures HeadOrGone(RefreshStep(c, s, presented, id, now).0, f, t)
  {
  }

  lemma RotationHandsOverTheHead(c: Settings, s: State, f: FamilyId, t: TokenId, id: TokenId, now: Time)
    requires Inv(c, s) && HeadOrGone(s, f, t) && Enabled(s, Refresh(t, id), now)
    ensures !RefreshStep(c, s, t, id, now).1.ReuseDetected?
    ensures RefreshStep(c, s, t, id, now).1 == Rotated(id) || RefreshStep(c, s, t, id, now).0.tokens == s.tokens
    ensures RefreshStep(c, s, t, id, now).1.Rotated? ==> HeadOrGone(RefreshStep(c, s, t, id, now).0, f, id)
  {
  }

  lemma MoveKeepsSingleFlight(c: Settings, x: System, f: FamilyId, m: Move)
    requires SingleFlight(x.client) && Possible(x, f, m)
    ensures SingleFlight(Advance(c, x, f, m).client)
  {
  }

  lemma MoveKeepsHead(c: Settings, x: System, f: FamilyId, m: Move)
    requires Good(c, x, f) && Possible(x, f, m)
    ensures CurrentTokenIsHead(Advance(c, x, f, m), f)
  {
    match m
    case Elsewhere(event, now) =>
      forall t | HeadOrGone(x.server, f, t)
        ensures HeadOrGone(Step(c, x.server, event, now), f, t)
      {
        ElsewhereKeepsHead(c, x.server, event, now, f, t);
      }
    case ServerHandlesRefresh(a, id, now) =>
      RotationHandsOverTheHead(c, x.server, f, x.client.activations[a].sent, id, now);
    case _ =>
  }

  lemma MoveKeepsGood(c: Settings, x: System, f: FamilyId, m: Move)
    requires Good(c, x, f) && Possible(x, f, m)
    ensures Good(c, Advance(c, x, f, m), f)
  {
    MoveKeepsSingleFlight(c, x, f, m);
    MoveKeepsHead(c, x, f, m);
    match m
    case Elsewhere(event, now) => StepKeepsInv(c, x.server, event, now);
    case ServerHandlesRefresh(a, id, now) => StepKeepsInv(c, x.server, Refresh(x.client.activations[a].sent, id), now);
    case _ =>
  }

  // ------------------------------------------------------------------ over whole runs

  /** A page just opened on session `f`, or with no session at all. */
  ghost predicate FreshPage(c: Settings, x: System, f: FamilyId) {
    && Inv(c, x.server)
    && x.client.refreshInFlight.None? && x.client.activations == map[] && x.client.calls == map[]
    && (x.client.stored.Some? ==> HeadOrGone(x.server, f, x.client.stored.value))
  }

  ghost predicate MoveAt(c: Settings, f: FamilyId, xs: seq<System>, moves: seq<Move>, i: nat)
    requires i < |moves| && |xs| == |moves| + 1
  {
    Possible(xs[i], f, moves[i]) && xs[i + 1] == Advance(c, xs[i], f, moves[i])
  }

  ghost predicate Interleaving(c: Settings, f: FamilyId, xs: seq<System>, moves: seq<Move>) {
    && |xs| == |moves| + 1
    && FreshPage(c, xs[0], f)
    && forall i: nat :: i < |moves| ==> MoveAt(c, f, xs, moves, i)
  }

  lemma {:induction false} InterleavingStaysGood(c: Settings, f: FamilyId, xs: seq<System>, moves: seq<Move>, j: nat)
    requires Interleaving(c, f, xs, moves) && j < |xs|
    ensures Good(c, xs[j], f)
  {
    if j > 0 {
      InterleavingStaysGood(c, f, xs, moves, j - 1);
      assert MoveAt(c, f, xs, moves, j - 1);
      MoveKeepsGood(c, xs[j - 1], f, moves[j - 1]);
    }
  }

  ghost predicate Outstanding(k: Client, a: ActivationId) {
    a in k.activations && (k.activations[a].Requesting? || k.activations[a].Granted? || k.activations[a].Refused?)
  }

  /** However many calls fail together, at most one refresh is outstanding. */
  lemma AtMostOneRefreshOutstanding(c: Settings, f: FamilyId, xs: seq<System>, moves: seq<Move>, j: nat,
                                    a: ActivationId, b: ActivationId)
    requires Interleaving(c, f, xs, moves) && j < |xs|
    requires Outstanding(xs[j].client, a) && Outstanding(xs[j].client, b)
    ensures a == b
  {
    InterleavingStaysGood(c, f, xs, moves, j);
  }

  /** The client never makes the server believe its token was stolen. */
  lemma ClientNeverTripsReuseDetection(c: Settings, f: FamilyId, xs: seq<System>, moves: seq<Move>, j: nat)
    requires Interleaving(c, f, xs, moves) && j < |moves| && moves[j].ServerHandlesRefresh?
    ensures moves[j].activation in xs[j].client.activations && xs[j].client.activations[moves[j].activation].Requesting?
    ensures !RefreshStep(c, xs[j].server, xs[j].client.activations[moves[j].activation].sent, moves[j].id,
                         moves[j].now).1.ReuseDetected?
  {
    InterleavingStaysGood(c, f, xs, moves, j);
    assert MoveAt(c, f, xs, moves, j);
    var a := moves[j].activation;
    RotationHandsOverTheHead(c, xs[j].server, f, xs[j].client.activations[a].sent, moves[j].id, moves[j].now);
  }

  /** With no refresh in flight the stored token, if there is one and it has not expired out of the
      table, is the unrevoked end of its family's chain. */
  lemma StoredTokenIsTheHead(c: Settings, f: FamilyId, xs: seq<System>, moves: seq<Move>, j: nat)
    requires Interleaving(c, f, xs, moves) && j < |xs|
    requires xs[j].client.refreshInFlight.None?
    requires xs[j].client.stored.Some? && xs[j].client.stored.value in xs[j].server.tokens
    ensures var t := xs[j].client.stored.value;
            && xs[j].server.tokens[t].family == f && !xs[j].server.tokens[t].IsRevoked()
            && exists chain :: IsChain(xs[j].server.tokens, f, chain) && chain != [] && chain[|chain| - 1] == t
  {
    InterleavingStaysGood(c, f, xs, moves, j);
    var t := xs[j].client.stored.value;
    var chain :| IsChain(xs[j].server.tokens, f, chain);
    UnrevokedIsLast(xs[j].server.tokens, f, chain, t);
  }

  ghost predicate LiveSession(s: State, f: FamilyId, now: Time) {
    exists t :: t in s.tokens && s.tokens[t].family == f && Accepts(s, t, now)
  }

  /** As long as the session is live on the server, a refresh the server handles succeeds. */
  lemma LiveSessionRefreshes(c: Settings, f: FamilyId, xs: seq<System>, moves: seq<Move>, j: nat)
    requires Interleaving(c, f, xs, moves) && j < |moves| && moves[j].ServerHandlesRefresh?
    requires LiveSession(xs[j].server, f, moves[j].now)
    ensures moves[j].activation in xs[j + 1].client.activations
    ensures xs[j + 1].client.activations[moves[j].activation] == Granted(moves[j].id)
  {
    InterleavingStaysGood(c, f, xs, moves, j);
    assert MoveAt(c, f, xs, moves, j);
    var s, sent := xs[j].server, xs[j].client.activations[moves[j].activation].sent;
    var t :| t in s.tokens && s.tokens[t].family == f && Accepts(s, t, moves[j].now);
    assert HeadOrGone(s, f, sent) && sent in s.tokens;
    FamilyHasOneOwnerAndOneLiveToken(c, s, t, sent);
  }

  /** The client takes every refusal for the end of the session, also one by the rate limiter: both
      tokens are forgotten, although the server would still have accepted the one just presented. */
  lemma BeingTurnedAwayEndsTheSession(c: Settings, x: System, f: FamilyId, a: ActivationId, now: Time)
    requires Good(c, x, f) && Possible(x, f, ServerTurnsRefreshAway(a))
    requires LiveSession(x.server, f, now)
    ensures var turned := Advance(c, x, f, ServerTurnsRefreshAway(a));
            && Possible(turned, f, DeliverHeaders(a))
            && var after := Advance(c, turned, f, DeliverHeaders(a));
            && after.client.stored == None && after.client.accessToken == None
            && Accepts(after.server, x.client.activations[a].sent, now)
  {
    var s, sent := x.server, x.client.activations[a].sent;
    var t :| t in s.tokens && s.tokens[t].family == f && Accepts(s, t, now);
    assert HeadOrGone(s, f, sent) && sent in s.tokens;
    FamilyHasOneOwnerAndOneLiveToken(c, s, t, sent);
  }

  /** Without the guard the same two calls end the session: presenting one token twice is reuse. */
  lemma WithoutTheGuardTheSessionDies(c: Settings, s: State, t: TokenId, id: TokenId, id': TokenId, now: Time)
    requires Inv(c, s) && Accepts(s, t, now) && id !in s.issued
    ensures var first := RefreshStep(c, s, t, id, now).0;
            && RefreshStep(c, first, t, id', now).1.ReuseDetected?
            && DeadFamily(RefreshStep(c, first, t, id', now).0, s.tokens[t].family)
  {
    DoubleSpendKillsTheFamily(c, s, t, id, id', now, now);
  }

  // ------------------------------------------------------------------ the module's variables

  /** `accessToken`, `refreshInFlight` and the stored refresh token, reassigned between awaits. */
  class ApiClient {
    var accessToken: Option<AccessToken>
    var stored: Option<TokenId>
    var refreshInFlight: Option<ActivationId>
    var activations: map<ActivationId, Activation>
    var calls: map<CallId, Call>

    /** A page just loaded, with what the browser has stored. */
    constructor (stored: Option<TokenId>)
      ensures Valid() && Snapshot() == Client(None, stored, None, map[], map[])
    {
      accessToken, this.stored, refreshInFlight := None, stored, None;
      activations, calls := map[], map[];
    }

    ghost function Snapshot(): Client
      reads this
    {
      Client(accessToken, stored, refreshInFlight, activations, calls)
    }

    /** At most one refresh is under way, and the guard names it. */
    ghost predicate Valid()
      reads this
    {
      SingleFlight(Snapshot())
    }

    method Clear()
      modifies this`accessToken, this`stored
      ensures accessToken == None && stored == None
    {
      accessToken := None;
      stored := None;
    }

    /** The part of `apiFetch` before its first await. */
    method ApiFetch(call: CallId, anonymous: bool)
      requires Valid()
      modifies this
      ensures Valid()
      ensures Snapshot() == Begin(old(Snapshot()), call, anonymous)
    {
      calls := calls[call := Sent(if anonymous then None else accessToken, anonymous)];
    }

    /** The part of `refreshAccessToken` before its first await. */
    method RefreshAccessToken(activation: ActivationId)
      modifies this`activations
      ensures activations
              == old(activations)[activation := if stored.Some? then Requesting(stored.value) else Returned(None)]
    {
      if stored.None? {
        activations := activations[activation := Returned(None)];
      } else {
        activations := activations[activation := Requesting(stored.value)];
      }
    }

    method RefreshOnceFor(call: CallId, activation: ActivationId)
      requires Valid() && activation !in activations
      modifies this
      ensures Valid()
      ensures Snapshot() == RefreshOnce(old(Snapshot()), call, activation)
    {
      if refreshInFlight.None? {
        RefreshAccessToken(activation);
        refreshInFlight := Some(activation);
      }
      calls := calls[call := AwaitingRefresh(refreshInFlight.value)];
    }

    method OnHeaders(a: ActivationId)
      requires Valid() && a in activations
      modifies this
      ensures Valid()
      ensures Snapshot() == HeadersArrive(old(Snapshot()), a)
    {
      match activations[a]
      case Refused =>
        Clear();
        activations := activations[a := Returned(None)];
      case Granted(pair) =>
        activations := activations[a := ReadingBody(pair)];
      case _ =>
    }

    method OnBody(a: ActivationId)
      requires Valid() && a in activations
      modifies this
      ensures Valid()
      ensures Snapshot() == BodyArrives(old(Snapshot()), a)
    {
      match activations[a]
      case ReadingBody(pair) =>
        accessToken := Some(pair);
        stored := Some(pair);
        activations := activations[a := Returned(Some(pair))];
      case _ =>
    }

    method OnFinally(a: ActivationId)
      requires Valid() && a in activations
      modifies this
      ensures Valid()
      ensures Snapshot() == RunFinally(old(Snapshot()), a)
    {
      match activations[a]
      case Returned(result) =>
        refreshInFlight := None;
        activations := activations[a := Settled(result)];
      case _ =>
    }

    method OnResume(call: CallId)
      requires Valid() && call in calls && calls[call].AwaitingRefresh? && calls[call].activation in activations
      modifies this
      ensures Valid()
      ensures Snapshot() == Resume(old(Snapshot()), call)
    {
      match activations[calls[call].activation]
      case Settled(result) =>
        calls := calls[call := if result.Some? then Resent(result.value) else Finished];
      case _ =>
    }
  }
}
