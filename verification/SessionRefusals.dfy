/** What a refused refresh means for the session the client then forgets. */
module SessionRefusals {
  import opened Common
  import opened SessionModel
  import opened SessionLaws
  import opened SessionClient
  import PurgeLaws

  /** Neither spent, nor revoked, nor expired: what the client takes a refusal to rule out. */
  predicate StillGood(s: State, t: TokenId, now: Time) {
    t in s.tokens && s.tokens[t].IsUsable(now)
  }

  predicate OwnerActive(s: State, t: TokenId)
    requires t in s.tokens
  {
    s.tokens[t].user in s.users && s.users[s.tokens[t].user].active
  }

  /** The session is live exactly while the token the client has sent would be accepted. */
  lemma SentStandsForTheSession(c: Settings, x: System, f: FamilyId, a: ActivationId, now: Time)
    requires Good(c, x, f) && a in x.client.activations && x.client.activations[a].Requesting?
    ensures HeadOrGone(x.server, f, x.client.activations[a].sent)
    ensures LiveSession(x.server, f, now) <==> Accepts(x.server, x.client.activations[a].sent, now)
  {
    var s, sent := x.server, x.client.activations[a].sent;
    if LiveSession(s, f, now) {
      var t :| t in s.tokens && s.tokens[t].family == f && Accepts(s, t, now);
      FamilyHasOneOwnerAndOneLiveToken(c, s, t, sent);
    }
  }

  /** Over every interleaving, the server refuses exactly when it would not accept the token: for a token
      that is still good, when and only when its owner is not active; for an active owner, when and only
      when the token has expired. */
  lemma RefusedExactlyWhenNotAcceptable(c: Settings, f: FamilyId, xs: seq<System>, moves: seq<Move>, j: nat)
    requires Interleaving(c, f, xs, moves) && j < |moves| && moves[j].ServerHandlesRefresh?
    ensures var a, now := moves[j].activation, moves[j].now;
            && a in xs[j].client.activations && xs[j].client.activations[a].Requesting?
            && a in xs[j + 1].client.activations
            && var s, sent := xs[j].server, xs[j].client.activations[a].sent;
            && var refused := xs[j + 1].client.activations[a] == Refused;
            && (refused <==> !Accepts(s, sent, now))
            && (refused <==> !LiveSession(s, f, now))
            && (StillGood(s, sent, now) ==> (refused <==> !OwnerActive(s, sent)))
            && (sent in s.tokens && OwnerActive(s, sent) ==> (refused <==> s.tokens[sent].IsExpired(now)))
  {
    InterleavingStaysGood(c, f, xs, moves, j);
    assert MoveAt(c, f, xs, moves, j);
    SentStandsForTheSession(c, xs[j], f, moves[j].activation, moves[j].now);
    AcceptsIffRotates(c, xs[j].server, xs[j].client.activations[moves[j].activation].sent, moves[j].id, moves[j].now);
  }

  /** A refusal by the limiter says nothing about the token, and the client does not tell them apart:
      whoever refused, both tokens are forgotten. */
  lemma EveryRefusalClears(c: Settings, x: System, f: FamilyId, a: ActivationId)
    requires Possible(x, f, DeliverHeaders(a)) && x.client.activations[a].Refused?
    ensures Advance(c, x, f, DeliverHeaders(a)).client.stored == None
    ensures Advance(c, x, f, DeliverHeaders(a)).client.accessToken == None
  {
  }

  // ------------------------------------------------------------------ which refusals are final

  /** Every token of the family is revoked or has expired. */
  ghost predicate Over(s: State, f: FamilyId, now: Time) {
    f in s.families && forall t :: t in s.tokens && s.tokens[t].family == f ==> !s.tokens[t].IsUsable(now)
  }

  lemma StepKeepsOver(c: Settings, s: State, e: Event, now: Time, f: FamilyId)
    requires RowsAccountedFor(c, s) && Enabled(s, e, now) && Over(s, f, s.clock)
    ensures Over(Step(c, s, e, now), f, Step(c, s, e, now).clock)
  {
    hide Step, HasEffect, Over, Enabled;
    var effect := EffectOf(c, s, e, now);
    EffectKeepsOver(c, s, Step(c, s, e, now), now, effect, f);
  }

  lemma EffectKeepsOver(c: Settings, s: State, s': State, now: Time, effect: Effect, f: FamilyId)
    requires HasEffect(c, s, s', now, effect) && Over(s, f, s.clock)
    ensures Over(s', f, s'.clock)
  {
  }

  lemma {:induction false} OverForGood(c: Settings, s: State, events: seq<(Event, Time)>, f: FamilyId)
    requires Inv(c, s) && PurgeLaws.Possible(c, s, events) && Over(s, f, s.clock)
    ensures Over(PurgeLaws.After(c, s, events), f, PurgeLaws.After(c, s, events).clock)
  {
    if events != [] {
      var before := events[..|events| - 1];
      var (e, now) := events[|events| - 1];
      OverForGood(c, s, before, f);
      PurgeLaws.PossibleRunKeepsInv(c, s, before);
      hide Over;
      StepKeepsOver(c, PurgeLaws.After(c, s, before), e, now, f);
    }
  }

  /** Whether the session can be continued at some later moment of some run of the server. */
  ghost predicate CanRevive(c: Settings, s: State, f: FamilyId) {
    exists events :: PurgeLaws.Possible(c, s, events)
      && LiveSession(PurgeLaws.After(c, s, events), f, PurgeLaws.After(c, s, events).clock)
  }

  /** The session behind a token can still be continued later if and only if the token is still good, for
      owners that exist: re-activating the owner is enough, and without a good token nothing is. */
  lemma RevivesExactlyWhenStillGood(c: Settings, s: State, f: FamilyId, t: TokenId)
    requires Inv(c, s) && HeadOrGone(s, f, t) && (t in s.tokens ==> s.tokens[t].user in s.users)
    ensures CanRevive(c, s, f) <==> StillGood(s, t, s.clock)
  {
    if StillGood(s, t, s.clock) {
      var events := [(SetActive(s.tokens[t].user, true), s.clock)];
      assert events[..0] == [];
      assert PurgeLaws.Possible(c, s, []) && PurgeLaws.After(c, s, []) == s;
      var after := Step(c, s, events[0].0, s.clock);
      assert PurgeLaws.After(c, s, events) == after && PurgeLaws.Possible(c, s, events);
      assert Accepts(after, t, after.clock);
      assert LiveSession(after, f, after.clock);
    } else {
      NotGoodIsOver(c, s, f, t);
      forall events | PurgeLaws.Possible(c, s, events)
        ensures !LiveSession(PurgeLaws.After(c, s, events), f, PurgeLaws.After(c, s, events).clock)
      {
        OverForGood(c, s, events, f);
      }
    }
  }

  lemma NotGoodIsOver(c: Settings, s: State, f: FamilyId, t: TokenId)
    requires Inv(c, s) && HeadOrGone(s, f, t) && !StillGood(s, t, s.clock)
    ensures Over(s, f, s.clock)
  {
    if t in s.tokens {
      HeadOutlivesItsFamily(c, s, f, t);
    }
  }

  // ------------------------------------------------------------------ two refusals that are not final

  const LIFETIMES := Settings(10, 1, 1, 1)

  /** User 7, with token 1 of family 1, which expires at 10. */
  ghost function Server(clock: Time, active: bool): State {
    State(clock, map[7 := User(0, None, None, active, true)], map[1 := Token(7, 1, 10, None, None)], map[],
          map[], map[1 := 7], map[1 := 7])
  }

  /** A page that has token 1 stored, and the one call and the one refresh it makes. */
  ghost function Page(clock: Time, active: bool, stored: Option<TokenId>,
                      activations: map<ActivationId, Activation>): System {
    System(Server(clock, active),
           Client(None, stored, if activations == map[] then None else Some(0), activations,
                  if activations == map[] then map[] else map[0 := AwaitingRefresh(0)]))
  }

  lemma ServerIsFine(clock: Time, active: bool)
    requires clock >= 0
    ensures Inv(LIFETIMES, Server(clock, active)) && HeadOrGone(Server(clock, active), 1, 1)
    ensures clock < 10 ==> (LiveSession(Server(clock, active), 1, clock) <==> active)
  {
    var s := Server(clock, active);
    assert IsChain(s.tokens, 1, [1]);
    assert active && clock < 10 ==> Accepts(s, 1, clock);
  }

  ghost function Fresh(clock: Time, active: bool): System {
    Page(clock, active, Some(1), map[])
  }

  ghost function Asking(clock: Time, active: bool): System {
    Page(clock, active, Some(1), map[0 := Requesting(1)])
  }

  ghost function TurnedDown(clock: Time, active: bool): System {
    Page(clock, active, Some(1), map[0 := Refused])
  }

  ghost function Forgotten(clock: Time, active: bool): System {
    Page(clock, active, None, map[0 := Returned(None)])
  }

  /** Move `m` leads from `x` to `y`. */
  ghost predicate Leads(x: System, m: Move, y: System) {
    Possible(x, 1, m) && Advance(LIFETIMES, x, 1, m) == y
  }

  lemma Asks(active: bool)
    ensures Leads(Fresh(0, active), RestoreSession(0, 0), Asking(0, active))
  {
  }

  lemma LimiterTurnsDown(active: bool)
    ensures Leads(Asking(0, active), ServerTurnsRefreshAway(0), TurnedDown(0, active))
  {
  }

  lemma ServerTurnsDown()
    ensures RefreshStep(LIFETIMES, Server(0, false), 1, 2, 1) == (Server(1, false), InactiveAccount)
    ensures Leads(Asking(0, false), ServerHandlesRefresh(0, 2, 1), TurnedDown(1, false))
  {
  }

  lemma Forgets(clock: Time, active: bool)
    ensures Leads(TurnedDown(clock, active), DeliverHeaders(0), Forgotten(clock, active))
  {
  }

  lemma Reactivates()
    ensures Leads(Forgotten(1, false), Elsewhere(SetActive(7, true), 2), Forgotten(2, true))
  {
    assert SetActiveStep(Server(1, false), 7, true, 2).users == Server(2, true).users;
  }

  lemma FreshIsFresh(active: bool)
    ensures FreshPage(LIFETIMES, Fresh(0, active), 1) && Fresh(0, active).client.stored == Some(1)
    ensures Fresh(0, active).server == Server(0, active)
  {
    ServerIsFine(0, active);
    hide Inv, HeadOrGone;
  }

  lemma ThreeMoves(x: System, m1: Move, x1: System, m2: Move, x2: System, m3: Move, x3: System)
    requires FreshPage(LIFETIMES, x, 1) && Leads(x, m1, x1) && Leads(x1, m2, x2) && Leads(x2, m3, x3)
    ensures Interleaving(LIFETIMES, 1, [x, x1, x2, x3], [m1, m2, m3])
  {
    hide FreshPage, Possible, Advance;
    forall i: nat | i < 3
      ensures MoveAt(LIFETIMES, 1, [x, x1, x2, x3], [m1, m2, m3], i)
    {
      assert i == 0 || i == 1 || i == 2;
    }
  }

  lemma FourMoves(x: System, m1: Move, x1: System, m2: Move, x2: System, m3: Move, x3: System, m4: Move, x4: System)
    requires FreshPage(LIFETIMES, x, 1)
    requires Leads(x, m1, x1) && Leads(x1, m2, x2) && Leads(x2, m3, x3) && Leads(x3, m4, x4)
    ensures Interleaving(LIFETIMES, 1, [x, x1, x2, x3, x4], [m1, m2, m3, m4])
  {
    hide FreshPage, Possible, Advance;
    forall i: nat | i < 4
      ensures MoveAt(LIFETIMES, 1, [x, x1, x2, x3, x4], [m1, m2, m3, m4], i)
    {
      assert i == 0 || i == 1 || i == 2 || i == 3;
    }
  }

  lemma ServersOf(clock: Time, active: bool)
    ensures Asking(clock, active).server == TurnedDown(clock, active).server == Server(clock, active)
    ensures Forgotten(clock, active).server == Server(clock, active)
    ensures Forgotten(clock, active).client.stored == None && Forgotten(clock, active).client.accessToken == None
  {
  }

  /** Turned away by the rate limiter: the page forgets a session that is live throughout. */
  lemma TheLimiterEndsALiveSession()
    ensures Interleaving(LIFETIMES, 1, [Fresh(0, true), Asking(0, true), TurnedDown(0, true), Forgotten(0, true)],
                         [RestoreSession(0, 0), ServerTurnsRefreshAway(0), DeliverHeaders(0)])
    ensures Fresh(0, true).client.stored == Some(1) && LiveSession(Fresh(0, true).server, 1, 0)
    ensures Forgotten(0, true).client.stored == None && Forgotten(0, true).client.accessToken == None
    ensures LiveSession(Forgotten(0, true).server, 1, 0)
  {
    hide *;
    FreshIsFresh(true);
    ServersOf(0, true);
    ServerIsFine(0, true);
    Asks(true);
    LimiterTurnsDown(true);
    Forgets(0, true);
    ThreeMoves(Fresh(0, true), RestoreSession(0, 0), Asking(0, true), ServerTurnsRefreshAway(0), TurnedDown(0, true),
               DeliverHeaders(0), Forgotten(0, true));
  }

  /** Refused while the owner was deactivated: once re-activated the session is live again, but the page has
      forgotten it. */
  lemma DeactivationEndsAGoodSession()
    ensures Interleaving(LIFETIMES, 1,
                         [Fresh(0, false), Asking(0, false), TurnedDown(1, false), Forgotten(1, false),
                          Forgotten(2, true)],
                         [RestoreSession(0, 0), ServerHandlesRefresh(0, 2, 1), DeliverHeaders(0),
                          Elsewhere(SetActive(7, true), 2)])
    ensures Fresh(0, false).client.stored == Some(1)
    ensures RefreshStep(LIFETIMES, Asking(0, false).server, 1, 2, 1).1 == InactiveAccount
    ensures Forgotten(2, true).client.stored == None && Forgotten(2, true).client.accessToken == None
    ensures LiveSession(Forgotten(2, true).server, 1, 2)
  {
    hide *;
    FreshIsFresh(false);
    ServersOf(0, false);
    ServersOf(2, true);
    ServerIsFine(2, true);
    Asks(false);
    ServerTurnsDown();
    Forgets(1, false);
    Reactivates();
    FourMoves(Fresh(0, false), RestoreSession(0, 0), Asking(0, false), ServerHandlesRefresh(0, 2, 1),
              TurnedDown(1, false), DeliverHeaders(0), Forgotten(1, false), Elsewhere(SetActive(7, true), 2),
              Forgotten(2, true));
  }
}
