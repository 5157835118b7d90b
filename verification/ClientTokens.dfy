/** Which token a page's requests carry, over every interleaving with the server. */
module ClientTokens {
  import opened Common
  import opened SessionModel
  import opened SessionClient

  /** The access token in use came with the refresh token that is stored. */
  ghost predicate TokensGoTogether(k: Client) {
    k.accessToken.Some? ==> k.accessToken == k.stored
  }

  lemma MoveKeepsTokensTogether(c: Settings, x: System, f: FamilyId, m: Move)
    requires Possible(x, f, m) && TokensGoTogether(x.client)
    ensures TokensGoTogether(Advance(c, x, f, m).client)
  {
    hide RefreshStep, Step, Enabled, Foreign;
  }

  /** A page starts without an access token; from then on, whatever access token it uses belongs to the
      stored refresh token, and with no refresh token stored there is none. */
  lemma {:induction false} AccessGoesWithStored(c: Settings, f: FamilyId, xs: seq<System>, moves: seq<Move>, j: nat)
    requires Interleaving(c, f, xs, moves) && xs[0].client.accessToken.None? && j < |xs|
    ensures TokensGoTogether(xs[j].client)
  {
    if j > 0 {
      AccessGoesWithStored(c, f, xs, moves, j - 1);
      assert MoveAt(c, f, xs, moves, j - 1);
      MoveKeepsTokensTogether(c, xs[j - 1], f, moves[j - 1]);
    }
  }

  /** A new call carries the access token of the moment, or none if it is anonymous. */
  lemma CallsCarryTheCurrentToken(c: Settings, f: FamilyId, xs: seq<System>, moves: seq<Move>, j: nat)
    requires Interleaving(c, f, xs, moves) && j < |moves| && moves[j].StartCall?
    ensures var call, anonymous := moves[j].call, moves[j].anonymous;
            && call in xs[j + 1].client.calls
            && xs[j + 1].client.calls[call].Sent? && xs[j + 1].client.calls[call].anonymous == anonymous
            && (!anonymous ==> xs[j + 1].client.calls[call].token == xs[j].client.accessToken)
            && (anonymous ==> xs[j + 1].client.calls[call].token == None)
  {
    assert MoveAt(c, f, xs, moves, j);
  }

  /** The server answered refresh `a` with the pair of token `pair`, at some move before `j`. */
  ghost predicate Answered(c: Settings, xs: seq<System>, moves: seq<Move>, j: nat, a: ActivationId, pair: TokenId)
    requires j <= |moves| < |xs|
  {
    exists i :: 0 <= i < j && Grants(c, xs[i], moves[i], a, pair)
  }

  ghost predicate HandedOut(c: Settings, xs: seq<System>, moves: seq<Move>, j: nat, pair: TokenId)
    requires j <= |moves| < |xs|
  {
    exists a :: Answered(c, xs, moves, j, a, pair)
  }

  predicate Grants(c: Settings, x: System, m: Move, a: ActivationId, pair: TokenId) {
    && m.ServerHandlesRefresh? && m.activation == a && m.id == pair
    && a in x.client.activations && x.client.activations[a].Requesting?
    && RefreshStep(c, x.server, x.client.activations[a].sent, pair, m.now).1 == Rotated(pair)
  }

  /** The pair a refresh has brought so far. */
  function Brought(a: Activation): Option<TokenId> {
    match a
    case Granted(pair) => Some(pair)
    case ReadingBody(pair) => Some(pair)
    case Returned(result) => result
    case Settled(result) => result
    case _ => None
  }

  ghost predicate Sourced(c: Settings, xs: seq<System>, moves: seq<Move>, j: nat)
    requires j <= |moves| < |xs|
  {
    var k := xs[j].client;
    && (forall a, pair :: a in k.activations && Brought(k.activations[a]) == Some(pair) ==>
          Answered(c, xs, moves, j, a, pair))
    && (forall call :: call in k.calls && k.calls[call].Resent? ==>
          HandedOut(c, xs, moves, j, k.calls[call].retryWith))
  }

  lemma LaterAnswered(c: Settings, xs: seq<System>, moves: seq<Move>, j: nat)
    requires j < |moves| < |xs|
    ensures forall a, pair :: Answered(c, xs, moves, j, a, pair) ==> Answered(c, xs, moves, j + 1, a, pair)
    ensures forall a, pair :: Grants(c, xs[j], moves[j], a, pair) ==> Answered(c, xs, moves, j + 1, a, pair)
  {
    hide Grants;
  }

  lemma ActivationsAreSourced(c: Settings, x: System, f: FamilyId, m: Move, a: ActivationId)
    requires Possible(x, f, m)
    ensures var k := Advance(c, x, f, m).client;
            a in k.activations && Brought(k.activations[a]).Some? ==>
              || (a in x.client.activations && Brought(x.client.activations[a]) == Brought(k.activations[a]))
              || Grants(c, x, m, a, Brought(k.activations[a]).value)
  {
    hide Step, Enabled, Foreign, Issue, RevokeFamily;
  }

  lemma RetriesAreSourced(c: Settings, x: System, f: FamilyId, m: Move, call: CallId)
    requires Possible(x, f, m)
    ensures var k := Advance(c, x, f, m).client;
            call in k.calls && k.calls[call].Resent? ==>
              || (call in x.client.calls && x.client.calls[call] == k.calls[call])
              || exists a :: a in x.client.activations
                             && Brought(x.client.activations[a]) == Some(k.calls[call].retryWith)
  {
    hide RefreshStep, Step, Enabled, Foreign;
  }

  lemma NextActivationIsSourced(c: Settings, f: FamilyId, xs: seq<System>, moves: seq<Move>, j: nat, a: ActivationId,
                                pair: TokenId)
    requires j < |moves| && |xs| == |moves| + 1 && MoveAt(c, f, xs, moves, j) && Sourced(c, xs, moves, j)
    requires a in xs[j + 1].client.activations && Brought(xs[j + 1].client.activations[a]) == Some(pair)
    ensures Answered(c, xs, moves, j + 1, a, pair)
  {
    ActivationsAreSourced(c, xs[j], f, moves[j], a);
    LaterAnswered(c, xs, moves, j);
    hide Advance, Possible, Answered, Brought, Grants;
  }

  lemma NextRetryIsSourced(c: Settings, f: FamilyId, xs: seq<System>, moves: seq<Move>, j: nat, call: CallId)
    requires j < |moves| && |xs| == |moves| + 1 && MoveAt(c, f, xs, moves, j) && Sourced(c, xs, moves, j)
    requires call in xs[j + 1].client.calls && xs[j + 1].client.calls[call].Resent?
    ensures HandedOut(c, xs, moves, j + 1, xs[j + 1].client.calls[call].retryWith)
  {
    RetriesAreSourced(c, xs[j], f, moves[j], call);
    LaterAnswered(c, xs, moves, j);
    hide Advance, Possible, Answered, Brought, Grants;
  }

  lemma {:induction false} TokensAreSourced(c: Settings, f: FamilyId, xs: seq<System>, moves: seq<Move>, j: nat)
    requires Interleaving(c, f, xs, moves) && j < |xs|
    ensures Sourced(c, xs, moves, j)
  {
    hide MoveAt, Answered, Brought, HandedOut;
    if j > 0 {
      TokensAreSourced(c, f, xs, moves, j - 1);
      assert MoveAt(c, f, xs, moves, j - 1);
      var k := xs[j].client;
      forall a, pair | a in k.activations && Brought(k.activations[a]) == Some(pair)
        ensures Answered(c, xs, moves, j, a, pair)
      {
        NextActivationIsSourced(c, f, xs, moves, j - 1, a, pair);
      }
      forall call | call in k.calls && k.calls[call].Resent?
        ensures HandedOut(c, xs, moves, j, k.calls[call].retryWith)
      {
        NextRetryIsSourced(c, f, xs, moves, j - 1, call);
      }
    }
  }

  /** A retried call carries a token that the server handed out in this very interleaving, in answer to a
      refresh of this page. */
  lemma RetriesCarryAFreshToken(c: Settings, f: FamilyId, xs: seq<System>, moves: seq<Move>, j: nat, call: CallId)
      returns (i: nat)
    requires Interleaving(c, f, xs, moves) && j < |xs|
    requires call in xs[j].client.calls && xs[j].client.calls[call].Resent?
    ensures i < j && moves[i].ServerHandlesRefresh? && moves[i].id == xs[j].client.calls[call].retryWith
    ensures var a := moves[i].activation;
            && a in xs[i].client.activations && xs[i].client.activations[a].Requesting?
            && RefreshStep(c, xs[i].server, xs[i].client.activations[a].sent, moves[i].id, moves[i].now).1
               == Rotated(moves[i].id)
  {
    TokensAreSourced(c, f, xs, moves, j);
    var a :| Answered(c, xs, moves, j, a, xs[j].client.calls[call].retryWith);
    i :| 0 <= i < j && Grants(c, xs[i], moves[i], a, xs[j].client.calls[call].retryWith);
  }

  /** Once the body of a granted refresh is read, both tokens of that pair are in use, and whoever waited
      retries with it. */
  lemma GrantedPairIsUsed(c: Settings, x: System, f: FamilyId, a: ActivationId, call: CallId, pair: TokenId)
    requires Possible(x, f, DeliverHeaders(a)) && x.client.activations[a] == Granted(pair)
    requires call in x.client.calls && x.client.calls[call] == AwaitingRefresh(a)
    ensures var x1 := Advance(c, x, f, DeliverHeaders(a));
            && Possible(x1, f, DeliverBody(a))
            && var x2 := Advance(c, x1, f, DeliverBody(a));
            && x2.client.accessToken == Some(pair) && x2.client.stored == Some(pair)
            && Possible(x2, f, Finally(a))
            && var x3 := Advance(c, x2, f, Finally(a));
            && x3.client.refreshInFlight.None? && Possible(x3, f, ResumeCall(call))
            && var x4 := Advance(c, x3, f, ResumeCall(call));
            && x4.client.calls[call] == Resent(pair) && x4.client.accessToken == Some(pair)
  {
  }

  /** Once a refusal is in, both tokens are forgotten, and whoever waited gives up. */
  lemma RefusedWaitersGiveUp(c: Settings, x: System, f: FamilyId, a: ActivationId, call: CallId)
    requires Possible(x, f, DeliverHeaders(a)) && x.client.activations[a] == Refused
    requires call in x.client.calls && x.client.calls[call] == AwaitingRefresh(a)
    ensures var x1 := Advance(c, x, f, DeliverHeaders(a));
            && x1.client.accessToken == None && x1.client.stored == None && Possible(x1, f, Finally(a))
            && var x2 := Advance(c, x1, f, Finally(a));
            && x2.client.refreshInFlight.None? && Possible(x2, f, ResumeCall(call))
            && Advance(c, x2, f, ResumeCall(call)).client.calls[call] == Finished
  {
  }

  /** A call that was turned away waits for the refresh in flight, and starts one if there is none: with the
      stored token, or without one to no avail. */
  lemma TurnedAwayCallsWait(c: Settings, x: System, f: FamilyId, call: CallId, a: ActivationId)
    requires Possible(x, f, Unauthorised(call, a))
    ensures var k, k' := x.client, Advance(c, x, f, Unauthorised(call, a)).client;
            && k'.accessToken == k.accessToken && k'.stored == k.stored
            && (k.refreshInFlight.Some? ==>
                k'.calls[call] == AwaitingRefresh(k.refreshInFlight.value) && k'.activations == k.activations
                && k'.refreshInFlight == k.refreshInFlight)
            && (k.refreshInFlight.None? ==>
                k'.calls[call] == AwaitingRefresh(a) && k'.refreshInFlight == Some(a)
                && a in k'.activations
                && k'.activations[a] == if k.stored.Some? then Requesting(k.stored.value) else Returned(None))
  {
  }
}
