/** What every run of the session protocol keeps. */
module SessionLaws {
  import opened Common
  import opened SessionModel

  lemma AcceptsIffRotates(c: Settings, s: State, t: TokenId, id: TokenId, now: Time)
    ensures Accepts(s, t, now) <==> RefreshStep(c, s, t, id, now).1.Rotated?
    ensures RefreshStep(c, s, t, id, now).1.ReuseDetected? <==> t in s.tokens && s.tokens[t].IsRevoked()
  {
  }

  // ------------------------------------------------------------------ what a step does to the tokens

  datatype Effect = Revokes | Opens(id: TokenId, user: UserId, family: FamilyId)
      | Rotates(presented: TokenId, id: TokenId) | Purges

  /** Revocation only fills in `revokedAt`. */
  ghost predicate OnlyRevokes(tokens: map<TokenId, Token>, tokens': map<TokenId, Token>) {
    && tokens'.Keys == tokens.Keys
    && forall t :: t in tokens ==>
        tokens'[t] == tokens[t]
          || (tokens[t].revokedAt.None? && tokens'[t] == tokens[t].(revokedAt := tokens'[t].revokedAt))
  }

  ghost predicate HasEffect(c: Settings, s: State, s': State, now: Time, effect: Effect) {
    && s.clock <= now == s'.clock
    && match effect
       case Revokes =>
         OnlyRevokes(s.tokens, s'.tokens) && s'.issued == s.issued && s'.families == s.families
       case Opens(id, user, family) =>
         && id !in s.issued && family !in s.families
         && s'.tokens == s.tokens[id := Token(user, family, now + c.refreshLifetime, None, None)]
         && s'.issued == s.issued[id := user] && s'.families == s.families[family := user]
       case Rotates(presented, id) =>
         && id !in s.issued && Accepts(s, presented, now)
         && var spent := s.tokens[presented];
         && s'.tokens == s.tokens[presented := spent.(revokedAt := Some(now), replacedBy := Some(id))]
                                 [id := Token(spent.user, spent.family, now + c.refreshLifetime, None, None)]
         && s'.issued == s.issued[id := spent.user] && s'.families == s.families[spent.family := spent.user]
       case Purges =>
         s'.tokens == WithoutExpired(s.tokens, now) && s'.issued == s.issued && s'.families == s.families
  }

  lemma EffectOf(c: Settings, s: State, e: Event, now: Time) returns (effect: Effect)
    requires RowsAccountedFor(c, s) && Enabled(s, e, now)
    ensures HasEffect(c, s, Step(c, s, e, now), now, effect)
  {
    effect := Revokes;
    match e
    case Login(email, found, password, id, family) =>
      effect := EffectOfLogin(c, s, email, found, password, id, family, now);
    case Google(who, bySubject, byEmail, newUser, id, family) =>
      effect := EffectOfGoogle(c, s, who, bySubject, byEmail, newUser, id, family, now);
    case Refresh(presented, id) =>
      effect := EffectOfRefresh(c, s, presented, id, now);
    case Purge =>
      effect := Purges;
    case Logout(_) =>
    case ResetPassword(_, _) =>
    case _ =>
      TokensStand(c, s, e, now);
      hide Step;
  }

  lemma TokensStand(c: Settings, s: State, e: Event, now: Time)
    requires e.RequestReset? || e.Register? || e.Resend? || e.VerifyEmail? || e.MarkVerified? || e.SetActive?
    ensures var s' := Step(c, s, e, now);
            s'.clock == now && s'.tokens == s.tokens && s'.issued == s.issued && s'.families == s.families
  {
    hide InvalidateLinks, Redeem;
  }

  lemma EffectOfLogin(c: Settings, s: State, email: Email, found: Option<UserId>, password: Password, id: TokenId,
                      family: FamilyId, now: Time) returns (effect: Effect)
    requires RowsAccountedFor(c, s) && Enabled(s, Login(email, found, password, id, family), now)
    ensures HasEffect(c, s, LoginStep(c, s, found, password, id, family, now).0, now, effect)
  {
    effect := if LoginStep(c, s, found, password, id, family, now).1.LoggedIn?
              then Opens(id, found.value, family) else Revokes;
  }

  lemma EffectOfGoogle(c: Settings, s: State, who: Identity, bySubject: Option<UserId>, byEmail: Option<UserId>,
                       newUser: UserId, id: TokenId, family: FamilyId, now: Time) returns (effect: Effect)
    requires RowsAccountedFor(c, s) && Enabled(s, Google(who, bySubject, byEmail, newUser, id, family), now)
    ensures HasEffect(c, s, GoogleStep(c, s, who, bySubject, byEmail, newUser, id, family, now).0, now, effect)
  {
    var user := AccountFor(s.users, who, bySubject, byEmail, newUser).0;
    effect := if GoogleStep(c, s, who, bySubject, byEmail, newUser, id, family, now).1.LoggedIn?
              then Opens(id, user, family) else Revokes;
  }

  lemma EffectOfRefresh(c: Settings, s: State, presented: TokenId, id: TokenId, now: Time) returns (effect: Effect)
    requires RowsAccountedFor(c, s) && s.clock <= now && id !in s.issued
    ensures HasEffect(c, s, RefreshStep(c, s, presented, id, now).0, now, effect)
  {
    effect := if Accepts(s, presented, now) then Rotates(presented, id) else Revokes;
  }

  // ------------------------------------------------------------------ chains survive every step

  lemma RevocationKeepsChain(tokens: map<TokenId, Token>, tokens': map<TokenId, Token>, family: FamilyId,
                             chain: seq<TokenId>)
    requires IsChain(tokens, family, chain) && OnlyRevokes(tokens, tokens')
    ensures IsChain(tokens', family, chain)
  {
    forall i: nat | i + 1 < |chain|
      ensures Linked(tokens', chain, i)
    {
      assert Linked(tokens, chain, i);
    }
    assert chain != [] ==> chain[|chain| - 1] in chain;
  }

  lemma RevocationKeepsChains(c: Settings, s: State, s': State, now: Time)
    requires ChainsOnly(s) && HasEffect(c, s, s', now, Revokes)
    ensures ChainsOnly(s')
  {
    forall f | f in s'.families
      ensures exists chain :: IsChain(s'.tokens, f, chain)
    {
      var chain :| IsChain(s.tokens, f, chain);
      RevocationKeepsChain(s.tokens, s'.tokens, f, chain);
    }
  }

  /** A chain only depends on its own rows. */
  lemma UntouchedChain(tokens: map<TokenId, Token>, tokens': map<TokenId, Token>, family: FamilyId, chain: seq<TokenId>)
    requires IsChain(tokens, family, chain)
    requires forall t :: t in chain ==> t in tokens' && tokens'[t] == tokens[t]
    requires forall t :: t in tokens' && tokens'[t].family == family ==> t in chain
    ensures IsChain(tokens', family, chain)
  {
    forall i: nat | i + 1 < |chain|
      ensures Linked(tokens', chain, i)
    {
      assert Linked(tokens, chain, i);
      assert chain[i] in chain && chain[i + 1] in chain;
    }
    assert chain != [] ==> chain[|chain| - 1] in chain;
  }

  lemma NewFamilyKeepsChains(c: Settings, s: State, s': State, now: Time, id: TokenId, user: UserId, family: FamilyId)
    requires Inv(c, s) && HasEffect(c, s, s', now, Opens(id, user, family))
    ensures ChainsOnly(s')
  {
    forall f | f in s'.families
      ensures exists chain :: IsChain(s'.tokens, f, chain)
    {
      if f == family {
        assert IsChain(s'.tokens, f, [id]);
      } else {
        var chain :| IsChain(s.tokens, f, chain);
        UntouchedChain(s.tokens, s'.tokens, f, chain);
      }
    }
  }

  /** Only the last token of a chain can be unrevoked. */
  lemma UnrevokedIsLast(tokens: map<TokenId, Token>, family: FamilyId, chain: seq<TokenId>, t: TokenId)
    requires IsChain(tokens, family, chain)
    requires t in tokens && tokens[t].family == family && !tokens[t].IsRevoked()
    ensures chain != [] && t == chain[|chain| - 1]
  {
    assert t in chain;
    var i :| 0 <= i < |chain| && chain[i] == t;
    assert i + 1 < |chain| ==> Linked(tokens, chain, i);
  }

  lemma RotationKeepsChains(c: Settings, s: State, s': State, now: Time, presented: TokenId, id: TokenId)
    requires Inv(c, s) && HasEffect(c, s, s', now, Rotates(presented, id))
    ensures ChainsOnly(s')
  {
    forall f | f in s'.families
      ensures exists chain :: IsChain(s'.tokens, f, chain)
    {
      var chain :| IsChain(s.tokens, f, chain);
      hide IsChain;
      var longer := RotationKeepsChain(c, s, s', now, presented, id, f, chain);
    }
  }

  lemma RotationKeepsChain(c: Settings, s: State, s': State, now: Time, presented: TokenId, id: TokenId, f: FamilyId,
                           chain: seq<TokenId>) returns (longer: seq<TokenId>)
    requires RowsAccountedFor(c, s) && HasEffect(c, s, s', now, Rotates(presented, id))
    requires IsChain(s.tokens, f, chain)
    ensures IsChain(s'.tokens, f, longer)
  {
    ChainListsFamily(s.tokens, f, chain);
    hide IsChain;
    if f == s.tokens[presented].family {
      UnrevokedIsLast(s.tokens, f, chain, presented);
      ExtendChain(s.tokens, s'.tokens, f, chain, id);
      longer := chain + [id];
    } else {
      UntouchedChain(s.tokens, s'.tokens, f, chain);
      longer := chain;
    }
  }

  lemma ChainListsFamily(tokens: map<TokenId, Token>, family: FamilyId, chain: seq<TokenId>)
    requires IsChain(tokens, family, chain)
    ensures forall t :: t in chain <==> t in tokens && tokens[t].family == family
  {
  }

  lemma ExtendChain(tokens: map<TokenId, Token>, tokens': map<TokenId, Token>, family: FamilyId, chain: seq<TokenId>,
                    id: TokenId)
    requires IsChain(tokens, family, chain) && chain != []
    requires id !in tokens && tokens'.Keys == tokens.Keys + {id}
    requires var last := chain[|chain| - 1];
             && last in tokens
             && tokens'[last] == tokens[last].(revokedAt := tokens'[last].revokedAt, replacedBy := Some(id))
             && tokens'[last].IsRevoked()
             && (forall t :: t in tokens && t != last ==> tokens'[t] == tokens[t])
             && tokens'[id].family == family && tokens'[id].replacedBy == None
             && tokens[last].expiresAt <= tokens'[id].expiresAt
    ensures IsChain(tokens', family, chain + [id])
  {
    var longer := chain + [id];
    var last := chain[|chain| - 1];
    assert id !in chain;
    forall i: nat | i + 1 < |longer|
      ensures Linked(tokens', longer, i)
    {
      if i + 1 < |chain| {
        assert Linked(tokens, chain, i);
        assert chain[i] != last;
        assert longer[i] == chain[i] && longer[i + 1] == chain[i + 1];
      } else {
        assert longer[i] == last && longer[i + 1] == id;
      }
    }
    forall t
      ensures t in longer <==> t in tokens' && tokens'[t].family == family
    {
      assert t in longer <==> t in chain || t == id;
      assert t in tokens' <==> t in tokens || t == id;
    }
  }

  lemma {:induction false} ExpiryGrows(tokens: map<TokenId, Token>, family: FamilyId, chain: seq<TokenId>, i: nat,
                                       j: nat)
    requires IsChain(tokens, family, chain) && i <= j < |chain|
    ensures tokens[chain[i]].expiresAt <= tokens[chain[j]].expiresAt
    decreases j - i
  {
    assert chain[i] in chain && chain[j] in chain;
    if i < j {
      ExpiryGrows(tokens, family, chain, i, j - 1);
      assert Linked(tokens, chain, j - 1);
    }
  }

  /** The purge takes a prefix of each chain and leaves the rest as it was, links included. */
  lemma PurgeTakesAPrefix(tokens: map<TokenId, Token>, family: FamilyId, chain: seq<TokenId>, now: Time)
      returns (k: nat)
    requires IsChain(tokens, family, chain)
    ensures k <= |chain|
    ensures forall i :: 0 <= i < |chain| ==> (chain[i] in WithoutExpired(tokens, now) <==> k <= i)
    ensures forall i :: k <= i < |chain| ==> WithoutExpired(tokens, now)[chain[i]] == tokens[chain[i]]
    ensures IsChain(WithoutExpired(tokens, now), family, chain[k..])
  {
    var tokens' := WithoutExpired(tokens, now);
    k := FirstUnexpired(tokens, family, chain, now, 0);
    assert forall t :: t in chain ==> t in tokens;
    forall i | 0 <= i < |chain|
      ensures chain[i] in tokens' <==> k <= i
      ensures k <= i ==> tokens'[chain[i]] == tokens[chain[i]]
    {
      if k <= i {
        ExpiryGrows(tokens, family, chain, k, i);
        if i + 1 < |chain| {
          ExpiryGrows(tokens, family, chain, k, i + 1);
          assert Linked(tokens, chain, i);
        }
      }
    }
    SuffixIsChain(tokens, tokens', family, chain, k);
  }

  lemma SuffixIsChain(tokens: map<TokenId, Token>, tokens': map<TokenId, Token>, family: FamilyId, chain: seq<TokenId>,
                      k: nat)
    requires IsChain(tokens, family, chain) && k <= |chain|
    requires forall t :: t in tokens' ==> t in tokens && tokens'[t].family == tokens[t].family
    requires forall i :: 0 <= i < |chain| ==> (chain[i] in tokens' <==> k <= i)
    requires forall i :: k <= i < |chain| ==> tokens'[chain[i]] == tokens[chain[i]]
    ensures IsChain(tokens', family, chain[k..])
  {
    var rest := chain[k..];
    forall t
      ensures t in rest <==> t in tokens' && tokens'[t].family == family
    {
      if t in rest {
        var i :| 0 <= i < |rest| && rest[i] == t;
        assert chain[k + i] == t;
      }
      if t in tokens' && tokens'[t].family == family {
        assert t in chain;
        var i :| 0 <= i < |chain| && chain[i] == t;
        assert rest[i - k] == t;
      }
    }
    forall i: nat | i + 1 < |rest|
      ensures Linked(tokens', rest, i)
    {
      assert Linked(tokens, chain, k + i);
      assert rest[i] == chain[k + i] && rest[i + 1] == chain[k + i + 1];
    }
    assert rest != [] ==> rest[|rest| - 1] == chain[|chain| - 1];
  }

  lemma {:induction false} FirstUnexpired(tokens: map<TokenId, Token>, family: FamilyId, chain: seq<TokenId>, now: Time,
                                          from: nat) returns (k: nat)
    requires IsChain(tokens, family, chain) && from <= |chain|
    requires forall i :: 0 <= i < from ==> tokens[chain[i]].expiresAt < now
    ensures k <= |chain|
    ensures forall i :: 0 <= i < k ==> tokens[chain[i]].expiresAt < now
    ensures k < |chain| ==> tokens[chain[k]].expiresAt >= now
    decreases |chain| - from
  {
    if from < |chain| && tokens[chain[from]].expiresAt < now {
      k := FirstUnexpired(tokens, family, chain, now, from + 1);
    } else {
      k := from;
    }
  }

  lemma PurgeKeepsChains(c: Settings, s: State, s': State, now: Time)
    requires ChainsOnly(s) && HasEffect(c, s, s', now, Purges)
    ensures ChainsOnly(s')
  {
    forall f | f in s'.families
      ensures exists chain :: IsChain(s'.tokens, f, chain)
    {
      var chain :| IsChain(s.tokens, f, chain);
      var k := PurgeTakesAPrefix(s.tokens, f, chain, now);
    }
  }

  lemma EffectKeepsRows(c: Settings, s: State, s': State, now: Time, effect: Effect)
    requires RowsAccountedFor(c, s) && HasEffect(c, s, s', now, effect)
    ensures RowsAccountedFor(c, s')
  {
  }

  lemma StepKeepsInv(c: Settings, s: State, e: Event, now: Time)
    requires Inv(c, s) && Enabled(s, e, now)
    ensures Inv(c, Step(c, s, e, now))
  {
    hide Step, ChainsOnly, RowsAccountedFor, HasEffect;
    var s' := Step(c, s, e, now);
    var effect := EffectOf(c, s, e, now);
    EffectKeepsRows(c, s, s', now, effect);
    match effect
    case Revokes => RevocationKeepsChains(c, s, s', now);
    case Opens(id, user, family) => NewFamilyKeepsChains(c, s, s', now, id, user, family);
    case Rotates(presented, id) => RotationKeepsChains(c, s, s', now, presented, id);
    case Purges => PurgeKeepsChains(c, s, s', now);
  }

  // ------------------------------------------------------------------ one owner, one live token

  /** A family belongs to one user and holds at most one unrevoked token. */
  lemma FamilyHasOneOwnerAndOneLiveToken(c: Settings, s: State, t: TokenId, u: TokenId)
    requires Inv(c, s)
    requires t in s.tokens && u in s.tokens && s.tokens[t].family == s.tokens[u].family
    ensures s.tokens[t].user == s.tokens[u].user
    ensures !s.tokens[t].IsRevoked() && !s.tokens[u].IsRevoked() ==> t == u
  {
    var family := s.tokens[t].family;
    var chain :| IsChain(s.tokens, family, chain);
    if !s.tokens[t].IsRevoked() && !s.tokens[u].IsRevoked() {
      UnrevokedIsLast(s.tokens, family, chain, t);
      UnrevokedIsLast(s.tokens, family, chain, u);
    }
  }

  /** Following `replacedBy` from any token leads through distinct tokens to the last one, which is
      the only one of its family that can be accepted. */
  lemma OnlyTheLastCanBeAccepted(c: Settings, s: State, t: TokenId, now: Time) returns (chain: seq<TokenId>)
    requires Inv(c, s) && Accepts(s, t, now)
    ensures IsChain(s.tokens, s.tokens[t].family, chain)
    ensures chain != [] && chain[|chain| - 1] == t
    ensures forall x :: x in chain && x != t ==> !Accepts(s, x, now)
  {
    var family := s.tokens[t].family;
    chain :| IsChain(s.tokens, family, chain);
    UnrevokedIsLast(s.tokens, family, chain, t);
    forall x | x in chain && x != t
      ensures !Accepts(s, x, now)
    {
      if Accepts(s, x, now) {
        UnrevokedIsLast(s.tokens, family, chain, x);
      }
    }
  }

  // ------------------------------------------------------------------ spent tokens, dead families

  /** Handed out once, and never to be accepted again. */
  ghost predicate Spent(s: State, t: TokenId) {
    t in s.issued && (t in s.tokens ==> s.tokens[t].IsRevoked())
  }

  /** No live token, and no way to get one. */
  ghost predicate DeadFamily(s: State, family: FamilyId) {
    family in s.families && forall t :: t in s.tokens && s.tokens[t].family == family ==> s.tokens[t].IsRevoked()
  }

  lemma SpentStaysSpent(c: Settings, s: State, e: Event, now: Time, t: TokenId)
    requires RowsAccountedFor(c, s) && Enabled(s, e, now) && Spent(s, t)
    ensures Spent(Step(c, s, e, now), t)
  {
    hide Step;
    var effect := EffectOf(c, s, e, now);
  }

  lemma DeadStaysDead(c: Settings, s: State, e: Event, now: Time, family: FamilyId)
    requires RowsAccountedFor(c, s) && Enabled(s, e, now) && DeadFamily(s, family)
    ensures DeadFamily(Step(c, s, e, now), family)
  {
    hide Step;
    var effect := EffectOf(c, s, e, now);
    DeadAfter(c, s, Step(c, s, e, now), now, effect, family);
  }

  lemma DeadAfter(c: Settings, s: State, s': State, now: Time, effect: Effect, family: FamilyId)
    requires RowsAccountedFor(c, s) && HasEffect(c, s, s', now, effect) && DeadFamily(s, family)
    ensures DeadFamily(s', family)
  {
  }

  // ------------------------------------------------------------------ over whole runs

  lemma {:induction false} RunKeepsInv(c: Settings, states: seq<State>, events: seq<(Event, Time)>, j: nat)
    requires Run(c, states, events) && j < |states|
    ensures Inv(c, states[j])
  {
    if j > 0 {
      RunKeepsInv(c, states, events, j - 1);
      RunStep(c, states, events, j - 1);
      StepKeepsInv(c, states[j - 1], events[j - 1].0, events[j - 1].1);
    }
  }

  lemma RunStep(c: Settings, states: seq<State>, events: seq<(Event, Time)>, i: nat)
    requires Run(c, states, events) && i < |events|
    ensures Enabled(states[i], events[i].0, events[i].1)
    ensures states[i + 1] == Step(c, states[i], events[i].0, events[i].1)
  {
    assert StepAt(c, states, events, i);
  }

  lemma {:induction false} SpentForever(c: Settings, states: seq<State>, events: seq<(Event, Time)>, i: nat, j: nat,
                                        t: TokenId)
    requires Run(c, states, events) && i <= j < |states|
    requires Spent(states[i], t)
    ensures Spent(states[j], t)
    decreases j - i
  {
    hide Step, Enabled;
    if i < j {
      SpentForever(c, states, events, i, j - 1, t);
      RunKeepsInv(c, states, events, j - 1);
      RunStep(c, states, events, j - 1);
      SpentStaysSpent(c, states[j - 1], events[j - 1].0, events[j - 1].1, t);
    }
  }

  lemma {:induction false} DeadForever(c: Settings, states: seq<State>, events: seq<(Event, Time)>, i: nat, j: nat,
                                       family: FamilyId)
    requires Run(c, states, events) && i <= j < |states|
    requires DeadFamily(states[i], family)
    ensures DeadFamily(states[j], family)
    decreases j - i
  {
    hide Step, Enabled;
    if i < j {
      DeadForever(c, states, events, i, j - 1, family);
      RunKeepsInv(c, states, events, j - 1);
      RunStep(c, states, events, j - 1);
      DeadStaysDead(c, states[j - 1], events[j - 1].0, events[j - 1].1, family);
    }
  }

  /** In every reachable state each family's surviving tokens are one chain, whatever was purged. */
  lemma EveryFamilyIsOneChain(c: Settings, states: seq<State>, events: seq<(Event, Time)>, j: nat, t: TokenId)
      returns (chain: seq<TokenId>)
    requires Run(c, states, events) && j < |states|
    requires t in states[j].tokens
    ensures IsChain(states[j].tokens, states[j].tokens[t].family, chain) && t in chain
  {
    RunKeepsInv(c, states, events, j);
    chain :| IsChain(states[j].tokens, states[j].tokens[t].family, chain);
  }

  /** Single use: a token that was rotated is never accepted again. */
  lemma RotatedIsNeverAcceptedAgain(c: Settings, states: seq<State>, events: seq<(Event, Time)>, i: nat, j: nat,
                                    now: Time)
    requires Run(c, states, events) && i < j < |states|
    requires events[i].0.Refresh?
    requires RefreshStep(c, states[i], events[i].0.presented, events[i].0.id, events[i].1).1.Rotated?
    ensures !Accepts(states[j], events[i].0.presented, now)
  {
    RunKeepsInv(c, states, events, i);
    RunStep(c, states, events, i);
    SpentForever(c, states, events, i + 1, j, events[i].0.presented);
  }

  /** After a logout, or a replay of a spent token, nothing of that family is accepted any more:
      neither what existed then nor anything found in the family later. */
  lemma EndedSessionStaysEnded(c: Settings, states: seq<State>, events: seq<(Event, Time)>, i: nat, j: nat,
                               presented: TokenId, t: TokenId, now: Time)
    requires Run(c, states, events) && i < j < |states|
    requires presented in states[i].tokens
    requires || events[i].0 == Logout(presented)
             || (events[i].0.Refresh? && events[i].0.presented == presented && states[i].tokens[presented].IsRevoked())
    requires || (t in states[j].tokens && states[j].tokens[t].family == states[i].tokens[presented].family)
             || (t in states[i].tokens && states[i].tokens[t].family == states[i].tokens[presented].family)
    ensures !Accepts(states[j], t, now)
  {
    var family := states[i].tokens[presented].family;
    RunKeepsInv(c, states, events, i);
    RunStep(c, states, events, i);
    assert DeadFamily(states[i + 1], family);
    DeadForever(c, states, events, i + 1, j, family);
    if t in states[i].tokens && states[i].tokens[t].family == family {
      assert Spent(states[i + 1], t);
      SpentForever(c, states, events, i + 1, j, t);
    }
  }

  /** After a password reset no token issued to that user before it is ever accepted again. */
  lemma ResetEndsEverySession(c: Settings, states: seq<State>, events: seq<(Event, Time)>, i: nat, j: nat,
                              reset: ResetId, newPassword: Password, t: TokenId, now: Time)
    requires Run(c, states, events) && i < j < |states|
    requires events[i].0 == ResetPassword(reset, newPassword)
    requires ResetPasswordStep(c, states[i], reset, newPassword, events[i].1).1.Redeemed?
    requires t in states[i].issued && states[i].issued[t] == states[i].resets[reset].user
    ensures !Accepts(states[j], t, now)
  {
    RunKeepsInv(c, states, events, i);
    RunStep(c, states, events, i);
    assert Spent(states[i + 1], t);
    SpentForever(c, states, events, i + 1, j, t);
  }

  /** Nor can any session that existed before the reset be continued by rotation. */
  lemma ResetEndsEveryFamily(c: Settings, states: seq<State>, events: seq<(Event, Time)>, i: nat, j: nat,
                             reset: ResetId, newPassword: Password, family: FamilyId)
    requires Run(c, states, events) && i < j < |states|
    requires events[i].0 == ResetPassword(reset, newPassword)
    requires ResetPasswordStep(c, states[i], reset, newPassword, events[i].1).1.Redeemed?
    requires family in states[i].families && states[i].families[family] == states[i].resets[reset].user
    ensures DeadFamily(states[j], family)
  {
    RunKeepsInv(c, states, events, i);
    RunStep(c, states, events, i);
    assert DeadFamily(states[i + 1], family);
    DeadForever(c, states, events, i + 1, j, family);
  }

  /** Ending one session leaves every other family, and every account, exactly as it was. */
  lemma EndingOneSessionSparesOthers(c: Settings, s: State, presented: TokenId, id: TokenId, now: Time, t: TokenId)
    requires t in s.tokens && presented in s.tokens && s.tokens[t].family != s.tokens[presented].family
    ensures t in LogoutStep(s, presented, now).tokens && LogoutStep(s, presented, now).tokens[t] == s.tokens[t]
    ensures LogoutStep(s, presented, now).users == s.users
    ensures s.tokens[presented].IsRevoked() ==>
              && t in RefreshStep(c, s, presented, id, now).0.tokens
              && RefreshStep(c, s, presented, id, now).0.tokens[t] == s.tokens[t]
              && RefreshStep(c, s, presented, id, now).0.users == s.users
  {
  }

  /** Presenting a token twice ends the session: the second time is a replay, and the successor the
      first presentation earned dies with the family. */
  lemma DoubleSpendKillsTheFamily(c: Settings, s: State, t: TokenId, id: TokenId, id': TokenId, now: Time, later: Time)
    requires Inv(c, s) && Accepts(s, t, now) && id !in s.issued
    ensures var (s1, first) := RefreshStep(c, s, t, id, now);
            var (s2, second) := RefreshStep(c, s1, t, id', later);
            first == Rotated(id) && second == ReuseDetected && DeadFamily(s2, s.tokens[t].family) && Spent(s2, id)
  {
  }

  // ------------------------------------------------------------------ the purge

  lemma PurgeKeepsAcceptance(s: State, t: TokenId, now: Time, later: Time)
    requires now <= later
    ensures Accepts(PurgeStep(s, now), t, later) <==> Accepts(s, t, later)
  {
  }

  /** Purging is not invisible: `refresh` looks at revocation before expiry, so an expired row that was
      also revoked answers "reuse" before the purge and "unknown" after it. Presented right after the purge,
      every other token gets the same answer; PurgeLaws follows both runs further. */
  lemma PurgeChangesOnlyExpiredReplays(c: Settings, s: State, t: TokenId, id: TokenId, now: Time)
    ensures RefreshStep(c, PurgeStep(s, now), t, id, now).1 == RefreshStep(c, s, t, id, now).1
            <==> !(t in s.tokens && s.tokens[t].expiresAt < now && s.tokens[t].IsRevoked())
  {
  }
}
