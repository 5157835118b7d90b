/** Which password opens an account, and what each call tells its caller. */
module PasswordLaws {
  import opened Common
  import opened SessionModel
  import opened AccountLaws

  /** The hash the account has was made of this password. */
  predicate HasPassword(users: map<UserId, User>, u: UserId, password: Password) {
    u in users && users[u].password.Some? && users[u].password.value.of == password
  }

  // ------------------------------------------------------------------ one call

  /** A redeemed reset gives the owner of the link the new password and no other, hashed with the current
      parameters; nothing else of theirs changes, and nothing of anybody else's. */
  lemma ResetReplacesThePassword(c: Settings, s: State, reset: ResetId, newPassword: Password, now: Time)
    requires ResetPasswordStep(c, s, reset, newPassword, now).1.Redeemed?
    ensures var users := ResetPasswordStep(c, s, reset, newPassword, now).0.users;
            && reset in s.resets && s.resets[reset].user in s.users && users.Keys == s.users.Keys
            && var owner := s.resets[reset].user;
            && (forall p :: HasPassword(users, owner, p) <==> p == newPassword)
            && (forall p :: Verifies(users[owner], p) <==> p == newPassword)
            && users[owner].password.value.parameters == c.hashParameters
            && users[owner].(password := None) == s.users[owner].(password := None)
            && forall u :: u in s.users && u != owner ==> users[u] == s.users[u]
  {
  }

  /** A reset that is not redeemed changes nothing but the time. */
  lemma RefusedResetChangesNothing(c: Settings, s: State, reset: ResetId, newPassword: Password, now: Time)
    requires !ResetPasswordStep(c, s, reset, newPassword, now).1.Redeemed?
    ensures ResetPasswordStep(c, s, reset, newPassword, now).0 == s.(clock := now)
  {
  }

  /** What a login is answered, in the order of the checks: the password comes first, so that only who
      knows it hears of the account's standing. */
  lemma LoginAnswers(c: Settings, s: State, found: Option<UserId>, password: Password, id: TokenId, family: FamilyId,
                     now: Time)
    requires found.Some? ==> found.value in s.users
    ensures var (s', answer) := LoginStep(c, s, found, password, id, family, now);
            var right := found.Some? && HasPassword(s.users, found.value, password);
            && (answer.InvalidCredentials? <==> !right)
            && (answer.LoginInactive? <==> right && !s.users[found.value].active)
            && (answer.EmailNotVerified? <==> right && s.users[found.value].active && !s.users[found.value].verified)
            && (answer == LoggedIn(id) <==> right && s.users[found.value].active && s.users[found.value].verified)
            && (!answer.LoggedIn? ==> s' == s.(clock := now))
  {
    hide Issue;
  }

  /** Google sign-in is refused for an inactive account alone, and then keeps nothing, not even a new link
      or account; a new account has the address and the subject and nothing else. */
  lemma GoogleAnswers(c: Settings, s: State, who: Identity, bySubject: Option<UserId>, byEmail: Option<UserId>,
                      newUser: UserId, id: TokenId, family: FamilyId, now: Time)
    requires FoundFor(s.users, who, bySubject, byEmail) && newUser !in s.users
    ensures var (s', answer) := GoogleStep(c, s, who, bySubject, byEmail, newUser, id, family, now);
            && (answer.LoginInactive? <==>
                || (bySubject.Some? && !s.users[bySubject.value].active)
                || (byEmail.Some? && !s.users[byEmail.value].active))
            && (answer == LoggedIn(id) <==> !answer.LoginInactive?)
            && (answer.LoginInactive? ==> s' == s.(clock := now))
            && (bySubject.None? && byEmail.None? ==>
                newUser in s'.users
                && s'.users[newUser] == User(who.email, Some(who.subject), None, true, who.emailVerified))
  {
    IssuingLeavesAccounts(c);
    hide Issue;
  }

  /** What a refresh is answered: reuse speaks before expiry, expiry before the account. */
  lemma RefreshAnswers(c: Settings, s: State, t: TokenId, id: TokenId, now: Time)
    ensures var (s', answer) := RefreshStep(c, s, t, id, now);
            && (answer.ReuseDetected? <==> t in s.tokens && s.tokens[t].revokedAt.Some?)
            && (answer.InactiveAccount? <==>
                && t in s.tokens && s.tokens[t].revokedAt.None? && now < s.tokens[t].expiresAt
                && s.tokens[t].user in s.users && !s.users[s.tokens[t].user].active)
            && (answer == Rotated(id) <==>
                && t in s.tokens && s.tokens[t].revokedAt.None? && now < s.tokens[t].expiresAt
                && s.tokens[t].user in s.users && s.users[s.tokens[t].user].active)
            && (answer.InvalidRefreshToken? || answer.InactiveAccount? ==> s' == s.(clock := now))
  {
    hide Issue, RevokeFamily;
  }

  /** Rotation spends the token at the time of the call and hands out a fresh one of the same session,
      which lives for a whole lifetime. */
  lemma RotationReads(c: Settings, s: State, t: TokenId, id: TokenId, now: Time)
    requires RefreshStep(c, s, t, id, now).1 == Rotated(id) && id !in s.tokens
    ensures var s' := RefreshStep(c, s, t, id, now).0;
            && s'.tokens.Keys == s.tokens.Keys + {id} && s'.users == s.users
            && s'.tokens[id] == Token(s.tokens[t].user, s.tokens[t].family, now + c.refreshLifetime, None, None)
            && s'.tokens[t] == s.tokens[t].(revokedAt := Some(now), replacedBy := Some(id))
            && forall x :: x in s.tokens && x != t ==> s'.tokens[x] == s.tokens[x]
  {
  }

  /** A session opens with one token that lives for a whole lifetime. */
  lemma OpeningReads(c: Settings, s: State, user: UserId, family: FamilyId, id: TokenId, now: Time)
    requires id !in s.tokens
    ensures var s' := Issue(c, s, user, family, None, id, now);
            && s'.tokens == s.tokens[id := Token(user, family, now + c.refreshLifetime, None, None)]
            && s'.users == s.users && s'.resets == s.resets && s'.links == s.links && s'.clock == s.clock
  {
  }

  /** Revoking a session or a user's sessions stamps exactly the rows that are still live. */
  lemma RevocationReads(tokens: map<TokenId, Token>, family: FamilyId, user: UserId, now: Time)
    ensures RevokeFamily(tokens, family, now).Keys == tokens.Keys == RevokeAllForUser(tokens, user, now).Keys
    ensures forall t :: t in tokens ==>
              RevokeFamily(tokens, family, now)[t]
              == if tokens[t].family == family && tokens[t].revokedAt == None
                 then Token(tokens[t].user, family, tokens[t].expiresAt, Some(now), tokens[t].replacedBy)
                 else tokens[t]
    ensures forall t :: t in tokens ==>
              RevokeAllForUser(tokens, user, now)[t]
              == if tokens[t].user == user && tokens[t].revokedAt == None
                 then Token(user, tokens[t].family, tokens[t].expiresAt, Some(now), tokens[t].replacedBy)
                 else tokens[t]
  {
  }

  /** The purge takes exactly the rows past their expiry, and cuts the links to them. */
  lemma PurgeReads(s: State, now: Time)
    ensures var s' := PurgeStep(s, now);
            && s' == s.(clock := now, tokens := s'.tokens)
            && (forall t :: t in s'.tokens <==> t in s.tokens && now <= s.tokens[t].expiresAt)
            && forall t :: t in s'.tokens ==>
                var next := s.tokens[t].replacedBy;
                s'.tokens[t] == s.tokens[t].(replacedBy := if next.Some? && next.value in s.tokens
                                                              && s.tokens[next.value].expiresAt < now
                                                           then None else next)
  {
  }

  // ------------------------------------------------------------------ links

  /** Unknown, used up, past its time, or good, in that order. */
  lemma LinkAnswers(links: map<nat, MailedLink>, link: nat, now: Time)
    ensures Redeem(links, link, now).UnknownLink? <==> link !in links
    ensures Redeem(links, link, now).AlreadyUsed? <==> link in links && links[link].usedAt.Some?
    ensures Redeem(links, link, now).LinkExpired? <==>
              link in links && links[link].usedAt.None? && links[link].expiresAt <= now
    ensures Redeem(links, link, now).Redeemed? <==>
              link in links && links[link].usedAt.None? && now < links[link].expiresAt
  {
  }

  /** A new link of `user` is good for a lifetime, all their earlier ones are used up, and everybody else's
      stand. */
  ghost predicate Replaces(links: map<nat, MailedLink>, links': map<nat, MailedLink>, user: UserId, link: nat,
                           now: Time, lifetime: int) {
    && links'.Keys == links.Keys + {link}
    && links'[link].user == user
    && (forall t :: Redeem(links', link, t).Redeemed? <==> t < now + lifetime)
    && (forall l :: l in links && l != link && links[l].user == user ==> links'[l].usedAt.Some?)
    && (forall l :: l in links && l != link && (links[l].user != user || links[l].usedAt.Some?) ==>
        links'[l] == links[l])
  }

  /** Who asks for a reset gets a link if there is an account with a password, and nothing otherwise. */
  lemma AskingForAReset(c: Settings, s: State, found: Option<UserId>, reset: ResetId, now: Time)
    requires (found.Some? ==> found.value in s.users) && reset !in s.resets
    ensures var s' := RequestResetStep(c, s, found, reset, now);
            if found.Some? && s.users[found.value].password.Some?
            then Replaces(s.resets, s'.resets, found.value, reset, now, c.resetLifetime)
                 && s' == s.(clock := now, resets := s'.resets)
            else s' == s.(clock := now)
  {
  }

  /** Who asks for another verification link gets one while the account is not verified. */
  lemma AskingForAnotherLink(c: Settings, s: State, found: Option<UserId>, link: LinkId, now: Time)
    requires (found.Some? ==> found.value in s.users) && link !in s.links
    ensures var s' := ResendStep(c, s, found, link, now);
            if found.Some? && !s.users[found.value].verified
            then Replaces(s.links, s'.links, found.value, link, now, c.linkLifetime)
                 && s' == s.(clock := now, links := s'.links)
            else s' == s.(clock := now)
  {
  }

  /** A registration opens an account that only its password can ever enter, and only once it is verified,
      with a link that is good for a lifetime; a taken address changes nothing. */
  lemma Registering(c: Settings, s: State, email: Email, found: Option<UserId>, password: Password, newUser: UserId,
                    link: LinkId, now: Time)
    requires newUser !in s.users && link !in s.links
    ensures var (s', accepted) := RegisterStep(c, s, email, found, password, newUser, link, now);
            && (accepted <==> found.None?)
            && (!accepted ==> s' == s.(clock := now))
            && (accepted ==>
                && s' == s.(clock := now, users := s'.users, links := s'.links)
                && s'.users.Keys == s.users.Keys + {newUser} && s'.links.Keys == s.links.Keys + {link}
                && (forall u :: u in s.users ==> s'.users[u] == s.users[u])
                && (forall l :: l in s.links ==> s'.links[l] == s.links[l])
                && s'.users[newUser].email == email && s'.users[newUser].googleSub.None?
                && s'.users[newUser].active && !s'.users[newUser].verified
                && (forall p :: HasPassword(s'.users, newUser, p) <==> p == password)
                && s'.links[link].user == newUser
                && (forall t :: Redeem(s'.links, link, t).Redeemed? <==> t < now + c.linkLifetime))
  {
  }

  /** Deactivating, re-activating and marking change one column of one account. */
  lemma OperatorsChangeOneColumn(s: State, user: UserId, active: bool, now: Time)
    requires user in s.users
    ensures SetActiveStep(s, user, active, now)
            == s.(clock := now, users := s.users[user := s.users[user].(active := active)])
    ensures MarkVerifiedStep(s, user, now)
            == s.(clock := now, users := s.users[user := s.users[user].(verified := true)])
  {
  }

  // ------------------------------------------------------------------ whole runs

  /** The password that the event gives account `u`, if it does. */
  ghost function PasswordSet(s: State, e: Event, now: Time, u: UserId): Option<Password> {
    match e
    case Register(_, found, password, newUser, _) => if found.None? && newUser == u then Some(password) else None
    case ResetPassword(reset, newPassword) =>
      if && reset in s.resets && s.resets[reset].user == u && u in s.users
         && s.resets[reset].usedAt.None? && now < s.resets[reset].expiresAt
      then Some(newPassword) else None
    case _ => None
  }

  /** The last one it was given between `i` and `j`. */
  ghost function LastPassword(states: seq<State>, events: seq<(Event, Time)>, i: nat, j: nat, u: UserId)
      : Option<Password>
    requires j <= |events| < |states|
    decreases j
  {
    if j <= i then None
    else
      var last := PasswordSet(states[j - 1], events[j - 1].0, events[j - 1].1, u);
      if last.Some? then last else LastPassword(states, events, i, j - 1, u)
  }

  lemma PasswordFollows(c: Settings, s: State, e: Event, now: Time, u: UserId, p: Password)
    requires Enabled(s, e, now)
    ensures HasPassword(Step(c, s, e, now).users, u, p)
            <==> match PasswordSet(s, e, now, u) case Some(q) => p == q case None => HasPassword(s.users, u, p)
  {
    match e
    case Login(email, found, password, id, family) => LoginKeepsHas(c, s, found, password, id, family, now, u, p);
    case Google(who, bySubject, byEmail, newUser, id, family) =>
      GoogleKeepsHas(c, s, who, bySubject, byEmail, newUser, id, family, now, u, p);
    case Refresh(presented, id) => RefreshKeepsHas(c, s, presented, id, now);
    case Register(_, _, _, _, _) => hide FoundByEmail;
    case ResetPassword(reset, newPassword) => ResetSets(c, s, reset, newPassword, now, u, p);
    case VerifyEmail(_) =>
    case _ => hide RevokeFamily, WithoutExpired, InvalidateLinks, FoundByEmail, FoundFor;
  }

  lemma RefreshKeepsHas(c: Settings, s: State, presented: TokenId, id: TokenId, now: Time)
    ensures RefreshStep(c, s, presented, id, now).0.users == s.users
  {
    IssuingLeavesAccounts(c);
    hide Issue, RevokeFamily;
  }

  lemma ResetSets(c: Settings, s: State, reset: ResetId, newPassword: Password, now: Time, u: UserId, p: Password)
    ensures HasPassword(ResetPasswordStep(c, s, reset, newPassword, now).0.users, u, p)
            <==> match PasswordSet(s, ResetPassword(reset, newPassword), now, u)
                 case Some(q) => p == q
                 case None => HasPassword(s.users, u, p)
  {
    hide RevokeAllForUser;
  }

  lemma LoginKeepsHas(c: Settings, s: State, found: Option<UserId>, password: Password, id: TokenId, family: FamilyId,
                      now: Time, u: UserId, p: Password)
    ensures HasPassword(LoginStep(c, s, found, password, id, family, now).0.users, u, p) <==> HasPassword(s.users, u, p)
  {
    IssuingLeavesAccounts(c);
    hide Issue;
  }

  lemma GoogleKeepsHas(c: Settings, s: State, who: Identity, bySubject: Option<UserId>, byEmail: Option<UserId>,
                       newUser: UserId, id: TokenId, family: FamilyId, now: Time, u: UserId, p: Password)
    requires newUser !in s.users
    ensures HasPassword(GoogleStep(c, s, who, bySubject, byEmail, newUser, id, family, now).0.users, u, p)
            <==> HasPassword(s.users, u, p)
  {
    AccountForKeepsPassword(s.users, who, bySubject, byEmail, newUser);
    IssuingLeavesAccounts(c);
    hide AccountFor, Issue;
  }

  lemma AccountForKeepsPassword(users: map<UserId, User>, who: Identity, bySubject: Option<UserId>,
                                byEmail: Option<UserId>, newUser: UserId)
    requires newUser !in users
    ensures var (user, account) := AccountFor(users, who, bySubject, byEmail, newUser);
            account.password == if user in users then users[user].password else None
  {
  }

  /** Over every run: an account has the password of its last registration or redeemed reset, and if there
      was none the one it had at the start. */
  lemma {:induction false} PasswordIsTheLastOneSet(c: Settings, states: seq<State>, events: seq<(Event, Time)>, i: nat,
                                                   j: nat, u: UserId, p: Password)
    requires Run(c, states, events) && i <= j < |states|
    ensures HasPassword(states[j].users, u, p)
            <==> match LastPassword(states, events, i, j, u)
                 case Some(q) => p == q
                 case None => HasPassword(states[i].users, u, p)
    decreases j - i
  {
    hide Step, Enabled, HasPassword, PasswordSet;
    if i < j {
      PasswordIsTheLastOneSet(c, states, events, i, j - 1, u, p);
      assert StepAt(c, states, events, j - 1);
      PasswordFollows(c, states[j - 1], events[j - 1].0, events[j - 1].1, u, p);
    }
  }

  /** So a redeemed reset shuts out every earlier password until the next reset, at every later login. */
  lemma EarlierPasswordsAreShutOut(c: Settings, states: seq<State>, events: seq<(Event, Time)>, i: nat, j: nat,
                                   u: UserId, p: Password, id: TokenId, family: FamilyId, now: Time)
    requires Run(c, states, events) && i < j < |states| && u in states[j].users
    requires PasswordSet(states[i], events[i].0, events[i].1, u).Some?
    requires forall k :: i < k < j ==> PasswordSet(states[k], events[k].0, events[k].1, u).None?
    ensures LoginStep(c, states[j], Some(u), p, id, family, now).1.InvalidCredentials?
            <==> Some(p) != PasswordSet(states[i], events[i].0, events[i].1, u)
  {
    PasswordIsTheLastOneSet(c, states, events, i, j, u, p);
    OnlyTheFirstSets(states, events, i, j, u);
    LoginAnswers(c, states[j], Some(u), p, id, family, now);
    hide LoginStep, PasswordSet;
  }

  lemma {:induction false} OnlyTheFirstSets(states: seq<State>, events: seq<(Event, Time)>, i: nat, j: nat, u: UserId)
    requires i < j <= |events| < |states|
    requires PasswordSet(states[i], events[i].0, events[i].1, u).Some?
    requires forall k :: i < k < j ==> PasswordSet(states[k], events[k].0, events[k].1, u).None?
    ensures LastPassword(states, events, i, j, u) == PasswordSet(states[i], events[i].0, events[i].1, u)
    decreases j
  {
    hide PasswordSet;
    if j > i + 1 {
      OnlyTheFirstSets(states, events, i, j - 1, u);
    }
  }
}
