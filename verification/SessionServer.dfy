/** `AuthService` and the refresh-token table it updates in place, against the steps of SessionModel. */
module SessionServer {
  import opened Common
  import opened SessionModel
  import opened SessionLaws
  import opened AccountLaws
  import opened MailedLinks

  /** What every service call keeps: one owner and one chain for each family, one account for each address
      and Google subject, and one live link of each kind for each account. */
  ghost predicate ValidState(c: Settings, s: State) {
    Inv(c, s) && UniqueAccounts(s.users) && LinksInOrder(s)
  }

  /** Whatever step of the protocol a method carries out. */
  lemma StepStaysValid(c: Settings, s: State, e: Event, now: Time)
    requires ValidState(c, s) && Enabled(s, e, now)
    ensures ValidState(c, Step(c, s, e, now))
  {
    StepKeepsInv(c, s, e, now);
    StepKeepsAccountsUnique(c, s, e, now);
    StepKeepsLinks(c, s, e, now);
    hide Step, Enabled, Inv, UniqueAccounts, LinksInOrder;
  }

  lemma RefreshStaysValid(c: Settings, s: State, presented: TokenId, id: TokenId, now: Time)
    requires ValidState(c, s) && s.clock <= now && id !in s.issued
    ensures ValidState(c, RefreshStep(c, s, presented, id, now).0)
  {
    hide ValidState, RefreshStep;
    StepStaysValid(c, s, Refresh(presented, id), now);
  }

  lemma LogoutStaysValid(c: Settings, s: State, presented: TokenId, now: Time)
    requires ValidState(c, s) && s.clock <= now
    ensures ValidState(c, LogoutStep(s, presented, now))
  {
    hide ValidState, LogoutStep;
    StepStaysValid(c, s, Logout(presented), now);
  }

  lemma LoginStaysValid(c: Settings, s: State, email: Email, found: Option<UserId>, password: Password, id: TokenId,
                        family: FamilyId, now: Time)
    requires ValidState(c, s) && s.clock <= now && id !in s.issued && family !in s.families
    requires FoundByEmail(s.users, email, found)
    ensures ValidState(c, LoginStep(c, s, found, password, id, family, now).0)
  {
    hide ValidState, LoginStep;
    StepStaysValid(c, s, Login(email, found, password, id, family), now);
  }

  lemma GoogleStaysValid(c: Settings, s: State, who: Identity, bySubject: Option<UserId>, byEmail: Option<UserId>,
                         newUser: UserId, id: TokenId, family: FamilyId, now: Time)
    requires ValidState(c, s) && Enabled(s, Google(who, bySubject, byEmail, newUser, id, family), now)
    ensures ValidState(c, GoogleStep(c, s, who, bySubject, byEmail, newUser, id, family, now).0)
  {
    hide ValidState, GoogleStep;
    StepStaysValid(c, s, Google(who, bySubject, byEmail, newUser, id, family), now);
  }

  lemma RequestStaysValid(c: Settings, s: State, email: Email, found: Option<UserId>, reset: ResetId, now: Time)
    requires ValidState(c, s) && s.clock <= now && reset !in s.resets && FoundByEmail(s.users, email, found)
    ensures ValidState(c, RequestResetStep(c, s, found, reset, now))
  {
    hide ValidState, RequestResetStep;
    StepStaysValid(c, s, RequestReset(email, found, reset), now);
  }

  lemma RedeemStaysValid(c: Settings, s: State, reset: ResetId, newPassword: Password, now: Time)
    requires ValidState(c, s) && s.clock <= now
    ensures ValidState(c, ResetPasswordStep(c, s, reset, newPassword, now).0)
  {
    hide ValidState, ResetPasswordStep;
    StepStaysValid(c, s, ResetPassword(reset, newPassword), now);
  }

  lemma PurgeStaysValid(c: Settings, s: State, now: Time)
    requires ValidState(c, s) && s.clock <= now
    ensures ValidState(c, PurgeStep(s, now))
  {
    hide ValidState, PurgeStep;
    StepStaysValid(c, s, Purge, now);
  }

  lemma RegisterStaysValid(c: Settings, s: State, email: Email, found: Option<UserId>, password: Password,
                           newUser: UserId, link: LinkId, now: Time)
    requires ValidState(c, s) && s.clock <= now && newUser !in s.users && link !in s.links
    requires FoundByEmail(s.users, email, found)
    ensures ValidState(c, RegisterStep(c, s, email, found, password, newUser, link, now).0)
  {
    hide ValidState, RegisterStep;
    StepStaysValid(c, s, Register(email, found, password, newUser, link), now);
  }

  lemma ResendStaysValid(c: Settings, s: State, email: Email, found: Option<UserId>, link: LinkId, now: Time)
    requires ValidState(c, s) && s.clock <= now && link !in s.links && FoundByEmail(s.users, email, found)
    ensures ValidState(c, ResendStep(c, s, found, link, now))
  {
    hide ValidState, ResendStep;
    StepStaysValid(c, s, Resend(email, found, link), now);
  }

  lemma VerifyStaysValid(c: Settings, s: State, link: LinkId, now: Time)
    requires ValidState(c, s) && s.clock <= now
    ensures ValidState(c, VerifyEmailStep(s, link, now).0)
  {
    hide ValidState, VerifyEmailStep;
    StepStaysValid(c, s, VerifyEmail(link), now);
  }

  lemma MarkStaysValid(c: Settings, s: State, user: UserId, now: Time)
    requires ValidState(c, s) && s.clock <= now
    ensures ValidState(c, MarkVerifiedStep(s, user, now))
  {
    hide ValidState, MarkVerifiedStep;
    StepStaysValid(c, s, MarkVerified(user), now);
  }

  /** Why a link that is not usable was refused. */
  function LinkError(links: map<nat, MailedLink>, link: nat): (r: LinkOutcome)
    ensures forall now :: link !in links || !links[link].IsUsable(now) ==> r == Redeem(links, link, now)
  {
    if link !in links then UnknownLink
    else if links[link].usedAt.Some? then AlreadyUsed
    else LinkExpired
  }

  class AuthService {
    const settings: Settings
    var users: map<UserId, User>
    var tokens: map<TokenId, Token>
    var resets: map<ResetId, MailedLink>
    var links: map<LinkId, MailedLink>
    ghost var clock: Time
    ghost var issued: map<TokenId, UserId>
    ghost var families: map<FamilyId, UserId>

    constructor (settings: Settings, users: map<UserId, User>)
      requires UniqueAccounts(users)
      ensures this.settings == settings && this.users == users && tokens == map[]
      ensures resets == map[] && links == map[]
      ensures Initial(Snapshot()) && Valid()
    {
      this.settings := settings;
      this.users := users;
      tokens, resets, links := map[], map[], map[];
      clock, issued, families := 0, map[], map[];
    }

    ghost function Snapshot(): State
      reads this
    {
      State(clock, users, tokens, resets, links, issued, families)
    }

    ghost predicate Valid()
      reads this
    {
      ValidState(settings, Snapshot())
    }

    // ---------------------------------------------------------------- repository

    method FindBySubject(subject: Subject) returns (found: Option<UserId>)
      ensures FoundBySubject(users, subject, found)
    {
      if u :| u in users && users[u].googleSub == Some(subject) {
        return Some(u);
      }
      return None;
    }

    method FindByEmail(email: Email) returns (found: Option<UserId>)
      ensures FoundByEmail(users, email, found)
    {
      if u :| u in users && users[u].email == email {
        return Some(u);
      }
      return None;
    }

    method RevokeFamilyRows(family: FamilyId, revokedAt: Time)
      modifies this`tokens
      ensures tokens == RevokeFamily(old(tokens), family, revokedAt)
    {
      tokens := map t | t in tokens ::
        if tokens[t].family == family && tokens[t].revokedAt.None? then tokens[t].(revokedAt := Some(revokedAt))
          else tokens[t];
    }

    method RevokeAllRowsOfUser(user: UserId, revokedAt: Time)
      modifies this`tokens
      ensures tokens == RevokeAllForUser(old(tokens), user, revokedAt)
    {
      tokens := map t | t in tokens ::
        if tokens[t].user == user && tokens[t].revokedAt.None? then tokens[t].(revokedAt := Some(revokedAt))
          else tokens[t];
    }

    /** The UPDATE statement that both tables of links have. */
    method InvalidateActive(rows: map<nat, MailedLink>, user: UserId, usedAt: Time)
        returns (updated: map<nat, MailedLink>)
      ensures updated == InvalidateLinks(rows, user, usedAt)
    {
      updated := map r | r in rows ::
        if rows[r].user == user && rows[r].usedAt.None? then rows[r].(usedAt := Some(usedAt)) else rows[r];
    }

    // ---------------------------------------------------------------- service

    method IssueTokens(user: UserId, family: FamilyId, previous: Option<TokenId>, id: TokenId, now: Time)
      requires id !in tokens && (previous.Some? ==> previous.value in tokens)
      modifies this`tokens, this`issued, this`families
      ensures Snapshot() == Issue(settings, old(Snapshot()), user, family, previous, id, now)
    {
      tokens := tokens[id := Token(user, family, now + settings.refreshLifetime, None, None)];
      issued := issued[id := user];
      families := families[family := user];
      if previous.Some? {
        tokens := tokens[previous.value := tokens[previous.value].(replacedBy := Some(id))];
      }
    }

    method Refresh(presented: TokenId, id: TokenId, now: Time) returns (outcome: RefreshOutcome)
      requires Valid() && clock <= now && id !in issued
      modifies this
      ensures Valid()
      ensures (Snapshot(), outcome) == RefreshStep(settings, old(Snapshot()), presented, id, now)
    {
      assert id !in tokens;
      hide ValidState;
      ghost var before := Snapshot();
      clock := now;
      if presented !in tokens {
        outcome := InvalidRefreshToken;
      } else {
        outcome := RefreshStored(presented, id, now);
      }
      assert (Snapshot(), outcome) == RefreshStep(settings, before, presented, id, now);
      RefreshStaysValid(settings, before, presented, id, now);
    }

    /** `refresh` from the stored row on. */
    method RefreshStored(presented: TokenId, id: TokenId, now: Time) returns (outcome: RefreshOutcome)
      requires presented in tokens && id !in tokens && clock == now
      modifies this`tokens, this`issued, this`families
      ensures (Snapshot(), outcome) == RefreshStep(settings, old(Snapshot()), presented, id, now)
    {
      var stored := tokens[presented];
      if stored.IsRevoked() {
        RevokeFamilyRows(stored.family, now);
        return ReuseDetected;
      }
      if stored.IsExpired(now) {
        return InvalidRefreshToken;
      }
      if stored.user !in users {
        return InvalidRefreshToken;
      }
      if !users[stored.user].active {
        return InactiveAccount;
      }
      tokens := tokens[presented := stored.(revokedAt := Some(now))];
      IssueTokens(stored.user, stored.family, Some(presented), id, now);
      return Rotated(id);
    }

    method Logout(presented: TokenId, now: Time)
      requires Valid() && clock <= now
      modifies this
      ensures Valid()
      ensures Snapshot() == LogoutStep(old(Snapshot()), presented, now)
    {
      hide ValidState;
      ghost var before := Snapshot();
      clock := now;
      if presented in tokens {
        RevokeFamilyRows(tokens[presented].family, now);
      }
      assert Snapshot() == LogoutStep(before, presented, now);
      LogoutStaysValid(settings, before, presented, now);
    }

    method Login(email: Email, password: Password, id: TokenId, family: FamilyId, now: Time)
        returns (outcome: LoginOutcome)
      requires Valid() && clock <= now && id !in issued && family !in families
      modifies this
      ensures Valid()
      ensures forall found :: FoundByEmail(old(users), email, found) ==>
                (Snapshot(), outcome) == LoginStep(settings, old(Snapshot()), found, password, id, family, now)
    {
      ghost var before := Snapshot();
      var found := FindByEmail(email);
      QueriesHaveOneAnswer(users);
      assert id !in tokens;
      hide ValidState;
      clock := now;
      outcome := LogIn(found, password, id, family, now);
      LoginStaysValid(settings, before, email, found, password, id, family, now);
      hide FoundByEmail, LoginStep;
    }

    /** `login` once the query for the address has answered. */
    method LogIn(found: Option<UserId>, password: Password, id: TokenId, family: FamilyId, now: Time)
        returns (outcome: LoginOutcome)
      requires id !in tokens && clock == now && (found.Some? ==> found.value in users)
      modifies this`users, this`tokens, this`issued, this`families
      ensures (Snapshot(), outcome) == LoginStep(settings, old(Snapshot()), found, password, id, family, now)
    {
      if found.None? || users[found.value].password.None? {
        return InvalidCredentials;
      }
      var user := found.value;
      if users[user].password.value.of != password {
        return InvalidCredentials;
      }
      if !users[user].active {
        return LoginInactive;
      }
      if !users[user].verified {
        return EmailNotVerified;
      }
      if users[user].password.value.parameters != settings.hashParameters {
        users := users[user := users[user].(password := Some(Hash(settings, password)))];
      }
      IssueTokens(user, family, None, id, now);
      return LoggedIn(id);
    }

    method AuthenticateWithGoogle(who: Identity, newUser: UserId, id: TokenId, family: FamilyId, now: Time)
        returns (outcome: LoginOutcome)
      requires Valid() && clock <= now && id !in issued && family !in families && newUser !in users
      modifies this
      ensures Valid()
      ensures forall bySubject, byEmail :: FoundFor(old(users), who, bySubject, byEmail) ==>
                (Snapshot(), outcome)
                == GoogleStep(settings, old(Snapshot()), who, bySubject, byEmail, newUser, id, family, now)
    {
      hide LinksInOrder, ChainsOnly;
      ghost var before := Snapshot();
      var bySubject := FindBySubject(who.subject);
      var byEmail := None;
      if bySubject.None? {
        byEmail := FindByEmail(who.email);
      }
      QueriesHaveOneAnswer(users);
      assert id !in tokens;
      hide ValidState, FoundBySubject, FoundByEmail, GoogleStep;
      clock := now;
      outcome := SignIn(who, bySubject, byEmail, newUser, id, family, now);
      GoogleStaysValid(settings, before, who, bySubject, byEmail, newUser, id, family, now);
    }

    /** `authenticate_with_google` once the queries have answered. */
    method SignIn(who: Identity, bySubject: Option<UserId>, byEmail: Option<UserId>, newUser: UserId, id: TokenId,
                  family: FamilyId, now: Time) returns (outcome: LoginOutcome)
      requires id !in tokens && clock == now
      requires FoundFor(users, who, bySubject, byEmail)
      modifies this`users, this`tokens, this`issued, this`families
      ensures (Snapshot(), outcome)
              == GoogleStep(settings, old(Snapshot()), who, bySubject, byEmail, newUser, id, family, now)
    {
      var user, account := newUser, User(who.email, Some(who.subject), None, true, false);
      if bySubject.Some? {
        user, account := bySubject.value, users[bySubject.value];
      } else if byEmail.Some? {
        user, account := byEmail.value, users[byEmail.value].(googleSub := Some(who.subject));
      }
      if who.emailVerified && !account.verified {
        account := account.(verified := true);
      }
      if !account.active {
        return LoginInactive;
      }
      users := users[user := account];
      IssueTokens(user, family, None, id, now);
      return LoggedIn(id);
    }

    method RequestPasswordReset(email: Email, reset: ResetId, now: Time)
      requires Valid() && clock <= now && reset !in resets
      modifies this
      ensures Valid()
      ensures forall found :: FoundByEmail(old(users), email, found) ==>
                Snapshot() == RequestResetStep(settings, old(Snapshot()), found, reset, now)
    {
      hide LinksInOrder, Inv;
      ghost var before := Snapshot();
      var found := FindByEmail(email);
      QueriesHaveOneAnswer(users);
      hide ValidState;
      clock := now;
      if found.Some? && users[found.value].password.Some? {
        var user := found.value;
        resets := InvalidateActive(resets, user, now);
        resets := resets[reset := MailedLink(user, now + settings.resetLifetime, None)];
      }
      hide InvalidateLinks, FoundByEmail;
      assert Snapshot() == RequestResetStep(settings, before, found, reset, now);
      RequestStaysValid(settings, before, email, found, reset, now);
      hide RequestResetStep;
    }

    method RedeemPasswordReset(reset: ResetId, newPassword: Password, now: Time) returns (outcome: LinkOutcome)
      requires Valid() && clock <= now
      modifies this
      ensures Valid()
      ensures (Snapshot(), outcome) == ResetPasswordStep(settings, old(Snapshot()), reset, newPassword, now)
    {
      hide ValidState;
      RedeemStaysValid(settings, Snapshot(), reset, newPassword, now);
      clock := now;
      if reset !in resets || !resets[reset].IsUsable(now) {
        return LinkError(resets, reset);
      }
      var user := resets[reset].user;
      if user !in users {
        return UnknownLink;
      }
      resets := resets[reset := resets[reset].(usedAt := Some(now))];
      users := users[user := users[user].(password := Some(Hash(settings, newPassword)))];
      RevokeAllRowsOfUser(user, now);
      return Redeemed;
    }

    // ---------------------------------------------------------------- registration and verification

    method Register(email: Email, password: Password, newUser: UserId, link: LinkId, now: Time)
        returns (accepted: bool)
      requires Valid() && clock <= now && newUser !in users && link !in links
      modifies this
      ensures Valid()
      ensures forall found :: FoundByEmail(old(users), email, found) ==>
                (Snapshot(), accepted)
                == RegisterStep(settings, old(Snapshot()), email, found, password, newUser, link, now)
    {
      hide LinksInOrder, Inv;
      ghost var before := Snapshot();
      var found := FindByEmail(email);
      QueriesHaveOneAnswer(users);
      hide ValidState;
      clock := now;
      accepted := found.None?;
      if accepted {
        users := users[newUser := User(email, None, Some(Hash(settings, password)), true, false)];
        links := links[link := MailedLink(newUser, now + settings.linkLifetime, None)];
      }
      assert (Snapshot(), accepted) == RegisterStep(settings, before, email, found, password, newUser, link, now);
      RegisterStaysValid(settings, before, email, found, password, newUser, link, now);
      hide FoundByEmail, RegisterStep;
    }

    method VerifyEmail(link: LinkId, now: Time) returns (outcome: LinkOutcome)
      requires Valid() && clock <= now
      modifies this
      ensures Valid()
      ensures (Snapshot(), outcome) == VerifyEmailStep(old(Snapshot()), link, now)
    {
      hide ValidState;
      VerifyStaysValid(settings, Snapshot(), link, now);
      clock := now;
      if link !in links || !links[link].IsUsable(now) {
        return LinkError(links, link);
      }
      var user := links[link].user;
      if user !in users {
        return UnknownLink;
      }
      links := links[link := links[link].(usedAt := Some(now))];
      assert users[user].verified ==> users == users[user := users[user].(verified := true)];
      if !users[user].verified {
        users := users[user := users[user].(verified := true)];
      }
      return Redeemed;
    }

    method ResendVerification(email: Email, link: LinkId, now: Time)
      requires Valid() && clock <= now && link !in links
      modifies this
      ensures Valid()
      ensures forall found :: FoundByEmail(old(users), email, found) ==>
                Snapshot() == ResendStep(settings, old(Snapshot()), found, link, now)
    {
      hide LinksInOrder, Inv;
      ghost var before := Snapshot();
      var found := FindByEmail(email);
      QueriesHaveOneAnswer(users);
      hide ValidState;
      clock := now;
      if found.Some? && !users[found.value].verified {
        var user := found.value;
        links := InvalidateActive(links, user, now);
        links := links[link := MailedLink(user, now + settings.linkLifetime, None)];
      }
      hide InvalidateLinks, FoundByEmail;
      assert Snapshot() == ResendStep(settings, before, found, link, now);
      ResendStaysValid(settings, before, email, found, link, now);
      hide ResendStep;
    }

    // ---------------------------------------------------------------- administration

    /** The administration's own call on the same table; the flag says whether there is such a user. */
    method MarkVerified(user: UserId, now: Time) returns (known: bool)
      requires Valid() && clock <= now
      modifies this
      ensures Valid() && known == (user in old(users))
      ensures Snapshot() == MarkVerifiedStep(old(Snapshot()), user, now)
    {
      hide ValidState;
      MarkStaysValid(settings, Snapshot(), user, now);
      clock := now;
      known := user in users;
      assert known && users[user].verified ==> users == users[user := users[user].(verified := true)];
      if known && !users[user].verified {
        users := users[user := users[user].(verified := true)];
      }
    }

    // ---------------------------------------------------------------- maintenance

    method PurgeExpiredRefreshTokens(now: Time) returns (purged: int)
      requires Valid() && clock <= now
      modifies this
      ensures Valid()
      ensures Snapshot() == PurgeStep(old(Snapshot()), now)
      ensures purged == |set t | t in old(tokens) && old(tokens)[t].expiresAt < now|
    {
      hide ValidState;
      ghost var before := Snapshot();
      clock := now;
      purged := DeleteExpired(now);
      PurgeStaysValid(settings, before, now);
    }

    /** The DELETE statement. */
    method DeleteExpired(now: Time) returns (rows: int)
      modifies this`tokens
      ensures tokens == WithoutExpired(old(tokens), now)
      ensures rows == |set t | t in old(tokens) && old(tokens)[t].expiresAt < now|
    {
      var gone := set t | t in tokens && tokens[t].expiresAt < now;
      rows := |gone|;
      tokens := map t | t in tokens && t !in gone ::
        if tokens[t].replacedBy.Some? && tokens[t].replacedBy.value in gone
        then tokens[t].(replacedBy := None)
        else tokens[t];
    }
  }
}
