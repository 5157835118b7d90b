/** A run of the session server next to the same run without its purges. */
module PurgeLaws {
  import opened Common
  import opened SessionModel
  import opened SessionLaws

  // ------------------------------------------------------------------ runs and their answers

  datatype Answer = ToRefresh(outcome: RefreshOutcome) | ToLogin(login: LoginOutcome) | ToReset(redeemed: LinkOutcome)
      | ToRegister(accepted: bool) | ToVerify(verified: LinkOutcome) | Silence

  function AnswerTo(c: Settings, s: State, e: Event, now: Time): Answer {
    match e
    case Login(_, found, password, id, family) => ToLogin(LoginStep(c, s, found, password, id, family, now).1)
    case Google(who, bySubject, byEmail, newUser, id, family) =>
      ToLogin(GoogleStep(c, s, who, bySubject, byEmail, newUser, id, family, now).1)
    case Refresh(presented, id) => ToRefresh(RefreshStep(c, s, presented, id, now).1)
    case ResetPassword(reset, newPassword) => ToReset(ResetPasswordStep(c, s, reset, newPassword, now).1)
    case Register(email, found, password, newUser, link) =>
      ToRegister(RegisterStep(c, s, email, found, password, newUser, link, now).1)
    case VerifyEmail(link) => ToVerify(VerifyEmailStep(s, link, now).1)
    case _ => Silence
  }

  ghost function After(c: Settings, s: State, events: seq<(Event, Time)>): State {
    if events == [] then s
    else
      var (e, now) := events[|events| - 1];
      Step(c, After(c, s, events[..|events| - 1]), e, now)
  }

  /** What the callers are told, purges aside. */
  ghost function Answers(c: Settings, s: State, events: seq<(Event, Time)>): seq<Answer> {
    if events == [] then []
    else
      var before := events[..|events| - 1];
      var (e, now) := events[|events| - 1];
      Answers(c, s, before) + (if e.Purge? then [] else [AnswerTo(c, After(c, s, before), e, now)])
  }

  ghost function WithoutPurges(events: seq<(Event, Time)>): seq<(Event, Time)> {
    if events == [] then []
    else
      var last := events[|events| - 1];
      WithoutPurges(events[..|events| - 1]) + (if last.0.Purge? then [] else [last])
  }

  lemma OneMore(c: Settings, s: State, events: seq<(Event, Time)>, e: Event, now: Time)
    ensures After(c, s, events + [(e, now)]) == Step(c, After(c, s, events), e, now)
    ensures !e.Purge? ==>
              Answers(c, s, events + [(e, now)]) == Answers(c, s, events) + [AnswerTo(c, After(c, s, events), e, now)]
  {
    assert (events + [(e, now)])[..|events|] == events;
  }

  ghost predicate Possible(c: Settings, s: State, events: seq<(Event, Time)>) {
    events != [] ==>
      var before := events[..|events| - 1];
      var (e, now) := events[|events| - 1];
      Possible(c, s, before) && Enabled(After(c, s, before), e, now)
  }

  lemma {:induction false} PossibleRunKeepsInv(c: Settings, s: State, events: seq<(Event, Time)>)
    requires Inv(c, s) && Possible(c, s, events)
    ensures Inv(c, After(c, s, events))
  {
    if events != [] {
      var before := events[..|events| - 1];
      var (e, now) := events[|events| - 1];
      PossibleRunKeepsInv(c, s, before);
      StepKeepsInv(c, After(c, s, before), e, now);
    }
  }

  /** The event presents no token that is both revoked and past its expiry. */
  ghost predicate Harmless(s: State, e: Event, now: Time) {
    match e
    case Refresh(presented, _) => !ExpiredAndRevoked(s, presented, now)
    case Logout(presented) => !ExpiredAndRevoked(s, presented, now)
    case _ => true
  }

  ghost predicate ExpiredAndRevoked(s: State, t: TokenId, now: Time) {
    t in s.tokens && s.tokens[t].expiresAt < now && s.tokens[t].IsRevoked()
  }

  /** Nowhere in the run without purges. */
  ghost predicate AllHarmless(c: Settings, s: State, events: seq<(Event, Time)>) {
    events != [] ==>
      var before := events[..|events| - 1];
      var (e, now) := events[|events| - 1];
      AllHarmless(c, s, before) && Harmless(After(c, s, WithoutPurges(before)), e, now)
  }

  // ------------------------------------------------------------------ the same answers

  ghost predicate SameRow(a: Token, b: Token) {
    a.user == b.user && a.family == b.family && a.expiresAt == b.expiresAt && a.revokedAt.Some? == b.revokedAt.Some?
  }

  /** `p` is `s` but for rows that have expired. */
  ghost predicate Mirrors(s: State, p: State) {
    && s.clock <= p.clock
    && s.users == p.users && s.resets == p.resets && s.links == p.links && s.issued == p.issued
      && s.families == p.families
    && (forall t :: t in p.tokens ==> t in s.tokens && SameRow(s.tokens[t], p.tokens[t]))
    && (forall t :: t in s.tokens && t !in p.tokens ==> s.tokens[t].expiresAt < p.clock)
  }

  lemma PurgeKeepsMirror(s: State, p: State, now: Time)
    requires Mirrors(s, p) && p.clock <= now
    ensures Mirrors(s, PurgeStep(p, now))
  {
  }

  /** The very next refresh is answered differently exactly when the purged rows hold the presented token
      and it was revoked. */
  lemma MirrorAnswersRefresh(c: Settings, s: State, p: State, presented: TokenId, id: TokenId, now: Time)
    requires Mirrors(s, p) && p.clock <= now
    ensures RefreshStep(c, p, presented, id, now).1 == RefreshStep(c, s, presented, id, now).1
            <==> !(presented in s.tokens && presented !in p.tokens && s.tokens[presented].IsRevoked())
  {
  }

  lemma MirrorTicks(s: State, p: State, now: Time)
    requires Mirrors(s, p) && p.clock <= now
    ensures Mirrors(s.(clock := now), p.(clock := now))
  {
  }

  lemma MirrorRevokesFamily(s: State, p: State, family: FamilyId, now: Time)
    requires Mirrors(s, p)
    ensures Mirrors(s.(tokens := RevokeFamily(s.tokens, family, now)),
                    p.(tokens := RevokeFamily(p.tokens, family, now)))
  {
  }

  lemma MirrorSpends(s: State, p: State, t: TokenId, now: Time)
    requires Mirrors(s, p) && t in p.tokens
    ensures t in s.tokens
    ensures Mirrors(s.(tokens := s.tokens[t := s.tokens[t].(revokedAt := Some(now))]),
                    p.(tokens := p.tokens[t := p.tokens[t].(revokedAt := Some(now))]))
  {
  }

  lemma MirrorIssues(c: Settings, s: State, p: State, user: UserId, family: FamilyId, previous: Option<TokenId>,
                     id: TokenId, now: Time)
    requires Mirrors(s, p) && id !in s.tokens
    requires previous.Some? ==> previous.value in p.tokens
    ensures Mirrors(Issue(c, s, user, family, previous, id, now), Issue(c, p, user, family, previous, id, now))
  {
  }

  lemma MirrorAccounts(s: State, p: State, users: map<UserId, User>)
    requires Mirrors(s, p)
    ensures Mirrors(s.(users := users), p.(users := users))
  {
  }

  lemma MirrorRows(s: State, p: State, t: TokenId)
    requires Mirrors(s, p)
    ensures s.users == p.users && s.issued == p.issued && s.families == p.families
    ensures s.resets == p.resets && s.links == p.links
    ensures t in p.tokens ==> t in s.tokens && SameRow(s.tokens[t], p.tokens[t])
    ensures t in s.tokens && t !in p.tokens ==> s.tokens[t].expiresAt < p.clock
  {
  }

  lemma MirrorRotates(c: Settings, s: State, p: State, presented: TokenId, id: TokenId, now: Time)
    requires Mirrors(s, p) && p.clock <= now && id !in s.tokens
    requires !ExpiredAndRevoked(s, presented, now)
    ensures Mirrors(RefreshStep(c, s, presented, id, now).0, RefreshStep(c, p, presented, id, now).0)
  {
    hide Mirrors;
    MirrorTicks(s, p, now);
    var s1, p1 := s.(clock := now), p.(clock := now);
    MirrorRows(s, p, presented);
    if presented in p.tokens {
      var stored := p.tokens[presented];
      MirrorRevokesFamily(s1, p1, stored.family, now);
      MirrorSpends(s1, p1, presented, now);
      var s2 := s1.(tokens := s1.tokens[presented := s1.tokens[presented].(revokedAt := Some(now))]);
      var p2 := p1.(tokens := p1.tokens[presented := stored.(revokedAt := Some(now))]);
      if presented != id {
        MirrorIssues(c, s2, p2, stored.user, stored.family, Some(presented), id, now);
      }
      hide Issue, RevokeFamily;
    }
  }

  lemma MirrorLogsOut(c: Settings, s: State, p: State, presented: TokenId, now: Time)
    requires Mirrors(s, p) && p.clock <= now && Inv(c, s)
    requires !ExpiredAndRevoked(s, presented, now)
    ensures Mirrors(LogoutStep(s, presented, now), LogoutStep(p, presented, now))
  {
    MirrorTicks(s, p, now);
    MirrorRows(s, p, presented);
    if presented in p.tokens {
      MirrorRevokesFamily(s.(clock := now), p.(clock := now), p.tokens[presented].family, now);
      hide RevokeFamily, Mirrors;
    } else if presented in s.tokens {
      LastOneOut(c, s, p, presented, now);
    }
  }

  /** Logging out with a purged token that was never revoked revokes nothing that is left. */
  lemma LastOneOut(c: Settings, s: State, p: State, presented: TokenId, now: Time)
    requires Mirrors(s, p) && p.clock <= now && Inv(c, s)
    requires presented in s.tokens && presented !in p.tokens && !s.tokens[presented].IsRevoked()
    ensures Mirrors(LogoutStep(s, presented, now), p.(clock := now))
  {
    hide Mirrors, ChainsOnly;
    forall t | t in p.tokens && p.tokens[t].family == s.tokens[presented].family
      ensures p.tokens[t].IsRevoked()
    {
      MirrorRows(s, p, t);
      FamilyHasOneOwnerAndOneLiveToken(c, s, presented, t);
    }
    MirrorTicks(s, p, now);
    NothingLeftToRevoke(s.(clock := now), p.(clock := now), s.tokens[presented].family, now);
  }

  lemma NothingLeftToRevoke(s: State, p: State, family: FamilyId, now: Time)
    requires Mirrors(s, p)
    requires forall t :: t in p.tokens && p.tokens[t].family == family ==> p.tokens[t].IsRevoked()
    ensures Mirrors(s.(tokens := RevokeFamily(s.tokens, family, now)), p)
  {
  }

  lemma MirrorLogsIn(c: Settings, s: State, p: State, found: Option<UserId>, password: Password, id: TokenId,
                     family: FamilyId, now: Time)
    requires Mirrors(s, p) && p.clock <= now && id !in s.tokens
    ensures Mirrors(LoginStep(c, s, found, password, id, family, now).0,
                    LoginStep(c, p, found, password, id, family, now).0)
    ensures LoginStep(c, s, found, password, id, family, now).1 == LoginStep(c, p, found, password, id, family, now).1
  {
    MirrorRows(s, p, id);
    MirrorTicks(s, p, now);
    hide Mirrors;
    var s1, p1 := s.(clock := now), p.(clock := now);
    if found.Some? && found.value in s.users && Verifies(s.users[found.value], password) {
      var user := found.value;
      var upgraded := s.users[user := s.users[user].(password := Some(Hash(c, password)))];
      MirrorAccounts(s1, p1, upgraded);
      MirrorIssues(c, s1, p1, user, family, None, id, now);
      MirrorIssues(c, s1.(users := upgraded), p1.(users := upgraded), user, family, None, id, now);
    }
    hide Issue;
  }

  lemma GoogleIssues(c: Settings, s: State, who: Identity, bySubject: Option<UserId>, byEmail: Option<UserId>,
                     newUser: UserId, id: TokenId, family: FamilyId, now: Time)
    ensures var (user, account) := AccountFor(s.users, who, bySubject, byEmail, newUser);
            var users := s.users[user := account.(verified := account.verified || who.emailVerified)];
            var (s', outcome) := GoogleStep(c, s, who, bySubject, byEmail, newUser, id, family, now);
            && outcome == (if account.active then LoggedIn(id) else LoginInactive)
            && s' == if account.active then Issue(c, s.(clock := now, users := users), user, family, None, id, now)
                     else s.(clock := now)
  {
    hide Issue, AccountFor;
  }

  lemma MirrorSignsIn(c: Settings, s: State, p: State, who: Identity, bySubject: Option<UserId>,
                      byEmail: Option<UserId>, newUser: UserId, id: TokenId, family: FamilyId, now: Time)
    requires Mirrors(s, p) && p.clock <= now && id !in s.tokens
    ensures Mirrors(GoogleStep(c, s, who, bySubject, byEmail, newUser, id, family, now).0,
                    GoogleStep(c, p, who, bySubject, byEmail, newUser, id, family, now).0)
    ensures GoogleStep(c, s, who, bySubject, byEmail, newUser, id, family, now).1
            == GoogleStep(c, p, who, bySubject, byEmail, newUser, id, family, now).1
  {
    MirrorRows(s, p, id);
    MirrorTicks(s, p, now);
    GoogleIssues(c, s, who, bySubject, byEmail, newUser, id, family, now);
    GoogleIssues(c, p, who, bySubject, byEmail, newUser, id, family, now);
    hide Mirrors, Issue, AccountFor, GoogleStep;
    var (user, account) := AccountFor(s.users, who, bySubject, byEmail, newUser);
    var users := s.users[user := account.(verified := account.verified || who.emailVerified)];
    MirrorAccounts(s.(clock := now), p.(clock := now), users);
    MirrorIssues(c, s.(clock := now, users := users), p.(clock := now, users := users), user, family, None, id, now);
  }

  lemma MirrorResets(c: Settings, s: State, p: State, reset: ResetId, newPassword: Password, now: Time)
    requires Mirrors(s, p) && p.clock <= now
    ensures Mirrors(ResetPasswordStep(c, s, reset, newPassword, now).0,
                    ResetPasswordStep(c, p, reset, newPassword, now).0)
    ensures ResetPasswordStep(c, s, reset, newPassword, now).1 == ResetPasswordStep(c, p, reset, newPassword, now).1
  {
  }

  lemma MirrorFollows(c: Settings, s: State, p: State, e: Event, now: Time)
    requires Mirrors(s, p) && Inv(c, s) && Enabled(p, e, now) && Harmless(s, e, now) && !e.Purge?
    ensures Mirrors(Step(c, s, e, now), Step(c, p, e, now))
    ensures AnswerTo(c, s, e, now) == AnswerTo(c, p, e, now)
  {
    hide Mirrors, ChainsOnly;
    MirrorRows(s, p, 0);
    match e
    case Login(_, found, password, id, family) => MirrorLogsIn(c, s, p, found, password, id, family, now);
    case Google(who, bySubject, byEmail, newUser, id, family) =>
      MirrorSignsIn(c, s, p, who, bySubject, byEmail, newUser, id, family, now);
    case Refresh(presented, id) =>
      MirrorRows(s, p, presented);
      MirrorRotates(c, s, p, presented, id, now);
      MirrorAnswersRefresh(c, s, p, presented, id, now);
    case Logout(presented) => MirrorLogsOut(c, s, p, presented, now);
    case ResetPassword(reset, newPassword) => MirrorResets(c, s, p, reset, newPassword, now);
    case RequestReset(_, found, reset) => MirrorRequests(c, s, p, found, reset, now);
    case SetActive(user, active) => MirrorSets(s, p, user, active, now);
    case Register(email, found, password, newUser, link) =>
      MirrorRegisters(c, s, p, email, found, password, newUser, link, now);
    case Resend(_, found, link) => MirrorResends(c, s, p, found, link, now);
    case VerifyEmail(link) => MirrorVerifies(s, p, link, now);
    case MarkVerified(user) => MirrorMarks(s, p, user, now);
  }

  lemma MirrorRequests(c: Settings, s: State, p: State, found: Option<UserId>, reset: ResetId, now: Time)
    requires Mirrors(s, p) && p.clock <= now
    ensures Mirrors(RequestResetStep(c, s, found, reset, now), RequestResetStep(c, p, found, reset, now))
  {
    MirrorRows(s, p, 0);
    var s' := RequestResetStep(c, s, found, reset, now);
    MirrorChanges(s, p, s'.users, s'.resets, s'.links, now);
    hide Mirrors, InvalidateLinks;
  }

  lemma MirrorSets(s: State, p: State, user: UserId, active: bool, now: Time)
    requires Mirrors(s, p) && p.clock <= now
    ensures Mirrors(SetActiveStep(s, user, active, now), SetActiveStep(p, user, active, now))
  {
    MirrorRows(s, p, 0);
    var s' := SetActiveStep(s, user, active, now);
    MirrorChanges(s, p, s'.users, s'.resets, s'.links, now);
    hide Mirrors;
  }

  /** Accounts and links are the same in both, whatever becomes of them. */
  lemma MirrorChanges(s: State, p: State, users: map<UserId, User>, resets: map<ResetId, MailedLink>,
                      links: map<LinkId, MailedLink>, now: Time)
    requires Mirrors(s, p) && p.clock <= now
    ensures Mirrors(s.(clock := now, users := users, resets := resets, links := links),
                    p.(clock := now, users := users, resets := resets, links := links))
  {
  }

  lemma MirrorRegisters(c: Settings, s: State, p: State, email: Email, found: Option<UserId>, password: Password,
                       newUser: UserId, link: LinkId, now: Time)
    requires Mirrors(s, p) && p.clock <= now
    ensures Mirrors(RegisterStep(c, s, email, found, password, newUser, link, now).0,
                    RegisterStep(c, p, email, found, password, newUser, link, now).0)
  {
    MirrorRows(s, p, 0);
    var s' := RegisterStep(c, s, email, found, password, newUser, link, now).0;
    MirrorChanges(s, p, s'.users, s'.resets, s'.links, now);
    hide Mirrors;
  }

  lemma MirrorResends(c: Settings, s: State, p: State, found: Option<UserId>, link: LinkId, now: Time)
    requires Mirrors(s, p) && p.clock <= now
    ensures Mirrors(ResendStep(c, s, found, link, now), ResendStep(c, p, found, link, now))
  {
    MirrorRows(s, p, 0);
    var s' := ResendStep(c, s, found, link, now);
    MirrorChanges(s, p, s'.users, s'.resets, s'.links, now);
    hide Mirrors, InvalidateLinks;
  }

  lemma MirrorVerifies(s: State, p: State, link: LinkId, now: Time)
    requires Mirrors(s, p) && p.clock <= now
    ensures Mirrors(VerifyEmailStep(s, link, now).0, VerifyEmailStep(p, link, now).0)
  {
    MirrorRows(s, p, 0);
    var s' := VerifyEmailStep(s, link, now).0;
    MirrorChanges(s, p, s'.users, s'.resets, s'.links, now);
    hide Mirrors;
  }

  lemma MirrorMarks(s: State, p: State, user: UserId, now: Time)
    requires Mirrors(s, p) && p.clock <= now
    ensures Mirrors(MarkVerifiedStep(s, user, now), MarkVerifiedStep(p, user, now))
  {
    MirrorRows(s, p, 0);
    var s' := MarkVerifiedStep(s, user, now);
    MirrorChanges(s, p, s'.users, s'.resets, s'.links, now);
    hide Mirrors;
  }

  lemma MirrorEnables(s: State, p: State, e: Event, now: Time)
    requires Mirrors(s, p) && Enabled(p, e, now)
    ensures Enabled(s, e, now)
  {
  }

  /** As long as no token that is revoked and past its expiry is presented, a run and the same run without
      its purges tell every caller the same, and end in the same state but for expired rows. */
  lemma {:induction false} PurgesGoUnnoticed(c: Settings, s: State, events: seq<(Event, Time)>)
    requires Inv(c, s) && Possible(c, s, events) && AllHarmless(c, s, events)
    ensures Possible(c, s, WithoutPurges(events))
    ensures Answers(c, s, events) == Answers(c, s, WithoutPurges(events))
    ensures Mirrors(After(c, s, WithoutPurges(events)), After(c, s, events))
  {
    if events != [] {
      var before := events[..|events| - 1];
      var (e, now) := events[|events| - 1];
      PurgesGoUnnoticed(c, s, before);
      var s', p' := After(c, s, WithoutPurges(before)), After(c, s, before);
      if e.Purge? {
        PurgeKeepsMirror(s', p', now);
        assert WithoutPurges(events) == WithoutPurges(before);
      } else {
        PossibleRunKeepsInv(c, s, WithoutPurges(before));
        MirrorFollows(c, s', p', e, now);
        MirrorEnables(s', p', e, now);
        OneMore(c, s, WithoutPurges(before), e, now);
        assert (WithoutPurges(before) + [(e, now)])[..|WithoutPurges(before)|] == WithoutPurges(before);
      }
    }
  }

  // ------------------------------------------------------------------ never fewer sessions

  ghost predicate DeadIn(s: State, family: FamilyId) {
    forall t :: t in s.tokens && s.tokens[t].family == family ==> s.tokens[t].IsRevoked()
  }

  /** What the run with purges keeps of the run without, whatever is presented: a row they share is not
      revoked more, a row it misses has expired, and a row it alone has belongs to a family that is dead
      in the other. */
  ghost predicate Outlives(s: State, p: State) {
    && s.clock <= p.clock
    && s.users == p.users && s.resets == p.resets && s.links == p.links
    && s.families == p.families && s.issued.Keys <= p.issued.Keys
    && (forall t :: t in s.tokens && t in p.tokens ==> NotRevokedMore(s.tokens[t], p.tokens[t]))
    && (forall t :: t in s.tokens && t !in p.tokens ==> s.tokens[t].expiresAt < p.clock)
    && (forall t :: t in p.tokens && t !in s.tokens ==> DeadIn(s, p.tokens[t].family))
  }

  ghost predicate NotRevokedMore(a: Token, b: Token) {
    && a.user == b.user && a.family == b.family && a.expiresAt == b.expiresAt
    && (b.IsRevoked() ==> a.IsRevoked())
  }

  lemma OutlivingAcceptsMore(s: State, p: State, t: TokenId, now: Time)
    requires Outlives(s, p) && p.clock <= now && Accepts(s, t, now)
    ensures Accepts(p, t, now)
  {
  }

  lemma PurgeKeepsOutliving(s: State, p: State, now: Time)
    requires Outlives(s, p) && p.clock <= now
    ensures Outlives(s, PurgeStep(p, now))
  {
  }

  lemma OutlivingEnables(s: State, p: State, e: Event, now: Time)
    requires Outlives(s, p) && Enabled(p, e, now)
    ensures Enabled(s, e, now)
  {
  }

  lemma OutlivingTicks(s: State, p: State, now: Time)
    requires Outlives(s, p) && p.clock <= now
    ensures Outlives(s.(clock := now), p.(clock := now))
  {
  }

  lemma BothRevoke(s: State, p: State, family: FamilyId, now: Time)
    requires Outlives(s, p)
    ensures Outlives(s.(tokens := RevokeFamily(s.tokens, family, now)),
                     p.(tokens := RevokeFamily(p.tokens, family, now)))
  {
    FewerRevokes(s, p, family, now);
    DeadRevokes(s.(tokens := RevokeFamily(s.tokens, family, now)), p, family, now);
  }

  lemma FewerRevokes(s: State, p: State, family: FamilyId, now: Time)
    requires Outlives(s, p)
    ensures Outlives(s.(tokens := RevokeFamily(s.tokens, family, now)), p)
    ensures DeadIn(s.(tokens := RevokeFamily(s.tokens, family, now)), family)
  {
  }

  lemma DeadRevokes(s: State, p: State, family: FamilyId, now: Time)
    requires Outlives(s, p) && DeadIn(s, family)
    ensures Outlives(s, p.(tokens := RevokeFamily(p.tokens, family, now)))
  {
  }

  lemma BothIssue(c: Settings, s: State, p: State, user: UserId, family: FamilyId, previous: Option<TokenId>,
                  id: TokenId, now: Time)
    requires Outlives(s, p) && id !in s.tokens && id !in p.tokens
    requires previous.Some? ==> previous.value in s.tokens && previous.value in p.tokens
    requires forall t :: t in p.tokens && t !in s.tokens ==> p.tokens[t].family != family
    ensures Outlives(Issue(c, s, user, family, previous, id, now), Issue(c, p, user, family, previous, id, now))
  {
  }

  lemma OnlyOneIssues(c: Settings, s: State, p: State, user: UserId, family: FamilyId, previous: TokenId, id: TokenId,
                      now: Time)
    requires Outlives(s, p) && id !in s.tokens && id !in p.tokens && previous in p.tokens
    requires DeadIn(s, family) && family in p.families && p.families[family] == user
    ensures Outlives(s, Issue(c, p, user, family, Some(previous), id, now))
  {
    assert p.families[family := user] == p.families;
  }

  lemma SpendingOutlives(s: State, p: State, t: TokenId, now: Time)
    requires Outlives(s, p) && t in p.tokens
    ensures var p' := p.(tokens := p.tokens[t := p.tokens[t].(revokedAt := Some(now))]);
            && (t !in s.tokens || s.tokens[t].IsRevoked() ==> Outlives(s, p'))
            && (t in s.tokens ==> Outlives(s.(tokens := s.tokens[t := s.tokens[t].(revokedAt := Some(now))]), p'))
  {
  }

  lemma OutlivingRows(s: State, p: State, t: TokenId)
    requires Outlives(s, p)
    ensures s.users == p.users && s.families == p.families && s.issued.Keys <= p.issued.Keys
    ensures s.resets == p.resets && s.links == p.links
    ensures t in s.tokens && t in p.tokens ==> NotRevokedMore(s.tokens[t], p.tokens[t])
    ensures t in s.tokens && t !in p.tokens ==> s.tokens[t].expiresAt < p.clock
    ensures t in p.tokens && t !in s.tokens ==> DeadIn(s, p.tokens[t].family)
    ensures forall x :: x in p.tokens && x !in s.tokens ==> DeadIn(s, p.tokens[x].family)
  {
  }

  /** The token is presented where both know it. */
  lemma BothRefresh(c: Settings, s: State, p: State, t: TokenId, id: TokenId, now: Time)
    requires Outlives(s, p) && p.clock <= now && RowsAccountedFor(c, p) && id !in s.tokens && id !in p.tokens
    requires t in s.tokens && t in p.tokens
    ensures Outlives(RefreshStep(c, s, t, id, now).0, RefreshStep(c, p, t, id, now).0)
  {
    OutlivingRows(s, p, t);
    OutlivingTicks(s, p, now);
    var s1, p1 := s.(clock := now), p.(clock := now);
    var mine, yours := s.tokens[t], p.tokens[t];
    var family := mine.family;
    hide Outlives;
    if mine.IsRevoked() {
      FewerRevokes(s1, p1, family, now);
      var s2 := s1.(tokens := RevokeFamily(s1.tokens, family, now));
      if yours.IsRevoked() {
        DeadRevokes(s2, p1, family, now);
      } else if Accepts(p, t, now) {
        OnlyOneRotates(c, s2, p1, t, id, now);
      }
      hide Issue, RevokeFamily;
    } else if Accepts(p, t, now) {
      var s2 := s1.(tokens := s1.tokens[t := mine.(revokedAt := Some(now))]);
      var p2 := p1.(tokens := p1.tokens[t := yours.(revokedAt := Some(now))]);
      SpendingOutlives(s1, p1, t, now);
      assert !DeadIn(s, family);
      BothIssue(c, s2, p2, yours.user, family, Some(t), id, now);
      hide Issue;
    }
  }

  lemma OnlyOneRotates(c: Settings, s: State, p: State, t: TokenId, id: TokenId, now: Time)
    requires Outlives(s, p) && RowsAccountedFor(c, p) && id !in s.tokens && id !in p.tokens
    requires t in p.tokens && DeadIn(s, p.tokens[t].family) && (t in s.tokens ==> s.tokens[t].IsRevoked())
    ensures var spent := p.(tokens := p.tokens[t := p.tokens[t].(revokedAt := Some(now))]);
            Outlives(s, Issue(c, spent, p.tokens[t].user, p.tokens[t].family, Some(t), id, now))
  {
    SpendingOutlives(s, p, t, now);
    var spent := p.(tokens := p.tokens[t := p.tokens[t].(revokedAt := Some(now))]);
    OnlyOneIssues(c, s, spent, p.tokens[t].user, p.tokens[t].family, t, id, now);
  }

  lemma OutlivingRefreshes(c: Settings, s: State, p: State, t: TokenId, id: TokenId, now: Time)
    requires Outlives(s, p) && p.clock <= now && RowsAccountedFor(c, p) && id !in s.tokens && id !in p.tokens
    ensures Outlives(RefreshStep(c, s, t, id, now).0, RefreshStep(c, p, t, id, now).0)
  {
    OutlivingRows(s, p, t);
    OutlivingTicks(s, p, now);
    hide Outlives;
    var s1, p1 := s.(clock := now), p.(clock := now);
    if t in s.tokens && t in p.tokens {
      BothRefresh(c, s, p, t, id, now);
    } else if t in s.tokens {
      FewerRevokes(s1, p1, s.tokens[t].family, now);
      hide RevokeFamily;
    } else if t in p.tokens {
      DeadRevokes(s1, p1, p.tokens[t].family, now);
      OnlyOneRotates(c, s1, p1, t, id, now);
      hide RevokeFamily, Issue;
    }
  }

  lemma OutlivingLogsOut(s: State, p: State, t: TokenId, now: Time)
    requires Outlives(s, p) && p.clock <= now
    ensures Outlives(LogoutStep(s, t, now), LogoutStep(p, t, now))
  {
    OutlivingRows(s, p, t);
    OutlivingTicks(s, p, now);
    hide Outlives;
    var s1, p1 := s.(clock := now), p.(clock := now);
    if t in s.tokens {
      FewerRevokes(s1, p1, s.tokens[t].family, now);
      BothRevoke(s1, p1, s.tokens[t].family, now);
    } else if t in p.tokens {
      DeadRevokes(s1, p1, p.tokens[t].family, now);
    }
    hide RevokeFamily;
  }

  lemma OutlivingAccounts(s: State, p: State, users: map<UserId, User>)
    requires Outlives(s, p)
    ensures Outlives(s.(users := users), p.(users := users))
  {
  }

  lemma NewFamilyIsOfNone(c: Settings, p: State, family: FamilyId)
    requires RowsAccountedFor(c, p) && family !in p.families
    ensures forall t :: t in p.tokens ==> p.tokens[t].family != family
  {
  }

  lemma OutlivingLogsIn(c: Settings, s: State, p: State, found: Option<UserId>, password: Password, id: TokenId,
                        family: FamilyId, now: Time)
    requires Outlives(s, p) && p.clock <= now && id !in s.tokens && id !in p.tokens
    requires forall t :: t in p.tokens ==> p.tokens[t].family != family
    ensures Outlives(LoginStep(c, s, found, password, id, family, now).0,
                     LoginStep(c, p, found, password, id, family, now).0)
  {
    OutlivingRows(s, p, id);
    OutlivingTicks(s, p, now);
    hide Outlives;
    var s1, p1 := s.(clock := now), p.(clock := now);
    if found.Some? && found.value in s.users && Verifies(s.users[found.value], password) {
      var user := found.value;
      var upgraded := s.users[user := s.users[user].(password := Some(Hash(c, password)))];
      OutlivingAccounts(s1, p1, upgraded);
      BothIssue(c, s1, p1, user, family, None, id, now);
      BothIssue(c, s1.(users := upgraded), p1.(users := upgraded), user, family, None, id, now);
    }
    hide Issue;
  }

  lemma OutlivingSignsIn(c: Settings, s: State, p: State, who: Identity, bySubject: Option<UserId>,
                         byEmail: Option<UserId>, newUser: UserId, id: TokenId, family: FamilyId, now: Time)
    requires Outlives(s, p) && p.clock <= now && id !in s.tokens && id !in p.tokens
    requires forall t :: t in p.tokens ==> p.tokens[t].family != family
    ensures Outlives(GoogleStep(c, s, who, bySubject, byEmail, newUser, id, family, now).0,
                     GoogleStep(c, p, who, bySubject, byEmail, newUser, id, family, now).0)
  {
    OutlivingRows(s, p, id);
    OutlivingTicks(s, p, now);
    GoogleIssues(c, s, who, bySubject, byEmail, newUser, id, family, now);
    GoogleIssues(c, p, who, bySubject, byEmail, newUser, id, family, now);
    hide Outlives, Issue, AccountFor, GoogleStep;
    var (user, account) := AccountFor(s.users, who, bySubject, byEmail, newUser);
    var users := s.users[user := account.(verified := account.verified || who.emailVerified)];
    OutlivingAccounts(s.(clock := now), p.(clock := now), users);
    BothIssue(c, s.(clock := now, users := users), p.(clock := now, users := users), user, family, None, id, now);
  }

  lemma OutlivingResets(c: Settings, s: State, p: State, reset: ResetId, newPassword: Password, now: Time)
    requires Outlives(s, p) && p.clock <= now
    ensures Outlives(ResetPasswordStep(c, s, reset, newPassword, now).0,
                     ResetPasswordStep(c, p, reset, newPassword, now).0)
  {
    OutlivingTicks(s, p, now);
    if reset in s.resets {
      BothRevokeUser(s.(clock := now), p.(clock := now), s.resets[reset].user, now);
    }
    hide RevokeAllForUser;
  }

  lemma BothRevokeUser(s: State, p: State, user: UserId, now: Time)
    requires Outlives(s, p)
    ensures Outlives(s.(tokens := RevokeAllForUser(s.tokens, user, now)),
                     p.(tokens := RevokeAllForUser(p.tokens, user, now)))
  {
  }

  lemma OutlivingRequests(c: Settings, s: State, p: State, found: Option<UserId>, reset: ResetId, now: Time)
    requires Outlives(s, p) && p.clock <= now
    ensures Outlives(RequestResetStep(c, s, found, reset, now), RequestResetStep(c, p, found, reset, now))
  {
    OutlivingRows(s, p, 0);
    var s' := RequestResetStep(c, s, found, reset, now);
    OutlivingChanges(s, p, s'.users, s'.resets, s'.links, now);
    hide Outlives, InvalidateLinks;
  }

  lemma OutlivingSets(s: State, p: State, user: UserId, active: bool, now: Time)
    requires Outlives(s, p) && p.clock <= now
    ensures Outlives(SetActiveStep(s, user, active, now), SetActiveStep(p, user, active, now))
  {
    OutlivingRows(s, p, 0);
    var s' := SetActiveStep(s, user, active, now);
    OutlivingChanges(s, p, s'.users, s'.resets, s'.links, now);
    hide Outlives;
  }

  /** Accounts and links are the same in both, whatever becomes of them. */
  lemma OutlivingChanges(s: State, p: State, users: map<UserId, User>, resets: map<ResetId, MailedLink>,
                      links: map<LinkId, MailedLink>, now: Time)
    requires Outlives(s, p) && p.clock <= now
    ensures Outlives(s.(clock := now, users := users, resets := resets, links := links),
                    p.(clock := now, users := users, resets := resets, links := links))
  {
  }

  lemma OutlivingRegisters(c: Settings, s: State, p: State, email: Email, found: Option<UserId>, password: Password,
                       newUser: UserId, link: LinkId, now: Time)
    requires Outlives(s, p) && p.clock <= now
    ensures Outlives(RegisterStep(c, s, email, found, password, newUser, link, now).0,
                     RegisterStep(c, p, email, found, password, newUser, link, now).0)
  {
    OutlivingRows(s, p, 0);
    var s' := RegisterStep(c, s, email, found, password, newUser, link, now).0;
    OutlivingChanges(s, p, s'.users, s'.resets, s'.links, now);
    hide Outlives;
  }

  lemma OutlivingResends(c: Settings, s: State, p: State, found: Option<UserId>, link: LinkId, now: Time)
    requires Outlives(s, p) && p.clock <= now
    ensures Outlives(ResendStep(c, s, found, link, now), ResendStep(c, p, found, link, now))
  {
    OutlivingRows(s, p, 0);
    var s' := ResendStep(c, s, found, link, now);
    OutlivingChanges(s, p, s'.users, s'.resets, s'.links, now);
    hide Outlives, InvalidateLinks;
  }

  lemma OutlivingVerifies(s: State, p: State, link: LinkId, now: Time)
    requires Outlives(s, p) && p.clock <= now
    ensures Outlives(VerifyEmailStep(s, link, now).0, VerifyEmailStep(p, link, now).0)
  {
    OutlivingRows(s, p, 0);
    var s' := VerifyEmailStep(s, link, now).0;
    OutlivingChanges(s, p, s'.users, s'.resets, s'.links, now);
    hide Outlives;
  }

  lemma OutlivingMarks(s: State, p: State, user: UserId, now: Time)
    requires Outlives(s, p) && p.clock <= now
    ensures Outlives(MarkVerifiedStep(s, user, now), MarkVerifiedStep(p, user, now))
  {
    OutlivingRows(s, p, 0);
    var s' := MarkVerifiedStep(s, user, now);
    OutlivingChanges(s, p, s'.users, s'.resets, s'.links, now);
    hide Outlives;
  }

  lemma OutlivingFollows(c: Settings, s: State, p: State, e: Event, now: Time)
    requires Outlives(s, p) && RowsAccountedFor(c, s) && RowsAccountedFor(c, p) && Enabled(p, e, now) && !e.Purge?
    ensures Outlives(Step(c, s, e, now), Step(c, p, e, now))
  {
    OutlivingRows(s, p, 0);
    hide Outlives;
    match e
    case Login(_, found, password, id, family) =>
      NewFamilyIsOfNone(c, p, family);
      OutlivingLogsIn(c, s, p, found, password, id, family, now);
    case Google(who, bySubject, byEmail, newUser, id, family) =>
      NewFamilyIsOfNone(c, p, family);
      OutlivingSignsIn(c, s, p, who, bySubject, byEmail, newUser, id, family, now);
    case Refresh(presented, id) => OutlivingRefreshes(c, s, p, presented, id, now);
    case Logout(presented) => OutlivingLogsOut(s, p, presented, now);
    case ResetPassword(reset, newPassword) => OutlivingResets(c, s, p, reset, newPassword, now);
    case RequestReset(_, found, reset) => OutlivingRequests(c, s, p, found, reset, now);
    case SetActive(user, active) => OutlivingSets(s, p, user, active, now);
    case Register(email, found, password, newUser, link) =>
      OutlivingRegisters(c, s, p, email, found, password, newUser, link, now);
    case Resend(_, found, link) => OutlivingResends(c, s, p, found, link, now);
    case VerifyEmail(link) => OutlivingVerifies(s, p, link, now);
    case MarkVerified(user) => OutlivingMarks(s, p, user, now);
  }

  lemma {:induction false} PurgedRunOutlives(c: Settings, s: State, events: seq<(Event, Time)>)
    requires Inv(c, s) && Possible(c, s, events)
    ensures Possible(c, s, WithoutPurges(events))
    ensures Outlives(After(c, s, WithoutPurges(events)), After(c, s, events))
  {
    if events != [] {
      var before := events[..|events| - 1];
      var (e, now) := events[|events| - 1];
      PurgedRunOutlives(c, s, before);
      var s', p' := After(c, s, WithoutPurges(before)), After(c, s, before);
      if e.Purge? {
        PurgeKeepsOutliving(s', p', now);
        assert WithoutPurges(events) == WithoutPurges(before);
      } else {
        PossibleRunKeepsInv(c, s, before);
        PossibleRunKeepsInv(c, s, WithoutPurges(before));
        OutlivingFollows(c, s', p', e, now);
        OutlivingEnables(s', p', e, now);
        OneMore(c, s, WithoutPurges(before), e, now);
        assert (WithoutPurges(before) + [(e, now)])[..|WithoutPurges(before)|] == WithoutPurges(before);
      }
    }
  }

  /** Whatever is presented, purging never ends a session: what would be accepted without the purges is
      accepted with them. */
  lemma PurgesOnlyEverSpare(c: Settings, s: State, events: seq<(Event, Time)>, t: TokenId, now: Time)
    requires Inv(c, s) && Possible(c, s, events) && After(c, s, events).clock <= now
    requires Accepts(After(c, s, WithoutPurges(events)), t, now)
    ensures Accepts(After(c, s, events), t, now)
  {
    PurgedRunOutlives(c, s, events);
    OutlivingAcceptsMore(After(c, s, WithoutPurges(events)), After(c, s, events), t, now);
  }

  // ------------------------------------------------------------------ and it can spare one

  lemma OneMoreIsPossible(c: Settings, s: State, events: seq<(Event, Time)>, e: Event, now: Time)
    ensures Possible(c, s, events + [(e, now)]) <==> Possible(c, s, events) && Enabled(After(c, s, events), e, now)
    ensures WithoutPurges(events + [(e, now)]) == WithoutPurges(events) + (if e.Purge? then [] else [(e, now)])
  {
    assert (events + [(e, now)])[..|events|] == events;
  }

  const TEN_SECONDS := Settings(10, 1, 1, 1)

  /** One account, user 7, with its session, family 1. */
  ghost function OneUser(clock: Time, tokens: map<TokenId, Token>, issued: map<TokenId, UserId>): State {
    State(clock, map[7 := User(0, None, Some(PasswordHash(5, 1)), true, true)], tokens, map[], map[], issued,
          if issued == map[] then map[] else map[1 := 7])
  }

  ghost function Unused(): State {
    OneUser(0, map[], map[])
  }

  ghost function LoggedInAt0(): State {
    OneUser(0, map[1 := Token(7, 1, 10, None, None)], map[1 := 7])
  }

  ghost function RotatedAt9(): State {
    OneUser(9, map[1 := Token(7, 1, 10, Some(9), Some(2)), 2 := Token(7, 1, 19, None, None)], map[1 := 7, 2 := 7])
  }

  ghost function PurgedAt11(): State {
    OneUser(11, map[2 := Token(7, 1, 19, None, None)], map[1 := 7, 2 := 7])
  }

  ghost function ReplayedAt11(): State {
    OneUser(11, map[1 := Token(7, 1, 10, Some(9), Some(2)), 2 := Token(7, 1, 19, Some(11), None)], map[1 := 7, 2 := 7])
  }

  lemma LoginAt0()
    ensures Enabled(Unused(), Login(0, Some(7), 5, 1, 1), 0)
            && Step(TEN_SECONDS, Unused(), Login(0, Some(7), 5, 1, 1), 0) == LoggedInAt0()
  {
    assert Step(TEN_SECONDS, Unused(), Login(0, Some(7), 5, 1, 1), 0).issued == LoggedInAt0().issued;
  }

  lemma RotationAt9()
    ensures Enabled(LoggedInAt0(), Refresh(1, 2), 9)
            && Step(TEN_SECONDS, LoggedInAt0(), Refresh(1, 2), 9) == RotatedAt9()
  {
    assert Step(TEN_SECONDS, LoggedInAt0(), Refresh(1, 2), 9).issued == RotatedAt9().issued;
    assert Step(TEN_SECONDS, LoggedInAt0(), Refresh(1, 2), 9).tokens == RotatedAt9().tokens;
  }

  lemma PurgeAt11()
    ensures Enabled(RotatedAt9(), Purge, 11) && Step(TEN_SECONDS, RotatedAt9(), Purge, 11) == PurgedAt11()
  {
    assert Step(TEN_SECONDS, RotatedAt9(), Purge, 11).tokens == PurgedAt11().tokens;
  }

  lemma ReplayAt11()
    ensures Enabled(PurgedAt11(), Refresh(1, 3), 11)
            && Step(TEN_SECONDS, PurgedAt11(), Refresh(1, 3), 11) == PurgedAt11()
    ensures Step(TEN_SECONDS, RotatedAt9(), Refresh(1, 3), 11) == ReplayedAt11()
  {
    assert Step(TEN_SECONDS, RotatedAt9(), Refresh(1, 3), 11).tokens == ReplayedAt11().tokens;
  }

  /** A login, its one rotation just before the first token expires, a purge, and a replay of the first
      token. */
  ghost function ReplayAfterPurge(): seq<(Event, Time)> {
    [(Login(0, Some(7), 5, 1, 1), 0), (Refresh(1, 2), 9), (Purge, 11), (Refresh(1, 3), 11)]
  }

  lemma ReplayRuns()
    ensures Possible(TEN_SECONDS, Unused(), ReplayAfterPurge())
    ensures After(TEN_SECONDS, Unused(), ReplayAfterPurge()) == PurgedAt11()
    ensures After(TEN_SECONDS, Unused(), WithoutPurges(ReplayAfterPurge())) == ReplayedAt11()
  {
    LoginAt0();
    RotationAt9();
    PurgeAt11();
    ReplayAt11();
    hide Unused, LoggedInAt0, RotatedAt9, PurgedAt11, ReplayedAt11, Step, Enabled, Possible, After, WithoutPurges;
    FourSteps(TEN_SECONDS, [Unused(), LoggedInAt0(), RotatedAt9(), PurgedAt11(), PurgedAt11()], ReplayedAt11(),
              (Login(0, Some(7), 5, 1, 1), 0), (Refresh(1, 2), 9), (Purge, 11), (Refresh(1, 3), 11));
  }

  lemma FourSteps(c: Settings, states: seq<State>, other: State, e1: (Event, Time), e2: (Event, Time),
                  purge: (Event, Time), e4: (Event, Time))
    requires |states| == 5 && purge.0.Purge? && !e1.0.Purge? && !e2.0.Purge? && !e4.0.Purge?
    requires Enabled(states[0], e1.0, e1.1) && Step(c, states[0], e1.0, e1.1) == states[1]
    requires Enabled(states[1], e2.0, e2.1) && Step(c, states[1], e2.0, e2.1) == states[2]
    requires Enabled(states[2], purge.0, purge.1) && Step(c, states[2], purge.0, purge.1) == states[3]
    requires Enabled(states[3], e4.0, e4.1) && Step(c, states[3], e4.0, e4.1) == states[4]
    requires Step(c, states[2], e4.0, e4.1) == other
    ensures Possible(c, states[0], [e1, e2, purge, e4])
    ensures After(c, states[0], [e1, e2, purge, e4]) == states[4]
    ensures After(c, states[0], WithoutPurges([e1, e2, purge, e4])) == other
  {
    var s := states[0];
    assert Possible(c, s, []) && After(c, s, []) == s && WithoutPurges([]) == [];
    hide Possible, After, WithoutPurges, Step, Enabled;
    OneMore(c, s, [], e1.0, e1.1);
    OneMoreIsPossible(c, s, [], e1.0, e1.1);
    assert [] + [e1] == [e1];
    OneMore(c, s, [e1], e2.0, e2.1);
    OneMoreIsPossible(c, s, [e1], e2.0, e2.1);
    assert [e1] + [e2] == [e1, e2];
    OneMore(c, s, [e1, e2], purge.0, purge.1);
    OneMoreIsPossible(c, s, [e1, e2], purge.0, purge.1);
    assert [e1, e2] + [purge] == [e1, e2, purge] && [e1, e2] + [] == [e1, e2];
    OneMore(c, s, [e1, e2, purge], e4.0, e4.1);
    OneMoreIsPossible(c, s, [e1, e2, purge], e4.0, e4.1);
    assert [e1, e2, purge] + [e4] == [e1, e2, purge, e4];
    OneMore(c, s, [e1, e2], e4.0, e4.1);
  }

  /** Without the purge the replay ends the session; with it the replay goes unrecognised, and the
      session's live token, which the purge did not touch, is still accepted. */
  lemma APurgeCanSpareASession()
    ensures var events := ReplayAfterPurge();
            var with, without := After(TEN_SECONDS, Unused(), events),
              After(TEN_SECONDS, Unused(), WithoutPurges(events));
            && Initial(Unused()) && Possible(TEN_SECONDS, Unused(), events)
            && Accepts(with, 2, 12) && AnswerTo(TEN_SECONDS, with, Refresh(2, 4), 12) == ToRefresh(Rotated(4))
            && !Accepts(without, 2, 12) && AnswerTo(TEN_SECONDS, without, Refresh(2, 4), 12) == ToRefresh(ReuseDetected)
  {
    ReplayRuns();
    hide Possible, After, WithoutPurges;
  }
}
