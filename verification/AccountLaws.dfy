/** What the service calls do to accounts: one for each address and Google subject, no password changed by
    signing in, and what makes an account verified. */
module AccountLaws {
  import opened Common
  import opened SessionModel

  /** No step makes two accounts share an address or a Google subject. */
  lemma StepKeepsAccountsUnique(c: Settings, s: State, e: Event, now: Time)
    requires UniqueAccounts(s.users) && Enabled(s, e, now)
    ensures UniqueAccounts(Step(c, s, e, now).users)
    ensures forall u :: u in s.users ==>
              u in Step(c, s, e, now).users && Step(c, s, e, now).users[u].email == s.users[u].email
  {
    match e
    case Google(who, bySubject, byEmail, newUser, id, family) =>
      GoogleKeepsAccountsUnique(c, s, who, bySubject, byEmail, newUser, id, family, now);
      hide GoogleStep, UniqueAccounts, FoundFor;
    case Register(email, found, password, newUser, link) =>
      RegisterKeepsAccountsUnique(c, s, email, found, password, newUser, link, now);
      hide RegisterStep, UniqueAccounts, FoundByEmail;
    case _ =>
      OtherStepsKeepKeys(c, s, e, now);
      hide Step, UniqueAccounts;
      forall u | u in s.users
        ensures Step(c, s, e, now).users[u].email == s.users[u].email
        ensures Step(c, s, e, now).users[u].googleSub == s.users[u].googleSub
      {
        OtherStepsKeepColumns(c, s, e, now, u);
      }
      SameColumnsStayUnique(s.users, Step(c, s, e, now).users);
  }

  lemma GoogleKeepsAccountsUnique(c: Settings, s: State, who: Identity, bySubject: Option<UserId>,
                                  byEmail: Option<UserId>, newUser: UserId, id: TokenId, family: FamilyId, now: Time)
    requires UniqueAccounts(s.users) && newUser !in s.users && FoundFor(s.users, who, bySubject, byEmail)
    ensures var users := GoogleStep(c, s, who, bySubject, byEmail, newUser, id, family, now).0.users;
            && UniqueAccounts(users)
            && forall u :: u in s.users ==> u in users && users[u].email == s.users[u].email
  {
    AccountForIsUnique(s.users, who, bySubject, byEmail, newUser);
    IssuingLeavesAccounts(c);
    hide UniqueAccounts, FoundFor, AccountFor, Issue;
  }

  lemma RegisterKeepsAccountsUnique(c: Settings, s: State, email: Email, found: Option<UserId>, password: Password,
                                    newUser: UserId, link: LinkId, now: Time)
    requires UniqueAccounts(s.users) && newUser !in s.users && FoundByEmail(s.users, email, found)
    ensures var users := RegisterStep(c, s, email, found, password, newUser, link, now).0.users;
            && UniqueAccounts(users)
            && forall u :: u in s.users ==> u in users && users[u].email == s.users[u].email
  {
  }

  lemma OtherStepsKeepKeys(c: Settings, s: State, e: Event, now: Time)
    requires !e.Google? && !e.Register?
    ensures Step(c, s, e, now).users.Keys == s.users.Keys
  {
    IssuingLeavesAccounts(c);
    hide RevokeFamily, RevokeAllForUser, WithoutExpired, InvalidateLinks, Redeem, Issue;
  }

  lemma OtherStepsKeepColumns(c: Settings, s: State, e: Event, now: Time, u: UserId)
    requires !e.Google? && !e.Register? && u in s.users && u in Step(c, s, e, now).users
    ensures Step(c, s, e, now).users[u].email == s.users[u].email
    ensures Step(c, s, e, now).users[u].googleSub == s.users[u].googleSub
    ensures !e.VerifyEmail? && !e.MarkVerified? ==> Step(c, s, e, now).users[u].verified == s.users[u].verified
  {
    IssuingLeavesAccounts(c);
    hide RevokeFamily, RevokeAllForUser, WithoutExpired, InvalidateLinks, Redeem, Issue;
  }

  lemma IssuingLeavesAccounts(c: Settings)
    ensures forall s, user, family, previous, id, now :: Issue(c, s, user, family, previous, id, now).users == s.users
  {
  }

  lemma SameColumnsStayUnique(users: map<UserId, User>, users': map<UserId, User>)
    requires UniqueAccounts(users) && users'.Keys == users.Keys
    requires forall u :: u in users ==> users'[u].email == users[u].email && users'[u].googleSub == users[u].googleSub
    ensures UniqueAccounts(users')
  {
  }

  lemma AccountForIsUnique(users: map<UserId, User>, who: Identity, bySubject: Option<UserId>, byEmail: Option<UserId>,
                           newUser: UserId)
    requires UniqueAccounts(users) && newUser !in users
    requires FoundFor(users, who, bySubject, byEmail)
    ensures var (user, account) := AccountFor(users, who, bySubject, byEmail, newUser);
            && account.googleSub == Some(who.subject)
            && (user in users ==> account.email == users[user].email)
            && UniqueAccounts(users[user := account])
            && forall verified :: UniqueAccounts(users[user := account.(verified := verified)])
  {
  }

  lemma {:induction false} AccountsAreAlwaysUnique(c: Settings, states: seq<State>, events: seq<(Event, Time)>, j: nat)
    requires Run(c, states, events) && UniqueAccounts(states[0].users) && j < |states|
    ensures UniqueAccounts(states[j].users)
  {
    if j > 0 {
      AccountsAreAlwaysUnique(c, states, events, j - 1);
      assert StepAt(c, states, events, j - 1);
      StepKeepsAccountsUnique(c, states[j - 1], events[j - 1].0, events[j - 1].1);
    }
  }

  /** With unique columns a query has one answer. */
  lemma QueriesHaveOneAnswer(users: map<UserId, User>)
    requires UniqueAccounts(users)
    ensures forall email, a, b :: FoundByEmail(users, email, a) && FoundByEmail(users, email, b) ==> a == b
    ensures forall subject, a, b :: FoundBySubject(users, subject, a) && FoundBySubject(users, subject, b) ==> a == b
  {
  }

  /** Google sign-in opens a session of the account that carries the identity afterwards: the one that
      had the subject, or else the one that had the address, or else a new one without a password. No
      other account changes, and no existing password. */
  lemma GoogleSignsInToTheOneAccount(c: Settings, s: State, who: Identity, bySubject: Option<UserId>,
                                     byEmail: Option<UserId>, newUser: UserId, id: TokenId, family: FamilyId, now: Time)
    requires UniqueAccounts(s.users) && Enabled(s, Google(who, bySubject, byEmail, newUser, id, family), now)
    requires GoogleStep(c, s, who, bySubject, byEmail, newUser, id, family, now).1.LoggedIn?
    ensures var s' := GoogleStep(c, s, who, bySubject, byEmail, newUser, id, family, now).0;
            var user := s'.issued[id];
            && id in s'.issued && FoundBySubject(s'.users, who.subject, Some(user))
            && (bySubject.Some? ==> user == bySubject.value)
            && (byEmail.Some? ==> user == byEmail.value)
            && (s'.users.Keys == if bySubject.None? && byEmail.None? then s.users.Keys + {newUser} else s.users.Keys)
            && (bySubject.None? && byEmail.None? ==> s'.users[user].email == who.email && s'.users[user].password.None?)
            && (who.emailVerified ==> s'.users[user].verified)
            && (forall u :: u in s.users ==> s'.users[u].password == s.users[u].password)
            && (forall u :: u in s.users && u != user ==> s'.users[u] == s.users[u])
  {
    AccountForIsUnique(s.users, who, bySubject, byEmail, newUser);
  }

  /** Logging in may renew the hash, with the current parameters, but never what it verifies. */
  lemma LoginKeepsPasswords(c: Settings, s: State, found: Option<UserId>, password: Password, id: TokenId,
                            family: FamilyId, now: Time)
    ensures var (s', outcome) := LoginStep(c, s, found, password, id, family, now);
            && s'.users.Keys == s.users.Keys
            && (forall u, p :: u in s.users ==> (Verifies(s'.users[u], p) <==> Verifies(s.users[u], p)))
            && (forall u :: u in s.users && (found != Some(u) || !outcome.LoggedIn?) ==> s'.users[u] == s.users[u])
            && (outcome.LoggedIn? ==>
                found.Some? && found.value in s'.users && s'.users[found.value].password == Some(Hash(c, password)))
  {
  }

  // ------------------------------------------------------------------ passwords and the proof of a mailbox

  /** Google vouches for the mailbox of account `u`. */
  ghost predicate Vouched(s: State, e: Event, u: UserId) {
    e.Google? && SignsIn(s.users, e.who, e.bySubject, e.byEmail, e.newUser, u) && e.who.emailVerified
  }

  predicate SignsIn(users: map<UserId, User>, who: Identity, bySubject: Option<UserId>, byEmail: Option<UserId>,
                    newUser: UserId, u: UserId) {
    var (user, account) := AccountFor(users, who, bySubject, byEmail, newUser);
    user == u && account.active
  }

  /** A link mailed to account `u`, and still good, is presented. */
  ghost predicate Clicked(s: State, e: Event, now: Time, u: UserId) {
    && e.VerifyEmail? && e.link in s.links && s.links[e.link].IsUsable(now)
    && s.links[e.link].user == u && u in s.users
  }

  /** An operator marks account `u`: nobody proves anything. */
  ghost predicate Marked(s: State, e: Event, u: UserId) {
    e.MarkVerified? && e.user == u && u in s.users
  }

  ghost predicate Confirms(s: State, e: Event, now: Time, u: UserId) {
    Vouched(s, e, u) || Clicked(s, e, now, u) || Marked(s, e, u)
  }

  ghost predicate VerifiedIn(s: State, u: UserId) {
    u in s.users && s.users[u].verified
  }

  /** An account, old or new, becomes verified by one of the three alone, and stays so. */
  lemma OnlyProofVerifies(c: Settings, s: State, e: Event, now: Time, u: UserId)
    requires Enabled(s, e, now)
    ensures s.users.Keys <= Step(c, s, e, now).users.Keys
    ensures VerifiedIn(Step(c, s, e, now), u) <==> VerifiedIn(s, u) || Confirms(s, e, now, u)
  {
    match e
    case Google(who, bySubject, byEmail, newUser, id, family) =>
      GoogleVerifies(c, s, who, bySubject, byEmail, newUser, id, family, now, u);
    case Register(email, found, password, newUser, link) =>
      RegisteringVerifiesNobody(c, s, email, found, password, newUser, link, now, u);
      hide FoundByEmail, RegisterStep;
    case VerifyEmail(link) => ClickingVerifies(s, link, now, u);
    case MarkVerified(_) =>
    case _ =>
      OtherStepsVerifyNobody(c, s, e, now, u);
      hide Step, Enabled;
  }

  lemma RegisteringVerifiesNobody(c: Settings, s: State, email: Email, found: Option<UserId>, password: Password,
                                  newUser: UserId, link: LinkId, now: Time, u: UserId)
    requires newUser !in s.users
    ensures var s' := RegisterStep(c, s, email, found, password, newUser, link, now).0;
            s.users.Keys <= s'.users.Keys && (VerifiedIn(s', u) <==> VerifiedIn(s, u))
  {
  }

  lemma ClickingVerifies(s: State, link: LinkId, now: Time, u: UserId)
    ensures var s' := VerifyEmailStep(s, link, now).0;
            && s.users.Keys == s'.users.Keys
            && (VerifiedIn(s', u) <==> VerifiedIn(s, u) || Clicked(s, VerifyEmail(link), now, u))
  {
  }

  lemma GoogleVerifies(c: Settings, s: State, who: Identity, bySubject: Option<UserId>, byEmail: Option<UserId>,
                       newUser: UserId, id: TokenId, family: FamilyId, now: Time, u: UserId)
    requires newUser !in s.users
    ensures var s' := GoogleStep(c, s, who, bySubject, byEmail, newUser, id, family, now).0;
            && s.users.Keys <= s'.users.Keys
            && (VerifiedIn(s', u) <==>
                VerifiedIn(s, u) || (SignsIn(s.users, who, bySubject, byEmail, newUser, u) && who.emailVerified))
  {
    AccountForKeepsStanding(s.users, who, bySubject, byEmail, newUser);
    var (user, account) := AccountFor(s.users, who, bySubject, byEmail, newUser);
    var users := GoogleStep(c, s, who, bySubject, byEmail, newUser, id, family, now).0.users;
    assert users == if account.active
                    then s.users[user := account.(verified := account.verified || who.emailVerified)] else s.users;
    hide AccountFor, Issue, GoogleStep;
  }

  lemma AccountForKeepsStanding(users: map<UserId, User>, who: Identity, bySubject: Option<UserId>,
                                byEmail: Option<UserId>, newUser: UserId)
    requires newUser !in users
    ensures var (user, account) := AccountFor(users, who, bySubject, byEmail, newUser);
            account.verified <==> user in users && users[user].verified
  {
  }

  lemma OtherStepsVerifyNobody(c: Settings, s: State, e: Event, now: Time, u: UserId)
    requires !e.Google? && !e.Register? && !e.VerifyEmail? && !e.MarkVerified?
    ensures s.users.Keys == Step(c, s, e, now).users.Keys
    ensures VerifiedIn(Step(c, s, e, now), u) <==> VerifiedIn(s, u)
  {
    hide Step;
    OtherStepsKeepKeys(c, s, e, now);
    if u in s.users {
      OtherStepsKeepColumns(c, s, e, now, u);
    }
  }

  ghost predicate ConfirmedBetween(states: seq<State>, events: seq<(Event, Time)>, i: nat, j: nat, u: UserId)
    requires j <= |events| < |states|
  {
    exists k :: i <= k < j && Confirms(states[k], events[k].0, events[k].1, u)
  }

  /** Whether the account was there at `i` already or was opened since. */
  lemma {:induction false} VerifiedExactlyWhenProven(c: Settings, states: seq<State>, events: seq<(Event, Time)>,
        i: nat, j: nat, u: UserId)
    requires Run(c, states, events) && i <= j < |states|
    ensures VerifiedIn(states[j], u) <==> VerifiedIn(states[i], u) || ConfirmedBetween(states, events, i, j, u)
    decreases j - i
  {
    hide Step, Enabled, Confirms;
    if i < j {
      VerifiedExactlyWhenProven(c, states, events, i, j - 1, u);
      assert StepAt(c, states, events, j - 1);
      OnlyProofVerifies(c, states[j - 1], events[j - 1].0, events[j - 1].1, u);
    }
  }

  /** The right password of an active account that was not verified at `i`, or not there yet, opens a
      session at `j` if and only if in between Google vouched for the mailbox, a link mailed to it was
      clicked, or an operator marked the account. Who chose the password does not matter. */
  lemma PasswordLoginFollowsProof(c: Settings, states: seq<State>, events: seq<(Event, Time)>, i: nat, j: nat,
                                  u: UserId, password: Password, id: TokenId, family: FamilyId, now: Time)
    requires Run(c, states, events) && i <= j < |states| && !VerifiedIn(states[i], u)
    requires u in states[j].users && states[j].users[u].active && Verifies(states[j].users[u], password)
    ensures LoginStep(c, states[j], Some(u), password, id, family, now).1
            == if ConfirmedBetween(states, events, i, j, u) then LoggedIn(id) else EmailNotVerified
  {
    VerifiedExactlyWhenProven(c, states, events, i, j, u);
  }

  const HOURS := Settings(10, 1, 24, 1)

  const NOBODY := State(0, map[], map[], map[], map[], map[], map[])

  /** Somebody registers address 0 with password 5: account 7, to which link 1 is mailed. */
  const REGISTER := Register(0, None, 5, 7, 1)

  ghost function Registered(): State {
    Step(HOURS, NOBODY, REGISTER, 0)
  }

  lemma RegisteredIsUnverified()
    ensures Enabled(NOBODY, REGISTER, 0) && FoundByEmail(Registered().users, 0, Some(7))
    ensures LoginStep(HOURS, Registered(), Some(7), 5, 2, 2, 0).1 == EmailNotVerified
  {
  }

  lemma TwoSteps(c: Settings, s: State, e1: Event, t1: Time, e2: Event, t2: Time)
    requires Initial(s) && Enabled(s, e1, t1) && Enabled(Step(c, s, e1, t1), e2, t2)
    ensures Run(c, [s, Step(c, s, e1, t1), Step(c, Step(c, s, e1, t1), e2, t2)], [(e1, t1), (e2, t2)])
  {
    hide Initial, Enabled, Step;
    var states, events := [s, Step(c, s, e1, t1), Step(c, Step(c, s, e1, t1), e2, t2)], [(e1, t1), (e2, t2)];
    forall i: nat | i < |events|
      ensures StepAt(c, states, events, i)
    {
      assert i == 0 || i == 1;
    }
  }

  /** The owner of the mailbox signs in with Google, and from then on the password chosen at the
      registration opens sessions of the same account. */
  lemma AnEarlierPasswordOutlivesTheProof()
    ensures var google := Google(Identity(9, 0, true), None, Some(7), 8, 3, 3);
            var after := Step(HOURS, Registered(), google, 1);
            && Run(HOURS, [NOBODY, Registered(), after], [(REGISTER, 0), (google, 1)])
            && LoginStep(HOURS, Registered(), Some(7), 5, 2, 2, 0).1 == EmailNotVerified
            && FoundByEmail(after.users, 0, Some(7)) && after.issued == map[3 := 7]
            && LoginStep(HOURS, after, Some(7), 5, 2, 2, 2).1 == LoggedIn(2)
  {
    RegisteredIsUnverified();
    TwoSteps(HOURS, NOBODY, REGISTER, 0, Google(Identity(9, 0, true), None, Some(7), 8, 3, 3), 1);
    hide Run;
  }

  /** Or they click the link that the registration sent. */
  lemma ClickingTheLinkOpensTheAccount()
    ensures var after := Step(HOURS, Registered(), VerifyEmail(1), 1);
            && Run(HOURS, [NOBODY, Registered(), after], [(REGISTER, 0), (VerifyEmail(1), 1)])
            && LoginStep(HOURS, Registered(), Some(7), 5, 2, 2, 0).1 == EmailNotVerified
            && LoginStep(HOURS, after, Some(7), 5, 2, 2, 2).1 == LoggedIn(2)
  {
    RegisteredIsUnverified();
    TwoSteps(HOURS, NOBODY, REGISTER, 0, VerifyEmail(1), 1);
    hide Run;
  }

  /** Or an operator marks the account, and nobody has shown that they read mail to address 0. */
  lemma AnOperatorOpensTheAccount()
    ensures var after := Step(HOURS, Registered(), MarkVerified(7), 1);
            && Run(HOURS, [NOBODY, Registered(), after], [(REGISTER, 0), (MarkVerified(7), 1)])
            && LoginStep(HOURS, Registered(), Some(7), 5, 2, 2, 0).1 == EmailNotVerified
            && LoginStep(HOURS, after, Some(7), 5, 2, 2, 2).1 == LoggedIn(2)
  {
    RegisteredIsUnverified();
    TwoSteps(HOURS, NOBODY, REGISTER, 0, MarkVerified(7), 1);
    hide Run;
  }
}
