/** Rotating single-use refresh tokens with family revocation, one step per committed service call
    (the scheme of section 4.14.2 of RFC 9700). */
module SessionModel {
  import opened Common

  type UserId = nat
  /** A raw refresh token, its stored hash and its row: one fresh identifier for all three. */
  type TokenId = nat
  type FamilyId = nat
  type ResetId = nat
  type LinkId = nat
  type Password = nat
  type Time = int

  type Email = nat
  /** Google's permanent identifier of an account. */
  type Subject = nat

  /** A stored hash: what it verifies, and the cost parameters it was made with. */
  datatype PasswordHash = PasswordHash(of: Password, parameters: int)

  datatype User = User(email: Email, googleSub: Option<Subject>, password: Option<PasswordHash>, active: bool,
                       verified: bool)

  datatype Identity = Identity(subject: Subject, email: Email, emailVerified: bool)

  datatype Token = Token(user: UserId, family: FamilyId, expiresAt: Time, revokedAt: Option<Time>,
                         replacedBy: Option<TokenId>) {
    predicate IsRevoked() {
      revokedAt.Some?
    }

    predicate IsExpired(now: Time) {
      now >= expiresAt
    }

    predicate IsUsable(now: Time) {
      !IsRevoked() && !IsExpired(now)
    }
  }

  /** A random secret in a mail, good once and for a while: to reset a password or to verify an address. */
  datatype MailedLink = MailedLink(user: UserId, expiresAt: Time, usedAt: Option<Time>) {
    predicate IsUsable(now: Time) {
      usedAt.None? && now < expiresAt
    }
  }

  /** `issued` and `families` remember every token and family ever handed out, and to whom. */
  datatype State = State(
    clock: Time,
    users: map<UserId, User>,
    tokens: map<TokenId, Token>,
    resets: map<ResetId, MailedLink>,
    links: map<LinkId, MailedLink>,
    issued: map<TokenId, UserId>,
    families: map<FamilyId, UserId>)

  /** The configured lifetimes and hashing parameters, constant over a run. */
  datatype Settings = Settings(refreshLifetime: int, resetLifetime: int, linkLifetime: int, hashParameters: int)

  datatype RefreshOutcome = Rotated(successor: TokenId) | InvalidRefreshToken | ReuseDetected | InactiveAccount

  datatype LoginOutcome = LoggedIn(token: TokenId) | InvalidCredentials | LoginInactive | EmailNotVerified

  datatype LinkOutcome = Redeemed | UnknownLink | AlreadyUsed | LinkExpired

  // ------------------------------------------------------------------ table updates

  function RevokeFamily(tokens: map<TokenId, Token>, family: FamilyId, now: Time): map<TokenId, Token> {
    map t | t in tokens ::
      if tokens[t].family == family && !tokens[t].IsRevoked() then tokens[t].(revokedAt := Some(now)) else tokens[t]
  }

  function RevokeAllForUser(tokens: map<TokenId, Token>, user: UserId, now: Time): map<TokenId, Token> {
    map t | t in tokens ::
      if tokens[t].user == user && !tokens[t].IsRevoked() then tokens[t].(revokedAt := Some(now)) else tokens[t]
  }

  /** DELETE of the expired rows, with ON DELETE SET NULL on the rotation link. */
  function WithoutExpired(tokens: map<TokenId, Token>, now: Time): map<TokenId, Token> {
    map t | t in tokens && tokens[t].expiresAt >= now ::
      var next := tokens[t].replacedBy;
      if next.Some? && next.value in tokens && tokens[next.value].expiresAt < now
      then tokens[t].(replacedBy := None)
      else tokens[t]
  }

  /** Every unused link of the user is used up. */
  function InvalidateLinks(links: map<nat, MailedLink>, user: UserId, now: Time): map<nat, MailedLink> {
    map r | r in links ::
      if links[r].user == user && links[r].usedAt.None? then links[r].(usedAt := Some(now)) else links[r]
  }

  /** What whoever presents a link is told. */
  function Redeem(links: map<nat, MailedLink>, link: nat, now: Time): LinkOutcome {
    if link !in links then UnknownLink
    else if links[link].IsUsable(now) then Redeemed
    else if links[link].usedAt.Some? then AlreadyUsed
    else LinkExpired
  }

  /** A new row, linked from the token it replaces. */
  function Issue(c: Settings, s: State, user: UserId, family: FamilyId, previous: Option<TokenId>, id: TokenId,
                 now: Time): State {
    var row := Token(user, family, now + c.refreshLifetime, None, None);
    var tokens := s.tokens[id := row];
    s.(tokens := if previous.Some? && previous.value in s.tokens && previous.value != id
                 then tokens[previous.value := tokens[previous.value].(replacedBy := Some(id))]
                 else tokens,
       issued := s.issued[id := user],
       families := s.families[family := user])
  }

  // ------------------------------------------------------------------ service calls

  function RefreshStep(c: Settings, s0: State, presented: TokenId, id: TokenId, now: Time): (State, RefreshOutcome) {
    var s := s0.(clock := now);
    if presented !in s.tokens then
      (s, InvalidRefreshToken)
    else
      var stored := s.tokens[presented];
      if stored.IsRevoked() then
        (s.(tokens := RevokeFamily(s.tokens, stored.family, now)), ReuseDetected)
      else if stored.IsExpired(now) then
        (s, InvalidRefreshToken)
      else if stored.user !in s.users then
        (s, InvalidRefreshToken)
      else if !s.users[stored.user].active then
        (s, InactiveAccount)
      else
        var spent := s.(tokens := s.tokens[presented := stored.(revokedAt := Some(now))]);
        (Issue(c, spent, stored.user, stored.family, Some(presented), id, now), Rotated(id))
  }

  function LogoutStep(s0: State, presented: TokenId, now: Time): State {
    var s := s0.(clock := now);
    if presented in s.tokens then s.(tokens := RevokeFamily(s.tokens, s.tokens[presented].family, now)) else s
  }

  function Hash(c: Settings, password: Password): PasswordHash {
    PasswordHash(password, c.hashParameters)
  }

  predicate Verifies(account: User, password: Password) {
    account.password.Some? && account.password.value.of == password
  }

  /** `found` is the account with the address, if there is one. */
  function LoginStep(c: Settings, s0: State, found: Option<UserId>, password: Password, id: TokenId, family: FamilyId,
                     now: Time)
      : (State, LoginOutcome) {
    var s := s0.(clock := now);
    if found.None? || found.value !in s.users || !Verifies(s.users[found.value], password) then (s, InvalidCredentials)
    else if !s.users[found.value].active then (s, LoginInactive)
    else if !s.users[found.value].verified then (s, EmailNotVerified)
    else
      var user := found.value;
      var account := s.users[user];
      var upgraded := if account.password.value.parameters != c.hashParameters
                      then s.(users := s.users[user := account.(password := Some(Hash(c, password)))]) else s;
      (Issue(c, upgraded, user, family, None, id, now), LoggedIn(id))
  }

  /** What a query by a unique column answers. */
  ghost predicate FoundBySubject(users: map<UserId, User>, subject: Subject, found: Option<UserId>) {
    match found
    case Some(u) => u in users && users[u].googleSub == Some(subject)
    case None => forall u :: u in users ==> users[u].googleSub != Some(subject)
  }

  ghost predicate FoundByEmail(users: map<UserId, User>, email: Email, found: Option<UserId>) {
    match found
    case Some(u) => u in users && users[u].email == email
    case None => forall u :: u in users ==> users[u].email != email
  }

  /** The subject is looked up first, the address only if nobody has the subject. */
  ghost predicate FoundFor(users: map<UserId, User>, who: Identity, bySubject: Option<UserId>,
                           byEmail: Option<UserId>) {
    && FoundBySubject(users, who.subject, bySubject)
    && if bySubject.Some? then byEmail == None else FoundByEmail(users, who.email, byEmail)
  }

  /** Emails and Google subjects are unique columns. */
  ghost predicate UniqueAccounts(users: map<UserId, User>) {
    && (forall u, v :: u in users && v in users && users[u].email == users[v].email ==> u == v)
    && (forall u, v :: u in users && v in users && SameSubject(users[u], users[v]) ==> u == v)
  }

  predicate SameSubject(a: User, b: User) {
    a.googleSub.Some? && a.googleSub == b.googleSub
  }

  /** The account an identity resolves to: the one with its subject, or else the one with its address,
      which is linked to the subject, or else a new one. */
  function AccountFor(users: map<UserId, User>, who: Identity, bySubject: Option<UserId>, byEmail: Option<UserId>,
                      newUser: UserId)
      : (UserId, User) {
    if bySubject.Some? && bySubject.value in users then (bySubject.value, users[bySubject.value])
    else if byEmail.Some? && byEmail.value in users then
      (byEmail.value, users[byEmail.value].(googleSub := Some(who.subject)))
    else (newUser, User(who.email, Some(who.subject), None, true, false))
  }

  /** `bySubject` and `byEmail` are what the two queries answer, `newUser` the id of a new account. */
  function GoogleStep(c: Settings, s0: State, who: Identity, bySubject: Option<UserId>, byEmail: Option<UserId>,
                      newUser: UserId, id: TokenId, family: FamilyId, now: Time): (State, LoginOutcome) {
    var s := s0.(clock := now);
    var (user, account) := AccountFor(s.users, who, bySubject, byEmail, newUser);
    if !account.active then (s, LoginInactive)
    else
      var signedIn := s.(users := s.users[user := account.(verified := account.verified || who.emailVerified)]);
      (Issue(c, signedIn, user, family, None, id, now), LoggedIn(id))
  }

  function RequestResetStep(c: Settings, s0: State, found: Option<UserId>, reset: ResetId, now: Time): State {
    var s := s0.(clock := now);
    if found.None? || found.value !in s.users || s.users[found.value].password.None? then s
    else
      var user := found.value;
      s.(resets := InvalidateLinks(s.resets, user, now)[reset := MailedLink(user, now + c.resetLifetime, None)])
  }

  function ResetPasswordStep(c: Settings, s0: State, reset: ResetId, newPassword: Password, now: Time)
      : (State, LinkOutcome) {
    var s := s0.(clock := now);
    var outcome := Redeem(s.resets, reset, now);
    if !outcome.Redeemed? then (s, outcome)
    else if s.resets[reset].user !in s.users then (s, UnknownLink)
    else
      var user := s.resets[reset].user;
      (s.(resets := s.resets[reset := s.resets[reset].(usedAt := Some(now))],
          users := s.users[user := s.users[user].(password := Some(Hash(c, newPassword)))],
          tokens := RevokeAllForUser(s.tokens, user, now)),
       Redeemed)
  }

  /** A new account with a password, unverified, and the first link to verify it with. The flag says
      whether the address was free. */
  function RegisterStep(c: Settings, s0: State, email: Email, found: Option<UserId>, password: Password,
                        newUser: UserId, link: LinkId, now: Time): (State, bool) {
    var s := s0.(clock := now);
    if found.Some? then (s, false)
    else
      (s.(users := s.users[newUser := User(email, None, Some(Hash(c, password)), true, false)],
          links := s.links[link := MailedLink(newUser, now + c.linkLifetime, None)]),
       true)
  }

  function ResendStep(c: Settings, s0: State, found: Option<UserId>, link: LinkId, now: Time): State {
    var s := s0.(clock := now);
    if found.None? || found.value !in s.users || s.users[found.value].verified then s
    else
      var user := found.value;
      s.(links := InvalidateLinks(s.links, user, now)[link := MailedLink(user, now + c.linkLifetime, None)])
  }

  function VerifyEmailStep(s0: State, link: LinkId, now: Time): (State, LinkOutcome) {
    var s := s0.(clock := now);
    var outcome := Redeem(s.links, link, now);
    if !outcome.Redeemed? then (s, outcome)
    else if s.links[link].user !in s.users then (s, UnknownLink)
    else
      var user := s.links[link].user;
      (s.(links := s.links[link := s.links[link].(usedAt := Some(now))],
          users := s.users[user := s.users[user].(verified := true)]),
       Redeemed)
  }

  /** An operator vouches for the account, without any mail. */
  function MarkVerifiedStep(s0: State, user: UserId, now: Time): State {
    var s := s0.(clock := now);
    if user in s.users then s.(users := s.users[user := s.users[user].(verified := true)]) else s
  }

  function PurgeStep(s0: State, now: Time): State {
    s0.(clock := now, tokens := WithoutExpired(s0.tokens, now))
  }

  function SetActiveStep(s0: State, user: UserId, active: bool, now: Time): State {
    var s := s0.(clock := now);
    if user in s.users then s.(users := s.users[user := s.users[user].(active := active)]) else s
  }

  // ------------------------------------------------------------------ runs

  datatype Event =
    | Login(email: Email, found: Option<UserId>, password: Password, id: TokenId, family: FamilyId)
    | Google(who: Identity, bySubject: Option<UserId>, byEmail: Option<UserId>, newUser: UserId, id: TokenId,
             family: FamilyId)
    | Refresh(presented: TokenId, id: TokenId)
    | Logout(presented: TokenId)
    | RequestReset(address: Email, account: Option<UserId>, reset: ResetId)
    | ResetPassword(reset: ResetId, newPassword: Password)
    | Register(email: Email, found: Option<UserId>, password: Password, newUser: UserId, link: LinkId)
    | Resend(to: Email, unverified: Option<UserId>, link: LinkId)
    | VerifyEmail(link: LinkId)
    | MarkVerified(user: UserId)
    | SetActive(user: UserId, active: bool)
    | Purge

  function Step(c: Settings, s: State, e: Event, now: Time): State {
    match e
    case Login(_, found, password, id, family) => LoginStep(c, s, found, password, id, family, now).0
    case Google(who, bySubject, byEmail, newUser, id, family) =>
      GoogleStep(c, s, who, bySubject, byEmail, newUser, id, family, now).0
    case Refresh(presented, id) => RefreshStep(c, s, presented, id, now).0
    case Logout(presented) => LogoutStep(s, presented, now)
    case RequestReset(_, found, reset) => RequestResetStep(c, s, found, reset, now)
    case ResetPassword(reset, newPassword) => ResetPasswordStep(c, s, reset, newPassword, now).0
    case Register(email, found, password, newUser, link) =>
      RegisterStep(c, s, email, found, password, newUser, link, now).0
    case Resend(_, found, link) => ResendStep(c, s, found, link, now)
    case VerifyEmail(link) => VerifyEmailStep(s, link, now).0
    case MarkVerified(user) => MarkVerifiedStep(s, user, now)
    case SetActive(user, active) => SetActiveStep(s, user, active, now)
    case Purge => PurgeStep(s, now)
  }

  /** Time does not run backwards, generated identifiers have never been generated before, and queries
      answer from the tables. */
  ghost predicate Enabled(s: State, e: Event, now: Time) {
    && s.clock <= now
    && match e
       case Login(email, found, _, id, family) =>
         id !in s.issued && family !in s.families && FoundByEmail(s.users, email, found)
       case Google(who, bySubject, byEmail, newUser, id, family) =>
         && id !in s.issued && family !in s.families && newUser !in s.users
         && FoundFor(s.users, who, bySubject, byEmail)
       case Refresh(_, id) => id !in s.issued
       case RequestReset(email, found, reset) => reset !in s.resets && FoundByEmail(s.users, email, found)
       case Register(email, found, _, newUser, link) =>
         newUser !in s.users && link !in s.links && FoundByEmail(s.users, email, found)
       case Resend(email, found, link) => link !in s.links && FoundByEmail(s.users, email, found)
       case _ => true
  }

  ghost predicate Initial(s: State) {
    s.tokens == map[] && s.issued == map[] && s.families == map[]
  }

  ghost predicate StepAt(c: Settings, states: seq<State>, events: seq<(Event, Time)>, i: nat)
    requires i < |events| && |states| == |events| + 1
  {
    && Enabled(states[i], events[i].0, events[i].1)
    && states[i + 1] == Step(c, states[i], events[i].0, events[i].1)
  }

  /** `states` is what the `events`, each with its time, do one after another. */
  ghost predicate Run(c: Settings, states: seq<State>, events: seq<(Event, Time)>) {
    && |states| == |events| + 1
    && Initial(states[0])
    && forall i: nat :: i < |events| ==> StepAt(c, states, events, i)
  }

  // ------------------------------------------------------------------ what the tokens look like

  /** What `refresh` asks of a token before it rotates it. */
  predicate Accepts(s: State, t: TokenId, now: Time) {
    && t in s.tokens && s.tokens[t].IsUsable(now)
    && s.tokens[t].user in s.users && s.users[s.tokens[t].user].active
  }

  /** Element `i` is revoked, replaced by element `i + 1`, and does not outlive it. */
  ghost predicate Linked(tokens: map<TokenId, Token>, chain: seq<TokenId>, i: nat)
    requires i + 1 < |chain|
  {
    var older, newer := chain[i], chain[i + 1];
    && older in tokens && newer in tokens
    && tokens[older].IsRevoked()
    && tokens[older].replacedBy == Some(newer)
    && tokens[older].expiresAt <= tokens[newer].expiresAt
  }

  /** The surviving tokens of a family, oldest first, each linked to the next and the last to none. */
  ghost predicate IsChain(tokens: map<TokenId, Token>, family: FamilyId, chain: seq<TokenId>) {
    && Distinct(chain)
    && (forall t :: t in chain <==> t in tokens && tokens[t].family == family)
    && (forall i: nat :: i + 1 < |chain| ==> Linked(tokens, chain, i))
    && (chain != [] ==> tokens[chain[|chain| - 1]].replacedBy == None)
  }

  ghost predicate RowsAccountedFor(c: Settings, s: State) {
    forall t :: t in s.tokens ==>
      && t in s.issued && s.issued[t] == s.tokens[t].user
      && s.tokens[t].family in s.families && s.families[s.tokens[t].family] == s.tokens[t].user
      && s.tokens[t].expiresAt <= s.clock + c.refreshLifetime
  }

  ghost predicate ChainsOnly(s: State) {
    forall f :: f in s.families ==> exists chain :: IsChain(s.tokens, f, chain)
  }

  ghost predicate Inv(c: Settings, s: State) {
    RowsAccountedFor(c, s) && ChainsOnly(s)
  }
}
