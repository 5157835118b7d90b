/** Links sent by mail, to verify an address or to reset a password: single use, and one live at a time. */
module MailedLinks {
  import opened Common
  import opened SessionModel

  /** Links belong to accounts, and only the newest of an account is unused. */
  ghost predicate OneLiveLinkEach(links: map<nat, MailedLink>, users: map<UserId, User>) {
    && (forall l :: l in links ==> links[l].user in users)
    && forall l, m :: l in links && m in links && BothLive(links[l], links[m]) ==> l == m
  }

  predicate BothLive(a: MailedLink, b: MailedLink) {
    a.user == b.user && a.usedAt.None? && b.usedAt.None?
  }

  ghost predicate LinksInOrder(s: State) {
    OneLiveLinkEach(s.links, s.users) && OneLiveLinkEach(s.resets, s.users)
  }

  lemma NewLinkReplaces(links: map<nat, MailedLink>, users: map<UserId, User>, user: UserId, link: nat, expiry: Time,
                        now: Time)
    requires OneLiveLinkEach(links, users) && link !in links && user in users
    ensures OneLiveLinkEach(InvalidateLinks(links, user, now)[link := MailedLink(user, expiry, None)], users)
  {
  }

  lemma UsingKeepsLinks(links: map<nat, MailedLink>, users: map<UserId, User>, link: nat, now: Time)
    requires OneLiveLinkEach(links, users) && link in links
    ensures OneLiveLinkEach(links[link := links[link].(usedAt := Some(now))], users)
  {
  }

  lemma MoreUsersKeepLinks(links: map<nat, MailedLink>, users: map<UserId, User>, users': map<UserId, User>)
    requires OneLiveLinkEach(links, users) && users.Keys <= users'.Keys
    ensures OneLiveLinkEach(links, users')
  {
  }

  lemma FirstLink(links: map<nat, MailedLink>, users: map<UserId, User>, user: UserId, account: User, link: nat,
                  expiry: Time)
    requires OneLiveLinkEach(links, users) && link !in links && user !in users
    ensures OneLiveLinkEach(links[link := MailedLink(user, expiry, None)], users[user := account])
  {
  }

  lemma StepKeepsLinks(c: Settings, s: State, e: Event, now: Time)
    requires LinksInOrder(s) && Enabled(s, e, now)
    ensures LinksInOrder(Step(c, s, e, now))
  {
    match e
    case Register(email, found, password, newUser, link) =>
      RegisterKeepsLinks(c, s, email, found, password, newUser, link, now);
    case Resend(_, found, link) => ResendKeepsLinks(c, s, found, link, now);
    case VerifyEmail(link) => VerifyKeepsLinks(s, link, now);
    case RequestReset(_, found, reset) => RequestKeepsLinks(c, s, found, reset, now);
    case ResetPassword(reset, newPassword) => ResetKeepsLinks(c, s, reset, newPassword, now);
    case _ =>
      OtherStepsKeepLinks(c, s, e, now);
      MoreUsersKeepLinks(s.links, s.users, Step(c, s, e, now).users);
      MoreUsersKeepLinks(s.resets, s.users, Step(c, s, e, now).users);
      hide Step, OneLiveLinkEach;
  }

  lemma OtherStepsKeepLinks(c: Settings, s: State, e: Event, now: Time)
    requires !e.Register? && !e.Resend? && !e.VerifyEmail? && !e.RequestReset? && !e.ResetPassword?
    requires Enabled(s, e, now)
    ensures Step(c, s, e, now).links == s.links && Step(c, s, e, now).resets == s.resets
    ensures s.users.Keys <= Step(c, s, e, now).users.Keys
  {
    hide FoundByEmail, FoundFor, RevokeFamily, WithoutExpired, AccountFor;
  }

  lemma RegisterKeepsLinks(c: Settings, s: State, email: Email, found: Option<UserId>, password: Password,
                           newUser: UserId, link: LinkId, now: Time)
    requires LinksInOrder(s) && newUser !in s.users && link !in s.links
    ensures LinksInOrder(RegisterStep(c, s, email, found, password, newUser, link, now).0)
  {
    var account := User(email, None, Some(Hash(c, password)), true, false);
    FirstLink(s.links, s.users, newUser, account, link, now + c.linkLifetime);
    MoreUsersKeepLinks(s.resets, s.users, s.users[newUser := account]);
    hide OneLiveLinkEach;
  }

  lemma ResendKeepsLinks(c: Settings, s: State, found: Option<UserId>, link: LinkId, now: Time)
    requires LinksInOrder(s) && link !in s.links
    ensures LinksInOrder(ResendStep(c, s, found, link, now))
  {
    hide OneLiveLinkEach, InvalidateLinks;
    if found.Some? && found.value in s.users {
      NewLinkReplaces(s.links, s.users, found.value, link, now + c.linkLifetime, now);
    }
    assert ResendStep(c, s, found, link, now).users == s.users;
  }

  lemma RequestKeepsLinks(c: Settings, s: State, found: Option<UserId>, reset: ResetId, now: Time)
    requires LinksInOrder(s) && reset !in s.resets
    ensures LinksInOrder(RequestResetStep(c, s, found, reset, now))
  {
    hide OneLiveLinkEach, InvalidateLinks;
    if found.Some? && found.value in s.users {
      NewLinkReplaces(s.resets, s.users, found.value, reset, now + c.resetLifetime, now);
    }
    assert RequestResetStep(c, s, found, reset, now).users == s.users;
  }

  lemma VerifyKeepsLinks(s: State, link: LinkId, now: Time)
    requires LinksInOrder(s)
    ensures LinksInOrder(VerifyEmailStep(s, link, now).0)
  {
    var users := VerifyEmailStep(s, link, now).0.users;
    MoreUsersKeepLinks(s.links, s.users, users);
    MoreUsersKeepLinks(s.resets, s.users, users);
    if link in s.links {
      UsingKeepsLinks(s.links, users, link, now);
    }
    hide OneLiveLinkEach;
  }

  lemma ResetKeepsLinks(c: Settings, s: State, reset: ResetId, newPassword: Password, now: Time)
    requires LinksInOrder(s)
    ensures LinksInOrder(ResetPasswordStep(c, s, reset, newPassword, now).0)
  {
    var users := ResetPasswordStep(c, s, reset, newPassword, now).0.users;
    MoreUsersKeepLinks(s.links, s.users, users);
    MoreUsersKeepLinks(s.resets, s.users, users);
    if reset in s.resets {
      UsingKeepsLinks(s.resets, users, reset, now);
    }
    hide OneLiveLinkEach, RevokeAllForUser;
  }

  /** Two links of one account that can both be redeemed. */
  predicate BothWork(links: map<nat, MailedLink>, l: nat, m: nat, now: Time) {
    && Redeem(links, l, now).Redeemed? && Redeem(links, m, now).Redeemed?
    && links[l].user == links[m].user
  }

  /** In every state of a run at most one verification link, and at most one reset link, of an account
      can still be redeemed. */
  lemma {:induction false} OnlyOneLinkWorks(c: Settings, states: seq<State>, events: seq<(Event, Time)>, j: nat)
    requires Run(c, states, events) && LinksInOrder(states[0]) && j < |states|
    ensures LinksInOrder(states[j])
    ensures forall l, m, now :: BothWork(states[j].links, l, m, now) ==> l == m
    ensures forall l, m, now :: BothWork(states[j].resets, l, m, now) ==> l == m
  {
    if j > 0 {
      OnlyOneLinkWorks(c, states, events, j - 1);
      assert StepAt(c, states, events, j - 1);
      StepKeepsLinks(c, states[j - 1], events[j - 1].0, events[j - 1].1);
    }
    hide Step, Enabled, Run;
  }

  ghost predicate IsSpent(links: map<nat, MailedLink>, link: nat) {
    link in links && links[link].usedAt.Some?
  }

  lemma StepKeepsSpent(c: Settings, s: State, e: Event, now: Time, link: nat)
    requires Enabled(s, e, now)
    ensures IsSpent(s.links, link) ==> IsSpent(Step(c, s, e, now).links, link)
    ensures IsSpent(s.resets, link) ==> IsSpent(Step(c, s, e, now).resets, link)
  {
    hide FoundByEmail, FoundFor, RevokeFamily, RevokeAllForUser, WithoutExpired;
  }

  /** Single use: once redeemed, or replaced by a newer one, a link is never redeemed at any later state of
      any run. */
  lemma {:induction false} SpentLinkNeverWorks(c: Settings, states: seq<State>, events: seq<(Event, Time)>,
        i: nat, j: nat, link: nat, now: Time)
    requires Run(c, states, events) && i <= j < |states|
    ensures IsSpent(states[i].links, link) ==> VerifyEmailStep(states[j], link, now).1 == AlreadyUsed
    ensures IsSpent(states[i].resets, link) ==> Redeem(states[j].resets, link, now) == AlreadyUsed
    ensures IsSpent(states[i].links, link) ==> IsSpent(states[j].links, link)
    ensures IsSpent(states[i].resets, link) ==> IsSpent(states[j].resets, link)
    decreases j - i
  {
    if i < j {
      SpentLinkNeverWorks(c, states, events, i, j - 1, link, now);
      assert StepAt(c, states, events, j - 1);
      StepKeepsSpent(c, states[j - 1], events[j - 1].0, events[j - 1].1, link);
      hide Step, Enabled;
    }
  }
}
