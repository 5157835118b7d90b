/** A skill profile row by row: what each event writes, and what it leaves alone. */
module ProfileLaws {
  import opened Common
  import opened SkillProfile

  /** The user whose upload or edit it is. */
  function ActorOf(e: Event): UserId {
    match e
    case Extract(user, _) => user
    case StartLearning(user, _) => user
    case AddSkill(user, _, _) => user
    case UpdateSkill(user, _, _, _) => user
    case ConfirmAll(user) => user
  }

  lemma OthersRowsStand(t: Table, e: Event, key: Key)
    requires Possible(e) && ActorOf(e) != key.0
    ensures RowAt(Step(t, e), key) == RowAt(t, key)
  {
    if e.Extract? {
      UpsertByRow(t, e.user, e.matches, key);
      hide Upsert;
    }
  }

  /** Over every interleaving nobody else touches a user's rows: without an event of their own a row stays
      exactly as it is, and none appears or goes. */
  lemma {:induction false} RowsAreTheUsersOwn(t: Table, events: seq<Event>, key: Key)
    requires forall e :: e in events ==> Possible(e) && ActorOf(e) != key.0
    ensures RowAt(TableAfter(t, events), key) == RowAt(t, key)
  {
    if events != [] {
      var n := |events| - 1;
      assert events[n] in events && forall e :: e in events[..n] ==> e in events;
      RowsAreTheUsersOwn(t, events[..n], key);
      OthersRowsStand(TableAfter(t, events[..n]), events[n], key);
    }
  }

  /** Bulk confirmation changes exactly the caller's suggestions, and of them the status alone. */
  lemma ConfirmingReads(t: Table, user: UserId)
    ensures ConfirmAllStep(t, user).Keys == t.Keys
    ensures forall key :: key in t ==>
              var row, after := t[key], ConfirmAllStep(t, user)[key];
              && after.source == row.source && after.proficiency == row.proficiency
              && after.occurrences == row.occurrences
              && after.status == (if key.0 == user && row.status == Suggested then Confirmed else row.status)
  {
  }

  /** The instance: one user's bulk confirmation leaves another's suggestion a suggestion. */
  lemma ConfirmingSparesOthers(row: Row)
    requires row.status == Suggested
    ensures ConfirmAllStep(map[(2, "go") := row], 1) == map[(2, "go") := row]
  {
  }

  // ------------------------------------------------------------------ uploads

  /** The count an upload may write: the column holds no more. */
  function Written(count: int): (r: int)
    ensures r <= 32767 && (count <= 32767 ==> r == count) && (count > 32767 ==> r == 32767)
  {
    if count <= 32767 then count else 32767
  }

  /** What an upload makes of the skills it mentions: of a skill without a row a suggestion of its own, of a
      suggestion the same with the new count, and of a row decided on nothing; and of all others nothing. */
  lemma UploadsRead(t: Table, user: UserId, matches: seq<(SkillId, int)>, i: nat)
    requires OncePerSkill(matches) && i < |matches|
    ensures var key, count := (user, matches[i].0), matches[i].1;
            var after := Upsert(t, user, matches);
            && key in after
            && (key !in t ==> after[key] == Row(Extracted, Suggested, None, Written(count)))
            && (key in t && t[key].status == Suggested ==> after[key] == t[key].(occurrences := Written(count)))
            && (key in t && t[key].status != Suggested ==> after[key] == t[key])
  {
    var key := (user, matches[i].0);
    UpsertByRow(t, user, matches, key);
    CountOfMention(matches, i);
    hide Upsert, CountFor;
    assert RowAt(Upsert(t, user, matches), key) == Refreshed(RowAt(t, key), Some(matches[i].1));
  }

  lemma {:induction false} CountOfMention(matches: seq<(SkillId, int)>, i: nat)
    requires OncePerSkill(matches) && i < |matches|
    ensures CountFor(matches, matches[i].0) == Some(matches[i].1)
  {
    var n := |matches| - 1;
    if i < n {
      CountOfMention(matches[..n], i);
    }
  }

  lemma UploadsLeaveTheRest(t: Table, user: UserId, matches: seq<(SkillId, int)>, key: Key)
    requires OncePerSkill(matches)
    requires key.0 != user || forall i :: 0 <= i < |matches| ==> matches[i].0 != key.1
    ensures RowAt(Upsert(t, user, matches), key) == RowAt(t, key)
  {
    UpsertByRow(t, user, matches, key);
    if key.0 == user {
      NotMentionedBefore(matches, key.1);
    }
    hide Upsert, CountFor;
  }

  // ------------------------------------------------------------------ edits

  /** Every row but one is as it was. */
  ghost predicate OnlyAt(t: Table, after: Table, key: Key) {
    forall other :: other != key ==> RowAt(after, other) == RowAt(t, other)
  }

  /** What each edit writes: adding confirms and takes the row over, keeping what was known of it; learning
      changes the standing alone; an update changes what is given. */
  lemma EditsRead(t: Table, user: UserId, skill: SkillId, status: Option<SkillStatus>, proficiency: Option<int>)
    ensures var key, after := (user, skill), AddSkillStep(t, user, skill, proficiency);
            && OnlyAt(t, after, key) && key in after
            && after[key].status == Confirmed && after[key].source == Manual
            && (proficiency.Some? ==> after[key].proficiency == proficiency)
            && (proficiency.None? ==> after[key].proficiency == if key in t then t[key].proficiency else None)
            && after[key].occurrences == if key in t then t[key].occurrences else 0
    ensures var key, after := (user, skill), StartLearningStep(t, user, skill);
            && OnlyAt(t, after, key) && key in after && after[key].status == Learning
            && after[key].source == (if key in t then t[key].source else Manual)
            && after[key].proficiency == (if key in t then t[key].proficiency else None)
            && after[key].occurrences == if key in t then t[key].occurrences else 0
    ensures var key, after := (user, skill), UpdateSkillStep(t, user, skill, status, proficiency);
            && OnlyAt(t, after, key) && (key in after <==> key in t)
            && (key in t ==>
                && after[key].source == t[key].source && after[key].occurrences == t[key].occurrences
                && (status.Some? ==> after[key].status == status.value)
                && (status.None? ==> after[key].status == t[key].status)
                && (proficiency.Some? ==> after[key].proficiency == proficiency)
                && (proficiency.None? ==> after[key].proficiency == t[key].proficiency))
  {
  }

  /** Held is what is confirmed or suggested. */
  lemma HeldReads(t: Table, user: UserId, skill: SkillId)
    ensures Holds(t, user, skill)
            <==> (user, skill) in t
                 && (t[(user, skill)].status == Confirmed || t[(user, skill)].status == Suggested)
  {
  }
}
