/** A user's skill profile: what extraction may write, and what only the user may change. */
module SkillProfile {
  import opened Common

  type UserId = nat
  type SkillId = string

  datatype SkillSource = Extracted | Manual
  datatype SkillStatus = Suggested | Confirmed | Rejected | Learning

  predicate CountsAsHeld(s: SkillStatus) {
    s.Confirmed? || s.Suggested?
  }

  datatype Row = Row(source: SkillSource, status: SkillStatus, proficiency: Option<int>, occurrences: int)

  type Key = (UserId, SkillId)
  type Table = map<Key, Row>

  const SMALLINT_MAX := 32767

  function Capped(occurrences: int): int {
    if occurrences > SMALLINT_MAX then SMALLINT_MAX else occurrences
  }

  // ------------------------------------------------------------------ extraction

  /** INSERT ... ON CONFLICT DO UPDATE of the count, WHERE the row is still a suggestion. */
  function UpsertOne(t: Table, user: UserId, match': (SkillId, int)): Table {
    var key := (user, match'.0);
    if key !in t then t[key := Row(Extracted, Suggested, None, Capped(match'.1))]
    else if t[key].status.Suggested? then t[key := t[key].(occurrences := Capped(match'.1))]
    else t
  }

  ghost function Upsert(t: Table, user: UserId, matches: seq<(SkillId, int)>): Table {
    if matches == [] then t
    else UpsertOne(Upsert(t, user, matches[..|matches| - 1]), user, matches[|matches| - 1])
  }

  /** One statement may not touch a row twice; the matcher reports each skill once. */
  ghost predicate OncePerSkill(matches: seq<(SkillId, int)>) {
    forall i, j :: 0 <= i < j < |matches| ==> matches[i].0 != matches[j].0
  }

  /** The count the matches give a skill, if they mention it. */
  ghost function CountFor(matches: seq<(SkillId, int)>, skill: SkillId): Option<int> {
    if matches == [] then None
    else if matches[|matches| - 1].0 == skill then Some(matches[|matches| - 1].1)
    else CountFor(matches[..|matches| - 1], skill)
  }

  ghost function RowAt(t: Table, key: Key): Option<Row> {
    if key in t then Some(t[key]) else None
  }

  /** What extraction makes of one row: a decision of the user's is left alone, a suggestion has its
      count refreshed, and a skill without a row becomes a suggestion. */
  ghost function Refreshed(row: Option<Row>, count: Option<int>): Option<Row> {
    match (row, count)
    case (_, None) => row
    case (None, Some(n)) => Some(Row(Extracted, Suggested, None, Capped(n)))
    case (Some(r), Some(n)) => if r.status.Suggested? then Some(r.(occurrences := Capped(n))) else row
  }

  lemma {:induction false} NotMentionedBefore(matches: seq<(SkillId, int)>, skill: SkillId)
    requires forall i :: 0 <= i < |matches| ==> matches[i].0 != skill
    ensures CountFor(matches, skill) == None
  {
    if matches != [] {
      NotMentionedBefore(matches[..|matches| - 1], skill);
    }
  }

  /** Extraction acts on each row alone, and only on rows of the user whose document it was. */
  lemma {:induction false} UpsertByRow(t: Table, user: UserId, matches: seq<(SkillId, int)>, key: Key)
    requires OncePerSkill(matches)
    ensures RowAt(Upsert(t, user, matches), key)
            == Refreshed(RowAt(t, key), if key.0 == user then CountFor(matches, key.1) else None)
  {
    if matches != [] {
      var n := |matches| - 1;
      UpsertByRow(t, user, matches[..n], key);
      if key == (user, matches[n].0) {
        NotMentionedBefore(matches[..n], key.1);
      }
    }
  }

  predicate RejectedBy(t: Table, user: UserId, skill: SkillId) {
    (user, skill) in t && t[(user, skill)].status.Rejected?
  }

  function WithoutRejected(t: Table, user: UserId, matches: seq<(SkillId, int)>): seq<(SkillId, int)> {
    if matches == [] then []
    else
      var n := |matches| - 1;
      WithoutRejected(t, user, matches[..n]) + (if RejectedBy(t, user, matches[n].0) then [] else [matches[n]])
  }

  lemma {:induction false} FilteredCounts(t: Table, user: UserId, matches: seq<(SkillId, int)>, skill: SkillId)
    ensures CountFor(WithoutRejected(t, user, matches), skill)
            == if RejectedBy(t, user, skill) then None else CountFor(matches, skill)
  {
    if matches != [] {
      var n := |matches| - 1;
      var kept := WithoutRejected(t, user, matches[..n]);
      FilteredCounts(t, user, matches[..n], skill);
      CountSnoc(matches[..n], matches[n], skill);
      CountSnoc(kept, matches[n], skill);
      assert matches == matches[..n] + [matches[n]];
      assert WithoutRejected(t, user, matches) == if RejectedBy(t, user, matches[n].0) then kept
        else kept + [matches[n]];
      hide CountFor, WithoutRejected, RejectedBy;
    }
  }

  lemma CountSnoc(matches: seq<(SkillId, int)>, m: (SkillId, int), skill: SkillId)
    ensures CountFor(matches + [m], skill) == if m.0 == skill then Some(m.1) else CountFor(matches, skill)
  {
    assert (matches + [m])[..|matches|] == matches;
  }

  lemma {:induction false} FilteredIsOncePerSkill(t: Table, user: UserId, matches: seq<(SkillId, int)>)
    requires OncePerSkill(matches)
    ensures forall i :: 0 <= i < |WithoutRejected(t, user, matches)| ==> WithoutRejected(t, user, matches)[i] in matches
    ensures OncePerSkill(WithoutRejected(t, user, matches))
  {
    if matches != [] {
      var n := |matches| - 1;
      FilteredIsOncePerSkill(t, user, matches[..n]);
      var kept := WithoutRejected(t, user, matches[..n]);
      forall i | 0 <= i < |kept|
        ensures kept[i].0 != matches[n].0 && kept[i] in matches
      {
        var j :| 0 <= j < n && matches[..n][j] == kept[i];
        assert matches[j] == kept[i];
      }
    }
  }

  /** The worker filters rejected skills out first, the repository relies on its WHERE clause: the
      table ends up the same. */
  lemma FilteringFirstChangesNothing(t: Table, user: UserId, matches: seq<(SkillId, int)>)
    requires OncePerSkill(matches)
    ensures Upsert(t, user, WithoutRejected(t, user, matches)) == Upsert(t, user, matches)
  {
    var a, b := Upsert(t, user, WithoutRejected(t, user, matches)), Upsert(t, user, matches);
    FilteredIsOncePerSkill(t, user, matches);
    hide WithoutRejected, OncePerSkill, Upsert, CountFor;
    forall key
      ensures RowAt(a, key) == RowAt(b, key)
    {
      FilteredCounts(t, user, matches, key.1);
      UpsertByRow(t, user, matches, key);
      UpsertByRow(t, user, WithoutRejected(t, user, matches), key);
    }
    SameRowsSameTable(a, b);
  }

  lemma SameRowsSameTable(a: Table, b: Table)
    requires forall key :: RowAt(a, key) == RowAt(b, key)
    ensures a == b
  {
    forall key
      ensures key in a <==> key in b
      ensures key in a ==> a[key] == b[key]
    {
      assert RowAt(a, key) == RowAt(b, key);
    }
  }

  /** Parsing the same document again changes nothing. */
  lemma UpsertIsIdempotent(t: Table, user: UserId, matches: seq<(SkillId, int)>)
    requires OncePerSkill(matches)
    ensures Upsert(Upsert(t, user, matches), user, matches) == Upsert(t, user, matches)
  {
    var once := Upsert(t, user, matches);
    forall key
      ensures RowAt(Upsert(once, user, matches), key) == RowAt(once, key)
    {
      UpsertByRow(t, user, matches, key);
      UpsertByRow(once, user, matches, key);
    }
    SameRowsSameTable(Upsert(once, user, matches), once);
  }

  // ------------------------------------------------------------------ what the user does

  datatype Event =
    | Extract(user: UserId, matches: seq<(SkillId, int)>)
    | StartLearning(user: UserId, skill: SkillId)
    | AddSkill(user: UserId, skill: SkillId, proficiency: Option<int>)
    | UpdateSkill(user: UserId, skill: SkillId, status: Option<SkillStatus>, newProficiency: Option<int>)
    | ConfirmAll(user: UserId)

  function OrElse(a: Option<int>, b: Option<int>): Option<int> {
    if a.Some? then a else b
  }

  function StartLearningStep(t: Table, user: UserId, skill: SkillId): Table {
    var key := (user, skill);
    t[key := if key in t then t[key].(status := Learning) else Row(Manual, Learning, None, 0)]
  }

  function AddSkillStep(t: Table, user: UserId, skill: SkillId, proficiency: Option<int>): Table {
    var key := (user, skill);
    t[key := if key in t
      then t[key].(status := Confirmed, source := Manual, proficiency := OrElse(proficiency, t[key].proficiency))
             else Row(Manual, Confirmed, proficiency, 0)]
  }

  function UpdateSkillStep(t: Table, user: UserId, skill: SkillId, status: Option<SkillStatus>,
                           proficiency: Option<int>): Table {
    var key := (user, skill);
    if key !in t then t
    else t[key := t[key].(status := if status.Some? then status.value else t[key].status,
                          proficiency := OrElse(proficiency, t[key].proficiency))]
  }

  function ConfirmAllStep(t: Table, user: UserId): Table {
    map key | key in t :: if key.0 == user && t[key].status.Suggested? then t[key].(status := Confirmed) else t[key]
  }

  ghost function Step(t: Table, e: Event): Table {
    match e
    case Extract(user, matches) => Upsert(t, user, matches)
    case StartLearning(user, skill) => StartLearningStep(t, user, skill)
    case AddSkill(user, skill, proficiency) => AddSkillStep(t, user, skill, proficiency)
    case UpdateSkill(user, skill, status, proficiency) => UpdateSkillStep(t, user, skill, status, proficiency)
    case ConfirmAll(user) => ConfirmAllStep(t, user)
  }

  ghost predicate Possible(e: Event) {
    e.Extract? ==> OncePerSkill(e.matches)
  }

  /** The user names this skill of theirs. */
  predicate ActsOn(e: Event, key: Key) {
    match e
    case Extract(_, _) => false
    case StartLearning(user, skill) => key == (user, skill)
    case AddSkill(user, skill, _) => key == (user, skill)
    case UpdateSkill(user, skill, _, _) => key == (user, skill)
    case ConfirmAll(_) => false
  }

  ghost function TableAfter(t: Table, events: seq<Event>): Table {
    if events == [] then t else Step(TableAfter(t, events[..|events| - 1]), events[|events| - 1])
  }

  /** However uploads and edits interleave, a row the user has ruled on, be it confirmed, rejected
      or being learnt, stays exactly as it is until they name that skill again. */
  lemma {:induction false} DecisionsStand(t: Table, events: seq<Event>, key: Key)
    requires forall e :: e in events ==> Possible(e) && !ActsOn(e, key)
    requires key in t && !t[key].status.Suggested?
    ensures key in TableAfter(t, events) && TableAfter(t, events)[key] == t[key]
  {
    if events != [] {
      var n := |events| - 1;
      assert events[n] in events && forall e :: e in events[..n] ==> e in events;
      DecisionsStand(t, events[..n], key);
      if events[n].Extract? {
        UpsertByRow(TableAfter(t, events[..n]), events[n].user, events[n].matches, key);
      }
    }
  }

  ghost predicate Holds(t: Table, user: UserId, skill: SkillId) {
    (user, skill) in t && CountsAsHeld(t[(user, skill)].status)
  }

  /** What the user says of a skill is what the profile then holds, whatever extraction put there. */
  lemma TheUserHasTheLastWord(t: Table, user: UserId, skill: SkillId, proficiency: Option<int>, status: SkillStatus)
    ensures Holds(AddSkillStep(t, user, skill, proficiency), user, skill)
    ensures !Holds(StartLearningStep(t, user, skill), user, skill)
    ensures (user, skill) in t ==>
              (Holds(UpdateSkillStep(t, user, skill, Some(status), proficiency), user, skill) <==> CountsAsHeld(status))
    ensures Holds(UpdateSkillStep(t, user, skill, None, proficiency), user, skill) <==> Holds(t, user, skill)
    ensures forall other, u: UserId :: (u, other) != (user, skill) ==>
              && (Holds(AddSkillStep(t, user, skill, proficiency), u, other) <==> Holds(t, u, other))
              && (Holds(StartLearningStep(t, user, skill), u, other) <==> Holds(t, u, other))
              && (Holds(UpdateSkillStep(t, user, skill, Some(status), proficiency), u, other) <==> Holds(t, u, other))
  {
  }

  /** Confirming all suggestions changes no score: suggested skills were held already. */
  lemma ConfirmingAllChangesNothingHeld(t: Table, user: UserId)
    ensures forall u: UserId, skill :: Holds(ConfirmAllStep(t, user), u, skill) <==> Holds(t, u, skill)
    ensures forall skill :: (user, skill) in t ==> !ConfirmAllStep(t, user)[(user, skill)].status.Suggested?
  {
  }

  /** A rejected skill is not held again until the user acts on it. */
  lemma RejectedStaysUnheld(t: Table, events: seq<Event>, user: UserId, skill: SkillId)
    requires forall e :: e in events ==> Possible(e) && !ActsOn(e, (user, skill))
    requires (user, skill) in t && t[(user, skill)].status.Rejected?
    ensures !Holds(TableAfter(t, events), user, skill)
  {
    DecisionsStand(t, events, (user, skill));
  }

  /** And without naming a skill nobody stops holding it either: uploads and bulk confirmation only
      ever add to what is held. */
  lemma {:induction false} HeldStaysHeld(t: Table, events: seq<Event>, user: UserId, skill: SkillId)
    requires forall e :: e in events ==> Possible(e) && !ActsOn(e, (user, skill))
    requires Holds(t, user, skill)
    ensures Holds(TableAfter(t, events), user, skill)
  {
    if events != [] {
      var n := |events| - 1;
      assert events[n] in events && forall e :: e in events[..n] ==> e in events;
      HeldStaysHeld(t, events[..n], user, skill);
      if events[n].Extract? {
        UpsertByRow(TableAfter(t, events[..n]), events[n].user, events[n].matches, (user, skill));
      }
    }
  }

  // ------------------------------------------------------------------ the table in place

  datatype EditOutcome = Saved | SkillNotFound | SkillNotInProfile

  class ProfileStore {
    const vocabulary: set<SkillId>
    var rows: Table

    constructor (vocabulary: set<SkillId>, rows: Table)
      ensures this.vocabulary == vocabulary && this.rows == rows
    {
      this.vocabulary, this.rows := vocabulary, rows;
    }

    /** `upsert_extracted`. */
    method UpsertExtracted(user: UserId, matches: seq<(SkillId, int)>)
      requires OncePerSkill(matches)
      modifies this
      ensures rows == Upsert(old(rows), user, matches)
    {
      for i := 0 to |matches|
        invariant rows == Upsert(old(rows), user, matches[..i])
      {
        assert matches[..i + 1][..i] == matches[..i];
        var (skill, occurrences) := matches[i];
        var key := (user, skill);
        if key !in rows {
          rows := rows[key := Row(Extracted, Suggested, None, Capped(occurrences))];
        } else if rows[key].status.Suggested? {
          rows := rows[key := rows[key].(occurrences := Capped(occurrences))];
        }
      }
      assert matches[..|matches|] == matches;
    }

    /** `_extract_skills`, from the matches on: the worker's own copy of the same statement. */
    method ExtractSkills(user: UserId, found: seq<(SkillId, int)>) returns (written: int)
      requires OncePerSkill(found)
      modifies this
      ensures rows == Upsert(old(rows), user, found)
      ensures written == |WithoutRejected(old(rows), user, found)|
    {
      var rejected := set key | key in rows && key.0 == user && rows[key].status.Rejected? :: key.1;
      var kept: seq<(SkillId, int)> := [];
      for i := 0 to |found|
        invariant kept == WithoutRejected(rows, user, found[..i])
      {
        assert found[..i + 1][..i] == found[..i];
        assert found[i].0 in rejected <==> RejectedBy(rows, user, found[i].0);
        if found[i].0 !in rejected {
          kept := kept + [found[i]];
        }
      }
      assert found[..|found|] == found;
      FilteringFirstChangesNothing(rows, user, found);
      written := |kept|;
      if kept != [] {
        FilteredIsOncePerSkill(rows, user, found);
        UpsertExtracted(user, kept);
      }
    }

    method StartLearning(user: UserId, skill: SkillId) returns (outcome: EditOutcome)
      modifies this
      ensures outcome == if skill in vocabulary then Saved else SkillNotFound
      ensures rows == if outcome.Saved? then StartLearningStep(old(rows), user, skill) else old(rows)
    {
      if skill !in vocabulary {
        return SkillNotFound;
      }
      var key := (user, skill);
      if key in rows {
        rows := rows[key := rows[key].(status := Learning)];
      } else {
        rows := rows[key := Row(Manual, Learning, None, 0)];
      }
      return Saved;
    }

    method AddSkill(user: UserId, skill: SkillId, proficiency: Option<int>) returns (outcome: EditOutcome)
      modifies this
      ensures outcome == if skill in vocabulary then Saved else SkillNotFound
      ensures rows == if outcome.Saved? then AddSkillStep(old(rows), user, skill, proficiency) else old(rows)
    {
      if skill !in vocabulary {
        return SkillNotFound;
      }
      var key := (user, skill);
      if key in rows {
        var row := rows[key].(status := Confirmed, source := Manual);
        if proficiency.Some? {
          row := row.(proficiency := proficiency);
        }
        rows := rows[key := row];
        return Saved;
      }
      rows := rows[key := Row(Manual, Confirmed, proficiency, 0)];
      return Saved;
    }

    method UpdateSkill(user: UserId, skill: SkillId, status: Option<SkillStatus>, proficiency: Option<int>)
        returns (outcome: EditOutcome)
      modifies this
      ensures outcome == if (user, skill) in old(rows) then Saved else SkillNotInProfile
      ensures rows == UpdateSkillStep(old(rows), user, skill, status, proficiency)
    {
      var key := (user, skill);
      if key !in rows {
        return SkillNotInProfile;
      }
      var row := rows[key];
      if status.Some? {
        row := row.(status := status.value);
      }
      if proficiency.Some? {
        row := row.(proficiency := proficiency);
      }
      rows := rows[key := row];
      return Saved;
    }

    method ConfirmAllSuggestions(user: UserId) returns (confirmed: int)
      modifies this
      ensures rows == ConfirmAllStep(old(rows), user)
      ensures confirmed == |set key | key in old(rows) && key.0 == user && old(rows)[key].status.Suggested?|
    {
      var suggested := set key | key in rows && key.0 == user && rows[key].status.Suggested?;
      ghost var before := rows;
      var rest := suggested;
      while rest != {}
        invariant rest <= suggested && rows.Keys == before.Keys
        invariant forall key :: key in before ==>
                    rows[key] == if key in suggested - rest then before[key].(status := Confirmed) else before[key]
        decreases |rest|
      {
        var key :| key in rest;
        rows := rows[key := rows[key].(status := Confirmed)];
        rest := rest - {key};
      }
      confirmed := |suggested|;
    }
  }
}
