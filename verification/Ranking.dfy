/** Ranking candidates for a recruiter, against scoring one user at a time. */
module Ranking {
  import opened Common
  import opened Sorting
  import opened Scoring
  import SkillProfile

  type UserId = nat

  datatype UserRow = UserRow(id: UserId, fullName: Option<string>, jobSeeker: bool, active: bool, createdAt: int)
  datatype UserSkillRow = UserSkillRow(user: UserId, skill: SkillId, status: SkillProfile.SkillStatus)
  datatype ResumeRow = ResumeRow(user: UserId, complete: bool, embedding: Option<Vector>, createdAt: int)

  datatype Database = Database(users: seq<UserRow>, userSkills: seq<UserSkillRow>, resumes: seq<ResumeRow>)

  datatype Job = Job(createdBy: UserId, isPublic: bool, required: seq<RequiredSkill>, embedding: Option<Vector>)

  // ------------------------------------------------------------------ per-user queries

  ghost function HeldSkills(db: Database, user: UserId): set<SkillId> {
    set r | r in db.userSkills && r.user == user && SkillProfile.CountsAsHeld(r.status) :: r.skill
  }

  predicate Embedded(r: ResumeRow) {
    r.complete && r.embedding.Some?
  }

  /** `latest_embedded_for_user`: no embedded resume, or one that no other of the user's is newer than. */
  ghost predicate IsLatest(db: Database, user: UserId, latest: Option<ResumeRow>) {
    match latest
    case None => forall r :: r in db.resumes && r.user == user ==> !Embedded(r)
    case Some(newest) =>
      && newest in db.resumes && newest.user == user && Embedded(newest)
      && forall r :: r in db.resumes && r.user == user && Embedded(r) ==> r.createdAt <= newest.createdAt
  }

  /** No two embedded resumes of one user were created at the same moment. */
  ghost predicate DistinctMoments(db: Database) {
    forall r, r' :: r in db.resumes && r' in db.resumes && SameMoment(r, r') ==> r == r'
  }

  predicate SameMoment(r: ResumeRow, r': ResumeRow) {
    r.user == r'.user && Embedded(r) && Embedded(r') && r.createdAt == r'.createdAt
  }

  function Similarity(resume: Option<Vector>, job: Option<Vector>, root: real -> real): Option<real> {
    if resume.Some? && job.Some? then CosineSimilarity(resume.value, job.value, root) else None
  }

  /** `MatchService.score` for a user allowed to see the job; None when the job is hidden from them. */
  function ScoreForUser(held: set<SkillId>, latest: Option<ResumeRow>, user: UserId, job: Job, root: real -> real,
                        rounding: Rounding): Option<MatchResult> {
    if job.createdBy != user && !job.isPublic then None
    else
      Some(ScoreMatch(held, job.required, Similarity(EmbeddingOf(latest), job.embedding, root), rounding))
  }

  function EmbeddingOf(latest: Option<ResumeRow>): Option<Vector> {
    if latest.Some? then latest.value.embedding else None
  }

  // ------------------------------------------------------------------ load_candidate_profiles

  datatype Profile = Profile(user: UserId, fullName: Option<string>, skills: set<SkillId>, embedding: Option<Vector>)

  predicate NewestUserFirst(a: UserRow, b: UserRow) {
    a.createdAt >= b.createdAt
  }

  predicate NewestResumeFirst(a: ResumeRow, b: ResumeRow) {
    a.createdAt >= b.createdAt
  }

  function Filter<T(!new)>(s: seq<T>, keep: T -> bool): (r: seq<T>)
    ensures forall x :: x in r <==> x in s && keep(x)
  {
    if s == [] then []
    else Filter(s[..|s| - 1], keep) + (if keep(s[|s| - 1]) then [s[|s| - 1]] else [])
  }

  function Take<T>(s: seq<T>, limit: nat): seq<T> {
    if |s| <= limit then s else s[..limit]
  }

  function Seekers(db: Database): seq<UserRow> {
    Filter(db.users, (u: UserRow) => u.jobSeeker && u.active)
  }

  /** The pool: active job seekers, newest account first, at most `limit`. */
  function Pool(db: Database, limit: nat): seq<UserRow> {
    Take(Sort(Seekers(db), NewestUserFirst), limit)
  }

  /** A profile says what the per-user queries would have said. */
  ghost predicate Faithful(db: Database, p: Profile) {
    && p.skills == HeldSkills(db, p.user)
    && exists latest :: IsLatest(db, p.user, latest) && p.embedding == EmbeddingOf(latest)
  }

  /** Second read: every held skill of the pool, grouped by user. */
  method GroupSkills(db: Database, pool: set<UserId>) returns (grouped: map<UserId, set<SkillId>>)
    ensures forall u :: u in grouped ==> grouped[u] == HeldSkills(db, u)
    ensures forall u :: u in pool && HeldSkills(db, u) != {} ==> u in grouped
  {
    grouped := map[];
    assert forall u :: HeldIn(db.userSkills, u) == HeldSkills(db, u);
    NothingHeldYet(db.userSkills);
    assert IsGrouping(db.userSkills[..0], pool, grouped);
    hide HeldSkills, HeldIn, IsGrouping;
    for i := 0 to |db.userSkills|
      invariant IsGrouping(db.userSkills[..i], pool, grouped)
    {
      var row := db.userSkills[i];
      GroupingGrows(db.userSkills, i, pool, grouped);
      if row.user in pool && SkillProfile.CountsAsHeld(row.status) {
        grouped := grouped[row.user := (if row.user in grouped then grouped[row.user] else {}) + {row.skill}];
      }
    }
    assert db.userSkills[..|db.userSkills|] == db.userSkills;
    GroupingMeans(db.userSkills, pool, grouped);
  }

  /** The users of the pool with a held skill in `rows`, each with those skills. */
  ghost predicate IsGrouping(rows: seq<UserSkillRow>, pool: set<UserId>, grouped: map<UserId, set<SkillId>>) {
    forall u :: (u in grouped <==> u in pool && HeldIn(rows, u) != {})
      && (u in grouped ==> grouped[u] == HeldIn(rows, u))
  }

  lemma GroupingMeans(rows: seq<UserSkillRow>, pool: set<UserId>, grouped: map<UserId, set<SkillId>>)
    requires IsGrouping(rows, pool, grouped)
    ensures forall u :: u in grouped ==> grouped[u] == HeldIn(rows, u)
    ensures forall u :: u in pool && HeldIn(rows, u) != {} ==> u in grouped
  {
    hide HeldIn;
  }

  lemma GroupingGrows(rows: seq<UserSkillRow>, i: nat, pool: set<UserId>, grouped: map<UserId, set<SkillId>>)
    requires i < |rows| && IsGrouping(rows[..i], pool, grouped)
    ensures var row := rows[i];
            IsGrouping(rows[..i + 1], pool,
                       if row.user in pool && SkillProfile.CountsAsHeld(row.status)
                       then grouped[row.user := (if row.user in grouped then grouped[row.user] else {}) + {row.skill}]
                       else grouped)
  {
    HeldInSnoc(rows, i);
    hide HeldIn;
  }

  lemma NothingHeldYet(rows: seq<UserSkillRow>)
    ensures forall u :: HeldIn(rows[..0], u) == {}
  {
  }

  ghost function HeldIn(rows: seq<UserSkillRow>, user: UserId): set<SkillId> {
    set r | r in rows && r.user == user && SkillProfile.CountsAsHeld(r.status) :: r.skill
  }

  lemma HeldInSnoc(rows: seq<UserSkillRow>, i: nat)
    requires i < |rows|
    ensures forall u :: HeldIn(rows[..i + 1], u)
                     == HeldIn(rows[..i], u)
                       + (if rows[i].user == u && SkillProfile.CountsAsHeld(rows[i].status) then {rows[i].skill}
                          else {})
  {
    assert rows[..i + 1] == rows[..i] + [rows[i]];
    forall r
      ensures r in rows[..i + 1] <==> r in rows[..i] || r == rows[i]
    {
    }
  }

  ghost predicate IsNewestVector(db: Database, user: UserId, v: Vector) {
    exists newest :: IsLatest(db, user, Some(newest)) && newest.embedding == Some(v)
  }

  /** Third read: embedded resumes of the pool, newest first; the first row seen for a user wins. */
  method NewestEmbeddings(db: Database, pool: set<UserId>) returns (embeddings: map<UserId, Vector>)
    ensures forall u :: u in embeddings ==> IsNewestVector(db, u, embeddings[u])
    ensures forall u :: u in pool && u !in embeddings ==> IsLatest(db, u, None)
  {
    var rows := EmbeddedRows(db, pool);
    hide IsLatest;
    embeddings := map[];
    for i := 0 to |rows|
      invariant forall u :: u in embeddings ==> IsNewestVector(db, u, embeddings[u])
      invariant forall j :: 0 <= j < i ==> rows[j].user in embeddings
    {
      var row := rows[i];
      assert row in rows;
      if row.user !in embeddings {
        FirstSeenIsNewest(db, pool, rows, i, embeddings.Keys);
        embeddings := embeddings[row.user := row.embedding.value];
      }
    }
    assert forall r :: r in rows ==> r.user in embeddings;
    UnseenHaveNone(db, pool, rows, embeddings.Keys);
  }

  method EmbeddedRows(db: Database, pool: set<UserId>) returns (rows: seq<ResumeRow>)
    ensures Sorted(rows, NewestResumeFirst)
    ensures forall r :: r in rows <==> r in db.resumes && r.user in pool && Embedded(r)
  {
    var selected := Filter(db.resumes, (r: ResumeRow) => r.user in pool && Embedded(r));
    rows := Sort(selected, NewestResumeFirst);
    SortSorts(selected, NewestResumeFirst);
    SortMembers(selected, NewestResumeFirst);
  }

  lemma UnseenHaveNone(db: Database, pool: set<UserId>, rows: seq<ResumeRow>, seen: set<UserId>)
    requires forall r :: r in rows <==> r in db.resumes && r.user in pool && Embedded(r)
    requires forall r :: r in rows ==> r.user in seen
    ensures forall u :: u in pool && u !in seen ==> IsLatest(db, u, None)
  {
    forall u, r | u in pool && u !in seen && r in db.resumes && r.user == u
      ensures !Embedded(r)
    {
      assert Embedded(r) ==> r in rows;
    }
  }

  lemma FirstSeenIsNewest(db: Database, pool: set<UserId>, rows: seq<ResumeRow>, i: nat, seen: set<UserId>)
    requires Sorted(rows, NewestResumeFirst) && i < |rows|
    requires forall r :: r in rows <==> r in db.resumes && r.user in pool && Embedded(r)
    requires forall j :: 0 <= j < i ==> rows[j].user in seen
    requires rows[i].user !in seen
    ensures IsLatest(db, rows[i].user, Some(rows[i]))
  {
    assert rows[i] in rows;
    forall r | r in db.resumes && r.user == rows[i].user && Embedded(r)
      ensures r.createdAt <= rows[i].createdAt
    {
      assert r in rows;
      var j :| 0 <= j < |rows| && rows[j] == r;
      assert j >= i;
      assert j == i || NewestResumeFirst(rows[i], rows[j]);
    }
  }

  ghost predicate InPool(pool: seq<UserRow>, p: Profile) {
    exists u :: u in pool && u.id == p.user && u.fullName == p.fullName
  }

  ghost predicate Represented(profiles: seq<Profile>, user: UserId) {
    exists p :: p in profiles && p.user == user
  }

  function IdOf(u: UserRow): UserId { u.id }

  function ProfileUser(p: Profile): UserId { p.user }

  function LineUser(c: RankedCandidate): UserId { c.user }

  /** No user occurs twice; for `db.users` this is the primary key. */
  ghost predicate OnePer<T>(user: T -> UserId, s: seq<T>) {
    Distinct(Map(user, s))
  }

  lemma OnePerSnoc<T>(user: T -> UserId, s: seq<T>, x: T)
    requires OnePer(user, s) && forall i :: 0 <= i < |s| ==> user(s[i]) != user(x)
    ensures OnePer(user, s + [x])
  {
    forall i, j | 0 <= i < j < |s + [x]|
      ensures Map(user, s + [x])[i] != Map(user, s + [x])[j]
    {
      if j < |s| {
        assert Map(user, s)[i] != Map(user, s)[j];
      }
    }
  }

  lemma OnePerPrefix<T>(user: T -> UserId, s: seq<T>, i: nat)
    requires i <= |s| && OnePer(user, s)
    ensures OnePer(user, s[..i])
  {
    assert Map(user, s[..i]) == Map(user, s)[..i];
  }

  lemma OnePerPermuted<T>(user: T -> UserId, s: seq<T>, t: seq<T>)
    requires multiset(s) == multiset(t) && OnePer(user, s)
    ensures OnePer(user, t)
  {
    MapPermutation(user, s, t);
    PermutationDistinct(Map(user, s), Map(user, t));
  }

  lemma {:induction false} OnePerFiltered<T(!new)>(user: T -> UserId, s: seq<T>, keep: T -> bool)
    requires OnePer(user, s)
    ensures OnePer(user, Filter(s, keep))
  {
    if s != [] {
      var n := |s| - 1;
      OnePerPrefix(user, s, n);
      OnePerFiltered(user, s[..n], keep);
      var kept := Filter(s[..n], keep);
      forall i | 0 <= i < |kept|
        ensures user(kept[i]) != user(s[n])
      {
        assert kept[i] in s[..n];
        var j :| 0 <= j < n && s[j] == kept[i];
        assert Map(user, s)[j] != Map(user, s)[n];
      }
      OnePerSnoc(user, kept, s[n]);
      assert kept + [] == kept;
    }
  }

  lemma PoolListsUsersOnce(db: Database, limit: nat)
    requires OnePer(IdOf, db.users)
    ensures OnePer(IdOf, Pool(db, limit))
  {
    var seekers := Seekers(db);
    OnePerFiltered(IdOf, db.users, (u: UserRow) => u.jobSeeker && u.active);
    var sorted := Sort(seekers, NewestUserFirst);
    OnePerPermuted(IdOf, seekers, sorted);
    if limit < |sorted| {
      OnePerPrefix(IdOf, sorted, limit);
    }
  }

  /** Every pool member with a held skill, once, and nobody else, each as the per-user queries see them. */
  ghost predicate IsLoad(db: Database, pool: seq<UserRow>, profiles: seq<Profile>) {
    && (forall p :: p in profiles ==> Faithful(db, p) && p.skills != {} && InPool(pool, p))
    && (forall u :: u in pool && HeldSkills(db, u.id) != {} ==> Represented(profiles, u.id))
    && (OnePer(IdOf, pool) ==> OnePer(ProfileUser, profiles))
  }

  method LoadCandidateProfiles(db: Database, limit: nat) returns (profiles: seq<Profile>)
    ensures IsLoad(db, Pool(db, limit), profiles) && |profiles| <= limit
  {
    var users := Pool(db, limit);
    assert |users| <= limit;
    var pool := set u | u in users :: u.id;
    var grouped := GroupSkills(db, pool);
    var embeddings := NewestEmbeddings(db, pool);
    profiles := [];
    assert IsLoad(db, users[..0], profiles);
    hide Faithful, IsLatest, HeldSkills, Pool, IsNewestVector, IsLoad;
    for i := 0 to |users|
      invariant IsLoad(db, users[..i], profiles)
      invariant |profiles| <= i
    {
      var u := users[i];
      assert u in users && u.id in pool;
      if u.id in grouped && grouped[u.id] != {} {
        var profile := Profile(u.id, u.fullName, grouped[u.id], if u.id in embeddings then Some(embeddings[u.id])
                               else None);
        ProfileIsFaithful(db, profile, embeddings);
        LoadOneMore(db, users, i, profiles, profile);
        profiles := profiles + [profile];
      } else {
        LoadNoMore(db, users, i, profiles);
      }
    }
    assert users[..|users|] == users;
  }

  lemma LoadNoMore(db: Database, users: seq<UserRow>, i: nat, profiles: seq<Profile>)
    requires i < |users| && IsLoad(db, users[..i], profiles)
    requires HeldSkills(db, users[i].id) == {}
    ensures IsLoad(db, users[..i + 1], profiles)
  {
    hide Faithful, HeldSkills, Represented, OnePer;
    assert users[..i + 1] == users[..i] + [users[i]];
    if OnePer(IdOf, users[..i + 1]) {
      OnePerPrefix(IdOf, users[..i + 1], i);
      assert users[..i + 1][..i] == users[..i];
    }
  }

  lemma PoolGrows(users: seq<UserRow>, i: nat, p: Profile)
    requires i < |users| && InPool(users[..i], p)
    ensures InPool(users[..i + 1], p)
  {
    var u :| u in users[..i] && u.id == p.user && u.fullName == p.fullName;
    assert users[..i + 1] == users[..i] + [users[i]];
    assert u in users[..i + 1];
  }

  lemma NewcomerIsNew(users: seq<UserRow>, i: nat, profiles: seq<Profile>, profile: Profile)
    requires i < |users| && OnePer(IdOf, users[..i + 1]) && profile.user == users[i].id
    requires forall p :: p in profiles ==> InPool(users[..i], p)
    requires OnePer(IdOf, users[..i]) ==> OnePer(ProfileUser, profiles)
    ensures OnePer(ProfileUser, profiles + [profile])
  {
    var more := users[..i + 1];
    OnePerPrefix(IdOf, more, i);
    assert more[..i] == users[..i];
    forall k | 0 <= k < |profiles|
      ensures ProfileUser(profiles[k]) != ProfileUser(profile)
    {
      assert InPool(users[..i], profiles[k]);
      var u :| u in users[..i] && u.id == profiles[k].user;
      var j :| 0 <= j < i && more[j] == u;
      assert Map(IdOf, more)[j] != Map(IdOf, more)[i];
    }
    OnePerSnoc(ProfileUser, profiles, profile);
  }

  lemma LoadOneMore(db: Database, users: seq<UserRow>, i: nat, profiles: seq<Profile>, profile: Profile)
    requires i < |users| && IsLoad(db, users[..i], profiles)
    requires profile.user == users[i].id && profile.fullName == users[i].fullName
    requires Faithful(db, profile) && profile.skills != {}
    ensures IsLoad(db, users[..i + 1], profiles + [profile])
  {
    hide Faithful, HeldSkills, Represented, InPool, OnePer;
    assert users[..i + 1] == users[..i] + [users[i]];
    forall p | p in profiles
      ensures InPool(users[..i + 1], p)
    {
      PoolGrows(users, i, p);
    }
    ProfileFitsIn(users[..i + 1], profiles, profile, users[i]);
    if OnePer(IdOf, users[..i + 1]) {
      NewcomerIsNew(users, i, profiles, profile);
    }
  }

  lemma ProfileFitsIn(users: seq<UserRow>, profiles: seq<Profile>, profile: Profile, u: UserRow)
    requires u in users && u.id == profile.user && u.fullName == profile.fullName
    ensures InPool(users, profile)
    ensures Represented(profiles + [profile], u.id)
    ensures forall id :: Represented(profiles, id) ==> Represented(profiles + [profile], id)
  {
    assert profile in profiles + [profile];
    forall id | Represented(profiles, id)
      ensures Represented(profiles + [profile], id)
    {
      var p :| p in profiles && p.user == id;
      assert p in profiles + [profile];
    }
  }

  lemma ProfileIsFaithful(db: Database, p: Profile, embeddings: map<UserId, Vector>)
    requires p.skills == HeldSkills(db, p.user)
    requires p.embedding == if p.user in embeddings then Some(embeddings[p.user]) else None
    requires p.user in embeddings ==> IsNewestVector(db, p.user, embeddings[p.user])
    requires p.user !in embeddings ==> IsLatest(db, p.user, None)
    ensures Faithful(db, p)
  {
    hide IsLatest;
    if p.user in embeddings {
      var newest :| IsLatest(db, p.user, Some(newest)) && newest.embedding == Some(embeddings[p.user]);
    }
  }

  // ------------------------------------------------------------------ rank_for_job

  datatype RankedCandidate = RankedCandidate(user: UserId, fullName: Option<string>, result: MatchResult,
                                             hasResume: bool)

  datatype RankOutcome = JobNotFound | NotYourJob | Ranked(candidates: seq<RankedCandidate>)

  predicate HigherScoreFirst(a: RankedCandidate, b: RankedCandidate) {
    a.result.score >= b.result.score
  }

  ghost predicate RankedFrom(job: Job, root: real -> real, rounding: Rounding, c: RankedCandidate, p: Profile) {
    && c.user == p.user && c.fullName == p.fullName
    && c.result == ScoreMatch(p.skills, job.required, Similarity(p.embedding, job.embedding, root), rounding)
    && c.hasResume == p.embedding.Some?
    && c.result.score > 0.0
  }

  method RankForJob(db: Database, recruiter: UserId, found: Option<Job>, limit: nat, root: real -> real,
                    rounding: Rounding) returns (r: RankOutcome)
    ensures r.JobNotFound? <==> found.None? || (found.value.createdBy != recruiter && !found.value.isPublic)
    ensures r.NotYourJob? <==> found.Some? && found.value.createdBy != recruiter && found.value.isPublic
    ensures r.Ranked? ==> IsRanking(db, found.value, limit, root, rounding, r.candidates)
  {
    if found.None? || (found.value.createdBy != recruiter && !found.value.isPublic) {
      return JobNotFound;
    }
    var job := found.value;
    if job.createdBy != recruiter {
      return NotYourJob;
    }
    var profiles := LoadCandidateProfiles(db, limit);
    var listed := ScoreProfiles(job, profiles, root, rounding);
    var candidates := Sort(listed, HigherScoreFirst);
    SortSorts(listed, HigherScoreFirst);
    SortMembers(listed, HigherScoreFirst);
    hide IsRanking, IsLoad, RankedFrom, Listed, Pool, OnePer;
    RankingIsComplete(db, job, limit, root, rounding, profiles, listed, candidates);
    return Ranked(Take(candidates, limit));
  }

  method ScoreProfiles(job: Job, profiles: seq<Profile>, root: real -> real, rounding: Rounding)
      returns (listed: seq<RankedCandidate>)
    ensures |listed| <= |profiles|
    ensures forall c :: c in listed ==> exists p :: p in profiles && RankedFrom(job, root, rounding, c, p)
    ensures forall j :: 0 <= j < |profiles| ==> Listed(profiles[j], job, root, rounding, listed)
    ensures OnePer(ProfileUser, profiles) ==> OnePer(LineUser, listed)
  {
    hide ScoreMatch, Similarity, OnePer, RankedFrom, LinesUpTo;
    listed := [];
    NoLinesYet(profiles);
    for i := 0 to |profiles|
      invariant |listed| <= i
      invariant forall c :: c in listed ==> exists p :: p in profiles && RankedFrom(job, root, rounding, c, p)
      invariant forall j :: 0 <= j < i ==> Listed(profiles[j], job, root, rounding, listed)
      invariant LinesUpTo(profiles, i, listed)
    {
      var p := profiles[i];
      assert p in profiles;
      LinesStand(profiles, i, listed);
      var result := ScoreMatch(p.skills, job.required, Similarity(p.embedding, job.embedding, root), rounding);
      if result.score <= 0.0 {
        continue;
      }
      var line := RankedCandidate(p.user, p.fullName, result, p.embedding.Some?);
      LineIsRanked(job, root, rounding, line, p);
      LineIsNew(profiles, i, listed, line);
      OneMoreLine(job, root, rounding, profiles, listed, i, line);
      listed := listed + [line];
    }
    LinesAreOnePer(profiles, listed);
  }

  /** Each line so far belongs to one of the first `i` profiles, and no user has two. */
  ghost predicate LinesUpTo(profiles: seq<Profile>, i: int, listed: seq<RankedCandidate>) {
    && (forall k :: 0 <= k < |listed| ==>
        exists j :: 0 <= j < i && j < |profiles| && profiles[j].user == listed[k].user)
    && (OnePer(ProfileUser, profiles) ==> OnePer(LineUser, listed))
  }

  lemma NoLinesYet(profiles: seq<Profile>)
    ensures LinesUpTo(profiles, 0, [])
  {
  }

  lemma LinesAreOnePer(profiles: seq<Profile>, listed: seq<RankedCandidate>)
    requires LinesUpTo(profiles, |profiles|, listed)
    ensures OnePer(ProfileUser, profiles) ==> OnePer(LineUser, listed)
  {
  }

  lemma LinesStand(profiles: seq<Profile>, i: nat, listed: seq<RankedCandidate>)
    requires i < |profiles| && LinesUpTo(profiles, i, listed)
    ensures LinesUpTo(profiles, i + 1, listed)
  {
    forall k | 0 <= k < |listed|
      ensures exists j :: 0 <= j < i + 1 && j < |profiles| && profiles[j].user == listed[k].user
    {
      var j :| 0 <= j < i && j < |profiles| && profiles[j].user == listed[k].user;
    }
  }

  lemma LineIsNew(profiles: seq<Profile>, i: nat, listed: seq<RankedCandidate>, line: RankedCandidate)
    requires i < |profiles| && LinesUpTo(profiles, i, listed) && line.user == profiles[i].user
    ensures LinesUpTo(profiles, i + 1, listed + [line])
  {
    LinesStand(profiles, i, listed);
    if OnePer(ProfileUser, profiles) {
      forall k | 0 <= k < |listed|
        ensures LineUser(listed[k]) != LineUser(line)
      {
        var j :| 0 <= j < i && j < |profiles| && profiles[j].user == listed[k].user;
        assert Map(ProfileUser, profiles)[j] != Map(ProfileUser, profiles)[i];
      }
      OnePerSnoc(LineUser, listed, line);
    }
  }

  lemma LineIsRanked(job: Job, root: real -> real, rounding: Rounding, line: RankedCandidate, p: Profile)
    requires line.result == ScoreMatch(p.skills, job.required, Similarity(p.embedding, job.embedding, root), rounding)
    requires line.user == p.user && line.fullName == p.fullName && line.hasResume == p.embedding.Some?
    requires line.result.score > 0.0
    ensures RankedFrom(job, root, rounding, line, p)
  {
  }

  lemma OneMoreLine(job: Job, root: real -> real, rounding: Rounding, profiles: seq<Profile>,
                    listed: seq<RankedCandidate>, i: nat, line: RankedCandidate)
    requires i < |profiles|
    requires forall j :: 0 <= j < i ==> Listed(profiles[j], job, root, rounding, listed)
    requires line.user == profiles[i].user
    ensures forall j :: 0 <= j < i + 1 ==> Listed(profiles[j], job, root, rounding, listed + [line])
  {
    hide ScoreMatch, Similarity;
    assert line in listed + [line] && forall c :: c in listed ==> c in listed + [line];
    forall j | 0 <= j < i + 1
      ensures Listed(profiles[j], job, root, rounding, listed + [line])
    {
      if j < i {
        assert Listed(profiles[j], job, root, rounding, listed);
      }
    }
  }

  /** A profile that scores above zero has its line. */
  ghost predicate Listed(p: Profile, job: Job, root: real -> real, rounding: Rounding,
                         candidates: seq<RankedCandidate>) {
    ScoreMatch(p.skills, job.required, Similarity(p.embedding, job.embedding, root), rounding).score > 0.0 ==>
      exists c :: c in candidates && c.user == p.user
  }

  /** A line is the true, positive score of a pool member with a held skill. */
  ghost predicate Justified(db: Database, job: Job, pool: seq<UserRow>, root: real -> real, rounding: Rounding,
                            c: RankedCandidate) {
    exists p :: Faithful(db, p) && p.skills != {} && InPool(pool, p) && RankedFrom(job, root, rounding, c, p)
  }

  /** Best first; every line justified, and no user with two; and every pool member with a held skill that
      scores above zero has a line. */
  ghost predicate IsRanking(db: Database, job: Job, limit: nat, root: real -> real, rounding: Rounding,
                            candidates: seq<RankedCandidate>) {
    && Sorted(candidates, HigherScoreFirst) && |candidates| <= limit
    && (forall c :: c in candidates ==> Justified(db, job, Pool(db, limit), root, rounding, c))
    && (forall u :: u in Pool(db, limit) && HeldSkills(db, u.id) != {} ==>
          exists p :: Faithful(db, p) && p.user == u.id && Listed(p, job, root, rounding, candidates))
    && (OnePer(IdOf, db.users) ==> OnePer(LineUser, candidates))
  }

  lemma RankingIsComplete(db: Database, job: Job, limit: nat, root: real -> real, rounding: Rounding,
                          profiles: seq<Profile>, listed: seq<RankedCandidate>, candidates: seq<RankedCandidate>)
    requires |candidates| <= limit && Sorted(candidates, HigherScoreFirst)
    requires forall c :: c in candidates <==> c in listed
    requires IsLoad(db, Pool(db, limit), profiles)
    requires forall c :: c in listed ==> exists p :: p in profiles && RankedFrom(job, root, rounding, c, p)
    requires forall j :: 0 <= j < |profiles| ==> Listed(profiles[j], job, root, rounding, listed)
    requires multiset(candidates) == multiset(listed) && (OnePer(ProfileUser, profiles) ==> OnePer(LineUser, listed))
    ensures IsRanking(db, job, limit, root, rounding, Take(candidates, limit))
  {
    hide Faithful, RankedFrom, Pool, HeldSkills, OnePer, ScoreMatch, Similarity, InPool;
    if OnePer(IdOf, db.users) {
      PoolListsUsersOnce(db, limit);
      OnePerPermuted(LineUser, listed, candidates);
    }
    forall u | u in Pool(db, limit) && HeldSkills(db, u.id) != {}
      ensures exists p :: Faithful(db, p) && p.user == u.id && Listed(p, job, root, rounding, candidates)
    {
      assert Represented(profiles, u.id);
      var p :| p in profiles && p.user == u.id;
      var j :| 0 <= j < |profiles| && profiles[j] == p;
      assert Listed(profiles[j], job, root, rounding, listed);
    }
  }

  // ------------------------------------------------------------------ both sides agree

  lemma LatestIsUnique(db: Database, user: UserId, a: Option<ResumeRow>, b: Option<ResumeRow>)
    requires DistinctMoments(db) && IsLatest(db, user, a) && IsLatest(db, user, b)
    ensures a == b
  {
  }

  /** What a recruiter sees for a candidate is what that candidate sees for the job. */
  lemma RecruiterAgreesWithCandidate(db: Database, job: Job, limit: nat, root: real -> real, rounding: Rounding,
                                     candidates: seq<RankedCandidate>, c: RankedCandidate, latest: Option<ResumeRow>)
    requires DistinctMoments(db) && job.isPublic
    requires IsRanking(db, job, limit, root, rounding, candidates) && c in candidates
    requires IsLatest(db, c.user, latest)
    ensures ScoreForUser(HeldSkills(db, c.user), latest, c.user, job, root, rounding) == Some(c.result)
  {
    assert Justified(db, job, Pool(db, limit), root, rounding, c);
    var p :| Faithful(db, p) && p.skills != {} && InPool(Pool(db, limit), p) && RankedFrom(job, root, rounding, c, p);
    var latest' :| IsLatest(db, p.user, latest') && p.embedding == EmbeddingOf(latest');
    LatestIsUnique(db, c.user, latest, latest');
  }

  ghost predicate HasLine(candidates: seq<RankedCandidate>, user: UserId) {
    exists c :: c in candidates && c.user == user
  }

  /** A pool member has a line if and only if their own score is above zero and they hold a skill: members
      without skills are dropped before anybody is scored. */
  lemma HasLineExactlyWhenSkilledAndPositive(db: Database, job: Job, limit: nat, root: real -> real, rounding: Rounding,
                                             candidates: seq<RankedCandidate>, u: UserRow, latest: Option<ResumeRow>)
    requires DistinctMoments(db) && job.isPublic
    requires IsRanking(db, job, limit, root, rounding, candidates)
    requires u in Pool(db, limit) && IsLatest(db, u.id, latest)
    ensures HasLine(candidates, u.id)
            <==> HeldSkills(db, u.id) != {}
                 && ScoreForUser(HeldSkills(db, u.id), latest, u.id, job, root, rounding).value.score > 0.0
  {
    if HasLine(candidates, u.id) {
      var c :| c in candidates && c.user == u.id;
      RecruiterAgreesWithCandidate(db, job, limit, root, rounding, candidates, c, latest);
      LineIsOfASkilled(db, job, limit, root, rounding, candidates, c);
    }
    if HeldSkills(db, u.id) != {} {
      var p :| Faithful(db, p) && p.user == u.id && Listed(p, job, root, rounding, candidates);
      var latest' :| IsLatest(db, p.user, latest') && p.embedding == EmbeddingOf(latest');
      LatestIsUnique(db, u.id, latest, latest');
    }
  }

  lemma LineIsOfASkilled(db: Database, job: Job, limit: nat, root: real -> real, rounding: Rounding,
                         candidates: seq<RankedCandidate>, c: RankedCandidate)
    requires IsRanking(db, job, limit, root, rounding, candidates) && c in candidates
    ensures HeldSkills(db, c.user) != {} && c.result.score > 0.0
  {
    assert Justified(db, job, Pool(db, limit), root, rounding, c);
  }

  // ------------------------------------------------------------------ how much of the talent is ranked

  /** The pool is cut to the newest accounts before anybody is scored: it holds every active job seeker
      if and only if there are no more of them than lines asked for. */
  lemma PoolHoldsEveryoneExactlyWhenTheyFit(db: Database, limit: nat)
    requires OnePer(IdOf, db.users)
    ensures (forall u :: u in Seekers(db) ==> u in Pool(db, limit)) <==> |Seekers(db)| <= limit
  {
    var seekers := Seekers(db);
    var sorted := Sort(seekers, NewestUserFirst);
    SortMembers(seekers, NewestUserFirst);
    OnePerFiltered(IdOf, db.users, (u: UserRow) => u.jobSeeker && u.active);
    OnePerPermuted(IdOf, seekers, sorted);
    if limit < |sorted| {
      var left := sorted[limit];
      assert left in sorted;
      forall i | 0 <= i < limit
        ensures sorted[..limit][i] != left
      {
        assert Map(IdOf, sorted)[i] != Map(IdOf, sorted)[limit];
      }
      assert left in seekers && left !in Pool(db, limit);
    }
  }

  /** Whoever is left out of the pool has no line, whatever they score. */
  lemma NobodyOutsideThePoolIsRanked(db: Database, job: Job, limit: nat, root: real -> real, rounding: Rounding,
                                     candidates: seq<RankedCandidate>, u: UserRow)
    requires OnePer(IdOf, db.users) && u in db.users && u !in Pool(db, limit)
    requires IsRanking(db, job, limit, root, rounding, candidates)
    ensures forall c :: c in candidates ==> c.user != u.id
  {
    hide Faithful, RankedFrom, OnePer;
    forall c | c in candidates
      ensures c.user != u.id
    {
      assert Justified(db, job, Pool(db, limit), root, rounding, c);
      var p :| InPool(Pool(db, limit), p) && RankedFrom(job, root, rounding, c, p);
      RankedIsOfProfile(job, root, rounding, c, p);
      var member := MemberOf(Pool(db, limit), p);
      PoolIsOfUsers(db, limit, member);
      DifferentRowsDifferentIds(db, member, u);
    }
  }

  lemma RankedIsOfProfile(job: Job, root: real -> real, rounding: Rounding, c: RankedCandidate, p: Profile)
    requires RankedFrom(job, root, rounding, c, p)
    ensures c.user == p.user
  {
  }

  lemma MemberOf(pool: seq<UserRow>, p: Profile) returns (member: UserRow)
    requires InPool(pool, p)
    ensures member in pool && member.id == p.user
  {
    member :| member in pool && member.id == p.user && member.fullName == p.fullName;
  }

  lemma PoolIsOfUsers(db: Database, limit: nat, u: UserRow)
    requires u in Pool(db, limit)
    ensures u in db.users
  {
    SortMembers(Seekers(db), NewestUserFirst);
  }

  lemma DifferentRowsDifferentIds(db: Database, u: UserRow, v: UserRow)
    requires OnePer(IdOf, db.users) && u in db.users && v in db.users && u != v
    ensures u.id != v.id
  {
    var i :| 0 <= i < |db.users| && db.users[i] == u;
    var j :| 0 <= j < |db.users| && db.users[j] == v;
    assert Map(IdOf, db.users)[i] != Map(IdOf, db.users)[j];
  }
}
