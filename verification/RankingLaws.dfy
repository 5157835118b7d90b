/** Who is on a recruiter's list and who is not. */
module RankingLaws {
  import opened Common
  import opened Sorting
  import opened Scoring
  import opened Ranking
  import SkillProfile

  // ------------------------------------------------------------------ every database has its ranking

  lemma LatestExists(db: Database, user: UserId) returns (latest: Option<ResumeRow>)
    ensures IsLatest(db, user, latest)
  {
    latest := None;
    for i := 0 to |db.resumes|
      invariant IsLatest(db.(resumes := db.resumes[..i]), user, latest)
    {
      var r := db.resumes[i];
      assert db.resumes[..i + 1] == db.resumes[..i] + [r];
      if r.user == user && Embedded(r) && (latest.None? || latest.value.createdAt < r.createdAt) {
        latest := Some(r);
      }
    }
    assert db.resumes[..|db.resumes|] == db.resumes;
  }

  lemma LoadExists(db: Database, limit: nat) returns (profiles: seq<Profile>)
    ensures IsLoad(db, Pool(db, limit), profiles) && |profiles| <= limit
  {
    var users := Pool(db, limit);
    profiles := [];
    assert IsLoad(db, users[..0], profiles);
    assert |users| <= limit;
    hide IsLoad, HeldSkills, Pool, IsLatest;
    for i := 0 to |users|
      invariant IsLoad(db, users[..i], profiles) && |profiles| <= i
    {
      var u := users[i];
      if HeldSkills(db, u.id) == {} {
        LoadNoMore(db, users, i, profiles);
      } else {
        var latest := LatestExists(db, u.id);
        var profile := Profile(u.id, u.fullName, HeldSkills(db, u.id), EmbeddingOf(latest));
        assert Faithful(db, profile);
        LoadOneMore(db, users, i, profiles, profile);
        profiles := profiles + [profile];
      }
    }
    assert users[..|users|] == users;
  }

  lemma LinesExist(job: Job, profiles: seq<Profile>, root: real -> real, rounding: Rounding)
      returns (listed: seq<RankedCandidate>)
    ensures |listed| <= |profiles|
    ensures forall c :: c in listed ==> exists p :: p in profiles && RankedFrom(job, root, rounding, c, p)
    ensures forall j :: 0 <= j < |profiles| ==> Listed(profiles[j], job, root, rounding, listed)
    ensures OnePer(ProfileUser, profiles) ==> OnePer(LineUser, listed)
  {
    hide ScoreMatch, Similarity, OnePer, RankedFrom, LinesUpTo, Listed;
    listed := [];
    NoLinesYet(profiles);
    for i := 0 to |profiles|
      invariant |listed| <= i
      invariant forall c :: c in listed ==> exists p :: p in profiles && RankedFrom(job, root, rounding, c, p)
      invariant forall j :: 0 <= j < i ==> Listed(profiles[j], job, root, rounding, listed)
      invariant LinesUpTo(profiles, i, listed)
    {
      var p := profiles[i];
      assert p in profiles;
      LinesStand(profiles, i, listed);
      var result := ScoreMatch(p.skills, job.required, Similarity(p.embedding, job.embedding, root), rounding);
      if result.score > 0.0 {
        var line := RankedCandidate(p.user, p.fullName, result, p.embedding.Some?);
        LineIsRanked(job, root, rounding, line, p);
        LineIsNew(profiles, i, listed, line);
        OneMoreLine(job, root, rounding, profiles, listed, i, line);
        listed := listed + [line];
      } else {
        NoLineEarned(p, job, root, rounding, listed);
      }
    }
    LinesAreOnePer(profiles, listed);
  }

  lemma NoLineEarned(p: Profile, job: Job, root: real -> real, rounding: Rounding, listed: seq<RankedCandidate>)
    requires ScoreMatch(p.skills, job.required, Similarity(p.embedding, job.embedding, root), rounding).score <= 0.0
    ensures Listed(p, job, root, rounding, listed)
  {
  }

  lemma RankingExists(db: Database, job: Job, limit: nat, root: real -> real, rounding: Rounding)
      returns (candidates: seq<RankedCandidate>)
    ensures IsRanking(db, job, limit, root, rounding, candidates)
  {
    var profiles := LoadExists(db, limit);
    var listed := LinesExist(job, profiles, root, rounding);
    candidates := Sort(listed, HigherScoreFirst);
    SortSorts(listed, HigherScoreFirst);
    SortMembers(listed, HigherScoreFirst);
    hide IsRanking, IsLoad, RankedFrom, Listed, Pool, OnePer;
    RankingIsComplete(db, job, limit, root, rounding, profiles, listed, candidates);
    candidates := Take(candidates, limit);
  }

  // ------------------------------------------------------------------ similarity alone earns no line

  /** One active job seeker with a resume and no skills. */
  const UNSKILLED := Database([UserRow(1, None, true, true, 0)], [], [ResumeRow(1, true, Some([1.0]), 0)])

  const SKILLED_JOB := Job(2, true, [RequiredSkill("go", "Go", 3)], Some([1.0]))

  lemma UnskilledFacts(limit: nat)
    ensures DistinctMoments(UNSKILLED) && HeldSkills(UNSKILLED, 1) == {}
    ensures IsLatest(UNSKILLED, 1, Some(UNSKILLED.resumes[0]))
    ensures limit >= 1 ==> UNSKILLED.users[0] in Pool(UNSKILLED, limit)
    ensures forall u :: u in Pool(UNSKILLED, limit) ==> u == UNSKILLED.users[0]
  {
    assert UNSKILLED.resumes[0] in UNSKILLED.resumes && UNSKILLED.users[0] in UNSKILLED.users;
    SortMembers(Seekers(UNSKILLED), NewestUserFirst);
    assert UNSKILLED.users[0] in Seekers(UNSKILLED);
    assert forall u :: u in Seekers(UNSKILLED) ==> u == UNSKILLED.users[0];
    assert |Seekers(UNSKILLED)| == 1 by {
      assert UNSKILLED.users[..0] == [];
    }
  }

  /** The seeker's own score is what full similarity earns by itself, and every ranking is empty. */
  lemma SimilarityAloneIsNotRanked(limit: nat, root: real -> real, rounding: Rounding, candidates: seq<RankedCandidate>)
    requires IsRoot(root) && rounding.Valid() && rounding.score(35.0) == 35.0
    requires limit >= 1 && IsRanking(UNSKILLED, SKILLED_JOB, limit, root, rounding, candidates)
    ensures ScoreForUser({}, Some(UNSKILLED.resumes[0]), 1, SKILLED_JOB, root, rounding).value.score == 35.0
    ensures candidates == []
  {
    UnskilledFacts(limit);
    CosineWithItself([1.0], root);
    assert [1.0][1..] == [];
    assert Dot([1.0], [1.0]) == 1.0;
    hide CosineSimilarity, Pool, IsRanking, HeldSkills;
    ScoreWithoutSkills({}, SKILLED_JOB.required, Some(1.0), rounding);
    if candidates != [] {
      var c := candidates[0];
      LineIsOfASkilled(UNSKILLED, SKILLED_JOB, limit, root, rounding, candidates, c);
      var member := LineIsOfAMember(UNSKILLED, SKILLED_JOB, limit, root, rounding, candidates, c);
    }
  }

  /** Every line is some pool member's. */
  lemma LineIsOfAMember(db: Database, job: Job, limit: nat, root: real -> real, rounding: Rounding,
                        candidates: seq<RankedCandidate>, c: RankedCandidate)
      returns (member: UserRow)
    requires IsRanking(db, job, limit, root, rounding, candidates) && c in candidates
    ensures member in Pool(db, limit) && member.id == c.user
  {
    hide *;
    LineIsJustified(db, job, limit, root, rounding, candidates, c);
    member := JustifyingMember(db, job, Pool(db, limit), root, rounding, c);
  }

  lemma LineIsJustified(db: Database, job: Job, limit: nat, root: real -> real, rounding: Rounding,
                        candidates: seq<RankedCandidate>, c: RankedCandidate)
    requires IsRanking(db, job, limit, root, rounding, candidates) && c in candidates
    ensures Justified(db, job, Pool(db, limit), root, rounding, c)
  {
    hide Sorted, Pool, Justified, Faithful, Listed, HeldSkills, OnePer;
  }

  lemma JustifyingMember(db: Database, job: Job, pool: seq<UserRow>, root: real -> real, rounding: Rounding,
                         c: RankedCandidate)
      returns (member: UserRow)
    requires Justified(db, job, pool, root, rounding, c)
    ensures member in pool && member.id == c.user
  {
    hide Faithful, ScoreMatch, Similarity, InPool;
    var p :| InPool(pool, p) && RankedFrom(job, root, rounding, c, p);
    assert RankedFrom(job, root, rounding, c, p);
    member := MemberOf(pool, p);
  }

  // ------------------------------------------------------------------ how much of the talent is listed

  /** The seeker holds a skill and scores above zero by their own account. */
  ghost predicate EarnsALine(db: Database, job: Job, root: real -> real, rounding: Rounding, u: UserRow) {
    && HeldSkills(db, u.id) != {}
    && exists latest :: IsLatest(db, u.id, latest) && ScoresAboveZero(db, job, root, rounding, u, latest)
  }

  ghost predicate ScoresAboveZero(db: Database, job: Job, root: real -> real, rounding: Rounding, u: UserRow,
                                  latest: Option<ResumeRow>) {
    var own := ScoreForUser(HeldSkills(db, u.id), latest, u.id, job, root, rounding);
    own.Some? && own.value.score > 0.0
  }

  /** In a database of these users a seeker earns a line and the ranking has none for them. */
  ghost predicate Overlooked(users: seq<UserRow>, job: Job, limit: nat, root: real -> real, rounding: Rounding,
                             db: Database, candidates: seq<RankedCandidate>, u: UserRow) {
    && db.users == users && DistinctMoments(db) && IsRanking(db, job, limit, root, rounding, candidates)
    && u in Seekers(db) && EarnsALine(db, job, root, rounding, u) && !HasLine(candidates, u.id)
  }

  /** Whatever skills and resumes these users have. */
  ghost predicate NobodyIsOverlooked(users: seq<UserRow>, job: Job, limit: nat, root: real -> real,
                                     rounding: Rounding) {
    forall db, candidates, u :: !Overlooked(users, job, limit, root, rounding, db, candidates, u)
  }

  /** The job gives something to score: required skills that weigh, or else an embedding to resemble. */
  ghost predicate CanBeEarned(job: Job, rounding: Rounding) {
    || Weight(job.required) != 0
    || (job.embedding.Some? && Dot(job.embedding.value, job.embedding.value) != 0.0 && rounding.score(35.0) > 0.0)
  }

  /** The limit decides: nobody is overlooked, whatever the data, if and only if the active job seekers
      are no more than the lines asked for, or the job gives nothing to score. */
  lemma NobodyIsOverlookedExactlyWhenTheyFit(users: seq<UserRow>, job: Job, limit: nat, root: real -> real,
                                             rounding: Rounding)
    requires OnePer(IdOf, users) && job.isPublic && rounding.Valid() && IsRoot(root)
    ensures NobodyIsOverlooked(users, job, limit, root, rounding)
            <==> |Seekers(Database(users, [], []))| <= limit || !CanBeEarned(job, rounding)
  {
    var plain := Database(users, [], []);
    PoolHoldsEveryoneExactlyWhenTheyFit(plain, limit);
    hide CanBeEarned, IsRanking, EarnsALine, Pool, Seekers, DistinctMoments;
    if |Seekers(plain)| <= limit {
      FittingSeekersAreListed(users, job, limit, root, rounding);
    } else if CanBeEarned(job, rounding) {
      var u :| u in Seekers(plain) && u !in Pool(plain, limit);
      TooManySeekers(users, job, limit, root, rounding, u);
    } else {
      forall db, candidates, u
        ensures !Overlooked(users, job, limit, root, rounding, db, candidates, u)
      {
        NothingToEarn(db, job, root, rounding, u);
      }
    }
  }

  lemma FittingSeekersAreListed(users: seq<UserRow>, job: Job, limit: nat, root: real -> real, rounding: Rounding)
    requires job.isPublic && forall u :: u in Seekers(Database(users, [], [])) ==>
              u in Pool(Database(users, [], []), limit)
    ensures NobodyIsOverlooked(users, job, limit, root, rounding)
  {
    hide IsRanking, EarnsALine, DistinctMoments;
    forall db, candidates, u
      ensures !Overlooked(users, job, limit, root, rounding, db, candidates, u)
    {
      if Overlooked(users, job, limit, root, rounding, db, candidates, u) {
        SameUsersSamePool(Database(users, [], []), db, limit);
        hide Pool, Seekers;
        SeekerInThePoolIsListed(db, job, limit, root, rounding, candidates, u);
      }
    }
  }

  /** A seeker the pool has no room for, given what it takes to earn a line. */
  lemma TooManySeekers(users: seq<UserRow>, job: Job, limit: nat, root: real -> real, rounding: Rounding, u: UserRow)
    requires OnePer(IdOf, users) && job.isPublic && rounding.Valid() && IsRoot(root) && CanBeEarned(job, rounding)
    requires u in Seekers(Database(users, [], [])) && u !in Pool(Database(users, [], []), limit)
    ensures !NobodyIsOverlooked(users, job, limit, root, rounding)
  {
    var db := Deserving(users, u, job);
    SameUsersSamePool(Database(users, [], []), db, limit);
    DeservingEarns(users, u, job, root, rounding);
    var candidates := RankingExists(db, job, limit, root, rounding);
    assert u in db.users;
    NobodyOutsideThePoolIsRanked(db, job, limit, root, rounding, candidates, u);
    hide IsRanking, EarnsALine, Pool, Seekers, DistinctMoments, CanBeEarned;
    assert Overlooked(users, job, limit, root, rounding, db, candidates, u);
  }

  /** Where the required skills weigh, `u` has them all; otherwise `u` has some skill, and a resume that
      resembles the job fully. */
  ghost function Deserving(users: seq<UserRow>, u: UserRow, job: Job): Database {
    if Weight(job.required) != 0 then Equipped(users, u, job)
    else Database(users, [UserSkillRow(u.id, "any", SkillProfile.Confirmed)], [ResumeRow(u.id, true, job.embedding, 0)])
  }

  lemma DeservingEarns(users: seq<UserRow>, u: UserRow, job: Job, root: real -> real, rounding: Rounding)
    requires job.isPublic && rounding.Valid() && IsRoot(root) && CanBeEarned(job, rounding)
    ensures Deserving(users, u, job).users == users && DistinctMoments(Deserving(users, u, job))
    ensures EarnsALine(Deserving(users, u, job), job, root, rounding, u)
  {
    if Weight(job.required) != 0 {
      EquippedEarns(users, u, job, root, rounding);
    } else {
      var db := Deserving(users, u, job);
      assert db.userSkills[0] in db.userSkills && db.resumes[0] in db.resumes;
      assert "any" in HeldSkills(db, u.id);
      FullResemblance(HeldSkills(db, u.id), db.resumes[0], u.id, job, root, rounding);
      hide HeldSkills, ScoreForUser, Weight;
      assert IsLatest(db, u.id, Some(db.resumes[0]));
      assert ScoresAboveZero(db, job, root, rounding, u, Some(db.resumes[0]));
    }
  }

  lemma FullResemblance(held: set<SkillId>, latest: ResumeRow, user: UserId, job: Job, root: real -> real,
                        rounding: Rounding)
    requires job.isPublic && rounding.Valid() && IsRoot(root) && CanBeEarned(job, rounding)
    requires Weight(job.required) == 0 && latest.embedding == job.embedding
    ensures ScoreForUser(held, Some(latest), user, job, root, rounding).Some?
    ensures ScoreForUser(held, Some(latest), user, job, root, rounding).value.score > 0.0
  {
    CosineWithItself(job.embedding.value, root);
    WeightlessScore(held, job.required, Some(1.0), rounding);
    hide CosineSimilarity, ScoreMatch, Weight;
  }

  lemma WeightlessScore(held: set<SkillId>, required: seq<RequiredSkill>, similarity: Option<real>, rounding: Rounding)
    requires Weight(required) == 0 && rounding.Valid()
    ensures ScoreMatch(held, required, similarity, rounding).score
            == if similarity.None? then 0.0 else rounding.score(35.0 * Clamp(similarity.value))
  {
    hide Weight, Select, Sort;
    assert similarity.Some? ==> Combined(0.0, similarity) * 100.0 == 35.0 * Clamp(similarity.value);
  }

  lemma NothingToEarn(db: Database, job: Job, root: real -> real, rounding: Rounding, u: UserRow)
    requires job.isPublic && rounding.Valid() && IsRoot(root) && !CanBeEarned(job, rounding)
    ensures !EarnsALine(db, job, root, rounding, u)
  {
    hide HeldSkills, IsLatest;
    forall latest
      ensures !ScoresAboveZero(db, job, root, rounding, u, latest)
    {
      var similarity := Similarity(EmbeddingOf(latest), job.embedding, root);
      WeightlessScore(HeldSkills(db, u.id), job.required, similarity, rounding);
      if similarity.Some? {
        assert rounding.score(35.0 * Clamp(similarity.value)) <= rounding.score(35.0);
        NoResemblance(EmbeddingOf(latest).value, job.embedding.value, root);
      }
      hide ScoreMatch, Weight, Similarity;
    }
  }

  lemma NoResemblance(a: Vector, b: Vector, root: real -> real)
    requires IsRoot(root) && |a| == |b|
    ensures Dot(b, b) == 0.0 ==> CosineSimilarity(a, b, root) == Some(0.0)
  {
    hide Dot;
    if Dot(b, b) == 0.0 {
      RatioOfProduct(0.0, root(0.0), root(0.0));
    }
  }

  lemma SeekerInThePoolIsListed(db: Database, job: Job, limit: nat, root: real -> real, rounding: Rounding,
                                candidates: seq<RankedCandidate>, u: UserRow)
    requires job.isPublic && DistinctMoments(db) && IsRanking(db, job, limit, root, rounding, candidates)
    requires u in Pool(db, limit) && EarnsALine(db, job, root, rounding, u)
    ensures HasLine(candidates, u.id)
  {
    hide Pool, IsRanking, HeldSkills, IsLatest;
    var latest :| IsLatest(db, u.id, latest) && ScoresAboveZero(db, job, root, rounding, u, latest);
    HasLineExactlyWhenSkilledAndPositive(db, job, limit, root, rounding, candidates, u, latest);
  }

  lemma SameUsersSamePool(db: Database, db': Database, limit: nat)
    requires db.users == db'.users
    ensures Seekers(db) == Seekers(db') && Pool(db, limit) == Pool(db', limit)
  {
  }

  /** The same users, with every required skill given to `u` and to nobody else. */
  ghost function Equipped(users: seq<UserRow>, u: UserRow, job: Job): Database {
    Database(users, seq(|job.required|, i requires 0 <= i < |job.required| => Holding(u, job.required[i])), [])
  }

  function Holding(u: UserRow, s: RequiredSkill): UserSkillRow {
    UserSkillRow(u.id, s.skillId, SkillProfile.Confirmed)
  }

  lemma EquippedHolds(users: seq<UserRow>, u: UserRow, job: Job)
    ensures forall i :: 0 <= i < |job.required| ==> job.required[i].skillId in HeldSkills(Equipped(users, u, job), u.id)
    ensures DistinctMoments(Equipped(users, u, job)) && IsLatest(Equipped(users, u, job), u.id, None)
  {
    var db := Equipped(users, u, job);
    forall i | 0 <= i < |job.required|
      ensures job.required[i].skillId in HeldSkills(db, u.id)
    {
      assert db.userSkills[i] == Holding(u, job.required[i]) && db.userSkills[i] in db.userSkills;
    }
  }

  lemma AllRequiredHeld(held: set<SkillId>, user: UserId, job: Job, root: real -> real, rounding: Rounding)
    requires job.isPublic && Weight(job.required) != 0 && rounding.Valid()
    requires forall i :: 0 <= i < |job.required| ==> job.required[i].skillId in held
    ensures held != {}
    ensures ScoreForUser(held, None, user, job, root, rounding).Some?
    ensures ScoreForUser(held, None, user, job, root, rounding).value.score > 0.0
  {
    assert job.required != [];
    assert job.required[0].skillId in held;
    FullScore(held, job.required, None, rounding);
    hide ScoreMatch, Weight;
  }

  lemma EquippedEarns(users: seq<UserRow>, u: UserRow, job: Job, root: real -> real, rounding: Rounding)
    requires job.isPublic && Weight(job.required) != 0 && rounding.Valid()
    ensures DistinctMoments(Equipped(users, u, job))
    ensures EarnsALine(Equipped(users, u, job), job, root, rounding, u)
  {
    hide HeldSkills, IsLatest, ScoreForUser, Weight, Equipped, DistinctMoments;
    var db := Equipped(users, u, job);
    EquippedHolds(users, u, job);
    AllRequiredHeld(HeldSkills(db, u.id), u.id, job, root, rounding);
    assert ScoresAboveZero(db, job, root, rounding, u, None);
  }

  // ------------------------------------------------------------------ an account too old to be listed

  const OLDER := UserRow(1, None, true, true, 0)
  const NEWER := UserRow(3, None, true, true, 5)

  /** Asked for one line, the recruiter gets none for the one seeker who has the skill. */
  lemma TheOlderSeekerIsOverlooked(root: real -> real, rounding: Rounding, candidates: seq<RankedCandidate>)
    requires rounding.Valid()
    requires IsRanking(Equipped([OLDER, NEWER], OLDER, SKILLED_JOB), SKILLED_JOB, 1, root, rounding, candidates)
    ensures Overlooked([OLDER, NEWER], SKILLED_JOB, 1, root, rounding, Equipped([OLDER, NEWER], OLDER, SKILLED_JOB),
                       candidates, OLDER)
  {
    var db := Equipped([OLDER, NEWER], OLDER, SKILLED_JOB);
    assert SKILLED_JOB.required[..0] == [];
    assert Weight(SKILLED_JOB.required) == 3;
    EquippedEarns([OLDER, NEWER], OLDER, SKILLED_JOB, root, rounding);
    TheNewerFillsThePool(db);
    assert db.users[0] == OLDER && OLDER in db.users;
    hide Equipped, IsRanking, EarnsALine, DistinctMoments, Seekers, Pool;
    NobodyOutsideThePoolIsRanked(db, SKILLED_JOB, 1, root, rounding, candidates, OLDER);
  }

  lemma TheNewerFillsThePool(db: Database)
    requires db.users == [OLDER, NEWER]
    ensures OLDER in Seekers(db) && OLDER !in Pool(db, 1) && OnePer(IdOf, db.users)
  {
    var keep := (u: UserRow) => u.jobSeeker && u.active;
    KeepBoth(OLDER, NEWER, keep);
    SwapTwo(OLDER, NEWER, NewestUserFirst);
    hide Filter, Sort;
    assert Seekers(db) == [OLDER, NEWER] && Pool(db, 1) == [NEWER];
  }

  lemma KeepBoth(a: UserRow, b: UserRow, keep: UserRow -> bool)
    requires keep(a) && keep(b)
    ensures Filter([a, b], keep) == [a, b]
  {
    assert [a, b][..1] == [a] && [a][..0] == [];
    assert Filter([a], keep) == Filter([], keep) + [a];
  }

  lemma SwapTwo<T>(a: T, b: T, leq: (T, T) -> bool)
    requires !leq(a, b)
    ensures Sort([a, b], leq) == [b, a]
  {
    assert [a, b][1..] == [b] && [b][1..] == [];
    assert Sort([b], leq) == [b];
  }
}
