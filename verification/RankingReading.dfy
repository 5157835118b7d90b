/** The recruiter's list as its reader sees it: whose lines, what they say, and in which order. */
module RankingReading {
  import opened Common
  import opened Sorting
  import opened Scoring
  import opened Ranking
  import SkillProfile

  // ------------------------------------------------------------------ the pool

  /** The pool holds active job seekers only, newest first, as many as fit the limit. */
  lemma PoolReads(db: Database, limit: nat)
    ensures forall u :: u in Pool(db, limit) ==> u in db.users && u.jobSeeker && u.active
    ensures forall i, j :: 0 <= i < j < |Pool(db, limit)| ==>
              Pool(db, limit)[i].createdAt >= Pool(db, limit)[j].createdAt
    ensures |Pool(db, limit)| <= limit
  {
    var seekers := Seekers(db);
    var listed := Sort(seekers, NewestUserFirst);
    SortMembers(seekers, NewestUserFirst);
    SortSorts(seekers, NewestUserFirst);
    SeekersRead(db);
    hide Seekers, Sort;
    var pool := Pool(db, limit);
    assert pool == Take(listed, limit);
    forall i, j | 0 <= i < j < |pool|
      ensures pool[i].createdAt >= pool[j].createdAt
    {
      assert NewestUserFirst(listed[i], listed[j]);
    }
  }

  /** Whoever is left out finds the pool full, of accounts at least as new as theirs. */
  lemma OutsideThePool(db: Database, limit: nat, u: UserRow)
    requires u in db.users && u.jobSeeker && u.active && u !in Pool(db, limit)
    ensures |Pool(db, limit)| == limit
    ensures forall v :: v in Pool(db, limit) ==> u.createdAt <= v.createdAt
  {
    var seekers := Seekers(db);
    var listed := Sort(seekers, NewestUserFirst);
    SortMembers(seekers, NewestUserFirst);
    SortSorts(seekers, NewestUserFirst);
    SeekersRead(db);
    hide Seekers, Sort;
    var pool := Pool(db, limit);
    assert pool == Take(listed, limit);
    var i :| 0 <= i < |listed| && listed[i] == u;
    TakeIsThePrefix(listed, limit);
    forall v | v in pool
      ensures u.createdAt <= v.createdAt
    {
      var j :| 0 <= j < |pool| && pool[j] == v;
      assert NewestUserFirst(listed[j], listed[i]);
    }
  }

  lemma TakeIsThePrefix(listed: seq<UserRow>, limit: nat)
    ensures forall j :: 0 <= j < |Take(listed, limit)| ==>
              Take(listed, limit)[j] == listed[j] && listed[j] in Take(listed, limit)
    ensures |Take(listed, limit)| == if |listed| <= limit then |listed| else limit
  {
    forall j | 0 <= j < |Take(listed, limit)|
      ensures Take(listed, limit)[j] == listed[j] && listed[j] in Take(listed, limit)
    {
      assert Take(listed, limit)[j] in Take(listed, limit);
    }
  }

  lemma SeekersRead(db: Database)
    ensures forall u :: u in Seekers(db) <==> u in db.users && u.jobSeeker && u.active
  {
  }

  // ------------------------------------------------------------------ the lines

  /** The newest of the user's complete resumes that have a vector. */
  ghost predicate NewestVector(db: Database, user: UserId, r: ResumeRow) {
    && r in db.resumes && r.user == user && r.complete && r.embedding.Some?
    && forall other :: other in db.resumes && other.user == user && other.complete && other.embedding.Some? ==>
         other.createdAt <= r.createdAt
  }

  ghost predicate NoVector(db: Database, user: UserId) {
    forall r :: r in db.resumes && r.user == user ==> !r.complete || r.embedding.None?
  }

  /** The skills a user holds: the confirmed and the suggested ones. */
  ghost function Holding(db: Database, user: UserId): set<SkillId> {
    set r | r in db.userSkills && r.user == user
            && (r.status == SkillProfile.Confirmed || r.status == SkillProfile.Suggested) :: r.skill
  }

  lemma HeldReads(db: Database, user: UserId)
    ensures HeldSkills(db, user) == Holding(db, user)
  {
  }

  /** The vector the line was scored with: that of the newest one if any. */
  ghost predicate ScoredWith(db: Database, user: UserId, vector: Option<Vector>) {
    if vector.Some? then exists r :: NewestVector(db, user, r) && r.embedding == vector else NoVector(db, user)
  }

  /** A line bears the id and name of a member of the pool with a skill, says whether they have a resume with a
      vector, and gives the positive score of the skills they hold and of that vector. */
  ghost predicate LineReads(db: Database, job: Job, limit: nat, root: real -> real, rounding: Rounding,
                            c: RankedCandidate) {
    && (exists u :: u in Pool(db, limit) && u.id == c.user && u.fullName == c.fullName)
    && Holding(db, c.user) != {} && c.result.score > 0.0
    && exists vector :: && ScoredWith(db, c.user, vector) && c.hasResume == vector.Some?
                        && IsScoreOf(db, job, root, rounding, c, vector)
  }

  ghost predicate IsScoreOf(db: Database, job: Job, root: real -> real, rounding: Rounding, c: RankedCandidate,
                            vector: Option<Vector>) {
    c.result == ScoreMatch(Holding(db, c.user), job.required,
                           if vector.Some? && job.embedding.Some?
                           then CosineSimilarity(vector.value, job.embedding.value, root) else None,
                           rounding)
  }

  lemma ListReads(db: Database, job: Job, limit: nat, root: real -> real, rounding: Rounding,
                  candidates: seq<RankedCandidate>)
    requires IsRanking(db, job, limit, root, rounding, candidates)
    ensures forall i, j :: 0 <= i < j < |candidates| ==> candidates[i].result.score >= candidates[j].result.score
    ensures forall i :: 0 <= i < |candidates| ==> LineReads(db, job, limit, root, rounding, candidates[i])
    ensures |candidates| <= limit
  {
    hide LineReads, Justified, Pool, Listed, Faithful, HeldSkills, OnePer;
    forall i, j | 0 <= i < j < |candidates|
      ensures candidates[i].result.score >= candidates[j].result.score
    {
      assert HigherScoreFirst(candidates[i], candidates[j]);
    }
    forall i | 0 <= i < |candidates|
      ensures LineReads(db, job, limit, root, rounding, candidates[i])
    {
      assert candidates[i] in candidates;
      OneLineReads(db, job, limit, root, rounding, candidates[i]);
    }
  }

  lemma OneLineReads(db: Database, job: Job, limit: nat, root: real -> real, rounding: Rounding, c: RankedCandidate)
    requires Justified(db, job, Pool(db, limit), root, rounding, c)
    ensures LineReads(db, job, limit, root, rounding, c)
  {
    hide Pool, ScoreMatch, CosineSimilarity;
    var p :| Faithful(db, p) && p.skills != {} && InPool(Pool(db, limit), p) && RankedFrom(job, root, rounding, c, p);
    assert Faithful(db, p) && RankedFrom(job, root, rounding, c, p);
    HeldReads(db, p.user);
    hide HeldSkills, Holding;
    VectorReads(db, p);
    assert IsScoreOf(db, job, root, rounding, c, p.embedding);
    assert ScoredWith(db, c.user, p.embedding);
  }

  lemma VectorReads(db: Database, p: Profile)
    requires Faithful(db, p)
    ensures ScoredWith(db, p.user, p.embedding)
  {
    hide HeldSkills;
    var latest :| IsLatest(db, p.user, latest) && p.embedding == EmbeddingOf(latest);
    if latest.Some? {
      assert NewestVector(db, p.user, latest.value);
    }
  }

  /** The candidate's own query: nothing for somebody else's private job, and otherwise the score of the given
      skills and of the given resume's vector. */
  lemma OwnScoreReads(held: set<SkillId>, latest: Option<ResumeRow>, user: UserId, job: Job, root: real -> real,
                      rounding: Rounding)
    ensures var own := ScoreForUser(held, latest, user, job, root, rounding);
            && (own.None? <==> !job.isPublic && job.createdBy != user)
            && (own.Some? ==>
                own.value == ScoreMatch(held, job.required,
                                        if latest.Some? && latest.value.embedding.Some? && job.embedding.Some?
                                        then CosineSimilarity(latest.value.embedding.value, job.embedding.value, root)
                                        else None,
                                        rounding))
  {
    hide ScoreMatch, CosineSimilarity;
  }
}
