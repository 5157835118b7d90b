/** What the resume pipeline keeps under duplicate delivery, crashes and sweeps. */
module ResumeLaws {
  import opened Common
  import opened Text
  import opened ResumeModel
  import Normalise

  /** What every stored resume looks like. */
  ghost predicate WellFormed(r: Resume) {
    && (r.fileData.Some? <==> r.Unfinished())
    && (r.status.Complete? <==> r.text.Some?)
    && (r.status.Complete? ==> Strip(r.text.value) != "" && IsNormal(r.text.value) && r.error.None?)
    && (r.status.Failed? <==> r.error.Some?)
    && (r.embedding.Some? ==> r.status.Complete?)
  }

  /** Some text as `normalise` leaves it. */
  ghost predicate IsNormal(text: string) {
    exists raw :: text == Normalise.Normalise(raw)
  }

  ghost predicate Rows(x: System) {
    forall id :: id in x.resumes ==> id in x.used && WellFormed(x.resumes[id])
  }

  ghost predicate WorkerConsistent(x: System) {
    match x.worker
    case Extracting(id, data) =>
      id in x.used && (id in x.resumes ==> x.resumes[id].status == Processing && x.resumes[id].fileData == Some(data))
    case AboutToEmbed(id) => id in x.used && (id in x.resumes ==> x.resumes[id].status == Complete)
    case Sweeping(cutoff, todo, failing) =>
      cutoff <= x.clock && failing == {} && forall i :: 0 <= i < |todo| ==> !todo[i].1
    case _ => true
  }

  ghost predicate PendingBound(x: System) {
    forall user :: |UnfinishedOf(x.resumes, user)| <= MAX_PENDING_PER_USER
  }

  /** On its way into the queue, in it, or known stranded. */
  ghost predicate Reserved(x: System, id: ResumeId) {
    id in x.uploads || ParseMessage(id) in x.queue || id in x.stranded
  }

  /** ... or being worked on by a task that has not finished with it. */
  ghost predicate Accounted(x: System, id: ResumeId) {
    Reserved(x, id) || (InFlight(x.worker) == Some(ParseMessage(id)) && !x.worker.Done?)
  }

  ghost predicate AllAccounted(x: System) {
    forall id :: id in x.resumes && x.resumes[id].Unfinished() ==> Accounted(x, id)
  }

  /** While a sweep runs, every stuck resume has been re-enqueued or is still on its list. */
  ghost predicate SweepOnTrack(x: System) {
    x.worker.Sweeping? ==>
      forall id :: id in x.resumes && Stuck(x.resumes[id], x.worker.cutoff) ==>
        ParseMessage(id) in x.queue || (id, false) in x.worker.todo
  }

  ghost predicate Good(x: System) {
    Rows(x) && WorkerConsistent(x) && PendingBound(x) && AllAccounted(x) && SweepOnTrack(x)
  }

  ghost predicate Initial(x: System) {
    x.resumes == map[] && x.worker.Idle?
  }

  lemma StepKeepsRows(x: System, a: Action, now: Time, y: System)
    requires Rows(x) && WorkerConsistent(x) && Enabled(x, a) && Step(x, a, now, y)
    ensures Rows(y)
  {
    hide Step, Enabled, NextRow, WellFormed;
    forall id | id in y.resumes
      ensures id in y.used && WellFormed(y.resumes[id])
    {
      if id in x.used {
        StepRow(x, a, now, y, id);
        NextRowWellFormed(x, a, now, id);
      } else {
        NewRow(x, a, now, y, id);
      }
    }
  }

  lemma NewRow(x: System, a: Action, now: Time, y: System, id: ResumeId)
    requires x.resumes.Keys <= x.used && Enabled(x, a) && Step(x, a, now, y)
    requires id in y.resumes && id !in x.used
    ensures a.CommitUpload? && a.id == id && id in y.used && WellFormed(y.resumes[id])
  {
  }

  lemma NextRowWellFormed(x: System, a: Action, now: Time, id: ResumeId)
    requires Rows(x) && WorkerConsistent(x) && Enabled(x, a) && id in x.resumes
    ensures WellFormed(NextRow(x, a, now, id))
  {
    WorkerRow(x, a, id);
    assert WellFormed(x.resumes[id]);
    hide StartParse, FinishParse, FinishEmbed, WellFormed, WorkerConsistent, UnfinishedOf;
    match a
    case BeginTask(_, _) => StartKeepsWellFormed(x.resumes, id, now);
    case EndParse(outcome) =>
      if x.worker.id == id {
        FinishKeepsWellFormed(x.resumes, id, outcome, now);
      }
    case EndEmbed(outcome) => EmbedKeepsWellFormed(x.resumes, id, outcome, now);
    case _ =>
  }

  lemma StartKeepsWellFormed(resumes: Table, id: ResumeId, now: Time)
    requires id in resumes && WellFormed(resumes[id])
    ensures id in StartParse(resumes, id, now).0 && WellFormed(StartParse(resumes, id, now).0[id])
  {
    hide IsNormal;
  }

  lemma FinishKeepsWellFormed(resumes: Table, id: ResumeId, outcome: ParseOutcome, now: Time)
    requires id in resumes && WellFormed(resumes[id]) && resumes[id].status.Processing? && PossibleOutcome(outcome)
    ensures id in FinishParse(resumes, id, outcome, now) && WellFormed(FinishParse(resumes, id, outcome, now)[id])
  {
    assert outcome.Extracted? ==> IsNormal(outcome.text);
    hide IsNormal, PossibleOutcome;
    assert outcome.Extracted? ==> Strip(outcome.text) != "";
  }

  lemma EmbedKeepsWellFormed(resumes: Table, id: ResumeId, outcome: EmbedOutcome, now: Time)
    requires id in resumes && WellFormed(resumes[id])
    ensures id in FinishEmbed(resumes, id, outcome, now) && WellFormed(FinishEmbed(resumes, id, outcome, now)[id])
  {
    hide IsNormal;
  }

  lemma StepKeepsWorker(x: System, a: Action, now: Time, y: System)
    requires Rows(x) && WorkerConsistent(x) && Enabled(x, a) && Step(x, a, now, y)
    ensures WorkerConsistent(y)
  {
    if a.BeginTask? && x.worker.message.SweepMessage? {
      forall i | 0 <= i < |a.selected|
        ensures !a.selected[i].1
      {
        assert (a.selected[i].0, a.selected[i].1) in a.selected;
      }
    }
  }

  /** Nothing but an upload adds an unfinished resume. */
  lemma StepKeepsPendingBound(x: System, a: Action, now: Time, y: System)
    requires Rows(x) && WorkerConsistent(x) && PendingBound(x) && Enabled(x, a) && Step(x, a, now, y)
    ensures PendingBound(y)
  {
    forall user
      ensures |UnfinishedOf(y.resumes, user)| <= MAX_PENDING_PER_USER
    {
      if a.CommitUpload? && a.user == user {
        assert UnfinishedOf(y.resumes, user) == UnfinishedOf(x.resumes, user) + {a.id};
      } else {
        NoNewUnfinished(x, a, now, y, user);
        SubsetSize(UnfinishedOf(y.resumes, user), UnfinishedOf(x.resumes, user));
      }
    }
  }

  lemma NoNewUnfinished(x: System, a: Action, now: Time, y: System, user: UserId)
    requires Rows(x) && WorkerConsistent(x) && Enabled(x, a) && Step(x, a, now, y)
    requires a.CommitUpload? ==> a.user != user
    ensures UnfinishedOf(y.resumes, user) <= UnfinishedOf(x.resumes, user)
  {
    hide IsNormal, Strip, PossibleOutcome;
  }

  lemma {:induction false} SubsetSize<T>(a: set<T>, b: set<T>)
    requires a <= b
    ensures |a| <= |b|
  {
    assert b == a + (b - a);
  }

  lemma StepKeepsAccounts(x: System, a: Action, now: Time, y: System)
    requires Rows(x) && WorkerConsistent(x) && AllAccounted(x) && Enabled(x, a) && Step(x, a, now, y)
    ensures AllAccounted(y)
  {
    forall id | id in y.resumes && y.resumes[id].Unfinished()
      ensures Accounted(y, id)
    {
      AccountFollows(x, a, now, y, id);
    }
  }

  /** Reservations only end when the worker takes the message. */
  lemma ReservationFollows(x: System, a: Action, now: Time, y: System, id: ResumeId)
    requires Enabled(x, a) && Step(x, a, now, y)
    requires Reserved(x, id) && a != Deliver(ParseMessage(id))
    ensures Reserved(y, id)
  {
  }

  lemma AccountFollows(x: System, a: Action, now: Time, y: System, id: ResumeId)
    requires Rows(x) && WorkerConsistent(x) && Enabled(x, a) && Step(x, a, now, y)
    requires id in y.resumes && y.resumes[id].Unfinished()
    requires id in x.resumes && x.resumes[id].Unfinished() ==> Accounted(x, id)
    ensures Accounted(y, id)
  {
    if id in x.resumes && x.resumes[id].Unfinished() {
      if Reserved(x, id) && a != Deliver(ParseMessage(id)) {
        ReservationFollows(x, a, now, y, id);
      } else if a == Deliver(ParseMessage(id)) {
      } else {
        BusyWorkerFollows(x, a, now, y, id);
      }
    } else {
      OnlyUploadsAreNew(x, a, now, y, id);
    }
  }

  lemma OnlyUploadsAreNew(x: System, a: Action, now: Time, y: System, id: ResumeId)
    requires Rows(x) && WorkerConsistent(x) && Enabled(x, a) && Step(x, a, now, y)
    requires id in y.resumes && y.resumes[id].Unfinished()
    requires !(id in x.resumes && x.resumes[id].Unfinished())
    ensures a.CommitUpload? && a.id == id && id in y.uploads
  {
  }

  lemma BusyWorkerFollows(x: System, a: Action, now: Time, y: System, id: ResumeId)
    requires Rows(x) && WorkerConsistent(x) && Enabled(x, a) && Step(x, a, now, y)
    requires id in x.resumes && x.resumes[id].Unfinished()
    requires id in y.resumes && y.resumes[id].Unfinished()
    requires InFlight(x.worker) == Some(ParseMessage(id)) && !x.worker.Done?
    ensures Accounted(y, id)
  {
  }

  lemma StepKeepsSweep(x: System, a: Action, now: Time, y: System)
    requires Rows(x) && WorkerConsistent(x) && SweepOnTrack(x) && Enabled(x, a) && Step(x, a, now, y)
    ensures SweepOnTrack(y)
  {
  }

  lemma StepKeepsGood(x: System, a: Action, now: Time, y: System)
    requires Good(x) && Enabled(x, a) && Step(x, a, now, y)
    ensures Good(y)
  {
    StepKeepsRows(x, a, now, y);
    StepKeepsWorker(x, a, now, y);
    StepKeepsPendingBound(x, a, now, y);
    StepKeepsAccounts(x, a, now, y);
    StepKeepsSweep(x, a, now, y);
  }

  // ------------------------------------------------------------------ what never changes back

  ghost predicate Follows(before: Resume, after: Resume) {
    && after.user == before.user
    && (before.status.Complete? ==> after.status.Complete? && after.text == before.text)
    && (before.status.Failed? ==> after.status.Failed?)
    && (before.embedding.Some? ==> after.embedding == before.embedding)
  }

  /** The only steps that rewrite an existing row. */
  ghost function NextRow(x: System, a: Action, now: Time, id: ResumeId): Resume
    requires Enabled(x, a) && id in x.resumes
  {
    match a
    case BeginTask(_, _) =>
      if x.worker.message == ParseMessage(id) then StartParse(x.resumes, id, now).0[id] else x.resumes[id]
    case EndParse(outcome) =>
      if x.worker.id == id then FinishParse(x.resumes, id, outcome, now)[id] else x.resumes[id]
    case EndEmbed(outcome) =>
      if x.worker.id == id then FinishEmbed(x.resumes, id, outcome, now)[id] else x.resumes[id]
    case SweepCommit => FailAll(x.resumes, x.worker.failing, now)[id]
    case _ => x.resumes[id]
  }

  lemma StepRow(x: System, a: Action, now: Time, y: System, id: ResumeId)
    requires x.resumes.Keys <= x.used && Enabled(x, a) && Step(x, a, now, y) && id in x.used
    ensures id in y.used
    ensures id in y.resumes ==> id in x.resumes && y.resumes[id] == NextRow(x, a, now, id)
  {
  }

  lemma StepFollows(x: System, a: Action, now: Time, y: System, id: ResumeId)
    requires Rows(x) && WorkerConsistent(x) && Enabled(x, a) && Step(x, a, now, y)
    requires id in x.used
    ensures id in y.used
    ensures id in y.resumes ==> id in x.resumes && Follows(x.resumes[id], y.resumes[id])
  {
    hide Step;
    StepRow(x, a, now, y, id);
    if id in y.resumes {
      NextRowFollows(x, a, now, id);
    }
  }

  /** What the worker state says about the row a step rewrites. */
  lemma WorkerRow(x: System, a: Action, id: ResumeId)
    requires WorkerConsistent(x) && Enabled(x, a) && id in x.resumes
    ensures a.EndParse? && x.worker.id == id ==> x.resumes[id].status.Processing? && PossibleOutcome(a.outcome)
    ensures a.SweepCommit? ==> x.worker.failing == {}
  {
  }

  lemma NextRowFollows(x: System, a: Action, now: Time, id: ResumeId)
    requires Rows(x) && WorkerConsistent(x) && Enabled(x, a) && id in x.resumes
    ensures Follows(x.resumes[id], NextRow(x, a, now, id))
  {
    WorkerRow(x, a, id);
    FollowsItself(x.resumes[id]);
    assert WellFormed(x.resumes[id]);
    hide StartParse, FinishParse, FinishEmbed, WellFormed, WorkerConsistent, Follows, UnfinishedOf;
    match a
    case BeginTask(_, _) => StartFollows(x.resumes, id, now);
    case EndParse(outcome) =>
      if x.worker.id == id {
        FinishFollows(x.resumes, id, outcome, now);
      }
    case EndEmbed(outcome) => EmbedFollows(x.resumes, id, outcome, now);
    case _ =>
  }

  lemma FollowsItself(r: Resume)
    ensures Follows(r, r)
  {
  }

  lemma StartFollows(resumes: Table, id: ResumeId, now: Time)
    requires id in resumes && WellFormed(resumes[id])
    ensures id in StartParse(resumes, id, now).0 && Follows(resumes[id], StartParse(resumes, id, now).0[id])
  {
    hide IsNormal, Strip;
  }

  lemma FinishFollows(resumes: Table, id: ResumeId, outcome: ParseOutcome, now: Time)
    requires id in resumes && WellFormed(resumes[id]) && resumes[id].status.Processing?
    ensures id in FinishParse(resumes, id, outcome, now)
    ensures Follows(resumes[id], FinishParse(resumes, id, outcome, now)[id])
  {
    hide IsNormal, Strip;
  }

  lemma EmbedFollows(resumes: Table, id: ResumeId, outcome: EmbedOutcome, now: Time)
    requires id in resumes && WellFormed(resumes[id])
    ensures id in FinishEmbed(resumes, id, outcome, now)
    ensures Follows(resumes[id], FinishEmbed(resumes, id, outcome, now)[id])
  {
    hide IsNormal, Strip;
  }

  // ------------------------------------------------------------------ whole runs

  ghost predicate StepAt(xs: seq<System>, actions: seq<(Action, Time)>, i: nat)
    requires i < |actions| && |xs| == |actions| + 1
  {
    Enabled(xs[i], actions[i].0) && Step(xs[i], actions[i].0, actions[i].1, xs[i + 1])
  }

  ghost predicate Run(xs: seq<System>, actions: seq<(Action, Time)>) {
    && |xs| == |actions| + 1
    && Initial(xs[0])
    && forall i: nat :: i < |actions| ==> StepAt(xs, actions, i)
  }

  lemma InitialIsGood(x: System)
    requires Initial(x)
    ensures Good(x)
  {
    forall user
      ensures |UnfinishedOf(x.resumes, user)| <= MAX_PENDING_PER_USER
    {
      assert UnfinishedOf(x.resumes, user) == {};
    }
  }

  lemma {:induction false} RunStaysGood(xs: seq<System>, actions: seq<(Action, Time)>, j: nat)
    requires Run(xs, actions) && j < |xs|
    ensures Good(xs[j])
  {
    hide Step, Enabled, Good;
    if j == 0 {
      InitialIsGood(xs[0]);
    } else {
      RunStaysGood(xs, actions, j - 1);
      assert StepAt(xs, actions, j - 1);
      StepKeepsGood(xs[j - 1], actions[j - 1].0, actions[j - 1].1, xs[j]);
    }
  }

  /** The row of every reachable state: bytes exactly while unfinished, text exactly when complete
      and then not blank and without an error, an embedding only then. */
  lemma RowsAreAlwaysWellFormed(xs: seq<System>, actions: seq<(Action, Time)>, j: nat, id: ResumeId)
    requires Run(xs, actions) && j < |xs| && id in xs[j].resumes
    ensures WellFormed(xs[j].resumes[id])
  {
    RunStaysGood(xs, actions, j);
  }

  /** The text of every complete resume is tidy: normalising it again changes nothing. */
  lemma CompleteTextIsTidy(xs: seq<System>, actions: seq<(Action, Time)>, j: nat, id: ResumeId)
    requires Run(xs, actions) && j < |xs| && id in xs[j].resumes && xs[j].resumes[id].status.Complete?
    ensures xs[j].resumes[id].text.Some?
    ensures Normalise.Tidy(xs[j].resumes[id].text.value)
    ensures Normalise.Normalise(xs[j].resumes[id].text.value) == xs[j].resumes[id].text.value
  {
    RowsAreAlwaysWellFormed(xs, actions, j, id);
    var raw :| xs[j].resumes[id].text.value == Normalise.Normalise(raw);
    Normalise.NormalisedIsTidy(raw);
    Normalise.NormaliseIsIdempotent(raw);
  }

  lemma NeverMoreThanThreeUnfinished(xs: seq<System>, actions: seq<(Action, Time)>, j: nat, user: UserId)
    requires Run(xs, actions) && j < |xs|
    ensures |UnfinishedOf(xs[j].resumes, user)| <= 3
  {
    RunStaysGood(xs, actions, j);
  }

  /** Complete is final and keeps its text, failed is final, and an embedding stays. */
  lemma {:induction false} OutcomesAreFinal(xs: seq<System>, actions: seq<(Action, Time)>, i: nat, j: nat, id: ResumeId)
    requires Run(xs, actions) && i <= j < |xs|
    requires id in xs[i].resumes && id in xs[j].resumes
    ensures Follows(xs[i].resumes[id], xs[j].resumes[id])
  {
    RunStaysGood(xs, actions, i);
    OutcomesFollow(xs, actions, i, j, id);
  }

  lemma {:induction false} OutcomesFollow(xs: seq<System>, actions: seq<(Action, Time)>, i: nat, j: nat, id: ResumeId)
    requires Run(xs, actions) && i <= j < |xs|
    requires id in xs[i].resumes && id in xs[i].used
    ensures id in xs[j].used
    ensures id in xs[j].resumes ==> Follows(xs[i].resumes[id], xs[j].resumes[id])
    decreases j - i
  {
    hide Step, Enabled;
    if i < j {
      OutcomesFollow(xs, actions, i, j - 1, id);
      RunStaysGood(xs, actions, j - 1);
      assert StepAt(xs, actions, j - 1);
      StepFollows(xs[j - 1], actions[j - 1].0, actions[j - 1].1, xs[j], id);
    }
  }

  /** An unfinished resume nothing is going to work on was stranded by a death or an escaped
      exception: there is no other way to lose the message. */
  lemma WorkIsNeverLostSilently(xs: seq<System>, actions: seq<(Action, Time)>, j: nat, id: ResumeId)
    requires Run(xs, actions) && j < |xs|
    requires id in xs[j].resumes && xs[j].resumes[id].Unfinished()
    requires id !in xs[j].stranded
    ensures id in xs[j].uploads || ParseMessage(id) in xs[j].queue || InFlight(xs[j].worker) == Some(ParseMessage(id))
  {
    RunStaysGood(xs, actions, j);
    assert Accounted(xs[j], id);
  }

  /** When a sweep reaches its commit, every unfinished resume older than its cutoff has a parse
      message waiting, stranded or not. */
  lemma SweepLosesNothing(xs: seq<System>, actions: seq<(Action, Time)>, j: nat, id: ResumeId)
    requires Run(xs, actions) && j < |actions| && actions[j].0.SweepCommit?
    requires xs[j].worker.Sweeping?
    requires id in xs[j + 1].resumes && Stuck(xs[j + 1].resumes[id], xs[j].worker.cutoff)
    ensures ParseMessage(id) in xs[j + 1].queue
    ensures xs[j + 1].resumes == xs[j].resumes
  {
    RunStaysGood(xs, actions, j);
    assert StepAt(xs, actions, j);
    assert FailAll(xs[j].resumes, {}, actions[j].1) == xs[j].resumes;
  }

  /** The sweeper's other branch, failing rows whose bytes are gone, is never taken. */
  lemma SweptRowsStillHaveTheirBytes(xs: seq<System>, actions: seq<(Action, Time)>, j: nat)
    requires Run(xs, actions) && j < |actions| && actions[j].0.SweepNext?
    ensures xs[j].worker.Sweeping? && xs[j].worker.todo != [] && !xs[j].worker.todo[0].1
  {
    RunStaysGood(xs, actions, j);
    assert StepAt(xs, actions, j);
  }

  /** Delivering a parse message for an unfinished resume starts real work, and every outcome but a
      retry or an escaping exception ends it. */
  lemma ParsingFinishesTheResume(x: System, id: ResumeId, outcome: ParseOutcome, now: Time, later: Time)
    requires Good(x) && id in x.resumes && x.resumes[id].Unfinished()
    ensures StartParse(x.resumes, id, now).1 == x.resumes[id].fileData != None
    ensures !outcome.Retried? && !outcome.Escaped? ==>
              !FinishParse(StartParse(x.resumes, id, now).0, id, outcome, later)[id].Unfinished()
  {
  }

  /** A second delivery after the work is done parses nothing and changes no outcome, but it replaces the
      reason a resume failed for, unless that was a missing file anyway. */
  lemma SecondDeliveryIsHarmless(x: System, id: ResumeId, now: Time)
    requires Good(x) && id in x.resumes && !x.resumes[id].Unfinished()
    ensures StartParse(x.resumes, id, now).1 == None
    ensures Follows(x.resumes[id], StartParse(x.resumes, id, now).0[id])
    ensures x.resumes[id].status.Complete? ==> StartParse(x.resumes, id, now).0 == x.resumes
    ensures StartParse(x.resumes, id, now).0[id].error == x.resumes[id].error
            <==> x.resumes[id].status.Complete? || x.resumes[id].error == Some(NO_LONGER_AVAILABLE)
  {
  }

  /** A failed resume keeps its outcome but not its explanation: "This PDF is password protected." becomes
      "The uploaded file is no longer available for parsing." */
  lemma ASecondDeliveryHidesTheReason(x: System, id: ResumeId, now: Time)
    requires x.resumes == map[id := Resume(0, Failed, None, None, None, Some("This PDF is password protected."), 0)]
    ensures StartParse(x.resumes, id, now).0[id].status.Failed?
    ensures StartParse(x.resumes, id, now).0[id].error == Some(NO_LONGER_AVAILABLE) != x.resumes[id].error
  {
    assert |"This PDF is password protected."| == 31 && |NO_LONGER_AVAILABLE| == 53;
  }
}
