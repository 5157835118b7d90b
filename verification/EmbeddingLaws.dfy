/** When a parsed resume without a vector will still get one. */
module EmbeddingLaws {
  import opened ResumeModel
  import opened ResumeLaws

  /** Parsed, and nothing to compare by meaning yet. */
  ghost predicate Bare(x: System, id: ResumeId) {
    id in x.resumes && x.resumes[id].status.Complete? && x.resumes[id].embedding.None?
  }

  /** A task of its own is queued or running for the resume. */
  ghost predicate EmbedAsked(x: System, id: ResumeId) {
    EmbedMessage(id) in x.queue || x.worker == Embedding(id)
  }

  /** The worker is about to ask for the embedding, has been asked to, or is at it. */
  ghost predicate EmbedPending(x: System, id: ResumeId) {
    EmbedAsked(x, id) || x.worker == AboutToEmbed(id)
  }

  /** The steps that drop the one embedding request of a resume: a crash after the parse was committed
      and before the request was sent, a crash of the embedding task, whose message is acknowledged on
      receipt, and an embedding task that ends without a vector and without a retry. */
  ghost predicate DropsEmbedding(x: System, a: Action, id: ResumeId) {
    && EmbedMessage(id) !in x.queue
    && match x.worker
       case AboutToEmbed(parsed) => parsed == id && a.Crash?
       case Embedding(parsed) => parsed == id && (a.Crash? || (a.EndEmbed? && a.embed.Skipped?))
       case _ => false
  }

  ghost predicate Parsed(x: System, id: ResumeId) {
    id in x.used && (id in x.resumes ==> x.resumes[id].status.Complete?)
  }

  /** An embedding message is acknowledged on receipt, so the worker never holds one. */
  ghost predicate NoneHeld(x: System) {
    x.worker.Received? || x.worker.Done? ==> !x.worker.message.EmbedMessage?
  }

  /** Embedding is only ever asked for parsed resumes. */
  ghost predicate EmbedsAreForParsed(x: System) {
    NoneHeld(x) && forall id :: EmbedAsked(x, id) ==> Parsed(x, id)
  }

  lemma StepKeepsNoneHeld(x: System, a: Action, now: Time, y: System)
    requires NoneHeld(x) && Enabled(x, a) && Step(x, a, now, y)
    ensures NoneHeld(y)
  {
    hide StartParse, FinishParse, FinishEmbed, FailAll, UnfinishedOf, Selects;
  }

  lemma OnlyTheParserAsks(x: System, a: Action, now: Time, y: System, id: ResumeId)
    requires NoneHeld(x) && Enabled(x, a) && Step(x, a, now, y)
    requires EmbedAsked(y, id)
    ensures EmbedAsked(x, id) || x.worker == AboutToEmbed(id)
  {
    if a.EndParse? || a.EndEmbed? {
      FinishedTaskAsks(x, a, now, y, id);
    } else {
      hide Step;
      match a
      case Deliver(_) => DeliverFollows(x, a, now, y, id);
      case SendEmbed => SendEmbedFollows(x, a, now, y, id);
      case Crash(_) => CrashFollows(x, a, now, y, id);
      case _ => QuietStep(x, a, now, y, id);
    }
  }

  lemma FinishedTaskAsks(x: System, a: Action, now: Time, y: System, id: ResumeId)
    requires (a.EndParse? || a.EndEmbed?) && Enabled(x, a) && Step(x, a, now, y)
    requires EmbedAsked(y, id)
    ensures EmbedAsked(x, id)
  {
    hide FinishParse, FinishEmbed;
  }

  predicate TouchesEmbeds(a: Action) {
    a.Deliver? || a.EndParse? || a.SendEmbed? || a.EndEmbed? || a.Crash?
  }

  lemma QuietStep(x: System, a: Action, now: Time, y: System, id: ResumeId)
    requires NoneHeld(x) && Enabled(x, a) && Step(x, a, now, y) && !TouchesEmbeds(a)
    ensures EmbedAsked(y, id) <==> EmbedAsked(x, id)
    ensures y.worker == AboutToEmbed(id) <==> x.worker == AboutToEmbed(id)
  {
    hide StartParse, FinishParse, FinishEmbed, FailAll, UnfinishedOf, Selects;
    match a
    case CommitUpload(_, _, _) =>
    case EnqueueUpload(_) =>
    case BeginTask(_, _) =>
    case SweepNext =>
    case _ =>
  }

  lemma StepKeepsEmbedsForParsed(x: System, a: Action, now: Time, y: System)
    requires Rows(x) && WorkerConsistent(x) && EmbedsAreForParsed(x) && Enabled(x, a) && Step(x, a, now, y)
    ensures EmbedsAreForParsed(y)
  {
    StepKeepsNoneHeld(x, a, now, y);
    hide Step, Enabled, EmbedAsked, NoneHeld;
    forall id | EmbedAsked(y, id)
      ensures Parsed(y, id)
    {
      OnlyTheParserAsks(x, a, now, y, id);
      StepFollows(x, a, now, y, id);
    }
  }

  lemma {:induction false} EmbedsAreAlwaysForParsed(xs: seq<System>, actions: seq<(Action, Time)>, j: nat)
    requires Run(xs, actions) && j < |xs| && EmbedsAreForParsed(xs[0])
    ensures EmbedsAreForParsed(xs[j])
  {
    hide Step, Enabled;
    if j > 0 {
      EmbedsAreAlwaysForParsed(xs, actions, j - 1);
      RunStaysGood(xs, actions, j - 1);
      assert StepAt(xs, actions, j - 1);
      hide EmbedsAreForParsed;
      StepKeepsEmbedsForParsed(xs[j - 1], actions[j - 1].0, actions[j - 1].1, xs[j]);
    }
  }

  /** A resume that stays bare keeps its request unless the step drops it. */
  lemma PendingFollows(x: System, a: Action, now: Time, y: System, id: ResumeId)
    requires Rows(x) && WorkerConsistent(x) && EmbedsAreForParsed(x) && Enabled(x, a) && Step(x, a, now, y)
    requires Bare(x, id) && Bare(y, id)
    ensures EmbedPending(y, id) <==> EmbedPending(x, id) && !DropsEmbedding(x, a, id)
  {
    if !TouchesEmbeds(a) {
      QuietStep(x, a, now, y, id);
    } else if a.EndEmbed? {
      EndEmbedFollows(x, a, now, y, id);
    } else {
      hide Step;
      match a
      case Deliver(_) => DeliverFollows(x, a, now, y, id);
      case EndParse(_) => EndParseFollows(x, a, now, y, id);
      case SendEmbed => SendEmbedFollows(x, a, now, y, id);
      case Crash(_) => CrashFollows(x, a, now, y, id);
    }
  }

  lemma DeliverFollows(x: System, a: Action, now: Time, y: System, id: ResumeId)
    requires a.Deliver? && Enabled(x, a) && Step(x, a, now, y)
    ensures EmbedPending(y, id) <==> EmbedPending(x, id)
  {
  }

  lemma EndParseFollows(x: System, a: Action, now: Time, y: System, id: ResumeId)
    requires WorkerConsistent(x) && a.EndParse? && Enabled(x, a) && Step(x, a, now, y) && Bare(x, id)
    ensures EmbedPending(y, id) <==> EmbedPending(x, id)
  {
    hide FinishParse;
    assert x.worker.id != id;
  }

  lemma SendEmbedFollows(x: System, a: Action, now: Time, y: System, id: ResumeId)
    requires a.SendEmbed? && Enabled(x, a) && Step(x, a, now, y)
    ensures EmbedPending(y, id) <==> EmbedPending(x, id)
  {
  }

  lemma CrashFollows(x: System, a: Action, now: Time, y: System, id: ResumeId)
    requires NoneHeld(x) && a.Crash? && Enabled(x, a) && Step(x, a, now, y)
    ensures EmbedPending(y, id) <==> EmbedPending(x, id) && !DropsEmbedding(x, a, id)
  {
  }

  lemma EndEmbedFollows(x: System, a: Action, now: Time, y: System, id: ResumeId)
    requires Rows(x) && a.EndEmbed? && Enabled(x, a) && Step(x, a, now, y)
    requires Bare(x, id) && Bare(y, id)
    ensures EmbedPending(y, id) <==> EmbedPending(x, id) && !DropsEmbedding(x, a, id)
  {
    assert WellFormed(x.resumes[id]);
    assert a.embed.Embedded? ==> x.worker != Embedding(id);
  }

  /** A resume becomes bare when its parse commits, and the worker then means to ask for its embedding. */
  lemma ParsedIsPending(x: System, a: Action, now: Time, y: System, id: ResumeId)
    requires Rows(x) && WorkerConsistent(x) && Enabled(x, a) && Step(x, a, now, y)
    requires !Bare(x, id) && Bare(y, id)
    ensures EmbedPending(y, id)
    ensures id in x.resumes && !x.resumes[id].status.Complete?
  {
    assert id in x.used by {
      if id !in x.used {
        NewRow(x, a, now, y, id);
      }
    }
    StepFollows(x, a, now, y, id);
    StepRow(x, a, now, y, id);
    assert NextRow(x, a, now, id).status.Complete?;
    hide UnfinishedOf, Selects;
    assert a.EndParse? && x.worker.id == id by {
      hide Step;
    }
  }

  lemma DropIsOfAParsed(x: System, a: Action, id: ResumeId)
    requires WorkerConsistent(x) && EmbedsAreForParsed(x) && DropsEmbedding(x, a, id)
    ensures id in x.used && (id in x.resumes ==> x.resumes[id].status.Complete?)
  {
    assert x.worker == Embedding(id) ==> EmbedAsked(x, id);
  }

  ghost predicate DroppedBefore(xs: seq<System>, actions: seq<(Action, Time)>, j: nat, id: ResumeId)
    requires j <= |actions| <= |xs|
  {
    exists k :: 0 <= k < j && DropsEmbedding(xs[k], actions[k].0, id)
  }

  /** A bare resume still has its embedding request under way if and only if no step dropped it; once
      dropped, nothing ever asks again. */
  lemma {:induction false} PendingUnlessDropped(xs: seq<System>, actions: seq<(Action, Time)>, j: nat, id: ResumeId)
    requires Run(xs, actions) && EmbedsAreForParsed(xs[0]) && j < |xs| && Bare(xs[j], id)
    ensures EmbedPending(xs[j], id) <==> !DroppedBefore(xs, actions, j, id)
  {
    hide Step, Enabled, EmbedPending, DropsEmbedding, EmbedsAreForParsed, WorkerConsistent, Rows;
    if j > 0 {
      var x, a, now := xs[j - 1], actions[j - 1].0, actions[j - 1].1;
      RunStaysGood(xs, actions, j - 1);
      EmbedsAreAlwaysForParsed(xs, actions, j - 1);
      assert StepAt(xs, actions, j - 1);
      if Bare(x, id) {
        PendingUnlessDropped(xs, actions, j - 1, id);
        PendingFollows(x, a, now, xs[j], id);
      } else {
        ParsedIsPending(x, a, now, xs[j], id);
        forall k | 0 <= k < j
          ensures !DropsEmbedding(xs[k], actions[k].0, id)
        {
          NotDroppedBeforeParsed(xs, actions, k, j - 1, id);
        }
      }
    }
  }

  lemma NotDroppedBeforeParsed(xs: seq<System>, actions: seq<(Action, Time)>, k: nat, j: nat, id: ResumeId)
    requires Run(xs, actions) && EmbedsAreForParsed(xs[0]) && k <= j < |xs| - 1
    requires id in xs[j].resumes && !xs[j].resumes[id].status.Complete?
    ensures !DropsEmbedding(xs[k], actions[k].0, id)
  {
    hide Step, Enabled, EmbedsAreForParsed, WorkerConsistent;
    RunStaysGood(xs, actions, k);
    EmbedsAreAlwaysForParsed(xs, actions, k);
    if DropsEmbedding(xs[k], actions[k].0, id) {
      DropIsOfAParsed(xs[k], actions[k].0, id);
      RowsOnlyVanish(xs, actions, k, j, id);
      OutcomesAreFinal(xs, actions, k, j, id);
    }
  }

  /** An id once used never comes back after its row is gone. */
  lemma {:induction false} RowsOnlyVanish(xs: seq<System>, actions: seq<(Action, Time)>, i: nat, j: nat, id: ResumeId)
    requires Run(xs, actions) && i <= j < |xs| && id in xs[i].used
    ensures id in xs[j].used && (id in xs[j].resumes ==> id in xs[i].resumes)
    decreases j - i
  {
    hide Step, Enabled;
    if i < j {
      RowsOnlyVanish(xs, actions, i, j - 1, id);
      RunStaysGood(xs, actions, j - 1);
      assert StepAt(xs, actions, j - 1);
      StepRow(xs[j - 1], actions[j - 1].0, actions[j - 1].1, xs[j], id);
    }
  }
}
