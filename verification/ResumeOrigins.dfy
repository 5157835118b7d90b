/** Where the contents of a resume row come from, and what each transaction writes. */
module ResumeOrigins {
  import opened Common
  import opened ResumeModel
  import opened ResumeLaws

  // ------------------------------------------------------------------ one transaction

  /** The message as the column holds it. */
  ghost predicate Recorded(error: Option<string>, message: string) {
    && error.Some?
    && (|message| <= 500 ==> error.value == message)
    && (|message| > 500 ==> error.value == message[..500])
  }

  /** `after` is `before` failed with that message: the bytes are gone, the rest stands. */
  ghost predicate FailedWith(before: Resume, after: Resume, message: string, now: Time) {
    && after.status == Failed && Recorded(after.error, message) && after.fileData == None && after.updatedAt == now
    && after.user == before.user && after.text == before.text && after.embedding == before.embedding
  }

  /** Delivery: a missing or complete resume is left alone, one without bytes fails, any other is processing
      from then on, and its bytes are parsed. */
  lemma DeliveryReads(resumes: Table, id: ResumeId, now: Time)
    ensures var (after, data) := StartParse(resumes, id, now);
            && after.Keys == resumes.Keys
              && (forall other :: other in resumes && other != id ==> after[other] == resumes[other])
            && (id !in resumes ==> data == None)
            && (id in resumes && resumes[id].status == Complete ==> after[id] == resumes[id] && data == None)
            && (id in resumes && resumes[id].status != Complete && resumes[id].fileData == None ==>
                && data == None
                && FailedWith(resumes[id], after[id], "The uploaded file is no longer available for parsing.", now))
            && (id in resumes && resumes[id].status != Complete && resumes[id].fileData.Some? ==>
                && data == resumes[id].fileData && after[id].status == Processing
                && after[id] == resumes[id].(status := Processing, updatedAt := after[id].updatedAt)
                && after[id].updatedAt == if resumes[id].status == Processing then resumes[id].updatedAt else now)
  {
    ShortMessages();
    hide Recorded;
    RecordedAsIs(NO_LONGER_AVAILABLE);
  }

  lemma ShortMessages()
    ensures |NO_LONGER_AVAILABLE| <= 500 && |TOO_SLOW| <= 500 && |FAILED_UNEXPECTEDLY| <= 500 && |INTERRUPTED| <= 500
  {
  }

  lemma RecordedAsIs(message: string)
    requires |message| <= 500
    ensures Recorded(Some(message), message)
  {
  }

  /** Failing records the message, cut to the 500 characters of its column. */
  lemma FailingReads(r: Resume, message: string, now: Time)
    ensures FailedWith(r, Fail(r, message, now), message, now)
  {
  }

  /** The end of a parse: the extracted text is stored, or the reason it failed for, and nothing if it is to
      be tried again. */
  lemma EndReads(resumes: Table, id: ResumeId, outcome: ParseOutcome, now: Time)
    requires id in resumes
    ensures var after := FinishParse(resumes, id, outcome, now);
            && after.Keys == resumes.Keys
              && (forall other :: other in resumes && other != id ==> after[other] == resumes[other])
            && match outcome
               case Extracted(text) =>
                 && after[id].text == Some(text) && after[id].status == Complete && after[id].error == None
                 && after[id].fileData == None && after[id].updatedAt == now
                 && after[id].user == resumes[id].user && after[id].embedding == resumes[id].embedding
               case Unreadable(message) => FailedWith(resumes[id], after[id], message, now)
               case TimedOut =>
                 FailedWith(resumes[id], after[id], "Parsing took too long. The document may be unusually large.", now)
               case GaveUp =>
                 FailedWith(resumes[id], after[id], "Parsing failed unexpectedly. Please try uploading again.", now)
               case _ => after == resumes
  {
    match outcome
    case Unreadable(message) => FailingReads(resumes[id], message, now);
    case TimedOut => FailingReads(resumes[id], TOO_SLOW, now);
    case GaveUp => FailingReads(resumes[id], FAILED_UNEXPECTEDLY, now);
    case _ =>
    hide FailedWith;
  }

  /** The end of an embedding: the vector is stored if there is one, and text to stand for, and none yet. */
  lemma EmbeddingReads(resumes: Table, id: ResumeId, outcome: EmbedOutcome, now: Time)
    ensures var after := FinishEmbed(resumes, id, outcome, now);
            && after.Keys == resumes.Keys
              && (forall other :: other in resumes && other != id ==> after[other] == resumes[other])
            && (id in resumes ==>
                if outcome.Embedded? && resumes[id].embedding == None && resumes[id].text.Some?
                  && resumes[id].text.value != ""
                then after[id] == resumes[id].(embedding := Some(outcome.vector), updatedAt := now)
                else after[id] == resumes[id])
  {
  }

  /** The sweep takes what is pending or processing and has not changed since the cutoff. */
  lemma SweepReads(r: Resume, cutoff: Time, now: Time)
    ensures Stuck(r, cutoff) <==> (r.status == Pending || r.status == Processing) && r.updatedAt < cutoff
    ensures var after := Interrupted(r, now);
            && after.status == Failed && after.updatedAt == now
            && after.error
               == Some("Processing was interrupted and the file is no longer available. Please upload it again.")
            && after == r.(status := Failed, updatedAt := now, error := after.error)
  {
  }

  /** Who has at most two unfinished resumes may upload another. */
  lemma UploadsReachThree(x: System, id: ResumeId, user: UserId, data: Bytes)
    ensures Enabled(x, CommitUpload(id, user, data))
            <==> && id !in x.used && data != []
                 && |set r | r in x.resumes && x.resumes[r].user == user
                             && (x.resumes[r].status == Pending || x.resumes[r].status == Processing)| <= 2
  {
    assert UnfinishedOf(x.resumes, user)
        == set r | r in x.resumes && x.resumes[r].user == user
                   && (x.resumes[r].status == Pending || x.resumes[r].status == Processing);
  }

  // ------------------------------------------------------------------ over whole runs

  /** Some earlier step committed the upload of these bytes by this user. */
  ghost predicate Uploaded(actions: seq<(Action, Time)>, j: nat, id: ResumeId, user: UserId, data: Option<Bytes>)
    requires j <= |actions|
  {
    exists k :: 0 <= k < j && IsUploadOf(actions[k].0, id, user, data)
  }

  predicate IsUploadOf(a: Action, id: ResumeId, user: UserId, data: Option<Bytes>) {
    a.CommitUpload? && a.id == id && a.user == user && (data.Some? ==> a.data == data.value)
  }

  /** Some earlier step ended a parse of this resume with this text. */
  ghost predicate WasExtracted(xs: seq<System>, actions: seq<(Action, Time)>, j: nat, id: ResumeId, text: string)
    requires j <= |actions| < |xs|
  {
    exists k :: 0 <= k < j && Extracts(xs[k], actions[k].0, id, text)
  }

  predicate Extracts(x: System, a: Action, id: ResumeId, text: string) {
    a == EndParse(Extracted(text)) && x.worker.Extracting? && x.worker.id == id
  }

  /** Some earlier step ended an embedding of this resume with this vector. */
  ghost predicate WasEmbedded(xs: seq<System>, actions: seq<(Action, Time)>, j: nat, id: ResumeId, vector: Vector)
    requires j <= |actions| < |xs|
  {
    exists k :: 0 <= k < j && Embeds(xs[k], actions[k].0, id, vector)
  }

  predicate Embeds(x: System, a: Action, id: ResumeId, vector: Vector) {
    a == EndEmbed(Embedded(vector)) && x.worker == Embedding(id)
  }

  ghost predicate Originated(xs: seq<System>, actions: seq<(Action, Time)>, j: nat, id: ResumeId)
    requires j <= |actions| < |xs| && id in xs[j].resumes
  {
    var row := xs[j].resumes[id];
    && Uploaded(actions, j, id, row.user, row.fileData)
    && (row.text.Some? ==> WasExtracted(xs, actions, j, id, row.text.value))
    && (row.embedding.Some? ==> WasEmbedded(xs, actions, j, id, row.embedding.value))
  }

  lemma NextRowIsFrom(x: System, a: Action, now: Time, id: ResumeId)
    requires Enabled(x, a) && id in x.resumes
    ensures var row, next := x.resumes[id], NextRow(x, a, now, id);
            && next.user == row.user && (next.fileData == row.fileData || next.fileData.None?)
            && (next.text == row.text || (next.text.Some? && Extracts(x, a, id, next.text.value)))
            && (next.embedding == row.embedding || (next.embedding.Some? && Embeds(x, a, id, next.embedding.value)))
  {
    hide UnfinishedOf, PossibleOutcome;
  }

  lemma FirstRowIsFrom(x: System, a: Action, now: Time, y: System, id: ResumeId)
    requires x.resumes.Keys <= x.used && Enabled(x, a) && Step(x, a, now, y)
    requires id in y.resumes && id !in x.used
    ensures IsUploadOf(a, id, y.resumes[id].user, y.resumes[id].fileData)
    ensures y.resumes[id] == Resume(a.user, Pending, Some(a.data), None, None, None, now)
  {
  }

  lemma LaterOrigins(xs: seq<System>, actions: seq<(Action, Time)>, j: nat, id: ResumeId)
    requires j < |actions| < |xs|
    ensures forall user, data :: Uploaded(actions, j, id, user, data) ==> Uploaded(actions, j + 1, id, user, data)
    ensures forall user, data :: IsUploadOf(actions[j].0, id, user, data) ==> Uploaded(actions, j + 1, id, user, data)
    ensures forall user, data :: Uploaded(actions, j, id, user, data) ==> Uploaded(actions, j + 1, id, user, None)
    ensures forall text :: WasExtracted(xs, actions, j, id, text) ==> WasExtracted(xs, actions, j + 1, id, text)
    ensures forall text :: Extracts(xs[j], actions[j].0, id, text) ==> WasExtracted(xs, actions, j + 1, id, text)
    ensures forall vector :: WasEmbedded(xs, actions, j, id, vector) ==> WasEmbedded(xs, actions, j + 1, id, vector)
    ensures forall vector :: Embeds(xs[j], actions[j].0, id, vector) ==> WasEmbedded(xs, actions, j + 1, id, vector)
  {
    hide Extracts, Embeds;
    forall user, data | Uploaded(actions, j, id, user, data)
      ensures Uploaded(actions, j + 1, id, user, None)
    {
      var k :| 0 <= k < j && IsUploadOf(actions[k].0, id, user, data);
      assert IsUploadOf(actions[k].0, id, user, None);
    }
    hide IsUploadOf;
  }

  /** In every reachable state: a row belongs to whoever uploaded it, its bytes are the uploaded ones, its text
      is what a parse of it extracted, and its vector what the model made of it. */
  lemma {:induction false} ContentsHaveTheirOrigin(xs: seq<System>, actions: seq<(Action, Time)>, j: nat, id: ResumeId)
    requires Run(xs, actions) && j < |xs| && id in xs[j].resumes
    ensures Originated(xs, actions, j, id)
  {
    hide Step, Enabled, Uploaded, WasExtracted, WasEmbedded, Extracts, Embeds, IsUploadOf, WellFormed;
    if j > 0 {
      RunStaysGood(xs, actions, j - 1);
      assert StepAt(xs, actions, j - 1);
      LaterOrigins(xs, actions, j - 1, id);
      var x, a, now := xs[j - 1], actions[j - 1].0, actions[j - 1].1;
      if id in x.used {
        StepRow(x, a, now, xs[j], id);
        ContentsHaveTheirOrigin(xs, actions, j - 1, id);
        NextRowIsFrom(x, a, now, id);
      } else {
        FirstRowIsFrom(x, a, now, xs[j], id);
      }
    }
  }

  /** And what a parse reads are the bytes that were uploaded for the resume it is about. */
  lemma ParsesReadTheUpload(xs: seq<System>, actions: seq<(Action, Time)>, j: nat)
    requires Run(xs, actions) && j < |xs| && xs[j].worker.Extracting? && xs[j].worker.id in xs[j].resumes
    ensures var id := xs[j].worker.id;
            && xs[j].resumes[id].fileData == Some(xs[j].worker.data)
            && Uploaded(actions, j, id, xs[j].resumes[id].user, Some(xs[j].worker.data))
  {
    RunStaysGood(xs, actions, j);
    ContentsHaveTheirOrigin(xs, actions, j, xs[j].worker.id);
  }
}
