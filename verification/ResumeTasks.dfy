/** The upload service and the worker's tasks as they change the table and the queue. */
module ResumeTasks {
  import opened Common
  import opened ResumeModel
  import SkillProfile

  datatype UploadOutcome = Accepted | EmptyFile | FileTooLarge | UnsupportedFileType | NotADocument | TooManyPending

  class Backend {
    var resumes: Table
    var queue: multiset<Message>
    var profile: SkillProfile.Table

    /** What the upload can be told about its file. */
    method Upload(id: ResumeId, user: UserId, data: Bytes, maxBytes: int, contentTypeAllowed: bool, magicMatches: bool,
                  now: Time)
        returns (outcome: UploadOutcome)
      requires id !in resumes
      modifies this`resumes, this`queue
      ensures outcome ==
                if data == [] then EmptyFile
                else if |data| > maxBytes then FileTooLarge
                else if !contentTypeAllowed then UnsupportedFileType
                else if !magicMatches then NotADocument
                else if |UnfinishedOf(old(resumes), user)| >= MAX_PENDING_PER_USER then TooManyPending
                else Accepted
      ensures outcome.Accepted? ==>
                && resumes == old(resumes)[id := Resume(user, Pending, Some(data), None, None, None, now)]
                && queue == old(queue) + multiset{ParseMessage(id)}
      ensures !outcome.Accepted? ==> resumes == old(resumes) && queue == old(queue)
    {
      if data == [] {
        return EmptyFile;
      }
      if |data| > maxBytes {
        return FileTooLarge;
      }
      if !contentTypeAllowed {
        return UnsupportedFileType;
      }
      if !magicMatches {
        return NotADocument;
      }
      var pending := set r | r in resumes && resumes[r].user == user && resumes[r].Unfinished();
      assert pending == UnfinishedOf(resumes, user);
      if |pending| >= MAX_PENDING_PER_USER {
        return TooManyPending;
      }
      resumes := resumes[id := Resume(user, Pending, Some(data), None, None, None, now)];
      queue := queue + multiset{ParseMessage(id)};
      return Accepted;
    }

    method FailRow(id: ResumeId, message: string, now: Time)
      requires id in resumes
      modifies this`resumes
      ensures resumes == old(resumes)[id := Fail(old(resumes)[id], message, now)]
    {
      var error := if |message| > MAX_ERROR_LENGTH then message[..MAX_ERROR_LENGTH] else message;
      resumes := resumes[id := resumes[id].(status := Failed, error := Some(error), fileData := None,
                                            updatedAt := now)];
    }

    /** One run without a crash: both transactions, then the embedding message. `found` is what the
        matcher reports for the text, None when skill extraction fails. */
    method ParseResume(id: ResumeId, extraction: ParseOutcome, found: Option<seq<(SkillProfile.SkillId, int)>>,
                       now: Time, later: Time) returns (report: string)
      requires PossibleOutcome(extraction)
      requires found.Some? ==> SkillProfile.OncePerSkill(found.value)
      modifies this
      ensures profile == if StartParse(old(resumes), id, now).1.Some? && extraction.Extracted? && found.Some?
                         then SkillProfile.Upsert(old(profile), old(resumes)[id].user, found.value) else old(profile)
      ensures var (started, data) := StartParse(old(resumes), id, now);
              && resumes == (if data.Some? then FinishParse(started, id, extraction, later) else started)
              && queue == old(queue)
                          + (if data.Some? && extraction.Retried? then multiset{ParseMessage(id)} else multiset{})
                          + (if data.Some? && extraction.Extracted? then multiset{EmbedMessage(id)} else multiset{})
    {
      if id !in resumes {
        return "missing";
      }
      if resumes[id].status.Complete? {
        return "already-complete";
      }
      if resumes[id].fileData.None? {
        FailRow(id, NO_LONGER_AVAILABLE, now);
        return "no-data";
      }
      if !resumes[id].status.Processing? {
        resumes := resumes[id := resumes[id].(status := Processing, updatedAt := now)];
      }
      hide StartParse, FinishParse, SkillProfile.Upsert, SkillProfile.OncePerSkill;
      report := FinishTask(id, extraction, found, later);
    }

    /** From the extracted text on: the second transaction, and the message that follows it. */
    method FinishTask(id: ResumeId, extraction: ParseOutcome, found: Option<seq<(SkillProfile.SkillId, int)>>,
                      later: Time)
        returns (report: string)
      requires id in resumes && (found.Some? ==> SkillProfile.OncePerSkill(found.value))
      modifies this
      ensures resumes == FinishParse(old(resumes), id, extraction, later)
      ensures queue == old(queue)
                       + (if extraction.Retried? then multiset{ParseMessage(id)} else multiset{})
                       + (if extraction.Extracted? then multiset{EmbedMessage(id)} else multiset{})
      ensures profile == if extraction.Extracted? && found.Some?
                         then SkillProfile.Upsert(old(profile), old(resumes)[id].user, found.value) else old(profile)
    {
      hide SkillProfile.Upsert, SkillProfile.OncePerSkill;
      match extraction
      case Unreadable(message) =>
        FailRow(id, message, later);
        return "failed";
      case TimedOut =>
        FailRow(id, TOO_SLOW, later);
        return "timeout";
      case GaveUp =>
        FailRow(id, FAILED_UNEXPECTEDLY, later);
        return "failed";
      case Retried =>
        queue := queue + multiset{ParseMessage(id)};
        return "retry";
      case Escaped =>
        return "error";
      case Extracted(text) =>
        if found.Some? {
          profile := RecordSkills(resumes[id].user, found.value);
        }
        resumes := resumes[id := resumes[id].(text := Some(text), status := Complete, error := None, fileData := None,
                                              updatedAt := later)];
        queue := queue + multiset{EmbedMessage(id)};
        return "complete";
    }

    /** The table after `_extract_skills`, which commits together with the text. */
    method RecordSkills(user: UserId, found: seq<(SkillProfile.SkillId, int)>) returns (table: SkillProfile.Table)
      requires SkillProfile.OncePerSkill(found)
      ensures table == SkillProfile.Upsert(profile, user, found)
    {
      var store := new SkillProfile.ProfileStore({}, profile);
      var written := store.ExtractSkills(user, found);
      table := store.rows;
    }

    method EmbedResume(id: ResumeId, embedding: EmbedOutcome, now: Time) returns (report: string)
      modifies this`resumes, this`queue
      ensures resumes == FinishEmbed(old(resumes), id, embedding, now)
      ensures queue == if NeedsEmbedding(old(resumes), id) && embedding.EmbedRetried?
                       then old(queue) + multiset{EmbedMessage(id)} else old(queue)
    {
      if id !in resumes {
        return "missing";
      }
      if resumes[id].embedding.Some? {
        return "already-embedded";
      }
      if resumes[id].text.None? || resumes[id].text.value == "" {
        return "no-text";
      }
      match embedding
      case Embedded(vector) =>
        resumes := resumes[id := resumes[id].(embedding := Some(vector), updatedAt := now)];
        return "complete";
      case Skipped =>
        return "skipped";
      case EmbedRetried =>
        queue := queue + multiset{EmbedMessage(id)};
        return "retry";
    }

    /** The sweep's SELECT. */
    method SelectStuck(cutoff: Time) returns (stuck: set<ResumeId>)
      ensures Parts(resumes, cutoff, stuck, {}, {})
    {
      stuck := set r | r in resumes && Stuck(resumes[r], cutoff);
    }

    /** What the sweep does with one row. */
    method RequeueOrFail(id: ResumeId, now: Time) returns (enqueued: bool)
      requires id in resumes
      modifies this`resumes, this`queue
      ensures enqueued <==> old(resumes)[id].fileData.Some?
      ensures enqueued ==> resumes == old(resumes) && queue == old(queue) + multiset{ParseMessage(id)}
      ensures !enqueued ==> resumes == old(resumes)[id := Interrupted(old(resumes)[id], now)] && queue == old(queue)
    {
      if resumes[id].fileData.None? {
        resumes := resumes[id := Interrupted(resumes[id], now)];
        return false;
      }
      queue := queue + multiset{ParseMessage(id)};
      return true;
    }

    /** Re-enqueues every stuck resume that still has its bytes, and fails the others. */
    method RequeueStuckResumes(cutoff: Time, now: Time) returns (requeued: int)
      modifies this`resumes, this`queue
      ensures forall m :: queue[m] == old(queue)[m] + Copies(Requeuable(old(resumes), cutoff), m)
      ensures resumes == FailAll(old(resumes), Gone(old(resumes), cutoff), now)
      ensures requeued == |Requeuable(old(resumes), cutoff)|
    {
      hide *;
      ghost var before, queued := resumes, queue;
      var rest := SelectStuck(cutoff);
      ghost var sent: set<ResumeId>, failed: set<ResumeId> := {}, {};
      requeued := 0;
      NothingSwept(before, queued, now);
      while rest != {}
        invariant Parts(before, cutoff, rest, sent, failed)
        invariant Swept(before, queued, now, sent, failed, resumes, queue)
        invariant requeued == |sent|
        decreases |rest|
      {
        var id :| id in rest;
        PartsWithout(before, cutoff, rest, sent, failed, id);
        SweptRow(before, queued, now, sent, failed, resumes, queue, id);
        rest := rest - {id};
        var enqueued := RequeueOrFail(id, now);
        if enqueued {
          requeued := requeued + 1;
          sent := sent + {id};
        } else {
          failed := failed + {id};
        }
      }
      DisjointParts(before, cutoff, sent, failed);
      assert Swept(before, queued, now, Requeuable(before, cutoff), Gone(before, cutoff), resumes, queue);
      SweptMeans(before, queued, now, Requeuable(before, cutoff), Gone(before, cutoff), resumes, queue);
    }
  }

  /** One message more for each of `sent`, each of `failed` failed, everything else untouched. */
  ghost predicate Swept(before: Table, queued: multiset<Message>, now: Time, sent: set<ResumeId>, failed: set<ResumeId>,
                        resumes: Table, queue: multiset<Message>) {
    && (forall m :: queue[m] == queued[m] + Copies(sent, m))
    && resumes == FailAll(before, failed, now)
  }

  lemma NothingSwept(before: Table, queued: multiset<Message>, now: Time)
    ensures Swept(before, queued, now, {}, {}, before, queued)
  {
  }

  lemma SweptMeans(before: Table, queued: multiset<Message>, now: Time, sent: set<ResumeId>, failed: set<ResumeId>,
                   resumes: Table, queue: multiset<Message>)
    requires Swept(before, queued, now, sent, failed, resumes, queue)
    ensures forall m :: queue[m] == queued[m] + Copies(sent, m)
    ensures resumes == FailAll(before, failed, now)
  {
  }

  lemma SweptRow(before: Table, queued: multiset<Message>, now: Time, sent: set<ResumeId>, failed: set<ResumeId>,
                 resumes: Table, queue: multiset<Message>, id: ResumeId)
    requires Swept(before, queued, now, sent, failed, resumes, queue)
    requires id in before && id !in sent && id !in failed
    ensures id in resumes && resumes[id] == before[id]
    ensures Swept(before, queued, now, sent + {id}, failed, resumes, queue + multiset{ParseMessage(id)})
    ensures Swept(before, queued, now, sent, failed + {id}, resumes[id := Interrupted(before[id], now)], queue)
  {
  }

  /** How many more of message `m` there are once each of `ids` has been enqueued. */
  function Copies(ids: set<ResumeId>, m: Message): int {
    if m.ParseMessage? && m.id in ids then 1 else 0
  }

  /** The selected rows: still to visit, re-enqueued, failed. */
  ghost predicate Parts(resumes: Table, cutoff: Time, rest: set<ResumeId>, sent: set<ResumeId>, failed: set<ResumeId>) {
    && (forall id :: id in rest + sent + failed <==> id in resumes && Stuck(resumes[id], cutoff))
    && (forall id :: id in sent ==> id !in rest && resumes[id].fileData.Some?)
    && (forall id :: id in failed ==> id !in rest && resumes[id].fileData.None?)
  }

  lemma PartsWithout(resumes: Table, cutoff: Time, rest: set<ResumeId>, sent: set<ResumeId>, failed: set<ResumeId>,
                     id: ResumeId)
    requires Parts(resumes, cutoff, rest, sent, failed) && id in rest
    ensures id in resumes && id !in sent && id !in failed
    ensures resumes[id].fileData.Some? ==> Parts(resumes, cutoff, rest - {id}, sent + {id}, failed)
    ensures resumes[id].fileData.None? ==> Parts(resumes, cutoff, rest - {id}, sent, failed + {id})
  {
  }

  lemma DisjointParts(resumes: Table, cutoff: Time, sent: set<ResumeId>, failed: set<ResumeId>)
    requires Parts(resumes, cutoff, {}, sent, failed)
    ensures sent == Requeuable(resumes, cutoff) && failed == Gone(resumes, cutoff)
  {
  }

  ghost function Requeuable(resumes: Table, cutoff: Time): set<ResumeId> {
    set r | r in resumes && Stuck(resumes[r], cutoff) && resumes[r].fileData.Some?
  }

  ghost function Gone(resumes: Table, cutoff: Time): set<ResumeId> {
    set r | r in resumes && Stuck(resumes[r], cutoff) && resumes[r].fileData.None?
  }
}
