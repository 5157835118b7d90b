/** The resume pipeline: upload, a queue delivering at least once, one worker, and a sweeper. */
module ResumeModel {
  import opened Common
  import opened Text
  import Normalise

  type ResumeId = nat
  type UserId = nat
  type Bytes = seq<int>
  type Vector = seq<real>
  type Time = int

  datatype Status = Pending | Processing | Complete | Failed

  datatype Resume = Resume(
    user: UserId,
    status: Status,
    fileData: Option<Bytes>,
    text: Option<string>,
    embedding: Option<Vector>,
    error: Option<string>,
    updatedAt: Time)
  {
    predicate Unfinished() {
      status.Pending? || status.Processing?
    }
  }

  type Table = map<ResumeId, Resume>

  const MAX_PENDING_PER_USER := 3
  const MAX_ERROR_LENGTH := 500

  // ------------------------------------------------------------------ single transactions

  ghost function UnfinishedOf(resumes: Table, user: UserId): set<ResumeId> {
    set r | r in resumes && resumes[r].user == user && resumes[r].Unfinished()
  }

  function Fail(r: Resume, message: string, now: Time): Resume {
    r.(status := Failed,
       error := Some(if |message| > MAX_ERROR_LENGTH then message[..MAX_ERROR_LENGTH] else message),
       fileData := None,
       updatedAt := now)
  }

  const NO_LONGER_AVAILABLE := "The uploaded file is no longer available for parsing."
  const TOO_SLOW := "Parsing took too long. The document may be unusually large."
  const FAILED_UNEXPECTEDLY := "Parsing failed unexpectedly. Please try uploading again."
  const INTERRUPTED := "Processing was interrupted and the file is no longer available. Please upload it again."

  /** The first transaction of `parse_resume`, and the bytes to parse if there is work to do.
      Setting a status it already has writes nothing. */
  function StartParse(resumes: Table, id: ResumeId, now: Time): (Table, Option<Bytes>) {
    if id !in resumes then (resumes, None)
    else
      var r := resumes[id];
      if r.status.Complete? then (resumes, None)
      else if r.fileData.None? then (resumes[id := Fail(r, NO_LONGER_AVAILABLE, now)], None)
      else if r.status.Processing? then (resumes, r.fileData)
      else (resumes[id := r.(status := Processing, updatedAt := now)], r.fileData)
  }

  /** How text extraction, and `self.retry` after an unexpected error, can turn out. */
  datatype ParseOutcome =
    | Extracted(text: string)
    | Unreadable(message: string)
    | TimedOut
    | Retried
    | GaveUp
    | Escaped                    // an exception left the task: rolled back, message acknowledged

  /** `extract_text` only hands out what `normalise` returned, and nothing blank. */
  ghost predicate PossibleOutcome(outcome: ParseOutcome) {
    outcome.Extracted? ==> Strip(outcome.text) != "" && exists raw :: outcome.text == Normalise.Normalise(raw)
  }

  /** The second transaction of `parse_resume`. A row deleted meanwhile makes it roll back. */
  function FinishParse(resumes: Table, id: ResumeId, outcome: ParseOutcome, now: Time): Table {
    if id !in resumes then resumes
    else
      var r := resumes[id];
      match outcome
      case Extracted(text) =>
        resumes[id := r.(text := Some(text), status := Complete, error := None, fileData := None, updatedAt := now)]
      case Unreadable(message) => resumes[id := Fail(r, message, now)]
      case TimedOut => resumes[id := Fail(r, TOO_SLOW, now)]
      case GaveUp => resumes[id := Fail(r, FAILED_UNEXPECTEDLY, now)]
      case _ => resumes
  }

  datatype EmbedOutcome = Embedded(vector: Vector) | Skipped | EmbedRetried

  /** Whether `embed_resume` gets as far as the model. */
  predicate NeedsEmbedding(resumes: Table, id: ResumeId) {
    && id in resumes && resumes[id].embedding.None?
    && resumes[id].text.Some? && resumes[id].text.value != ""
  }

  function FinishEmbed(resumes: Table, id: ResumeId, outcome: EmbedOutcome, now: Time): Table {
    if NeedsEmbedding(resumes, id) && outcome.Embedded?
    then resumes[id := resumes[id].(embedding := Some(outcome.vector), updatedAt := now)]
    else resumes
  }

  predicate Stuck(r: Resume, cutoff: Time) {
    r.Unfinished() && r.updatedAt < cutoff
  }

  // ------------------------------------------------------------------ the running system

  datatype Message = ParseMessage(id: ResumeId) | EmbedMessage(id: ResumeId) | SweepMessage

  datatype Worker =
    | Idle
    | Received(message: Message)
    | Extracting(id: ResumeId, data: Bytes)
    | AboutToEmbed(id: ResumeId)
    | Embedding(id: ResumeId)
    | Sweeping(cutoff: Time, todo: seq<(ResumeId, bool)>, failing: set<ResumeId>)
    | Done(message: Message)

  /** `used`: every id ever given to a resume. `uploads`: committed by a request that has yet to
      enqueue. `stranded`: resumes whose message was lost, because a request or a worker died or an
      exception escaped. */
  datatype System = System(
    clock: Time,
    resumes: Table,
    used: set<ResumeId>,
    queue: multiset<Message>,
    worker: Worker,
    uploads: multiset<ResumeId>,
    stranded: set<ResumeId>)

  /** The unacknowledged message a worker is busy with. */
  function InFlight(w: Worker): Option<Message> {
    match w
    case Idle => None
    case Received(m) => Some(m)
    case Extracting(id, _) => Some(ParseMessage(id))
    case AboutToEmbed(id) => Some(ParseMessage(id))
    case Embedding(_) => None
    case Sweeping(_, _, _) => Some(SweepMessage)
    case Done(m) => Some(m)
  }

  datatype Action =
    | CommitUpload(id: ResumeId, user: UserId, data: Bytes)
    | EnqueueUpload(id: ResumeId)
    | UploadDies(id: ResumeId)
    | Delete(id: ResumeId)
    | Beat
    | Deliver(message: Message)
    | BeginTask(age: int, selected: seq<(ResumeId, bool)>)
    | EndParse(outcome: ParseOutcome)
    | SendEmbed
    | EndEmbed(embed: EmbedOutcome)
    | SweepNext
    | SweepCommit
    | Acknowledge
    | Crash(redelivered: bool)

  ghost predicate Enabled(x: System, a: Action) {
    match a
    case CommitUpload(id, user, data) =>
      id !in x.used && data != [] && |UnfinishedOf(x.resumes, user)| < MAX_PENDING_PER_USER
    case EnqueueUpload(id) => id in x.uploads
    case UploadDies(id) => id in x.uploads
    case Delete(id) => true
    case Beat => true
    case Deliver(m) => x.worker.Idle? && m in x.queue
    case BeginTask(age, _) => x.worker.Received? && age >= 0
    case EndParse(outcome) => x.worker.Extracting? && PossibleOutcome(outcome)
    case SendEmbed => x.worker.AboutToEmbed?
    case EndEmbed(_) => x.worker.Embedding?
    case SweepNext => x.worker.Sweeping? && x.worker.todo != []
    case SweepCommit => x.worker.Sweeping? && x.worker.todo == []
    case Acknowledge => x.worker.Done?
    case Crash(_) => !x.worker.Idle?
  }

  /** The rows a sweep selects, each with "are its bytes gone?". */
  ghost predicate Selects(resumes: Table, cutoff: Time, todo: seq<(ResumeId, bool)>) {
    forall id, gone :: (id, gone) in todo <==>
        id in resumes && Stuck(resumes[id], cutoff) && gone == resumes[id].fileData.None?
  }

  function Interrupted(r: Resume, now: Time): Resume {
    r.(status := Failed, error := Some(INTERRUPTED), updatedAt := now)
  }

  function FailAll(resumes: Table, failing: set<ResumeId>, now: Time): Table {
    map r | r in resumes :: if r in failing then Interrupted(resumes[r], now) else resumes[r]
  }

  /** One atomic step at time `now`; a sweep may list the rows it selects in any order. */
  ghost predicate Step(x: System, a: Action, now: Time, y: System)
    requires Enabled(x, a)
  {
    var x' := x.(clock := now);
    && x.clock <= now
    && match a
       case CommitUpload(id, user, data) =>
         y == x'.(resumes := x.resumes[id := Resume(user, Pending, Some(data), None, None, None, now)],
                  used := x.used + {id}, uploads := x.uploads + multiset{id})
       case EnqueueUpload(id) =>
         y == x'.(uploads := x.uploads - multiset{id}, queue := x.queue + multiset{ParseMessage(id)})
       case UploadDies(id) => y == x'.(uploads := x.uploads - multiset{id}, stranded := x.stranded + {id})
       case Delete(id) => y == x'.(resumes := x.resumes - {id})
       case Beat => y == x'.(queue := x.queue + multiset{SweepMessage})
       case Deliver(m) =>
         y == x'.(queue := x.queue - multiset{m}, worker := if m.EmbedMessage? then Embedding(m.id) else Received(m))
       case BeginTask(age, selected) =>
         (match x.worker.message
          case ParseMessage(id) =>
            var (resumes, data) := StartParse(x.resumes, id, now);
            y == x'.(resumes := resumes, worker := if data.Some? then Extracting(id, data.value)
                     else Done(x.worker.message))
          case EmbedMessage(_) => y == x'
          case SweepMessage =>
            Selects(x.resumes, now - age, selected) && y == x'.(worker := Sweeping(now - age, selected, {})))
       case EndParse(outcome) =>
         var id := x.worker.id;
         y == x'.(resumes := FinishParse(x.resumes, id, outcome, now),
                  worker := if outcome.Extracted? && id in x.resumes then AboutToEmbed(id) else Done(ParseMessage(id)),
                  queue := if outcome.Retried? then x.queue + multiset{ParseMessage(id)} else x.queue,
                  stranded := if outcome.Escaped? then x.stranded + {id} else x.stranded)
       case SendEmbed =>
         y == x'.(queue := x.queue + multiset{EmbedMessage(x.worker.id)}, worker := Done(ParseMessage(x.worker.id)))
       case EndEmbed(outcome) =>
         y == x'.(resumes := FinishEmbed(x.resumes, x.worker.id, outcome, now), worker := Idle,
                  queue := if outcome.EmbedRetried? then x.queue + multiset{EmbedMessage(x.worker.id)} else x.queue)
       case SweepNext =>
         var (id, gone) := x.worker.todo[0];
         y == x'.(worker := x.worker.(todo := x.worker.todo[1..], failing := if gone then x.worker.failing + {id}
                                      else x.worker.failing),
                  queue := if gone then x.queue else x.queue + multiset{ParseMessage(id)})
       case SweepCommit =>
         y == x'.(resumes := FailAll(x.resumes, x.worker.failing, now), worker := Done(SweepMessage))
       case Acknowledge => y == x'.(worker := Idle)
       case Crash(redelivered) =>
         var m := InFlight(x.worker);
         y == x'.(worker := Idle,
                  queue := if m.Some? && redelivered then x.queue + multiset{m.value} else x.queue,
                  stranded := if m.Some? && !redelivered && m.value.ParseMessage? then x.stranded + {m.value.id}
                    else x.stranded)
  }
}
