/** The durable outbox of AI jobs, the write-once result table, and the hand-off between them. */
module Outbox {
  import opened Prelude

  datatype JobRef = JobRef(jobId: string, tenantId: string, conversationId: string, operationId: string,
                           generation: nat) {
    function Key(): FileKey { FileKey(tenantId, jobId) }
  }

  /** A record's file: the tenant's directory and the job id. */
  datatype FileKey = FileKey(tenantId: string, jobId: string)

  /** `valid` stands for the profile's own checks beyond a positive version: provider combination and thresholds. */
  datatype Profile = Profile(profileId: string, version: nat, postCallAnalysis: bool, valid: bool)

  datatype Stream = Stream(streamId: string, participantId: string)

  datatype Submission = Submission(job: JobRef, profile: Profile, participants: seq<string>, streams: seq<Stream>) {
    predicate Valid() {
      && job.generation != 0 && participants != [] && streams != []
      && profile.version != 0 && profile.valid && profile.postCallAnalysis
      && forall i :: 0 <= i < |streams| ==> streams[i].participantId in participants
    }
  }

  /** `content` stands for capture quality, transcript and structured result. */
  datatype Completion = Completion(job: JobRef, version: nat, content: string)

  datatype Message =
    | SubmitJob(submission: Submission)
    | EndAudioInput(job: JobRef, finalSequences: map<string, nat>)
    | ResultPersisted(job: JobRef, version: nat)
  {
    /** The protocol's own validation of outgoing messages. */
    predicate Valid() {
      match this
      case SubmitJob(s) => s.Valid()
      case EndAudioInput(_, sequences) => sequences != map[]
      case ResultPersisted(_, _) => true
    }
  }

  datatype Stage = PendingSubmission | Accepted | InputEnded | Completed | ResultStored {
    function Rank(): nat {
      match this
      case PendingSubmission => 0
      case Accepted => 1
      case InputEnded => 2
      case Completed => 3
      case ResultStored => 4
    }
  }

  datatype OutboxError =
    | InvalidSubmission | JobIdCollision | NoRecord | JobMismatch | NoSequences | SequenceCollision | ResultCollision
    | NoResult | VersionMismatch | AckMismatch | InvalidVersion | StoreFault
    | ReadFault | WriteFault

  /** A row of the result table. */
  datatype Row = Row(job: JobRef, version: nat, profile: Profile, content: string, receivedAt: nat)

  datatype Record = Record(submission: Submission, stage: Stage, finalSequences: map<string, nat>,
                           completed: Option<Completion>, receivedAt: Option<nat>, createdAt: nat, updatedAt: nat) {
    function PendingMessage(): Option<Message> {
      match stage
      case PendingSubmission => Some(SubmitJob(submission))
      case InputEnded => Some(EndAudioInput(submission.job, finalSequences))
      case ResultStored =>
        if completed.None? then None else Some(ResultPersisted(completed.value.job, completed.value.version))
      case Accepted => None
      case Completed => None
    }

    /** completed_received_at_ms: records written before the field existed fall back to the update time */
    function ReceivedAt(): nat { if receivedAt.Some? then receivedAt.value else updatedAt }

    /** The row persisting the completed result writes. */
    function ToRow(): Row
      requires completed.Some?
    {
      Row(completed.value.job, completed.value.version, submission.profile, completed.value.content, ReceivedAt())
    }

    function MarkAccepted(): Record { if stage == PendingSubmission then this.(stage := Accepted) else this }

    function MarkInputEnded(sequences: map<string, nat>): Result<Record, OutboxError> {
      if stage == Completed || stage == ResultStored then Ok(this)
      else if finalSequences != map[] && finalSequences != sequences then Err(SequenceCollision)
      else Ok(this.(finalSequences := sequences, stage := InputEnded))
    }

    function MarkCompleted(c: Completion, now: nat): Result<Record, OutboxError> {
      if completed.Some? && completed.value.version > c.version then Ok(this)
      else if completed.Some? && completed.value.version == c.version then
        if completed.value == c then Ok(this) else Err(ResultCollision)
      else Ok(this.(completed := Some(c), receivedAt := Some(now), stage := Completed))
    }

    function MarkResultStored(version: nat): Result<Record, OutboxError> {
      if completed.None? then Err(NoResult)
      else if completed.value.version != version then Err(VersionMismatch)
      else Ok(this.(stage := ResultStored))
    }
  }

  type Files = map<FileKey, Record>

  /** The read half of a read-modify-write on a record's file. */
  function Find(files: Files, job: JobRef): Result<Record, OutboxError> {
    if job.Key() !in files then Err(NoRecord)
    else if files[job.Key()].submission.job != job then Err(JobMismatch)
    else Ok(files[job.Key()])
  }

  /** The write half; an unchanged record still gets a new update time. */
  function Write(files: Files, job: JobRef, changed: Result<Record, OutboxError>, now: nat)
    : (Files, Result<Record, OutboxError>)
  {
    if changed.Err? then (files, changed)
    else (files[job.Key() := changed.value.(updatedAt := now)], Ok(changed.value.(updatedAt := now)))
  }

  function Append(files: Files, s: Submission, now: nat): (Files, Result<Record, OutboxError>) {
    if !s.Valid() then (files, Err(InvalidSubmission))
    else if s.job.Key() in files then
      (files, if files[s.job.Key()].submission == s then Ok(files[s.job.Key()]) else Err(JobIdCollision))
    else
      var record := Record(s, PendingSubmission, map[], None, None, now, now);
      (files[s.job.Key() := record], Ok(record))
  }

  function Accept(files: Files, job: JobRef, now: nat): (Files, Result<Record, OutboxError>) {
    var r := Find(files, job);
    Write(files, job, if r.Ok? then Ok(r.value.MarkAccepted()) else r, now)
  }

  function EndInput(files: Files, job: JobRef, sequences: map<string, nat>, now: nat)
    : (Files, Result<Record, OutboxError>)
  {
    if sequences == map[] then (files, Err(NoSequences))
    else
      var r := Find(files, job);
      Write(files, job, if r.Ok? then r.value.MarkInputEnded(sequences) else r, now)
  }

  function Complete(files: Files, c: Completion, received: nat, now: nat): (Files, Result<Record, OutboxError>) {
    var r := Find(files, c.job);
    Write(files, c.job, if r.Ok? then r.value.MarkCompleted(c, received) else r, now)
  }

  function StoreResult(files: Files, job: JobRef, version: nat, now: nat): (Files, Result<Record, OutboxError>) {
    var r := Find(files, job);
    Write(files, job, if r.Ok? then r.value.MarkResultStored(version) else r, now)
  }

  function Acknowledge(files: Files, job: JobRef, version: nat): (Files, Result<bool, OutboxError>) {
    if job.Key() !in files then (files, Ok(false))
    else
      var record := files[job.Key()];
      if record.submission.job != job then (files, Err(JobMismatch))
      else if record.completed.None? then (files, Err(NoResult))
      else if record.stage != ResultStored || record.completed.value.version != version then (files, Err(AckMismatch))
      else (files - {job.Key()}, Ok(true))
  }

  type Results = map<(FileKey, nat), Row>

  /** INSERT OR IGNORE, then compare: the table keeps the first row of a job's version. */
  function Persist(results: Results, row: Row, fault: bool): (Results, Result<(), OutboxError>) {
    if row.version == 0 || row.profile.version == 0 then (results, Err(InvalidVersion))
    else if fault then (results, Err(StoreFault))
    else if (row.job.Key(), row.version) !in results then (results[(row.job.Key(), row.version) := row], Ok(()))
    else if results[(row.job.Key(), row.version)] == row then (results, Ok(()))
    else (results, Err(ResultCollision))
  }

  class AiSubmissionOutbox {
    var files: Files

    constructor ()
      ensures files == map[]
    {
      files := map[];
    }

    method AppendJob(s: Submission, now: nat) returns (answer: Result<Record, OutboxError>)
      modifies this
      ensures (files, answer) == Append(old(files), s, now)
    {
      if !s.Valid() {
        return Err(InvalidSubmission);
      }
      if s.job.Key() in files {
        var existing := files[s.job.Key()];
        return if existing.submission != s then Err(JobIdCollision) else Ok(existing);
      }
      var record := Record(s, PendingSubmission, map[], None, None, now, now);
      files := files[s.job.Key() := record];
      answer := Ok(record);
    }

    method MarkAccepted(job: JobRef, now: nat) returns (answer: Result<Record, OutboxError>)
      modifies this
      ensures (files, answer) == Accept(old(files), job, now)
    {
      answer := Find(files, job);
      if answer.Ok? {
        var record := answer.value;
        if record.stage == PendingSubmission {
          record := record.(stage := Accepted);
        }
        record := record.(updatedAt := now);
        files := files[job.Key() := record];
        answer := Ok(record);
      }
    }

    method MarkInputEnded(job: JobRef, sequences: map<string, nat>, now: nat)
      returns (answer: Result<Record, OutboxError>)
      modifies this
      ensures (files, answer) == EndInput(old(files), job, sequences, now)
    {
      if sequences == map[] {
        return Err(NoSequences);
      }
      answer := Find(files, job);
      if answer.Ok? {
        var record := answer.value;
        if record.stage != Completed && record.stage != ResultStored {
          if record.finalSequences != map[] && record.finalSequences != sequences {
            return Err(SequenceCollision);
          }
          record := record.(finalSequences := sequences, stage := InputEnded);
        }
        record := record.(updatedAt := now);
        files := files[job.Key() := record];
        answer := Ok(record);
      }
    }

    method MarkCompleted(c: Completion, received: nat, now: nat) returns (answer: Result<Record, OutboxError>)
      modifies this
      ensures (files, answer) == Complete(old(files), c, received, now)
    {
      answer := Find(files, c.job);
      if answer.Ok? {
        var record := answer.value;
        if record.completed.Some? && record.completed.value.version == c.version && record.completed.value != c {
          return Err(ResultCollision);
        }
        if record.completed.None? || record.completed.value.version < c.version {
          record := record.(completed := Some(c), receivedAt := Some(received), stage := Completed);
        }
        record := record.(updatedAt := now);
        files := files[c.job.Key() := record];
        answer := Ok(record);
      }
    }

    method MarkResultStored(job: JobRef, version: nat, now: nat) returns (answer: Result<Record, OutboxError>)
      modifies this
      ensures (files, answer) == StoreResult(old(files), job, version, now)
    {
      answer := Find(files, job);
      if answer.Ok? {
        var record := answer.value;
        if record.completed.None? {
          return Err(NoResult);
        }
        if record.completed.value.version != version {
          return Err(VersionMismatch);
        }
        record := record.(stage := ResultStored, updatedAt := now);
        files := files[job.Key() := record];
        answer := Ok(record);
      }
    }

    method AcknowledgeResult(job: JobRef, version: nat) returns (answer: Result<bool, OutboxError>)
      modifies this
      ensures (files, answer) == Acknowledge(old(files), job, version)
    {
      if job.Key() !in files {
        return Ok(false);
      }
      var record := files[job.Key()];
      if record.submission.job != job {
        return Err(JobMismatch);
      }
      if record.completed.None? {
        return Err(NoResult);
      }
      if record.stage != ResultStored || record.completed.value.version != version {
        return Err(AckMismatch);
      }
      files := files - {job.Key()};
      answer := Ok(true);
    }
  }

  class ResultStore {
    var results: Results

    constructor ()
      ensures results == map[]
    {
      results := map[];
    }

    method PersistAiResult(row: Row, fault: bool) returns (answer: Result<(), OutboxError>)
      modifies this
      ensures (results, answer) == Persist(old(results), row, fault)
    {
      if row.version == 0 || row.profile.version == 0 {
        return Err(InvalidVersion);
      }
      if fault {
        return Err(StoreFault);
      }
      var key := (row.job.Key(), row.version);
      if key !in results {
        results := results[key := row];
      }
      answer := if results[key] == row then Ok(()) else Err(ResultCollision);
    }
  }
}
