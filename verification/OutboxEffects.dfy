/** What each outbox operation leaves behind, the version a record holds over a run, and a whole hand-off. */
module OutboxEffects {
  import opened Prelude
  import opened Outbox
  import opened OutboxProtocol

  // ---- The operations ----

  /** There is a record for exactly this job. */
  predicate Known(files: Files, job: JobRef) {
    job.Key() in files && files[job.Key()].submission.job == job
  }

  /** Two jobs share a record's place exactly if tenant and job id are the same. */
  lemma KeysSeparate(a: JobRef, b: JobRef)
    ensures a.Key() == b.Key() <==> a.tenantId == b.tenantId && a.jobId == b.jobId
  {
  }

  /** The answer for a job without a record, or with the record of another job of that id. */
  function Refusal(files: Files, job: JobRef): OutboxError {
    if job.Key() in files then JobMismatch else NoRecord
  }

  /**
   * A first or newer completion becomes the record's, with its arrival time. The same completion again, or one of an
   * older version, changes only the update time; another completion of the same version is refused.
   */
  lemma CompleteExactly(files: Files, c: Completion, received: nat, now: nat)
    ensures var (files', answer) := Complete(files, c, received, now);
            if !Known(files, c.job) then files' == files && answer == Err(Refusal(files, c.job))
            else
              var r := files[c.job.Key()];
              if r.completed.None? || r.completed.value.version < c.version then
                var r' := Record(r.submission, Completed, r.finalSequences, Some(c), Some(received), r.createdAt, now);
                files' == files[c.job.Key() := r'] && answer == Ok(r')
              else if r.completed.value.version == c.version && r.completed.value != c then
                files' == files && answer == Err(ResultCollision)
              else
                files' == files[c.job.Key() := r.(updatedAt := now)] && answer == Ok(r.(updatedAt := now))
  {
  }

  /**
   * A new job gets a pending record exactly if its submission is complete and every stream is of one of its
   * participants; the same submission again answers the record there is, and any other collides.
   */
  lemma AppendExactly(files: Files, s: Submission, now: nat)
    ensures var (files', answer) := Append(files, s, now);
            if s.job.generation == 0 || |s.participants| == 0 || |s.streams| == 0 || s.profile.version == 0
               || !s.profile.valid || !s.profile.postCallAnalysis
               || exists stream :: stream in s.streams && stream.participantId !in s.participants
            then files' == files && answer == Err(InvalidSubmission)
            else if s.job.Key() !in files then
              var r := Record(s, PendingSubmission, map[], None, None, now, now);
              files' == files[s.job.Key() := r] && answer == Ok(r)
            else
              && files' == files
              && answer == if files[s.job.Key()].submission == s then Ok(files[s.job.Key()]) else Err(JobIdCollision)
  {
  }

  /** Acceptance moves a pending record on and leaves any later stage alone. */
  lemma AcceptExactly(files: Files, job: JobRef, now: nat)
    ensures var (files', answer) := Accept(files, job, now);
            if !Known(files, job) then files' == files && answer == Err(Refusal(files, job))
            else
              var r := files[job.Key()];
              var stage := if r.stage.PendingSubmission? then Accepted else r.stage;
              files' == files[job.Key() := r.(stage := stage, updatedAt := now)] && answer == Ok(files'[job.Key()])
  {
  }

  /** The end of the input sets the final sequences once, and is too late for a completed record. */
  lemma EndInputExactly(files: Files, job: JobRef, sequences: map<string, nat>, now: nat)
    ensures var (files', answer) := EndInput(files, job, sequences, now);
            if sequences == map[] then files' == files && answer == Err(NoSequences)
            else if !Known(files, job) then files' == files && answer == Err(Refusal(files, job))
            else
              var r := files[job.Key()];
              if r.stage.Completed? || r.stage.ResultStored? then
                files' == files[job.Key() := r.(updatedAt := now)] && answer == Ok(r.(updatedAt := now))
              else if r.finalSequences == map[] || r.finalSequences == sequences then
                var r' := r.(finalSequences := sequences, stage := InputEnded, updatedAt := now);
                files' == files[job.Key() := r'] && answer == Ok(r')
              else files' == files && answer == Err(SequenceCollision)
  {
  }

  /** A record is marked stored exactly for the version it holds. */
  lemma StoreExactly(files: Files, job: JobRef, version: nat, now: nat)
    ensures var (files', answer) := StoreResult(files, job, version, now);
            if !Known(files, job) then files' == files && answer == Err(Refusal(files, job))
            else
              var r := files[job.Key()];
              if r.completed.Some? && r.completed.value.version == version then
                var r' := r.(stage := ResultStored, updatedAt := now);
                files' == files[job.Key() := r'] && answer == Ok(r')
              else files' == files && answer == Err(if r.completed.None? then NoResult else VersionMismatch)
  {
  }

  /** A record is deleted exactly by the acknowledgement of its stored result; an unknown job is no error. */
  lemma AcknowledgeExactly(files: Files, job: JobRef, version: nat)
    ensures var (files', answer) := Acknowledge(files, job, version);
            && (answer == Ok(true) <==>
                  && Known(files, job) && files[job.Key()].stage.ResultStored?
                  && files[job.Key()].completed.Some? && files[job.Key()].completed.value.version == version)
            && (answer == Ok(false) <==> job.Key() !in files)
            && (if answer == Ok(true) then job.Key() !in files' && files'.Keys + {job.Key()} == files.Keys
                                      else files' == files)
            && forall key :: key in files' ==> key in files && files'[key] == files[key]
  {
  }

  /** A row is in the table afterwards exactly if it was, or is the first of its version and can be written. */
  lemma PersistExactly(results: Results, row: Row, fault: bool)
    ensures var (results', answer) := Persist(results, row, fault);
            var key := (row.job.Key(), row.version);
            && (answer.Ok? <==>
                  row.version > 0 && row.profile.version > 0 && !fault && (key !in results || results[key] == row))
            && results' == (if answer.Ok? then results[key := row] else results)
            && (answer == Err(ResultCollision) <==>
                  row.version > 0 && row.profile.version > 0 && !fault && key in results && results[key] != row)
            && (answer == Err(StoreFault) <==> row.version > 0 && row.profile.version > 0 && fault)
  {
    assert (row.job.Key(), row.version) in results ==>
             results[(row.job.Key(), row.version) := results[(row.job.Key(), row.version)]] == results;
  }

  /** What is sent again after a restart: the submission, the end of the input, or the stored result. */
  lemma PendingExactly(r: Record)
    requires RecordOk(r)
    ensures forall s :: r.PendingMessage() == Some(SubmitJob(s)) <==> r.stage.PendingSubmission? && s == r.submission
    ensures forall job, sequences :: r.PendingMessage() == Some(EndAudioInput(job, sequences)) <==>
              r.stage.InputEnded? && job == r.submission.job && sequences == r.finalSequences
    ensures forall job, version :: r.PendingMessage() == Some(ResultPersisted(job, version)) <==>
              r.stage.ResultStored? && job == r.submission.job && r.completed.value.version == version
    ensures r.PendingMessage().None? <==> r.stage.Accepted? || r.stage.Completed?
  {
  }

  // ---- The version a record holds ----

  /** One more than the version of a completion the step records or repeats for the key, otherwise 0. */
  ghost function Told(s: System, step: Step, key: FileKey): nat {
    if step.JobCompleted? && step.completion.job.Key() == key
       && Complete(s.files, step.completion, step.received, step.now).1.Ok?
    then step.completion.version + 1 else 0
  }

  /** The largest of these over the run. */
  ghost function Highest(s: System, run: seq<Step>, key: FileKey): nat
    requires Valid(s, run)
    decreases |run|
  {
    if run == [] then 0 else Max(Told(s, run[0], key), Highest(Apply(s, run[0]), run[1..], key))
  }

  ghost function Held(s: System, key: FileKey): nat { if key in s.files then Version(s.files[key]) else 0 }

  lemma AppendHolds(s: System, submission: Submission, now: nat, key: FileKey)
    ensures Held(s.(files := Append(s.files, submission, now).0), key) == Held(s, key)
  {
  }

  lemma UpdatesHold(s: System, job: JobRef, sequences: map<string, nat>, version: nat, now: nat, key: FileKey)
    ensures Held(s.(files := Accept(s.files, job, now).0), key) == Held(s, key)
    ensures Held(s.(files := EndInput(s.files, job, sequences, now).0), key) == Held(s, key)
    ensures Held(s.(files := StoreResult(s.files, job, version, now).0), key) == Held(s, key)
  {
    AcceptExactly(s.files, job, now);
    EndInputExactly(s.files, job, sequences, now);
    StoreExactly(s.files, job, version, now);
  }

  lemma CompleteHolds(s: System, c: Completion, received: nat, now: nat, key: FileKey)
    requires s.worker.Idle?
    ensures var step := JobCompleted(c, received, now);
            Held(Apply(s, step), key) == Max(Held(s, key), Told(s, step, key))
  {
    CompleteExactly(s.files, c, received, now);
  }

  lemma MarkStoredHolds(s: System, now: nat, key: FileKey)
    requires s.worker.Storing?
    ensures Held(Apply(s, MarkStored(now)), key) == Held(s, key)
  {
    if s.worker.record.completed.Some? {
      var c := s.worker.record.completed.value;
      UpdatesHold(s, c.job, map[], c.version, now, key);
    }
  }

  lemma AcknowledgeHolds(s: System, job: JobRef, version: nat, key: FileKey)
    requires key in Apply(s, Acknowledged(job, version)).files
    ensures Held(Apply(s, Acknowledged(job, version)), key) == Held(s, key)
  {
    AcknowledgeExactly(s.files, job, version);
  }

  lemma StepHolds(s: System, step: Step, key: FileKey)
    requires Enabled(s, step) && key in Apply(s, step).files
    ensures Held(Apply(s, step), key) == Max(Held(s, key), Told(s, step, key))
  {
    match step
    case AppendJob(submission, now) => AppendHolds(s, submission, now, key);
    case JobAccepted(job, now) => UpdatesHold(s, job, map[], 0, now, key);
    case CallEnded(job, sequences, now) => UpdatesHold(s, job, sequences, 0, now, key);
    case JobCompleted(c, received, now) => CompleteHolds(s, c, received, now, key);
    case MarkStored(now) => MarkStoredHolds(s, now, key);
    case Acknowledged(job, version) => AcknowledgeHolds(s, job, version, key);
    case PersistResult(_) =>
    case Replay(_) =>
    case Crash =>
  }

  /** A key without a record, appended at most once, has none before its append. */
  lemma StillThere(s: System, run: seq<Step>, key: FileKey)
    requires Valid(s, run) && AppendedOnce(s, run) && key in s.appended && key in Execute(s, run).files
    ensures key in s.files
  {
    if key !in s.files {
      GoneForEver(s, run, key);
    }
  }

  /**
   * Over every run, with crashes and replays anywhere, a record holds the highest version ever accepted for it: no
   * newer result is dropped and no older one comes back.
   */
  lemma {:induction false} HighestOnEveryRun(s: System, run: seq<Step>, key: FileKey)
    requires Safe(s) && Valid(s, run) && AppendedOnce(s, run) && key in Execute(s, run).files
    ensures Version(Execute(s, run).files[key]) == Max(Held(s, key), Highest(s, run, key))
    decreases |run|
  {
    if run != [] {
      var next := Apply(s, run[0]);
      StepSafe(s, run[0]);
      HighestOnEveryRun(next, run[1..], key);
      if key in next.files {
        StepHolds(s, run[0], key);
      } else {
        NotYet(s, run[0], run[1..], key);
      }
    }
  }

  lemma AppendedGrows(s: System, step: Step)
    requires Possible(s, step)
    ensures s.appended <= Apply(s, step).appended
  {
  }

  /** A step after which there is no record yet, but will be, met none either. */
  lemma NotYet(s: System, step: Step, rest: seq<Step>, key: FileKey)
    requires Safe(s) && Enabled(s, step) && key !in Apply(s, step).files
    requires Valid(Apply(s, step), rest) && AppendedOnce(Apply(s, step), rest)
    requires key in Execute(Apply(s, step), rest).files
    ensures Held(s, key) == 0 && Told(s, step, key) == 0
  {
    if key in s.files {
      assert FileOk(s, key, s.files[key]);
      AppendedGrows(s, step);
      StillThere(Apply(s, step), rest, key);
    }
    ToldHolds(s, step, key);
  }

  /** A completion is accepted only for a record. */
  lemma ToldHolds(s: System, step: Step, key: FileKey)
    ensures Told(s, step, key) > 0 ==> key in s.files && (Possible(s, step) ==> key in Apply(s, step).files)
  {
    if step.JobCompleted? {
      CompleteExactly(s.files, step.completion, step.received, step.now);
    }
  }

  /** Once accepted, a completion is only ever replaced by one of a higher version, and keeps its arrival time. */
  lemma AcceptedIsKept(s: System, c: Completion, received: nat, now: nat, rest: seq<Step>)
    requires Safe(s) && s.worker.Idle? && Complete(s.files, c, received, now).1.Ok?
    requires var next := Apply(s, JobCompleted(c, received, now)); Valid(next, rest) && AppendedOnce(next, rest)
    requires c.job.Key() in Execute(Apply(s, JobCompleted(c, received, now)), rest).files
    ensures var end := Execute(Apply(s, JobCompleted(c, received, now)), rest).files[c.job.Key()];
            && end.completed.Some? && end.completed.value.version >= c.version
            && (end.completed.value.version == c.version ==>
                  && end.completed.value == c
                  && (Held(s, c.job.Key()) <= c.version ==> end.receivedAt == Some(received)))
  {
    var next, key := Apply(s, JobCompleted(c, received, now)), c.job.Key();
    StepSafe(s, JobCompleted(c, received, now));
    Recorded(s, c, received, now);
    RecordsAdvance(next, rest, key);
  }

  lemma Recorded(s: System, c: Completion, received: nat, now: nat)
    requires s.worker.Idle? && Complete(s.files, c, received, now).1.Ok?
    ensures var next, key := Apply(s, JobCompleted(c, received, now)), c.job.Key();
            && key in next.files && next.files[key].completed.Some?
            && next.files[key].completed.value.version >= c.version
            && (next.files[key].completed.value.version == c.version ==> next.files[key].completed.value == c)
            && (Held(s, key) <= c.version ==> next.files[key].receivedAt == Some(received))
  {
    CompleteExactly(s.files, c, received, now);
  }

  // ---- A whole hand-off ----

  /** The record with a newly accepted completion. */
  function Renewed(r: Record, stage: Stage, c: Completion, received: nat, now: nat): Record {
    Record(r.submission, stage, r.finalSequences, Some(c), Some(received), r.createdAt, now)
  }

  /** A first or newer completion goes to the worker, and the table has no row of its version yet. */
  lemma NewlyCompleted(s: System, c: Completion, received: nat, now: nat)
    requires Safe(s) && s.worker.Idle? && Known(s.files, c.job) && Held(s, c.job.Key()) <= c.version
    ensures var s1, r := Apply(s, JobCompleted(c, received, now)), s.files[c.job.Key()];
            && s1.files == s.files[c.job.Key() := Renewed(r, Completed, c, received, now)]
            && s1.worker == Persisting(Renewed(r, Completed, c, received, now)) && s1.results == s.results
    ensures s.files[c.job.Key()].submission.Valid() && (c.job.Key(), c.version) !in s.results
  {
    assert FileOk(s, c.job.Key(), s.files[c.job.Key()]);
    CompleteExactly(s.files, c, received, now);
  }

  /** A record's row that is not in the table yet is added. */
  lemma NewlyPersisted(s: System, r: Record, c: Completion, received: nat)
    requires s.worker == Persisting(r) && r.completed == Some(c) && r.receivedAt == Some(received)
    requires c.version != 0 && r.submission.Valid() && (c.job.Key(), c.version) !in s.results
    ensures var s' := Apply(s, PersistResult(false));
            && s'.files == s.files && s'.worker == Storing(r)
            && s'.results == s.results[(c.job.Key(), c.version) :=
                                       Row(c.job, c.version, r.submission.profile, c.content, received)]
  {
  }

  /** The record the worker holds is marked stored, and then reports its result. */
  lemma NewlyStored(s: System, r: Record, c: Completion, now: nat)
    requires s.worker == Storing(r) && r.completed == Some(c) && r.submission.job == c.job
    requires c.job.Key() in s.files && s.files[c.job.Key()] == r
    ensures var s', r' := Apply(s, MarkStored(now)), r.(stage := ResultStored, updatedAt := now);
            && s'.files == s.files[c.job.Key() := r'] && s'.worker.Idle? && s'.results == s.results
            && r'.PendingMessage() == Some(ResultPersisted(c.job, c.version))
  {
    StoreExactly(s.files, c.job, c.version, now);
  }

  /** The worker's two steps on a newly completed record. */
  lemma NewlyHandedOff(s: System, r: Record, c: Completion, received: nat, stored: nat)
    requires s.worker == Persisting(r) && r.completed == Some(c) && r.receivedAt == Some(received)
    requires c.version != 0 && r.submission.Valid() && (c.job.Key(), c.version) !in s.results
    requires r.submission.job == c.job && c.job.Key() in s.files && s.files[c.job.Key()] == r
    ensures Valid(s, [PersistResult(false), MarkStored(stored)])
    ensures var end := Execute(s, [PersistResult(false), MarkStored(stored)]);
            var r' := r.(stage := ResultStored, updatedAt := stored);
            && end.files == s.files[c.job.Key() := r'] && end.worker.Idle?
            && end.results == s.results[(c.job.Key(), c.version) :=
                                        Row(c.job, c.version, r.submission.profile, c.content, received)]
            && r'.PendingMessage() == Some(ResultPersisted(c.job, c.version))
  {
    NewlyPersisted(s, r, c, received);
    var s2 := Apply(s, PersistResult(false));
    NewlyStored(s2, r, c, stored);
    OneStep(s2, MarkStored(stored));
    Prepend(s, PersistResult(false), [MarkStored(stored)]);
  }

  /** The three steps of a hand-off without faults. */
  function HandingOff(c: Completion, received: nat, now: nat, stored: nat): seq<Step> {
    [JobCompleted(c, received, now)] + [PersistResult(false), MarkStored(stored)]
  }

  /** Exactly the completion's row was added, and its record is stored, ready to report it. */
  ghost predicate HandedOff(s: System, c: Completion, received: nat, stored: nat, end: System)
    requires c.job.Key() in s.files
  {
    var r, key := s.files[c.job.Key()], (c.job.Key(), c.version);
    var r' := Record(r.submission, ResultStored, r.finalSequences, Some(c), Some(received), r.createdAt, stored);
    && key !in s.results && end.worker.Idle?
    && end.results == s.results[key := Row(c.job, c.version, r.submission.profile, c.content, received)]
    && end.files == s.files[c.job.Key() := r'] && r'.PendingMessage() == Some(ResultPersisted(c.job, c.version))
  }

  /** From any safe state, a first or newer result is handed off completely when no fault comes in between. */
  lemma HandedOffExactly(s: System, c: Completion, received: nat, now: nat, stored: nat)
    requires Safe(s) && s.worker.Idle? && Known(s.files, c.job) && Held(s, c.job.Key()) <= c.version && c.version != 0
    ensures var run := HandingOff(c, received, now, stored);
            Valid(s, run) && HandedOff(s, c, received, stored, Execute(s, run))
  {
    var r := s.files[c.job.Key()];
    NewlyCompleted(s, c, received, now);
    var s1 := Apply(s, JobCompleted(c, received, now));
    NewlyHandedOff(s1, Renewed(r, Completed, c, received, now), c, received, stored);
    Prepend(s, JobCompleted(c, received, now), [PersistResult(false), MarkStored(stored)]);
  }
}
