/** Crash safety of the result hand-off: a crash may fall between any two durable writes, and replays repeat work. */
module OutboxProtocol {
  import opened Prelude
  import opened Outbox

  // ---- What every record keeps ----

  /** A completion is present exactly in the last two stages, is for the submitted job, and has its arrival time. */
  ghost predicate RecordOk(r: Record) {
    && r.submission.Valid()
    && (r.stage in {Completed, ResultStored} <==> r.completed.Some?)
    && (r.completed.Some? ==> r.completed.value.job == r.submission.job && r.receivedAt.Some?)
    && (r.stage.InputEnded? ==> r.finalSequences != map[])
  }

  function Version(r: Record): nat { if r.completed.None? then 0 else r.completed.value.version + 1 }

  /** (version, stage) does not fall, submission and arrival time of a version are fixed, sequences are write-once. */
  ghost predicate Advances(r: Record, r': Record) {
    && r'.submission == r.submission && r'.createdAt == r.createdAt
    && (Version(r) < Version(r') || (Version(r) == Version(r') && r.stage.Rank() <= r'.stage.Rank()))
    && (Version(r) == Version(r') ==> r'.completed == r.completed && r'.receivedAt == r.receivedAt)
    && (r.finalSequences != map[] ==> r'.finalSequences == r.finalSequences)
  }

  /** Whatever a well-formed record has to send passes the protocol's validation. */
  lemma PendingIsValid(r: Record)
    requires RecordOk(r)
    ensures r.PendingMessage().Some? ==> r.PendingMessage().value.Valid()
  {
  }

  /** A record's row does not depend on when it was last updated exactly if its arrival time is recorded. */
  lemma RowIsStable(r: Record)
    requires r.completed.Some?
    ensures (forall now :: r.(updatedAt := now).ToRow() == r.ToRow()) <==> r.receivedAt.Some?
  {
    if r.receivedAt.None? {
      assert r.(updatedAt := r.updatedAt + 1).ToRow() != r.ToRow();
    }
  }

  // ---- Runs with crashes ----

  /** A worker handing off a completed record: about to persist its result, or about to mark it stored. */
  datatype Worker = Idle | Persisting(record: Record) | Storing(record: Record)

  /**
   * The durable state, the worker's volatile state, and three histories: the keys ever appended, the row of every
   * completion ever recorded, and the records deleted so far.
   */
  datatype System = System(files: Files, results: Results, worker: Worker, collided: bool,
                           appended: set<FileKey>, committed: Results, deleted: map<FileKey, Record>)

  const NEW_SYSTEM := System(map[], map[], Idle, false, {}, map[], map[])

  datatype Step =
    | AppendJob(submission: Submission, now: nat)
    | JobAccepted(job: JobRef, now: nat)
    | CallEnded(job: JobRef, sequences: map<string, nat>, now: nat)
    | JobCompleted(completion: Completion, received: nat, now: nat)
    | Replay(key: FileKey)
    | PersistResult(fault: bool)
    | MarkStored(now: nat)
    | Acknowledged(job: JobRef, version: nat)
    | Crash

  /** The worker does one thing at a time. */
  ghost predicate Possible(s: System, step: Step) {
    match step
    case Replay(key) => s.worker.Idle? && key in s.files && s.files[key].stage == Completed
    case PersistResult(_) => s.worker.Persisting?
    case MarkStored(_) => s.worker.Storing?
    case JobCompleted(_, _, _) => s.worker.Idle?
    case _ => true
  }

  /** A job is appended once: the key of a deleted record is not used again. */
  ghost predicate Once(s: System, step: Step) {
    step.AppendJob? ==> step.submission.job.Key() in s.files || step.submission.job.Key() !in s.appended
  }

  ghost predicate Enabled(s: System, step: Step) { Possible(s, step) && Once(s, step) }

  ghost function Apply(s: System, step: Step): System
    requires Possible(s, step)
  {
    match step
    case AppendJob(submission, now) =>
      var (files, answer) := Outbox.Append(s.files, submission, now);
      s.(files := files, appended := if answer.Ok? then s.appended + {submission.job.Key()} else s.appended)
    case JobAccepted(job, now) => s.(files := Accept(s.files, job, now).0)
    case CallEnded(job, sequences, now) => s.(files := EndInput(s.files, job, sequences, now).0)
    case JobCompleted(c, received, now) =>
      var (files, answer) := Complete(s.files, c, received, now);
      if answer.Err? then s else s.(files := files, worker := Persisting(answer.value),
                                    committed := Commit(s.committed, answer.value))
    case Replay(key) => s.(worker := Persisting(s.files[key]))
    case PersistResult(fault) => HandOff(s, fault)
    case MarkStored(now) =>
      var r := s.worker.record;
      if r.completed.None? then s.(worker := Idle)
      else s.(files := StoreResult(s.files, r.completed.value.job, r.completed.value.version, now).0, worker := Idle)
    case Acknowledged(job, version) =>
      var (files, answer) := Acknowledge(s.files, job, version);
      if answer == Ok(true) then s.(files := files, deleted := s.deleted[job.Key() := s.files[job.Key()]]) else s
    case Crash => s.(worker := Idle)
  }

  ghost function Commit(committed: Results, r: Record): Results {
    if r.completed.None? then committed
    else
      var key := (r.completed.value.job.Key(), r.completed.value.version);
      if key in committed then committed else committed[key := r.ToRow()]
  }

  /** The first half of persist_completed_record. */
  ghost function HandOff(s: System, fault: bool): System
    requires s.worker.Persisting?
  {
    var r := s.worker.record;
    if r.completed.None? then s.(worker := Idle)
    else
      var (results, answer) := Persist(s.results, r.ToRow(), fault);
      s.(results := results, worker := if answer.Ok? then Storing(r) else Idle,
         collided := s.collided || answer == Err(ResultCollision))
  }

  ghost predicate Valid(s: System, run: seq<Step>)
    decreases |run|
  {
    run != [] ==> Possible(s, run[0]) && Valid(Apply(s, run[0]), run[1..])
  }

  /** No step of the run appends a job again after its record was deleted. */
  ghost predicate AppendedOnce(s: System, run: seq<Step>)
    requires Valid(s, run)
    decreases |run|
  {
    run != [] ==> Once(s, run[0]) && AppendedOnce(Apply(s, run[0]), run[1..])
  }

  ghost function Execute(s: System, run: seq<Step>): System
    requires Valid(s, run)
    decreases |run|
  {
    if run == [] then s else Execute(Apply(s, run[0]), run[1..])
  }

  function RowKey(r: Record): (FileKey, nat)
    requires r.completed.Some?
  {
    (r.completed.value.job.Key(), r.completed.value.version)
  }

  /** The record's completion is the recorded one of its version, and no newer version was recorded. */
  ghost predicate Agrees(committed: Results, key: FileKey, r: Record) {
    && (r.completed.Some? ==> RowKey(r) in committed && committed[RowKey(r)] == r.ToRow())
    && forall v :: (key, v) in committed ==> v < Version(r)
  }

  /** A record under its own key; once stored its row is in the table. */
  ghost predicate FileOk(s: System, key: FileKey, r: Record) {
    && key in s.appended && r.submission.job.Key() == key && RecordOk(r)
    && Agrees(s.committed, key, r) && (r.stage == ResultStored ==> RowKey(r) in s.results)
  }

  ghost predicate FilesOk(s: System) { forall key :: key in s.files ==> FileOk(s, key, s.files[key]) }

  ghost predicate ResultsOk(s: System) {
    && (forall k :: k in s.results ==> k in s.committed && s.results[k] == s.committed[k])
    && forall k :: k in s.committed ==> k.0 in s.appended
  }

  ghost predicate WorkerOk(s: System) {
    && (!s.worker.Idle? ==>
          var r := s.worker.record;
          r.completed.Some? && RowKey(r) in s.committed && s.committed[RowKey(r)] == r.ToRow())
    && (s.worker.Storing? ==> RowKey(s.worker.record) in s.results)
  }

  /** A deleted record's result is in the table, exactly as the record had it. */
  ghost predicate DeletedOk(s: System) {
    forall key :: key in s.deleted ==>
      var r := s.deleted[key];
      r.completed.Some? && RowKey(r).0 == key && RowKey(r) in s.results && s.results[RowKey(r)] == r.ToRow()
  }

  ghost predicate Safe(s: System) {
    FilesOk(s) && ResultsOk(s) && WorkerOk(s) && DeletedOk(s) && !s.collided
  }

  lemma InitialSafe()
    ensures Safe(NEW_SYSTEM)
  {
  }

  lemma UpdateSafe(s: System, key: FileKey, r: Record)
    requires Safe(s) && key in s.files && RecordOk(r) && Advances(s.files[key], r)
             && Version(r) == Version(s.files[key])
    requires r.stage == ResultStored ==> s.files[key].stage == ResultStored || RowKey(r) in s.results
    ensures Safe(s.(files := s.files[key := r]))
  {
  }

  /** Recording a newer completion does not disturb the records of other keys. */
  lemma OtherFilesOk(s: System, key: FileKey, r: Record, next: System)
    requires FilesOk(s) && r.completed.Some? && RowKey(r).0 == key && RowKey(r) !in s.committed
    requires next.files == s.files[key := r] && next.committed == s.committed[RowKey(r) := r.ToRow()]
    requires next.appended == s.appended && next.results == s.results
    ensures forall k :: k in next.files && k != key ==> FileOk(next, k, next.files[k])
  {
    forall k | k in next.files && k != key ensures FileOk(next, k, next.files[k]) {
      assert FileOk(s, k, s.files[k]);
    }
  }

  /** A first or newer completion extends the recorded rows by its own. */
  lemma NewVersionSafe(s: System, key: FileKey, r: Record)
    requires Safe(s) && key in s.files && RecordOk(r) && r.submission == s.files[key].submission
    requires r.stage == Completed && Version(s.files[key]) < Version(r)
    ensures RowKey(r) !in s.committed
    ensures Safe(s.(files := s.files[key := r], worker := Persisting(r),
                    committed := s.committed[RowKey(r) := r.ToRow()]))
  {
    assert FileOk(s, key, s.files[key]);
    var next := s.(files := s.files[key := r], worker := Persisting(r),
                   committed := s.committed[RowKey(r) := r.ToRow()]);
    OtherFilesOk(s, key, r, next);
    assert FileOk(next, key, r);
    assert FilesOk(next);
    assert ResultsOk(next) && WorkerOk(next) && DeletedOk(next);
  }

  /** What the completion step does to a record that accepts it. */
  lemma CompletionApplied(s: System, c: Completion, received: nat, now: nat, r: Record)
    requires FilesOk(s) && s.worker.Idle? && Find(s.files, c.job) == Ok(r) && r.MarkCompleted(c, received).Ok?
    ensures var r' := r.MarkCompleted(c, received).value.(updatedAt := now);
            && RecordOk(r') && r'.completed.Some? && Advances(r, r')
            && (Version(r') == Version(r) || (Version(r) < Version(r') && r'.stage == Completed))
            && Apply(s, JobCompleted(c, received, now))
               == s.(files := s.files[c.job.Key() := r'], worker := Persisting(r'),
                 committed := Commit(s.committed, r'))
  {
    assert FileOk(s, c.job.Key(), r);
  }

  /** A repeated completion is handed off again. */
  lemma SameVersionSafe(s: System, key: FileKey, r: Record)
    requires Safe(s) && key in s.files && RecordOk(r) && Advances(s.files[key], r)
             && Version(r) == Version(s.files[key])
    requires r.completed.Some? && r.stage == s.files[key].stage
    ensures Safe(s.(files := s.files[key := r], worker := Persisting(r), committed := Commit(s.committed, r)))
  {
    UpdateSafe(s, key, r);
    assert FileOk(s, key, s.files[key]);
    assert Commit(s.committed, r) == s.committed;
  }

  lemma CompletedSafe(s: System, c: Completion, received: nat, now: nat)
    requires Safe(s) && s.worker.Idle?
    ensures Safe(Apply(s, JobCompleted(c, received, now)))
  {
    var found := Find(s.files, c.job);
    if found.Ok? && found.value.MarkCompleted(c, received).Ok? {
      var r := found.value.MarkCompleted(c, received).value.(updatedAt := now);
      CompletionApplied(s, c, received, now, found.value);
      if Version(r) == Version(found.value) {
        SameVersionSafe(s, c.job.Key(), r);
      } else {
        NewVersionSafe(s, c.job.Key(), r);
      }
    }
  }

  lemma PersistSafe(s: System, fault: bool)
    requires Safe(s) && s.worker.Persisting?
    ensures Safe(HandOff(s, fault))
  {
  }

  lemma StoredSafe(s: System, now: nat)
    requires Safe(s) && s.worker.Storing?
    ensures Safe(Apply(s, MarkStored(now)))
  {
    var c := s.worker.record.completed.value;
    var found := Find(s.files, c.job);
    if found.Ok? && found.value.MarkResultStored(c.version).Ok? {
      UpdateSafe(s, c.job.Key(), found.value.MarkResultStored(c.version).value.(updatedAt := now));
    }
  }

  lemma AcceptSafe(s: System, job: JobRef, now: nat)
    requires Safe(s)
    ensures Safe(s.(files := Accept(s.files, job, now).0))
  {
    var found := Find(s.files, job);
    if found.Ok? {
      UpdateSafe(s, job.Key(), found.value.MarkAccepted().(updatedAt := now));
    }
  }

  lemma EndInputSafe(s: System, job: JobRef, sequences: map<string, nat>, now: nat)
    requires Safe(s)
    ensures Safe(s.(files := EndInput(s.files, job, sequences, now).0))
  {
    var found := Find(s.files, job);
    if sequences != map[] && found.Ok? && found.value.MarkInputEnded(sequences).Ok? {
      UpdateSafe(s, job.Key(), found.value.MarkInputEnded(sequences).value.(updatedAt := now));
    }
  }

  lemma AppendSafe(s: System, submission: Submission, now: nat)
    requires Safe(s) && Enabled(s, AppendJob(submission, now))
    ensures Safe(Apply(s, AppendJob(submission, now)))
  {
  }

  /** Deletion is safe because a stored record's row is in the table. */
  lemma AcknowledgeSafe(s: System, job: JobRef, version: nat)
    requires Safe(s)
    ensures Safe(Apply(s, Acknowledged(job, version)))
  {
  }

  lemma StepSafe(s: System, step: Step)
    requires Safe(s) && Enabled(s, step)
    ensures Safe(Apply(s, step))
  {
    match step
    case AppendJob(submission, now) => AppendSafe(s, submission, now);
    case JobAccepted(job, now) => AcceptSafe(s, job, now);
    case CallEnded(job, sequences, now) => EndInputSafe(s, job, sequences, now);
    case JobCompleted(c, received, now) => CompletedSafe(s, c, received, now);
    case PersistResult(fault) => PersistSafe(s, fault);
    case MarkStored(now) => StoredSafe(s, now);
    case Acknowledged(job, version) => AcknowledgeSafe(s, job, version);
    case Replay(_) =>
    case Crash =>
  }

  /**
   * On every run, with crashes and replays anywhere: persisting never collides, a record is stored only after its row
   * is in the table, and whatever was deleted has its exact row there.
   */
  lemma {:induction false} SafeOnEveryRun(s: System, run: seq<Step>)
    requires Safe(s) && Valid(s, run) && AppendedOnce(s, run)
    ensures Safe(Execute(s, run))
    decreases |run|
  {
    if run != [] {
      StepSafe(s, run[0]);
      SafeOnEveryRun(Apply(s, run[0]), run[1..]);
    }
  }

  /** A run that appends nothing appends nothing twice. */
  lemma {:induction false} WithoutAppend(s: System, run: seq<Step>)
    requires Valid(s, run) && forall i :: 0 <= i < |run| ==> !run[i].AppendJob?
    ensures AppendedOnce(s, run)
    decreases |run|
  {
    if run != [] {
      WithoutAppend(Apply(s, run[0]), run[1..]);
    }
  }

  /** Over every run a record that is still there has only advanced, and its write-once parts are unchanged. */
  lemma {:induction false} RecordsAdvance(s: System, run: seq<Step>, key: FileKey)
    requires Safe(s) && Valid(s, run) && AppendedOnce(s, run) && key in s.files && key in Execute(s, run).files
    ensures Advances(s.files[key], Execute(s, run).files[key])
    decreases |run|
  {
    if run != [] {
      var next := Apply(s, run[0]);
      StepSafe(s, run[0]);
      if key in next.files {
        StepAdvances(s, run[0], key);
        RecordsAdvance(next, run[1..], key);
      } else {
        GoneForEver(next, run[1..], key);
      }
    }
  }

  lemma AppendKeeps(files: Files, submission: Submission, now: nat, key: FileKey)
    requires key in files
    ensures key in Append(files, submission, now).0 && Append(files, submission, now).0[key] == files[key]
  {
  }

  lemma AcknowledgeKeeps(files: Files, job: JobRef, version: nat, key: FileKey)
    requires key in files && key in Acknowledge(files, job, version).0
    ensures Acknowledge(files, job, version).0[key] == files[key]
  {
  }

  lemma MarkStoredAdvances(s: System, now: nat, key: FileKey)
    requires s.worker.Storing? && key in s.files && RecordOk(s.files[key])
    ensures key in Apply(s, MarkStored(now)).files && Advances(s.files[key], Apply(s, MarkStored(now)).files[key])
  {
    if s.worker.record.completed.Some? {
      var c := s.worker.record.completed.value;
      StoreAdvances(s.files, c.job, c.version, now, key);
    }
  }

  lemma CompletedAdvances(s: System, c: Completion, received: nat, now: nat, key: FileKey)
    requires s.worker.Idle? && key in s.files && RecordOk(s.files[key])
    ensures var next := Apply(s, JobCompleted(c, received, now));
            key in next.files && Advances(s.files[key], next.files[key])
  {
    CompleteAdvances(s.files, c, received, now, key);
  }

  lemma StepAdvances(s: System, step: Step, key: FileKey)
    requires Possible(s, step) && key in s.files && key in Apply(s, step).files && RecordOk(s.files[key])
    ensures Advances(s.files[key], Apply(s, step).files[key])
  {
    match step
    case AppendJob(submission, now) => AppendKeeps(s.files, submission, now, key);
    case JobAccepted(job, now) => AcceptAdvances(s.files, job, now, key);
    case CallEnded(job, sequences, now) => EndInputAdvances(s.files, job, sequences, now, key);
    case JobCompleted(c, received, now) => CompletedAdvances(s, c, received, now, key);
    case MarkStored(now) => MarkStoredAdvances(s, now, key);
    case Acknowledged(job, version) => AcknowledgeKeeps(s.files, job, version, key);
    case PersistResult(_) =>
    case Replay(_) =>
    case Crash =>
  }

  lemma AcceptAdvances(files: Files, job: JobRef, now: nat, key: FileKey)
    requires key in files && RecordOk(files[key])
    ensures key in Accept(files, job, now).0 && Advances(files[key], Accept(files, job, now).0[key])
  {
  }

  lemma EndInputAdvances(files: Files, job: JobRef, sequences: map<string, nat>, now: nat, key: FileKey)
    requires key in files && RecordOk(files[key])
    ensures key in EndInput(files, job, sequences, now).0
            && Advances(files[key], EndInput(files, job, sequences, now).0[key])
  {
  }

  lemma CompleteAdvances(files: Files, c: Completion, received: nat, now: nat, key: FileKey)
    requires key in files && RecordOk(files[key])
    ensures key in Complete(files, c, received, now).0 && Advances(files[key], Complete(files, c, received, now).0[key])
  {
  }

  lemma StoreAdvances(files: Files, job: JobRef, version: nat, now: nat, key: FileKey)
    requires key in files && RecordOk(files[key])
    ensures key in StoreResult(files, job, version, now).0
            && Advances(files[key], StoreResult(files, job, version, now).0[key])
  {
  }

  lemma GoneStep(s: System, step: Step, key: FileKey)
    requires Enabled(s, step) && key in s.appended && key !in s.files
    ensures key in Apply(s, step).appended && key !in Apply(s, step).files
  {
    match step
    case AppendJob(submission, now) => assert submission.job.Key() != key;
    case JobAccepted(job, now) => assert Accept(s.files, job, now).0.Keys == s.files.Keys;
    case CallEnded(job, sequences, now) => assert EndInput(s.files, job, sequences, now).0.Keys == s.files.Keys;
    case JobCompleted(c, received, now) => assert Complete(s.files, c, received, now).0.Keys == s.files.Keys;
    case MarkStored(now) => MarkStoredGone(s, now, key);
    case _ =>
  }

  lemma MarkStoredGone(s: System, now: nat, key: FileKey)
    requires s.worker.Storing? && key !in s.files
    ensures key !in Apply(s, MarkStored(now)).files
  {
  }

  lemma {:induction false} GoneForEver(s: System, run: seq<Step>, key: FileKey)
    requires Valid(s, run) && AppendedOnce(s, run) && key in s.appended && key !in s.files
    ensures key !in Execute(s, run).files
    decreases |run|
  {
    if run != [] {
      GoneStep(s, run[0], key);
      GoneForEver(Apply(s, run[0]), run[1..], key);
    }
  }

  // ---- Appending a job again ----

  /**
   * The hypothesis is needed. When a deleted job is appended again and completes with the same version, persisting
   * answers a collision exactly if the new row differs from the deleted record's: same content, profile and job, but
   * also the same arrival time, which is taken anew.
   */
  lemma ReappendedCollides(s: System, key: FileKey, again: Submission, c: Completion, appended: nat, received: nat,
                           now: nat)
    requires Safe(s) && key in s.deleted && key !in s.files
    requires again.Valid() && again.job.Key() == key && c.job == again.job
    requires c.version == s.deleted[key].completed.value.version != 0
    ensures var (files, answer) := Append(s.files, again, appended);
            var (files', completed) := Complete(files, c, received, now);
            var row := Row(c.job, c.version, again.profile, c.content, received);
            && answer.Ok? && completed.Ok? && completed.value.ToRow() == row
            && Persist(s.results, row, false).1
               == if row == s.deleted[key].ToRow() then Ok(()) else Err(ResultCollision)
  {
    var r := s.deleted[key];
    assert RowKey(r) in s.results && s.results[RowKey(r)] == r.ToRow();
  }

  /** Life of a job from its append to the deletion of its record. */
  function Life(s: Submission, c: Completion, t: nat): seq<Step> {
    [AppendJob(s, t), JobCompleted(c, t, t), PersistResult(false), MarkStored(t), Acknowledged(c.job, c.version)]
  }

  /** A second life, up to persisting the result. */
  function SecondLife(s: Submission, c: Completion, t: nat): seq<Step> {
    [AppendJob(s, t), JobCompleted(c, t, t), PersistResult(false)]
  }

  /** A job's row when its only completion arrives at time t. */
  function RowOf(s: Submission, c: Completion, t: nat): Row { Row(c.job, c.version, s.profile, c.content, t) }

  /** Appending and completing a job that has no record hands its row to the worker. */
  lemma BeginningOfLife(w: System, s: Submission, c: Completion, t: nat)
    requires s.Valid() && c.job == s.job && w.worker.Idle? && s.job.Key() !in w.files
    ensures var done := Record(s, Completed, map[], Some(c), Some(t), t, t);
            var w1 := Apply(w, AppendJob(s, t));
            var w2 := Apply(w1, JobCompleted(c, t, t));
            && w2.files == w.files[s.job.Key() := done] && w2.worker == Persisting(done)
               && done.ToRow() == RowOf(s, c, t)
            && w2.results == w.results && w2.collided == w.collided && w2.appended == w.appended + {s.job.Key()}
  {
    var w1 := Apply(w, AppendJob(s, t));
    var record := Record(s, PendingSubmission, map[], None, None, t, t);
    assert w1.files == w.files[s.job.Key() := record] && Find(w1.files, c.job) == Ok(record);
  }

  lemma LifeEnds(s: Submission, c: Completion, t: nat)
    requires s.Valid() && c.job == s.job && c.version != 0
    ensures Valid(NEW_SYSTEM, Life(s, c, t))
    ensures var w := Execute(NEW_SYSTEM, Life(s, c, t));
            && w.files == map[] && w.worker.Idle? && !w.collided && s.job.Key() in w.appended
            && w.results == map[(s.job.Key(), c.version) := RowOf(s, c, t)]
  {
    var run := Life(s, c, t);
    var w2 := Apply(Apply(NEW_SYSTEM, run[0]), run[1]);
    BeginningOfLife(NEW_SYSTEM, s, c, t);
    var w3 := Apply(w2, run[2]);
    var done := Record(s, Completed, map[], Some(c), Some(t), t, t);
    assert w3.worker == Storing(done) && w3.results == map[(s.job.Key(), c.version) := RowOf(s, c, t)];
    var w4 := Apply(w3, run[3]);
    assert w4.files == map[s.job.Key() := done.(stage := ResultStored)];
    var w5 := Apply(w4, run[4]);
    assert w5.files == map[];
    OneStep(w4, run[4]);
    Prepend(w3, run[3], [run[4]]);
    Prepend(w2, run[2], [run[3], run[4]]);
    Prepend(Apply(NEW_SYSTEM, run[0]), run[1], [run[2], run[3], run[4]]);
    Prepend(NEW_SYSTEM, run[0], [run[1], run[2], run[3], run[4]]);
  }

  lemma Prepend(w: System, step: Step, rest: seq<Step>)
    requires Possible(w, step) && Valid(Apply(w, step), rest)
    ensures Valid(w, [step] + rest) && Execute(w, [step] + rest) == Execute(Apply(w, step), rest)
  {
    assert ([step] + rest)[1..] == rest;
  }

  lemma OneStep(w: System, step: Step)
    requires Possible(w, step)
    ensures Valid(w, [step]) && Execute(w, [step]) == Apply(w, step)
  {
    assert [step][1..] == [] && Execute(Apply(w, step), []) == Apply(w, step);
  }

  lemma SecondLifeEnds(w: System, s: Submission, c: Completion, t: nat)
    requires s.Valid() && c.job == s.job && c.version != 0 && w.worker.Idle? && s.job.Key() !in w.files && !w.collided
    ensures Valid(w, SecondLife(s, c, t))
    ensures Execute(w, SecondLife(s, c, t)).collided
            == (Persist(w.results, RowOf(s, c, t), false).1 == Err(ResultCollision))
  {
    var run := SecondLife(s, c, t);
    var w2 := Apply(Apply(w, run[0]), run[1]);
    BeginningOfLife(w, s, c, t);
    assert run[1..] == [run[1], run[2]] && run[1..][1..] == [run[2]];
    OneStep(w2, run[2]);
  }

  lemma {:induction false} ExecuteConcat(w: System, first: seq<Step>, second: seq<Step>)
    requires Valid(w, first) && Valid(Execute(w, first), second)
    ensures Valid(w, first + second) && Execute(w, first + second) == Execute(Execute(w, first), second)
    ensures AppendedOnce(w, first + second) ==> AppendedOnce(Execute(w, first), second)
    decreases |first|
  {
    if first == [] {
      assert first + second == second;
    } else {
      ExecuteConcat(Apply(w, first[0]), first[1..], second);
      assert (first + second)[1..] == first[1..] + second;
    }
  }

  /** A run from the empty system on which a job lives twice: it collides exactly if the completions' times differ. */
  lemma TwoLivesCollide(s: Submission, c: Completion, t: nat, t': nat)
    requires s.Valid() && c.job == s.job && c.version != 0
    ensures var run := Life(s, c, t) + SecondLife(s, c, t');
            Valid(NEW_SYSTEM, run) && !AppendedOnce(NEW_SYSTEM, run) && (Execute(NEW_SYSTEM, run).collided <==> t' != t)
  {
    LifeEnds(s, c, t);
    var w := Execute(NEW_SYSTEM, Life(s, c, t));
    SecondLifeEnds(w, s, c, t');
    ExecuteConcat(NEW_SYSTEM, Life(s, c, t), SecondLife(s, c, t'));
    assert !Once(w, SecondLife(s, c, t')[0]);
  }

  // ---- Records without an arrival time ----

  /** Handing off, a crash before the record is marked, the completion once more, and handing off again. */
  function Interrupted(c: Completion, received: nat, now: nat): seq<Step> {
    [Replay(c.job.Key()), PersistResult(false), Crash, JobCompleted(c, received, now), PersistResult(false)]
  }

  /** A system whose only record was completed before arrival times were recorded. */
  ghost predicate Legacy(w: System, r: Record, c: Completion) {
    && r.submission.Valid() && r.stage == Completed && r.completed == Some(c) && r.receivedAt.None?
    && c.job == r.submission.job && c.version != 0
    && w == NEW_SYSTEM.(files := map[c.job.Key() := r], appended := {c.job.Key()})
  }

  /** The first three steps leave the row with the record's update time in the table. */
  lemma LegacyHandedOff(w: System, r: Record, c: Completion)
    requires Legacy(w, r, c)
    ensures Possible(w, Replay(c.job.Key()))
    ensures var w1 := Apply(w, Replay(c.job.Key()));
            && Possible(w1, PersistResult(false))
            && Apply(Apply(w1, PersistResult(false)), Crash)
               == w.(results := map[RowKey(r) := RowOf(r.submission, c, r.updatedAt)])
  {
  }

  /** Repeating the completion renews the update time and hands the record off once more. */
  lemma LegacyRepeated(w: System, r: Record, c: Completion, received: nat, now: nat)
    requires Legacy(w.(results := map[]), r, c) && w.results == map[RowKey(r) := RowOf(r.submission, c, r.updatedAt)]
    ensures var w1 := Apply(w, JobCompleted(c, received, now));
            && Possible(w, JobCompleted(c, received, now)) && Possible(w1, PersistResult(false))
            && (Apply(w1, PersistResult(false)).collided <==> now != r.updatedAt)
  {
    assert Find(w.files, c.job) == Ok(r) && r.MarkCompleted(c, received) == Ok(r);
    var w1 := Apply(w, JobCompleted(c, received, now));
    assert w1.worker == Persisting(r.(updatedAt := now));
    assert r.(updatedAt := now).ToRow() == RowOf(r.submission, c, now);
  }

  /**
   * Such a record is outside the safe states, and rightly so: after an interrupted hand-off a repeated completion
   * collides with the record's own row exactly if it comes at another update time.
   */
  lemma LegacyCollides(w: System, r: Record, c: Completion, received: nat, now: nat)
    requires Legacy(w, r, c)
    ensures Valid(w, Interrupted(c, received, now)) && AppendedOnce(w, Interrupted(c, received, now))
    ensures Execute(w, Interrupted(c, received, now)).collided <==> now != r.updatedAt
  {
    var run := Interrupted(c, received, now);
    LegacyHandedOff(w, r, c);
    var w1 := Apply(w, run[0]);
    var w2 := Apply(w1, run[1]);
    var w3 := Apply(w2, run[2]);
    LegacyRepeated(w3, r, c, received, now);
    var w4 := Apply(w3, run[3]);
    OneStep(w4, run[4]);
    Prepend(w3, run[3], [run[4]]);
    Prepend(w2, run[2], [run[3], run[4]]);
    Prepend(w1, run[1], [run[2], run[3], run[4]]);
    Prepend(w, run[0], [run[1], run[2], run[3], run[4]]);
    WithoutAppend(w, run);
  }
}
