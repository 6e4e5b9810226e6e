/** Replaying the outbox after a restart: what is handed off, where a failure stops it, and what is sent. */
module OutboxReplay {
  import opened Prelude
  import opened Outbox
  import opened OutboxProtocol

  type Listing = seq<FileKey>

  /**
   * What fails at a listed record: reading the records of the domain it is the first of, writing its row, or
   * rewriting its file after the row was written.
   */
  datatype Fault = NoFault | ReadFails | StoreFails | WriteFails

  const NO_FAULTS: nat -> Fault := (i: nat) => NoFault

  /** Both halves of a hand-off; the result table may have changed although the answer is an error. */
  function HandedOff(files: Files, results: Results, r: Record, fault: Fault, now: nat)
    : ((Files, Results), Result<Record, OutboxError>)
  {
    if r.completed.None? then ((files, results), Err(NoResult))
    else
      var (results', persisted) := Persist(results, r.ToRow(), fault.StoreFails?);
      if persisted.Err? then ((files, results'), Err(persisted.error))
      else if fault.WriteFails? then ((files, results'), Err(WriteFault))
      else
        var (files', answer) := StoreResult(files, r.completed.value.job, r.completed.value.version, now);
        ((files', results'), answer)
  }

  /** persist_completed_record without a crash: both durable writes, in this order. */
  method PersistCompletedRecord(backend: ResultStore, outbox: AiSubmissionOutbox, record: Record, fault: Fault,
                                now: nat)
    returns (answer: Result<Record, OutboxError>)
    modifies backend, outbox
    ensures ((outbox.files, backend.results), answer)
            == HandedOff(old(outbox.files), old(backend.results), record, fault, now)
  {
    if record.completed.None? {
      return Err(NoResult);
    }
    var persisted := backend.PersistAiResult(record.ToRow(), fault.StoreFails?);
    if persisted.Err? {
      return Err(persisted.error);
    }
    if fault.WriteFails? {
      return Err(WriteFault);
    }
    answer := outbox.MarkResultStored(record.completed.value.job, record.completed.value.version, now);
  }

  /** Well-formed records under their own keys; a completion that has a row already has exactly its own. */
  ghost predicate Consistent(files: Files, results: Results) {
    forall key :: key in files ==>
      && files[key].submission.job.Key() == key && RecordOk(files[key])
      && (files[key].completed.Some? && RowKey(files[key]) in results ==>
            results[RowKey(files[key])] == files[key].ToRow())
  }

  lemma SafeIsConsistent(s: System)
    requires Safe(s)
    ensures Consistent(s.files, s.results)
  {
    forall key | key in s.files && s.files[key].completed.Some? && RowKey(s.files[key]) in s.results
      ensures s.results[RowKey(s.files[key])] == s.files[key].ToRow()
    {
      assert Agrees(s.committed, key, s.files[key]);
    }
  }

  function Stored(r: Record, now: nat): Record { r.(stage := ResultStored, updatedAt := now) }

  /** Why the hand-off of a completed record fails: a version of zero, or else a failing write. */
  function Refusal(r: Record, fault: Fault): Option<OutboxError>
    requires r.completed.Some?
  {
    if r.completed.value.version == 0 then Some(InvalidVersion)
    else if fault.StoreFails? then Some(StoreFault)
    else if fault.WriteFails? then Some(WriteFault)
    else None
  }

  /** The table after a failed hand-off: the row is there if only the record's own file could not be rewritten. */
  function Leftover(results: Results, r: Record, fault: Fault): Results
    requires r.completed.Some?
  {
    if Refusal(r, fault) == Some(WriteFault) then results[RowKey(r) := r.ToRow()] else results
  }

  /** A refused hand-off leaves the records; any other one writes the record's row and stores exactly this record. */
  lemma HandOffExact(files: Files, results: Results, key: FileKey, fault: Fault, now: nat)
    requires Consistent(files, results) && key in files && files[key].stage == Completed
    ensures var r := files[key];
            HandedOff(files, results, r, fault, now)
            == if Refusal(r, fault).Some? then ((files, Leftover(results, r, fault)), Err(Refusal(r, fault).value))
               else ((files[key := Stored(r, now)], results[RowKey(r) := r.ToRow()]), Ok(Stored(r, now)))
  {
    var r := files[key];
    assert RecordOk(r);
    if RowKey(r) in results {
      assert results[RowKey(r) := r.ToRow()] == results;
    }
  }

  lemma HandOffConsistent(files: Files, results: Results, key: FileKey, now: nat)
    requires Consistent(files, results) && key in files && files[key].stage == Completed
    ensures Consistent(files[key := Stored(files[key], now)], results[RowKey(files[key]) := files[key].ToRow()])
  {
    var r := files[key];
    assert RecordOk(r) && RowKey(r).0 == key;
    var files' := files[key := Stored(r, now)];
    forall k | k in files' && k != key
      ensures files'[k].completed.Some? ==> RowKey(files'[k]) != RowKey(r)
    {
      assert RecordOk(files[k]);
    }
  }

  /**
   * In every reachable state the hand-off of a completed record succeeds exactly with a version and without a
   * failing write.
   */
  lemma HandOffSucceeds(s: System, key: FileKey, fault: Fault, now: nat)
    requires Safe(s) && key in s.files && s.files[key].stage == Completed
    ensures HandedOff(s.files, s.results, s.files[key], fault, now).1.Ok? <==>
            s.files[key].completed.value.version != 0 && (fault.NoFault? || fault.ReadFails?)
  {
    SafeIsConsistent(s);
    HandOffExact(s.files, s.results, key, fault, now);
  }

  // ---- The whole replay ----

  ghost predicate Listed(listed: Listing, files: Files) {
    && (forall i :: 0 <= i < |listed| ==> listed[i] in files)
    && forall i, j :: 0 <= i < j < |listed| ==> listed[i] != listed[j]
  }

  /** The i-th listed record stops the replay. */
  ghost predicate Stops(files: Files, listed: Listing, faults: nat -> Fault, i: nat)
    requires i < |listed| && listed[i] in files
  {
    var r := files[listed[i]];
    || faults(i).ReadFails?
    || (r.stage == Completed && r.completed.Some? && Refusal(r, faults(i)).Some?)
  }

  /** The error a stopping record gives. */
  ghost function StopError(files: Files, listed: Listing, faults: nat -> Fault, i: nat): OutboxError
    requires i < |listed| && listed[i] in files && Stops(files, listed, faults, i)
  {
    if faults(i).ReadFails? then ReadFault else Refusal(files[listed[i]], faults(i)).value
  }

  /** The table a stopping record leaves. */
  ghost function StopResults(files: Files, results: Results, listed: Listing, faults: nat -> Fault, i: nat): Results
    requires i < |listed| && listed[i] in files && Stops(files, listed, faults, i)
  {
    if faults(i).ReadFails? then results else Leftover(results, files[listed[i]], faults(i))
  }

  /** The first record, from the n-th on, that stops the replay. */
  ghost function StopsAt(files: Files, listed: Listing, faults: nat -> Fault, n: nat): (b: nat)
    requires Listed(listed, files) && n <= |listed|
    ensures n <= b <= |listed| && (forall i :: n <= i < b ==> !Stops(files, listed, faults, i))
    ensures b < |listed| ==> Stops(files, listed, faults, b)
    decreases |listed| - n
  {
    if n == |listed| || Stops(files, listed, faults, n) then n else StopsAt(files, listed, faults, n + 1)
  }

  /** The records after the first n listed ones were visited: the completed ones among them are stored. */
  ghost function FilesAfter(files: Files, listed: Listing, n: nat, now: nat): (r: Files)
    requires Listed(listed, files) && n <= |listed|
    ensures r.Keys == files.Keys
  {
    if n == 0 then files
    else
      var before, key := FilesAfter(files, listed, n - 1, now), listed[n - 1];
      if files[key].stage == Completed then before[key := Stored(files[key], now)] else before
  }

  /** The table after the first n listed records were visited: the rows of the completed ones are in it. */
  ghost function ResultsAfter(files: Files, results: Results, listed: Listing, n: nat): Results
    requires Listed(listed, files) && n <= |listed|
  {
    if n == 0 then results
    else
      var before, r := ResultsAfter(files, results, listed, n - 1), files[listed[n - 1]];
      if r.stage == Completed && r.completed.Some? then before[RowKey(r) := r.ToRow()] else before
  }

  lemma {:induction false} VisitedRecord(files: Files, listed: Listing, n: nat, now: nat, i: nat)
    requires Listed(listed, files) && i < n <= |listed|
    ensures FilesAfter(files, listed, n, now)[listed[i]]
            == if files[listed[i]].stage == Completed then Stored(files[listed[i]], now) else files[listed[i]]
    decreases n
  {
    if i < n - 1 {
      VisitedRecord(files, listed, n - 1, now, i);
    } else {
      UntouchedRecord(files, listed, n - 1, now, listed[i]);
    }
  }

  lemma {:induction false} UntouchedRecord(files: Files, listed: Listing, n: nat, now: nat, key: FileKey)
    requires Listed(listed, files) && n <= |listed| && key in files && forall i :: 0 <= i < n ==> listed[i] != key
    ensures FilesAfter(files, listed, n, now)[key] == files[key]
    decreases n
  {
    if n > 0 {
      UntouchedRecord(files, listed, n - 1, now, key);
    }
  }

  /** Which records a replay has stored, and that it touched no other. */
  lemma FilesAfterExact(files: Files, listed: Listing, n: nat, now: nat)
    requires Listed(listed, files) && n <= |listed|
    ensures forall i :: 0 <= i < n ==>
              FilesAfter(files, listed, n, now)[listed[i]]
              == if files[listed[i]].stage == Completed then Stored(files[listed[i]], now) else files[listed[i]]
    ensures forall key :: key in files && key !in listed[..n] ==> FilesAfter(files, listed, n, now)[key] == files[key]
  {
    forall i | 0 <= i < n
      ensures FilesAfter(files, listed, n, now)[listed[i]]
              == if files[listed[i]].stage == Completed then Stored(files[listed[i]], now) else files[listed[i]]
    {
      VisitedRecord(files, listed, n, now, i);
    }
    forall key | key in files && key !in listed[..n]
      ensures FilesAfter(files, listed, n, now)[key] == files[key]
    {
      assert forall i :: 0 <= i < n ==> listed[i] == listed[..n][i];
      UntouchedRecord(files, listed, n, now, key);
    }
  }

  lemma NotYetVisited(files: Files, listed: Listing, n: nat, now: nat)
    requires Listed(listed, files) && n < |listed|
    ensures FilesAfter(files, listed, n, now)[listed[n]] == files[listed[n]]
  {
    UntouchedRecord(files, listed, n, now, listed[n]);
  }

  lemma ConsistentNext(files: Files, results: Results, listed: Listing, n: nat, now: nat)
    requires Consistent(files, results) && Listed(listed, files) && n < |listed|
    requires Consistent(FilesAfter(files, listed, n, now), ResultsAfter(files, results, listed, n))
    ensures Consistent(FilesAfter(files, listed, n + 1, now), ResultsAfter(files, results, listed, n + 1))
  {
    NotYetVisited(files, listed, n, now);
    assert RecordOk(files[listed[n]]);
    if files[listed[n]].stage == Completed {
      HandOffConsistent(FilesAfter(files, listed, n, now), ResultsAfter(files, results, listed, n), listed[n], now);
    }
  }

  /** As long as nothing stops it, a replay keeps records and table consistent. */
  lemma ReplayConsistent(files: Files, results: Results, listed: Listing, n: nat, now: nat)
    requires Consistent(files, results) && Listed(listed, files) && n <= |listed|
    ensures Consistent(FilesAfter(files, listed, n, now), ResultsAfter(files, results, listed, n))
  {
    for i := 0 to n
      invariant Consistent(FilesAfter(files, listed, i, now), ResultsAfter(files, results, listed, i))
    {
      ConsistentNext(files, results, listed, i, now);
    }
  }

  ghost predicate Extends(results: Results, results': Results) {
    forall k :: k in results ==> k in results' && results'[k] == results[k]
  }

  /** Writing the row of a consistent record's completion only adds to the table. */
  lemma RowAdds(files: Files, results: Results, key: FileKey)
    requires Consistent(files, results) && key in files && files[key].completed.Some?
    ensures Extends(results, results[RowKey(files[key]) := files[key].ToRow()])
  {
  }

  ghost predicate HasRow(results: Results, r: Record)
    requires r.completed.Some?
  {
    RowKey(r) in results && results[RowKey(r)] == r.ToRow()
  }

  lemma ResultsGrow(files: Files, results: Results, listed: Listing, n: nat, now: nat)
    requires Consistent(files, results) && Listed(listed, files) && n < |listed|
    ensures Extends(ResultsAfter(files, results, listed, n), ResultsAfter(files, results, listed, n + 1))
  {
    ReplayConsistent(files, results, listed, n, now);
    NotYetVisited(files, listed, n, now);
    if files[listed[n]].completed.Some? {
      RowAdds(FilesAfter(files, listed, n, now), ResultsAfter(files, results, listed, n), listed[n]);
    }
  }

  /** A replay only adds rows, and has those of all completed records it visited. */
  lemma {:induction false} ResultsAfterExact(files: Files, results: Results, listed: Listing, n: nat, now: nat)
    requires Consistent(files, results) && Listed(listed, files) && n <= |listed|
    ensures Extends(results, ResultsAfter(files, results, listed, n))
    ensures forall i :: 0 <= i < n && files[listed[i]].stage == Completed && files[listed[i]].completed.Some? ==>
              HasRow(ResultsAfter(files, results, listed, n), files[listed[i]])
  {
    if n > 0 {
      ResultsAfterExact(files, results, listed, n - 1, now);
      ResultsGrow(files, results, listed, n - 1, now);
      forall i | 0 <= i < n - 1 && files[listed[i]].stage == Completed && files[listed[i]].completed.Some?
        ensures HasRow(ResultsAfter(files, results, listed, n), files[listed[i]])
      {
        assert HasRow(ResultsAfter(files, results, listed, n - 1), files[listed[i]]);
      }
    }
  }

  predicate ToSend(stage: Stage) { stage.PendingSubmission? || stage.InputEnded? || stage.ResultStored? }

  /** The first n listed records that have a message to send, in order. */
  ghost function Sendable(files: Files, listed: Listing, n: nat): seq<Record>
    requires n <= |listed| && forall i :: 0 <= i < |listed| ==> listed[i] in files
  {
    if n == 0 then []
    else
      var last := files[listed[n - 1]];
      Sendable(files, listed, n - 1) + if last.PendingMessage().Some? then [last] else []
  }

  lemma {:induction false} SendableLocal(files: Files, files': Files, listed: Listing, n: nat)
    requires n <= |listed| && forall i :: 0 <= i < |listed| ==> listed[i] in files && listed[i] in files'
    requires forall i :: 0 <= i < n ==> files[listed[i]] == files'[listed[i]]
    ensures Sendable(files, listed, n) == Sendable(files', listed, n)
  {
    if n > 0 {
      SendableLocal(files, files', listed, n - 1);
    }
  }

  /** A well-formed record has a message to send exactly in the stages the replay looks for. */
  lemma SendsPending(r: Record)
    requires RecordOk(r)
    ensures r.PendingMessage().Some? <==> ToSend(r.stage)
  {
  }

  lemma SameBefore(files: Files, listed: Listing, n: nat, now: nat)
    requires Listed(listed, files) && n < |listed|
    ensures forall i :: 0 <= i < n ==>
              FilesAfter(files, listed, n + 1, now)[listed[i]] == FilesAfter(files, listed, n, now)[listed[i]]
  {
  }

  /** Visiting one more record appends it to what is sent, as it then is. */
  lemma SendNext(files: Files, results: Results, listed: Listing, n: nat, now: nat)
    requires Consistent(files, results) && Listed(listed, files) && n < |listed|
    ensures var before, after := FilesAfter(files, listed, n, now), FilesAfter(files, listed, n + 1, now);
            Sendable(after, listed, n + 1)
            == Sendable(before, listed, n) + if ToSend(after[listed[n]].stage) then [after[listed[n]]] else []
  {
    var before, after := FilesAfter(files, listed, n, now), FilesAfter(files, listed, n + 1, now);
    SameBefore(files, listed, n, now);
    SendableLocal(after, before, listed, n);
    StillOk(files, results, listed, n, now);
    SendsPending(after[listed[n]]);
  }

  lemma StillOk(files: Files, results: Results, listed: Listing, n: nat, now: nat)
    requires Consistent(files, results) && Listed(listed, files) && n < |listed|
    ensures RecordOk(FilesAfter(files, listed, n + 1, now)[listed[n]])
  {
    ReplayConsistent(files, results, listed, n + 1, now);
  }

  /** What the loop of the replay has done once it has visited n records. */
  lemma VisitNext(files: Files, results: Results, listed: Listing, n: nat, fault: Fault, now: nat)
    requires Consistent(files, results) && Listed(listed, files) && n < |listed|
    ensures var before, table := FilesAfter(files, listed, n, now), ResultsAfter(files, results, listed, n);
            var r := files[listed[n]];
            && before[listed[n]] == r
            && (r.stage == Completed ==>
                  && r.completed.Some?
                  && HandedOff(before, table, r, fault, now)
                     == if Refusal(r, fault).Some?
                        then ((before, Leftover(table, r, fault)), Err(Refusal(r, fault).value))
                        else ((FilesAfter(files, listed, n + 1, now), ResultsAfter(files, results, listed, n + 1)),
                              Ok(Stored(r, now))))
            && (r.stage != Completed ==>
                  (FilesAfter(files, listed, n + 1, now), ResultsAfter(files, results, listed, n + 1))
                    == (before, table))
  {
    NotYetVisited(files, listed, n, now);
    ReplayConsistent(files, results, listed, n, now);
    assert RecordOk(files[listed[n]]);
    if files[listed[n]].stage == Completed {
      HandOffExact(FilesAfter(files, listed, n, now), ResultsAfter(files, results, listed, n), listed[n], fault, now);
    }
  }

  /** The replay has visited n records, and collected those of them to send. */
  ghost predicate Visited(files: Files, results: Results, listed: Listing, faults: nat -> Fault, n: nat, now: nat,
                          files': Files, results': Results, pending: seq<Record>)
    requires Listed(listed, files) && n <= |listed|
  {
    && files' == FilesAfter(files, listed, n, now) && results' == ResultsAfter(files, results, listed, n)
    && StopsAt(files, listed, faults, n) == StopsAt(files, listed, faults, 0)
    && pending == Sendable(files', listed, n)
  }

  /**
   * The outcome of a replay, in the terms of its start. A position past the last record stands for a domain without
   * readable records.
   */
  ghost predicate Outcome(files: Files, results: Results, listed: Listing, faults: nat -> Fault, now: nat,
                          files': Files, results': Results, answer: Result<seq<Record>, OutboxError>)
    requires Listed(listed, files)
  {
    var b := StopsAt(files, listed, faults, 0);
    && files' == FilesAfter(files, listed, b, now)
    && if b < |listed|
       then results' == StopResults(files, ResultsAfter(files, results, listed, b), listed, faults, b)
            && answer == Err(StopError(files, listed, faults, b))
       else results' == ResultsAfter(files, results, listed, b)
            && answer == if faults(b).ReadFails? then Err(ReadFault) else Ok(Sendable(files', listed, b))
  }

  /** What one turn of the loop does to a record. */
  function Turn(files: Files, results: Results, r: Record, fault: Fault, now: nat)
    : ((Files, Results), Result<Record, OutboxError>)
  {
    if fault.ReadFails? then ((files, results), Err(ReadFault))
    else if r.stage == Completed then HandedOff(files, results, r, fault, now)
    else ((files, results), Ok(r))
  }

  method TakeTurn(backend: ResultStore, outbox: AiSubmissionOutbox, record: Record, fault: Fault, now: nat)
    returns (answer: Result<Record, OutboxError>)
    modifies backend, outbox
    ensures ((outbox.files, backend.results), answer)
            == Turn(old(outbox.files), old(backend.results), record, fault, now)
  {
    if fault.ReadFails? {
      return Err(ReadFault);
    }
    if record.stage == Completed {
      answer := PersistCompletedRecord(backend, outbox, record, fault, now);
    } else {
      answer := Ok(record);
    }
  }

  lemma VisitRecord(files: Files, results: Results, listed: Listing, faults: nat -> Fault, n: nat, now: nat,
                    files': Files, results': Results, pending: seq<Record>)
    requires Consistent(files, results) && Listed(listed, files) && n < |listed|
    requires Visited(files, results, listed, faults, n, now, files', results', pending)
    ensures var (after, answer) := Turn(files', results', files'[listed[n]], faults(n), now);
            if answer.Ok?
            then Visited(files, results, listed, faults, n + 1, now, after.0, after.1,
                         pending + if ToSend(answer.value.stage) then [answer.value] else [])
            else Outcome(files, results, listed, faults, now, after.0, after.1, Err(answer.error))
  {
    VisitNext(files, results, listed, n, faults(n), now);
    SendNext(files, results, listed, n, now);
  }

  lemma VisitedAll(files: Files, results: Results, listed: Listing, faults: nat -> Fault, now: nat,
                   files': Files, results': Results, pending: seq<Record>)
    requires Listed(listed, files)
    requires Visited(files, results, listed, faults, |listed|, now, files', results', pending)
    ensures Outcome(files, results, listed, faults, now, files', results',
                    if faults(|listed|).ReadFails? then Err(ReadFault) else Ok(pending))
  {
  }

  /**
   * replay_pending over the listed records, with faults at any of them. It stops at the first unreadable record and
   * the first completed one with version zero or a failing write: the records before it are handed off, every other
   * record is untouched, and its error is the answer. Otherwise the records with a message to send are the answer.
   */
  method ReplayPending(backend: ResultStore, outbox: AiSubmissionOutbox, listed: Listing, faults: nat -> Fault,
                       now: nat)
    returns (answer: Result<seq<Record>, OutboxError>)
    requires Listed(listed, outbox.files) && Consistent(outbox.files, backend.results)
    modifies backend, outbox
    ensures Outcome(old(outbox.files), old(backend.results), listed, faults, now, outbox.files, backend.results, answer)
  {
    var pending: seq<Record> := [];
    ghost var files, results := outbox.files, backend.results;
    for n := 0 to |listed|
      invariant Visited(files, results, listed, faults, n, now, outbox.files, backend.results, pending)
    {
      VisitRecord(files, results, listed, faults, n, now, outbox.files, backend.results, pending);
      var record := TakeTurn(backend, outbox, outbox.files[listed[n]], faults(n), now);
      if record.Err? {
        return Err(record.error);
      }
      if ToSend(record.value.stage) {
        pending := pending + [record.value];
      }
    }
    VisitedAll(files, results, listed, faults, now, outbox.files, backend.results, pending);
    answer := if faults(|listed|).ReadFails? then Err(ReadFault) else Ok(pending);
  }

  /**
   * From a reachable state, without faults, a replay completes exactly if no listed completion has version zero.
   */
  lemma ReplayCompletes(s: System, listed: Listing)
    requires Safe(s) && Listed(listed, s.files)
    ensures StopsAt(s.files, listed, NO_FAULTS, 0) == |listed| <==>
            forall i :: 0 <= i < |listed| && s.files[listed[i]].stage == Completed ==>
              s.files[listed[i]].completed.value.version != 0
  {
    forall i | 0 <= i < |listed| && s.files[listed[i]].stage == Completed
      ensures Stops(s.files, listed, NO_FAULTS, i) <==> s.files[listed[i]].completed.value.version == 0
    {
      assert RecordOk(s.files[listed[i]]);
    }
  }

  lemma NotStopped(s: System, listed: Listing, faults: nat -> Fault, i: nat, now: nat)
    requires Safe(s) && Listed(listed, s.files) && i < StopsAt(s.files, listed, faults, 0)
    ensures var r := s.files[listed[i]];
            && FilesAfter(s.files, listed, i, now)[listed[i]] == r
            && (r.stage == Completed ==> r.completed.Some? && r.completed.value.version != 0)
  {
    NotYetVisited(s.files, listed, i, now);
    assert RecordOk(s.files[listed[i]]) && !Stops(s.files, listed, faults, i);
  }

  /** The system after the replay of n records by an idle worker. */
  ghost function After(s: System, listed: Listing, n: nat, now: nat): System
    requires Listed(listed, s.files) && n <= |listed|
  {
    s.(files := FilesAfter(s.files, listed, n, now), results := ResultsAfter(s.files, s.results, listed, n))
  }

  /** The system after the hand-off of one more record. */
  ghost function HandOffOne(s: System, key: FileKey, now: nat): System
    requires key in s.files && s.files[key].completed.Some?
  {
    var r := s.files[key];
    s.(files := s.files[key := Stored(r, now)], results := s.results[RowKey(r) := r.ToRow()])
  }

  lemma AfterNext(s: System, listed: Listing, n: nat, now: nat)
    requires Listed(listed, s.files) && n < |listed| && After(s, listed, n, now).files[listed[n]] == s.files[listed[n]]
    ensures After(s, listed, n + 1, now)
            == if s.files[listed[n]].stage != Completed then After(s, listed, n, now)
               else if s.files[listed[n]].completed.Some? then HandOffOne(After(s, listed, n, now), listed[n], now)
               else After(s, listed, n + 1, now)
  {
  }

  lemma AfterSafe(s: System, listed: Listing, n: nat, now: nat, w: System, w': System)
    requires Listed(listed, s.files) && n < |listed| && Safe(w) && w.worker.Idle?
    requires w == After(s, listed, n, now) && w' == After(s, listed, n + 1, now)
    requires w.files[listed[n]] == s.files[listed[n]]
    requires s.files[listed[n]].stage == Completed ==>
               s.files[listed[n]].completed.Some? && s.files[listed[n]].completed.value.version != 0
    ensures Safe(w')
  {
    AfterNext(s, listed, n, now);
    if s.files[listed[n]].stage == Completed {
      OneHandOffIsSafe(w, listed[n], now);
    }
  }

  lemma SafeNext(s: System, listed: Listing, faults: nat -> Fault, n: nat, now: nat)
    requires Safe(s) && s.worker.Idle? && Listed(listed, s.files) && n < StopsAt(s.files, listed, faults, 0)
    requires Safe(After(s, listed, n, now))
    ensures Safe(After(s, listed, n + 1, now))
  {
    NotStopped(s, listed, faults, n, now);
    AfterSafe(s, listed, n, now, After(s, listed, n, now), After(s, listed, n + 1, now));
  }

  lemma NothingVisited(s: System, listed: Listing, now: nat)
    requires Listed(listed, s.files)
    ensures After(s, listed, 0, now) == s
  {
  }

  /** A replay of any length leaves a reachable state safe, whatever stopped it. */
  lemma ReplayIsSafe(s: System, listed: Listing, faults: nat -> Fault, n: nat, now: nat)
    requires Safe(s) && s.worker.Idle? && Listed(listed, s.files) && n <= StopsAt(s.files, listed, faults, 0)
    ensures Safe(After(s, listed, n, now))
  {
    NothingVisited(s, listed, now);
    for i := 0 to n
      invariant Safe(After(s, listed, i, now))
    {
      SafeNext(s, listed, faults, i, now);
    }
  }

  /** The three protocol steps of one replayed record. */
  lemma OneHandOffIsSafe(s: System, key: FileKey, now: nat)
    requires Safe(s) && s.worker.Idle? && key in s.files && s.files[key].stage == Completed
    requires s.files[key].completed.Some? && s.files[key].completed.value.version != 0
    ensures Safe(HandOffOne(s, key, now))
  {
    var r := s.files[key];
    SafeIsConsistent(s);
    HandOffExact(s.files, s.results, key, NoFault, now);
    var s1 := Apply(s, Replay(key));
    StepSafe(s, Replay(key));
    var s2 := Apply(s1, PersistResult(false));
    StepSafe(s1, PersistResult(false));
    assert s2.worker == Storing(r) && s2.results == s.results[RowKey(r) := r.ToRow()];
    StepSafe(s2, MarkStored(now));
  }

  /** Writing the row of a completed record alone is safe, too. */
  lemma RowAloneIsSafe(s: System, key: FileKey)
    requires Safe(s) && s.worker.Idle? && key in s.files && s.files[key].stage == Completed
    requires s.files[key].completed.Some? && s.files[key].completed.value.version != 0
    ensures Safe(s.(results := s.results[RowKey(s.files[key]) := s.files[key].ToRow()]))
  {
    var r := s.files[key];
    SafeIsConsistent(s);
    HandOffExact(s.files, s.results, key, WriteFails, 0);
    var s1 := Apply(s, Replay(key));
    StepSafe(s, Replay(key));
    var s2 := Apply(s1, PersistResult(false));
    StepSafe(s1, PersistResult(false));
    assert s2.worker == Storing(r) && s2.results == s.results[RowKey(r) := r.ToRow()];
    StepSafe(s2, Crash);
    assert Apply(s2, Crash) == s.(results := s.results[RowKey(r) := r.ToRow()]);
  }

  /** Whatever stops a replay, and wherever, a reachable state stays safe. */
  lemma ReplayKeepsSafe(s: System, listed: Listing, faults: nat -> Fault, now: nat, files': Files, results': Results,
                        answer: Result<seq<Record>, OutboxError>)
    requires Safe(s) && s.worker.Idle? && Listed(listed, s.files)
    requires Outcome(s.files, s.results, listed, faults, now, files', results', answer)
    ensures Safe(s.(files := files', results := results'))
  {
    var b := StopsAt(s.files, listed, faults, 0);
    ReplayIsSafe(s, listed, faults, b, now);
    if b < |listed| {
      StopIsSafe(s, listed, faults, b, now);
    }
  }

  lemma StopIsSafe(s: System, listed: Listing, faults: nat -> Fault, b: nat, now: nat)
    requires Listed(listed, s.files) && b < |listed| && Stops(s.files, listed, faults, b) && s.worker.Idle?
    requires Safe(After(s, listed, b, now))
    ensures var w := After(s, listed, b, now);
            Safe(w.(results := StopResults(s.files, w.results, listed, faults, b)))
  {
    var w := After(s, listed, b, now);
    NotYetVisited(s.files, listed, b, now);
    if !faults(b).ReadFails? && Refusal(s.files[listed[b]], faults(b)) == Some(WriteFault) {
      RowAloneIsSafe(w, listed[b]);
    } else {
      assert StopResults(s.files, w.results, listed, faults, b) == w.results;
    }
  }

  // ---- Version zero ----

  /** The run that stores a completion of version zero: it is accepted, and its result refused. */
  function VersionZero(s: Submission, c: Completion, t: nat): seq<Step> {
    [AppendJob(s, t), JobCompleted(c, t, t), PersistResult(false)]
  }

  /** A completion of version zero is reachable, and from then on stops every fault-free replay at once. */
  lemma VersionZeroReachable(s: Submission, c: Completion, t: nat) returns (w: System)
    requires s.Valid() && c.job == s.job && c.version == 0
    ensures Valid(NEW_SYSTEM, VersionZero(s, c, t)) && AppendedOnce(NEW_SYSTEM, VersionZero(s, c, t))
    ensures w == Execute(NEW_SYSTEM, VersionZero(s, c, t)) && Safe(w) && w.worker.Idle?
    ensures Listed([s.job.Key()], w.files) && StopsAt(w.files, [s.job.Key()], NO_FAULTS, 0) == 0
    ensures StopError(w.files, [s.job.Key()], NO_FAULTS, 0) == InvalidVersion
  {
    var run := VersionZero(s, c, t);
    BeginningOfLife(NEW_SYSTEM, s, c, t);
    var w1 := Apply(NEW_SYSTEM, run[0]);
    var w2 := Apply(w1, run[1]);
    w := Apply(w2, run[2]);
    OneStep(w2, run[2]);
    Prepend(w1, run[1], [run[2]]);
    Prepend(NEW_SYSTEM, run[0], [run[1], run[2]]);
    assert run[1..] == [run[1], run[2]];
    WithoutAppend(w1, run[1..]);
    InitialSafe();
    SafeOnEveryRun(NEW_SYSTEM, run);
  }
}
