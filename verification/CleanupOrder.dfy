/** Which recordings a clean-up deletes: the oldest first, only the expired ones within quota, and how many. */
module CleanupOrder {
  import opened Prelude
  import opened Ordering
  import opened RecordingCleanup

  /** Rows the pass looks at: recordings that ended, well or not, and have not expired. */
  predicate Finished(row: Row) { row.status.Complete? || row.status.Incomplete? || row.status.Failed? }

  /** What is left of a row whose recording was deleted. */
  function Deleted(row: Row): Row { row.(status := Expired, hasFile := false, sizeBytes := 0) }

  // ---- Oldest first ----

  /** What became of the file of row p lets the pass go on to the rows behind it. */
  ghost predicate Given(before: Table, after: Table, p: nat, fate: nat -> Fate)
    requires p < |before| == |after|
  {
    after[p] == Deleted(before[p]) || (before[p].hasFile && fate(p) == Refused)
  }

  /** A sweep leaves the rows it does not visit alone, whether it fails or not. */
  lemma {:induction false} SweepLeaves(pass: Pass, scan: seq<Entry>, k: nat, policy: Policy, fate: nat -> Fate, p: nat)
    requires k <= |scan| && Within(scan, |pass.table|) && p < |pass.table|
    requires forall i :: k <= i < |scan| ==> scan[i].position != p
    ensures Sweep(pass, scan, k, policy, fate).table[p] == pass.table[p]
    decreases |scan| - k
  {
    if k < |scan| && !pass.failed {
      SweepLeaves(pass.Visit(scan[k].position, policy, fate), scan, k + 1, policy, fate, p);
    }
  }

  /** A row within retention is deleted only while the quota is exceeded. */
  lemma {:induction false} DeletedOverQuota(pass: Pass, scan: seq<Entry>, k: nat, j: nat, policy: Policy,
                                            fate: nat -> Fate)
    requires k <= j < |scan| && Within(scan, |pass.table|) && Once(scan)
    requires pass.table[scan[j].position].EndedAt(policy.now) >= policy.cutoff
    requires Sweep(pass, scan, k, policy, fate).table[scan[j].position] != pass.table[scan[j].position]
    ensures pass.total > policy.maxBytes
    decreases |scan| - k
  {
    var next := pass.Visit(scan[k].position, policy, fate);
    if k < j {
      assert scan[k].position != scan[j].position;
      DeletedOverQuota(next, scan, k + 1, j, policy, fate);
    } else if pass.total <= policy.maxBytes {
      SweepLeaves(next, scan, k + 1, policy, fate, scan[j].position);
    }
  }

  lemma {:induction false} EarlierInScan(pass: Pass, scan: seq<Entry>, k: nat, i: nat, j: nat, policy: Policy,
                                         fate: nat -> Fate)
    requires k <= i < j < |scan| && Within(scan, |pass.table|) && Once(scan)
    requires pass.table[scan[j].position].EndedAt(policy.now) >= policy.cutoff
    requires Sweep(pass, scan, k, policy, fate).table[scan[j].position] != pass.table[scan[j].position]
    ensures Given(pass.table, Sweep(pass, scan, k, policy, fate).table, scan[i].position, fate)
    decreases |scan| - k
  {
    var next := pass.Visit(scan[k].position, policy, fate);
    assert scan[k].position != scan[j].position;
    if k < i {
      assert scan[k].position != scan[i].position;
      EarlierInScan(next, scan, k + 1, i, j, policy, fate);
    } else {
      DeletedOverQuota(pass, scan, k, j, policy, fate);
      SweepLeaves(next, scan, k + 1, policy, fate, scan[i].position);
    }
  }

  /** The end time, or the start time of a recording without one. */
  function TimeOf(row: Row): int {
    match row.endedAtMs
    case Some(t) => t
    case None => row.startedAtMs
  }

  /** The row at p is of an earlier time, or of the same time and a smaller call id. */
  ghost predicate Older(table: Table, p: nat, q: nat)
    requires p < |table| && q < |table|
  {
    || TimeOf(table[p]) < TimeOf(table[q])
    || (TimeOf(table[p]) == TimeOf(table[q]) && Smaller(table[p].callId, table[q].callId))
  }

  lemma ScannedInOrder(table: Table, p: nat, q: nat) returns (i: nat, j: nat)
    requires p < |table| && q < |table| && Finished(table[p]) && Finished(table[q]) && Older(table, p, q)
    ensures i < j < |Scan(table)| && Scan(table)[i].position == p && Scan(table)[j].position == q
  {
    var scan := Scan(table);
    ScanCovers(table);
    assert Reaches(scan, p) && Reaches(scan, q);
    i :| 0 <= i < |scan| && scan[i].position == p;
    j :| 0 <= j < |scan| && scan[j].position == q;
    assert DescribesRow(scan[i], table, |table|) && DescribesRow(scan[j], table, |table|);
    SmallerExactly(table[p].callId, table[q].callId);
    assert !ScanLeq(scan[j], scan[i]);
  }

  /**
   * When a recording within retention is deleted, every older one of the domain was, or its file was refused; so it
   * is also in a pass that fails later, and whatever the byte totals are.
   */
  lemma OldestDeletedFirst(table: Table, total: nat, expired: nat, policy: Policy, fate: nat -> Fate, p: nat, q: nat)
    requires p < |table| && q < |table| && Finished(table[p]) && Finished(table[q]) && Older(table, p, q)
    requires table[q].EndedAt(policy.now) >= policy.cutoff
    ensures var end := CleanTable(table, total, expired, policy, fate);
            |end.table| == |table| && (end.table[q] != table[q] ==> Given(table, end.table, p, fate))
  {
    ScanCovers(table);
    var i, j := ScannedInOrder(table, p, q);
    var start := Pass(table, SatAdd(total, Bytes(table) % U64_SIZE), expired, false);
    if Sweep(start, Scan(table), 0, policy, fate).table[q] != table[q] {
      EarlierInScan(start, Scan(table), 0, i, j, policy, fate);
    }
  }

  // ---- All domains ----

  /** The table is untouched, or what the pass over its domain left with some totals of the domains before. */
  ghost predicate Cleaned(before: Table, after: Table, policy: Policy, fate: nat -> Fate) {
    after == before || exists total, expired :: after == CleanTable(before, total, expired, policy, fate).table
  }

  lemma {:induction false} TablesCleaned(o: Outcome, d: nat, policy: Policy, fate: (nat, nat) -> Fate, e: nat)
    requires d <= |o.tables| && e < |o.tables|
    ensures var end := CleanFrom(o, d, policy, fate);
            && |end.tables| == |o.tables|
            && (e < d ==> end.tables[e] == o.tables[e])
            && Cleaned(o.tables[e], end.tables[e], policy, InDomain(fate, e))
    decreases |o.tables| - d
  {
    if d < |o.tables| && !o.failed {
      var pass := CleanTable(o.tables[d], o.total, o.expired, policy, InDomain(fate, d));
      TablesCleaned(Outcome(o.tables[d := pass.table], pass.total, pass.expired, pass.failed), d + 1, policy, fate, e);
    }
  }

  /** A recording that ended within the last `days` days, or has not ended. */
  predicate Retained(row: Row, days: nat, now: nat) {
    row.endedAtMs.None? || row.endedAtMs.value < 0 || now <= row.endedAtMs.value + days * 86_400_000
  }

  /** Retention is counted in days of 86,400,000 milliseconds. */
  lemma RetainedExactly(row: Row, days: nat, gigabytes: nat, now: nat)
    requires now <= U64_MAX
    ensures var policy := PolicyFor(days, gigabytes, now);
            row.EndedAt(policy.now) >= policy.cutoff <==> Retained(row, days, now)
  {
  }

  /**
   * A clean-up over all domains, whether it fails or not, deletes a retained recording only after every older one of
   * its domain, except those whose file is refused.
   */
  lemma CleanupOldestFirst(tables: seq<Table>, days: nat, gigabytes: nat, now: nat, fate: (nat, nat) -> Fate, d: nat,
                           p: nat, q: nat)
    requires now <= U64_MAX && d < |tables| && p < |tables[d]| && q < |tables[d]|
    requires Finished(tables[d][p]) && Finished(tables[d][q]) && Older(tables[d], p, q)
    requires Retained(tables[d][q], days, now)
    ensures var end := Cleanup(tables, PolicyFor(days, gigabytes, now), fate);
            && |end.tables| == |tables| && |end.tables[d]| == |tables[d]|
            && (end.tables[d][q] != tables[d][q] ==> Given(tables[d], end.tables[d], p, InDomain(fate, d)))
  {
    var policy := PolicyFor(days, gigabytes, now);
    TablesCleaned(Outcome(tables, 0, 0, false), 0, policy, fate, d);
    RetainedExactly(tables[d][q], days, gigabytes, now);
    var after := Cleanup(tables, policy, fate).tables[d];
    if after != tables[d] {
      var total, expired :| after == CleanTable(tables[d], total, expired, policy, InDomain(fate, d)).table;
      OldestDeletedFirst(tables[d], total, expired, policy, InDomain(fate, d), p, q);
    }
  }

  // ---- Within the quota ----

  /** Exactly the recordings past retention whose file can go are deleted. */
  ghost predicate OnlyExpired(before: Table, after: Table, policy: Policy, fate: nat -> Fate) {
    && |after| == |before|
    && forall p :: 0 <= p < |before| ==>
         after[p] == if Finished(before[p]) && before[p].EndedAt(policy.now) < policy.cutoff
                        && !IsRefused(before, p, fate)
                     then Deleted(before[p]) else before[p]
  }

  lemma TableWithinQuota(table: Table, total: nat, expired: nat, policy: Policy, fate: nat -> Fate)
    requires total + Bytes(table) <= U64_MAX && total + Bytes(table) <= policy.maxBytes
    ensures var end := CleanTable(table, total, expired, policy, fate);
            |end.table| == |table| && (!end.failed ==> OnlyExpired(table, end.table, policy, fate))
  {
    var end := CleanTable(table, total, expired, policy, fate);
    TableSettles(table, total, expired, policy, fate);
    if !end.failed {
      forall p | 0 <= p < |table|
        ensures end.table[p] == if Finished(table[p]) && table[p].EndedAt(policy.now) < policy.cutoff
                                   && !IsRefused(table, p, fate)
                                then Deleted(table[p]) else table[p]
      {
        if Finished(table[p]) && table[p].EndedAt(policy.now) >= policy.cutoff {
          KeptWithinQuota(table, total, expired, policy, fate, p);
        }
      }
    }
  }

  lemma KeptWithinQuota(table: Table, total: nat, expired: nat, policy: Policy, fate: nat -> Fate, p: nat)
    requires total + Bytes(table) <= U64_MAX && total + Bytes(table) <= policy.maxBytes
    requires p < |table| && Finished(table[p]) && table[p].EndedAt(policy.now) >= policy.cutoff
    ensures var end := CleanTable(table, total, expired, policy, fate);
            |end.table| == |table| && end.table[p] == table[p]
  {
    var scan := Scan(table);
    ScanCovers(table);
    CleanTableSweeps(table, total, expired, policy, fate);
    assert Reaches(scan, p);
    var j :| 0 <= j < |scan| && scan[j].position == p;
    var start := FirstPass(table, total, expired);
    if Sweep(start, scan, 0, policy, fate).table[p] != table[p] {
      DeletedOverQuota(start, scan, 0, j, policy, fate);
    }
  }

  lemma {:induction false} DomainsWithinQuota(before: seq<Table>, o: Outcome, d: nat, policy: Policy,
                                              fate: (nat, nat) -> Fate, e: nat)
    requires Done(before, o, d, policy, fate) && d <= e < |before|
    requires Sum(before, |before|) <= U64_MAX && Sum(before, |before|) <= policy.maxBytes
    ensures var end := CleanFrom(o, d, policy, fate);
            |end.tables| == |before| &&
            (!end.failed ==> OnlyExpired(before[e], end.tables[e], policy, InDomain(fate, e)))
    decreases |before| - d
  {
    if !o.failed {
      var pass := CleanTable(o.tables[d], o.total, o.expired, policy, InDomain(fate, d));
      var next := Outcome(o.tables[d := pass.table], pass.total, pass.expired, pass.failed);
      SumClimbs(before, d + 1, |before|);
      TableWithinQuota(o.tables[d], o.total, o.expired, policy, InDomain(fate, d));
      DomainDone(before, o, d, policy, fate);
      if d < e {
        DomainsWithinQuota(before, next, d + 1, policy, fate, e);
      } else {
        TablesCleaned(next, d + 1, policy, fate, e);
        FailureLasts(next, d + 1, policy, fate);
      }
    }
  }

  lemma FailureLasts(o: Outcome, d: nat, policy: Policy, fate: (nat, nat) -> Fate)
    requires d <= |o.tables|
    ensures o.failed ==> CleanFrom(o, d, policy, fate) == o
  {
  }

  /** While all recordings fit the quota of `gigabytes` GiB, a clean-up deletes exactly those past retention. */
  lemma CleanupWithinQuota(tables: seq<Table>, days: nat, gigabytes: nat, now: nat, fate: (nat, nat) -> Fate, d: nat,
                           p: nat)
    requires now <= U64_MAX && Sum(tables, |tables|) <= U64_MAX
    requires Sum(tables, |tables|) <= gigabytes * 1_073_741_824
    requires d < |tables| && p < |tables[d]|
    ensures var end := Cleanup(tables, PolicyFor(days, gigabytes, now), fate);
            && |end.tables| == |tables| && |end.tables[d]| == |tables[d]|
            && (!end.failed ==>
                  end.tables[d][p] == if Finished(tables[d][p]) && !Retained(tables[d][p], days, now)
                                         && !(tables[d][p].hasFile && fate(d, p) == Refused)
                                      then Deleted(tables[d][p]) else tables[d][p])
  {
    var policy := PolicyFor(days, gigabytes, now);
    DomainsWithinQuota(tables, Outcome(tables, 0, 0, false), 0, policy, fate, d);
    TablesCleaned(Outcome(tables, 0, 0, false), 0, policy, fate, d);
    RetainedExactly(tables[d][p], days, gigabytes, now);
  }

  /**
   * After a clean-up without I/O error, what is left exceeds `gigabytes` GiB by no more than the refused files, and
   * past retention there are only such; when every file can go, there is no error, and neither is left.
   */
  lemma CleanupFitsQuota(tables: seq<Table>, days: nat, gigabytes: nat, now: nat, fate: (nat, nat) -> Fate)
    requires now <= U64_MAX && Sum(tables, |tables|) <= U64_MAX
    ensures var end := Cleanup(tables, PolicyFor(days, gigabytes, now), fate);
            && SameShape(tables, end.tables)
            && (!end.failed ==>
                  && Sum(end.tables, |tables|) <= gigabytes * 1_073_741_824 + RefusedSum(tables, |tables|, fate)
                  && forall e, p :: 0 <= e < |tables| && 0 <= p < |end.tables[e]| && Finished(end.tables[e][p]) ==>
                       || Retained(end.tables[e][p], days, now)
                       || (tables[e][p].hasFile && fate(e, p) == Refused))
    ensures (forall e: nat, i: nat :: fate(e, i) == Gone) ==>
              && !Cleanup(tables, PolicyFor(days, gigabytes, now), fate).failed
              && RefusedSum(tables, |tables|, fate) == 0
  {
    var policy := PolicyFor(days, gigabytes, now);
    var end := Cleanup(tables, policy, fate);
    CleanupMeetsQuota(tables, policy, fate);
    DomainsCount(Outcome(tables, 0, 0, false), 0, policy, fate);
    if !end.failed {
      forall e, p | 0 <= e < |tables| && 0 <= p < |end.tables[e]| && Finished(end.tables[e][p])
        ensures Retained(end.tables[e][p], days, now) || (tables[e][p].hasFile && fate(e, p) == Refused)
      {
        assert LeftRightly(tables[e], end.tables[e], policy, InDomain(fate, e));
        RetainedExactly(end.tables[e][p], days, gigabytes, now);
      }
    }
    if forall e: nat, i: nat :: fate(e, i) == Gone {
      CleanNeverFails(Outcome(tables, 0, 0, false), 0, policy, fate);
      NothingRefused(tables, |tables|, fate);
    }
  }

  // ---- The answer ----

  /** How many rows differ. */
  ghost function Changed(before: Table, after: Table): nat
    requires |before| == |after|
  {
    if before == [] then 0
    else
      var n := |before| - 1;
      Changed(before[..n], after[..n]) + if before[n] == after[n] then 0 else 1
  }

  lemma {:induction false} Unchanged(table: Table)
    ensures Changed(table, table) == 0
  {
    if table != [] {
      Unchanged(table[..|table| - 1]);
    }
  }

  lemma {:induction false} OneMoreChanged(before: Table, after: Table, i: nat, row: Row)
    requires i < |before| == |after| && after[i] == before[i] != row
    ensures Changed(before, after[i := row]) == Changed(before, after) + 1
  {
    var n := |before| - 1;
    if i < n {
      OneMoreChanged(before[..n], after[..n], i, row);
      assert after[i := row][..n] == after[..n][i := row];
    } else {
      assert after[i := row][..n] == after[..n];
    }
  }

  lemma {:induction false} SweepCounts(before: Table, pass: Pass, scan: seq<Entry>, k: nat, policy: Policy,
                                       fate: nat -> Fate, base: nat)
    requires k <= |scan| && Within(scan, |pass.table|) && Once(scan) && |before| == |pass.table|
    requires forall i :: k <= i < |scan| ==>
               before[scan[i].position].Scanned() && pass.table[scan[i].position] == before[scan[i].position]
    requires pass.expired == Min(base + Changed(before, pass.table), U64_MAX)
    ensures var end := Sweep(pass, scan, k, policy, fate);
            end.expired == Min(base + Changed(before, end.table), U64_MAX)
    decreases |scan| - k
  {
    if k < |scan| && !pass.failed {
      var i := scan[k].position;
      OneMoreChanged(before, pass.table, i, before[i].Expire());
      SweepCounts(before, pass.Visit(i, policy, fate), scan, k + 1, policy, fate, base);
    }
  }

  lemma TableCounts(table: Table, total: nat, expired: nat, policy: Policy, fate: nat -> Fate)
    requires expired <= U64_MAX
    ensures var end := CleanTable(table, total, expired, policy, fate);
            |end.table| == |table| && end.expired == Min(expired + Changed(table, end.table), U64_MAX)
  {
    var scan := Scan(table);
    ScanCovers(table);
    Unchanged(table);
    forall i | 0 <= i < |scan| ensures table[scan[i].position].Scanned() {
      assert DescribesRow(scan[i], table, |table|);
    }
    SweepCounts(table, Pass(table, SatAdd(total, Bytes(table) % U64_SIZE), expired, false), scan, 0, policy, fate,
                expired);
  }

  /** How many rows of the tables differ from `d` on. */
  ghost function ChangedFrom(before: seq<Table>, after: seq<Table>, d: nat): nat
    requires d <= |before| == |after| && forall e :: 0 <= e < |before| ==> |before[e]| == |after[e]|
    decreases |before| - d
  {
    if d == |before| then 0 else Changed(before[d], after[d]) + ChangedFrom(before, after, d + 1)
  }

  ghost predicate SameShape(before: seq<Table>, after: seq<Table>) {
    |before| == |after| && forall e :: 0 <= e < |before| ==> |before[e]| == |after[e]|
  }

  lemma {:induction false} NoneChangedFrom(tables: seq<Table>, d: nat)
    requires d <= |tables|
    ensures ChangedFrom(tables, tables, d) == 0
    decreases |tables| - d
  {
    if d < |tables| {
      Unchanged(tables[d]);
      NoneChangedFrom(tables, d + 1);
    }
  }

  lemma {:induction false} ChangedFrame(a: seq<Table>, b: seq<Table>, after: seq<Table>, d: nat)
    requires SameShape(a, after) && SameShape(b, after) && d <= |a|
    requires forall e :: d <= e < |a| ==> a[e] == b[e]
    ensures ChangedFrom(a, after, d) == ChangedFrom(b, after, d)
    decreases |a| - d
  {
    if d < |a| {
      ChangedFrame(a, b, after, d + 1);
    }
  }

  lemma {:induction false} DomainsCount(o: Outcome, d: nat, policy: Policy, fate: (nat, nat) -> Fate)
    requires d <= |o.tables| && o.expired <= U64_MAX
    ensures var end := CleanFrom(o, d, policy, fate);
            && SameShape(o.tables, end.tables)
            && end.expired == Min(o.expired + ChangedFrom(o.tables, end.tables, d), U64_MAX)
    decreases |o.tables| - d
  {
    if d == |o.tables| || o.failed {
      NoneChangedFrom(o.tables, d);
    } else {
      var pass := CleanTable(o.tables[d], o.total, o.expired, policy, InDomain(fate, d));
      var next := Outcome(o.tables[d := pass.table], pass.total, pass.expired, pass.failed);
      TableCounts(o.tables[d], o.total, o.expired, policy, InDomain(fate, d));
      DomainsCount(next, d + 1, policy, fate);
      TablesCleaned(next, d + 1, policy, fate, d);
      ChangedFrame(o.tables, next.tables, CleanFrom(o, d, policy, fate).tables, d + 1);
    }
  }

  /** The number a clean-up answers is that of the rows it expired. */
  lemma CleanupCounts(tables: seq<Table>, policy: Policy, fate: (nat, nat) -> Fate)
    ensures var end := Cleanup(tables, policy, fate);
            SameShape(tables, end.tables) && end.expired == Min(ChangedFrom(tables, end.tables, 0), U64_MAX)
  {
    DomainsCount(Outcome(tables, 0, 0, false), 0, policy, fate);
  }
}
