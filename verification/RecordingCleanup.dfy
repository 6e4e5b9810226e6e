/** Retention and quota clean-up of recordings over per-domain tables (data_store, cleanup_recordings). */
module RecordingCleanup {
  import opened Prelude
  import opened Ordering

  datatype Status = Complete | Incomplete | Failed | Expired | Other

  /** A recording row; integers are signed database integers. */
  datatype Row = Row(callId: string, status: Status, endedAtMs: Option<int>, startedAtMs: int, hasFile: bool,
                     sizeBytes: int) {
    predicate Scanned() { status in {Complete, Incomplete, Failed} }

    /** A negative size counts as nothing. */
    function Bytes(): nat { if sizeBytes < 0 then 0 else sizeBytes }

    /** A missing or negative end time counts as now. */
    function EndedAt(now: nat): nat { if endedAtMs.Some? && endedAtMs.value >= 0 then endedAtMs.value else now }

    function Expire(): Row { this.(status := Expired, hasFile := false, sizeBytes := 0) }

    function ScanTime(): int { if endedAtMs.Some? then endedAtMs.value else startedAtMs }
  }

  type Table = seq<Row>

  /** What trying to delete a row's file comes to: gone, refused (outside the root, unresolvable), or an I/O error. */
  datatype Fate = Gone | Refused | IoError

  datatype Policy = Policy(cutoff: nat, maxBytes: nat, now: nat)

  function PolicyFor(retentionDays: nat, maxSizeGb: nat, now: nat): Policy {
    Policy(SatSub(now, Min(retentionDays * 86_400_000, U64_MAX)), Min(maxSizeGb * 1_073_741_824, U64_MAX), now)
  }

  function Counted(row: Row): nat { if row.Scanned() then row.Bytes() else 0 }

  /** Bytes of the scanned rows. */
  function Bytes(table: Table): nat {
    if table == [] then 0 else Bytes(table[..|table| - 1]) + Counted(table[|table| - 1])
  }

  /** A scanned row's place in the scan order. */
  datatype Entry = Entry(position: nat, time: int, callId: string)

  /** ORDER BY COALESCE(ended_at_ms, started_at_ms), call_id */
  predicate ScanLeq(a: Entry, b: Entry) { a.time < b.time || (a.time == b.time && StrLeq(a.callId, b.callId)) }

  function Entries(table: Table, n: nat): seq<Entry>
    requires n <= |table|
  {
    if n == 0 then []
    else
      var row := table[n - 1];
      Entries(table, n - 1) + if row.Scanned() then [Entry(n - 1, row.ScanTime(), row.callId)] else []
  }

  function Scan(table: Table): seq<Entry> { Sort(Entries(table, |table|), ScanLeq) }

  /** The state of the pass within one domain. */
  datatype Pass = Pass(table: Table, total: nat, expired: nat, failed: bool) {
    function Visit(i: nat, policy: Policy, fate: nat -> Fate): Pass
      requires i < |table|
    {
      var row := table[i];
      if row.EndedAt(policy.now) >= policy.cutoff && total <= policy.maxBytes then this
      else if row.hasFile && fate(i) == IoError then this.(failed := true)
      else if row.hasFile && fate(i) == Refused then this
      else Pass(table[i := row.Expire()], SatSub(total, row.Bytes()), SatAdd(expired, 1), false)
    }
  }

  /** The pass over the scan from position `k` on; an I/O error ends it. */
  function Sweep(pass: Pass, scan: seq<Entry>, k: nat, policy: Policy, fate: nat -> Fate): (end: Pass)
    requires k <= |scan| && Within(scan, |pass.table|)
    ensures |end.table| == |pass.table|
    decreases |scan| - k
  {
    if k == |scan| || pass.failed then pass
    else Sweep(pass.Visit(scan[k].position, policy, fate), scan, k + 1, policy, fate)
  }

  predicate Within(scan: seq<Entry>, n: nat) { forall i :: 0 <= i < |scan| ==> scan[i].position < n }

  function CleanTable(table: Table, total: nat, expired: nat, policy: Policy, fate: nat -> Fate): Pass {
    ScanCovers(table);
    Sweep(Pass(table, SatAdd(total, Bytes(table) % U64_SIZE), expired, false), Scan(table), 0, policy, fate)
  }

  function InDomain(fate: (nat, nat) -> Fate, d: nat): nat -> Fate { (i: nat) => fate(d, i) }

  datatype Outcome = Outcome(tables: seq<Table>, total: nat, expired: nat, failed: bool)

  /** The pass over the domains from `d` on, byte totals accumulated one domain at a time. */
  function CleanFrom(o: Outcome, d: nat, policy: Policy, fate: (nat, nat) -> Fate): Outcome
    requires d <= |o.tables|
    decreases |o.tables| - d
  {
    if d == |o.tables| || o.failed then o
    else
      var pass := CleanTable(o.tables[d], o.total, o.expired, policy, InDomain(fate, d));
      CleanFrom(Outcome(o.tables[d := pass.table], pass.total, pass.expired, pass.failed), d + 1, policy, fate)
  }

  function Cleanup(tables: seq<Table>, policy: Policy, fate: (nat, nat) -> Fate): Outcome {
    CleanFrom(Outcome(tables, 0, 0, false), 0, policy, fate)
  }

  // ---- The scan ----

  lemma ScanOrder()
    ensures Order(ScanLeq)
  {
    forall x: Entry, y: Entry ensures ScanLeq(x, y) || ScanLeq(y, x) { StrTotal(x.callId, y.callId); }
    forall x: Entry, y: Entry, z: Entry | ScanLeq(x, y) && ScanLeq(y, z) ensures ScanLeq(x, z) {
      if StrLeq(x.callId, y.callId) && StrLeq(y.callId, z.callId) {
        StrTransitive(x.callId, y.callId, z.callId);
      }
    }
  }

  /** Every entry describes a scanned row among the first n. */
  ghost predicate Describes(scan: seq<Entry>, table: Table, n: nat) {
    n <= |table| && forall i :: 0 <= i < |scan| ==> DescribesRow(scan[i], table, n)
  }

  predicate DescribesRow(e: Entry, table: Table, n: nat) {
    && e.position < n <= |table| && table[e.position].Scanned()
    && e == Entry(e.position, table[e.position].ScanTime(), table[e.position].callId)
  }

  ghost predicate Once(scan: seq<Entry>) {
    forall i, j :: 0 <= i < j < |scan| ==> scan[i].position != scan[j].position
  }

  ghost predicate Reaches(scan: seq<Entry>, p: nat) { exists i :: 0 <= i < |scan| && scan[i].position == p }

  ghost predicate ReachesAll(scan: seq<Entry>, table: Table, n: nat) {
    forall p :: 0 <= p < n <= |table| && table[p].Scanned() ==> Reaches(scan, p)
  }

  ghost predicate Covers(scan: seq<Entry>, table: Table, n: nat) {
    Describes(scan, table, n) && Once(scan) && ReachesAll(scan, table, n)
  }

  lemma {:induction false} EntriesDescribe(table: Table, n: nat)
    requires n <= |table|
    ensures Describes(Entries(table, n), table, n) && Once(Entries(table, n))
  {
    if n > 0 {
      EntriesDescribe(table, n - 1);
    }
  }

  lemma {:induction false} EntriesReach(table: Table, n: nat, p: nat)
    requires p < n <= |table| && table[p].Scanned()
    ensures Reaches(Entries(table, n), p)
  {
    var e := Entries(table, n);
    if p < n - 1 {
      EntriesReach(table, n - 1, p);
      var i :| 0 <= i < |Entries(table, n - 1)| && Entries(table, n - 1)[i].position == p;
      assert e[i].position == p;
    } else {
      assert e[|e| - 1].position == p;
    }
  }

  lemma EntriesCover(table: Table)
    ensures Covers(Entries(table, |table|), table, |table|)
  {
    EntriesDescribe(table, |table|);
    forall p | 0 <= p < |table| && table[p].Scanned() ensures Reaches(Entries(table, |table|), p) {
      EntriesReach(table, |table|, p);
    }
  }

  lemma OncePermuted(a: seq<Entry>, b: seq<Entry>, table: Table)
    requires Describes(a, table, |table|) && Once(a) && multiset(a) == multiset(b)
    ensures Describes(b, table, |table|) && Once(b)
  {
    DuplicatelessPart(a, b);
    forall i | 0 <= i < |b| ensures DescribesRow(b[i], table, |table|) {
      assert b[i] in a;
    }
    forall i, j | 0 <= i < j < |b| ensures b[i].position != b[j].position {
      assert DescribesRow(b[i], table, |table|) && DescribesRow(b[j], table, |table|);
    }
  }

  lemma ReachesPermuted(a: seq<Entry>, b: seq<Entry>, p: nat)
    requires Reaches(a, p) && multiset(a) == multiset(b)
    ensures Reaches(b, p)
  {
    var i :| 0 <= i < |a| && a[i].position == p;
    assert a[i] in multiset(b);
    var j :| 0 <= j < |b| && b[j] == a[i];
  }

  /** The scan visits every scanned row of the table once. */
  lemma ScanCovers(table: Table)
    ensures Covers(Scan(table), table, |table|) && Within(Scan(table), |table|) && Sorted(Scan(table), ScanLeq)
  {
    var entries, scan := Entries(table, |table|), Scan(table);
    ScanOrder();
    EntriesCover(table);
    SortSorts(entries, ScanLeq);
    OncePermuted(entries, scan, table);
    forall p | 0 <= p < |table| && table[p].Scanned() ensures Reaches(scan, p) {
      ReachesPermuted(entries, scan, p);
    }
    forall i | 0 <= i < |scan| ensures scan[i].position < |table| {
      assert DescribesRow(scan[i], table, |table|);
    }
  }

  // ---- One domain ----

  ghost predicate IsRefused(table: Table, p: nat, fate: nat -> Fate) {
    p < |table| && table[p].hasFile && fate(p) == Refused
  }

  /** Bytes of the scanned rows whose file cannot be deleted. */
  ghost function RefusedBytes(table: Table, fate: nat -> Fate): nat {
    if table == [] then 0
    else
      var n := |table| - 1;
      RefusedBytes(table[..n], fate) + if IsRefused(table, n, fate) then Counted(table[n]) else 0
  }

  lemma {:induction false} BytesUpdate(table: Table, i: nat, row: Row)
    requires i < |table|
    ensures Bytes(table[i := row]) == Bytes(table) - Counted(table[i]) + Counted(row)
  {
    var n := |table| - 1;
    if i < n {
      BytesUpdate(table[..n], i, row);
      assert table[i := row][..n] == table[..n][i := row];
    } else {
      assert table[i := row][..n] == table[..n];
    }
  }

  lemma {:induction false} OnlyRefusedLeft(table: Table, end: Table, fate: nat -> Fate)
    requires |end| == |table|
    requires forall p :: 0 <= p < |table| && end[p].Scanned() ==> end[p] == table[p] && IsRefused(table, p, fate)
    ensures Bytes(end) <= RefusedBytes(table, fate)
  {
    if table != [] {
      var n := |table| - 1;
      forall p | 0 <= p < n && end[..n][p].Scanned()
        ensures end[..n][p] == table[..n][p] && IsRefused(table[..n], p, fate)
      {
      }
      OnlyRefusedLeft(table[..n], end[..n], fate);
    }
  }

  /** What became of a row: kept within retention under the quota, expired, or kept because its file was refused. */
  ghost predicate Settled(before: Table, end: Pass, p: nat, policy: Policy, fate: nat -> Fate)
    requires p < |before| == |end.table|
  {
    || (end.table[p] == before[p].Expire() && !IsRefused(before, p, fate))
    || (end.table[p] == before[p] && IsRefused(before, p, fate))
    || (end.table[p] == before[p] && before[p].EndedAt(policy.now) >= policy.cutoff && end.total <= policy.maxBytes)
  }

  ghost predicate Ready(pass: Pass, scan: seq<Entry>, k: nat, base: nat) {
    && k <= |scan| && Within(scan, |pass.table|) && !pass.failed && pass.total == base + Bytes(pass.table)
    && (forall i, j :: 0 <= i < j < |scan| ==> scan[i].position != scan[j].position)
    && forall i :: k <= i < |scan| ==> pass.table[scan[i].position].Scanned()
  }

  lemma VisitReady(pass: Pass, scan: seq<Entry>, k: nat, policy: Policy, fate: nat -> Fate, base: nat)
    requires Ready(pass, scan, k, base) && k < |scan|
    ensures var next := pass.Visit(scan[k].position, policy, fate);
            && |next.table| == |pass.table| && next.total <= pass.total
               && (next.failed || Ready(next, scan, k + 1, base))
            && (forall p :: 0 <= p < |pass.table| && p != scan[k].position ==> next.table[p] == pass.table[p])
  {
    BytesUpdate(pass.table, scan[k].position, pass.table[scan[k].position].Expire());
  }

  lemma {:induction false} SweepSettles(pass: Pass, scan: seq<Entry>, k: nat, policy: Policy, fate: nat -> Fate,
                                        base: nat)
    requires Ready(pass, scan, k, base)
    ensures var end := Sweep(pass, scan, k, policy, fate);
            && |end.table| == |pass.table|
            && (!end.failed ==>
                  && end.total == base + Bytes(end.table) && end.total <= pass.total
                  && (forall p :: 0 <= p < |pass.table| && (forall i :: k <= i < |scan| ==> scan[i].position != p) ==>
                        end.table[p] == pass.table[p])
                  && forall i :: k <= i < |scan| ==> Settled(pass.table, end, scan[i].position, policy, fate))
    decreases |scan| - k
  {
    if k < |scan| {
      var next := pass.Visit(scan[k].position, policy, fate);
      VisitReady(pass, scan, k, policy, fate, base);
      if !next.failed {
        SweepSettles(next, scan, k + 1, policy, fate, base);
        var end := Sweep(next, scan, k + 1, policy, fate);
        if !end.failed {
          forall i | k <= i < |scan| ensures Settled(pass.table, end, scan[i].position, policy, fate) {
            if i > k {
              assert Settled(next.table, end, scan[i].position, policy, fate);
              assert next.table[scan[i].position] == pass.table[scan[i].position];
            }
          }
        }
      }
    }
  }

  /** Every scanned row is settled, and every other one untouched. */
  ghost predicate AllSettled(before: Table, end: Pass, policy: Policy, fate: nat -> Fate) {
    && |end.table| == |before|
    && forall p :: 0 <= p < |before| ==>
         if before[p].Scanned() then Settled(before, end, p, policy, fate) else end.table[p] == before[p]
  }

  /** The pass over one domain, with its byte total taken as exact. */
  function FirstPass(table: Table, total: nat, expired: nat): Pass { Pass(table, total + Bytes(table), expired, false) }

  lemma FirstReady(table: Table, total: nat, expired: nat)
    ensures Ready(FirstPass(table, total, expired), Scan(table), 0, total)
  {
    ScanCovers(table);
    var scan := Scan(table);
    forall i | 0 <= i < |scan| ensures table[scan[i].position].Scanned() {
      assert DescribesRow(scan[i], table, |table|);
    }
  }

  lemma ExactSum(total: nat, bytes: nat)
    requires total + bytes <= U64_MAX
    ensures SatAdd(total, bytes % U64_SIZE) == total + bytes
  {
  }

  lemma CleanTableSweeps(table: Table, total: nat, expired: nat, policy: Policy, fate: nat -> Fate)
    requires total + Bytes(table) <= U64_MAX
    ensures Within(Scan(table), |table|)
    ensures CleanTable(table, total, expired, policy, fate)
            == Sweep(FirstPass(table, total, expired), Scan(table), 0, policy, fate)
  {
    ScanCovers(table);
    ExactSum(total, Bytes(table));
  }

  lemma SweepSettlesAll(table: Table, total: nat, expired: nat, policy: Policy, fate: nat -> Fate)
    ensures Within(Scan(table), |table|)
    ensures var end := Sweep(FirstPass(table, total, expired), Scan(table), 0, policy, fate);
            !end.failed ==> AllSettled(table, end, policy, fate)
  {
    var scan, start := Scan(table), FirstPass(table, total, expired);
    ScanCovers(table);
    FirstReady(table, total, expired);
    SweepSettles(start, scan, 0, policy, fate, total);
    var end := Sweep(start, scan, 0, policy, fate);
    if !end.failed {
      forall p | 0 <= p < |table|
        ensures if table[p].Scanned() then Settled(table, end, p, policy, fate) else end.table[p] == table[p]
      {
        if table[p].Scanned() {
          assert Reaches(scan, p);
          var i :| 0 <= i < |scan| && scan[i].position == p;
        } else {
          forall i | 0 <= i < |scan| ensures scan[i].position != p {
            assert DescribesRow(scan[i], table, |table|);
          }
        }
      }
    }
  }

  /** Settled rows over quota are undeletable ones. */
  lemma OverQuotaRefused(before: Table, end: Pass, policy: Policy, fate: nat -> Fate)
    requires AllSettled(before, end, policy, fate) && end.total > policy.maxBytes
    ensures Bytes(end.table) <= RefusedBytes(before, fate)
  {
    forall p | 0 <= p < |before| && end.table[p].Scanned()
      ensures end.table[p] == before[p] && IsRefused(before, p, fate)
    {
      assert before[p].Scanned() ==> Settled(before, end, p, policy, fate);
    }
    OnlyRefusedLeft(before, end.table, fate);
  }

  /** One domain's pass: every scanned row is settled, and over quota only undeletable rows are left. */
  lemma TableSettles(table: Table, total: nat, expired: nat, policy: Policy, fate: nat -> Fate)
    requires total + Bytes(table) <= U64_MAX
    ensures var end := CleanTable(table, total, expired, policy, fate);
            && |end.table| == |table|
            && (!end.failed ==>
                  && end.total == total + Bytes(end.table) && Bytes(end.table) <= Bytes(table)
                  && (end.total <= policy.maxBytes || end.total <= total + RefusedBytes(table, fate))
                  && AllSettled(table, end, policy, fate))
  {
    CleanTableSweeps(table, total, expired, policy, fate);
    SweepSettlesAll(table, total, expired, policy, fate);
    FirstReady(table, total, expired);
    SweepTotals(FirstPass(table, total, expired), Scan(table), policy, fate, total);
    var end := CleanTable(table, total, expired, policy, fate);
    if !end.failed && end.total > policy.maxBytes {
      OverQuotaRefused(table, end, policy, fate);
    }
  }

  lemma SweepTotals(pass: Pass, scan: seq<Entry>, policy: Policy, fate: nat -> Fate, base: nat)
    requires Ready(pass, scan, 0, base)
    ensures var end := Sweep(pass, scan, 0, policy, fate);
            && |end.table| == |pass.table|
            && (!end.failed ==> end.total == base + Bytes(end.table) && end.total <= pass.total)
  {
    SweepSettles(pass, scan, 0, policy, fate, base);
  }

  // ---- All domains ----

  function Sum(tables: seq<Table>, d: nat): nat
    requires d <= |tables|
  {
    if d == 0 then 0 else Sum(tables, d - 1) + Bytes(tables[d - 1])
  }

  ghost function RefusedSum(tables: seq<Table>, d: nat, fate: (nat, nat) -> Fate): nat
    requires d <= |tables|
  {
    if d == 0 then 0 else RefusedSum(tables, d - 1, fate) + RefusedBytes(tables[d - 1], InDomain(fate, d - 1))
  }

  lemma {:induction false} SumFrame(a: seq<Table>, b: seq<Table>, d: nat)
    requires d <= |a| && d <= |b| && forall e :: 0 <= e < d ==> a[e] == b[e]
    ensures Sum(a, d) == Sum(b, d)
  {
    if d > 0 {
      SumFrame(a, b, d - 1);
    }
  }

  lemma {:induction false} SumClimbs(tables: seq<Table>, d: nat, n: nat)
    requires d <= n <= |tables|
    ensures Sum(tables, d) <= Sum(tables, n)
  {
    if d < n {
      SumClimbs(tables, d, n - 1);
    }
  }

  /** A scanned row that is left is within retention or undeletable. */
  ghost predicate LeftRightly(before: Table, after: Table, policy: Policy, fate: nat -> Fate) {
    && |after| == |before|
    && forall p :: 0 <= p < |before| ==>
         || after[p] == before[p].Expire()
         || (after[p] == before[p] &&
             (before[p].Scanned() ==> before[p].EndedAt(policy.now) >= policy.cutoff || IsRefused(before, p, fate)))
  }

  lemma SettledLeftRightly(before: Table, end: Pass, policy: Policy, fate: nat -> Fate)
    requires AllSettled(before, end, policy, fate)
    ensures LeftRightly(before, end.table, policy, fate)
  {
    forall p | 0 <= p < |before|
      ensures || end.table[p] == before[p].Expire()
              || (end.table[p] == before[p] &&
                  (before[p].Scanned() ==>
                     before[p].EndedAt(policy.now) >= policy.cutoff || IsRefused(before, p, fate)))
    {
      if before[p].Scanned() {
        assert Settled(before, end, p, policy, fate);
      }
    }
  }

  ghost predicate Done(before: seq<Table>, o: Outcome, d: nat, policy: Policy, fate: (nat, nat) -> Fate) {
    && d <= |before| == |o.tables|
    && (!o.failed ==>
          && o.total == Sum(o.tables, d) <= Sum(before, d)
          && o.total <= policy.maxBytes + RefusedSum(before, d, fate)
          && (forall e :: 0 <= e < d ==> LeftRightly(before[e], o.tables[e], policy, InDomain(fate, e)))
          && forall e :: d <= e < |before| ==> o.tables[e] == before[e])
  }

  /** One domain's share of the outcome. */
  lemma TableLeft(table: Table, total: nat, expired: nat, policy: Policy, fate: nat -> Fate)
    requires total + Bytes(table) <= U64_MAX
    ensures var end := CleanTable(table, total, expired, policy, fate);
            && |end.table| == |table|
            && (!end.failed ==>
                  && end.total == total + Bytes(end.table) && Bytes(end.table) <= Bytes(table)
                  && (end.total <= policy.maxBytes || end.total <= total + RefusedBytes(table, fate))
                  && LeftRightly(table, end.table, policy, fate))
  {
    TableSettles(table, total, expired, policy, fate);
    if !CleanTable(table, total, expired, policy, fate).failed {
      SettledLeftRightly(table, CleanTable(table, total, expired, policy, fate), policy, fate);
    }
  }

  /** Adding one cleaned domain to the domains done so far. */
  lemma DoneNext(before: seq<Table>, o: Outcome, d: nat, policy: Policy, fate: (nat, nat) -> Fate, pass: Pass)
    requires Done(before, o, d, policy, fate) && d < |before| && !o.failed
    requires |pass.table| == |before[d]|
    requires !pass.failed ==>
               && pass.total == o.total + Bytes(pass.table) && Bytes(pass.table) <= Bytes(before[d])
               && (pass.total <= policy.maxBytes || pass.total <= o.total + RefusedBytes(before[d], InDomain(fate, d)))
               && LeftRightly(before[d], pass.table, policy, InDomain(fate, d))
    ensures Done(before, Outcome(o.tables[d := pass.table], pass.total, pass.expired, pass.failed), d + 1, policy, fate)
  {
    SumFrame(o.tables, o.tables[d := pass.table], d);
  }

  lemma DomainDone(before: seq<Table>, o: Outcome, d: nat, policy: Policy, fate: (nat, nat) -> Fate)
    requires Done(before, o, d, policy, fate) && d < |before| && !o.failed && Sum(before, |before|) <= U64_MAX
    ensures var pass := CleanTable(o.tables[d], o.total, o.expired, policy, InDomain(fate, d));
            Done(before, Outcome(o.tables[d := pass.table], pass.total, pass.expired, pass.failed), d + 1, policy, fate)
  {
    SumClimbs(before, d + 1, |before|);
    TableLeft(o.tables[d], o.total, o.expired, policy, InDomain(fate, d));
    DoneNext(before, o, d, policy, fate, CleanTable(o.tables[d], o.total, o.expired, policy, InDomain(fate, d)));
  }

  lemma {:induction false} AllDone(before: seq<Table>, o: Outcome, d: nat, policy: Policy, fate: (nat, nat) -> Fate)
    requires Done(before, o, d, policy, fate) && Sum(before, |before|) <= U64_MAX
    ensures Done(before, CleanFrom(o, d, policy, fate), |before|, policy, fate)
    decreases |before| - d
  {
    if d < |before| && !o.failed {
      DomainDone(before, o, d, policy, fate);
      var pass := CleanTable(o.tables[d], o.total, o.expired, policy, InDomain(fate, d));
      AllDone(before, Outcome(o.tables[d := pass.table], pass.total, pass.expired, pass.failed), d + 1, policy, fate);
    }
  }

  /**
   * After a pass without I/O error, the scanned recordings left exceed the quota by no more than the files that could
   * not be deleted (so they fit it when every file can be deleted), and none older than the cutoff is left unless its
   * file could not be deleted.
   */
  lemma CleanupMeetsQuota(tables: seq<Table>, policy: Policy, fate: (nat, nat) -> Fate)
    requires Sum(tables, |tables|) <= U64_MAX
    ensures var end := Cleanup(tables, policy, fate);
            && |end.tables| == |tables|
            && (!end.failed ==>
                  && Sum(end.tables, |tables|) <= policy.maxBytes + RefusedSum(tables, |tables|, fate)
                  && forall e :: 0 <= e < |tables| ==>
                       LeftRightly(tables[e], end.tables[e], policy, InDomain(fate, e)))
  {
    AllDone(tables, Outcome(tables, 0, 0, false), 0, policy, fate);
  }

  lemma {:induction false} NothingRefused(tables: seq<Table>, d: nat, fate: (nat, nat) -> Fate)
    requires d <= |tables| && forall e: nat, i: nat :: fate(e, i) == Gone
    ensures RefusedSum(tables, d, fate) == 0
  {
    if d > 0 {
      NothingRefused(tables, d - 1, fate);
      NothingRefusedIn(tables[d - 1], InDomain(fate, d - 1));
    }
  }

  lemma {:induction false} NothingRefusedIn(table: Table, fate: nat -> Fate)
    requires forall i: nat :: fate(i) == Gone
    ensures RefusedBytes(table, fate) == 0
  {
    if table != [] {
      NothingRefusedIn(table[..|table| - 1], fate);
    }
  }

  lemma {:induction false} SweepNeverFails(pass: Pass, scan: seq<Entry>, k: nat, policy: Policy, fate: nat -> Fate)
    requires k <= |scan| && Within(scan, |pass.table|) && !pass.failed && forall i: nat :: fate(i) == Gone
    ensures !Sweep(pass, scan, k, policy, fate).failed
    decreases |scan| - k
  {
    if k < |scan| {
      SweepNeverFails(pass.Visit(scan[k].position, policy, fate), scan, k + 1, policy, fate);
    }
  }

  lemma {:induction false} CleanNeverFails(o: Outcome, d: nat, policy: Policy, fate: (nat, nat) -> Fate)
    requires d <= |o.tables| && !o.failed && forall e: nat, i: nat :: fate(e, i) == Gone
    ensures !CleanFrom(o, d, policy, fate).failed
    decreases |o.tables| - d
  {
    if d < |o.tables| {
      ScanCovers(o.tables[d]);
      SweepNeverFails(Pass(o.tables[d], SatAdd(o.total, Bytes(o.tables[d]) % U64_SIZE), o.expired, false),
                      Scan(o.tables[d]), 0, policy, InDomain(fate, d));
      var pass := CleanTable(o.tables[d], o.total, o.expired, policy, InDomain(fate, d));
      CleanNeverFails(Outcome(o.tables[d := pass.table], pass.total, pass.expired, pass.failed), d + 1, policy, fate);
    }
  }

  /** The recording tables of all domains, in the order of their ids. */
  class RecordingStore {
    var tables: seq<Table>

    constructor (tables: seq<Table>)
      ensures this.tables == tables
    {
      this.tables := tables;
    }

    method CleanupRecordings(retentionDays: nat, maxSizeGb: nat, now: nat, fate: (nat, nat) -> Fate)
      returns (answer: Result<nat, ()>)
      modifies this
      ensures var end := Cleanup(old(tables), PolicyFor(retentionDays, maxSizeGb, now), fate);
              tables == end.tables && answer == if end.failed then Err(()) else Ok(end.expired)
    {
      var policy := PolicyFor(retentionDays, maxSizeGb, now);
      var total: nat, expired: nat := 0, 0;
      for d := 0 to |tables|
        invariant |tables| == |old(tables)|
        invariant CleanFrom(Outcome(tables, total, expired, false), d, policy, fate)
                  == Cleanup(old(tables), policy, fate)
      {
        var failed;
        total, expired, failed := CleanDomain(d, total, expired, policy, InDomain(fate, d));
        if failed {
          return Err(());
        }
      }
      answer := Ok(expired);
    }

    /** The pass over one domain's table. */
    method CleanDomain(d: nat, total0: nat, expired0: nat, policy: Policy, fate: nat -> Fate)
      returns (total: nat, expired: nat, failed: bool)
      requires d < |tables|
      modifies this
      ensures var end := CleanTable(old(tables[d]), total0, expired0, policy, fate);
              end == Pass(end.table, total, expired, failed) && tables == old(tables)[d := end.table]
    {
      ScanCovers(tables[d]);
      var scan := Scan(tables[d]);
      total, expired, failed := SatAdd(total0, Bytes(tables[d]) % U64_SIZE), expired0, false;
      ghost var first := Pass(tables[d], total, expired, false);
      for k := 0 to |scan|
        invariant |tables| == |old(tables)| && |tables[d]| == |old(tables[d])| && tables == old(tables)[d := tables[d]]
        invariant !failed
        invariant Sweep(Pass(tables[d], total, expired, failed), scan, k, policy, fate)
                  == Sweep(first, scan, 0, policy, fate)
      {
        var i := scan[k].position;
        var row := tables[d][i];
        if row.EndedAt(policy.now) < policy.cutoff || total > policy.maxBytes {
          if row.hasFile && fate(i) == IoError {
            failed := true;
            return;
          }
          if !(row.hasFile && fate(i) == Refused) {
            tables := tables[d := tables[d][i := row.Expire()]];
            total := SatSub(total, row.Bytes());
            expired := SatAdd(expired, 1);
          }
        }
      }
    }
  }
}
