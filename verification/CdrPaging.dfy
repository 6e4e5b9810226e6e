/** Listing call detail records page by page over per-domain tables (data_store, list_cdr). */
module CdrPaging {
  import opened Prelude
  import opened Ordering

  const I64_MAX: nat := 0x7FFF_FFFF_FFFF_FFFF

  /** A call detail record; `rest` stands for the columns paging does not look at. */
  datatype Cdr = Cdr(domainId: string, callId: string, endedAtMs: nat, rest: string)

  /** A domain's own table. */
  datatype Domain = Domain(id: string, rows: seq<Cdr>)

  datatype Page = Page(rows: seq<Cdr>, total: nat)

  datatype PageError = ValueOutOfRange

  /** ORDER BY ended_at_ms DESC, call_id DESC */
  predicate DomainLeq(a: Cdr, b: Cdr) {
    a.endedAtMs > b.endedAtMs || (a.endedAtMs == b.endedAtMs && StrLeq(b.callId, a.callId))
  }

  /** The order of the merged listing: by domain within the same end time. */
  predicate GlobalLeq(a: Cdr, b: Cdr) {
    || a.endedAtMs > b.endedAtMs
    || (a.endedAtMs == b.endedAtMs &&
        if a.domainId == b.domainId then StrLeq(b.callId, a.callId) else StrLeq(a.domainId, b.domainId))
  }

  function Take<T>(s: seq<T>, n: nat): seq<T> { if n <= |s| then s[..n] else s }

  function Drop<T>(s: seq<T>, n: nat): seq<T> { if n <= |s| then s[n..] else [] }

  function Concat(domains: seq<Domain>): seq<Cdr> {
    if domains == [] then [] else domains[0].rows + Concat(domains[1..])
  }

  /** call_id is a primary key, a record lies in its own domain's table, domain ids differ. */
  ghost predicate WellKeyed(domains: seq<Domain>) {
    && (forall d :: 0 <= d < |domains| ==>
          && (forall i :: 0 <= i < |domains[d].rows| ==> domains[d].rows[i].domainId == domains[d].id)
          && forall i, j :: 0 <= i < j < |domains[d].rows| ==> domains[d].rows[i].callId != domains[d].rows[j].callId)
    && forall d, e :: 0 <= d < e < |domains| ==> domains[d].id != domains[e].id
  }

  function Select(store: seq<Domain>, domainId: Option<string>): seq<Domain> {
    if domainId.None? then store else [Lookup(store, domainId.value)]
  }

  /** Opening an unknown domain's table creates an empty one. */
  function Lookup(store: seq<Domain>, id: string): Domain {
    if store == [] then Domain(id, []) else if store[0].id == id then store[0] else Lookup(store[1..], id)
  }

  function Offset(page: nat, size: nat): nat { Min(SatSub(page, 1) * size, U64_MAX) }

  /** The reference: the page of the globally sorted list of all records. */
  ghost function GlobalPage(domains: seq<Domain>, page: nat, size: nat): Page {
    Page(Take(Drop(Sort(Concat(domains), GlobalLeq), Offset(page, size)), size), Min(|Concat(domains)|, U64_MAX))
  }

  function TopRows(domain: Domain, limit: nat): seq<Cdr> { Take(Sort(domain.rows, DomainLeq), limit) }

  /** What the loop over the domains collects. */
  function Fetched(domains: seq<Domain>, limit: nat): seq<Cdr> {
    if domains == [] then [] else TopRows(domains[0], limit) + Fetched(domains[1..], limit)
  }

  lemma OrdersAreTotal()
    ensures Order(DomainLeq) && Order(GlobalLeq)
  {
    forall x: Cdr, y: Cdr ensures (DomainLeq(x, y) || DomainLeq(y, x)) && (GlobalLeq(x, y) || GlobalLeq(y, x)) {
      StrTotal(x.callId, y.callId);
      StrTotal(x.domainId, y.domainId);
    }
    forall x: Cdr, y: Cdr, z: Cdr
      ensures DomainLeq(x, y) && DomainLeq(y, z) ==> DomainLeq(x, z)
      ensures GlobalLeq(x, y) && GlobalLeq(y, z) ==> GlobalLeq(x, z)
    {
      TransitiveAt(x, y, z);
    }
  }

  lemma TransitiveAt(x: Cdr, y: Cdr, z: Cdr)
    ensures DomainLeq(x, y) && DomainLeq(y, z) ==> DomainLeq(x, z)
    ensures GlobalLeq(x, y) && GlobalLeq(y, z) ==> GlobalLeq(x, z)
  {
    if StrLeq(z.callId, y.callId) && StrLeq(y.callId, x.callId) {
      StrTransitive(z.callId, y.callId, x.callId);
    }
    if StrLeq(x.domainId, y.domainId) && StrLeq(y.domainId, z.domainId) {
      StrTransitive(x.domainId, y.domainId, z.domainId);
      if x.domainId == z.domainId {
        StrAntisymmetric(x.domainId, y.domainId);
      }
    }
  }

  /** Records with distinct keys are never tied in either order. */
  lemma KeysSeparate(a: Cdr, b: Cdr)
    requires GlobalLeq(a, b) && GlobalLeq(b, a)
    ensures a.domainId == b.domainId && a.callId == b.callId
  {
    if a.domainId == b.domainId {
      StrAntisymmetric(a.callId, b.callId);
    } else {
      StrAntisymmetric(a.domainId, b.domainId);
    }
  }

  ghost predicate DistinctKeys(rows: seq<Cdr>) {
    forall i, j :: 0 <= i < j < |rows| ==> rows[i].domainId != rows[j].domainId || rows[i].callId != rows[j].callId
  }

  lemma DistinctStrict(rows: seq<Cdr>)
    requires DistinctKeys(rows)
    ensures Strict(rows, GlobalLeq)
  {
    forall i, j | 0 <= i < j < |rows| ensures !(GlobalLeq(rows[i], rows[j]) && GlobalLeq(rows[j], rows[i])) {
      if GlobalLeq(rows[i], rows[j]) && GlobalLeq(rows[j], rows[i]) {
        KeysSeparate(rows[i], rows[j]);
        assert false;
      }
    }
  }

  /** Distinct keys survive rearranging. */
  lemma DistinctPermuted(a: seq<Cdr>, b: seq<Cdr>)
    requires DistinctKeys(a) && multiset(b) <= multiset(a)
    ensures DistinctKeys(b)
  {
    DuplicatelessPart(a, b);
    forall i, j | 0 <= i < j < |b| ensures b[i].domainId != b[j].domainId || b[i].callId != b[j].callId {
      assert b[i] in a && b[j] in a;
    }
  }

  // ---- A domain's records within the global list ----

  function Filter(s: seq<Cdr>, id: string): seq<Cdr> {
    if s == [] then []
    else
      var last := s[|s| - 1];
      Filter(s[..|s| - 1], id) + if last.domainId == id then [last] else []
  }

  lemma {:induction false} FilterCount(s: seq<Cdr>, id: string, x: Cdr)
    ensures multiset(Filter(s, id))[x] == if x.domainId == id then multiset(s)[x] else 0
  {
    if s != [] {
      FilterCount(s[..|s| - 1], id, x);
      assert s == s[..|s| - 1] + [s[|s| - 1]];
    }
  }

  lemma {:induction false} FilterSorted(s: seq<Cdr>, id: string)
    requires Sorted(s, GlobalLeq)
    ensures Sorted(Filter(s, id), DomainLeq) && forall x :: x in Filter(s, id) ==> x in s && x.domainId == id
  {
    if s != [] {
      var front, last := s[..|s| - 1], s[|s| - 1];
      FilterSorted(front, id);
      forall x | x in Filter(front, id) && last.domainId == id ensures DomainLeq(x, last) {
        var i :| 0 <= i < |front| && front[i] == x;
        assert GlobalLeq(s[i], last);
      }
    }
  }

  /** The domain's records among the first `n` are the first ones of the domain, and at most `n`. */
  lemma {:induction false} FilterPrefix(s: seq<Cdr>, n: nat, id: string)
    requires n <= |s|
    ensures Filter(s[..n], id) <= Filter(s, id) && |Filter(s[..n], id)| <= n
    decreases |s|
  {
    if n < |s| {
      FilterPrefix(s[..|s| - 1], n, id);
      assert s[..|s| - 1][..n] == s[..n];
    } else if s != [] {
      FilterPrefix(s[..|s| - 1], n - 1, id);
      assert s[..n] == s && s[..|s| - 1][..n - 1] == s[..|s| - 1];
    }
  }

  lemma {:induction false} ConcatOwner(domains: seq<Domain>, x: Cdr) returns (d: nat)
    requires x in Concat(domains)
    ensures d < |domains| && x in domains[d].rows
  {
    if x in domains[0].rows {
      d := 0;
    } else {
      var e := ConcatOwner(domains[1..], x);
      d := e + 1;
    }
  }

  lemma OthersElsewhere(domains: seq<Domain>)
    requires WellKeyed(domains) && domains != []
    ensures forall x :: x in Concat(domains[1..]) ==> x.domainId != domains[0].id
  {
    forall x | x in Concat(domains[1..]) ensures x.domainId != domains[0].id {
      var e := ConcatOwner(domains[1..], x);
      assert domains[1..][e] == domains[e + 1];
    }
  }

  lemma {:induction false} ConcatCount(domains: seq<Domain>, d: nat, x: Cdr)
    requires WellKeyed(domains) && d < |domains| && x.domainId == domains[d].id
    ensures multiset(Concat(domains))[x] == multiset(domains[d].rows)[x]
  {
    var rest := domains[1..];
    if d > 0 {
      ConcatCount(rest, d - 1, x);
      assert x !in domains[0].rows;
    } else {
      OthersElsewhere(domains);
    }
    assert multiset(Concat(domains)) == multiset(domains[0].rows) + multiset(Concat(rest));
  }

  lemma {:induction false} ConcatDistinct(domains: seq<Domain>)
    requires WellKeyed(domains)
    ensures DistinctKeys(Concat(domains))
  {
    if domains != [] {
      var first, rest := domains[0].rows, Concat(domains[1..]);
      ConcatDistinct(domains[1..]);
      OthersElsewhere(domains);
      assert forall j :: 0 <= j < |rest| ==> rest[j] in rest;
    }
  }

  lemma SameDomainStrict(rows: seq<Cdr>, id: string)
    requires DistinctKeys(rows) && forall x :: x in rows ==> x.domainId == id
    ensures Strict(rows, DomainLeq)
  {
    DistinctStrict(rows);
    forall i, j | 0 <= i < j < |rows| ensures !(DomainLeq(rows[i], rows[j]) && DomainLeq(rows[j], rows[i])) {
      assert rows[i] in rows && rows[j] in rows;
    }
  }

  /** Within the global list, a domain's records are its own table in its own order. */
  lemma DomainWithinGlobal(domains: seq<Domain>, d: nat)
    requires WellKeyed(domains) && d < |domains|
    ensures Filter(Sort(Concat(domains), GlobalLeq), domains[d].id) == Sort(domains[d].rows, DomainLeq)
  {
    var all, id, rows := Concat(domains), domains[d].id, domains[d].rows;
    var global := Sort(all, GlobalLeq);
    var own, mine := Filter(global, id), Sort(rows, DomainLeq);
    OrdersAreTotal();
    SortSorts(all, GlobalLeq);
    SortSorts(rows, DomainLeq);
    FilterSorted(global, id);
    forall x: Cdr ensures multiset(own)[x] == multiset(mine)[x] {
      FilterCount(global, id, x);
      if x.domainId == id {
        ConcatCount(domains, d, x);
      } else {
        assert x !in rows;
      }
    }
    assert DistinctKeys(rows);
    DistinctPermuted(rows, own);
    DistinctPermuted(rows, mine);
    forall x | x in mine ensures x.domainId == id { assert x in multiset(rows); }
    SameDomainStrict(own, id);
    SameDomainStrict(mine, id);
    SortedUnique(own, mine, DomainLeq);
  }

  lemma {:induction false} FetchedFrom(domains: seq<Domain>, limit: nat, d: nat, x: Cdr)
    requires d < |domains| && x in TopRows(domains[d], limit)
    ensures x in Fetched(domains, limit)
  {
    if d > 0 {
      FetchedFrom(domains[1..], limit, d - 1, x);
    }
  }

  lemma {:induction false} FetchedPart(domains: seq<Domain>, limit: nat)
    ensures multiset(Fetched(domains, limit)) <= multiset(Concat(domains))
  {
    if domains != [] {
      FetchedPart(domains[1..], limit);
      OrdersAreTotal();
      var rows := domains[0].rows;
      SortSorts(rows, DomainLeq);
      var s := Sort(rows, DomainLeq);
      if limit <= |s| {
        assert s == s[..limit] + s[limit..];
      }
    }
  }

  /** The record at a global position is in the first that many, and one more, of its domain. */
  lemma OwnPosition(domains: seq<Domain>, d: nat, r: nat)
    requires WellKeyed(domains) && d < |domains| && r < |Sort(Concat(domains), GlobalLeq)|
    requires Sort(Concat(domains), GlobalLeq)[r].domainId == domains[d].id
    ensures exists k :: 0 <= k <= r && k < |Sort(domains[d].rows, DomainLeq)|
                        && Sort(domains[d].rows, DomainLeq)[k] == Sort(Concat(domains), GlobalLeq)[r]
  {
    var global, id := Sort(Concat(domains), GlobalLeq), domains[d].id;
    DomainWithinGlobal(domains, d);
    FilterPrefix(global, r + 1, id);
    var head := Filter(global[..r + 1], id);
    assert global[..r + 1][..r] == global[..r] && head[|head| - 1] == global[r];
    assert Sort(domains[d].rows, DomainLeq)[|head| - 1] == global[r];
  }

  /** The first `limit` records of the global list are all fetched. */
  lemma TopIsFetched(domains: seq<Domain>, limit: nat, r: nat)
    requires WellKeyed(domains) && r < limit && r < |Sort(Concat(domains), GlobalLeq)|
    ensures Sort(Concat(domains), GlobalLeq)[r] in Fetched(domains, limit)
  {
    var x := Sort(Concat(domains), GlobalLeq)[r];
    OrdersAreTotal();
    SortSorts(Concat(domains), GlobalLeq);
    assert x in multiset(Concat(domains));
    var d := ConcatOwner(domains, x);
    OwnPosition(domains, d, r);
    FetchedFrom(domains, limit, d, x);
  }

  lemma BothStrict(domains: seq<Domain>, limit: nat)
    requires WellKeyed(domains)
    ensures var part, whole := Sort(Fetched(domains, limit), GlobalLeq), Sort(Concat(domains), GlobalLeq);
            && Order(GlobalLeq) && Sorted(part, GlobalLeq) && Sorted(whole, GlobalLeq)
            && Strict(part, GlobalLeq) && Strict(whole, GlobalLeq)
            && multiset(part) == multiset(Fetched(domains, limit)) && multiset(part) <= multiset(whole)
  {
    var fetched, all := Fetched(domains, limit), Concat(domains);
    OrdersAreTotal();
    SortSorts(fetched, GlobalLeq);
    SortSorts(all, GlobalLeq);
    FetchedPart(domains, limit);
    ConcatDistinct(domains);
    DistinctPermuted(all, Sort(all, GlobalLeq));
    DistinctPermuted(all, Sort(fetched, GlobalLeq));
    DistinctStrict(Sort(all, GlobalLeq));
    DistinctStrict(Sort(fetched, GlobalLeq));
  }

  lemma SubBag(part: seq<Cdr>, whole: seq<Cdr>)
    requires multiset(part) <= multiset(whole)
    ensures |part| <= |whole| && forall x :: x in part ==> x in whole
  {
    assert multiset(whole) == multiset(part) + (multiset(whole) - multiset(part));
    assert |multiset(part)| <= |multiset(whole)|;
    forall x | x in part ensures x in whole {
      assert x in multiset(part) && x in multiset(whole);
    }
  }

  /** Sorting what was fetched starts exactly like the global list, as far as the limit reaches. */
  lemma FetchedPrefix(domains: seq<Domain>, limit: nat)
    requires WellKeyed(domains)
    ensures var part, whole := Sort(Fetched(domains, limit), GlobalLeq), Sort(Concat(domains), GlobalLeq);
            Take(part, limit) == Take(whole, limit)
  {
    BothStrict(domains, limit);
    forall i | 0 <= i < limit && i < |Sort(Concat(domains), GlobalLeq)|
      ensures Sort(Concat(domains), GlobalLeq)[i] in Fetched(domains, limit)
    {
      TopIsFetched(domains, limit, i);
    }
    var fetched := Fetched(domains, limit);
    CommonTake(fetched, Sort(fetched, GlobalLeq), Sort(Concat(domains), GlobalLeq), limit, GlobalLeq);
  }

  lemma CommonTake(fetched: seq<Cdr>, part: seq<Cdr>, whole: seq<Cdr>, limit: nat, leq: (Cdr, Cdr) -> bool)
    requires Order(leq) && Sorted(part, leq) && Sorted(whole, leq) && Strict(part, leq) && Strict(whole, leq)
    requires multiset(part) == multiset(fetched) && multiset(part) <= multiset(whole)
    requires forall i :: 0 <= i < limit && i < |whole| ==> whole[i] in fetched
    ensures Take(part, limit) == Take(whole, limit)
  {
    var m := AllInPart(fetched, part, whole, limit);
    SamePrefix(part, whole, m, leq);
    PrefixTake(part, whole, m, limit);
  }

  lemma AllInPart(fetched: seq<Cdr>, part: seq<Cdr>, whole: seq<Cdr>, limit: nat) returns (m: nat)
    requires multiset(part) == multiset(fetched) && multiset(part) <= multiset(whole)
    requires forall i :: 0 <= i < limit && i < |whole| ==> whole[i] in fetched
    ensures m == Min(limit, |whole|) && |part| <= |whole| && forall x :: x in part ==> x in whole
    ensures forall i :: 0 <= i < m ==> whole[i] in part
  {
    SubBag(part, whole);
    m := Min(limit, |whole|);
    forall i | 0 <= i < m ensures whole[i] in part {
      assert whole[i] in multiset(fetched);
    }
  }

  lemma PrefixTake(part: seq<Cdr>, whole: seq<Cdr>, m: nat, limit: nat)
    requires m == Min(limit, |whole|) && m <= |part| <= |whole| && part[..m] == whole[..m]
    ensures Take(part, limit) == Take(whole, limit)
  {
    if |whole| < limit {
      assert part == part[..m] && whole == whole[..m];
    }
  }

  lemma PageOfPrefix(a: seq<Cdr>, b: seq<Cdr>, offset: nat, size: nat)
    requires Take(a, offset + size) == Take(b, offset + size)
    ensures Take(Drop(a, offset), size) == Take(Drop(b, offset), size)
  {
    assert Take(Drop(a, offset), size) == Drop(Take(a, offset + size), offset);
    assert Take(Drop(b, offset), size) == Drop(Take(b, offset + size), offset);
  }

  lemma {:induction false} FetchedGrows(domains: seq<Domain>, i: nat, limit: nat)
    requires i < |domains|
    ensures Fetched(domains[..i + 1], limit) == Fetched(domains[..i], limit) + TopRows(domains[i], limit)
    ensures |Concat(domains[..i + 1])| == |Concat(domains[..i])| + |domains[i].rows|
  {
    if i > 0 {
      FetchedGrows(domains[1..], i - 1, limit);
      assert domains[1..][..i] == domains[..i + 1][1..] && domains[1..][..i - 1] == domains[..i][1..];
    } else {
      assert domains[..1][1..] == [];
    }
  }

  /** The page cut from what was fetched is the page of the global list. */
  lemma PageIsGlobal(domains: seq<Domain>, offset: nat, size: nat)
    requires WellKeyed(domains) && offset + size <= U64_MAX
    ensures var part := Sort(Fetched(domains, SatAdd(offset, size)), GlobalLeq);
            var whole := Sort(Concat(domains), GlobalLeq);
            Take(Drop(part, offset), size) == Take(Drop(whole, offset), size)
  {
    FetchedPrefix(domains, offset + size);
    PageOfPrefix(Sort(Fetched(domains, offset + size), GlobalLeq), Sort(Concat(domains), GlobalLeq), offset, size);
  }

  /**
   * The listing: per-domain top rows, merged, sorted and cut, give the same page as the globally sorted list, for
   * every store and page; it fails only when the row limit leaves the range of a database integer.
   */
  method ListCdr(store: seq<Domain>, domainId: Option<string>, page: nat, size: nat)
    returns (answer: Result<Page, PageError>)
    requires WellKeyed(Select(store, domainId)) && size <= U64_MAX
    ensures answer.Err? <==> Select(store, domainId) != [] && SatAdd(Offset(page, size), size) > I64_MAX
    ensures answer.Ok? ==> answer.value == GlobalPage(Select(store, domainId), page, size)
  {
    var offset := Offset(page, size);
    var limit := SatAdd(offset, size);
    var domains := Select(store, domainId);
    if domains == [] {
      return Ok(Page([], 0));
    }
    var rows: seq<Cdr>, total: nat := [], 0;
    for i := 0 to |domains|
      invariant i > 0 ==> limit <= I64_MAX
      invariant rows == Fetched(domains[..i], limit) && total == Min(|Concat(domains[..i])|, U64_MAX)
    {
      total := SatAdd(total, |domains[i].rows|);
      if limit > I64_MAX {
        return Err(ValueOutOfRange);
      }
      rows := rows + TopRows(domains[i], limit);
      FetchedGrows(domains, i, limit);
    }
    assert domains[..|domains|] == domains;
    PageIsGlobal(domains, offset, size);
    answer := Ok(Page(Take(Drop(Sort(rows, GlobalLeq), offset), size), total));
  }
}
