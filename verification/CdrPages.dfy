/** What the pages of the record listing are together, and in which order. */
module CdrPages {
  import opened Prelude
  import opened Ordering
  import opened CdrPaging

  ghost function GlobalList(domains: seq<Domain>): seq<Cdr> { Sort(Concat(domains), GlobalLeq) }

  /** The rows of the pages 1 to n, one after the other. */
  ghost function PageRows(domains: seq<Domain>, n: nat, size: nat): seq<Cdr> {
    if n == 0 then [] else PageRows(domains, n - 1, size) + GlobalPage(domains, n, size).rows
  }

  lemma OnePageLess(n: nat, size: nat)
    requires n > 0
    ensures n * size == (n - 1) * size + size
  {
  }

  /** Page n begins where the pages before it end. */
  lemma LastOffset(n: nat, size: nat, rows: nat)
    requires n > 0 && rows == n * size && rows <= U64_MAX
    ensures rows >= size && rows - size == (n - 1) * size && Offset(n, size) == rows - size
  {
    OnePageLess(n, size);
    assert SatSub(n, 1) == n - 1;
  }

  lemma {:induction false} PagesTake(domains: seq<Domain>, n: nat, size: nat, rows: nat)
    requires rows == n * size && rows <= U64_MAX
    ensures PageRows(domains, n, size) == Take(GlobalList(domains), rows)
    decreases n
  {
    if n > 0 {
      LastOffset(n, size, rows);
      PagesTake(domains, n - 1, size, rows - size);
      NextPage(GlobalList(domains), rows - size, size);
    }
  }

  /** The pages 1 to n are together the first n * size records of the global list: none is repeated or left out. */
  lemma PagesConcatenate(domains: seq<Domain>, n: nat, size: nat)
    requires n * size <= 0xFFFF_FFFF_FFFF_FFFF
    ensures PageRows(domains, n, size) == if n * size <= |GlobalList(domains)| then GlobalList(domains)[..n * size]
                                          else GlobalList(domains)
  {
    PagesTake(domains, n, size, n * size);
  }

  lemma NextPage(rows: seq<Cdr>, offset: nat, size: nat)
    ensures Take(rows, offset) + Take(Drop(rows, offset), size) == Take(rows, offset + size)
  {
  }

  /** Page 0 is page 1. */
  lemma PageZero(domains: seq<Domain>, size: nat)
    ensures GlobalPage(domains, 0, size) == GlobalPage(domains, 1, size)
  {
  }

  /** Later end times come first, then smaller domain ids, then larger call ids. */
  ghost predicate ComesBefore(a: Cdr, b: Cdr) {
    || a.endedAtMs > b.endedAtMs
    || (a.endedAtMs == b.endedAtMs && Smaller(a.domainId, b.domainId))
    || (a.endedAtMs == b.endedAtMs && a.domainId == b.domainId && Smaller(b.callId, a.callId))
  }

  /** The global list holds exactly the domains' records, in strictly that order. */
  lemma GlobalListExactly(domains: seq<Domain>)
    requires WellKeyed(domains)
    ensures forall x :: x in GlobalList(domains) <==> exists d :: 0 <= d < |domains| && x in domains[d].rows
    ensures forall i, j :: 0 <= i < j < |GlobalList(domains)| ==>
              ComesBefore(GlobalList(domains)[i], GlobalList(domains)[j])
  {
    var rows := GlobalList(domains);
    OrdersAreTotal();
    SortSorts(Concat(domains), GlobalLeq);
    ConcatDistinct(domains);
    DistinctPermuted(Concat(domains), rows);
    forall x ensures x in rows <==> exists d :: 0 <= d < |domains| && x in domains[d].rows {
      assert x in rows <==> x in multiset(rows);
      assert x in Concat(domains) <==> x in multiset(Concat(domains));
      InSomeDomain(domains, x);
    }
    forall i, j | 0 <= i < j < |rows| ensures ComesBefore(rows[i], rows[j]) {
      SmallerExactly(rows[i].domainId, rows[j].domainId);
      SmallerExactly(rows[j].callId, rows[i].callId);
    }
  }

  lemma {:induction false} InSomeDomain(domains: seq<Domain>, x: Cdr)
    ensures x in Concat(domains) <==> exists d :: 0 <= d < |domains| && x in domains[d].rows
  {
    if domains != [] {
      var rest := domains[1..];
      InSomeDomain(rest, x);
      if d :| 0 <= d < |rest| && x in rest[d].rows {
        assert x in domains[d + 1].rows;
      }
      if d :| 0 <= d < |domains| && x in domains[d].rows {
        assert d > 0 ==> x in rest[d - 1].rows;
      }
    }
  }

  /** A listing is over all domains, or over the named one, which has no records if it is unknown. */
  lemma SelectExactly(store: seq<Domain>, domainId: Option<string>)
    requires WellKeyed(store)
    ensures match domainId
            case None => Select(store, domainId) == store
            case Some(id) =>
              && |Select(store, domainId)| == 1 && Select(store, domainId)[0].id == id
              && (forall d :: 0 <= d < |store| && store[d].id == id ==> Select(store, domainId) == [store[d]])
              && ((forall d :: 0 <= d < |store| ==> store[d].id != id) ==> Select(store, domainId)[0].rows == [])
    ensures WellKeyed(Select(store, domainId))
  {
    if domainId.Some? {
      LookupExactly(store, domainId.value);
    }
  }

  lemma {:induction false} LookupExactly(store: seq<Domain>, id: string)
    requires WellKeyed(store)
    ensures Lookup(store, id).id == id
    ensures if forall d :: 0 <= d < |store| ==> store[d].id != id then Lookup(store, id).rows == []
            else exists d :: 0 <= d < |store| && store[d] == Lookup(store, id)
  {
    if store != [] && store[0].id != id {
      LookupExactly(store[1..], id);
      assert forall d :: 1 <= d < |store| ==> store[d] == store[1..][d - 1];
    }
  }
}
