/** `ListIncidents` and the handler in front of it.  Go ranges over the incident map in an
    arbitrary order and its sort is not stable, so two requests may order incidents with
    the same creation time differently; what paging still guarantees is proved for every
    such choice. */
module Pagination {
  import opened Sequences
  import opened Strings
  import opened Domain

  /** An empty tenant, a severity below one and an empty status disable their filters. */
  datatype Query = Query(tenant: string, severity: int, status: string)

  predicate Selected(q: Query, inc: Incident) {
    && (q.tenant == "" || inc.tenant == q.tenant)
    && (q.severity <= 0 || inc.severity == q.severity)
    && (q.status == "" || inc.status == q.status)
  }

  predicate Stored(m: map<nat, Incident>, inc: Incident) {
    inc.id in m && m[inc.id] == inc
  }

  ghost predicate NewestFirst(s: seq<Incident>) {
    forall i, j :: 0 <= i < j < |s| ==> s[i].createdAt >= s[j].createdAt
  }

  /** One of the sequences that filtering and sorting may produce. */
  ghost predicate Listing(m: map<nat, Incident>, q: Query, s: seq<Incident>) {
    && Distinct(s)
    && (forall inc :: inc in s <==> Stored(m, inc) && Selected(q, inc))
    && NewestFirst(s)
  }

  function Page(s: seq<Incident>, limit: int, offset: nat): seq<Incident> {
    if offset >= |s| then []
    else if limit > 0 && |s| - offset > limit then s[offset..offset + limit]
    else s[offset..]
  }

  function Times(s: seq<Incident>): seq<int> {
    seq(|s|, i requires 0 <= i < |s| => s[i].createdAt)
  }

  // ---- the operation -------------------------------------------------------------

  /** `sort.Slice`: only its result matters here, so any correct sort will do. */
  method SortNewestFirst(s: seq<Incident>) returns (r: seq<Incident>)
    ensures multiset(r) == multiset(s) && NewestFirst(r)
  {
    r := [];
    for i := 0 to |s|
      invariant multiset(r) == multiset(s[..i]) && NewestFirst(r)
    {
      PrefixCounts(s, i);
      r := InsertNewest(r, s[i]);
    }
    assert s[..|s|] == s;
  }

  method InsertNewest(s: seq<Incident>, inc: Incident) returns (r: seq<Incident>)
    requires NewestFirst(s)
    ensures NewestFirst(r) && multiset(r) == multiset(s) + multiset{inc}
  {
    var p := 0;
    while p < |s| && s[p].createdAt > inc.createdAt
      invariant p <= |s|
      invariant forall k :: 0 <= k < p ==> s[k].createdAt > inc.createdAt
    {
      p := p + 1;
    }
    InsertKeepsOrder(s, p, inc);
    r := s[..p] + [inc] + s[p..];
  }

  lemma PrefixCounts(s: seq<Incident>, i: nat)
    requires i < |s|
    ensures multiset(s[..i + 1]) == multiset(s[..i]) + multiset{s[i]}
  {
    assert s[..i + 1] == s[..i] + [s[i]];
  }

  lemma InsertKeepsOrder(r: seq<Incident>, p: nat, inc: Incident)
    requires NewestFirst(r) && p <= |r|
    requires forall k :: 0 <= k < p ==> r[k].createdAt > inc.createdAt
    requires p < |r| ==> r[p].createdAt <= inc.createdAt
    ensures NewestFirst(r[..p] + [inc] + r[p..])
    ensures multiset(r[..p] + [inc] + r[p..]) == multiset(r) + multiset{inc}
  {
    assert r == r[..p] + r[p..];
  }

  lemma SortedListing(m: map<nat, Incident>, q: Query, s: seq<Incident>, r: seq<Incident>)
    requires Distinct(s) && forall inc :: inc in s <==> Stored(m, inc) && Selected(q, inc)
    requires multiset(r) == multiset(s) && NewestFirst(r)
    ensures Listing(m, q, r)
  {
    SameElements(r, s);
    forall x ensures multiset(r)[x] <= 1 {
      DistinctCounts(s, x);
    }
    CountsDistinct(r);
  }

  method ListIncidents(m: map<nat, Incident>, q: Query, limit: int, offset: nat)
    returns (page: seq<Incident>, ghost listing: seq<Incident>)
    requires forall id :: id in m ==> m[id].id == id
    ensures Listing(m, q, listing) && page == Page(listing, limit, offset)
    ensures ExactlyAsked(m, q.tenant, if q.severity > 0 then Some(q.severity) else None, q.status, listing)
    ensures PageOf(page, listing, limit, offset)
    ensures forall inc :: inc in page ==>
              && inc.id in m && m[inc.id] == inc
              && (q.tenant == "" || inc.tenant == q.tenant)
              && (q.severity <= 0 || inc.severity == q.severity)
              && (q.status == "" || inc.status == q.status)
    ensures limit > 0 ==> |page| <= limit
  {
    ListingAsked(m, q);
    var result: seq<Incident> := [];
    var remaining := m.Keys;
    while remaining != {}
      invariant remaining <= m.Keys
      invariant Distinct(result)
      invariant forall inc :: inc in result <==> Stored(m, inc) && Selected(q, inc) && inc.id !in remaining
      decreases remaining
    {
      var id :| id in remaining;
      remaining := remaining - {id};
      var inc := m[id];
      if q.tenant != "" && inc.tenant != q.tenant {
        continue;
      }
      if q.severity > 0 && inc.severity != q.severity {
        continue;
      }
      if q.status != "" && inc.status != q.status {
        continue;
      }
      result := result + [inc];
    }
    var sorted := SortNewestFirst(result);
    SortedListing(m, q, result, sorted);
    listing := sorted;
    if offset >= |sorted| {
      return [], listing;
    }
    page := sorted[offset..];
    if limit > 0 && |page| > limit {
      page := page[..limit];
    }
  }

  /** The listing holds the stored incidents of the tenant (any, if empty) with the severity, if
      one is asked for, and the status, if one is given; each once, newest first. */
  ghost predicate ExactlyAsked(m: map<nat, Incident>, tenant: string, severity: Option<int>, status: string,
                               listing: seq<Incident>) {
    && (forall inc :: inc in listing <==>
          && inc.id in m && m[inc.id] == inc
          && (tenant == "" || inc.tenant == tenant)
          && (severity == None || severity == Some(inc.severity))
          && (status == "" || inc.status == status))
    && (forall i, j :: 0 <= i < j < |listing| ==>
          listing[i].createdAt >= listing[j].createdAt && listing[i].id != listing[j].id)
  }

  lemma ListingAsked(m: map<nat, Incident>, q: Query)
    requires forall id :: id in m ==> m[id].id == id
    ensures forall s :: Listing(m, q, s) ==>
              ExactlyAsked(m, q.tenant, if q.severity > 0 then Some(q.severity) else None, q.status, s)
  {
    forall s: seq<Incident> | Listing(m, q, s)
      ensures ExactlyAsked(m, q.tenant, if q.severity > 0 then Some(q.severity) else None, q.status, s)
    {
      forall i, j | 0 <= i < j < |s| ensures s[i].id != s[j].id {
        assert s[i] in s && s[j] in s;
      }
    }
  }

  /** Positions `offset` to `offset + limit` of the listing, as far as they exist; no upper end
      when the limit is not positive. */
  ghost predicate PageOf(page: seq<Incident>, listing: seq<Incident>, limit: int, offset: nat) {
    && (offset + |page| <= |listing| || page == [])
    && (limit > 0 ==> |page| <= limit)
    && ((limit > 0 && |page| == limit) || offset + |page| >= |listing|)
    && forall k :: 0 <= k < |page| ==> page[k] == listing[offset + k]
  }

  /** A query parameter: missing, not a number, or a number. */
  datatype Param = Absent | Malformed | Number(n: int)

  /** The handler of `GET /detection/incidents`. */
  method ListHandler(m: map<nat, Incident>, tenant: string, severity: Param, status: string, limit: Param,
                     offset: Param)
    returns (code: int, page: seq<Incident>, ghost listing: seq<Incident>)
    requires forall id :: id in m ==> m[id].id == id
    ensures code == 200 || code == 422
    ensures code == 422 <==>
              || tenant == ""
              || severity == Malformed || (severity.Number? && (severity.n < 1 || severity.n > 5))
              || status !in ["", "new", "investigating", "resolved"]
    ensures code == 422 ==> page == []
    ensures code == 200 ==>
              var lim := if limit.Number? && 1 <= limit.n <= 500 then limit.n else 50;
              var off := if offset.Number? && offset.n >= 0 then offset.n else 0;
              && Listing(m, Query(tenant, if severity.Number? then severity.n else 0, status), listing)
              && ExactlyAsked(m, tenant, if severity.Number? then Some(severity.n) else None, status, listing)
              && page == Page(listing, lim, off)
              && PageOf(page, listing, lim, off)
              && |page| <= 500
    ensures forall inc :: inc in page ==>
              && inc.tenant == tenant
              && (severity.Number? ==> inc.severity == severity.n)
              && (status != "" ==> inc.status == status)
  {
    page, listing := [], [];
    if tenant == "" {
      return 422, [], [];
    }
    var sev := 0;
    if severity != Absent {
      if severity.Number? && 1 <= severity.n <= 5 {
        sev := severity.n;
      } else {
        return 422, [], [];
      }
    }
    if status != "" && status != "new" && status != "investigating" && status != "resolved" {
      return 422, [], [];
    }
    var lim := 50;
    if limit.Number? && limit.n > 0 && limit.n <= 500 {
      lim := limit.n;
    }
    var off := 0;
    if offset.Number? && offset.n >= 0 {
      off := offset.n;
    }
    code := 200;
    page, listing := ListIncidents(m, Query(tenant, sev, status), lim, off);
    assert forall inc :: inc in page ==> inc in listing;
  }

  // ---- what all listings share ------------------------------------------------------

  function Elements(s: seq<Incident>): set<Incident> {
    set x | x in s
  }

  lemma {:induction false} ElementsCount(s: seq<Incident>)
    requires Distinct(s)
    ensures |Elements(s)| == |s|
  {
    if |s| == 0 {
      assert Elements(s) == {};
    } else {
      var init, last := s[..|s| - 1], s[|s| - 1];
      ElementsCount(init);
      assert Elements(s) == Elements(init) + {last};
      assert last !in Elements(init);
    }
  }

  lemma SubsetCount(a: set<Incident>, b: set<Incident>)
    requires a <= b
    ensures |a| <= |b|
  {
    assert b == a + (b - a);
  }

  /** Elements of one listing's first positions that can only be among another's. */
  lemma Pigeonhole(a: seq<Incident>, n: nat, b: seq<Incident>, k: nat)
    requires Distinct(a) && Distinct(b) && n <= |a| && k <= |b|
    requires forall i :: 0 <= i < n ==> a[i] in b[..k]
    ensures n <= k
    ensures n == k ==> Elements(a[..n]) == Elements(b[..k])
  {
    ElementsCount(a[..n]);
    ElementsCount(b[..k]);
    assert Elements(a[..n]) <= Elements(b[..k]);
    SubsetCount(Elements(a[..n]), Elements(b[..k]));
    if n == k {
      SubsetCount(Elements(b[..k]) - Elements(a[..n]), Elements(b[..k]));
      assert |Elements(b[..k]) - Elements(a[..n])| == 0;
    }
  }

  lemma NotNewerAt(m: map<nat, Incident>, q: Query, a: seq<Incident>, b: seq<Incident>, i: nat)
    requires Listing(m, q, a) && Listing(m, q, b) && i < |a| && i < |b|
    ensures a[i].createdAt <= b[i].createdAt
  {
    if a[i].createdAt > b[i].createdAt {
      forall k | 0 <= k < i + 1 ensures a[k] in b[..i] {
        assert a[k] in b;
        var p :| 0 <= p < |b| && b[p] == a[k];
        assert p < i;
      }
      Pigeonhole(a, i + 1, b, i);
      assert false;
    }
  }

  lemma SameLength(m: map<nat, Incident>, q: Query, a: seq<Incident>, b: seq<Incident>)
    requires Listing(m, q, a) && Listing(m, q, b)
    ensures |a| == |b|
  {
    forall i | 0 <= i < |a| ensures a[i] in b[..|b|] {
      assert a[i] in b;
    }
    forall i | 0 <= i < |b| ensures b[i] in a[..|a|] {
      assert b[i] in a;
    }
    Pigeonhole(a, |a|, b, |b|);
    Pigeonhole(b, |b|, a, |a|);
  }

  /** All listings show the same creation times. */
  lemma SameTimes(m: map<nat, Incident>, q: Query, a: seq<Incident>, b: seq<Incident>)
    requires Listing(m, q, a) && Listing(m, q, b)
    ensures Times(a) == Times(b)
  {
    SameLength(m, q, a, b);
    forall i | 0 <= i < |a| ensures Times(a)[i] == Times(b)[i] {
      NotNewerAt(m, q, a, b, i);
      NotNewerAt(m, q, b, a, i);
    }
  }

  /** Where creation times change, all listings have the same incidents before that point. */
  lemma SamePrefix(m: map<nat, Incident>, q: Query, a: seq<Incident>, b: seq<Incident>, n: nat)
    requires Listing(m, q, a) && Listing(m, q, b) && n <= |a|
    requires 0 < n < |a| ==> a[n - 1].createdAt != a[n].createdAt
    ensures n <= |b| && Elements(a[..n]) == Elements(b[..n])
  {
    SameLength(m, q, a, b);
    SameTimes(m, q, a, b);
    forall i | 0 <= i < n ensures a[i] in b[..n] {
      assert a[i] in b;
      var p :| 0 <= p < |b| && b[p] == a[i];
      assert Times(a)[p] == Times(b)[p];
      assert p < n;
    }
    Pigeonhole(a, n, b, n);
  }

  // ---- successive pages -----------------------------------------------------------------

  /** The answers to requests for pages 0, 1, … , each from its own listing. */
  ghost predicate Requests(m: map<nat, Incident>, q: Query, listings: seq<seq<Incident>>) {
    forall k :: 0 <= k < |listings| ==> Listing(m, q, listings[k])
  }

  function Pages(listings: seq<seq<Incident>>, limit: nat): seq<Incident> {
    if |listings| == 0 then []
    else
      var n := |listings| - 1;
      Pages(listings[..n], limit) + Page(listings[n], limit, n * limit)
  }

  function Min(a: int, b: int): int {
    if a < b then a else b
  }

  /** The pages, put together, show the whole list's creation times, newest first; a page
      is short only at the end. */
  lemma {:induction false} PagesCoverTimes(m: map<nat, Incident>, q: Query, whole: seq<Incident>,
                                           listings: seq<seq<Incident>>, limit: nat)
    requires Listing(m, q, whole) && Requests(m, q, listings) && limit > 0
    ensures Shows(whole, Pages(listings, limit), |listings| * limit)
  {
    if |listings| != 0 {
      var n := |listings| - 1;
      PagesCoverTimes(m, q, whole, listings[..n], limit);
      SameLength(m, q, whole, listings[n]);
      SameTimes(m, q, whole, listings[n]);
      NextPage(whole, Pages(listings[..n], limit), listings[n], limit, n * limit);
      Successor(n, limit);
    }
  }

  lemma Successor(n: nat, limit: nat)
    ensures (n + 1) * limit == n * limit + limit
  {
  }

  /** `shown` has the creation times of the first `total` places of `whole`. */
  ghost predicate Shows(whole: seq<Incident>, shown: seq<Incident>, total: nat) {
    && |shown| == Min(total, |whole|)
    && Times(shown) == Times(whole)[..|shown|]
  }

  lemma NextPage(whole: seq<Incident>, shown: seq<Incident>, s: seq<Incident>, limit: nat, offset: nat)
    requires limit > 0 && |s| == |whole| && Times(s) == Times(whole)
    requires Shows(whole, shown, offset)
    ensures Shows(whole, shown + Page(s, limit, offset), offset + limit)
  {
    PageTimes(s, limit, offset);
    TimesConcat(shown, Page(s, limit, offset));
  }

  lemma PageTimes(s: seq<Incident>, limit: nat, offset: nat)
    requires limit > 0
    ensures var a, b := Min(offset, |s|), Min(offset + limit, |s|);
            Page(s, limit, offset) == s[a..b] && Times(Page(s, limit, offset)) == Times(s)[a..b]
  {
  }

  lemma TimesConcat(a: seq<Incident>, b: seq<Incident>)
    ensures Times(a + b) == Times(a) + Times(b)
  {
  }

  ghost predicate OnPage(listings: seq<seq<Incident>>, limit: nat, k: nat, inc: Incident) {
    k < |listings| && inc in Page(listings[k], limit, k * limit)
  }

  ghost predicate OnExactlyOnePage(listings: seq<seq<Incident>>, limit: nat, inc: Incident) {
    && (exists k: nat :: OnPage(listings, limit, k, inc))
    && (forall j: nat, k: nat :: OnPage(listings, limit, j, inc) && OnPage(listings, limit, k, inc) ==> j == k)
  }

  /** No two neighbours with one creation time are on different pages. */
  ghost predicate NoTieAcrossPages(whole: seq<Incident>, limit: nat) {
    forall k: nat :: TieAt(whole, k * limit) ==> k == 0
  }

  predicate TieAt(whole: seq<Incident>, b: int) {
    0 < b < |whole| && whole[b - 1].createdAt == whole[b].createdAt
  }

  /** The page of an incident, by its position in any one listing. */
  lemma OnItsPage(m: map<nat, Incident>, q: Query, whole: seq<Incident>, listings: seq<seq<Incident>>,
                  limit: nat, p: nat, k: nat)
    requires Listing(m, q, whole) && Requests(m, q, listings) && limit > 0
    requires NoTieAcrossPages(whole, limit)
    requires p < |whole| && k < |listings|
    ensures OnPage(listings, limit, k, whole[p]) <==> k * limit <= p < (k + 1) * limit
  {
    var s := listings[k];
    var a, b := Min(k * limit, |whole|), Min((k + 1) * limit, |whole|);
    SameLength(m, q, whole, s);
    assert whole[p] in whole;
    assert (k + 1) * limit == k * limit + limit;
    assert !TieAt(whole, k * limit) || k == 0;
    assert !TieAt(whole, (k + 1) * limit);
    SamePrefix(m, q, whole, s, a);
    SamePrefix(m, q, whole, s, b);
    PageTimes(s, limit, k * limit);
    SameRange(whole, s, p, a, b);
  }

  lemma SameRange(whole: seq<Incident>, s: seq<Incident>, p: nat, a: nat, b: nat)
    requires Distinct(whole) && Distinct(s) && p < |whole| && whole[p] in s && a <= b <= |whole| && b <= |s|
    requires Elements(whole[..a]) == Elements(s[..a]) && Elements(whole[..b]) == Elements(s[..b])
    ensures whole[p] in s[a..b] <==> a <= p < b
  {
    InRange(whole, p, a, b);
    var r :| 0 <= r < |s| && s[r] == whole[p];
    InRange(s, r, a, b);
  }

  lemma InRange(s: seq<Incident>, p: nat, a: nat, b: nat)
    requires Distinct(s) && p < |s| && a <= b <= |s|
    ensures s[p] in s[a..b] <==> a <= p < b
    ensures s[p] in Elements(s[..a]) <==> p < a
    ensures s[p] in Elements(s[..b]) <==> p < b
  {
    assert a <= p < b ==> s[a..b][p - a] == s[p];
    assert p < a ==> s[..a][p] == s[p];
    assert p < b ==> s[..b][p] == s[p];
  }

  lemma PageIndex(p: nat, limit: nat, j: nat, k: nat)
    requires limit > 0 && j * limit <= p < (j + 1) * limit && k * limit <= p < (k + 1) * limit
    ensures j == k
  {
    assert j < k ==> (j + 1) * limit <= k * limit;
    assert k < j ==> (k + 1) * limit <= j * limit;
  }

  lemma PageNumber(p: nat, limit: nat, n: nat) returns (k: nat)
    requires limit > 0 && p < n * limit
    ensures k < n && k * limit <= p < (k + 1) * limit
  {
    k := p / limit;
    assert k >= n ==> k * limit >= n * limit;
  }

  lemma CoveredOnce(m: map<nat, Incident>, q: Query, whole: seq<Incident>, listings: seq<seq<Incident>>,
                    limit: nat, inc: Incident)
    requires Listing(m, q, whole) && Requests(m, q, listings) && limit > 0
    requires NoTieAcrossPages(whole, limit) && |listings| * limit >= |whole|
    requires inc in whole
    ensures OnExactlyOnePage(listings, limit, inc)
  {
    var p :| 0 <= p < |whole| && whole[p] == inc;
    var k := PageNumber(p, limit, |listings|);
    OnItsPage(m, q, whole, listings, limit, p, k);
    forall i: nat, j: nat | OnPage(listings, limit, i, inc) && OnPage(listings, limit, j, inc) ensures i == j {
      OnItsPage(m, q, whole, listings, limit, p, i);
      OnItsPage(m, q, whole, listings, limit, p, j);
      PageIndex(p, limit, i, j);
    }
  }

  function Swapped(s: seq<Incident>, b: nat): seq<Incident>
    requires 0 < b < |s|
  {
    s[b - 1 := s[b]][b := s[b - 1]]
  }

  /** Swapping two neighbours created at the same time gives another listing. */
  lemma SwapTie(m: map<nat, Incident>, q: Query, s: seq<Incident>, b: nat)
    requires Listing(m, q, s) && TieAt(s, b)
    ensures Listing(m, q, Swapped(s, b))
  {
    var r := Swapped(s, b);
    forall inc ensures inc in r <==> inc in s {
      if inc in s {
        var i :| 0 <= i < |s| && s[i] == inc;
        assert r[if i == b then b - 1 else if i == b - 1 then b else i] == inc;
      }
    }
  }

  /** Page `k` is answered with the tie across its start swapped. */
  function TieListings(whole: seq<Incident>, limit: nat, n: nat, k: nat): seq<seq<Incident>>
    requires 0 < k * limit < |whole|
  {
    seq(n, j => if j == k then Swapped(whole, k * limit) else whole)
  }

  /** With a tie across a boundary, some choice of listings shows an incident on no page … */
  lemma TieHides(m: map<nat, Incident>, q: Query, whole: seq<Incident>, limit: nat, n: nat, k: nat)
    requires Listing(m, q, whole) && limit > 0 && n * limit >= |whole|
    requires TieAt(whole, k * limit)
    ensures Requests(m, q, TieListings(whole, limit, n, k))
    ensures forall j: nat :: !OnPage(TieListings(whole, limit, n, k), limit, j, whole[k * limit])
  {
    var b := k * limit;
    var swapped, listings := Swapped(whole, b), TieListings(whole, limit, n, k);
    SwapTie(m, q, whole, b);
    forall j: nat ensures !OnPage(listings, limit, j, whole[b]) {
      if j < n {
        PageTimes(listings[j], limit, j * limit);
        assert (j + 1) * limit == j * limit + limit;
        var lo, hi := Min(j * limit, |whole|), Min(j * limit + limit, |whole|);
        if j == k {
          assert swapped[b - 1] == whole[b];
          InRange(swapped, b - 1, lo, hi);
        } else {
          InRange(whole, b, lo, hi);
          if lo <= b < hi {
            PageIndex(b, limit, j, k);
          }
        }
      }
    }
  }

  /** … and its neighbour on two. */
  lemma TieRepeats(whole: seq<Incident>, limit: nat, n: nat, k: nat)
    requires limit > 0 && n * limit >= |whole| && TieAt(whole, k * limit)
    ensures k > 0
    ensures var listings := TieListings(whole, limit, n, k);
            OnPage(listings, limit, k - 1, whole[k * limit - 1]) && OnPage(listings, limit, k, whole[k * limit - 1])
  {
    var b := k * limit;
    BeforeLast(k, limit, n, |whole|);
    OnSwappedPage(whole, limit, b);
  }

  lemma BeforeLast(k: nat, limit: nat, n: nat, size: nat)
    requires 0 < k * limit < size <= n * limit
    ensures 0 < k < n && (k - 1) * limit == k * limit - limit
  {
    assert k >= n ==> k * limit >= n * limit;
  }

  lemma OnSwappedPage(whole: seq<Incident>, limit: nat, b: nat)
    requires 0 < limit <= b < |whole|
    ensures whole[b - 1] in Page(whole, limit, b - limit)
    ensures whole[b - 1] in Page(Swapped(whole, b), limit, b)
  {
    OnOwnPage(whole, limit, b - limit, limit - 1);
    OnOwnPage(Swapped(whole, b), limit, b, 0);
  }

  lemma OnOwnPage(s: seq<Incident>, limit: nat, offset: nat, i: nat)
    requires i < limit && offset + i < |s|
    ensures s[offset + i] in Page(s, limit, offset)
  {
    assert Page(s, limit, offset)[i] == s[offset + i];
  }

  /** Paging shows every selected incident on exactly one page, whatever the orders drawn,
      exactly when no tie crosses a page boundary. */
  lemma PagesPartitionIff(m: map<nat, Incident>, q: Query, whole: seq<Incident>, limit: nat, n: nat)
    requires Listing(m, q, whole) && limit > 0 && n * limit >= |whole|
    ensures NoTieAcrossPages(whole, limit) <==>
              forall listings :: |listings| == n && Requests(m, q, listings) ==>
                forall inc :: inc in whole ==> OnExactlyOnePage(listings, limit, inc)
  {
    if NoTieAcrossPages(whole, limit) {
      forall listings, inc | |listings| == n && Requests(m, q, listings) && inc in whole
        ensures OnExactlyOnePage(listings, limit, inc)
      {
        CoveredOnce(m, q, whole, listings, limit, inc);
      }
    } else {
      var k: nat :| TieAt(whole, k * limit) && k != 0;
      var listings := TieListings(whole, limit, n, k);
      TieHides(m, q, whole, limit, n, k);
      assert whole[k * limit] in whole;
    }
  }

  /** Creation times that never repeat leave no room for ties. */
  lemma DistinctTimesPartition(m: map<nat, Incident>, q: Query, whole: seq<Incident>,
                               listings: seq<seq<Incident>>, limit: nat)
    requires Listing(m, q, whole) && Requests(m, q, listings) && limit > 0 && |listings| * limit >= |whole|
    requires forall a, b :: a in whole && b in whole && a.createdAt == b.createdAt ==> a == b
    ensures Pages(listings, limit) == whole
  {
    forall k | 0 <= k < |listings| ensures listings[k] == whole {
      SameListing(m, q, whole, listings[k]);
    }
    PagesOfOne(whole, listings, limit);
  }

  lemma SameListing(m: map<nat, Incident>, q: Query, a: seq<Incident>, b: seq<Incident>)
    requires Listing(m, q, a) && Listing(m, q, b)
    requires forall x, y :: x in a && y in a && x.createdAt == y.createdAt ==> x == y
    ensures a == b
  {
    SameLength(m, q, a, b);
    SameTimes(m, q, a, b);
    forall i | 0 <= i < |a| ensures a[i] == b[i] {
      assert Times(a)[i] == Times(b)[i];
      assert b[i] in b && a[i] in a;
    }
  }

  lemma {:induction false} PagesOfOne(whole: seq<Incident>, listings: seq<seq<Incident>>, limit: nat)
    requires limit > 0
    requires forall k :: 0 <= k < |listings| ==> listings[k] == whole
    ensures Pages(listings, limit) == whole[..Min(|listings| * limit, |whole|)]
  {
    if |listings| != 0 {
      var n := |listings| - 1;
      PagesOfOne(whole, listings[..n], limit);
      PrefixAndPage(whole, limit, n * limit);
      Successor(n, limit);
    }
  }

  lemma PrefixAndPage(whole: seq<Incident>, limit: nat, offset: nat)
    requires limit > 0
    ensures whole[..Min(offset, |whole|)] + Page(whole, limit, offset) == whole[..Min(offset + limit, |whole|)]
  {
  }
}
