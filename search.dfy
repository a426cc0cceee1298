/**
 * The search route: cache read short-circuit, fan-out over the active sources
 * as a fold over their settled outcomes in arrival order, the streaming
 * "on arrival" hook, and the cache write with the freshness TTL heuristic.
 */
module Search {
  import opened Wrappers
  import opened Items
  import Numbers
  import opened Uri
  import opened CacheSpec
  import opened Cache

  /** The settled outcome of one source's call: the response body, or None when the call failed or timed out. */
  datatype Arrival = Arrival(site: Site, response: Option<Payload>)

  /** What the route answers: `{list}` in buffered mode, the data chunks (before the `done` marker) in streaming mode. */
  datatype SearchReply = Full(list: seq<Item>) | Stream(chunks: seq<seq<Item>>)

  const FreshTtl := 3600

  /** The source delivered a usable list. */
  predicate Delivered(a: Arrival) {
    a.response.Some? && SelectList(a.response.value).Some?
  }

  /** What one settled call adds to `allResults`: its stamped list, or nothing. */
  function Contribution(a: Arrival): seq<Item> {
    if Delivered(a) then StampAll(SelectList(a.response.value).value, a.site) else []
  }

  /** A call contributes items exactly when its source delivered a list. */
  lemma ContributionNonEmpty(a: Arrival)
    ensures Delivered(a) <==> |Contribution(a)| > 0
  {
  }

  /** The left fold `acc = acc.concat(f(x))` over `xs`, in order. */
  function ConcatMap<A, T>(xs: seq<A>, f: A -> seq<T>): seq<T> {
    if xs == [] then [] else ConcatMap(xs[..|xs| - 1], f) + f(xs[|xs| - 1])
  }

  lemma {:induction false} ConcatMapAppend<A, T>(xs: seq<A>, ys: seq<A>, f: A -> seq<T>)
    ensures ConcatMap(xs + ys, f) == ConcatMap(xs, f) + ConcatMap(ys, f)
  {
    if ys == [] {
      assert xs + ys == xs;
    } else {
      assert (xs + ys)[..|xs + ys| - 1] == xs + ys[..|ys| - 1];
      ConcatMapAppend(xs, ys[..|ys| - 1], f);
    }
  }

  /** Whatever `f` yields for one element ends up in the fold. */
  lemma ConcatMapMember<A, T>(xs: seq<A>, f: A -> seq<T>, i: nat, x: T)
    requires i < |xs| && x in f(xs[i])
    ensures x in ConcatMap(xs, f)
  {
    var before, here, after := xs[..i], [xs[i]], xs[i + 1..];
    assert xs == before + here + after;
    ConcatMapAppend(before + here, after, f);
    ConcatMapAppend(before, here, f);
    assert here[..0] == [];
    assert x in ConcatMap(before, f) + f(xs[i]);
  }

  /** Every element of the fold comes from `f` of some element. */
  lemma {:induction false} ConcatMapSource<A, T>(xs: seq<A>, f: A -> seq<T>, x: T) returns (i: nat)
    requires x in ConcatMap(xs, f)
    ensures i < |xs| && x in f(xs[i])
  {
    var n := |xs| - 1;
    if x in ConcatMap(xs[..n], f) {
      i := ConcatMapSource(xs[..n], f, x);
      assert xs[..n][i] == xs[i];
    } else {
      i := n;
    }
  }

  /** `allResults` after the given outcomes, each concatenated on arrival. */
  function Merge(arrivals: seq<Arrival>): seq<Item> {
    ConcatMap(arrivals, Contribution)
  }

  /** The chunks streaming mode writes: one per delivering source, in arrival order. */
  function Chunks(arrivals: seq<Arrival>): seq<seq<Item>> {
    if arrivals == [] then []
    else
      var last := arrivals[|arrivals| - 1];
      Chunks(arrivals[..|arrivals| - 1]) + (if Delivered(last) then [Contribution(last)] else [])
  }

  /** What a consumer that accumulates the chunks ends up holding. */
  function Flatten(chunks: seq<seq<Item>>): seq<Item> {
    if chunks == [] then [] else Flatten(chunks[..|chunks| - 1]) + chunks[|chunks| - 1]
  }

  lemma FlattenAppend(chunks: seq<seq<Item>>, more: seq<seq<Item>>)
    ensures Flatten(chunks + more) == Flatten(chunks) + Flatten(more)
  {
    if more != [] {
      assert (chunks + more)[..|chunks + more| - 1] == chunks + more[..|more| - 1];
      FlattenAppend(chunks, more[..|more| - 1]);
    } else {
      assert chunks + more == chunks;
    }
  }

  /** The chunks a streaming consumer accumulates are exactly the merged set that is cached. */
  lemma {:induction false} ChunksFlattenToMerge(arrivals: seq<Arrival>)
    ensures Flatten(Chunks(arrivals)) == Merge(arrivals)
  {
    if arrivals != [] {
      var init := arrivals[..|arrivals| - 1];
      var last := arrivals[|arrivals| - 1];
      ChunksFlattenToMerge(init);
      var tail := if Delivered(last) then [Contribution(last)] else [];
      FlattenAppend(Chunks(init), tail);
      assert Flatten(tail) == Contribution(last) by {
        if Delivered(last) {
          assert tail[..0] == [];
        }
      }
    }
  }

  /** Each chunk is one delivering source's whole stamped list, never empty. */
  lemma {:induction false} ChunksAreSourceLists(arrivals: seq<Arrival>)
    ensures forall c :: c in Chunks(arrivals) ==>
      |c| > 0 && exists i :: 0 <= i < |arrivals| && Delivered(arrivals[i]) && c == Contribution(arrivals[i])
  {
    if arrivals != [] {
      var init := arrivals[..|arrivals| - 1];
      ChunksAreSourceLists(init);
      forall c | c in Chunks(arrivals)
        ensures |c| > 0 && exists i :: 0 <= i < |arrivals| && Delivered(arrivals[i]) && c == Contribution(arrivals[i])
      {
        if c in Chunks(init) {
          var i :| 0 <= i < |init| && Delivered(init[i]) && c == Contribution(init[i]);
          assert arrivals[i] == init[i];
        } else {
          assert c == Contribution(arrivals[|arrivals| - 1]);
          ContributionNonEmpty(arrivals[|arrivals| - 1]);
        }
      }
    }
  }

  /** Every merged item comes from the contribution of some settled call. */
  lemma MergedItemSource(arrivals: seq<Arrival>, x: Item) returns (i: nat)
    requires x in Merge(arrivals)
    ensures i < |arrivals| && x in Contribution(arrivals[i])
  {
    i := ConcatMapSource(arrivals, Contribution, x);
  }

  /** Every item a settled call contributes is in the merged set. */
  lemma ContributionIsMerged(arrivals: seq<Arrival>, i: nat, x: Item)
    requires i < |arrivals| && x in Contribution(arrivals[i])
    ensures x in Merge(arrivals)
  {
    ConcatMapMember(arrivals, Contribution, i, x);
  }

  /** Every merged item names, in its provenance fields, a source that delivered it. */
  lemma MergedItemsCarryProvenance(arrivals: seq<Arrival>, x: Item) returns (i: nat)
    requires x in Merge(arrivals)
    ensures i < |arrivals| && Delivered(arrivals[i])
    ensures SiteKeyField in x.fields && x.fields[SiteKeyField] == arrivals[i].site.key
    ensures SiteNameField in x.fields && x.fields[SiteNameField] == arrivals[i].site.name
  {
    i := MergedItemSource(arrivals, x);
    ContributionNonEmpty(arrivals[i]);
    var c := Contribution(arrivals[i]);
    var j :| 0 <= j < |c| && c[j] == x;
  }

  /** Search never fails: the merged set is empty exactly when no source delivered. */
  lemma {:induction false} MergeEmptyIffNoneDelivered(arrivals: seq<Arrival>)
    ensures Merge(arrivals) == [] <==> forall i :: 0 <= i < |arrivals| ==> !Delivered(arrivals[i])
  {
    if arrivals != [] {
      var init := arrivals[..|arrivals| - 1];
      MergeEmptyIffNoneDelivered(init);
      ContributionNonEmpty(arrivals[|arrivals| - 1]);
      assert forall i :: 0 <= i < |init| ==> init[i] == arrivals[i];
    }
  }

  /**
   * The all-settled fan-out as the source runs it: each settled call that
   * delivered concatenates its stamped list to `allResults`, and in streaming
   * mode also writes that list as one chunk.
   */
  method Aggregate(arrivals: seq<Arrival>, streaming: bool) returns (all: seq<Item>, chunks: seq<seq<Item>>)
    ensures all == Merge(arrivals)
    ensures chunks == if streaming then Chunks(arrivals) else []
  {
    all, chunks := [], [];
    for i := 0 to |arrivals|
      invariant all == Merge(arrivals[..i])
      invariant chunks == if streaming then Chunks(arrivals[..i]) else []
    {
      assert arrivals[..i + 1][..i] == arrivals[..i];
      var a := arrivals[i];
      if a.response.Some? {
        var list := SelectList(a.response.value);
        if list.Some? {
          var results := StampAll(list.value, a.site);
          all := all + results;
          if streaming {
            chunks := chunks + [results];
          }
        }
      }
    }
    assert arrivals[..|arrivals|] == arrivals;
  }

  /** `!isNaN(y) && y >= currentYear - 1` for `y = parseInt(item.vod_year)`. */
  predicate IsRecent(item: Item, currentYear: int) {
    match YearOf(item)
    case Some(y) => y >= currentYear - 1
    case None => false
  }

  /** `allResults.some(isRecent)`. */
  function HasRecentItem(items: seq<Item>, currentYear: int): (b: bool)
    ensures b <==> exists i :: 0 <= i < |items| && IsRecent(items[i], currentYear)
  {
    if items == [] then false
    else IsRecent(items[0], currentYear) || HasRecentItem(items[1..], currentYear)
  }

  /** The cache TTL: an hour when some item was released this year or last year, otherwise never expiring. */
  function CacheTtl(items: seq<Item>, currentYear: int): (ttl: int)
    ensures ttl == FreshTtl || ttl == 0
    ensures ttl == FreshTtl <==> exists i :: 0 <= i < |items| && IsRecent(items[i], currentYear)
  {
    if HasRecentItem(items, currentYear) then FreshTtl else 0
  }

  /** An item whose `vod_year` is this year's number gives the merged set a one-hour TTL. */
  lemma CurrentYearGivesHour(items: seq<Item>, i: nat, currentYear: nat)
    requires i < |items|
    requires YearField in items[i].fields && items[i].fields[YearField] == Numbers.Decimal(currentYear)
    ensures CacheTtl(items, currentYear) == FreshTtl
  {
    Numbers.ParseIntDecimal(currentYear, "");
    assert Numbers.Decimal(currentYear) + "" == Numbers.Decimal(currentYear);
    assert IsRecent(items[i], currentYear);
  }

  /** A set whose years are all at most two years back, or unreadable, never expires. */
  lemma OldItemsNeverExpire(items: seq<Item>, currentYear: int)
    requires forall i :: 0 <= i < |items| ==> YearOf(items[i]).None? || YearOf(items[i]).value <= currentYear - 2
    ensures CacheTtl(items, currentYear) == 0
  {
  }

  /** `sites.filter(s => s.active)`. */
  function Active(sites: seq<Site>): (r: seq<Site>)
    ensures forall s :: s in r <==> s in sites && s.active
  {
    if sites == [] then []
    else (if sites[0].active then [sites[0]] else []) + Active(sites[1..])
  }

  /** Filtering keeps registration order: it distributes over concatenation, one source at a time. */
  lemma {:induction false} ActiveAppend(a: seq<Site>, b: seq<Site>)
    ensures Active(a + b) == Active(a) + Active(b)
  {
    if a == [] {
      assert a + b == b;
    } else {
      assert (a + b)[1..] == a[1..] + b;
      ActiveAppend(a[1..], b);
    }
  }

  /** One source survives the filter exactly when it is active. */
  lemma ActiveOne(site: Site)
    ensures Active([site]) == if site.active then [site] else []
  {
    assert [site][1..] == [];
  }

  function SitesOf(arrivals: seq<Arrival>): (r: seq<Site>)
    ensures |r| == |arrivals| && forall i :: 0 <= i < |arrivals| ==> r[i] == arrivals[i].site
  {
    if arrivals == [] then [] else [arrivals[0].site] + SitesOf(arrivals[1..])
  }

  /** The outbound search URLs, one per active source, in dispatch order. */
  function SearchRequests(sites: seq<Site>, wd: string): (r: seq<string>)
    ensures |r| == |sites| && forall i :: 0 <= i < |sites| ==> r[i] == QueryUrl(sites[i].api, SearchParams(wd))
  {
    if sites == [] then [] else [QueryUrl(sites[0].api, SearchParams(wd))] + SearchRequests(sites[1..], wd)
  }

  /**
   * `GET /api/search?wd&stream`. An empty keyword answers an empty list. A
   * cache hit answers the cached list (one chunk when streaming) and calls no
   * source. On a miss one call goes to every active source; `arrivals` holds
   * their settled outcomes in arrival order. The merged set, when non-empty, is
   * written with the TTL heuristic. `readNow`, `writeNow` and `currentYear` are
   * the clock readings at the read, at the write and for the year.
   */
  method HandleSearch(cache: CacheManager, sites: seq<Site>, wd: string, stream: string, arrivals: seq<Arrival>,
                      readNow: int, writeNow: int, currentYear: int)
    returns (reply: SearchReply, requests: seq<string>)
    requires cache.Valid()
    requires multiset(SitesOf(arrivals)) == multiset(Active(sites))
    modifies cache
    ensures cache.Valid()
    ensures wd == "" ==> reply == Full([]) && requests == [] && cache.Model() == old(cache.Model())
    ensures wd != "" ==>
      var read := CacheSpec.GetSearch(old(cache.Model()), wd, readNow);
      if read.entry.Some? then
        && reply == (if stream == "true" then Stream([read.entry.value.data]) else Full(read.entry.value.data))
        && requests == []
        && cache.Model() == read.store
      else
        var all := Merge(arrivals);
        && requests == SearchRequests(Active(sites), wd)
        && reply == (if stream == "true" then Stream(Chunks(arrivals)) else Full(all))
        && (if |all| > 0 then SetSearchStep(read.store, cache.Model(), wd, all, CacheTtl(all, currentYear), writeNow)
            else cache.Model() == read.store)
  {
    if wd == "" {
      return Full([]), [];
    }
    var cached := cache.GetSearch(wd, readNow);
    if cached.Some? {
      if stream == "true" {
        return Stream([cached.value.data]), [];
      }
      return Full(cached.value.data), [];
    }
    requests := SearchRequests(Active(sites), wd);
    var streaming := stream == "true";
    var all, chunks := Aggregate(arrivals, streaming);
    if |all| > 0 {
      var ttl := CacheTtl(all, currentYear);
      cache.SetSearch(wd, all, ttl, writeNow);
    }
    reply := if streaming then Stream(chunks) else Full(all);
  }
}
