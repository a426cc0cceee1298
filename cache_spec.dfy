/**
 * The cache store as a value: the variant tag and the maps each variant keeps,
 * with the meaning of every `CacheManager` operation stated on that value.
 * Reads are functions (a read may forget one expired entry); writes are
 * relations, because the JSON variant's eviction breaks ties between equally
 * old entries arbitrarily.
 */
module CacheSpec {
  import opened Wrappers
  import opened Text
  import opened Items

  /**
   * The configured variant: `none`, `json` or `sqlite`; `Memory` stands for
   * `memory` and for every other value, which the server treats alike.
   */
  datatype CacheType = Disabled | Memory | Json | Sqlite

  /** A search entry `{data, ttl, ts}`: `ttl` in seconds (0 never expires), `ts` in epoch milliseconds. */
  datatype Entry = Entry(data: seq<Item>, ttl: int, ts: int)

  /** A stored search value: the wrapped form, or the legacy bare array of items. */
  datatype Stored = Wrapped(entry: Entry) | Legacy(items: seq<Item>)

  /** A value of the in-memory store, which keeps both domains in one map under `s_` and `d_` prefixes. */
  datatype MemValue = SearchValue(stored: Stored) | DetailValue(payload: Payload)

  /**
   * The whole cache state: the variant, the in-memory map, the two maps of the
   * JSON variant and the two tables of the SQLite variant (a search row keeps
   * `data`, `ttl` and `created_at`, which reads back as `ts`).
   */
  datatype Store = Store(
    kind: CacheType,
    mem: map<string, MemValue>,
    jsonSearch: map<string, Stored>,
    jsonDetail: map<string, Payload>,
    dbSearch: map<string, Entry>,
    dbDetail: map<string, Payload>)

  /** What the durable variants find at startup: the two JSON files (empty when missing) and the two tables. */
  datatype Persisted = Persisted(
    searchFile: map<string, Stored>,
    detailFile: map<string, Payload>,
    searchTable: map<string, Entry>,
    detailTable: map<string, Payload>)

  const SearchCap: nat := 300
  const DetailCap: nat := 500

  function SearchSlot(key: string): string { "s_" + key }
  function DetailSlot(key: string): string { "d_" + key }

  predicate IsSlotOf(k: string, tag: char) {
    |k| >= 2 && k[0] == tag && k[1] == '_'
  }

  /** Prefixing keeps the two domains of the in-memory store apart, and keys within a domain distinct. */
  lemma SlotsDistinct(a: string, b: string)
    ensures SearchSlot(a) != DetailSlot(b)
    ensures SearchSlot(a) == SearchSlot(b) ==> a == b
    ensures DetailSlot(a) == DetailSlot(b) ==> a == b
  {
    assert SearchSlot(a)[0] != DetailSlot(b)[0];
    if SearchSlot(a) == SearchSlot(b) {
      assert a == SearchSlot(a)[2..];
    }
    if DetailSlot(a) == DetailSlot(b) {
      assert a == DetailSlot(a)[2..];
    }
  }

  /** Every search value of the in-memory store sits under an `s_` key, every detail value under a `d_` key. */
  predicate WellFormed(s: Store) {
    forall k :: k in s.mem ==> IsSlotOf(k, if s.mem[k].SearchValue? then 's' else 'd')
  }

  /**
   * The server reads `store['s_' + key]` and `store['d_' + key]` without asking
   * which kind of value it finds. The reads here test the tag instead; in a
   * well-formed store the test always passes, so both read the same value.
   */
  lemma SlotTagsMatch(s: Store, key: string)
    requires WellFormed(s)
    ensures SearchSlot(key) in s.mem ==> s.mem[SearchSlot(key)].SearchValue?
    ensures DetailSlot(key) in s.mem ==> s.mem[DetailSlot(key)].DetailValue?
  {
    assert SearchSlot(key)[0] == 's' && DetailSlot(key)[0] == 'd';
  }

  /** The state right after construction: an unusable SQLite runtime degrades the variant to memory. */
  function Init(kind: CacheType, sqliteLoads: bool, p: Persisted): (s: Store)
    ensures WellFormed(s)
  {
    var empty := Store(kind, map[], map[], map[], map[], map[]);
    match kind
    case Sqlite => if sqliteLoads then empty.(dbSearch := p.searchTable, dbDetail := p.detailTable) else empty.(kind := Memory)
    case Json => empty.(jsonSearch := p.searchFile, jsonDetail := p.detailFile)
    case _ => empty
  }

  /** A SQLite runtime that cannot be loaded leaves a working, empty in-memory cache. */
  lemma SqliteFallback(p: Persisted)
    ensures Init(Sqlite, false, p) == Store(Memory, map[], map[], map[], map[], map[])
  {
  }

  /** The legacy bare array reads as `{data: items, ttl: 0, ts: 0}`. */
  function Unwrap(v: Stored): (e: Entry)
    ensures e.ts == StoredTs(v)
    ensures v.Legacy? ==> e.data == v.items && e.ttl == 0
  {
    match v
    case Wrapped(e) => e
    case Legacy(items) => Entry(items, 0, 0)
  }

  /** `data[k].ts || 0`, the rank used by eviction. */
  function StoredTs(v: Stored): int {
    match v
    case Wrapped(e) => e.ts
    case Legacy(_) => 0
  }

  /**
   * The rank of a detail body. The server adds no `ts` to detail bodies, and the
   * model's `Payload` has no `ts` field, so every detail entry ranks 0; an upstream
   * body carrying its own numeric `ts` would rank by it in the server.
   */
  function PayloadTs(p: Payload): int {
    0
  }

  /** Expiry on read for the memory and JSON variants: the `item.ts &&` guard spares entries with `ts` 0. */
  predicate Expired(e: Entry, now: int) {
    e.ttl > 0 && e.ts != 0 && now - e.ts > e.ttl * 1000
  }

  /** Expiry on read for the SQLite variant, which has no `ts` guard. */
  predicate RowExpired(e: Entry, now: int) {
    e.ttl > 0 && now - e.ts > e.ttl * 1000
  }

  /** The search value stored for a folded key by the memory or JSON variant. */
  function StoredSearch(s: Store, key: string): Option<Stored> {
    if s.kind == Json then
      if key in s.jsonSearch then Some(s.jsonSearch[key]) else None
    else
      var slot := SearchSlot(key);
      if slot in s.mem && s.mem[slot].SearchValue? then Some(s.mem[slot].stored) else None
  }

  /** The store without the search value of `key` (`delete` on the backing map). */
  function ForgetSearch(s: Store, key: string): (r: Store)
    ensures StoredSearch(r, key) == None
    ensures r.kind == s.kind && r.dbSearch == s.dbSearch && r.dbDetail == s.dbDetail && r.jsonDetail == s.jsonDetail
  {
    if s.kind == Json then s.(jsonSearch := s.jsonSearch - {key})
    else s.(mem := s.mem - {SearchSlot(key)})
  }

  /** The result of a search read and the state it leaves. */
  datatype Read = Read(store: Store, entry: Option<Entry>)

  /**
   * `getSearch(keyword)` at time `now`. A read never adds anything: it either
   * leaves the store as it was or forgets the one expired entry it looked at,
   * and a hit never changes the store.
   */
  function GetSearch(s: Store, keyword: string, now: int): (r: Read)
    ensures r.store == s || (r.store == ForgetSearch(s, Lower(keyword)) && r.entry == None)
    ensures s.kind == Disabled ==> r == Read(s, None)
  {
    if s.kind == Disabled then Read(s, None)
    else
      var key := Lower(keyword);
      if s.kind == Sqlite then
        if key !in s.dbSearch || RowExpired(s.dbSearch[key], now) then Read(s, None)
        else Read(s, Some(s.dbSearch[key]))
      else
        match StoredSearch(s, key)
        case None => Read(s, None)
        case Some(v) =>
          if Expired(Unwrap(v), now) then Read(ForgetSearch(s, key), None)
          else Read(s, Some(Unwrap(v)))
  }

  /** `getDetail(key)`: the payload stored under the composite key, if any. */
  function GetDetail(s: Store, key: string): (r: Option<Payload>)
    ensures s.kind == Disabled ==> r == None
  {
    match s.kind
    case Disabled => None
    case Sqlite => if key in s.dbDetail then Some(s.dbDetail[key]) else None
    case Json => if key in s.jsonDetail then Some(s.jsonDetail[key]) else None
    case Memory =>
      var slot := DetailSlot(key);
      if slot in s.mem && s.mem[slot].DetailValue? then Some(s.mem[slot].payload) else None
  }

  /**
   * Count-capped eviction: nothing is removed while `before` fits the cap;
   * otherwise exactly `|before| - cap` keys go, none of them younger than any
   * key that stays, and the kept keys keep their values.
   */
  ghost predicate Evicted<V>(before: map<string, V>, after: map<string, V>, cap: nat, ts: V -> int) {
    && after.Keys <= before.Keys
    && (forall k :: k in after ==> after[k] == before[k])
    && |after| == (if |before| > cap then cap else |before|)
    && (|before| <= cap ==> after == before)
    && (forall r, k :: r in before && r !in after && k in after ==> ts(before[r]) <= ts(before[k]))
  }

  lemma SubsetDifferenceSize(a: set<string>, b: set<string>)
    requires b <= a
    ensures |a - b| == |a| - |b|
  {
    assert a == (a - b) + b;
    assert (a - b) * b == {};
  }

  /** Eviction removes exactly `count - cap` keys when over the cap, and none otherwise. */
  lemma EvictedCount<V>(before: map<string, V>, after: map<string, V>, cap: nat, ts: V -> int)
    requires Evicted(before, after, cap, ts)
    ensures |before.Keys - after.Keys| == if |before| > cap then |before| - cap else 0
  {
    SubsetDifferenceSize(before.Keys, after.Keys);
  }

  /** When at most one element goes, of any two elements at least one stays. */
  lemma OneOfTwoStays(before: set<string>, after: set<string>, a: string, b: string)
    requires after <= before && |before - after| <= 1
    requires a in before && b in before && a != b
    ensures a in after || b in after
  {
    var gone := before - after;
    if gone != {} {
      var victim :| victim in gone;
      assert gone == {victim} by {
        assert |gone - {victim}| == 0;
      }
    }
  }

  /** A key younger than one that stays stays too. */
  lemma YoungerStays<V>(before: map<string, V>, after: map<string, V>, cap: nat, ts: V -> int, young: string, elder: string)
    requires Evicted(before, after, cap, ts)
    requires young in before && elder in after && ts(before[elder]) < ts(before[young])
    ensures young in after
  {
  }

  /** When at most one key goes, a key strictly younger than another one stays. */
  lemma YoungerSurvivesSingleEviction<V>(before: map<string, V>, after: map<string, V>, cap: nat, ts: V -> int, young: string, elder: string)
    requires Evicted(before, after, cap, ts)
    requires |before| <= cap + 1
    requires young in before && elder in before && young != elder && ts(before[elder]) < ts(before[young])
    ensures young in after
  {
    EvictedCount(before, after, cap, ts);
    OneOfTwoStays(before.Keys, after.Keys, young, elder);
    if elder in after {
      YoungerStays(before, after, cap, ts, young, elder);
    }
  }

  /**
   * A JSON search write at `now` keeps its own entry when the domain still fits
   * its cap afterwards, when every other entry is older, or when the domain was
   * within its cap and some other entry is older (then that one goes first).
   */
  predicate FreshSearchSurvives(m: map<string, Stored>, key: string, now: int) {
    || |m.Keys + {key}| <= SearchCap
    || (forall k :: k in m && k != key ==> StoredTs(m[k]) < now)
    || (|m| <= SearchCap && exists k :: k in m && k != key && StoredTs(m[k]) < now)
  }

  /** `setSearch(keyword, data, ttl)` at time `now`, relating the state before and after. */
  ghost predicate SetSearchStep(s: Store, s': Store, keyword: string, data: seq<Item>, ttl: int, now: int) {
    var key := Lower(keyword);
    var e := Entry(data, ttl, now);
    match s.kind
    case Disabled => s' == s
    case Sqlite => s' == s.(dbSearch := s.dbSearch[key := e])
    case Json =>
      && s' == s.(jsonSearch := s'.jsonSearch)
      && Evicted(s.jsonSearch[key := Wrapped(e)], s'.jsonSearch, SearchCap, StoredTs)
    case Memory => s' == s.(mem := s.mem[SearchSlot(key) := SearchValue(Wrapped(e))])
  }

  /** `setDetail(key, payload)`, relating the state before and after. */
  ghost predicate SetDetailStep(s: Store, s': Store, key: string, p: Payload) {
    match s.kind
    case Disabled => s' == s
    case Sqlite => s' == s.(dbDetail := s.dbDetail[key := p])
    case Json =>
      && s' == s.(jsonDetail := s'.jsonDetail)
      && Evicted(s.jsonDetail[key := p], s'.jsonDetail, DetailCap, PayloadTs)
    case Memory => s' == s.(mem := s.mem[DetailSlot(key) := DetailValue(p)])
  }

  /** A search read keeps the prefix discipline of the in-memory store. */
  lemma GetSearchKeepsWellFormed(s: Store, keyword: string, now: int)
    requires WellFormed(s)
    ensures WellFormed(GetSearch(s, keyword, now).store)
  {
    var r := GetSearch(s, keyword, now);
    assert r.store.mem.Keys <= s.mem.Keys;
  }

  /** A search write files its entry under an `s_` slot. */
  lemma SetSearchKeepsWellFormed(s: Store, s': Store, keyword: string, data: seq<Item>, ttl: int, now: int)
    requires WellFormed(s)
    requires SetSearchStep(s, s', keyword, data, ttl, now)
    ensures WellFormed(s')
  {
    if s.kind == Memory {
      assert IsSlotOf(SearchSlot(Lower(keyword)), 's');
    }
  }

  /** A detail write files its entry under a `d_` slot. */
  lemma SetDetailKeepsWellFormed(s: Store, s': Store, key: string, p: Payload)
    requires WellFormed(s)
    requires SetDetailStep(s, s', key, p)
    ensures WellFormed(s')
  {
    if s.kind == Memory {
      assert IsSlotOf(DetailSlot(key), 'd');
    }
  }

  /** A JSON search write whose entry survives its eviction leaves that entry under the folded key. */
  lemma JsonSearchWriteKept(s: Store, s': Store, keyword: string, data: seq<Item>, ttl: int, now: int)
    requires s.kind == Json
    requires SetSearchStep(s, s', keyword, data, ttl, now)
    requires FreshSearchSurvives(s.jsonSearch, Lower(keyword), now)
    ensures StoredSearch(s', Lower(keyword)) == Some(Wrapped(Entry(data, ttl, now)))
  {
    var key := Lower(keyword);
    var before := s.jsonSearch[key := Wrapped(Entry(data, ttl, now))];
    var after := s'.jsonSearch;
    assert before.Keys == s.jsonSearch.Keys + {key};
    if |before| > SearchCap && !(forall k :: k in s.jsonSearch && k != key ==> StoredTs(s.jsonSearch[k]) < now) {
      var older :| older in s.jsonSearch && older != key && StoredTs(s.jsonSearch[older]) < now;
      assert |before| <= SearchCap + 1 by {
        assert |s.jsonSearch.Keys + {key}| <= |s.jsonSearch.Keys| + |{key}|;
      }
      YoungerSurvivesSingleEviction(before, after, SearchCap, StoredTs, key, older);
    }
  }

  /**
   * Round trip, case-insensitive: after `setSearch(keyword, data, ttl)` at `now`,
   * any case variant of the keyword reads `{data, ttl, ts: now}` for as long as
   * the entry has not expired, and nothing once it has. In the JSON variant the
   * fresh entry must survive the write's own eviction (`FreshSearchSurvives`).
   */
  lemma SearchRoundTrip(s: Store, s': Store, keyword: string, other: string, data: seq<Item>, ttl: int, now: int, later: int)
    requires SetSearchStep(s, s', keyword, data, ttl, now)
    requires s.kind != Disabled
    requires Lower(other) == Lower(keyword)
    requires s.kind == Json ==> FreshSearchSurvives(s.jsonSearch, Lower(keyword), now)
    ensures !(ttl > 0 && later - now > ttl * 1000) ==> GetSearch(s', other, later) == Read(s', Some(Entry(data, ttl, now)))
    ensures ttl > 0 && later - now > ttl * 1000 && (now != 0 || s.kind == Sqlite) ==> GetSearch(s', other, later).entry == None
  {
    var key := Lower(keyword);
    var e := Entry(data, ttl, now);
    if s.kind == Json {
      JsonSearchWriteKept(s, s', keyword, data, ttl, now);
    } else if s.kind == Memory {
      assert StoredSearch(s', key) == Some(Wrapped(e));
    }
  }

  /** A legacy bare array reads as `{data, ttl: 0, ts: 0}` at every time and is never dropped. */
  lemma LegacyNeverExpires(s: Store, keyword: string, items: seq<Item>, now: int)
    requires s.kind == Json || s.kind == Memory
    requires StoredSearch(s, Lower(keyword)) == Some(Legacy(items))
    ensures GetSearch(s, keyword, now) == Read(s, Some(Entry(items, 0, 0)))
  {
  }

  /**
   * Lazy expiry in the memory and JSON variants: an expired entry reads as
   * absent and is deleted from the backing map, while every other search key
   * and every detail entry stay as they were.
   */
  lemma ExpiredEntryIsDropped(s: Store, keyword: string, now: int)
    requires s.kind == Json || s.kind == Memory
    requires StoredSearch(s, Lower(keyword)).Some?
    requires Expired(Unwrap(StoredSearch(s, Lower(keyword)).value), now)
    ensures GetSearch(s, keyword, now).entry == None
    ensures StoredSearch(GetSearch(s, keyword, now).store, Lower(keyword)) == None
    ensures forall k :: k != Lower(keyword) ==> StoredSearch(GetSearch(s, keyword, now).store, k) == StoredSearch(s, k)
    ensures forall d :: GetDetail(GetSearch(s, keyword, now).store, d) == GetDetail(s, d)
  {
    var key := Lower(keyword);
    forall k | k != key
      ensures StoredSearch(GetSearch(s, keyword, now).store, k) == StoredSearch(s, k)
    {
      SlotsDistinct(k, key);
    }
    forall d
      ensures GetDetail(GetSearch(s, keyword, now).store, d) == GetDetail(s, d)
    {
      SlotsDistinct(key, d);
    }
  }

  /** An entry that has not expired is returned unchanged and the store is untouched. */
  lemma LiveEntryIsReturned(s: Store, keyword: string, now: int)
    requires s.kind == Json || s.kind == Memory
    requires StoredSearch(s, Lower(keyword)).Some?
    requires !Expired(Unwrap(StoredSearch(s, Lower(keyword)).value), now)
    ensures GetSearch(s, keyword, now) == Read(s, Some(Unwrap(StoredSearch(s, Lower(keyword)).value)))
  {
  }

  /** The SQLite variant reports an expired row as absent but leaves the row in place. */
  lemma SqliteExpiredRowStays(s: Store, keyword: string, now: int)
    requires s.kind == Sqlite
    requires Lower(keyword) in s.dbSearch && RowExpired(s.dbSearch[Lower(keyword)], now)
    ensures GetSearch(s, keyword, now) == Read(s, None)
  {
  }

  /** The disabled variant reads nothing and every write leaves the state as it was. */
  lemma DisabledIsInert(s: Store, s1: Store, s2: Store, keyword: string, data: seq<Item>, ttl: int, now: int, key: string, p: Payload)
    requires s.kind == Disabled
    requires SetSearchStep(s, s1, keyword, data, ttl, now)
    requires SetDetailStep(s, s2, key, p)
    ensures GetSearch(s, keyword, now) == Read(s, None)
    ensures GetDetail(s, key) == None
    ensures s1 == s && s2 == s
  {
  }

  /** A search read sees only the variant, the SQLite search table and the stored search value. */
  lemma SearchReadDependsOnSearchState(s: Store, t: Store, keyword: string, now: int)
    requires s.kind == t.kind && s.dbSearch == t.dbSearch
    requires StoredSearch(s, Lower(keyword)) == StoredSearch(t, Lower(keyword))
    ensures GetSearch(s, keyword, now).entry == GetSearch(t, keyword, now).entry
  {
  }

  /** A detail write never changes what any search read returns. */
  lemma DetailWriteKeepsSearch(s: Store, s': Store, key: string, p: Payload, keyword: string, now: int)
    requires SetDetailStep(s, s', key, p)
    ensures GetSearch(s', keyword, now).entry == GetSearch(s, keyword, now).entry
  {
    var k := Lower(keyword);
    if s.kind == Memory {
      SlotsDistinct(k, key);
      assert s'.mem == s.mem[DetailSlot(key) := DetailValue(p)];
    }
    assert StoredSearch(s', k) == StoredSearch(s, k);
    SearchReadDependsOnSearchState(s', s, keyword, now);
  }

  /** A search write never changes what any detail read returns. */
  lemma SearchWriteKeepsDetail(s: Store, s': Store, keyword: string, data: seq<Item>, ttl: int, now: int, key: string)
    requires SetSearchStep(s, s', keyword, data, ttl, now)
    ensures GetDetail(s', key) == GetDetail(s, key)
  {
    SlotsDistinct(Lower(keyword), key);
  }

  /**
   * A detail write is read back under the same key. In the JSON variant the
   * domain must fit its cap, because every detail entry ranks equally for eviction.
   */
  lemma DetailRoundTrip(s: Store, s': Store, key: string, p: Payload)
    requires SetDetailStep(s, s', key, p)
    requires s.kind != Disabled
    requires s.kind == Json ==> |s.jsonDetail[key := p]| <= DetailCap
    ensures GetDetail(s', key) == Some(p)
  {
  }

  /**
   * Writing the 301st distinct search entry to a full JSON store evicts exactly
   * one entry, one with the smallest timestamp among the 300 before it.
   */
  lemma FullSearchStoreEvictsOldest(s: Store, s': Store, keyword: string, data: seq<Item>, ttl: int, now: int, older: string)
    requires s.kind == Json
    requires |s.jsonSearch| == SearchCap && Lower(keyword) !in s.jsonSearch
    requires older in s.jsonSearch && StoredTs(s.jsonSearch[older]) < now
    requires SetSearchStep(s, s', keyword, data, ttl, now)
    ensures exists victim ::
              && victim in s.jsonSearch
              && (forall k :: k in s.jsonSearch ==> StoredTs(s.jsonSearch[victim]) <= StoredTs(s.jsonSearch[k]))
              && s'.jsonSearch == s.jsonSearch[Lower(keyword) := Wrapped(Entry(data, ttl, now))] - {victim}
  {
    var key := Lower(keyword);
    var written := Wrapped(Entry(data, ttl, now));
    var before := s.jsonSearch[key := written];
    var after := s'.jsonSearch;
    assert |before| == SearchCap + 1 by {
      assert before.Keys == s.jsonSearch.Keys + {key};
    }
    EvictedCount(before, after, SearchCap, StoredTs);
    var gone := before.Keys - after.Keys;
    assert |gone| == 1;
    var victim :| victim in gone;
    assert gone == {victim} by {
      assert |gone - {victim}| == 0;
    }
    YoungerSurvivesSingleEviction(before, after, SearchCap, StoredTs, key, older);
    assert victim != key;
    assert after == before - {victim} by {
      assert after.Keys == before.Keys - {victim};
    }
    forall k | k in s.jsonSearch
      ensures StoredTs(s.jsonSearch[victim]) <= StoredTs(s.jsonSearch[k])
    {
      if k != victim {
        assert k in after;
      }
    }
  }
}
