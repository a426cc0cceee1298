/**
 * `CacheManager`: one get/set interface over the search and detail domains,
 * every method branching on the configured variant. Each method is proved
 * against the value-level meaning in `CacheSpec`.
 */
module Cache {
  import opened Wrappers
  import opened Text
  import opened Items
  import opened CacheSpec

  /** The domain a JSON write persists: `saveJSON('search')` or `saveJSON('detail')`. */
  datatype Domain = SearchDomain | DetailDomain

  /**
   * There is always an entry no younger than every other one.
   */
  lemma {:induction false} OldestExists<V>(m: map<string, V>, ts: V -> int)
    requires |m| > 0
    ensures exists v :: v in m && forall k :: k in m ==> ts(m[v]) <= ts(m[k])
  {
    var x :| x in m;
    if |m| == 1 {
      assert m.Keys == {x} by {
        assert |m.Keys - {x}| == 0;
      }
    } else {
      var rest := m - {x};
      assert |rest| == |m| - 1;
      OldestExists(rest, ts);
      var v :| v in rest && forall k :: k in rest ==> ts(rest[k]) >= ts(rest[v]);
      if ts(m[x]) < ts(m[v]) {
        assert forall k :: k in m ==> ts(m[x]) <= ts(m[k]) by {
          forall k | k in m ensures ts(m[x]) <= ts(m[k]) {
            if k != x { assert k in rest; }
          }
        }
      } else {
        assert forall k :: k in m ==> ts(m[v]) <= ts(m[k]) by {
          forall k | k in m ensures ts(m[v]) <= ts(m[k]) {
            if k != x { assert k in rest; }
          }
        }
      }
    }
  }

  /**
   * The eviction of `saveJSON`: while the domain holds more than `cap` keys,
   * delete one with the smallest rank (`ts || 0`). The source sorts the keys by
   * rank and deletes the first `count - cap`; removing a minimum each time
   * deletes the same keys up to ties.
   */
  method EvictOldest<V>(m: map<string, V>, cap: nat, ts: V -> int) returns (kept: map<string, V>)
    ensures Evicted(m, kept, cap, ts)
  {
    kept := m;
    while |kept| > cap
      invariant kept.Keys <= m.Keys
      invariant forall k :: k in kept ==> kept[k] == m[k]
      invariant |m| <= cap ==> kept == m
      invariant |m| > cap ==> |kept| >= cap
      invariant forall r, k :: r in m && r !in kept && k in kept ==> ts(m[r]) <= ts(m[k])
      decreases |kept|
    {
      OldestExists(kept, ts);
      var victim :| victim in kept && forall k :: k in kept ==> ts(kept[victim]) <= ts(kept[k]);
      kept := kept - {victim};
    }
  }

  class CacheManager {
    var kind: CacheType
    /** `this.store`: the in-memory map of both domains. */
    var store: map<string, MemValue>
    /** `this.jsonStore.search` and `this.jsonStore.detail`. */
    var jsonSearch: map<string, Stored>
    var jsonDetail: map<string, Payload>
    /** The rows of the `search_cache` and `detail_cache` tables. */
    var dbSearch: map<string, Entry>
    var dbDetail: map<string, Payload>

    ghost function Model(): Store
      reads this
    {
      Store(kind, store, jsonSearch, jsonDetail, dbSearch, dbDetail)
    }

    ghost predicate Valid()
      reads this
    {
      WellFormed(Model())
    }

    /**
     * `new CacheManager(type)`: empty maps, then the variant's initialisation.
     * `sqliteLoads` says whether the SQLite runtime could be loaded and opened;
     * `persisted` is what the durable variants find on disk.
     */
    constructor(kind: CacheType, sqliteLoads: bool, persisted: Persisted)
      ensures Valid()
      ensures Model() == Init(kind, sqliteLoads, persisted)
    {
      this.kind := kind;
      store := map[];
      jsonSearch, jsonDetail := map[], map[];
      dbSearch, dbDetail := map[], map[];
      new;
      if kind == Sqlite {
        InitSqlite(sqliteLoads, persisted.searchTable, persisted.detailTable);
      } else if kind == Json {
        InitJson(persisted.searchFile, persisted.detailFile);
      }
    }

    /** `initSQLite`: open the tables, or fall back to the memory variant for good. */
    method InitSqlite(loads: bool, searchTable: map<string, Entry>, detailTable: map<string, Payload>)
      modifies this
      ensures store == old(store) && jsonSearch == old(jsonSearch) && jsonDetail == old(jsonDetail)
      ensures loads ==> kind == old(kind) && dbSearch == searchTable && dbDetail == detailTable
      ensures !loads ==> kind == Memory && dbSearch == old(dbSearch) && dbDetail == old(dbDetail)
    {
      if loads {
        dbSearch, dbDetail := searchTable, detailTable;
      } else {
        kind := Memory;
      }
    }

    /** `initJSON`: load both domains from their files (empty when a file is missing). */
    method InitJson(searchFile: map<string, Stored>, detailFile: map<string, Payload>)
      modifies this
      ensures kind == old(kind) && store == old(store) && dbSearch == old(dbSearch) && dbDetail == old(dbDetail)
      ensures jsonSearch == searchFile && jsonDetail == detailFile
    {
      jsonSearch, jsonDetail := searchFile, detailFile;
    }

    /** `saveJSON(type)`: enforce the domain's cap (300 search, 500 detail); the file write is not modelled. */
    method SaveJson(domain: Domain)
      modifies this
      ensures kind == old(kind) && store == old(store) && dbSearch == old(dbSearch) && dbDetail == old(dbDetail)
      ensures domain == SearchDomain ==>
        Evicted(old(jsonSearch), jsonSearch, SearchCap, StoredTs) && jsonDetail == old(jsonDetail)
      ensures domain == DetailDomain ==>
        Evicted(old(jsonDetail), jsonDetail, DetailCap, PayloadTs) && jsonSearch == old(jsonSearch)
    {
      if domain == SearchDomain {
        jsonSearch := EvictOldest(jsonSearch, SearchCap, StoredTs);
      } else {
        jsonDetail := EvictOldest(jsonDetail, DetailCap, PayloadTs);
      }
    }

    /** `getSearch(keyword)` at time `now`. */
    method GetSearch(keyword: string, now: int) returns (r: Option<Entry>)
      requires Valid()
      modifies this
      ensures Valid()
      ensures Read(Model(), r) == CacheSpec.GetSearch(old(Model()), keyword, now)
    {
      if kind == Disabled {
        return None;
      }
      var key := Lower(keyword);
      if kind == Sqlite {
        if key !in dbSearch {
          return None;
        }
        var row := dbSearch[key];
        if row.ttl > 0 && now - row.ts > row.ttl * 1000 {
          return None;
        }
        return Some(row);
      }
      var item: Option<Stored>;
      if kind == Json {
        item := if key in jsonSearch then Some(jsonSearch[key]) else None;
      } else {
        var slot := SearchSlot(key);
        item := if slot in store && store[slot].SearchValue? then Some(store[slot].stored) else None;
      }
      if item == None {
        return None;
      }
      var e := match item.value
        case Wrapped(e) => e
        case Legacy(items) => Entry(items, 0, 0);
      if e.ttl > 0 && e.ts != 0 && now - e.ts > e.ttl * 1000 {
        if kind == Json {
          jsonSearch := jsonSearch - {key};
        } else {
          store := store - {SearchSlot(key)};
        }
        return None;
      }
      return Some(e);
    }

    /** `setSearch(keyword, data, ttl)` at time `now`. */
    method SetSearch(keyword: string, data: seq<Item>, ttl: int, now: int)
      requires Valid()
      modifies this
      ensures Valid()
      ensures SetSearchStep(old(Model()), Model(), keyword, data, ttl, now)
    {
      if kind == Disabled {
        return;
      }
      var key := Lower(keyword);
      var e := Entry(data, ttl, now);
      if kind == Sqlite {
        dbSearch := dbSearch[key := e];
      } else if kind == Json {
        jsonSearch := jsonSearch[key := Wrapped(e)];
        SaveJson(SearchDomain);
      } else {
        store := store[SearchSlot(key) := SearchValue(Wrapped(e))];
      }
    }

    /** `getDetail(key)`. */
    method GetDetail(key: string) returns (r: Option<Payload>)
      ensures r == CacheSpec.GetDetail(Model(), key)
    {
      if kind == Disabled {
        return None;
      }
      if kind == Sqlite {
        return if key in dbDetail then Some(dbDetail[key]) else None;
      }
      if kind == Json {
        return if key in jsonDetail then Some(jsonDetail[key]) else None;
      }
      var slot := DetailSlot(key);
      return if slot in store && store[slot].DetailValue? then Some(store[slot].payload) else None;
    }

    /** `setDetail(key, payload)`. */
    method SetDetail(key: string, p: Payload)
      requires Valid()
      modifies this
      ensures Valid()
      ensures SetDetailStep(old(Model()), Model(), key, p)
    {
      if kind == Disabled {
        return;
      }
      if kind == Sqlite {
        dbDetail := dbDetail[key := p];
      } else if kind == Json {
        jsonDetail := jsonDetail[key := p];
        SaveJson(DetailDomain);
      } else {
        store := store[DetailSlot(key) := DetailValue(p)];
      }
    }
  }
}
