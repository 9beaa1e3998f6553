/**
  * The local record store and the in-memory `records` cache beside it.
  * The IndexedDB object store `submissions` is a map from key to fields
  * together with its key generator; the cache is the list the views
  * render. `addRecord`, `updateRecord` and `deleteRecord` change both,
  * `loadRecords` refills the cache, and the unsynced query selects the
  * records still to be pushed.
  */
module Store {
  import opened Base
  import opened Dispensation

  /** Why a store request failed: a rejected write, or an invalid key passed to a query. */
  datatype StoreError = WriteFailed | DataError

  /** What a store request resolves to: its value, or the error it was rejected with. */
  datatype StoreResult<+T> = Ok(value: T) | Err(error: StoreError)

  /**
    * The stored records with keys below `n`, in ascending key order: the
    * order in which an object-store scan (`getAll`) returns them.
    */
  function KeyOrder(db: map<nat, Entry>, n: nat): (rs: seq<Record>)
    ensures IdsAscending(rs)
    ensures forall i | 0 <= i < |rs| :: rs[i].id < n && rs[i].id in db && db[rs[i].id] == rs[i].entry
    ensures Ids(rs) == set k | k in db && k < n
  {
    if n == 0 then []
    else
      var rest := KeyOrder(db, n - 1);
      if n - 1 in db then
        var x := Record(n - 1, db[n - 1]);
        IdsOfSnoc(rest, x);
        assert (set k | k in db && k < n) == (set k | k in db && k < n - 1) + {n - 1};
        rest + [x]
      else
        assert (set k | k in db && k < n) == (set k | k in db && k < n - 1);
        rest
  }

  /** Putting a record at the back adds its key. */
  lemma IdsOfSnoc(rs: seq<Record>, x: Record)
    ensures Ids(rs + [x]) == Ids(rs) + {x.id}
  {
    var r := rs + [x];
    assert r[|rs|] == x;
    forall k | k in Ids(r) ensures k in Ids(rs) + {x.id} {
      var i :| 0 <= i < |r| && r[i].id == k;
      if i < |rs| { assert r[i] == rs[i]; }
    }
    forall k | k in Ids(rs) ensures k in Ids(r) {
      var i :| 0 <= i < |rs| && rs[i].id == k;
      assert r[i] == rs[i];
    }
  }


  /**
    * The records `getUnsyncedRecords` is meant to return: those whose
    * `synced` flag is false, in ascending key order.
    */
  function Unsynced(db: map<nat, Entry>, n: nat): (rs: seq<Record>)
    ensures IdsAscending(rs) && DistinctIds(rs)
    ensures forall i | 0 <= i < |rs| :: !rs[i].entry.synced && rs[i].id in db && db[rs[i].id] == rs[i].entry
  {
    FilterKeepsKeyOrder(KeyOrder(db, n), (r: Record) => !r.entry.synced);
    var rs := PendingOnly(KeyOrder(db, n));
    assert forall i | 0 <= i < |rs| :: rs[i] in KeyOrder(db, n);
    rs
  }

  /** Every stored record below `n` that is not synced is among the unsynced ones. */
  lemma UnsyncedComplete(db: map<nat, Entry>, n: nat, k: nat)
    requires k in db && k < n && !db[k].synced
    ensures Record(k, db[k]) in Unsynced(db, n)
  {
    var all := KeyOrder(db, n);
    assert k in Ids(all);
    var i :| 0 <= i < |all| && all[i].id == k;
    assert all[i] == Record(k, db[k]);
  }

  /** A JavaScript value offered to IndexedDB as a key or as a query. */
  datatype JsValue = JsBool(b: bool) | JsNumber(n: int) | JsString(s: string)

  /**
    * IndexedDB accepts numbers and strings as keys (also dates, binary data
    * and arrays of keys, which the application does not use), but never a
    * boolean.
    */
  predicate IsValidKey(v: JsValue) {
    v.JsNumber? || v.JsString?
  }

  /** The key a record would have in the `synced` index: its `synced` flag. */
  function SyncedIndexKey(e: Entry): JsValue {
    JsBool(e.synced)
  }

  /**
    * `objectStore.index('synced').getAll(query)`: a query that is not a
    * valid key makes the call itself throw a `DataError`, before any
    * request exists; otherwise the records whose index key is valid and
    * equal to the query come back in key order. A record whose index key
    * is not a valid key is left out of the index.
    */
  function SyncedIndexGetAll(db: map<nat, Entry>, n: nat, query: JsValue): StoreResult<seq<Record>> {
    if !IsValidKey(query) then Err(DataError)
    else Ok(Filter(KeyOrder(db, n),
                   (r: Record) => IsValidKey(SyncedIndexKey(r.entry)) && SyncedIndexKey(r.entry) == query))
  }

  /** `getUnsyncedRecords` as written: it queries the `synced` index with `false`. */
  function UnsyncedAsWritten(db: map<nat, Entry>, n: nat): StoreResult<seq<Record>> {
    SyncedIndexGetAll(db, n, JsBool(false))
  }

  /**
    * As written, the unsynced query is rejected whatever the store holds,
    * even when it holds Pending records; and the `synced` index holds no
    * record at all, so no other query of it could find them either.
    */
  lemma UnsyncedAsWrittenFails(db: map<nat, Entry>, n: nat, query: JsValue)
    ensures UnsyncedAsWritten(db, n) == Err(DataError)
    ensures SyncedIndexGetAll(db, n, query).Ok? ==> SyncedIndexGetAll(db, n, query).value == []
  {
    FilterNone(KeyOrder(db, n),
               (r: Record) => IsValidKey(SyncedIndexKey(r.entry)) && SyncedIndexKey(r.entry) == query);
  }

  /** The cache with the record of key `id` given the fields `e`; other records kept. */
  function ReplaceEntry(rs: seq<Record>, id: nat, e: Entry): (r: seq<Record>)
    ensures |r| == |rs|
    ensures forall i | 0 <= i < |rs| :: r[i] == if rs[i].id == id then Record(id, e) else rs[i]
  {
    seq(|rs|, i requires 0 <= i < |rs| => if rs[i].id == id then Record(id, e) else rs[i])
  }

  /**
    * `records.findIndex(r => r.id === id)`: the first position holding key
    * `id`, or -1 when there is none.
    */
  method FindIndex(rs: seq<Record>, id: nat) returns (index: int)
    ensures -1 <= index < |rs|
    ensures index == -1 <==> id !in Ids(rs)
    ensures index >= 0 ==> rs[index].id == id && forall j | 0 <= j < index :: rs[j].id != id
  {
    index := 0;
    while index < |rs|
      invariant 0 <= index <= |rs|
      invariant forall j | 0 <= j < index :: rs[j].id != id
    {
      if rs[index].id == id {
        return;
      }
      index := index + 1;
    }
    index := -1;
  }

  /** Putting a record in front adds its key. */
  lemma IdsOfCons(x: Record, rs: seq<Record>)
    ensures Ids([x] + rs) == {x.id} + Ids(rs)
  {
    var r := [x] + rs;
    assert r[0] == x;
    forall k | k in Ids(r) ensures k in {x.id} + Ids(rs) {
      var i :| 0 <= i < |r| && r[i].id == k;
      if i > 0 { assert r[i] == rs[i - 1]; }
    }
    forall k | k in Ids(rs) ensures k in Ids(r) {
      var i :| 0 <= i < |rs| && rs[i].id == k;
      assert r[i + 1] == rs[i];
    }
  }

  /** With distinct keys, overwriting the one position holding `id` replaces that key's entry. */
  lemma ReplaceAt(rs: seq<Record>, index: int, e: Entry)
    requires DistinctIds(rs) && 0 <= index < |rs|
    ensures rs[index := Record(rs[index].id, e)] == ReplaceEntry(rs, rs[index].id, e)
  {
  }

  /** Replacing the fields of the front record, whose key occurs nowhere else, touches nothing behind it. */
  lemma ReplaceFront(x: Record, rs: seq<Record>, e: Entry)
    requires x.id !in Ids(rs)
    ensures ReplaceEntry([x] + rs, x.id, e) == [Record(x.id, e)] + rs
  {
    var xs := [x] + rs;
    var r := ReplaceEntry(xs, x.id, e);
    var expected := [Record(x.id, e)] + rs;
    assert r[0] == expected[0];
    forall i | 1 <= i < |r| ensures r[i] == expected[i] {
      assert xs[i] == rs[i - 1] && expected[i] == rs[i - 1];
      assert rs[i - 1].id in Ids(rs);
    }
  }

  /** Records that keep their keys keep their key set. */
  lemma IdsOfReplace(rs: seq<Record>, id: nat, e: Entry)
    ensures Ids(ReplaceEntry(rs, id, e)) == Ids(rs)
    ensures DistinctIds(rs) ==> DistinctIds(ReplaceEntry(rs, id, e))
  {
    var r := ReplaceEntry(rs, id, e);
    forall k | k in Ids(rs) ensures k in Ids(r) {
      var i :| 0 <= i < |rs| && rs[i].id == k;
      assert r[i].id == k;
    }
  }

  /** The keys of a filtered list are the keys of the records that pass. */
  lemma IdsOfWithoutId(rs: seq<Record>, id: nat)
    ensures Ids(WithoutId(rs, id)) == Ids(rs) - {id}
  {
    var r := WithoutId(rs, id);
    forall k | k in Ids(rs) - {id} ensures k in Ids(r) {
      var i :| 0 <= i < |rs| && rs[i].id == k;
      assert rs[i] in r;
    }
    forall k | k in Ids(r) ensures k in Ids(rs) - {id} {
      var i :| 0 <= i < |r| && r[i].id == k;
      assert r[i] in rs;
    }
  }

  /** A filtered list of distinct keys has distinct keys. */
  lemma {:induction false} FilterKeepsDistinct(rs: seq<Record>, keep: Record -> bool)
    requires DistinctIds(rs)
    ensures DistinctIds(Filter(rs, keep))
  {
    if rs != [] {
      assert DistinctIds(rs[1..]);
      FilterKeepsDistinct(rs[1..], keep);
      var rest := Filter(rs[1..], keep);
      forall x | x in rest ensures x.id != rs[0].id {
        var k :| 0 <= k < |rs[1..]| && rs[1..][k] == x;
        assert rs[k + 1] == x;
      }
    }
  }

  /**
    * Every key was issued by a generator now at `nextId` (it starts at 1),
    * and the cache holds each stored record exactly once, with its stored
    * fields.
    */
  ghost predicate Consistent(db: map<nat, Entry>, nextId: nat, records: seq<Record>) {
    && KeysIssued(db.Keys, nextId)
    && DistinctIds(records)
    && Ids(records) == db.Keys
    && CacheAgrees(db, records)
  }

  /** Every stored key was issued by a generator that starts at 1 and is now at `nextId`. */
  ghost predicate KeysIssued(keys: set<nat>, nextId: nat) {
    nextId >= 1 && forall k | k in keys :: 1 <= k < nextId
  }

  /** Each cached record is stored, with the fields the store holds for it. */
  ghost predicate CacheAgrees(db: map<nat, Entry>, records: seq<Record>) {
    forall i | 0 <= i < |records| :: records[i].id in db && db[records[i].id] == records[i].entry
  }

  /**
    * Storing fields under the next key and putting the new record at the
    * front of the cache keeps store and cache consistent: the key is new.
    */
  lemma AddKeepsConsistent(db: map<nat, Entry>, nextId: nat, records: seq<Record>, e: Entry)
    requires Consistent(db, nextId, records)
    ensures nextId !in db
    ensures Consistent(db[nextId := e], nextId + 1, [Record(nextId, e)] + records)
  {
    var x := Record(nextId, e);
    IdsOfCons(x, records);
    assert db[nextId := e].Keys == db.Keys + {nextId};
    ConsDistinct(x, records);
    ConsAgrees(db, x, records);
  }

  /** A record whose key is not yet cached can go in front, keeping the keys distinct. */
  lemma ConsDistinct(x: Record, rs: seq<Record>)
    requires DistinctIds(rs) && x.id !in Ids(rs)
    ensures DistinctIds([x] + rs)
  {
    var r := [x] + rs;
    forall i, j | 0 <= i < j < |r| ensures r[i].id != r[j].id {
      assert r[j] == rs[j - 1];
      if i > 0 {
        assert r[i] == rs[i - 1];
      }
    }
  }

  /** Storing a record under a key the cache does not hold, and caching it in front, keeps the cache in agreement. */
  lemma ConsAgrees(db: map<nat, Entry>, x: Record, rs: seq<Record>)
    requires CacheAgrees(db, rs) && x.id !in db
    ensures CacheAgrees(db[x.id := x.entry], [x] + rs)
  {
    var r := [x] + rs;
    forall i | 1 <= i < |r| ensures r[i].id in db[x.id := x.entry] && db[x.id := x.entry][r[i].id] == r[i].entry {
      assert r[i] == rs[i - 1];
    }
  }

  /** Writing new fields under a stored key, in the store and in the cache, keeps them consistent. */
  lemma ReplaceKeepsConsistent(db: map<nat, Entry>, nextId: nat, records: seq<Record>, id: nat, e: Entry)
    requires Consistent(db, nextId, records) && id in db
    ensures Consistent(db[id := e], nextId, ReplaceEntry(records, id, e))
  {
    var db' := db[id := e];
    var r := ReplaceEntry(records, id, e);
    IdsOfReplace(records, id, e);
    ReplaceKeepsCache(db, records, id, e);
    SameKeys(db, id, e);
  }

  /** Overwriting a stored key keeps the key set. */
  lemma SameKeys(db: map<nat, Entry>, id: nat, e: Entry)
    requires id in db
    ensures db[id := e].Keys == db.Keys
  {
  }

  lemma ReplaceKeepsCache(db: map<nat, Entry>, records: seq<Record>, id: nat, e: Entry)
    requires CacheAgrees(db, records)
    ensures CacheAgrees(db[id := e], ReplaceEntry(records, id, e))
  {
    var r := ReplaceEntry(records, id, e);
    forall i | 0 <= i < |r| ensures r[i].id in db[id := e] && db[id := e][r[i].id] == r[i].entry {
      if records[i].id != id {
        assert r[i] == records[i];
      }
    }
  }

  /**
    * The object store, its key generator and the `records` cache.
    * `Valid` is what the three operations and `loadRecords` keep: every
    * key was issued by the generator, and the cache holds each stored
    * record exactly once, with its stored fields.
    */
  class RecordStore {
    var db: map<nat, Entry>
    var nextId: nat
    var records: seq<Record>

    ghost predicate Valid()
      reads this
    {
      Consistent(db, nextId, records)
    }

    /**
      * The store alone is sound: every key was issued by the generator.
      * This is all the object store itself guarantees, whatever the cache
      * holds.
      */
    ghost predicate Opened()
      reads this
    {
      KeysIssued(db.Keys, nextId)
    }

    /** A freshly created database: no records, and the key generator at 1. */
    constructor ()
      ensures Valid()
      ensures db == map[] && nextId == 1 && records == []
    {
      db := map[];
      nextId := 1;
      records := [];
    }

    /**
      * A database persisted by earlier sessions, opened at start-up: the
      * module-level cache is still empty, whatever the store holds, until
      * `loadRecords` fills it.
      */
    constructor Open(stored: map<nat, Entry>, generator: nat)
      requires KeysIssued(stored.Keys, generator)
      ensures Opened()
      ensures db == stored && nextId == generator && records == []
    {
      db := stored;
      nextId := generator;
      records := [];
    }

    /** `getAllRecords`: every stored record, in key order, with its stored fields. */
    function AllRecords(): (rs: seq<Record>)
      reads this
      requires Opened()
      ensures IdsAscending(rs) && Ids(rs) == db.Keys
      ensures forall i | 0 <= i < |rs| :: rs[i].id in db && db[rs[i].id] == rs[i].entry
    {
      var rs := KeyOrder(db, nextId);
      assert Ids(rs) == db.Keys;
      rs
    }

    /** The cache holds a record with key `id` exactly when the store does. */
    lemma CachedIffStored(id: nat)
      requires Valid()
      ensures id in Ids(records) <==> id in db
    {
    }

    /**
      * `addRecord`: the store keeps the fields under the next generated key,
      * and the new record goes to the front of the cache. A rejected write
      * changes nothing.
      */
    method Add(e: Entry, writeSucceeds: bool) returns (result: StoreResult<Record>)
      requires Valid()
      modifies this
      ensures Valid()
      ensures writeSucceeds ==>
        && result == Ok(Record(old(nextId), e))
        && old(nextId) !in old(db)
        && db == old(db)[old(nextId) := e]
        && nextId == old(nextId) + 1
        && records == [Record(old(nextId), e)] + old(records)
      ensures !writeSucceeds ==> result == Err(WriteFailed) && unchanged(this)
    {
      if !writeSucceeds {
        return Err(WriteFailed);
      }
      var id := nextId;
      var newRecord := Record(id, e);
      AddKeepsConsistent(db, nextId, records, e);
      db := db[id := e];
      nextId := nextId + 1;
      records := [newRecord] + records;
      result := Ok(newRecord);
    }

    /**
      * `updateRecord(id, updates)`: the stored record with that key gets the
      * patch merged in, and the cache entry with that key is replaced by the
      * merged record while every other entry stays. A key that is not stored
      * leaves store and cache as they were.
      */
    method Update(id: nat, patch: Patch)
      requires Valid()
      modifies this
      ensures Valid()
      ensures nextId == old(nextId)
      ensures id in old(db) ==>
        && db == old(db)[id := Merge(old(db)[id], patch)]
        && records == ReplaceEntry(old(records), id, db[id])
      ensures id !in old(db) ==> db == old(db) && records == old(records)
    {
      if id in db {
        var updated := Merge(db[id], patch);
        var index := FindIndex(records, id);
        ReplaceAt(records, index, updated);
        ReplaceKeepsConsistent(db, nextId, records, id, updated);
        records := records[index := Record(id, updated)];
        db := db[id := updated];
      }
    }

    /**
      * `deleteRecord(id)`: the store drops the key (deleting a missing key
      * succeeds too) and the cache keeps, in order, every record with
      * another key. A rejected delete changes nothing.
      */
    method Delete(id: nat, writeSucceeds: bool) returns (result: StoreResult<()>)
      requires Valid()
      modifies this
      ensures Valid()
      ensures writeSucceeds ==>
        && result == Ok(())
        && db == old(db) - {id}
        && nextId == old(nextId)
        && records == WithoutId(old(records), id)
        && id !in Ids(records)
        && |records| == if id in old(db) then |old(records)| - 1 else |old(records)|
      ensures !writeSucceeds ==> result == Err(WriteFailed) && unchanged(this)
    {
      if !writeSucceeds {
        return Err(WriteFailed);
      }
      db := db - {id};
      var before := records;
      records := WithoutId(records, id);
      IdsOfWithoutId(before, id);
      FilterKeepsDistinct(before, (r: Record) => r.id != id);
      WithoutIdLength(before, id);
      forall i | 0 <= i < |records| ensures records[i].id in db && db[records[i].id] == records[i].entry {
        assert records[i] in before;
      }
      result := Ok(());
    }

    /**
      * `loadRecords`: the cache becomes every stored record, in key order.
      * Whatever the cache held before (at start-up, nothing), afterwards it
      * agrees with the store.
      */
    method Load()
      requires Opened()
      modifies this
      ensures Valid()
      ensures db == old(db) && nextId == old(nextId)
      ensures records == AllRecords()
    {
      records := AllRecords();
    }

    /** `getUnsyncedRecords`, as the application means it: the Pending records in key order. */
    function UnsyncedRecords(): (rs: seq<Record>)
      reads this
      requires Opened()
      ensures IdsAscending(rs)
      ensures forall i | 0 <= i < |rs| :: !rs[i].entry.synced && rs[i].id in db && db[rs[i].id] == rs[i].entry
      ensures forall k | k in db && !db[k].synced :: Record(k, db[k]) in rs
    {
      var rs := Unsynced(db, nextId);
      forall k | k in db && !db[k].synced ensures Record(k, db[k]) in rs {
        UnsyncedComplete(db, nextId, k);
      }
      rs
    }
  }
}
