/**
  * Pushing records to the spreadsheet. `syncToGoogleSheets` posts one row
  * and reports success whenever the request does not throw (an opaque
  * no-cors response cannot be read); `syncRecord` marks the stored record
  * Synced when the push reports success; `syncAllRecords` asks the store
  * for the Pending records, pushes them one after another, counts the
  * successes and reloads the cache (as written, the question itself
  * throws, so `SyncAllAsWritten` never pushes; `SyncAll` is the run with
  * the query corrected); `submitRecord` validates, saves and, when
  * online, pushes the new record.
  *
  * The network is an input: `fetchThrows` says whether the request threw,
  * and for a run over several records `fetchThrows(i)` is the outcome of
  * the i-th push and `clock(i)` the time it resolved.
  */
module Sync {
  import opened Base
  import opened Dispensation
  import opened Validation
  import opened Store

  /** The row posted to the spreadsheet; `syncStatus` is always `Synced`. */
  datatype Payload = Payload(
    timestamp: Timestamp,
    patientName: string,
    age: int,
    gender: string,
    diagnosis: string,
    vials1g: int,
    vials05g: int,
    frequency: string,
    duration: int,
    pharmacistId: string,
    allergyTest: string,
    syncStatus: string)

  /**
    * The row `syncToGoogleSheets` builds from a record: the creation time
    * as its timestamp, the form fields, and a fixed `Synced` status. The
    * key, the dose total and the record's own sync state are not sent.
    */
  function PayloadOf(r: Record): (p: Payload)
    ensures p.syncStatus == "Synced"
    ensures p.timestamp == r.entry.createdAt
  {
    var e := r.entry;
    Payload(e.createdAt, e.patientName, e.age, e.gender, e.diagnosis, e.vials1g, e.vials05g,
            e.frequency, e.duration, e.pharmacistId, e.allergyTest, "Synced")
  }

  /**
    * The row does not depend on the record's sync state: pushing a record
    * again after it was marked Synced sends the same row, and the row says
    * `Synced` even for a record that is still Pending.
    */
  lemma PayloadIgnoresSyncState(r: Record, now: Timestamp)
    ensures PayloadOf(Record(r.id, Merge(r.entry, MarkSynced(now)))) == PayloadOf(r)
    ensures PayloadOf(Record(r.id, r.entry.(synced := false, syncedAt := None))) == PayloadOf(r)
  {
  }

  /**
    * `syncRecord(record)`: the push reports success exactly when the
    * request did not throw; on success the stored record with that key
    * gets `synced = true` and `syncedAt = now` merged in (the cache entry
    * follows), and on failure nothing changes.
    */
  method SyncRecord(store: RecordStore, r: Record, fetchThrows: bool, now: Timestamp) returns (synced: bool)
    requires store.Valid()
    modifies store
    ensures store.Valid() && store.nextId == old(store.nextId)
    ensures synced <==> !fetchThrows
    ensures store.db == if synced then PatchedDb(old(store.db), r.id, MarkSynced(now)) else old(store.db)
    ensures synced && r.id in old(store.db) ==> store.records == ReplaceEntry(old(store.records), r.id, store.db[r.id])
    ensures !(synced && r.id in old(store.db)) ==> store.records == old(store.records)
  {
    synced := !fetchThrows;
    if synced {
      store.Update(r.id, MarkSynced(now));
    }
  }

  /** The store after a patch is merged into the record under `id`, if there is one. */
  function PatchedDb(db: map<nat, Entry>, id: nat, p: Patch): map<nat, Entry> {
    if id in db then db[id := Merge(db[id], p)] else db
  }

  /**
    * The store after the first `k` pushes of a run over `pending`: each
    * push that did not throw marks its record Synced at the time it
    * resolved; the pushes happen in the order of `pending`.
    */
  function SyncedDb(db: map<nat, Entry>, pending: seq<Record>, fetchThrows: nat -> bool,
                    clock: nat -> Timestamp, k: nat): map<nat, Entry>
    requires k <= |pending|
  {
    if k == 0 then db
    else
      var prev := SyncedDb(db, pending, fetchThrows, clock, k - 1);
      if fetchThrows(k - 1) then prev else PatchedDb(prev, pending[k - 1].id, MarkSynced(clock(k - 1)))
  }

  /** Patching a record just written is writing the patched record. */
  lemma PatchFreshlyStored(db: map<nat, Entry>, id: nat, e: Entry, p: Patch)
    ensures PatchedDb(db[id := e], id, p) == db[id := Merge(e, p)]
  {
    var d := db[id := e];
    assert d[id] == e;
    assert d[id := Merge(e, p)] == db[id := Merge(e, p)];
  }

  /** A run stores no new key and drops none. */
  lemma {:induction false} SyncedDbKeys(db: map<nat, Entry>, pending: seq<Record>, fetchThrows: nat -> bool,
                                        clock: nat -> Timestamp, k: nat)
    requires k <= |pending|
    ensures SyncedDb(db, pending, fetchThrows, clock, k).Keys == db.Keys
  {
    if k > 0 {
      SyncedDbKeys(db, pending, fetchThrows, clock, k - 1);
      var prev := SyncedDb(db, pending, fetchThrows, clock, k - 1);
      var id := pending[k - 1].id;
      if id in prev {
        SameKeys(prev, id, Merge(prev[id], MarkSynced(clock(k - 1))));
      }
    }
  }

  /** One more push either changes nothing or merges the Synced mark into its record. */
  lemma SyncedDbStep(db: map<nat, Entry>, pending: seq<Record>, fetchThrows: nat -> bool,
                     clock: nat -> Timestamp, i: nat)
    requires i < |pending|
    ensures SyncedDb(db, pending, fetchThrows, clock, i + 1)
         == if fetchThrows(i) then SyncedDb(db, pending, fetchThrows, clock, i)
            else PatchedDb(SyncedDb(db, pending, fetchThrows, clock, i), pending[i].id, MarkSynced(clock(i)))
  {
  }

  /** The number of the first `k` pushes that did not throw: `syncedCount`. */
  function Successes(fetchThrows: nat -> bool, k: nat): (count: nat)
    ensures count <= k
  {
    if k == 0 then 0 else Successes(fetchThrows, k - 1) + (if fetchThrows(k - 1) then 0 else 1)
  }

  /** Two entries differ at most in `synced` and `syncedAt`. */
  predicate SameExceptSync(e: Entry, e': Entry) {
    e'.(synced := e.synced, syncedAt := e.syncedAt) == e
  }

  /**
    * A run changes only `synced` and `syncedAt`, and never turns a Synced
    * record back to Pending.
    */
  lemma {:induction false} SyncedDbChangesOnlySync(db: map<nat, Entry>, pending: seq<Record>, fetchThrows: nat -> bool,
                                                   clock: nat -> Timestamp, k: nat)
    requires k <= |pending|
    ensures SyncedDb(db, pending, fetchThrows, clock, k).Keys == db.Keys
    ensures forall id | id in db ::
      && SameExceptSync(db[id], SyncedDb(db, pending, fetchThrows, clock, k)[id])
      && (db[id].synced ==> SyncedDb(db, pending, fetchThrows, clock, k)[id].synced)
  {
    SyncedDbKeys(db, pending, fetchThrows, clock, k);
    if k > 0 {
      SyncedDbChangesOnlySync(db, pending, fetchThrows, clock, k - 1);
      forall id | id in db ensures SyncedDbAt(db, pending, fetchThrows, clock, k, id) {
        SyncedDbStepAt(db, pending, fetchThrows, clock, k, id);
      }
    }
  }

  /** Every record whose push did not throw ends the run Synced. */
  lemma {:induction false} SyncedDbMarksDelivered(db: map<nat, Entry>, pending: seq<Record>, fetchThrows: nat -> bool,
                                                  clock: nat -> Timestamp, k: nat)
    requires k <= |pending|
    ensures SyncedDb(db, pending, fetchThrows, clock, k).Keys == db.Keys
    ensures forall j | 0 <= j < k && !fetchThrows(j) && pending[j].id in db ::
      SyncedDb(db, pending, fetchThrows, clock, k)[pending[j].id].synced
  {
    SyncedDbKeys(db, pending, fetchThrows, clock, k);
    if k > 0 {
      SyncedDbMarksDelivered(db, pending, fetchThrows, clock, k - 1);
      SyncedDbKeys(db, pending, fetchThrows, clock, k - 1);
      forall id | id in db ensures SyncedDbAt(db, pending, fetchThrows, clock, k, id) {
        SyncedDbStepAt(db, pending, fetchThrows, clock, k, id);
      }
    }
  }

  /** A record that no successful push named ends the run exactly as it was. */
  lemma {:induction false} SyncedDbLeavesUnnamed(db: map<nat, Entry>, pending: seq<Record>, fetchThrows: nat -> bool,
                                                 clock: nat -> Timestamp, k: nat)
    requires k <= |pending|
    ensures SyncedDb(db, pending, fetchThrows, clock, k).Keys == db.Keys
    ensures forall id | id in db && (forall j | 0 <= j < k && !fetchThrows(j) :: pending[j].id != id) ::
      SyncedDb(db, pending, fetchThrows, clock, k)[id] == db[id]
  {
    SyncedDbKeys(db, pending, fetchThrows, clock, k);
    if k > 0 {
      SyncedDbLeavesUnnamed(db, pending, fetchThrows, clock, k - 1);
      SyncedDbKeys(db, pending, fetchThrows, clock, k - 1);
      forall id | id in db ensures SyncedDbAt(db, pending, fetchThrows, clock, k, id) {
        SyncedDbStepAt(db, pending, fetchThrows, clock, k, id);
      }
    }
  }

  /** What the `k`-th push leaves at key `id`: the record marked Synced if the push named it and did not throw, as it was otherwise. */
  predicate SyncedDbAt(db: map<nat, Entry>, pending: seq<Record>, fetchThrows: nat -> bool,
                       clock: nat -> Timestamp, k: nat, id: nat)
    requires 0 < k <= |pending|
  {
    var prev := SyncedDb(db, pending, fetchThrows, clock, k - 1);
    var d := SyncedDb(db, pending, fetchThrows, clock, k);
    id in prev ==>
      && id in d
      && d[id] == if !fetchThrows(k - 1) && id == pending[k - 1].id
                  then prev[id].(synced := true, syncedAt := Some(clock(k - 1)))
                  else prev[id]
  }

  lemma SyncedDbStepAt(db: map<nat, Entry>, pending: seq<Record>, fetchThrows: nat -> bool,
                       clock: nat -> Timestamp, k: nat, id: nat)
    requires 0 < k <= |pending|
    ensures SyncedDbAt(db, pending, fetchThrows, clock, k, id)
  {
    var prev := SyncedDb(db, pending, fetchThrows, clock, k - 1);
    if id in prev && !fetchThrows(k - 1) && id == pending[k - 1].id {
      MarkSyncedEffect(prev[id], clock(k - 1));
    }
  }

  /** With distinct keys, a push that threw leaves its record exactly as it was. */
  lemma FailedPushLeavesRecord(db: map<nat, Entry>, pending: seq<Record>, fetchThrows: nat -> bool,
                               clock: nat -> Timestamp, j: nat)
    requires DistinctIds(pending) && j < |pending| && fetchThrows(j) && pending[j].id in db
    ensures SyncedDb(db, pending, fetchThrows, clock, |pending|).Keys == db.Keys
    ensures SyncedDb(db, pending, fetchThrows, clock, |pending|)[pending[j].id] == db[pending[j].id]
  {
    SyncedDbLeavesUnnamed(db, pending, fetchThrows, clock, |pending|);
  }

  /**
    * With a transport that always delivers, a run over the corrected
    * Pending list counts every push and leaves no record below the key
    * generator Pending: every previously unsynced record ends Synced.
    */
  lemma AlwaysDeliveredSyncsAll(db: map<nat, Entry>, n: nat, fetchThrows: nat -> bool, clock: nat -> Timestamp)
    requires forall i :: !fetchThrows(i)
    ensures var pending := Unsynced(db, n);
      && Successes(fetchThrows, |pending|) == |pending|
      && Unsynced(SyncedDb(db, pending, fetchThrows, clock, |pending|), n) == []
  {
    var pending := Unsynced(db, n);
    var d := SyncedDb(db, pending, fetchThrows, clock, |pending|);
    AllCount(fetchThrows, |pending|);
    SyncedDbMarksDelivered(db, pending, fetchThrows, clock, |pending|);
    SyncedDbChangesOnlySync(db, pending, fetchThrows, clock, |pending|);
    var all := KeyOrder(d, n);
    forall i | 0 <= i < |all| ensures all[i].entry.synced {
      var k := all[i].id;
      if !db[k].synced {
        UnsyncedComplete(db, n, k);
        var j :| 0 <= j < |pending| && pending[j] == Record(k, db[k]);
      }
    }
    FilterNone(all, (r: Record) => !r.entry.synced);
  }

  lemma {:induction false} AllCount(fetchThrows: nat -> bool, k: nat)
    requires forall i :: !fetchThrows(i)
    ensures Successes(fetchThrows, k) == k
  {
    if k > 0 {
      AllCount(fetchThrows, k - 1);
    }
  }

  /** With a transport that always throws, nothing counts and no record changes. */
  lemma {:induction false} AlwaysThrowingChangesNothing(db: map<nat, Entry>, pending: seq<Record>,
                                                        fetchThrows: nat -> bool, clock: nat -> Timestamp, k: nat)
    requires k <= |pending|
    requires forall i :: fetchThrows(i)
    ensures Successes(fetchThrows, k) == 0
    ensures SyncedDb(db, pending, fetchThrows, clock, k) == db
  {
    if k > 0 {
      AlwaysThrowingChangesNothing(db, pending, fetchThrows, clock, k - 1);
    }
  }

  /**
    * How `syncAllRecords` ends: the pending query threw (the `catch` at the
    * end), nothing to sync, or a run of that many pushes with that many
    * successes.
    */
  datatype SyncReport = QueryFailed(error: StoreError) | NothingToSync | Finished(attempted: nat, succeeded: nat)

  /**
    * `syncAllRecords` once its pending query has answered: a query that
    * threw skips the loop and the reload; an empty list changes nothing
    * (not even the cache); otherwise every listed record is pushed once,
    * in list order, the successes are counted, and the cache is reloaded
    * from the store.
    */
  method SyncFrom(store: RecordStore, query: StoreResult<seq<Record>>, fetchThrows: nat -> bool,
                  clock: nat -> Timestamp) returns (report: SyncReport)
    requires store.Valid()
    modifies store
    ensures store.Valid() && store.nextId == old(store.nextId)
    ensures query.Err? ==> report == QueryFailed(query.error) && unchanged(store)
    ensures query == Ok([]) ==> report == NothingToSync && unchanged(store)
    ensures query.Ok? && query.value != [] ==>
      && report == Finished(|query.value|, Successes(fetchThrows, |query.value|))
      && store.db == SyncedDb(old(store.db), query.value, fetchThrows, clock, |query.value|)
      && store.records == store.AllRecords()
  {
    if query.Err? {
      return QueryFailed(query.error);
    }
    var pending := query.value;
    if pending == [] {
      return NothingToSync;
    }
    var syncedCount := PushInOrder(store, pending, fetchThrows, clock);
    store.Load();
    report := Finished(|pending|, syncedCount);
  }

  /**
    * `syncAllRecords` as written: its pending query `index('synced').getAll(false)`
    * throws a `DataError` whatever the store holds, so no record is pushed,
    * the cache is not reloaded, and the run ends in the error branch.
    */
  method SyncAllAsWritten(store: RecordStore, fetchThrows: nat -> bool, clock: nat -> Timestamp)
    returns (report: SyncReport)
    requires store.Valid()
    modifies store
    ensures report == QueryFailed(DataError)
    ensures unchanged(store)
  {
    UnsyncedAsWrittenFails(store.db, store.nextId, JsBool(false));
    report := SyncFrom(store, UnsyncedAsWritten(store.db, store.nextId), fetchThrows, clock);
  }

  /**
    * `syncAllRecords` with the pending query corrected to list the Pending
    * records: an empty Pending list changes nothing; otherwise every
    * Pending record is pushed once, in key order, the successes are
    * counted, and the cache is reloaded from the store.
    */
  method SyncAll(store: RecordStore, fetchThrows: nat -> bool, clock: nat -> Timestamp) returns (report: SyncReport)
    requires store.Valid()
    modifies store
    ensures store.Valid() && store.nextId == old(store.nextId)
    ensures var pending := Unsynced(old(store.db), old(store.nextId));
      if pending == [] then
        report == NothingToSync && unchanged(store)
      else
        && report == Finished(|pending|, Successes(fetchThrows, |pending|))
        && store.db == SyncedDb(old(store.db), pending, fetchThrows, clock, |pending|)
        && store.records == store.AllRecords()
  {
    report := SyncFrom(store, Ok(store.UnsyncedRecords()), fetchThrows, clock);
  }

  /**
    * The loop of `syncAllRecords`: push each record of `pending` in turn,
    * counting the pushes that reported success.
    */
  method PushInOrder(store: RecordStore, pending: seq<Record>, fetchThrows: nat -> bool, clock: nat -> Timestamp)
    returns (syncedCount: nat)
    requires store.Valid()
    modifies store
    ensures store.Valid() && store.nextId == old(store.nextId)
    ensures store.db == SyncedDb(old(store.db), pending, fetchThrows, clock, |pending|)
    ensures syncedCount == Successes(fetchThrows, |pending|)
  {
    syncedCount := 0;
    var i := 0;
    while i < |pending|
      invariant 0 <= i <= |pending|
      invariant store.Valid() && store.nextId == old(store.nextId)
      invariant store.db == SyncedDb(old(store.db), pending, fetchThrows, clock, i)
      invariant syncedCount == Successes(fetchThrows, i)
    {
      SyncedDbStep(old(store.db), pending, fetchThrows, clock, i);
      var synced := SyncRecord(store, pending[i], fetchThrows(i), clock(i));
      if synced {
        syncedCount := syncedCount + 1;
      }
      i := i + 1;
    }
  }

  /** How `submitRecord` ends. */
  datatype SubmitOutcome =
    | Rejected(message: string)
    | SaveFailed
    | SavedOffline(record: Record)
    | SavedNotSynced(record: Record)
    | SavedAndSynced(record: Record)

  /**
    * `submitRecord`: an invalid form is rejected with its first error and
    * nothing is stored; otherwise the new Pending record built from the
    * form is saved and, when online, pushed.
    */
  method Submit(store: RecordStore, f: Form, createdAt: Timestamp, writeSucceeds: bool,
                online: bool, fetchThrows: bool, syncedAt: Timestamp) returns (outcome: SubmitOutcome)
    requires store.Valid()
    modifies store
    ensures store.Valid()
    ensures Errors(f) != [] ==> outcome == Rejected(ReportedError(f)) && unchanged(store)
    ensures Errors(f) == [] ==> SavedAndPushed(old(store.db), old(store.nextId), old(store.records),
                                                NewEntry(f, createdAt), writeSucceeds, online, fetchThrows, syncedAt,
                                                store.db, store.nextId, store.records, outcome)
  {
    var validation := ValidateForm(f);
    if !validation.isValid {
      return Rejected(Message(validation.errors[0]));
    }
    outcome := SaveAndPush(store, NewEntry(f, createdAt), writeSucceeds, online, fetchThrows, syncedAt);
  }

  /**
    * The state after saving `saved` and pushing it when online: a rejected
    * write stores nothing; otherwise the record is stored under the next
    * key and put at the front of the cache, and it ends Synced exactly when
    * the device was online and the push did not throw.
    */
  ghost predicate SavedAndPushed(db: map<nat, Entry>, nextId: nat, records: seq<Record>, saved: Entry,
                                 writeSucceeds: bool, online: bool, fetchThrows: bool, syncedAt: Timestamp,
                                 db': map<nat, Entry>, nextId': nat, records': seq<Record>, outcome: SubmitOutcome)
  {
    if !writeSucceeds then
      outcome == SaveFailed && db' == db && nextId' == nextId && records' == records
    else
      var final := if online && !fetchThrows then Merge(saved, MarkSynced(syncedAt)) else saved;
      && nextId' == nextId + 1
      && db' == db[nextId := final]
      && records' == [Record(nextId, final)] + records
      && outcome == (if !online then SavedOffline(Record(nextId, saved))
                     else if fetchThrows then SavedNotSynced(Record(nextId, saved))
                     else SavedAndSynced(Record(nextId, saved)))
  }

  /** The part of `submitRecord` after validation: save, then push when online. */
  method SaveAndPush(store: RecordStore, saved: Entry, writeSucceeds: bool, online: bool, fetchThrows: bool,
                     syncedAt: Timestamp) returns (outcome: SubmitOutcome)
    requires store.Valid()
    modifies store
    ensures store.Valid()
    ensures SavedAndPushed(old(store.db), old(store.nextId), old(store.records), saved, writeSucceeds, online,
                           fetchThrows, syncedAt, store.db, store.nextId, store.records, outcome)
  {
    var added := store.Add(saved, writeSucceeds);
    if added.Err? {
      return SaveFailed;
    }
    var newRecord := added.value;
    if !online {
      return SavedOffline(newRecord);
    }
    var synced := PushNew(store, newRecord, fetchThrows, syncedAt, old(store.db), old(store.records));
    outcome := if synced then SavedAndSynced(newRecord) else SavedNotSynced(newRecord);
  }

  /**
    * Pushing a record just saved under a new key at the front of the
    * cache: on success it is marked Synced in the store and in the cache;
    * otherwise nothing changes.
    */
  method PushNew(store: RecordStore, newRecord: Record, fetchThrows: bool, syncedAt: Timestamp,
                 ghost db: map<nat, Entry>, ghost rest: seq<Record>)
    returns (synced: bool)
    requires store.Valid()
    requires store.db == db[newRecord.id := newRecord.entry] && store.records == [newRecord] + rest
    modifies store
    ensures store.Valid() && store.nextId == old(store.nextId)
    ensures synced <==> !fetchThrows
    ensures var final := if synced then Merge(newRecord.entry, MarkSynced(syncedAt)) else newRecord.entry;
      && store.db == db[newRecord.id := final]
      && store.records == [Record(newRecord.id, final)] + rest
  {
    assert newRecord.id !in Ids(rest) by {
      forall i | 0 <= i < |rest| ensures rest[i].id != newRecord.id {
        assert rest[i] == store.records[i + 1] && newRecord == store.records[0];
        assert DistinctIds(store.records);
      }
    }
    PatchFreshlyStored(db, newRecord.id, newRecord.entry, MarkSynced(syncedAt));
    synced := SyncRecord(store, newRecord, fetchThrows, syncedAt);
    if synced {
      ReplaceFront(newRecord, rest, Merge(newRecord.entry, MarkSynced(syncedAt)));
    }
  }
}
