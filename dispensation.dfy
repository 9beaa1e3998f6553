/**
  * The dispensing record: the fields the form produces, the key the store
  * assigns, the half-gram dose total, the shallow merge that
  * `updateRecord` performs, and the list filters that every view of the
  * record list is built from.
  */
module Dispensation {
  import opened Base

  /**
    * The stored fields of one record, all but its key. Doses are vial
    * counts (`meropenem1gQuantity`, `meropenem0_5gQuantity`); `totalHalves`
    * is the stored `totalAmount` counted in half-grams, which keeps the
    * source's `q1g + q05g * 0.5` an integer; it equals the floating-point
    * value wherever that value is exact (below 2^52 half-grams).
    */
  datatype Entry = Entry(
    patientName: string,
    age: int,
    gender: string,
    diagnosis: string,
    allergyTest: string,
    vials1g: int,
    vials05g: int,
    frequency: string,
    duration: int,
    pharmacistId: string,
    totalHalves: int,
    createdAt: Timestamp,
    synced: bool,
    syncedAt: Option<Timestamp>)

  /** A stored record: the key the object store assigned, and the fields. */
  datatype Record = Record(id: nat, entry: Entry)

  /**
    * The dispensed amount in half-grams. Half of it is the real value of
    * `meropenem1gQuantity + meropenem0_5gQuantity * 0.5`, which the
    * source's floating-point sum matches while no rounding occurs.
    */
  function HalfGrams(vials1g: int, vials05g: int): (h: int)
    ensures h as real / 2.0 == vials1g as real + vials05g as real * 0.5
  {
    2 * vials1g + vials05g
  }

  /**
    * What the application keeps true of every record it writes: the total
    * agrees with the vial counts, and a record carries a sync time exactly
    * when it is marked synced.
    */
  ghost predicate WellFormed(e: Entry) {
    && e.totalHalves == HalfGrams(e.vials1g, e.vials05g)
    && (e.synced <==> e.syncedAt.Some?)
  }

  /**
    * The `updates` object of `updateRecord`: each key it holds is a field to
    * overwrite. `syncedAt` may be set to `null`, hence the nested option.
    */
  datatype Patch = Patch(
    patientName: Option<string>,
    age: Option<int>,
    gender: Option<string>,
    diagnosis: Option<string>,
    allergyTest: Option<string>,
    vials1g: Option<int>,
    vials05g: Option<int>,
    frequency: Option<string>,
    duration: Option<int>,
    pharmacistId: Option<string>,
    totalHalves: Option<int>,
    createdAt: Option<Timestamp>,
    synced: Option<bool>,
    syncedAt: Option<Option<Timestamp>>)

  /** `{ ...data, ...updates }`: every key of the patch wins, every other field is kept. */
  function Merge(e: Entry, p: Patch): Entry {
    Entry(
      p.patientName.GetOr(e.patientName),
      p.age.GetOr(e.age),
      p.gender.GetOr(e.gender),
      p.diagnosis.GetOr(e.diagnosis),
      p.allergyTest.GetOr(e.allergyTest),
      p.vials1g.GetOr(e.vials1g),
      p.vials05g.GetOr(e.vials05g),
      p.frequency.GetOr(e.frequency),
      p.duration.GetOr(e.duration),
      p.pharmacistId.GetOr(e.pharmacistId),
      p.totalHalves.GetOr(e.totalHalves),
      p.createdAt.GetOr(e.createdAt),
      p.synced.GetOr(e.synced),
      p.syncedAt.GetOr(e.syncedAt))
  }

  /** The patch with no keys. */
  const EmptyPatch: Patch :=
    Patch(None, None, None, None, None, None, None, None, None, None, None, None, None, None)

  /** `{ synced: true, syncedAt: now }`, the patch `syncRecord` writes. */
  function MarkSynced(now: Timestamp): Patch {
    EmptyPatch.(synced := Some(true), syncedAt := Some(Some(now)))
  }

  /** Merging the empty patch changes nothing. */
  lemma MergeEmpty(e: Entry)
    ensures Merge(e, EmptyPatch) == e
  {
  }

  /**
    * Merging is a shallow overwrite: a later patch's keys win over an
    * earlier one's, and applying the same patch twice is applying it once.
    */
  lemma MergeIdempotent(e: Entry, p: Patch)
    ensures Merge(Merge(e, p), p) == Merge(e, p)
  {
  }

  /**
    * Marking synced sets exactly `synced` and `syncedAt`, and keeps a
    * well-formed record well-formed: a Pending record becomes Synced with
    * its dose total unchanged.
    */
  lemma MarkSyncedEffect(e: Entry, now: Timestamp)
    ensures Merge(e, MarkSynced(now)) == e.(synced := true, syncedAt := Some(now))
    ensures WellFormed(e) ==> WellFormed(Merge(e, MarkSynced(now)))
  {
  }

  /** The keys held by a list of records. */
  function Ids(rs: seq<Record>): set<nat> {
    set i | 0 <= i < |rs| :: rs[i].id
  }

  /** No key occurs twice. */
  predicate DistinctIds(rs: seq<Record>) {
    forall i, j | 0 <= i < j < |rs| :: rs[i].id != rs[j].id
  }

  /** Keys strictly increase along the list: the order of an object-store scan. */
  predicate IdsAscending(rs: seq<Record>) {
    forall i, j | 0 <= i < j < |rs| :: rs[i].id < rs[j].id
  }

  /** `rs.filter(keep)`: the records that pass, in their original order. */
  function Filter(rs: seq<Record>, keep: Record -> bool): (r: seq<Record>)
    ensures |r| <= |rs|
    ensures forall x :: x in r <==> x in rs && keep(x)
  {
    if rs == [] then []
    else
      assert forall x :: x in rs <==> x == rs[0] || x in rs[1..];
      (if keep(rs[0]) then [rs[0]] else []) + Filter(rs[1..], keep)
  }

  /** A list in key order stays in key order when filtered. */
  lemma {:induction false} FilterKeepsKeyOrder(rs: seq<Record>, keep: Record -> bool)
    requires IdsAscending(rs)
    ensures IdsAscending(Filter(rs, keep))
  {
    if rs != [] {
      var rest := Filter(rs[1..], keep);
      FilterKeepsKeyOrder(rs[1..], keep);
      forall x | x in rest ensures rs[0].id < x.id {
        var k :| 0 <= k < |rs[1..]| && rs[1..][k] == x;
        assert rs[k + 1] == x;
      }
    }
  }

  /**
    * Filtering distributes over concatenation, which is to say it keeps the
    * relative order of the records it keeps.
    */
  lemma {:induction false} FilterAppend(a: seq<Record>, b: seq<Record>, keep: Record -> bool)
    ensures Filter(a + b, keep) == Filter(a, keep) + Filter(b, keep)
  {
    if a == [] {
      assert a + b == b;
    } else {
      assert (a + b)[0] == a[0] && (a + b)[1..] == a[1..] + b;
      FilterAppend(a[1..], b, keep);
    }
  }

  /** A test and its negation split a list: the two filtered lists add up to it. */
  lemma {:induction false} FilterComplement(rs: seq<Record>, keep: Record -> bool, drop: Record -> bool)
    requires forall x :: drop(x) <==> !keep(x)
    ensures |Filter(rs, keep)| + |Filter(rs, drop)| == |rs|
  {
    if rs != [] {
      FilterComplement(rs[1..], keep, drop);
    }
  }

  /** Filtering with a test every record passes returns the list. */
  lemma {:induction false} FilterAll(rs: seq<Record>, keep: Record -> bool)
    requires forall k | 0 <= k < |rs| :: keep(rs[k])
    ensures Filter(rs, keep) == rs
  {
    if rs != [] {
      FilterAll(rs[1..], keep);
    }
  }

  /** Two tests that agree on every record filter alike. */
  lemma {:induction false} FilterExt(rs: seq<Record>, keep: Record -> bool, keep': Record -> bool)
    requires forall x :: keep(x) == keep'(x)
    ensures Filter(rs, keep) == Filter(rs, keep')
  {
    if rs != [] {
      FilterExt(rs[1..], keep, keep');
    }
  }

  /** Filtering by one test and then by another is filtering by both at once. */
  lemma {:induction false} FilterTwice(rs: seq<Record>, first: Record -> bool, second: Record -> bool,
                                       both: Record -> bool)
    requires forall x :: both(x) == (first(x) && second(x))
    ensures Filter(Filter(rs, first), second) == Filter(rs, both)
  {
    if rs != [] {
      var h, t := rs[0], rs[1..];
      FilterTwice(t, first, second, both);
      var once := Filter(rs, first);
      if first(h) {
        assert once == [h] + Filter(t, first);
        assert once[0] == h && once[1..] == Filter(t, first);
        assert Filter(once, second) == (if second(h) then [h] else []) + Filter(Filter(t, first), second);
      } else {
        assert once == Filter(t, first);
        assert !both(h);
        assert Filter(rs, both) == Filter(t, both);
      }
    }
  }

  /** Filtering with a test no record passes returns nothing. */
  lemma {:induction false} FilterNone(rs: seq<Record>, keep: Record -> bool)
    requires forall k | 0 <= k < |rs| :: !keep(rs[k])
    ensures Filter(rs, keep) == []
  {
    if rs != [] {
      FilterNone(rs[1..], keep);
    }
  }

  /** `records.filter(r => !r.synced)`. */
  function PendingOnly(rs: seq<Record>): seq<Record> {
    Filter(rs, (r: Record) => !r.entry.synced)
  }

  /** `records.filter(r => r.synced)`. */
  function SyncedOnly(rs: seq<Record>): seq<Record> {
    Filter(rs, (r: Record) => r.entry.synced)
  }

  /** `records.filter(r => r.id !== id)`. */
  function WithoutId(rs: seq<Record>, id: nat): seq<Record> {
    Filter(rs, (r: Record) => r.id != id)
  }

  /** Dropping one key drops exactly one record when that key occurs once. */
  lemma {:induction false} WithoutIdLength(rs: seq<Record>, id: nat)
    requires DistinctIds(rs)
    ensures |WithoutId(rs, id)| == if id in Ids(rs) then |rs| - 1 else |rs|
  {
    if rs != [] {
      assert DistinctIds(rs[1..]);
      WithoutIdLength(rs[1..], id);
      assert Ids(rs) == {rs[0].id} + Ids(rs[1..]) by {
        forall k | k in Ids(rs) ensures k in {rs[0].id} + Ids(rs[1..]) {
          var i :| 0 <= i < |rs| && rs[i].id == k;
          if i > 0 { assert rs[1..][i - 1] == rs[i]; }
        }
        forall k | k in Ids(rs[1..]) ensures k in Ids(rs) {
          var i :| 0 <= i < |rs[1..]| && rs[1..][i].id == k;
          assert rs[i + 1].id == k;
        }
      }
      assert rs[0].id !in Ids(rs[1..]) by {
        forall i | 0 <= i < |rs[1..]| ensures rs[1..][i].id != rs[0].id {
          assert rs[1..][i] == rs[i + 1];
        }
      }
    }
  }
}
