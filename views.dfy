/**
  * What the screens derive from the `records` cache: the stat cards, the
  * pending banner, the filtered and newest-first records table, and the
  * per-diagnosis and per-gender counts behind the dashboard charts.
  */
module Views {
  import opened Base
  import opened Text
  import opened Dispensation

  /** The sum of the records' dose totals, in half-grams: `reduce((sum, r) => sum + r.totalAmount, 0)`. */
  function SumHalves(rs: seq<Record>): int {
    if rs == [] then 0 else SumHalves(rs[..|rs| - 1]) + rs[|rs| - 1].entry.totalHalves
  }

  lemma {:induction false} SumHalvesAppend(a: seq<Record>, b: seq<Record>)
    ensures SumHalves(a + b) == SumHalves(a) + SumHalves(b)
  {
    if b == [] {
      assert a + b == a;
    } else {
      assert (a + b)[..|a + b| - 1] == a + b[..|b| - 1];
      SumHalvesAppend(a, b[..|b| - 1]);
    }
  }

  /** The total of the records kept from `[x] + rs` is `x`'s dose, if kept, plus the total kept from `rs`. */
  lemma SumHalvesFilterCons(x: Record, rs: seq<Record>, keep: Record -> bool)
    ensures SumHalves(Filter([x] + rs, keep)) == (if keep(x) then x.entry.totalHalves else 0) + SumHalves(Filter(rs, keep))
  {
    FilterAppend([x], rs, keep);
    var head := Filter([x], keep);
    assert head == if keep(x) then [x] else [] by {
      assert [x][1..] == [];
    }
    SumHalvesAppend(head, Filter(rs, keep));
    if keep(x) {
      assert SumHalves([x]) == x.entry.totalHalves by {
        assert [x][..0] == [];
      }
    }
  }

  /**
    * The dose total splits between the Synced and the Pending records:
    * the total shown is the Synced total plus the Pending total.
    */
  lemma {:induction false} SumHalvesSplits(rs: seq<Record>)
    ensures SumHalves(rs) == SumHalves(SyncedOnly(rs)) + SumHalves(PendingOnly(rs))
  {
    if rs != [] {
      var x, tail := rs[0], rs[1..];
      assert rs == [x] + tail;
      SumHalvesSplits(tail);
      SumHalvesFilterCons(x, tail, (r: Record) => r.entry.synced);
      SumHalvesFilterCons(x, tail, (r: Record) => !r.entry.synced);
      SumHalvesAppend([x], tail);
      assert SumHalves([x]) == x.entry.totalHalves by {
        assert [x][..0] == [];
      }
    }
  }

  /** The stat cards: total, Synced and Pending counts and the total dose. */
  datatype Stats = Stats(total: nat, synced: nat, pending: nat, totalHalves: int)

  /**
    * `updateStats` (and `updateDashboardStats`, which shows the same
    * figures): every record is counted as either Synced or Pending, and the
    * total dose is the sum over all records. The card prints the total with
    * `toFixed(1)`, which `Text.HalvesToFixed1` models.
    */
  function StatsOf(rs: seq<Record>): (s: Stats)
    ensures s.total == |rs| && s.synced + s.pending == s.total
    ensures s.synced == |SyncedOnly(rs)| && s.pending == |PendingOnly(rs)|
    ensures s.totalHalves == SumHalves(SyncedOnly(rs)) + SumHalves(PendingOnly(rs))
  {
    FilterComplement(rs, (r: Record) => r.entry.synced, (r: Record) => !r.entry.synced);
    SumHalvesSplits(rs);
    Stats(|rs|, |SyncedOnly(rs)|, |PendingOnly(rs)|, SumHalves(rs))
  }

  /**
    * `updatePendingBanner`: the banner is shown, with the Pending count,
    * exactly when some record is Pending.
    */
  function PendingBanner(rs: seq<Record>): (banner: Option<nat>)
    ensures banner.Some? <==> exists i | 0 <= i < |rs| :: !rs[i].entry.synced
    ensures banner.Some? ==> banner.value == |PendingOnly(rs)| > 0
  {
    var pending := PendingOnly(rs);
    if |pending| > 0 then
      assert pending[0] in rs;
      Some(|pending|)
    else
      assert forall i | 0 <= i < |rs| :: rs[i].entry.synced by {
        forall i | 0 <= i < |rs| ensures rs[i].entry.synced {
          assert rs[i] in rs && rs[i] !in pending;
        }
      }
      None
  }

  /** The status filter's value, `'all'` when the control is empty or missing. */
  function StatusChoice(raw: string): string {
    if raw == "" then "all" else raw
  }

  /** The search box's value, lower-cased and trimmed. */
  function SearchQuery(raw: string): string {
    Trim(ToLower(raw))
  }

  /** Whether a record passes the status filter: `all` keeps every record, `synced` the Synced ones, any other value the Pending ones. */
  predicate StatusMatches(r: Record, status: string) {
    status == "all" || r.entry.synced == (status == "synced")
  }

  /** Whether a record matches a non-empty query: its lower-cased name or diagnosis contains it. */
  predicate QueryMatches(r: Record, query: string) {
    Includes(ToLower(r.entry.patientName), query) || Includes(ToLower(r.entry.diagnosis), query)
  }

  /** Creation times never increase along the list. */
  predicate NewestFirst(rs: seq<Record>) {
    forall i, j | 0 <= i < j < |rs| :: rs[i].entry.createdAt >= rs[j].entry.createdAt
  }

  /** Puts `x` before the first record no newer than it. */
  function Insert(x: Record, sorted: seq<Record>): (r: seq<Record>)
    ensures multiset(r) == multiset(sorted) + multiset{x}
    ensures r[0] == x || (sorted != [] && r[0] == sorted[0])
  {
    if sorted == [] || sorted[0].entry.createdAt <= x.entry.createdAt then
      [x] + sorted
    else
      assert sorted == [sorted[0]] + sorted[1..];
      [sorted[0]] + Insert(x, sorted[1..])
  }

  /** A record no older than the head of a newest-first list can go in front of it. */
  lemma ConsNewestFirst(y: Record, rs: seq<Record>)
    requires NewestFirst(rs)
    requires rs == [] || y.entry.createdAt >= rs[0].entry.createdAt
    ensures NewestFirst([y] + rs)
  {
    var r := [y] + rs;
    forall i, j | 0 <= i < j < |r| ensures r[i].entry.createdAt >= r[j].entry.createdAt {
      assert r[j] == rs[j - 1];
      if i > 0 {
        assert r[i] == rs[i - 1];
      } else {
        assert rs[0].entry.createdAt >= rs[j - 1].entry.createdAt;
      }
    }
  }

  /** Inserting into a newest-first list keeps it newest first. */
  lemma {:induction false} InsertKeepsOrder(x: Record, sorted: seq<Record>)
    requires NewestFirst(sorted)
    ensures NewestFirst(Insert(x, sorted))
  {
    if sorted == [] || sorted[0].entry.createdAt <= x.entry.createdAt {
      ConsNewestFirst(x, sorted);
    } else {
      var tail := sorted[1..];
      assert NewestFirst(tail) by {
        forall i, j | 0 <= i < j < |tail| ensures tail[i].entry.createdAt >= tail[j].entry.createdAt {
          assert tail[i] == sorted[i + 1] && tail[j] == sorted[j + 1];
        }
      }
      InsertKeepsOrder(x, tail);
      ConsNewestFirst(sorted[0], Insert(x, tail));
    }
  }

  /**
    * The newest-first order of `sort((a, b) => new Date(b.createdAt) -
    * new Date(a.createdAt))`: the same records, newest first.
    */
  function SortNewestFirst(rs: seq<Record>): (r: seq<Record>)
    ensures NewestFirst(r)
    ensures multiset(r) == multiset(rs)
  {
    if rs == [] then []
    else
      assert rs == [rs[0]] + rs[1..];
      var rest := SortNewestFirst(rs[1..]);
      InsertKeepsOrder(rs[0], rest);
      Insert(rs[0], rest)
  }

  /** Sorting keeps exactly the same records, each as often. */
  lemma SortKeepsRecords(rs: seq<Record>)
    ensures |SortNewestFirst(rs)| == |rs|
    ensures forall x :: x in SortNewestFirst(rs) <==> x in rs
  {
    var r := SortNewestFirst(rs);
    assert |r| == |multiset(r)| == |multiset(rs)| == |rs|;
    forall x ensures x in r <==> x in rs {
      assert x in r <==> x in multiset(r);
      assert x in rs <==> x in multiset(rs);
    }
  }

  /** The status stage of `displayRecords`. */
  function ByStatus(rs: seq<Record>, status: string): (r: seq<Record>)
    ensures |r| <= |rs|
    ensures forall x :: x in r <==> x in rs && StatusMatches(x, status)
  {
    if status != "all" then Filter(rs, (r: Record) => r.entry.synced == (status == "synced")) else rs
  }

  /** The search stage of `displayRecords`; an empty query keeps every record. */
  function BySearch(rs: seq<Record>, query: string): (r: seq<Record>)
    ensures |r| <= |rs|
    ensures forall x :: x in r <==> x in rs && (query == [] || QueryMatches(x, query))
  {
    if query != [] then Filter(rs, (r: Record) => QueryMatches(r, query)) else rs
  }

  /** The combined test of `displayRecords`: the status filter and, for a non-empty query, the search. */
  function Passes(status: string, query: string): Record -> bool {
    (x: Record) => StatusMatches(x, status) && (query == [] || QueryMatches(x, query))
  }

  /**
    * `displayRecords`: the cache narrowed by the status filter, then by the
    * search query when it is not empty, then ordered newest first. Each
    * record that passes is shown as often as the cache holds it.
    */
  function Displayed(rs: seq<Record>, statusRaw: string, searchRaw: string): (shown: seq<Record>)
    ensures NewestFirst(shown)
    ensures forall x :: x in shown <==>
      && x in rs
      && StatusMatches(x, StatusChoice(statusRaw))
      && (SearchQuery(searchRaw) == [] || QueryMatches(x, SearchQuery(searchRaw)))
    ensures |shown| <= |rs|
    ensures multiset(shown) == multiset(Filter(rs, Passes(StatusChoice(statusRaw), SearchQuery(searchRaw))))
  {
    var narrowed := BySearch(ByStatus(rs, StatusChoice(statusRaw)), SearchQuery(searchRaw));
    NarrowedIsFilter(rs, StatusChoice(statusRaw), SearchQuery(searchRaw));
    SortKeepsRecords(narrowed);
    SortNewestFirst(narrowed)
  }

  /** The two filter stages together keep, in order, exactly the records that pass both tests. */
  lemma NarrowedIsFilter(rs: seq<Record>, status: string, query: string)
    ensures BySearch(ByStatus(rs, status), query) == Filter(rs, Passes(status, query))
  {
    var byStatus := (x: Record) => StatusMatches(x, status);
    var bySearch := (x: Record) => query == [] || QueryMatches(x, query);
    if status != "all" {
      FilterExt(rs, (r: Record) => r.entry.synced == (status == "synced"), byStatus);
    } else {
      FilterAll(rs, byStatus);
    }
    var ys := ByStatus(rs, status);
    if query != [] {
      FilterExt(ys, (r: Record) => QueryMatches(r, query), bySearch);
    } else {
      FilterAll(ys, bySearch);
    }
    FilterTwice(rs, byStatus, bySearch, Passes(status, query));
  }

  /** An empty search box and the `all` status show every record, newest first. */
  lemma ShowAll(rs: seq<Record>)
    ensures multiset(Displayed(rs, "all", "")) == multiset(rs)
  {
    assert ToLower("") == "";
    assert Trim("") == "";
  }

  /** The number of records satisfying `p`. */
  function CountWhere(rs: seq<Record>, p: Record -> bool): (n: nat)
    ensures n <= |rs|
  {
    if rs == [] then 0 else CountWhere(rs[..|rs| - 1], p) + (if p(rs[|rs| - 1]) then 1 else 0)
  }

  /** A count reaches the number of records exactly when every record satisfies the test. */
  lemma {:induction false} CountWhereAll(rs: seq<Record>, p: Record -> bool)
    ensures CountWhere(rs, p) == |rs| <==> forall i | 0 <= i < |rs| :: p(rs[i])
  {
    if rs != [] {
      var init := rs[..|rs| - 1];
      CountWhereAll(init, p);
      assert forall i | 0 <= i < |init| :: init[i] == rs[i];
    }
  }

  /** A record's diagnosis is `d`. */
  function HasDiagnosis(d: string): Record -> bool {
    (r: Record) => r.entry.diagnosis == d
  }

  /** The sum of `counts` over the keys listed in `keys`. */
  function SumOver(keys: seq<string>, counts: map<string, nat>): nat
    requires forall k | k in keys :: k in counts
  {
    if keys == [] then 0 else SumOver(keys[..|keys| - 1], counts) + counts[keys[|keys| - 1]]
  }

  /** Changing counts of keys not listed does not change the sum over the listed ones. */
  lemma {:induction false} SumOverFrame(keys: seq<string>, counts: map<string, nat>, d: string, c: nat)
    requires forall k | k in keys :: k in counts
    requires d !in keys
    ensures SumOver(keys, counts[d := c]) == SumOver(keys, counts)
  {
    if keys != [] {
      SumOverFrame(keys[..|keys| - 1], counts, d, c);
    }
  }

  /** Adding one to the count of a key listed once adds one to the sum. */
  lemma {:induction false} SumOverIncrement(keys: seq<string>, counts: map<string, nat>, d: string)
    requires forall k | k in keys :: k in counts
    requires forall i, j | 0 <= i < j < |keys| :: keys[i] != keys[j]
    requires d in keys
    ensures SumOver(keys, counts[d := counts[d] + 1]) == SumOver(keys, counts) + 1
  {
    var init := keys[..|keys| - 1];
    var last := keys[|keys| - 1];
    assert forall i, j | 0 <= i < j < |init| :: init[i] != init[j];
    if last == d {
      assert d !in init by {
        forall i | 0 <= i < |init| ensures init[i] != d {
          assert init[i] == keys[i];
        }
      }
      SumOverFrame(init, counts, d, counts[d] + 1);
    } else {
      assert d in init by {
        var i :| 0 <= i < |keys| && keys[i] == d;
        assert i < |init| && init[i] == d;
      }
      SumOverIncrement(init, counts, d);
    }
  }

  /** `keys` lists the keys of `counts`, each once. */
  ghost predicate ListsKeys(keys: seq<string>, counts: map<string, nat>) {
    && (forall i, j | 0 <= i < j < |keys| :: keys[i] != keys[j])
    && (forall d :: d in counts <==> d in keys)
  }

  /** `counts` holds, for each diagnosis that occurs in `prefix`, how many records have it, and nothing else. */
  ghost predicate CountsMatch(prefix: seq<Record>, counts: map<string, nat>) {
    && (forall d | d in counts :: counts[d] == CountWhere(prefix, HasDiagnosis(d)) > 0)
    && (forall d | d !in counts :: CountWhere(prefix, HasDiagnosis(d)) == 0)
  }

  /**
    * `keys` lists the diagnoses of `prefix` once each and `counts` holds,
    * for each of them, how many records of `prefix` have it; the counts add
    * up to the number of records.
    */
  ghost predicate Tallied(prefix: seq<Record>, keys: seq<string>, counts: map<string, nat>) {
    ListsKeys(keys, counts) && CountsMatch(prefix, counts) && SumOver(keys, counts) == |prefix|
  }

  /** Counting over one more record adds one exactly when that record satisfies the test. */
  lemma CountWhereSnoc(prefix: seq<Record>, x: Record, p: Record -> bool)
    ensures CountWhere(prefix + [x], p) == CountWhere(prefix, p) + (if p(x) then 1 else 0)
  {
    assert (prefix + [x])[..|prefix|] == prefix;
  }

  /** One more record adds one to the count of its diagnosis, listing it if it is new. */
  lemma CountsMatchStep(prefix: seq<Record>, x: Record, counts: map<string, nat>)
    requires CountsMatch(prefix, counts)
    ensures var d := x.entry.diagnosis;
      CountsMatch(prefix + [x], counts[d := if d in counts then counts[d] + 1 else 1])
  {
    var d := x.entry.diagnosis;
    forall e ensures CountWhere(prefix + [x], HasDiagnosis(e)) == CountWhere(prefix, HasDiagnosis(e)) + (if e == d then 1 else 0) {
      CountWhereSnoc(prefix, x, HasDiagnosis(e));
    }
  }

  /** One more record with a diagnosis already counted: add one to its count. */
  lemma TallyCounted(prefix: seq<Record>, x: Record, keys: seq<string>, counts: map<string, nat>)
    requires Tallied(prefix, keys, counts) && x.entry.diagnosis in counts
    ensures Tallied(prefix + [x], keys, counts[x.entry.diagnosis := counts[x.entry.diagnosis] + 1])
  {
    CountsMatchStep(prefix, x, counts);
    SumOverIncrement(keys, counts, x.entry.diagnosis);
  }

  /** One more record with a new diagnosis: list it, with a count of one. */
  lemma TallyNew(prefix: seq<Record>, x: Record, keys: seq<string>, counts: map<string, nat>)
    requires Tallied(prefix, keys, counts) && x.entry.diagnosis !in counts
    ensures Tallied(prefix + [x], keys + [x.entry.diagnosis], counts[x.entry.diagnosis := 1])
  {
    var d := x.entry.diagnosis;
    CountsMatchStep(prefix, x, counts);
    ListsNewKey(keys, counts, d);
    assert (keys + [d])[..|keys|] == keys;
    SumOverFrame(keys, counts, d, 1);
  }

  /** Listing a key not yet counted, with any count, keeps the keys listed once each. */
  lemma ListsNewKey(keys: seq<string>, counts: map<string, nat>, d: string)
    requires ListsKeys(keys, counts) && d !in counts
    ensures ListsKeys(keys + [d], counts[d := 1])
  {
    var keys' := keys + [d];
    forall i, j | 0 <= i < j < |keys'| ensures keys'[i] != keys'[j] {
      assert keys'[i] == keys[i];
    }
  }

  /** Some record satisfies a test exactly when the count of those that do is positive. */
  lemma {:induction false} CountWherePositive(rs: seq<Record>, p: Record -> bool)
    ensures CountWhere(rs, p) > 0 <==> exists i | 0 <= i < |rs| :: p(rs[i])
  {
    if rs != [] {
      var init := rs[..|rs| - 1];
      CountWherePositive(init, p);
      assert forall i | 0 <= i < |init| :: init[i] == rs[i];
    }
  }

  /**
    * `updateDiagnosisChart`'s tally: for each diagnosis that occurs, the
    * number of records with it. `keys` lists the diagnoses once each, in
    * order of first appearance; the counts over them add up to the number
    * of records.
    */
  method DiagnosisCounts(rs: seq<Record>) returns (keys: seq<string>, counts: map<string, nat>)
    ensures forall i, j | 0 <= i < j < |keys| :: keys[i] != keys[j]
    ensures forall d :: d in counts <==> d in keys
    ensures forall d :: d in counts <==> exists i | 0 <= i < |rs| :: HasDiagnosis(d)(rs[i])
    ensures forall d | d in counts :: counts[d] == CountWhere(rs, HasDiagnosis(d)) > 0
    ensures SumOver(keys, counts) == |rs|
  {
    keys := [];
    counts := map[];
    var i := 0;
    while i < |rs|
      invariant 0 <= i <= |rs|
      invariant Tallied(rs[..i], keys, counts)
    {
      assert rs[..i + 1] == rs[..i] + [rs[i]];
      keys, counts := TallyOne(rs[..i], rs[i], keys, counts);
      i := i + 1;
    }
    assert rs[..i] == rs;
    TalliedAll(rs, keys, counts);
  }

  /**
    * The `forEach` callback of `updateDiagnosisChart`: one more record's
    * diagnosis counted, as `(counts[d] || 0) + 1`, and listed if it is new.
    */
  method TallyOne(ghost prefix: seq<Record>, x: Record, keys: seq<string>, counts: map<string, nat>)
    returns (keys': seq<string>, counts': map<string, nat>)
    requires Tallied(prefix, keys, counts)
    ensures Tallied(prefix + [x], keys', counts')
  {
    var d := x.entry.diagnosis;
    if d in counts {
      TallyCounted(prefix, x, keys, counts);
      keys', counts' := keys, counts[d := counts[d] + 1];
    } else {
      TallyNew(prefix, x, keys, counts);
      keys', counts' := keys + [d], counts[d := 1];
    }
  }

  /** A tally of all the records lists exactly the diagnoses that occur. */
  lemma TalliedAll(rs: seq<Record>, keys: seq<string>, counts: map<string, nat>)
    requires Tallied(rs, keys, counts)
    ensures forall i, j | 0 <= i < j < |keys| :: keys[i] != keys[j]
    ensures forall d :: d in counts <==> d in keys
    ensures forall d :: d in counts <==> exists i | 0 <= i < |rs| :: HasDiagnosis(d)(rs[i])
    ensures forall d | d in counts :: counts[d] == CountWhere(rs, HasDiagnosis(d)) > 0
    ensures SumOver(keys, counts) == |rs|
  {
    forall d ensures d in counts <==> exists i | 0 <= i < |rs| :: HasDiagnosis(d)(rs[i]) {
      CountWherePositive(rs, HasDiagnosis(d));
    }
  }

  /** The genders the chart shows. */
  const ChartGenders: set<string> := {"Male", "Female", "Other"}

  /** A record's gender is `g`. */
  function HasGender(g: string): Record -> bool {
    (r: Record) => r.entry.gender == g
  }

  /** The three gender counts add up to the number of records whose gender is one of them. */
  lemma {:induction false} GenderCountsSum(rs: seq<Record>)
    ensures CountWhere(rs, HasGender("Male")) + CountWhere(rs, HasGender("Female")) + CountWhere(rs, HasGender("Other"))
         == CountWhere(rs, (r: Record) => r.entry.gender in ChartGenders)
  {
    if rs != [] {
      GenderCountsSum(rs[..|rs| - 1]);
    }
  }

  /** `counts` holds, for each chart gender, how many records of `prefix` have it. */
  ghost predicate GenderTallied(prefix: seq<Record>, counts: map<string, nat>) {
    && counts.Keys == ChartGenders
    && forall g | g in counts :: counts[g] == CountWhere(prefix, HasGender(g))
  }

  /**
    * The `forEach` callback of `updateGenderChart`: a record whose gender
    * is one of the chart's keys adds one to it; any other is skipped.
    */
  method CountGender(ghost prefix: seq<Record>, x: Record, counts: map<string, nat>) returns (counts': map<string, nat>)
    requires GenderTallied(prefix, counts)
    ensures GenderTallied(prefix + [x], counts')
  {
    var g := x.entry.gender;
    forall h ensures CountWhere(prefix + [x], HasGender(h)) == CountWhere(prefix, HasGender(h)) + (if h == g then 1 else 0) {
      CountWhereSnoc(prefix, x, HasGender(h));
    }
    if g in counts {
      counts' := counts[g := counts[g] + 1];
    } else {
      counts' := counts;
    }
  }

  /**
    * `updateGenderChart`'s tally: one counter per chart gender, starting
    * at zero; a record with any other gender is not counted. So the counts
    * add up to at most the number of records, and to exactly that number
    * when every record has one of the three genders.
    */
  method GenderCounts(rs: seq<Record>) returns (counts: map<string, nat>)
    ensures counts.Keys == ChartGenders
    ensures forall g | g in counts :: counts[g] == CountWhere(rs, HasGender(g))
    ensures counts["Male"] + counts["Female"] + counts["Other"] <= |rs|
    ensures counts["Male"] + counts["Female"] + counts["Other"] == |rs|
        <==> forall i | 0 <= i < |rs| :: rs[i].entry.gender in ChartGenders
  {
    counts := map["Male" := 0, "Female" := 0, "Other" := 0];
    var i := 0;
    while i < |rs|
      invariant 0 <= i <= |rs|
      invariant GenderTallied(rs[..i], counts)
    {
      assert rs[..i + 1] == rs[..i] + [rs[i]];
      counts := CountGender(rs[..i], rs[i], counts);
      i := i + 1;
    }
    assert rs[..i] == rs;
    GenderCountsSum(rs);
    CountWhereAll(rs, (r: Record) => r.entry.gender in ChartGenders);
  }
}
