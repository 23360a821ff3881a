/**
 * `DatabaseManager`: the SQLite store, one map per table keyed by the
 * `INTEGER PRIMARY KEY` id, and the metadata key/value table. Every upsert
 * is `INSERT OR REPLACE`: rows clashing with the new row on the primary key
 * or on a UNIQUE column are deleted, then the row is inserted.
 */
module Store {
  import opened Wrappers
  import opened Records

  const DefaultSyncTime: string := "2020-01-01T00:00:00"

  datatype MetaRow = MetaRow(value: string, updatedAt: string)

  /** The defaults `_initialize_metadata` inserts, in order. */
  function DefaultMetadata(now: string): seq<(string, string)>
  {
    [("last_pr_sync", DefaultSyncTime), ("last_issue_sync", DefaultSyncTime),
     ("last_full_sync", DefaultSyncTime), ("total_prs_tracked", "0"),
     ("total_issues_tracked", "0"), ("database_version", "1.0"), ("created_at", now)]
  }

  /** The keys of the pairs `ds`. */
  function KeysOf(ds: seq<(string, string)>): (keys: set<string>)
    ensures forall i :: 0 <= i < |ds| ==> ds[i].0 in keys
    ensures forall k :: k in keys ==> exists i :: 0 <= i < |ds| && ds[i].0 == k
  {
    if ds == [] then {}
    else
      var init := ds[..|ds| - 1];
      assert forall i :: 0 <= i < |init| ==> init[i] == ds[i];
      KeysOf(init) + {ds[|ds| - 1].0}
  }

  lemma {:induction false} KeysOfExcludes(ds: seq<(string, string)>, k: string)
    requires forall j :: 0 <= j < |ds| ==> ds[j].0 != k
    ensures k !in KeysOf(ds)
  {
    if ds != [] {
      var init := ds[..|ds| - 1];
      assert forall j :: 0 <= j < |init| ==> init[j] == ds[j];
      KeysOfExcludes(init, k);
    }
  }

  /** `ds[i]` is the first pair in `ds` with its key. */
  predicate FirstWithKey(ds: seq<(string, string)>, i: int)
  {
    0 <= i < |ds| && forall j :: 0 <= j < i ==> ds[j].0 != ds[i].0
  }

  /**
   * `INSERT OR IGNORE` of each pair in turn: existing keys keep their row;
   * an absent key gets the value of its first pair.
   */
  function SeedDefaults(meta: map<string, MetaRow>, ds: seq<(string, string)>, now: string): (r: map<string, MetaRow>)
    ensures forall k :: k in meta ==> k in r && r[k] == meta[k]
    ensures r.Keys == meta.Keys + KeysOf(ds)
  {
    if ds == [] then meta
    else
      var prev := SeedDefaults(meta, ds[..|ds| - 1], now);
      var d := ds[|ds| - 1];
      if d.0 in prev then prev else prev[d.0 := MetaRow(d.1, now)]
  }

  /** Seeding one more pair: its key gets a row unless it has one already. */
  lemma SeedStep(meta: map<string, MetaRow>, ds: seq<(string, string)>, i: int, now: string)
    requires 0 <= i < |ds|
    ensures var prev := SeedDefaults(meta, ds[..i], now);
      SeedDefaults(meta, ds[..i + 1], now) == if ds[i].0 in prev then prev else prev[ds[i].0 := MetaRow(ds[i].1, now)]
  {
    assert ds[..i + 1][..i] == ds[..i];
  }

  /** Seeding the last pair leaves a key seeded by the earlier pairs as it was. */
  lemma SeedKeepsEarlier(meta: map<string, MetaRow>, ds: seq<(string, string)>, now: string, k: string)
    requires ds != [] && k in SeedDefaults(meta, ds[..|ds| - 1], now)
    ensures k in SeedDefaults(meta, ds, now)
    ensures SeedDefaults(meta, ds, now)[k] == SeedDefaults(meta, ds[..|ds| - 1], now)[k]
  {
  }

  /** A key absent before seeding gets the value of its first pair. */
  lemma {:induction false} SeedFirstValue(meta: map<string, MetaRow>, ds: seq<(string, string)>, now: string, i: int)
    requires FirstWithKey(ds, i) && ds[i].0 !in meta
    ensures ds[i].0 in SeedDefaults(meta, ds, now) && SeedDefaults(meta, ds, now)[ds[i].0] == MetaRow(ds[i].1, now)
  {
    var init := ds[..|ds| - 1];
    var prev := SeedDefaults(meta, init, now);
    var k := ds[i].0;
    if i < |ds| - 1 {
      assert FirstWithKey(init, i) by {
        assert forall j :: 0 <= j <= i ==> init[j] == ds[j];
      }
      SeedFirstValue(meta, init, now, i);
      assert init[i] == ds[i];
      SeedKeepsEarlier(meta, ds, now, k);
    } else {
      assert forall j :: 0 <= j < |init| ==> init[j].0 != k;
      KeysOfExcludes(init, k);
    }
  }

  /** The metadata key of a sync checkpoint: `f'last_{sync_type}_sync'`. */
  function SyncKey(syncType: string): string
  {
    "last_" + syncType + "_sync"
  }

  /** The checkpoint of `syncType` in a metadata table: none if its key is absent. */
  function SyncTimeIn(meta: map<string, MetaRow>, syncType: string): Option<string>
  {
    if SyncKey(syncType) in meta then Some(meta[SyncKey(syncType)].value) else None
  }

  /**
   * Writing the checkpoint of `t` makes it read back as the clock reading
   * and leaves the checkpoint of every other sync type as it was.
   */
  lemma CheckpointsIndependent(meta: map<string, MetaRow>, t: string, u: string, now: string)
    ensures SyncTimeIn(meta[SyncKey(t) := MetaRow(now, now)], t) == Some(now)
    ensures t != u ==> SyncTimeIn(meta[SyncKey(t) := MetaRow(now, now)], u) == SyncTimeIn(meta, u)
  {
    if t != u && SyncKey(t) == SyncKey(u) {
      SyncKeyInjective(t, u);
    }
  }

  /** Different sync types never share a checkpoint key. */
  lemma SyncKeyInjective(a: string, b: string)
    requires SyncKey(a) == SyncKey(b)
    ensures a == b
  {
    assert |a| == |b|;
    assert a == SyncKey(a)[5..5 + |a|];
    assert b == SyncKey(b)[5..5 + |b|];
  }

  // ------------------------------------------------------ REPLACE semantics

  predicate KeyedById<R>(t: map<int, R>, id: R -> int)
  {
    forall k :: k in t ==> id(t[k]) == k
  }

  /** No two rows share the UNIQUE column `key`. */
  predicate UniqueBy<R, K(==)>(t: map<int, R>, key: R -> K)
  {
    forall k1, k2 :: k1 in t && k2 in t && key(t[k1]) == key(t[k2]) ==> k1 == k2
  }

  /** `INSERT OR REPLACE` of `row` with primary key `id` into a table with UNIQUE column `key`. */
  function Replace<R, K(==)>(t: map<int, R>, id: int, row: R, key: R -> K): (r: map<int, R>)
    ensures id in r && r[id] == row
    ensures forall k :: k in r && k != id ==> k in t && r[k] == t[k] && key(t[k]) != key(row)
    ensures forall k :: k in t && k != id && key(t[k]) != key(row) ==> k in r
  {
    (map k | k in t && k != id && key(t[k]) != key(row) :: t[k])[id := row]
  }

  /** After the replace, the new row is the only one with its key, and keys stay unique. */
  lemma ReplaceUnique<R, K>(t: map<int, R>, id: int, row: R, key: R -> K)
    requires UniqueBy(t, key)
    ensures UniqueBy(Replace(t, id, row, key), key)
    ensures forall k :: k in Replace(t, id, row, key) && key(Replace(t, id, row, key)[k]) == key(row) ==> k == id
  {
  }

  /** Replacing twice with rows that agree on id and key is replacing once with the second. */
  lemma ReplaceTwice<R, K>(t: map<int, R>, id: int, row1: R, row2: R, key: R -> K)
    requires key(row1) == key(row2)
    ensures Replace(Replace(t, id, row1, key), id, row2, key) == Replace(t, id, row2, key)
  {
    var once := Replace(t, id, row2, key);
    var twice := Replace(Replace(t, id, row1, key), id, row2, key);
    assert forall k :: k in twice <==> k in once;
  }

  lemma ReplaceKeyed<R, K>(t: map<int, R>, id: int, row: R, key: R -> K, rowId: R -> int)
    requires KeyedById(t, rowId) && rowId(row) == id
    ensures KeyedById(Replace(t, id, row, key), rowId)
  {
  }

  /** The `pull_requests` table: keyed by id, one row per number, derived columns as computed. */
  predicate PrTable(t: map<int, PrRow>)
  {
    KeyedById(t, PrId) && UniqueBy(t, PrNumber) && forall k :: k in t ==> PrDerivedFresh(t[k])
  }

  /** The `issues` table: keyed by id, one row per number, derived columns as computed. */
  predicate IssueTable(t: map<int, IssueRow>)
  {
    KeyedById(t, IssueId) && UniqueBy(t, IssueNumber) && forall k :: k in t ==> IssueDerivedFresh(t[k])
  }

  /** The `reviews` table: keyed by id. */
  predicate ReviewTable(t: map<int, ReviewRow>)
  {
    forall k :: k in t ==> t[k].id == k
  }

  /** The `comments` table: keyed by id, and each row passes the XOR check on its parent numbers. */
  predicate CommentTable(t: map<int, CommentRow>)
  {
    forall k :: k in t ==> t[k].id == k && OneParent(t[k].issueNumber, t[k].prNumber)
  }

  /** The `releases` table: keyed by id, one row per tag. */
  predicate ReleaseTable(t: map<int, ReleaseRow>)
  {
    KeyedById(t, ReleaseId) && UniqueBy(t, ReleaseTag)
  }

  /** An upserted pull request row, derived columns computed, keeps the table's invariant. */
  lemma PrTableReplaced(t: map<int, PrRow>, row: PrRow)
    requires PrTable(t) && PrDerivedFresh(row)
    ensures PrTable(ReplacePr(t, row))
  {
    ReplaceUnique(t, row.id, row, PrNumber);
    ReplaceKeyed(t, row.id, row, PrNumber, PrId);
  }

  /** An upserted issue row, derived columns computed, keeps the table's invariant. */
  lemma IssueTableReplaced(t: map<int, IssueRow>, row: IssueRow)
    requires IssueTable(t) && IssueDerivedFresh(row)
    ensures IssueTable(ReplaceIssue(t, row))
  {
    ReplaceUnique(t, row.id, row, IssueNumber);
    ReplaceKeyed(t, row.id, row, IssueNumber, IssueId);
  }

  /** An upserted release keeps the table keyed by id and unique by tag. */
  lemma ReleaseTableReplaced(t: map<int, ReleaseRow>, row: ReleaseRow)
    requires ReleaseTable(t)
    ensures ReleaseTable(ReplaceRelease(t, row))
  {
    ReplaceUnique(t, row.id, row, ReleaseTag);
    ReplaceKeyed(t, row.id, row, ReleaseTag, ReleaseId);
  }

  /** The table after replacing each row of `rows` in turn. */
  function ReplaceAll<R, K(==)>(t: map<int, R>, rows: seq<R>, id: R -> int, key: R -> K): map<int, R>
  {
    if rows == [] then t
    else Replace(ReplaceAll(t, rows[..|rows| - 1], id, key), id(rows[|rows| - 1]), rows[|rows| - 1], key)
  }

  /** Row `i` is the last of `rows` with its id and the last with its key. */
  predicate Latest<R, K(==)>(rows: seq<R>, id: R -> int, key: R -> K, i: int)
  {
    0 <= i < |rows| && forall j :: i < j < |rows| ==> id(rows[j]) != id(rows[i]) && key(rows[j]) != key(rows[i])
  }

  /** A batch of replaces keeps every row that no later row of the batch displaces. */
  lemma {:induction false} ReplaceAllKeepsLatest<R, K>(t: map<int, R>, rows: seq<R>, id: R -> int, key: R -> K, i: int)
    requires Latest(rows, id, key, i)
    ensures id(rows[i]) in ReplaceAll(t, rows, id, key) && ReplaceAll(t, rows, id, key)[id(rows[i])] == rows[i]
  {
    var last := |rows| - 1;
    if i < last {
      assert Latest(rows[..last], id, key, i);
      ReplaceAllKeepsLatest(t, rows[..last], id, key, i);
    }
  }

  function PrNumber(row: PrRow): int { row.number }
  function PrId(row: PrRow): int { row.id }
  function IssueNumber(row: IssueRow): int { row.number }
  function IssueId(row: IssueRow): int { row.id }
  function ReleaseTag(row: ReleaseRow): string { row.tagName }
  function ReleaseId(row: ReleaseRow): int { row.id }

  /** `pull_requests`: primary key `id`, `UNIQUE(number)`. */
  function ReplacePr(t: map<int, PrRow>, row: PrRow): map<int, PrRow>
  {
    Replace(t, row.id, row, PrNumber)
  }

  /** `issues`: primary key `id`, `UNIQUE(number)`. */
  function ReplaceIssue(t: map<int, IssueRow>, row: IssueRow): map<int, IssueRow>
  {
    Replace(t, row.id, row, IssueNumber)
  }

  /** `releases`: primary key `id`, `UNIQUE(tag_name)`. */
  function ReplaceRelease(t: map<int, ReleaseRow>, row: ReleaseRow): map<int, ReleaseRow>
  {
    Replace(t, row.id, row, ReleaseTag)
  }

  /** The rows of a table with the given number. */
  function RowsNumbered(t: map<int, PrRow>, number: int): set<int>
  {
    set k | k in t && t[k].number == number
  }

  /**
   * After a pull request is written, exactly one row carries its number:
   * the new row, under its id.
   */
  lemma UpsertedPrIsOnlyOne(t: map<int, PrRow>, pr: PullRequest, now: string)
    requires UniqueBy(t, PrNumber)
    ensures RowsNumbered(ReplacePr(t, PrToRow(pr, now)), pr.number) == {pr.id}
    ensures ReplacePr(t, PrToRow(pr, now))[pr.id] == PrToRow(pr, now)
  {
    ReplaceUnique(t, pr.id, PrToRow(pr, now), PrNumber);
  }

  /** Writing the same pull request twice leaves the table of writing it once, at the later clock. */
  lemma UpsertPrTwice(t: map<int, PrRow>, pr: PullRequest, t1: string, t2: string)
    ensures ReplacePr(ReplacePr(t, PrToRow(pr, t1)), PrToRow(pr, t2)) == ReplacePr(t, PrToRow(pr, t2))
  {
    ReplaceTwice(t, pr.id, PrToRow(pr, t1), PrToRow(pr, t2), PrNumber);
  }

  /** A metadata table seeded from nothing holds every default, each with its value. */
  lemma SeededDefaults(now: string)
    ensures forall i :: 0 <= i < |DefaultMetadata(now)| ==>
      SeedDefaults(map[], DefaultMetadata(now), now)[DefaultMetadata(now)[i].0] == MetaRow(DefaultMetadata(now)[i].1, now)
  {
    var ds := DefaultMetadata(now);
    forall i | 0 <= i < |ds|
      ensures SeedDefaults(map[], ds, now)[ds[i].0] == MetaRow(ds[i].1, now)
    {
      forall j | 0 <= j < i ensures ds[j].0 != ds[i].0 {
        assert |ds[j].0| != |ds[i].0|;
      }
      SeedFirstValue(map[], ds, now, i);
    }
  }

  // ---------------------------------------------------------------- queries

  /** `WHERE state = ?`, added only when the state filter is truthy. */
  predicate StateMatches(row: PrRow, state: Option<string>)
  {
    state.None? || state.value == "" || row.state == state.value
  }

  function MatchingIds(t: map<int, PrRow>, state: Option<string>): (r: set<int>)
    ensures forall k :: k in r <==> k in t && StateMatches(t[k], state)
  {
    set k | k in t && StateMatches(t[k], state)
  }

  /** `LIMIT ?`, added only when the limit is truthy; SQLite reads a negative limit as none. */
  function RowLimit(limit: Option<int>, available: nat): (n: nat)
    ensures n <= available
    ensures limit.Some? && 0 < limit.value < available ==> n == limit.value
    ensures (limit.None? || limit.value <= 0 || available <= limit.value) ==> n == available
  {
    if limit.Some? && 0 < limit.value < available then limit.value else available
  }

  /** Row `k` is among the returned pull requests. */
  predicate Returned(result: seq<PullRequest>, k: int)
  {
    exists i :: 0 <= i < |result| && result[i].id == k
  }

  /** A non-empty set of rows has a latest-created one: `k`. */
  lemma {:induction false} LatestExists(t: map<int, PrRow>, s: set<int>) returns (k: int)
    requires s != {} && s <= t.Keys
    ensures k in s && forall j :: j in s ==> t[j].createdAt <= t[k].createdAt
    decreases |s|
  {
    if forall x :: x !in s {
      assert false;
    }
    var y :| y in s;
    if s == {y} {
      k := y;
    } else {
      var m := LatestExists(t, s - {y});
      k := if t[m].createdAt < t[y].createdAt then y else m;
    }
  }

  /**
   * `ids` are the rows of `s` taken so far, latest created first, and
   * `remaining` the rows not taken, none created later than a taken one.
   */
  predicate Selection(t: map<int, PrRow>, s: set<int>, remaining: set<int>, ids: seq<int>)
    requires s <= t.Keys
  {
    && remaining <= s
    && |remaining| + |ids| == |s|
    && (forall i :: 0 <= i < |ids| ==> ids[i] in s && ids[i] !in remaining)
    && (forall k :: k in s && k !in remaining ==> k in ids)
    && (forall i, j :: 0 <= i < j < |ids| ==> ids[i] != ids[j])
    && (forall i, j :: 0 <= i < j < |ids| ==> t[ids[i]].createdAt >= t[ids[j]].createdAt)
    && (forall k, i :: k in remaining && 0 <= i < |ids| ==> t[k].createdAt <= t[ids[i]].createdAt)
  }

  /** Taking a latest-created remaining row keeps the selection ordered and complete. */
  lemma SelectStep(t: map<int, PrRow>, s: set<int>, remaining: set<int>, ids: seq<int>, k: int)
    requires s <= t.Keys && Selection(t, s, remaining, ids)
    requires k in remaining && forall j :: j in remaining ==> t[j].createdAt <= t[k].createdAt
    ensures Selection(t, s, remaining - {k}, ids + [k])
  {
    var next := ids + [k];
    assert forall i :: 0 <= i < |ids| ==> next[i] == ids[i];
  }

  /**
   * `ORDER BY created_at DESC LIMIT n`: `n` distinct ids of `s`, latest
   * created first, none of the ids left out created later than one taken.
   */
  method SelectLatest(t: map<int, PrRow>, s: set<int>, n: nat) returns (ids: seq<int>)
    requires s <= t.Keys && n <= |s|
    ensures |ids| == n
    ensures forall i :: 0 <= i < |ids| ==> ids[i] in s
    ensures forall i, j :: 0 <= i < j < |ids| ==> ids[i] != ids[j]
    ensures forall i, j :: 0 <= i < j < |ids| ==> t[ids[i]].createdAt >= t[ids[j]].createdAt
    ensures forall k, i :: k in s && k !in ids && 0 <= i < |ids| ==> t[k].createdAt <= t[ids[i]].createdAt
  {
    var remaining := s;
    ids := [];
    while |ids| < n
      invariant |ids| <= n && Selection(t, s, remaining, ids)
      decreases n - |ids|
    {
      ghost var latest := LatestExists(t, remaining);
      var k :| k in remaining && forall j :: j in remaining ==> t[j].createdAt <= t[k].createdAt;
      SelectStep(t, s, remaining, ids, k);
      ids := ids + [k];
      remaining := remaining - {k};
    }
  }

  /** Decoding the selected rows keeps their ids, so every selected row is returned. */
  lemma RowsReturned(t: map<int, PrRow>, ids: seq<int>, result: seq<PullRequest>)
    requires KeyedById(t, PrId)
    requires forall i :: 0 <= i < |ids| ==> ids[i] in t
    requires |result| == |ids| && forall i :: 0 <= i < |ids| ==> result[i] == PrFromRow(t[ids[i]])
    ensures forall i :: 0 <= i < |ids| ==> result[i].id == ids[i]
    ensures forall k :: k in ids ==> Returned(result, k)
  {
    assert forall i :: 0 <= i < |ids| ==> result[i].id == ids[i] by {
      forall i | 0 <= i < |ids| ensures result[i].id == ids[i] {
        assert PrId(t[ids[i]]) == ids[i];
      }
    }
  }

  /** The number of rows in a given state: one group of `GROUP BY state`. */
  function StateCount(t: map<int, PrRow>, state: string): (n: nat)
    ensures n <= |t|
  {
    var ids := set k | k in t && t[k].state == state;
    assert ids <= t.Keys;
    Cardinality(ids, t.Keys);
    |ids|
  }

  lemma Cardinality(a: set<int>, b: set<int>)
    requires a <= b
    ensures |a| <= |b|
  {
    assert b == a + (b - a);
  }

  /** The rows whose state lies in `states`. */
  function RowsInStates(t: map<int, PrRow>, states: set<string>): set<int>
  {
    set k | k in t && t[k].state in states
  }

  /**
   * The summary after the groups `done` of `GROUP BY state`: the four
   * default keys, the count of every group seen, zero for a default not yet
   * seen, and (unless a state is itself named `total`) the rows seen so far.
   */
  predicate SummarySoFar(t: map<int, PrRow>, done: set<string>, summary: map<string, int>)
  {
    && "total" in summary && "open" in summary && "closed" in summary && "merged" in summary
    && (forall s :: s in done && s != "total" ==> s in summary && summary[s] == StateCount(t, s))
    && (forall s :: s in summary && s != "total" && s !in done ==> summary[s] == 0)
    && ("total" !in done ==> summary["total"] == |RowsInStates(t, done)|)
  }

  /** Before any group: the four defaults, all zero. */
  lemma SummaryStart(t: map<int, PrRow>)
    ensures SummarySoFar(t, {}, map["total" := 0, "open" := 0, "closed" := 0, "merged" := 0])
  {
    assert RowsInStates(t, {}) == {};
  }

  /** Seeing one more group leaves one fewer to see. */
  lemma OneFewerLeft(groups: set<string>, done: set<string>, s: string)
    requires s in groups - done
    ensures |groups - (done + {s})| < |groups - done|
  {
    assert groups - done == (groups - (done + {s})) + {s};
  }

  /** Storing one more group's count, and adding it to `total`, keeps the summary. */
  function SummaryStep(t: map<int, PrRow>, done: set<string>, summary: map<string, int>, s: string): (next: map<string, int>)
    requires SummarySoFar(t, done, summary) && s !in done
    ensures SummarySoFar(t, done + {s}, next)
  {
    RowsInOneMoreState(t, done, s);
    var stored := summary[s := StateCount(t, s)];
    stored["total" := stored["total"] + StateCount(t, s)]
  }

  /** Once every group is seen, the summary holds every state's count and the table's size. */
  lemma SummaryComplete(t: map<int, PrRow>, summary: map<string, int>)
    requires SummarySoFar(t, set k | k in t :: t[k].state, summary)
    ensures "total" in summary && "open" in summary && "closed" in summary && "merged" in summary
    ensures forall s :: s != "total" && StateCount(t, s) > 0 ==> s in summary && summary[s] == StateCount(t, s)
    ensures forall s :: s in summary && s != "total" ==> summary[s] == StateCount(t, s)
    ensures (forall k :: k in t ==> t[k].state != "total") ==> summary["total"] == |t|
  {
    EveryStateGrouped(t);
    var groups := set k | k in t :: t[k].state;
    if forall k :: k in t ==> t[k].state != "total" {
      assert "total" !in groups;
    }
  }

  /** The states found in a table cover all of its rows; any other state counts none. */
  lemma EveryStateGrouped(t: map<int, PrRow>)
    ensures var groups := set k | k in t :: t[k].state;
      |RowsInStates(t, groups)| == |t| && forall s :: s !in groups ==> StateCount(t, s) == 0
  {
    var groups := set k | k in t :: t[k].state;
    forall s | s !in groups
      ensures StateCount(t, s) == 0
    {
      forall k | k in t ensures t[k].state != s {
        assert t[k].state in groups;
      }
      assert (set k | k in t && t[k].state == s) == {};
    }
    forall k | k in t ensures t[k].state in groups {
    }
    assert RowsInStates(t, groups) == t.Keys;
  }

  /** Adding one more state to the groups seen adds that state's count. */
  lemma RowsInOneMoreState(t: map<int, PrRow>, states: set<string>, s: string)
    requires s !in states
    ensures |RowsInStates(t, states + {s})| == |RowsInStates(t, states)| + StateCount(t, s)
  {
    var a := RowsInStates(t, states);
    var b := set k | k in t && t[k].state == s;
    assert RowsInStates(t, states + {s}) == a + b;
    assert a * b == {};
  }

  // ------------------------------------------------------------- the store

  class DatabaseManager {
    var prs: map<int, PrRow>
    var issues: map<int, IssueRow>
    var reviews: map<int, ReviewRow>
    var comments: map<int, CommentRow>
    var releases: map<int, ReleaseRow>
    var metadata: map<string, MetaRow>

    /** The schema's keys and checks, and the derived columns as the upserts compute them. */
    predicate Valid()
      reads this
    {
      PrTable(prs) && IssueTable(issues) && ReviewTable(reviews) && CommentTable(comments) && ReleaseTable(releases)
    }

    /** `DatabaseManager(db_path)` on a new file: empty tables, metadata seeded. */
    constructor (now: string)
      ensures Valid()
      ensures prs == map[] && issues == map[] && reviews == map[] && comments == map[] && releases == map[]
      ensures metadata == SeedDefaults(map[], DefaultMetadata(now), now)
    {
      prs, issues, reviews, comments, releases := map[], map[], map[], map[], map[];
      metadata := map[];
      new;
      InitializeMetadata(now);
    }

    /** `_initialize_metadata`: `INSERT OR IGNORE` of each default. */
    method InitializeMetadata(now: string)
      modifies this
      ensures metadata == SeedDefaults(old(metadata), DefaultMetadata(now), now)
      ensures prs == old(prs) && issues == old(issues) && reviews == old(reviews)
      ensures comments == old(comments) && releases == old(releases)
    {
      SeedMetadata(DefaultMetadata(now), now);
    }

    /** The `INSERT OR IGNORE` loop over the pairs `ds`. */
    method SeedMetadata(ds: seq<(string, string)>, now: string)
      modifies this
      ensures metadata == SeedDefaults(old(metadata), ds, now)
      ensures prs == old(prs) && issues == old(issues) && reviews == old(reviews)
      ensures comments == old(comments) && releases == old(releases)
    {
      for i := 0 to |ds|
        invariant metadata == SeedDefaults(old(metadata), ds[..i], now)
        invariant prs == old(prs) && issues == old(issues) && reviews == old(reviews)
        invariant comments == old(comments) && releases == old(releases)
      {
        var (key, value) := ds[i];
        SeedStep(old(metadata), ds, i, now);
        if key !in metadata {
          metadata := metadata[key := MetaRow(value, now)];
        }
      }
      assert ds[..|ds|] == ds;
    }

    // ------------------------------------------------------------ upserts

    method UpsertPullRequest(pr: PullRequest, now: string) returns (ok: bool)
      requires Valid()
      modifies this
      ensures Valid() && ok
      ensures prs == ReplacePr(old(prs), PrToRow(pr, now))
      ensures issues == old(issues) && reviews == old(reviews) && comments == old(comments)
      ensures releases == old(releases) && metadata == old(metadata)
    {
      var row := PrToRow(pr, now);
      PrTableReplaced(prs, row);
      prs := ReplacePr(prs, row);
      ok := true;
    }

    method UpsertIssue(issue: Issue, now: string) returns (ok: bool)
      requires Valid()
      modifies this
      ensures Valid() && ok
      ensures issues == ReplaceIssue(old(issues), IssueToRow(issue, now))
      ensures prs == old(prs) && reviews == old(reviews) && comments == old(comments)
      ensures releases == old(releases) && metadata == old(metadata)
    {
      var row := IssueToRow(issue, now);
      IssueTableReplaced(issues, row);
      issues := ReplaceIssue(issues, row);
      ok := true;
    }

    /** Fails, changing nothing, when `submitted_at` is null. */
    method UpsertReview(review: Review, now: string) returns (ok: bool)
      requires Valid()
      modifies this
      ensures Valid()
      ensures ok <==> review.submittedAt.Some?
      ensures ok ==> reviews == old(reviews)[review.id := ReviewToRow(review, now).value]
      ensures !ok ==> reviews == old(reviews)
      ensures prs == old(prs) && issues == old(issues) && comments == old(comments)
      ensures releases == old(releases) && metadata == old(metadata)
    {
      var row := ReviewToRow(review, now);
      if row.Some? {
        reviews := reviews[review.id := row.value];
        ok := true;
      } else {
        ok := false;
      }
    }

    /** Fails, changing nothing, when the body is null or the XOR check is broken. */
    method UpsertComment(comment: Comment, now: string) returns (ok: bool)
      requires Valid()
      modifies this
      ensures Valid()
      ensures ok <==> comment.body.Some? && OneParent(comment.issueNumber, comment.prNumber)
      ensures ok ==> comments == old(comments)[comment.id := CommentToRow(comment, now).value]
      ensures !ok ==> comments == old(comments)
      ensures prs == old(prs) && issues == old(issues) && reviews == old(reviews)
      ensures releases == old(releases) && metadata == old(metadata)
    {
      var row := CommentToRow(comment, now);
      if row.Some? {
        comments := comments[comment.id := row.value];
        ok := true;
      } else {
        ok := false;
      }
    }

    method UpsertRelease(release: Release, now: string) returns (ok: bool)
      requires Valid()
      modifies this
      ensures Valid() && ok
      ensures releases == ReplaceRelease(old(releases), ReleaseToRow(release, now))
      ensures prs == old(prs) && issues == old(issues) && reviews == old(reviews)
      ensures comments == old(comments) && metadata == old(metadata)
    {
      var row := ReleaseToRow(release, now);
      ReleaseTableReplaced(releases, row);
      releases := ReplaceRelease(releases, row);
      ok := true;
    }


    // ------------------------------------------------------------ queries

    /**
     * `get_pull_requests`: the matching rows, latest-created first, at most
     * `limit` of them, each with its lists decoded.
     */
    method GetPullRequests(state: Option<string>, limit: Option<int>) returns (result: seq<PullRequest>)
      requires KeyedById(prs, PrId)
      ensures |result| == RowLimit(limit, |MatchingIds(prs, state)|)
      ensures forall i :: 0 <= i < |result| ==>
        result[i].id in MatchingIds(prs, state) && result[i] == PrFromRow(prs[result[i].id])
      ensures forall i, j :: 0 <= i < j < |result| ==> result[i].id != result[j].id
      ensures forall i, j :: 0 <= i < j < |result| ==> result[i].createdAt >= result[j].createdAt
      ensures forall k, i :: k in MatchingIds(prs, state) && !Returned(result, k) && 0 <= i < |result| ==>
        prs[k].createdAt <= result[i].createdAt
    {
      var t := prs;
      var matching := MatchingIds(t, state);
      var ids := SelectLatest(t, matching, RowLimit(limit, |matching|));
      result := seq(|ids|, i requires 0 <= i < |ids| && ids[i] in t => PrFromRow(t[ids[i]]));
      RowsReturned(t, ids, result);
    }

    /**
     * `get_pr_metrics_summary()`: `total`, `open`, `closed` and `merged`
     * always present, then one count per state found in the table, and the
     * total of all groups.
     */
    method GetPrMetricsSummary() returns (summary: map<string, int>)
      ensures "total" in summary && "open" in summary && "closed" in summary && "merged" in summary
      ensures forall s :: s != "total" && StateCount(prs, s) > 0 ==> s in summary && summary[s] == StateCount(prs, s)
      ensures forall s :: s in summary && s != "total" ==> summary[s] == StateCount(prs, s)
      ensures (forall k :: k in prs ==> prs[k].state != "total") ==> summary["total"] == |prs|
    {
      var groups := set k | k in prs :: prs[k].state;
      summary := map["total" := 0, "open" := 0, "closed" := 0, "merged" := 0];
      var done: set<string> := {};
      SummaryStart(prs);
      while done != groups
        invariant done <= groups
        invariant SummarySoFar(prs, done, summary)
        decreases |groups - done|
      {
        var s :| s in groups - done;
        summary := SummaryStep(prs, done, summary, s);
        OneFewerLeft(groups, done, s);
        done := done + {s};
      }
      SummaryComplete(prs, summary);
    }

    // ----------------------------------------------------------- metadata

    /** `get_metadata`: the stored value, none for an absent key. */
    function GetMetadata(key: string): (r: Option<string>)
      reads this
      ensures r.Some? <==> key in metadata
      ensures r.Some? ==> r.value == metadata[key].value
    {
      if key in metadata then Some(metadata[key].value) else None
    }

    /** `set_metadata`: overwrite (or add) one key. */
    method SetMetadata(key: string, value: string, now: string)
      modifies this
      ensures metadata == old(metadata)[key := MetaRow(value, now)]
      ensures GetMetadata(key) == Some(value)
      ensures forall k :: k != key ==> GetMetadata(k) == old(GetMetadata(k))
      ensures prs == old(prs) && issues == old(issues) && reviews == old(reviews)
      ensures comments == old(comments) && releases == old(releases)
    {
      metadata := metadata[key := MetaRow(value, now)];
    }

    /** `get_last_sync_time`: the checkpoint of `syncType`, none if it was never written. */
    function GetLastSyncTime(syncType: string): Option<string>
      reads this
    {
      SyncTimeIn(metadata, syncType)
    }

    /** `update_last_sync_time`: the checkpoint of `syncType` becomes `now`. */
    method UpdateLastSyncTime(syncType: string, now: string)
      modifies this
      ensures metadata == old(metadata)[SyncKey(syncType) := MetaRow(now, now)]
      ensures GetLastSyncTime(syncType) == Some(now)
      ensures forall t :: t != syncType ==> GetLastSyncTime(t) == old(GetLastSyncTime(t))
      ensures prs == old(prs) && issues == old(issues) && reviews == old(reviews)
      ensures comments == old(comments) && releases == old(releases)
    {
      SetMetadata(SyncKey(syncType), now, now);
      forall t | t != syncType ensures GetLastSyncTime(t) == old(GetLastSyncTime(t)) {
        CheckpointsIndependent(old(metadata), syncType, t, now);
      }
      CheckpointsIndependent(old(metadata), syncType, syncType, now);
    }
  }
}
