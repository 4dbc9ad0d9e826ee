/** The command-line flow of RequestReportMap: load the keys, build the search request for the
    last `hours` hours, process the reports on status 200, commit them, sort them, summarise
    them for the map, and list the devices that sent nothing. */
module RequestReportMap {
  import opened Wrappers
  import opened Crypto
  import opened KeyStore
  import opened ReportAggregator
  import opened LocationSummary

  /** `startdate`: `hours` hours before `now`, both in Unix seconds. */
  function Startdate(now: int, hours: int): (r: int)
    ensures r + 3600 * hours == now
    ensures hours >= 0 ==> r <= now
  {
    now - 60 * 60 * hours
  }

  /** The single entry of the `search` list posted to the fetch endpoint. */
  datatype SearchRequest = SearchRequest(startDate: int, endDate: int, ids: seq<string>)

  /** The request of `fetch_reports`: the window in milliseconds and the ids in key order. */
  function FetchRequest(now: int, hours: int, keys: KeyTables): (r: SearchRequest)
    ensures r.startDate == Startdate(now, hours) * 1000 && r.endDate == now * 1000
    ensures r.endDate - r.startDate == 3600000 * hours
    ensures r.ids == keys.order
  {
    SearchRequest(Startdate(now, hours) * 1000, now * 1000, keys.order)
  }

  /** The request names every loaded device once. */
  lemma RequestNamesEveryKey(now: int, hours: int, keys: KeyTables)
    requires Valid(keys)
    ensures var ids := FetchRequest(now, hours, keys).ids;
      && (forall k :: k in ids <==> k in keys.names)
      && forall i, j :: 0 <= i < j < |ids| ==> ids[i] != ids[j]
  {
  }

  /** The HTTP response: its status and, when the body is JSON with a `results` list, that list. */
  datatype Response = Response(status: int, results: Option<seq<Report>>)

  /** `[key for key in names.values() if key not in found]`, in key order. */
  function Missing(names: map<string, string>, order: seq<string>, found: set<string>): (r: seq<string>)
    requires forall i :: 0 <= i < |order| ==> order[i] in names
    ensures forall n :: n in r <==> (exists i :: 0 <= i < |order| && names[order[i]] == n) && n !in found
  {
    if order == [] then []
    else
      var rest := Missing(names, order[1..], found);
      assert forall i :: 1 <= i < |order| ==> order[i] == order[1..][i - 1];
      (if names[order[0]] in found then [] else [names[order[0]]]) + rest
  }

  /** A key added at the end of `order` adds its name, when not found, at the end of the
      missing list: the list follows key order. */
  lemma {:induction false} MissingInKeyOrder(names: map<string, string>, order: seq<string>, k: string, found: set<string>)
    requires forall i :: 0 <= i < |order| ==> order[i] in names
    requires k in names
    ensures Missing(names, order + [k], found)
         == Missing(names, order, found) + (if names[k] in found then [] else [names[k]])
  {
    if order == [] {
      assert order + [k] == [k];
      assert [k][1..] == [];
    } else {
      assert (order + [k])[1..] == order[1..] + [k];
      MissingInKeyOrder(names, order[1..], k, found);
    }
  }

  /** With the key tables of the loader, the missing devices are exactly the named devices
      that were not found, so together with `found` they make up every device name. */
  lemma MissingPartition(keys: KeyTables, found: set<string>)
    requires Valid(keys) && found <= keys.names.Values
    ensures var m := Missing(keys.names, keys.order, found);
      && (forall n :: n in m <==> n in keys.names.Values && n !in found)
      && found + (set n | n in m) == keys.names.Values
  {
    var m := Missing(keys.names, keys.order, found);
    forall n ensures n in m <==> n in keys.names.Values && n !in found {
      if n in keys.names.Values {
        var k :| k in keys.names && keys.names[k] == n;
        var i :| 0 <= i < |keys.order| && keys.order[i] == k;
      }
    }
  }

  /** Why `main` stopped with an exception. */
  datatype MainError =
    | KeyLoad(load: LoadError)
    | NoResults
    | ReportLoop(failure: Failure)
    | MapFailed(summary: SummaryError)

  /** What `main` ends with. */
  datatype Outcome =
    | FetchFailed(status: int)
    | Aborted(error: MainError)
    | Reported(ordered: seq<Location>, summary: LocationSummary.Summary, found: set<string>, missing: seq<string>)

  /** `missing` for the loaded key tables. Their `order` lists only keys of `names`
      (LoadedTablesValid), so the `else` branch, which only makes the function total, is never
      taken for tables the loader builds. */
  function MissingOf(keys: KeyTables, found: set<string>): seq<string>
  {
    if forall i :: 0 <= i < |keys.order| ==> keys.order[i] in keys.names then
      Missing(keys.names, keys.order, found)
    else []
  }

  /** The part of `main` after a completed loop: the commit, the sort, the map step and the
      missing list. */
  function Conclude(keys: KeyTables, b: Batch): (map<RowKey, Row>, Outcome)
  {
    var ordered := SortByTimestamp(b.ordered);
    match ProcessLocationData(ordered)
    case Err(e) => (b.table, Aborted(MapFailed(e)))
    case Ok(summary) => (b.table, Reported(ordered, summary, b.found, MissingOf(keys, b.found)))
  }

  /** The search environment of `main`: the window start, the loaded tables, a fresh connection. */
  function MainEnv(p: Primitives, now: int, hours: int, keys: KeyTables): Env
  {
    Env(p, Startdate(now, hours), keys.privkeys, keys.names, true)
  }

  /** What `main` does, against the stored `reports` table `db`: the table afterwards and the
      outcome. The table changes only through the commit after a completed loop; the map step
      runs after that commit. */
  function MainSpec(p: Primitives, prefix: string, files: seq<KeyFile>, now: int, hours: int,
                    response: Response, db: map<RowKey, Row>): (map<RowKey, Row>, Outcome)
  {
    match LoadSpec(prefix, files)
    case Err(e) => (db, Aborted(KeyLoad(e)))
    case Ok(loaded) =>
      if response.status != 200 then (db, FetchFailed(response.status))
      else if response.results.None? then (db, Aborted(NoResults))
      else
        var run := Run(MainEnv(p, now, hours, loaded.keys), response.results.value, Start(db));
        if run.failure.Some? then (db, Aborted(ReportLoop(run.failure.value)))
        else Conclude(loaded.keys, run.batch)
  }

  /** `main`. The clock and the HTTP exchange are parameters: `now` is the current time and
      `response` the reply to `request`. */
  method RunMain(p: Primitives, prefix: string, files: seq<KeyFile>, now: int, hours: int,
              response: Response, db: map<RowKey, Row>)
    returns (request: Option<SearchRequest>, stored: map<RowKey, Row>, outcome: Outcome)
    ensures (stored, outcome) == MainSpec(p, prefix, files, now, hours, response, db)
    ensures request.Some? <==> LoadSpec(prefix, files).Ok?
    ensures request.Some? ==> request.value == FetchRequest(now, hours, LoadSpec(prefix, files).value.keys)
  {
    stored := db;
    var loaded := LoadKeyFiles(prefix, files);
    if loaded.Err? {
      return None, stored, Aborted(KeyLoad(loaded.error));
    }
    var keys := loaded.value.keys;
    var startdate := Startdate(now, hours);
    request := Some(SearchRequest(startdate * 1000, now * 1000, keys.order));
    if response.status != 200 {
      return request, stored, FetchFailed(response.status);
    }
    if response.results.None? {
      return request, stored, Aborted(NoResults);
    }
    var env := MainEnv(p, now, hours, keys);
    var run := ProcessReports(env, response.results.value, db);
    if run.failure.Some? {
      return request, stored, Aborted(ReportLoop(run.failure.value));
    }
    stored := run.batch.table;
    var ordered := run.batch.ordered;
    ordered := SortByTimestamp(ordered);
    var summary := ProcessLocationData(ordered);
    if summary.Err? {
      return request, stored, Aborted(MapFailed(summary.error));
    }
    var missing := MissingOf(keys, run.batch.found);
    outcome := Reported(ordered, summary.value, run.batch.found, missing);
  }

  /** After a completed loop, a report outcome holds the decoded entries of the in-window
      reports in time order with ties in arrival order, summarised over at least two of them. */
  lemma {:induction false} ConcludedOrder(env: Env, reports: seq<Report>, db: map<RowKey, Row>, keys: KeyTables)
    requires Run(env, reports, Start(db)).failure.None?
    requires Conclude(keys, Run(env, reports, Start(db)).batch).1.Reported?
    ensures var b := Run(env, reports, Start(db)).batch;
      var o := Conclude(keys, b).1;
      && SortedByTime(o.ordered)
      && multiset(o.ordered) == multiset(b.ordered)
      && (forall t :: WithTime(o.ordered, t) == WithTime(b.ordered, t))
      && (forall l :: l in o.ordered ==> l.timestamp >= env.startdate)
      && |o.ordered| >= 2
      && b.ordered == Accepted(env, reports)
  {
    var b := Run(env, reports, Start(db)).batch;
    CompletedRunDecodes(env, reports, db);
    var ordered := SortByTimestamp(b.ordered);
    SortByTimestampCorrect(b.ordered);
    CompletedRun(env, reports, db);
    forall l | l in ordered ensures l.timestamp >= env.startdate {
      assert l in multiset(ordered);
      assert l in multiset(b.ordered);
    }
  }

  /** The names `main` reports as missing, for tables that list every key once. */
  lemma MissingOfPartition(keys: KeyTables, found: set<string>)
    requires Valid(keys) && found <= keys.names.Values
    ensures var m := MissingOf(keys, found);
      && (forall n :: n in m <==> n in keys.names.Values && n !in found)
      && found + (set n | n in m) == keys.names.Values
  {
    assert forall i :: 0 <= i < |keys.order| ==> keys.order[i] in keys.names;
    MissingPartition(keys, found);
  }

  /** A report outcome carries the batch's `found` and the names missing from it. */
  lemma ConcludeFields(keys: KeyTables, b: Batch)
    requires Conclude(keys, b).1.Reported?
    ensures Conclude(keys, b).1.found == b.found && Conclude(keys, b).1.missing == MissingOf(keys, b.found)
  {
  }

  /** After a completed loop, a report outcome splits the device names into found and missing. */
  lemma ConcludedPartition(env: Env, reports: seq<Report>, db: map<RowKey, Row>, keys: KeyTables)
    requires Valid(keys) && env.names == keys.names
    requires Conclude(keys, Run(env, reports, Start(db)).batch).1.Reported?
    ensures var b := Run(env, reports, Start(db)).batch;
      var o := Conclude(keys, b).1;
      && o.found == b.found
      && (forall n :: n in o.missing <==> n in keys.names.Values && n !in o.found)
      && o.found + (set n | n in o.missing) == keys.names.Values
  {
    var b := Run(env, reports, Start(db)).batch;
    FoundAreKnownNames(env, reports, db);
    ConcludeFields(keys, b);
    MissingOfPartition(keys, b.found);
  }

  /** `main` reports only after status 200, a `results` list and a completed loop, and then its
      outcome is the one the loop's batch concludes to. */
  lemma ReportedOutcome(p: Primitives, prefix: string, files: seq<KeyFile>, now: int, hours: int,
                        response: Response, db: map<RowKey, Row>)
    requires MainSpec(p, prefix, files, now, hours, response, db).1.Reported?
    ensures LoadSpec(prefix, files).Ok? && response.status == 200 && response.results.Some?
    ensures var keys := LoadSpec(prefix, files).value.keys;
      var run := Run(MainEnv(p, now, hours, keys), response.results.value, Start(db));
      && Valid(keys)
      && run.failure.None?
      && MainSpec(p, prefix, files, now, hours, response, db) == Conclude(keys, run.batch)
  {
    LoadedTablesValid(prefix, files);
  }

  /** The stored table changes only when the whole report loop completed, and then it is the
      loop's table: an exception in the loop leaves the database as it was. Conversely a
      completed loop's table is stored whatever the map step that follows returns. */
  lemma StoredOnlyAfterCompletedLoop(p: Primitives, prefix: string, files: seq<KeyFile>, now: int, hours: int,
                                     response: Response, db: map<RowKey, Row>)
    ensures var stored := MainSpec(p, prefix, files, now, hours, response, db).0;
      stored != db ==>
      && LoadSpec(prefix, files).Ok? && response.status == 200 && response.results.Some?
      && var keys := LoadSpec(prefix, files).value.keys;
      && var run := Run(MainEnv(p, now, hours, keys), response.results.value, Start(db));
      && run.failure.None? && stored == run.batch.table
    ensures var stored := MainSpec(p, prefix, files, now, hours, response, db).0;
      LoadSpec(prefix, files).Ok? && response.status == 200 && response.results.Some? ==>
      var keys := LoadSpec(prefix, files).value.keys;
      var run := Run(MainEnv(p, now, hours, keys), response.results.value, Start(db));
      run.failure.None? ==> stored == run.batch.table
  {
  }
}
