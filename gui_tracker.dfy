/** The state the desktop tracker keeps between button presses: the key tables read at start-up
    and one database connection, whose uncommitted inserts stay pending until a commit. */
module GuiTracker {
  import opened Wrappers
  import opened Crypto
  import KeyStore
  import opened ReportAggregator
  import opened LocationSummary
  import opened RequestReportMap

  /** How one press of "update reports" ends. */
  datatype UpdateOutcome =
    | NoReports
    | LoopFailed(failure: Failure)
    | MapFailed(error: SummaryError)
    | CommitFailed  // `commit()` on a closed connection; ClosedTrackerIsFrozen shows no update reaches it
    | Shown(summary: LocationSummary.Summary, found: set<string>, used: nat)

  /** The tracker's fields: the key tables, the rows committed to the database file, the rows
      the open connection sees (committed plus pending inserts) and whether it is still open. */
  datatype State = State(keys: KeyStore.KeyTables, committed: map<RowKey, Row>, pending: map<RowKey, Row>, open: bool)

  /** `fetch_reports` after the exchange: the window start and the `results` list, an absent
      `results` key reading as an empty list. */
  datatype Fetched = Fetched(status: int, results: seq<Report>, startdate: int)

  function FetchReports(now: int, hours: int, response: Response): (r: Fetched)
    ensures r.startdate == Startdate(now, hours) && r.status == response.status
    ensures response.results.None? ==> r.results == []
    ensures response.results.Some? ==> r.results == response.results.value
  {
    Fetched(response.status, response.results.GetOr([]), Startdate(now, hours))
  }

  /** The environment of the tracker's report loop. */
  function LoopEnv(p: Primitives, s: State, startdate: int): Env
  {
    Env(p, startdate, s.keys.privkeys, s.keys.names, s.open)
  }

  /** One press of "update reports" (`main`): the new state and the outcome. Each exception is
      caught by the handler, which leaves the state where the exception left it. */
  function UpdateSpec(p: Primitives, now: int, hours: int, response: Response, s: State): (State, UpdateOutcome)
  {
    var f := FetchReports(now, hours, response);
    if f.status == 200 && f.results == [] then (s, NoReports)
    else
      var run := Run(LoopEnv(p, s, f.startdate), f.results, Start(s.pending));
      var s1 := s.(pending := run.batch.table);
      if run.failure.Some? then (s1, LoopFailed(run.failure.value))
      else
        match ProcessLocationData(run.batch.ordered)
        case Err(e) => (s1, UpdateOutcome.MapFailed(e))
        case Ok(summary) =>
          if !s.open then (s1, CommitFailed)
          else (s1.(committed := s1.pending, open := false), Shown(summary, run.batch.found, |run.batch.ordered|))
  }

  class FindMyFlipperUi {
    var keys: KeyStore.KeyTables
    var committed: map<RowKey, Row>
    var pending: map<RowKey, Row>
    var open: bool

    function StateOf(): State
      reads this
    {
      State(keys, committed, pending, open)
    }

    /** The loaded key tables are consistent and the connection never sees fewer rows than
        were committed. */
    ghost predicate Valid()
      reads this
    {
      KeyStore.Valid(keys) && committed.Keys <= pending.Keys
    }

    /** `__init__` after `load_private_keys` and `prepare_database`: the key tables and a fresh
        connection to the stored table `db`. */
    constructor(loaded: KeyStore.KeyTables, db: map<RowKey, Row>)
      requires KeyStore.Valid(loaded)
      ensures Valid()
      ensures StateOf() == State(loaded, db, db, true)
    {
      keys := loaded;
      committed := db;
      pending := db;
      open := true;
    }

    /** `process_reports` through the connection: the loop's inserts reach the pending rows,
        also those made before an exception. */
    method ProcessReports(p: Primitives, res: seq<Report>, startdate: int) returns (pr: Progress)
      requires Valid()
      modifies this`pending
      ensures pr == Run(LoopEnv(p, old(StateOf()), startdate), res, Start(old(pending)))
      ensures pending == pr.batch.table
      ensures Valid()
    {
      var env := LoopEnv(p, StateOf(), startdate);
      pr := ReportAggregator.ProcessReports(env, res, pending);
      TableLastWriteWins(env, res, pending);
      pending := pr.batch.table;
    }

    /** `main`: fetch, process, summarise for the map, then commit and close the connection. */
    method UpdateReports(p: Primitives, now: int, hours: int, response: Response) returns (outcome: UpdateOutcome)
      requires Valid()
      modifies this
      ensures (StateOf(), outcome) == UpdateSpec(p, now, hours, response, old(StateOf()))
      ensures Valid()
    {
      var f := FetchReports(now, hours, response);
      if f.status == 200 && f.results == [] {
        return NoReports;
      }
      var pr := ProcessReports(p, f.results, f.startdate);
      if pr.failure.Some? {
        return LoopFailed(pr.failure.value);
      }
      var mapData := ProcessLocationData(pr.batch.ordered);
      if mapData.Err? {
        return UpdateOutcome.MapFailed(mapData.error);
      }
      if !open {
        return CommitFailed;
      }
      committed := pending;
      open := false;
      return Shown(mapData.value, pr.batch.found, |pr.batch.ordered|);
    }
  }

  /** An update never changes the key tables, and the committed rows change only by a commit of
      everything the connection sees, which also closes it. */
  lemma UpdateCommitsOrKeeps(p: Primitives, now: int, hours: int, response: Response, s: State)
    ensures var (s', o) := UpdateSpec(p, now, hours, response, s);
      && s'.keys == s.keys
      && (o.Shown? <==> s'.committed != s.committed || s'.open != s.open)
      && (o.Shown? ==> s.open && !s'.open && s'.committed == s'.pending)
      && (!o.Shown? ==> s'.committed == s.committed && s'.open == s.open)
  {
  }

  /** A failed loop keeps the rows inserted before the exception pending on the open
      connection; the next commit writes them too. */
  lemma FailedLoopKeepsInserts(p: Primitives, now: int, hours: int, response: Response, s: State)
    requires UpdateSpec(p, now, hours, response, s).1.LoopFailed?
    ensures var f := FetchReports(now, hours, response);
      var run := Run(LoopEnv(p, s, f.startdate), f.results, Start(s.pending));
      UpdateSpec(p, now, hours, response, s).0 == s.(pending := run.batch.table)
  {
  }

  /** A failed map step keeps the completed loop's inserts pending on the open connection,
      uncommitted. */
  lemma MapFailedKeepsInserts(p: Primitives, now: int, hours: int, response: Response, s: State)
    requires UpdateSpec(p, now, hours, response, s).1.MapFailed?
    ensures var f := FetchReports(now, hours, response);
      var run := Run(LoopEnv(p, s, f.startdate), f.results, Start(s.pending));
      var (s', o) := UpdateSpec(p, now, hours, response, s);
      && run.failure.None?
      && ProcessLocationData(run.batch.ordered) == Err(o.error)
      && s' == s.(pending := run.batch.table)
  {
  }

  /** The update returns at once, changing nothing, exactly when the fetch succeeded with no
      reports (an absent `results` key counting as none). */
  lemma NoReportsReturnsEarly(p: Primitives, now: int, hours: int, response: Response, s: State)
    ensures var (s', o) := UpdateSpec(p, now, hours, response, s);
      && (o.NoReports? <==> response.status == 200 && (response.results.None? || response.results.value == []))
      && (o.NoReports? ==> s' == s)
  {
  }

  /** A shown map summarises the decoded entries of the in-window reports of a completed loop,
      at least two of them, all at or after the window start; the loop's table is then
      committed and the connection closed. */
  lemma ShownUpdate(p: Primitives, now: int, hours: int, response: Response, s: State)
    requires UpdateSpec(p, now, hours, response, s).1.Shown?
    ensures var f := FetchReports(now, hours, response);
      var run := Run(LoopEnv(p, s, f.startdate), f.results, Start(s.pending));
      var o := UpdateSpec(p, now, hours, response, s).1;
      && run.failure.None?
      && o.summary == ProcessLocationData(run.batch.ordered).value
      && o.used == |run.batch.ordered| == o.summary.pingCount >= 2
      && o.found == run.batch.found
      && (forall l :: l in run.batch.ordered ==> l.timestamp >= Startdate(now, hours))
      && run.batch.ordered == Accepted(LoopEnv(p, s, f.startdate), f.results)
    ensures var f := FetchReports(now, hours, response);
      var run := Run(LoopEnv(p, s, f.startdate), f.results, Start(s.pending));
      var s' := UpdateSpec(p, now, hours, response, s).0;
      s' == s.(committed := run.batch.table, pending := run.batch.table, open := false)
  {
    var f := FetchReports(now, hours, response);
    CompletedRun(LoopEnv(p, s, f.startdate), f.results, s.pending);
    CompletedRunDecodes(LoopEnv(p, s, f.startdate), f.results, s.pending);
  }

  /** Once a commit has closed the connection, no later update changes anything stored or
      shows a map: the first in-window report raises, and without one there is nothing to
      summarise. */
  lemma ClosedTrackerIsFrozen(p: Primitives, now: int, hours: int, response: Response, s: State)
    requires !s.open
    ensures var (s', o) := UpdateSpec(p, now, hours, response, s);
      s' == s && !o.Shown?
  {
    var f := FetchReports(now, hours, response);
    ClosedDatabaseAddsNothing(LoopEnv(p, s, f.startdate), f.results, s.pending);
  }
}
