/** The batch loop of `process_reports` (both copies): the time-window filter, the `ordered`
    list, the `found` set and the `reports` table written with INSERT OR REPLACE, plus the
    ascending sort by timestamp that follows it. */
module ReportAggregator {
  import opened Bytes
  import opened Wrappers
  import opened Crypto
  import opened ReportDecoder

  /** One element of the fetched `results` list; `id` and `payload` are base64 text. */
  datatype Report = Report(id: string, payload: string, datePublished: int, statusCode: int)

  /** One entry of `ordered`: the decoded tag with its time and the device name (`key`). */
  datatype Location = Location(lat: Int32, lon: Int32, conf: Byte, status: Byte, timestamp: int, key: string)

  /** The primary key `(id_short, timestamp)` of the `reports` table and the rest of a row. */
  type RowKey = (string, int)
  datatype Row = Row(datePublished: int, payload: string, id: string, statusCode: int, lat: Int32, lon: Int32, conf: Byte)

  function KeyOf(l: Location): RowKey
  {
    (l.key, l.timestamp)
  }

  /** What the loop has built so far. */
  datatype Batch = Batch(ordered: seq<Location>, found: set<string>, table: map<RowKey, Row>)

  function Start(table: map<RowKey, Row>): Batch
  {
    Batch([], {}, table)
  }

  /** The exceptions that end the loop: a KeyError on an unknown id, a base64 error, a failed
      decryption, or an insert into a closed database. */
  datatype Failure = UnknownId(id: string) | NotBase64(text: string) | Undecodable(id: string, reason: DecodeError) | DatabaseClosed

  /** The loop's inputs besides the reports. */
  datatype Env = Env(p: Primitives, startdate: int, privkeys: map<string, string>, names: map<string, string>, dbOpen: bool)

  /** The report's id is known and both of its base64 fields decode. */
  predicate Readable(env: Env, r: Report)
  {
    && r.id in env.privkeys
    && env.p.base64Decode(env.privkeys[r.id]).Some?
    && env.p.base64Decode(r.payload).Some?
  }

  /** The report is readable and its time is not before `startdate`. */
  predicate InWindow(env: Env, r: Report)
  {
    Readable(env, r) && Timestamp(env.p.base64Decode(r.payload).value) >= env.startdate
  }

  /** The decryption of a readable report under its device's private key. */
  function DecodeReport(env: Env, r: Report): Result<Tag, DecodeError>
    requires Readable(env, r)
  {
    Decode(env.p, BigEndian(env.p.base64Decode(env.privkeys[r.id]).value), env.p.base64Decode(r.payload).value)
  }

  /** The entry `ordered.append` adds for an in-window report of a named device that decodes to `t`. */
  function EntryOf(env: Env, r: Report, t: Tag): Location
    requires InWindow(env, r) && r.id in env.names
  {
    Location(t.lat, t.lon, t.conf, t.status, Timestamp(env.p.base64Decode(r.payload).value), env.names[r.id])
  }

  /** One pass of the loop body. */
  function Step(env: Env, b: Batch, r: Report): (res: Result<Batch, Failure>)
    ensures r.id !in env.privkeys ==> res == Err(UnknownId(r.id))
    ensures r.id in env.privkeys && env.p.base64Decode(env.privkeys[r.id]).None? ==>
      res == Err(NotBase64(env.privkeys[r.id]))
    ensures r.id in env.privkeys && env.p.base64Decode(env.privkeys[r.id]).Some? && env.p.base64Decode(r.payload).None? ==>
      res == Err(NotBase64(r.payload))
    ensures Readable(env, r) && !InWindow(env, r) ==> res == Ok(b)
    ensures res.Ok? && !InWindow(env, r) ==> res.value == b
    ensures res.Ok? && InWindow(env, r) ==>
      var data := env.p.base64Decode(r.payload).value;
      && r.id in env.names
      && |res.value.ordered| == |b.ordered| + 1 && res.value.ordered[..|b.ordered|] == b.ordered
      && var l := res.value.ordered[|b.ordered|];
      && l.key == env.names[r.id] && l.timestamp == Timestamp(data)
      && res.value.found == b.found + {l.key}
      && res.value.table == b.table[KeyOf(l) := Row(r.datePublished, r.payload, r.id, r.statusCode, l.lat, l.lon, l.conf)]
    ensures !env.dbOpen && InWindow(env, r) ==> res.Err?
    ensures InWindow(env, r) ==>
      match DecodeReport(env, r)
      case Err(e) => res == Err(Undecodable(r.id, e))
      case Ok(t) =>
        && (r.id !in env.names ==> res == Err(UnknownId(r.id)))
        && (r.id in env.names && !env.dbOpen ==> res == Err(DatabaseClosed))
        && (r.id in env.names && env.dbOpen ==> res.Ok? && res.value.ordered[|b.ordered|] == EntryOf(env, r, t))
  {
    if r.id !in env.privkeys then Err(UnknownId(r.id))
    else
      match env.p.base64Decode(env.privkeys[r.id])
      case None => Err(NotBase64(env.privkeys[r.id]))
      case Some(privBytes) =>
        match env.p.base64Decode(r.payload)
        case None => Err(NotBase64(r.payload))
        case Some(data) =>
          var timestamp := Timestamp(data);
          if timestamp < env.startdate then Ok(b)
          else
            match Decode(env.p, BigEndian(privBytes), data)
            case Err(e) => Err(Undecodable(r.id, e))
            case Ok(tag) =>
              if r.id !in env.names then Err(UnknownId(r.id))
              else if !env.dbOpen then Err(DatabaseClosed)
              else
                var name := env.names[r.id];
                var l := Location(tag.lat, tag.lon, tag.conf, tag.status, timestamp, name);
                Ok(Batch(b.ordered + [l], b.found + {name},
                  b.table[(name, timestamp) := Row(r.datePublished, r.payload, r.id, r.statusCode, tag.lat, tag.lon, tag.conf)]))
  }

  /** Where the loop stands: the batch built so far and the exception that stopped it, if any. */
  datatype Progress = Progress(batch: Batch, failure: Option<Failure>)

  /** The loop over `reports` from `b0`, stopping at the first exception. */
  function Run(env: Env, reports: seq<Report>, b0: Batch): Progress
  {
    if reports == [] then Progress(b0, None)
    else
      var prev := Run(env, reports[..|reports| - 1], b0);
      if prev.failure.Some? then prev
      else
        match Step(env, prev.batch, reports[|reports| - 1])
        case Err(e) => Progress(prev.batch, Some(e))
        case Ok(b) => Progress(b, None)
  }

  lemma {:induction false} RunStopSticks(env: Env, reports: seq<Report>, b0: Batch, i: nat)
    requires i <= |reports| && Run(env, reports[..i], b0).failure.Some?
    ensures Run(env, reports, b0) == Run(env, reports[..i], b0)
  {
    if i < |reports| {
      var init := reports[..|reports| - 1];
      assert init[..i] == reports[..i];
      RunStopSticks(env, init, b0, i);
    } else {
      assert reports[..i] == reports;
    }
  }

  /** Running one more report. */
  lemma RunSnoc(env: Env, reports: seq<Report>, b0: Batch, i: nat)
    requires i < |reports|
    ensures Run(env, reports[..i + 1], b0) ==
      var prev := Run(env, reports[..i], b0);
      if prev.failure.Some? then prev
      else
        match Step(env, prev.batch, reports[i])
        case Err(e) => Progress(prev.batch, Some(e))
        case Ok(b) => Progress(b, None)
  {
    assert reports[..i + 1][..i] == reports[..i];
  }

  /** The body of the `for report in res` loop: the lookups and decodings, the window test,
      the decryption, then `found.add`, `ordered.append` and the INSERT OR REPLACE. */
  method ProcessReport(env: Env, ordered: seq<Location>, found: set<string>, rows: map<RowKey, Row>, report: Report)
    returns (failure: Option<Failure>, ordered': seq<Location>, found': set<string>, rows': map<RowKey, Row>)
    ensures match Step(env, Batch(ordered, found, rows), report)
      case Err(e) => failure == Some(e) && ordered' == ordered && found' == found && rows' == rows
      case Ok(b) => failure.None? && Batch(ordered', found', rows') == b
  {
    failure, ordered', found', rows' := None, ordered, found, rows;
    if report.id !in env.privkeys {
      return Some(UnknownId(report.id)), ordered, found, rows;
    }
    var privBytes := env.p.base64Decode(env.privkeys[report.id]);
    if privBytes.None? {
      return Some(NotBase64(env.privkeys[report.id])), ordered, found, rows;
    }
    var priv := BigEndian(privBytes.value);
    var data := env.p.base64Decode(report.payload);
    if data.None? {
      return Some(NotBase64(report.payload)), ordered, found, rows;
    }
    var timestamp := Timestamp(data.value);
    if timestamp >= env.startdate {
      var tag := Decode(env.p, priv, data.value);
      if tag.Err? {
        return Some(Undecodable(report.id, tag.error)), ordered, found, rows;
      }
      if report.id !in env.names {
        return Some(UnknownId(report.id)), ordered, found, rows;
      }
      var name := env.names[report.id];
      var l := Location(tag.value.lat, tag.value.lon, tag.value.conf, tag.value.status, timestamp, name);
      if !env.dbOpen {
        return Some(DatabaseClosed), ordered, found, rows;
      }
      found' := found + {name};
      ordered' := ordered + [l];
      rows' := rows[(name, timestamp) := Row(report.datePublished, report.payload, report.id, report.statusCode, l.lat, l.lon, l.conf)];
    }
  }

  /** The `for report in res` loop. The cursor's table starts as `table`; on an exception the
      rows inserted before it stay in the returned batch. */
  method ProcessReports(env: Env, reports: seq<Report>, table: map<RowKey, Row>) returns (pr: Progress)
    ensures pr == Run(env, reports, Start(table))
  {
    var ordered: seq<Location>, found: set<string>, rows := [], {}, table;
    var i := 0;
    while i < |reports|
      invariant 0 <= i <= |reports|
      invariant Run(env, reports[..i], Start(table)) == Progress(Batch(ordered, found, rows), None)
    {
      RunSnoc(env, reports, Start(table), i);
      var failure;
      failure, ordered, found, rows := ProcessReport(env, ordered, found, rows, reports[i]);
      if failure.Some? {
        RunStopSticks(env, reports, Start(table), i + 1);
        return Progress(Batch(ordered, found, rows), failure);
      }
      i := i + 1;
    }
    assert reports[..i] == reports;
    return Progress(Batch(ordered, found, rows), None);
  }

  /** The device names that occur in a list of locations. */
  function KeysOf(s: seq<Location>): set<string>
  {
    set l | l in s :: l.key
  }

  /** `found` is exactly the set of names in `ordered`, whether or not the loop stopped early. */
  lemma {:induction false} FoundIsKeysOfOrdered(env: Env, reports: seq<Report>, table: map<RowKey, Row>)
    ensures var b := Run(env, reports, Start(table)).batch; b.found == KeysOf(b.ordered)
  {
    if reports != [] {
      var init := reports[..|reports| - 1];
      FoundIsKeysOfOrdered(env, init, table);
      var prev := Run(env, init, Start(table));
      if prev.failure.None? {
        var step := Step(env, prev.batch, reports[|reports| - 1]);
        if step.Ok? && InWindow(env, reports[|reports| - 1]) {
          var l := step.value.ordered[|prev.batch.ordered|];
          assert step.value.ordered == prev.batch.ordered + [l];
          KeysOfAppend(prev.batch.ordered, l);
        }
      }
    }
  }

  lemma KeysOfAppend(s: seq<Location>, l: Location)
    ensures KeysOf(s + [l]) == KeysOf(s) + {l.key}
  {
    assert forall x :: x in s + [l] <==> x in s || x == l;
  }

  /** Every name in `found` is a device name of the key store. */
  lemma {:induction false} FoundAreKnownNames(env: Env, reports: seq<Report>, table: map<RowKey, Row>)
    ensures Run(env, reports, Start(table)).batch.found <= env.names.Values
  {
    if reports != [] {
      var init := reports[..|reports| - 1];
      FoundAreKnownNames(env, init, table);
    }
  }

  /** The number of reports in a list that are inside the window. */
  function InWindowCount(env: Env, reports: seq<Report>): nat
  {
    if reports == [] then 0
    else InWindowCount(env, reports[..|reports| - 1]) + (if InWindow(env, reports[|reports| - 1]) then 1 else 0)
  }

  /** When the loop runs to the end, every report had a known id and base64 key and payload, `ordered` holds one entry per
      in-window report, and every entry lies in the window. */
  lemma {:induction false} CompletedRun(env: Env, reports: seq<Report>, table: map<RowKey, Row>)
    requires Run(env, reports, Start(table)).failure.None?
    ensures forall i :: 0 <= i < |reports| ==> Readable(env, reports[i])
    ensures |Run(env, reports, Start(table)).batch.ordered| == InWindowCount(env, reports)
    ensures forall l :: l in Run(env, reports, Start(table)).batch.ordered ==> l.timestamp >= env.startdate
  {
    if reports != [] {
      var init := reports[..|reports| - 1];
      var r := reports[|reports| - 1];
      assert forall i :: 0 <= i < |init| ==> init[i] == reports[i];
      CompletedRun(env, init, table);
      var prev := Run(env, init, Start(table));
      assert prev.failure.None?;
      var step := Step(env, prev.batch, r);
      assert step.Ok? && Run(env, reports, Start(table)).batch == step.value;
      if InWindow(env, r) {
        var l := step.value.ordered[|prev.batch.ordered|];
        assert step.value.ordered == prev.batch.ordered + [l];
        assert l.timestamp >= env.startdate;
      } else {
        assert step.value == prev.batch;
      }
    }
  }

  /** The entries a completed loop appends: one per in-window report of a named device that
      decodes, built from its decoded tag, in report order. */
  function Accepted(env: Env, reports: seq<Report>): seq<Location>
  {
    if reports == [] then []
    else
      var r := reports[|reports| - 1];
      Accepted(env, reports[..|reports| - 1]) +
        (if InWindow(env, r) && r.id in env.names && DecodeReport(env, r).Ok?
         then [EntryOf(env, r, DecodeReport(env, r).value)] else [])
  }

  /** When the loop runs to the end, every in-window report was decrypted and decoded, had a
      device name and met an open database, and `ordered` is exactly their decoded entries. */
  lemma {:induction false} CompletedRunDecodes(env: Env, reports: seq<Report>, table: map<RowKey, Row>)
    requires Run(env, reports, Start(table)).failure.None?
    ensures forall i :: 0 <= i < |reports| && InWindow(env, reports[i]) ==>
      env.dbOpen && reports[i].id in env.names && DecodeReport(env, reports[i]).Ok?
    ensures Run(env, reports, Start(table)).batch.ordered == Accepted(env, reports)
  {
    if reports != [] {
      var init := reports[..|reports| - 1];
      var r := reports[|reports| - 1];
      assert forall i :: 0 <= i < |init| ==> init[i] == reports[i];
      CompletedRunDecodes(env, init, table);
      var prev := Run(env, init, Start(table));
      assert prev.failure.None?;
      var step := Step(env, prev.batch, r);
      assert step.Ok? && Run(env, reports, Start(table)).batch == step.value;
      if InWindow(env, r) {
        assert env.dbOpen && r.id in env.names && DecodeReport(env, r).Ok?;
        var l := step.value.ordered[|prev.batch.ordered|];
        assert step.value.ordered == prev.batch.ordered + [l];
      } else {
        assert step.value == prev.batch;
      }
    }
  }

  /** After a completed loop, the row under each key written holds the decoded coordinates and
      confidence of the last in-window report with that (name, time); other old rows stay. */
  lemma CompletedRunRows(env: Env, reports: seq<Report>, table: map<RowKey, Row>)
    requires Run(env, reports, Start(table)).failure.None?
    ensures var b := Run(env, reports, Start(table)).batch;
      && LastRowsIn(Accepted(env, reports), b.table)
      && RowsKept(table, Accepted(env, reports), b.table)
  {
    CompletedRunDecodes(env, reports, table);
    TableLastWriteWins(env, reports, table);
  }

  /** The report is in the window, has a device name and decodes: the loop accepts it. */
  predicate AcceptedReport(env: Env, r: Report)
  {
    InWindow(env, r) && r.id in env.names && DecodeReport(env, r).Ok?
  }

  /** The table key `(name, timestamp)` an accepted report is written under. */
  function ReportKey(env: Env, r: Report): RowKey
    requires AcceptedReport(env, r)
  {
    KeyOf(EntryOf(env, r, DecodeReport(env, r).value))
  }

  /** The whole row INSERT OR REPLACE writes for an accepted report. */
  function ReportRow(env: Env, r: Report): Row
    requires AcceptedReport(env, r)
  {
    var t := DecodeReport(env, r).value;
    Row(r.datePublished, r.payload, r.id, r.statusCode, t.lat, t.lon, t.conf)
  }

  /** Report `i` is accepted and no later accepted report has its key. */
  predicate LastAccepted(env: Env, reports: seq<Report>, i: int)
  {
    && 0 <= i < |reports| && AcceptedReport(env, reports[i])
    && forall j :: i < j < |reports| && AcceptedReport(env, reports[j]) ==> ReportKey(env, reports[j]) != ReportKey(env, reports[i])
  }

  /** Every key's row is the full row of the last accepted report with that key. */
  ghost predicate LastReportRows(env: Env, reports: seq<Report>, t: map<RowKey, Row>)
  {
    forall i :: LastAccepted(env, reports, i) ==> ReportKey(env, reports[i]) in t && t[ReportKey(env, reports[i])] == ReportRow(env, reports[i])
  }

  lemma LastAcceptedInit(env: Env, reports: seq<Report>, i: int)
    requires reports != [] && LastAccepted(env, reports, i) && i < |reports| - 1
    ensures LastAccepted(env, reports[..|reports| - 1], i)
  {
    var init := reports[..|reports| - 1];
    assert forall j :: 0 <= j < |init| ==> init[j] == reports[j];
  }

  /** After a completed loop, the row under the key of each report that no later report
      overwrites is exactly that report's row: its publication date, payload, id, status code
      and decoded coordinates and confidence. */
  lemma {:induction false} CompletedRunReportRows(env: Env, reports: seq<Report>, table: map<RowKey, Row>)
    requires Run(env, reports, Start(table)).failure.None?
    ensures LastReportRows(env, reports, Run(env, reports, Start(table)).batch.table)
  {
    if reports != [] {
      var n := |reports|;
      var init := reports[..n - 1];
      var r := reports[n - 1];
      var prev := Run(env, init, Start(table));
      assert prev.failure.None?;
      CompletedRunReportRows(env, init, table);
      CompletedRunDecodes(env, reports, table);
      var step := Step(env, prev.batch, r);
      var t := Run(env, reports, Start(table)).batch.table;
      assert step.Ok? && t == step.value.table;
      forall i | LastAccepted(env, reports, i)
        ensures ReportKey(env, reports[i]) in t && t[ReportKey(env, reports[i])] == ReportRow(env, reports[i])
      {
        if AcceptedReport(env, r) {
          var l := step.value.ordered[|prev.batch.ordered|];
          assert l == EntryOf(env, r, DecodeReport(env, r).value);
          assert t == prev.batch.table[ReportKey(env, r) := ReportRow(env, r)];
          if i < n - 1 {
            LastAcceptedInit(env, reports, i);
          }
        } else {
          assert !InWindow(env, r);
          assert t == prev.batch.table;
          if i < n - 1 {
            LastAcceptedInit(env, reports, i);
          }
        }
      }
    }
  }

  /** Entry `i` is the last one in `s` with its table key. */
  predicate LastOfKey(s: seq<Location>, i: int)
  {
    0 <= i < |s| && forall j :: i < j < |s| ==> KeyOf(s[j]) != KeyOf(s[i])
  }

  /** The row stored for an entry carries that entry's coordinates and confidence. */
  predicate RowOf(row: Row, l: Location)
  {
    row.lat == l.lat && row.lon == l.lon && row.conf == l.conf
  }

  /** The table keys of the entries of `s`. */
  function RowKeys(s: seq<Location>): set<RowKey>
  {
    set l | l in s :: KeyOf(l)
  }

  lemma RowKeysAppend(s: seq<Location>, l: Location)
    ensures RowKeys(s + [l]) == RowKeys(s) + {KeyOf(l)}
  {
    assert forall x :: x in s + [l] <==> x in s || x == l;
  }

  /** Every entry that is the last with its key has its row in `t`. */
  ghost predicate LastRowsIn(s: seq<Location>, t: map<RowKey, Row>)
  {
    forall i :: LastOfKey(s, i) ==> KeyOf(s[i]) in t && RowOf(t[KeyOf(s[i])], s[i])
  }

  /** Appending one entry and writing its row keeps the last rows in the table. */
  lemma LastRowsAppend(s: seq<Location>, t: map<RowKey, Row>, l: Location, row: Row)
    requires LastRowsIn(s, t) && RowOf(row, l)
    ensures LastRowsIn(s + [l], t[KeyOf(l) := row])
  {
    var s' := s + [l];
    forall i | LastOfKey(s', i)
      ensures KeyOf(s'[i]) in t[KeyOf(l) := row] && RowOf(t[KeyOf(l) := row][KeyOf(s'[i])], s'[i])
    {
      if i < |s| {
        assert s'[i] == s[i];
        assert KeyOf(s[i]) != KeyOf(l) by {
          assert s'[|s|] == l;
        }
        assert LastOfKey(s, i) by {
          forall j | i < j < |s| ensures KeyOf(s[j]) != KeyOf(s[i]) {
            assert s'[j] == s[j];
          }
        }
      }
    }
  }

  /** A row of `table0` that no entry of `s` overwrites is still in `t`, unchanged. */
  ghost predicate RowsKept(table0: map<RowKey, Row>, s: seq<Location>, t: map<RowKey, Row>)
  {
    forall k :: k in table0 && k !in RowKeys(s) ==> k in t && t[k] == table0[k]
  }

  lemma RowsKeptAppend(table0: map<RowKey, Row>, s: seq<Location>, t: map<RowKey, Row>, l: Location, row: Row)
    requires RowsKept(table0, s, t)
    ensures RowsKept(table0, s + [l], t[KeyOf(l) := row])
  {
    RowKeysAppend(s, l);
  }

  /** INSERT OR REPLACE: the table's keys are the old keys plus one per entry of `ordered`, and
      the row under each key comes from the last entry with that key, and every other old row
      stays as it was; this holds also when the loop stopped early. */
  lemma {:induction false} TableLastWriteWins(env: Env, reports: seq<Report>, table: map<RowKey, Row>)
    ensures var b := Run(env, reports, Start(table)).batch;
      && b.table.Keys == table.Keys + RowKeys(b.ordered) && LastRowsIn(b.ordered, b.table)
      && RowsKept(table, b.ordered, b.table)
  {
    if reports != [] {
      var init := reports[..|reports| - 1];
      var r := reports[|reports| - 1];
      TableLastWriteWins(env, init, table);
      var prev := Run(env, init, Start(table));
      if prev.failure.None? {
        var step := Step(env, prev.batch, r);
        if step.Ok? && InWindow(env, r) {
          var l := step.value.ordered[|prev.batch.ordered|];
          var row := Row(r.datePublished, r.payload, r.id, r.statusCode, l.lat, l.lon, l.conf);
          assert step.value.ordered == prev.batch.ordered + [l];
          LastRowsAppend(prev.batch.ordered, prev.batch.table, l, row);
          RowKeysAppend(prev.batch.ordered, l);
          RowsKeptAppend(table, prev.batch.ordered, prev.batch.table, l, row);
        }
      }
    }
  }

  /** Once the database is closed, the loop adds nothing: the first in-window report raises. */
  lemma {:induction false} ClosedDatabaseAddsNothing(env: Env, reports: seq<Report>, table: map<RowKey, Row>)
    requires !env.dbOpen
    ensures Run(env, reports, Start(table)).batch == Start(table)
  {
    if reports != [] {
      ClosedDatabaseAddsNothing(env, reports[..|reports| - 1], table);
    }
  }

  /** The ascending order of `ordered.sort(key=timestamp)` and `sorted(..., key=timestamp)`. */
  ghost predicate SortedByTime(s: seq<Location>)
  {
    forall i, j :: 0 <= i < j < |s| ==> s[i].timestamp <= s[j].timestamp
  }

  /** The entries of `s` with time `t`, in their order in `s`. */
  function WithTime(s: seq<Location>, t: int): seq<Location>
  {
    if s == [] then [] else (if s[0].timestamp == t then [s[0]] else []) + WithTime(s[1..], t)
  }

  function InsertByTime(x: Location, s: seq<Location>): seq<Location>
  {
    if s == [] || x.timestamp <= s[0].timestamp then [x] + s else [s[0]] + InsertByTime(x, s[1..])
  }

  /** A stable sort by timestamp, as Python's sort is. */
  function SortByTimestamp(s: seq<Location>): seq<Location>
  {
    if s == [] then [] else InsertByTime(s[0], SortByTimestamp(s[1..]))
  }

  /** Every entry of `s` has a time of at least `lo`. */
  predicate AllAtLeast(s: seq<Location>, lo: int)
  {
    forall i :: 0 <= i < |s| ==> s[i].timestamp >= lo
  }

  lemma {:induction false} InsertByTimeAtLeast(x: Location, s: seq<Location>, lo: int)
    requires x.timestamp >= lo && AllAtLeast(s, lo)
    ensures AllAtLeast(InsertByTime(x, s), lo)
  {
    if s != [] && x.timestamp > s[0].timestamp {
      InsertByTimeAtLeast(x, s[1..], lo);
      var rest := InsertByTime(x, s[1..]);
      assert InsertByTime(x, s) == [s[0]] + rest;
    }
  }

  lemma {:induction false} InsertByTimeSorted(x: Location, s: seq<Location>)
    requires SortedByTime(s)
    ensures SortedByTime(InsertByTime(x, s))
  {
    if s != [] && x.timestamp > s[0].timestamp {
      var tail := s[1..];
      var rest := InsertByTime(x, tail);
      assert SortedByTime(tail);
      InsertByTimeSorted(x, tail);
      assert AllAtLeast(tail, s[0].timestamp);
      InsertByTimeAtLeast(x, tail, s[0].timestamp);
      var r := [s[0]] + rest;
      assert InsertByTime(x, s) == r;
      forall i, j | 0 <= i < j < |r| ensures r[i].timestamp <= r[j].timestamp {
        assert r[j] == rest[j - 1];
        if i > 0 {
          assert r[i] == rest[i - 1];
        }
      }
    }
  }

  lemma {:induction false} InsertByTimePermutes(x: Location, s: seq<Location>)
    ensures multiset(InsertByTime(x, s)) == multiset(s) + multiset{x}
  {
    if s != [] && x.timestamp > s[0].timestamp {
      InsertByTimePermutes(x, s[1..]);
      assert s == [s[0]] + s[1..];
    }
  }

  function TimeMatch(y: Location, t: int): seq<Location>
  {
    if y.timestamp == t then [y] else []
  }

  lemma WithTimeCons(y: Location, s: seq<Location>, t: int)
    ensures WithTime([y] + s, t) == TimeMatch(y, t) + WithTime(s, t)
  {
    assert ([y] + s)[1..] == s;
  }

  lemma {:induction false} InsertByTimeKeepsTies(x: Location, s: seq<Location>, t: int)
    ensures WithTime(InsertByTime(x, s), t) == TimeMatch(x, t) + WithTime(s, t)
  {
    if s != [] && x.timestamp > s[0].timestamp {
      InsertByTimeKeepsTies(x, s[1..], t);
      WithTimeCons(s[0], InsertByTime(x, s[1..]), t);
      WithTimeCons(s[0], s[1..], t);
      assert s == [s[0]] + s[1..];
      assert TimeMatch(s[0], t) == [] || TimeMatch(x, t) == [];
    } else {
      WithTimeCons(x, s, t);
    }
  }

  /** Sorting yields a sequence in ascending time order that is a permutation of its input and
      keeps entries with equal times in their input order. */
  lemma {:induction false} SortByTimestampCorrect(s: seq<Location>)
    ensures SortedByTime(SortByTimestamp(s))
    ensures multiset(SortByTimestamp(s)) == multiset(s)
    ensures forall t :: WithTime(SortByTimestamp(s), t) == WithTime(s, t)
  {
    if s != [] {
      var rest := SortByTimestamp(s[1..]);
      SortByTimestampCorrect(s[1..]);
      InsertByTimeSorted(s[0], rest);
      InsertByTimePermutes(s[0], rest);
      assert s == [s[0]] + s[1..];
      assert multiset(s) == multiset(s[1..]) + multiset{s[0]};
      forall t ensures WithTime(SortByTimestamp(s), t) == WithTime(s, t) {
        InsertByTimeKeepsTies(s[0], rest, t);
        WithTimeCons(s[0], s[1..], t);
      }
    }
  }
}
