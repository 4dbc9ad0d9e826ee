# FindMyFlipper location reports, modelled in Dafny

FindMyFlipper turns a Flipper Zero into a tracking beacon. Its beacon sends encrypted
location reports, and a phone network stores them on the Find My servers. Two Python
front ends on the owner's machine fetch and decrypt these reports:

- `RequestReportMap.py`, a command-line tool;
- `GuiTracker.py`, a desktop window (`FindMyFlipperUi`).

Both load the per-device key files and post a search for the last `hours` hours. They then
decrypt each report with the device's private key, store the decoded fixes in the local
`reports` table and summarise them for a map. The summary code is in `advanced_map_loc.py`
and `FindMyFlipperUi.parseData`.

This project models that pipeline and proves properties of it.

| file | module | models |
|---|---|---|
| `wrappers.dfy` | `Wrappers` | `Option`, `Result` |
| `bytes.dfy` | `Bytes` | Both `int.from_bytes(..., "big")` and `struct.unpack(">i")`, and Python slicing with negative and out-of-range bounds |
| `text.dfy` | `Text` | `str.split`, `rstrip("\n")`, `startswith`/`endswith`, decimal rendering |
| `crypto.dfy` | `Crypto` | ECDH, SHA-256 and AES-GCM as uninterpreted primitives passed in as values, with the laws the model relies on |
| `decoder.dfy` | `ReportDecoder` | The byte layout of a report, the key derivation, authenticated decryption, `decode_tag` |
| `keystore.dfy` | `KeyStore` | `load_key_files` / `load_private_keys` |
| `aggregator.dfy` | `ReportAggregator` | The report loop of `process_reports` and the sort by timestamp |
| `summary.dfy` | `LocationSummary` | `format_time` and `process_location_data` / `parseData` |
| `request_report_map.dfy` | `RequestReportMap` | The window arithmetic, the request, `main` of the command-line tool, the `missing` list |
| `gui_tracker.dfy` | `GuiTracker` | Class `FindMyFlipperUi`: its key tables, its single database connection, `process_reports` and `main` |

The two front ends repeat the same code for five things: `decode_tag`, key-file loading,
the window arithmetic of the fetch, the report loop and `format_time`. Each is modelled once and shared.

Behaviour of the code that the model keeps, including cases where a reader might expect
otherwise:

- A report whose `id` has no private key raises `KeyError` at `RequestReportMap.py:152`,
  which ends the whole batch. See `ReportAggregator.Step` and `ReportAggregator.CompletedRun`.
- A bad point, a failed tag check or a short plaintext raises, and that also ends the
  whole batch; no report after it is processed.
- `ordered` keeps every in-window report, duplicates included. Only the table is keyed by
  `(name, timestamp)`, with INSERT OR REPLACE.
- A key-file line that names a field but has no `": "` raises `IndexError` at
  `RequestReportMap.py:99`/`:101`, which ends the whole load. A file that lacks a field
  is skipped with a warning.
- The map step fails on an empty list and on a one-element list:
  - empty list: `KeyError` on the missing `isodatetime` column at `advanced_map_loc.py:23`,
    which comes before the `df.empty` guard at line 26;
  - one element: the mean of no time differences is NaN, and `int(NaN)` raises in
    `format_time`.

  So a summary exists only for two or more reports.
- The command-line tool commits its rows before the map step (`RequestReportMap.py:202`).
  A map failure therefore ends `main` with the rows already stored and no `missing` list.
- The GUI commits and closes its one connection after the first successful update
  (`GuiTracker.py:97-98`). After that, no update changes any field or shows a map.
- In the GUI, a loop that fails leaves its earlier inserts in the connection's open
  transaction. The next commit writes them. So a batch is not stored all-or-nothing.

Parameters stand in for the outside world:

- `now` is the clock;
- `response` is the HTTP reply, already decoded from JSON;
- `db` is the `reports` table before the run;
- `files` is the listing of the keys directory, in glob order, with each file's lines;
- `Primitives` holds the cryptographic and base64 functions.

## Model

| member | source | states |
|---|---|---|
| Bytes.BigEndian | AirTagGeneration/RequestReportMap.py:152 | `int.from_bytes(s, "big")` is below 256^len(s) |
| Bytes.BigEndianOfUnsignedBytes | AirTagGeneration/RequestReportMap.py:154 | Reading back the `width`-byte big-endian encoding of n < 256^width gives n |
| Bytes.UnsignedBytesOfBigEndian | AirTagGeneration/RequestReportMap.py:154 | Re-encoding the value of a byte string at its own width gives the string back |
| Bytes.Int32BE | AirTagGeneration/RequestReportMap.py:35-36 | `struct.unpack(">i")` of 4 bytes lies in the signed 32-bit range and is negative exactly when the unsigned value is at least 2^31 |
| Bytes.Int32RoundTrip | AirTagGeneration/RequestReportMap.py:35-36 | Decoding the 4-byte two's-complement encoding of a 32-bit value gives that value |
| Bytes.Int32BytesOfRead | AirTagGeneration/RequestReportMap.py:35-36 | Encoding the value read from 4 bytes gives those 4 bytes |
| Bytes.ByteValue | AirTagGeneration/RequestReportMap.py:37-38 | `int.from_bytes` of a slice of at most one byte is that byte, or 0 for an empty slice |
| Bytes.PySlice | AirTagGeneration/RequestReportMap.py:157-170 | A slice with in-range bounds is the ordinary subsequence; any slice is no longer than its source or its bound range |
| Text.Find | AirTagGeneration/RequestReportMap.py:97 | The result is the first index where the separator occurs, or None when it occurs nowhere |
| Text.JoinSplit | AirTagGeneration/RequestReportMap.py:97 | `sep.join(s.split(sep)) == s`: splitting loses nothing |
| Text.SplitPiecesFree | AirTagGeneration/RequestReportMap.py:97 | No piece of a split contains the separator |
| Text.RStripNewlines | AirTagGeneration/RequestReportMap.py:97 | The result is a prefix of the line and does not end in a newline; everything removed is newlines |
| Text.SignedDecimalRoundTrip | AirTagGeneration/advanced_map_loc.py:13 | The decimal text of an integer parses back to that integer |
| Crypto.GcmDecrypt | AirTagGeneration/RequestReportMap.py:29-31 | Decryption returns a plaintext only when the tag authenticates the ciphertext under the key and IV |
| Crypto.GcmRoundTrip | AirTagGeneration/RequestReportMap.py:172-174 | With lawful primitives, decrypting an encryption returns the plaintext; the ciphertext keeps its length and the tag has 16 bytes |
| ReportDecoder.Timestamp | AirTagGeneration/RequestReportMap.py:154 | The time is the big-endian value of the first four bytes plus 978307200, and lies in [978307200, 978307200 + 2^32) |
| ReportDecoder.FrameLayout | AirTagGeneration/RequestReportMap.py:157-170 | For a payload of 88 or more bytes, with adj = len − 88: the ephemeral key is data[5+adj:62+adj] (57 bytes), the ciphertext data[62+adj:72+adj] (10 bytes) and the tag data[72+adj:] (16 bytes); together with the head they make up the payload |
| ReportDecoder.FrameOfAssembled | AirTagGeneration/RequestReportMap.py:157-170 | Framing a head of at least 5 bytes followed by a 57-byte key, a 10-byte ciphertext and a 16-byte tag gives back those three parts |
| ReportDecoder.SplitDigest | AirTagGeneration/RequestReportMap.py:167-168 | A 32-byte digest splits into a 16-byte key and a 16-byte IV that concatenate back to the digest |
| ReportDecoder.DeriveKeysSizes | AirTagGeneration/RequestReportMap.py:164-168 | The key and IV are the two halves of SHA-256(shared ‖ 00000001 ‖ ephemeral key) |
| ReportDecoder.DecodeTag | AirTagGeneration/RequestReportMap.py:34-39 | Decoding succeeds exactly when the plaintext has at least 8 bytes. lat and lon are the signed big-endian words at 0 and 4. conf and status are bytes 8 and 9, or 0 when those are missing (for 8 bytes both are 0; for 9 bytes conf is byte 8 and status 0) |
| ReportDecoder.DecodeEncodeTag | AirTagGeneration/RequestReportMap.py:34-39 | Decoding the 10-byte encoding of a tag gives the tag |
| ReportDecoder.EncodeDecodeTag | AirTagGeneration/RequestReportMap.py:34-39 | Every 10-byte plaintext decodes, and re-encoding its tag gives the plaintext back |
| ReportDecoder.Decode | AirTagGeneration/RequestReportMap.py:157-178 | A decoded report is authentic: its tag matches the GCM tag under keys derived from the ECDH secret. The result is InvalidPoint exactly when ECDH rejects the ephemeral key or the private scalar |
| ReportDecoder.SealThenDecode | AirTagGeneration/RequestReportMap.py:154-178 | A report sealed the way the beacon does it has 87 + len(gap) bytes, carries its raw time plus the epoch offset, and decodes to exactly the sealed tag, whatever the number of extra bytes |
| ReportDecoder.TamperedTagRejected | AirTagGeneration/RequestReportMap.py:170-174 | Changing any byte of the tag of a report that decodes makes decoding fail with AuthenticationFailed |
| KeyStore.DeviceNameOfMatch | AirTagGeneration/RequestReportMap.py:95 | For a file selected by `<prefix>*.keys`, the name is exactly the text between the prefix and `.keys` |
| KeyStore.ScanKeyFile | AirTagGeneration/RequestReportMap.py:94-101 | The line loop computes the left fold `ScanLines` over the split lines: the last value of each field, or the index of the first line that raised |
| KeyStore.ScanFailsAtFirstMalformed | AirTagGeneration/RequestReportMap.py:96-101 | Scanning fails exactly when a line names a field without a value, and the error gives the first such line |
| KeyStore.UnnamedFieldEmpty | AirTagGeneration/RequestReportMap.py:94-101 | A field that no line names stays the empty string |
| KeyStore.LastValueWins | AirTagGeneration/RequestReportMap.py:96-101 | A field holds the value from the last line that names it |
| KeyStore.LoadKeyFiles | AirTagGeneration/RequestReportMap.py:87-107 | The file loop computes the left fold `LoadSpec`: the tables and the warnings, or the first error |
| KeyStore.LoadedTablesValid | AirTagGeneration/RequestReportMap.py:102-104 | The loaded `privkeys` and `names` have the same keys, and `order` lists each of them exactly once |
| KeyStore.LoadFailsIffMalformed | AirTagGeneration/RequestReportMap.py:87-107 | Loading fails exactly when some selected file has a line that names a field without a value |
| KeyStore.LoadedKeysAccepted | AirTagGeneration/RequestReportMap.py:102-104 | A hashed key is in the tables exactly when some selected file yields a record with both fields for it |
| KeyStore.WarningsAreSkippedFiles | AirTagGeneration/RequestReportMap.py:105-106 | A file gets a warning exactly when it is selected and lacks one of the two fields |
| KeyStore.LastFileWins | AirTagGeneration/RequestReportMap.py:102-104 | When several files carry the same hashed key, the last of them supplies its private key and name |
| KeyStore.LoadedFromSomeFile | AirTagGeneration/RequestReportMap.py:102-104 | Every table entry is the record of some selected file |
| KeyStore.NamesInjective | AirTagGeneration/RequestReportMap.py:95-104 | For files with distinct names, distinct hashed keys get distinct device names |
| ReportAggregator.Step | AirTagGeneration/RequestReportMap.py:151-200 | An unknown id raises. A known id whose private key or payload is not base64 raises `NotBase64` with that text, whether or not the report is in the window. A readable report before the window changes nothing, and no decryption is attempted for it. For an in-window report: a decryption or decoding failure raises `Undecodable` with that error; a decoded report of an unnamed device raises; on a closed database it raises; otherwise it is accepted, and the appended entry carries the decoded lat, lon, conf and status, the device's name and the report's time. The name goes into `found`, and the row under (name, time) gets the entry's lat, lon and conf |
| ReportAggregator.ProcessReport | AirTagGeneration/RequestReportMap.py:152-200 | One pass of the loop body gives the new `ordered`, `found` and rows exactly as `Step` says, or the exception `Step` names with nothing changed |
| ReportAggregator.ProcessReports | AirTagGeneration/RequestReportMap.py:151-200 | The loop computes the left fold `Run`, which stops at the first exception and keeps the state it had reached |
| ReportAggregator.FoundIsKeysOfOrdered | AirTagGeneration/RequestReportMap.py:185-186 | `found` is exactly the set of device names in `ordered` |
| ReportAggregator.FoundAreKnownNames | AirTagGeneration/RequestReportMap.py:185 | Every found name is a device name of the key tables |
| ReportAggregator.CompletedRun | AirTagGeneration/RequestReportMap.py:151-156 | If the loop completes, every report's id was known and its key and payload were base64, `ordered` has one entry per in-window report, and every entry is at or after `startdate` |
| ReportAggregator.TableLastWriteWins | AirTagGeneration/RequestReportMap.py:188-200 | The table's keys are the old keys plus each entry's (name, time). Each row carries the coordinates and confidence of the last entry with its key. Every old row that no entry overwrites stays as it was |
| ReportAggregator.CompletedRunDecodes | AirTagGeneration/RequestReportMap.py:151-186 | If the loop completes, every in-window report decoded, had a device name and met an open database, and `ordered` is exactly the decoded entries of the in-window reports, in report order |
| ReportAggregator.CompletedRunRows | AirTagGeneration/RequestReportMap.py:172-200 | If the loop completes, the row under each written (name, time) holds the decoded lat, lon and conf of the last in-window report with that key, and all other old rows are unchanged |
| ReportAggregator.CompletedRunReportRows | AirTagGeneration/RequestReportMap.py:172-200 | If the loop completes, the row under the (name, time) of each accepted report that no later accepted report overwrites is that report's whole row: publication date, payload, id, status code and decoded lat, lon and conf |
| ReportAggregator.ClosedDatabaseAddsNothing | AirTagGeneration/GuiTracker.py:284 | On a closed connection the loop adds no entry, no name and no row |
| ReportAggregator.SortByTimestampCorrect | AirTagGeneration/RequestReportMap.py:231 | The sort gives ascending times, is a permutation of its input and is stable: entries with equal times keep their order |
| LocationSummary.Hms | AirTagGeneration/advanced_map_loc.py:10-12 | hours·3600 + minutes·60 + seconds gives back the duration, with minutes and seconds in [0, 60) |
| LocationSummary.HmsUnique | AirTagGeneration/advanced_map_loc.py:10-12 | That split is the only one with minutes and seconds in [0, 60) |
| LocationSummary.ParseFormatTime | AirTagGeneration/advanced_map_loc.py:9-13 | The text `"<h>h <m>m <s>s"` reads back as the duration it renders |
| LocationSummary.ProcessLocationData | AirTagGeneration/advanced_map_loc.py:16-49 | The failures are: the missing column exactly for no records, NaN exactly for one record. Otherwise the records come in the stable timestamp order of `SortByTimestamp`, a sorted permutation, and the ping count is their number |
| LocationSummary.SummaryBounds | AirTagGeneration/advanced_map_loc.py:30-37 | Start and end are the least and the greatest record times, and the total time is end − start |
| LocationSummary.SummaryDurations | AirTagGeneration/advanced_map_loc.py:29-33 | The average is the total over the number of gaps, rounded down. The two texts render the total and the average |
| LocationSummary.MeanGapBounds | AirTagGeneration/advanced_map_loc.py:29 | The rounded-down mean times the number of gaps is at most the total, and the total is below the next multiple |
| RequestReportMap.Startdate | AirTagGeneration/RequestReportMap.py:112 | The window starts `hours` hours before `now`, and not after it for a non-negative `hours` |
| RequestReportMap.FetchRequest | AirTagGeneration/RequestReportMap.py:113-121 | The request covers [startdate, now] in milliseconds, 3 600 000·hours wide, and asks for the ids in key order |
| RequestReportMap.RequestNamesEveryKey | AirTagGeneration/RequestReportMap.py:118 | The request asks for every loaded device exactly once |
| RequestReportMap.Missing | AirTagGeneration/RequestReportMap.py:238 | A name is missing exactly when it belongs to a listed key and was not found |
| RequestReportMap.MissingInKeyOrder | AirTagGeneration/RequestReportMap.py:238 | The missing list follows key order: a key added at the end adds its name, if not found, at the end |
| RequestReportMap.MissingPartition | AirTagGeneration/RequestReportMap.py:238 | For the loaded tables, missing = device names − found, and found ∪ missing = all device names |
| RequestReportMap.RunMain | AirTagGeneration/RequestReportMap.py:223-242 | `main` computes `MainSpec`, the stored table and the outcome. It builds the request from the loaded keys exactly when loading succeeds |
| RequestReportMap.ConcludedOrder | AirTagGeneration/RequestReportMap.py:229-236 | A printed report holds the decoded entries of the in-window reports, sorted stably by time, a permutation of them, at least two of them |
| RequestReportMap.ConcludedPartition | AirTagGeneration/RequestReportMap.py:238-240 | In a printed report, missing = device names − found, and found ∪ missing = all device names |
| RequestReportMap.ReportedOutcome | AirTagGeneration/RequestReportMap.py:228-238 | A report is printed only after status 200, a `results` list and a completed loop, and it is what that loop's batch concludes to |
| RequestReportMap.StoredOnlyAfterCompletedLoop | AirTagGeneration/RequestReportMap.py:202-203 | The stored table changes only by the commit after a completed loop, and then becomes that loop's table. Conversely, once the keys load, the status is 200, `results` is present and the loop completes, the loop's table is stored, whatever the map step returns |
| GuiTracker.FetchReports | AirTagGeneration/GuiTracker.py:205-228 | The window start is `hours` before `now`; an absent `results` key reads as an empty list |
| GuiTracker.FindMyFlipperUi.constructor | AirTagGeneration/GuiTracker.py:61-67 | The window starts with the loaded key tables and one open connection that sees the stored table |
| GuiTracker.FindMyFlipperUi.ProcessReports | AirTagGeneration/GuiTracker.py:230-285 | The loop runs over the connection's current rows, and its inserts stay pending, including those made before an exception |
| GuiTracker.FindMyFlipperUi.UpdateReports | AirTagGeneration/GuiTracker.py:74-101 | One update moves the fields as `UpdateSpec` says: the early return on an empty 200 reply, the caught exceptions, and the commit and close after a shown map |
| GuiTracker.UpdateCommitsOrKeeps | AirTagGeneration/GuiTracker.py:97-98 | An update never changes the keys. Committed rows change only when a map is shown; then everything pending is committed and the connection is closed |
| GuiTracker.FailedLoopKeepsInserts | AirTagGeneration/GuiTracker.py:99-101 | After a failed loop, the rows inserted before the exception remain pending |
| GuiTracker.MapFailedKeepsInserts | AirTagGeneration/GuiTracker.py:83-88 | After a completed loop whose map step fails, the loop's table is pending, uncommitted, on the still-open connection; nothing else changes |
| GuiTracker.NoReportsReturnsEarly | AirTagGeneration/GuiTracker.py:77-81 | The update returns at once, changing nothing, exactly when the status is 200 and there are no reports (an absent `results` counts as none) |
| GuiTracker.ShownUpdate | AirTagGeneration/GuiTracker.py:83-98 | A shown map summarises the decoded entries of a completed loop's in-window reports, at least two of them. It also reports their count and the names found. The loop's table is then both committed and pending, and the connection is closed |
| GuiTracker.ClosedTrackerIsFrozen | AirTagGeneration/GuiTracker.py:97-98 | Once closed, no update changes any field or shows a map |

## Left out

- The cryptography is not modelled: ECDH on secp224r1, SHA-256, AES and the GCM tag are uninterpreted parameters. Only their output lengths, the involution of counter mode and the tag check are assumed.
- ReportDecoder.TamperedTagRejected: covers a changed tag only. A changed ciphertext or ephemeral key cannot be shown to be rejected, because the GCM tag function is uninterpreted and no collision resistance is assumed.
- `base64.b64decode` is an uninterpreted parameter; None stands for the error it raises.
- Authentication and the network are parameters or absent:
  - `getAuth`, the iCloud login and the anisette headers;
  - the `ANISETTE_URL` setting and `AniDialog`;
  - the POST itself; the reply arrives as `response`.
- Decoding the reply body as JSON is outside the model. A body without a `results` list is one case, whether the key is missing or the body is not JSON.
- `argparse` and every `print` are absent. The count of used reports, `len(ordered)`, is kept as `Shown.used` in the GUI and is the length of `Reported.ordered` in the command-line tool.
- The SQLite file is absent. The `reports` table is a map keyed by (name, timestamp), and `CREATE TABLE IF NOT EXISTS` leaves it as it is.
- Rows store lat and lon as 32-bit fixed-point values, not as `str(lat / 10^7)`. The float division by 10^7 is left out.
- The `isodatetime` string, the Google Maps link and the `strftime` start/end texts are left out.
- LocationSummary.SummaryBounds: does not model local-time differences. Durations are taken from Unix times, where pandas subtracts naive local datetimes, which differ across a daylight-saving change.
- LocationSummary.SummaryDurations: takes the average as the exact quotient rounded down, not the float mean that pandas computes.
- `export_data` and the reading of `data.json` back into the map module are assumed to give back the same records.
- The folium map is not modelled: markers, AntPath, HTML rendering and the file-name `while` loop. Nor is the Qt web view.
- Glob metacharacters inside the prefix, and subdirectories, are left out; `files` lists the keys directory in glob order.
- Exceptions from `open()` and from text decoding of the key files are left out.
- Concurrency is out of scope: one loop runs at a time.
