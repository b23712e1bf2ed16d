# OpenVPN status exporter: a Dafny model of the status decoders

This project models the core of the Prometheus OpenVPN exporter: the code
that turns OpenVPN status output into metric observations. It covers the
following parts.

- **Format detection.** The first 18 characters of a status file (bytes in Go) are checked for
  the `TITLE,` prefix (server, format version 2), then `TITLE\t` (server,
  format version 3), then `OpenVPN STATISTICS` (client statistics).
- **The server decoder.** It reads one line at a time. A `HEADER` line
  announces the columns of a record type. `TIME` gives the update time.
  `CLIENT_LIST` and `ROUTING_TABLE` records become per-client and per-route
  metrics, labelled by the directive table's label columns. The current
  exporter also suppresses repeated label tuples and ends the output with a
  connected-clients gauge.
- **The client decoder.** It handles banners, the `Updated` time and nine
  traffic counters.
- **The Access Server decoder.** It walks the JSON document printed by
  `sacli VPNStatus` (already unmarshalled here). Server records arrive as
  positional arrays.
- **The collectors of both exporters.** Each status source is followed by
  its `openvpn_up` gauge. The older exporter also turns its
  `--openvpn.status_paths` flag into an instance table.

Both exporters are modelled. The current one is
`exporters/openvpn_exporter.go`; the older one is the root
`openvpn_exporter.go`. They share one server decoder and one client decoder,
parameterised by `Server.Options`:

- the label prefix: `[path]` in the current exporter, `[path, instance]` in
  the older one;
- the directive table;
- whether repeated labels are suppressed;
- whether the connected-clients gauge is emitted.

A decode is a fold over the scanned lines. It returns a `Model.Run`: the
observations sent so far, and the error that ended the pass, if any.
Observations sent before an error stay sent, as they do on the Go channel.

The Go runtime pieces become parameters or plain functions:

- `strconv.ParseFloat` and `time.ParseInLocation` are the two fields of
  `Model.Parsers`;
- `strings.Split` is `Text.Split`;
- `bufio.ScanLines` is `Text.ScanLines`. It splits on `\n`, drops a final
  empty piece, and strips one trailing `\r` from each line;
- the file system is a map from path to contents.

Modules, one per file: `Text`, `Model`, `Emit` (the metric emission loop
that the server and Access Server decoders share), `Detector`, `Server`,
`Client`, `Api`, `Collect`.

## Model

| member | source | states |
|---|---|---|
| Text.Split | exporters/openvpn_exporter.go:209 | A split always has at least one piece, no piece contains the separator, and joining the pieces gives the line back. |
| Text.SplitJoin | exporters/openvpn_exporter.go:209 | Splitting joined pieces that hold no separator gives exactly those pieces back. |
| Text.ScanLines | exporters/openvpn_exporter.go:200-201 | No scanned line contains a newline, and empty input scans to no lines. |
| Text.ScanLinesOfTerminated | exporters/openvpn_exporter.go:200-201 | Scanning text written as newline-terminated lines (none holding a newline or ending in a carriage return) gives those lines back. |
| Model.Directives | exporters/openvpn_exporter.go:110-161 | The table has exactly the CLIENT_LIST and ROUTING_TABLE directives. Client records export received and sent byte counters, and routes export the last-reference gauge. With individuals ignored, both types are labelled by the common name only; otherwise clients have 5 label columns and routes 3. No metric uses a reserved name. |
| Model.DirectiveTablesAgree | openvpn_exporter.go:55-100 | The older exporter's static table equals the current full-identity table. The common-name-only table keeps the same metrics and only the first label column. |
| Model.MetricNamesUnique | exporters/openvpn_exporter.go:110-161 | Across both record types of a table, each metric name belongs to exactly one metric, so keying the dedupe record by name is keying it by metric. |
| Model.ClientCountersNotReserved | openvpn_exporter.go:103-140 | None of the nine client counter metrics is the up gauge or the connected-clients gauge. |
| Emit.EmitMetrics | exporters/openvpn_exporter.go:258-276 | The emission loop only appends, and every observation it adds carries the record's labels. Its only error is a parse error. Without deduplication it records nothing. |
| Emit.EmitFailsIffUnparsable | exporters/openvpn_exporter.go:258-266 | When nothing can be suppressed, the loop fails exactly when the value of some metric column that is present does not parse. |
| Emit.EmitsEveryPresentMetric | exporters/openvpn_exporter.go:258-272 | When nothing can be suppressed and the loop succeeds, it emits exactly one observation per present metric, in table order, each with the parsed value and the record's labels. |
| Emit.EmitRecordsLabels | exporters/openvpn_exporter.go:261-273 | After a successful deduplicating pass, each present metric's record covers the emitted label tuple. |
| Emit.EmitAllSeen | exporters/openvpn_exporter.go:259-276 | When the record of every present metric already covers the labels, the deduplicating loop does nothing: no output, no parse, no error. |
| Emit.EmitExtendsRecords | exporters/openvpn_exporter.go:273 | The records of emitted labels only grow, each as an extension of what it was. |
| Emit.EmitAvoidsReserved | exporters/openvpn_exporter.go:258-276 | Given a table without reserved names, the loop never emits the up gauge or the connected-clients gauge. |
| Emit.Fresh | exporters/openvpn_exporter.go:259-261 | The metrics a record actually emits are drawn from its table and are exactly those whose column has a value and, under deduplication, whose record does not already cover the label tuple: every kept metric qualifies, and every qualifying metric is kept. |
| Emit.FreshIsPresent | exporters/openvpn_exporter.go:259-261 | When nothing can be suppressed, the fresh metrics are exactly the metrics whose column has a value, in table order. |
| Emit.FreshFrame | exporters/openvpn_exporter.go:261 | Whether a metric is fresh depends only on the labels recorded under its own name. |
| Emit.EmitsEveryFreshMetric | exporters/openvpn_exporter.go:258-276 | Whatever has been recorded, the loop fails exactly when the value of a fresh metric does not parse. Otherwise it appends one observation per fresh metric, in table order, with its parsed value and the record's labels. |
| Emit.SubsliceOfAppended | exporters/openvpn_exporter.go:290-309 | A label tuple is always covered by any record that ends with it. |
| Emit.SubsliceOfExtension | exporters/openvpn_exporter.go:290-309 | Coverage survives extending the record. |
| Emit.EmittedBeforeIsCovered | exporters/openvpn_exporter.go:270-309 | A tuple emitted before is always covered by the flat record, so the code's test never lets a true repeat through. |
| Emit.UnseenCombinationNotEmitted | exporters/openvpn_exporter.go:290-309 | For the tuples (p, alice, 10.0.0.1) and (p, bob, 10.0.0.2), the tuple (p, alice, 10.0.0.2) was not emitted before, yet the flat record covers it. |
| Emit.EmitRecordsFresh | exporters/openvpn_exporter.go:259-273 | A successful deduplicating pass appends the label tuple to the record of exactly the fresh metrics, and leaves the record of every other name unchanged. |
| Emit.RecordFlattensEmittedTuples | exporters/openvpn_exporter.go:259-309 | If a metric's record is the flat list of the tuples emitted for it so far, then after a successful deduplicating pass it is the flat list of those tuples plus the new one exactly when the metric was emitted. It is emitted exactly when its column has a value and the record does not cover the tuple, and a tuple emitted before is never emitted again. |
| Emit.SuppressesUnseenCombination | exporters/openvpn_exporter.go:259-309 | With the records of (p, alice, 10.0.0.1) and (p, bob, 10.0.0.2), the deduplicating loop skips (p, alice, 10.0.0.2) without parsing or emitting anything, although that tuple was never emitted. |
| Detector.Peek | exporters/openvpn_exporter.go:181 | The peeked characters are a prefix of the blob, and their length is 18 or the blob's length if that is shorter. |
| Detector.Detect | exporters/openvpn_exporter.go:179-196 | Each format is detected exactly when the blob starts with that format's prefix. An unknown blob matches none of the prefixes and is reported with its peeked characters. |
| Detector.PrefixOfPeek | exporters/openvpn_exporter.go:181-191 | A prefix of at most 18 characters is a prefix of the peeked characters exactly when it is a prefix of the whole blob. |
| Detector.DetectSeesOnlyPeek | openvpn_exporter.go:147-164 | Two blobs with the same first 18 characters are detected alike. |
| Server.Assign | exporters/openvpn_exporter.go:247-249 | Storing the fields under the announced column names sets every named column to the field of its last occurrence, and leaves every other column unchanged. |
| Server.ColumnValues | exporters/openvpn_exporter.go:243-250 | A record has a value for exactly the label columns and the announced columns. |
| Server.ColumnValuesRead | exporters/openvpn_exporter.go:243-250 | An announced column holds the field at its last announced position, and a label column the header does not announce holds the empty string. |
| Server.RecordLabels | exporters/openvpn_exporter.go:243-256 | A record's labels are the prefix, then for each label column its field, or the empty string when the header does not announce that column. |
| Server.ServerLine | exporters/openvpn_exporter.go:209-279 | Only HEADER lines change the announced headers, and only CLIENT_LIST records increment the client count. Output only grows. An unsupported-key error is returned exactly when the line has no recognised shape. Footer and GLOBAL_STATS lines change nothing. A record without a preceding header is a missing-header error, and one with the wrong field count is a column-count error. A TIME line whose value does not parse is exactly a parse error of that value with nothing else changed; otherwise it emits the update-time gauge. |
| Server.RecordLine | exporters/openvpn_exporter.go:230-276 | A record line never changes the announced headers and counts a client exactly when it is a CLIENT_LIST record. It keeps everything emitted so far. Without an announced header it is a missing-header error, and with a field count other than the header's it is a column-count error; otherwise the only error is a value that does not parse. |
| Server.DecodeServer | exporters/openvpn_exporter.go:199-288 | A decode only appends to the output, and it ends only with a line error. |
| Server.ServerLineAvoidsReserved | exporters/openvpn_exporter.go:209-279 | No line emits the up gauge or the connected-clients gauge. |
| Server.ConnectedClientsAtEnd | exporters/openvpn_exporter.go:232-287 | After a successful pass, the connected-clients gauge comes last and only once. Its value is the number of CLIENT_LIST records read, counted whether or not their metrics were suppressed. Without counting, or after an error, it never appears. |
| Server.RecordsFollowHeaders | exporters/openvpn_exporter.go:235-241 | In a successful pass, every record line conforms to the header announced before it: a header for its type exists, and the record has one field per announced column. |
| Server.HeadersAfterKeys | exporters/openvpn_exporter.go:214-216 | A record type has announced columns exactly when the initial headers had it or some earlier line is a HEADER for it. |
| Server.RecordBeforeHeaderFails | exporters/openvpn_exporter.go:235-238 | A file in which a record comes before any HEADER for its type never decodes without error. |
| Server.RepeatedRecordSuppressed | exporters/openvpn_exporter.go:252-276 | Under deduplication, once a record is read without error, a later record of its type with the same label tuple is suppressed, whatever its metric values, in every state whose records cover the ones the first left and whose columns for the type are unchanged. Nothing is parsed, so an unparsable value is no error; nothing is emitted; only the client count moves. |
| Server.SameCommonNameSameLabels | exporters/openvpn_exporter.go:252-256 | With individuals ignored, two CLIENT_LIST records with the same common name have the same label tuple, whatever their other fields. |
| Server.ServerLineGrowsRecords | exporters/openvpn_exporter.go:259-272 | A line only adds to the labels recorded per metric; the record lives for the whole pass. |
| Server.Advance | exporters/openvpn_exporter.go:206-280 | The state after some lines only grows the per-metric records, and after lines without error its columns are the ones the HEADER lines announced. |
| Server.DecodeServerAdvance | exporters/openvpn_exporter.go:206-288 | Decoding two runs of lines is advancing over the first and, unless it failed, decoding the second from where it stopped. |
| Server.RepeatInPassSuppressed | exporters/openvpn_exporter.go:206-276 | Within one pass with deduplication, a record line with the same label tuple as an earlier record of its type, and no HEADER for the type in between, emits nothing when the pass reaches it, whatever its metric values; no value is parsed and only the client count moves. |
| Server.RecordEmitsEveryMetric | exporters/openvpn_exporter.go:242-276 | In any state, a conforming record fails exactly when the value of one of its fresh metrics does not parse. When it succeeds, it emits one observation per fresh metric in table order, with the parsed value and the record's labels. |
| Client.DecodeClient | exporters/openvpn_exporter.go:312-349 | Every client observation is labelled by the prefix alone. None is the up or connected-clients gauge. The only errors are time-parse, parse and unsupported-key errors. |
| Client.ClientLine | exporters/openvpn_exporter.go:316-346 | An accepted line emits at most one observation, labelled by the prefix. A line is rejected as an unsupported key exactly when it is neither a one-field banner or footer nor a two-field Updated or counter line. Any other rejection is a two-field line whose value does not parse: a time-parse error for Updated, a parse error for a counter. |
| Client.ClientLineAccepts | exporters/openvpn_exporter.go:316-346 | A line is accepted exactly when it is a one-field banner or footer, an Updated time that parses, or a known counter whose value parses. An Updated line emits the update-time gauge at the parsed Unix time, a counter line emits that key's counter at the parsed value, and banners emit nothing. |
| Client.DecodeClientOkIff | openvpn_exporter.go:241-280 | A client file decodes without error exactly when every line is accepted. Then its output is, line by line, what each line reports by the grammar (`ClientObservations`): one observation per two-field line. |
| Client.FirstRejectedLine | exporters/openvpn_exporter.go:312-349 | The first rejected line decides the error, and the output is exactly what the lines before it report by the grammar. |
| Api.ApiItem | exporters/openvpn_exporter.go:393-462 | An item counts one client exactly when it is a client_list item. Output only grows, every new observation's first label is the status path, and the only error is a parse error. |
| Api.ApiItems | exporters/openvpn_exporter.go:393-462 | A category's items, when all succeed, add their number to the client count for client_list and nothing for routing_table. |
| Api.ApiCategory | exporters/openvpn_exporter.go:368-463 | The title emits a build-info gauge of 1 labelled with the path, the instance and the title. The time emits an update-time gauge at its parsed value, or fails with a parse error and emits nothing. Record tables are walked and count their client_list items. Other categories change nothing. |
| Api.ApiCategories | exporters/openvpn_exporter.go:368-466 | When an instance's categories succeed, they add that instance's client_list item count. |
| Api.ApiInstances | exporters/openvpn_exporter.go:366-467 | When the document walk succeeds, it adds the number of client_list items over all object instances. |
| Api.DecodeApi | exporters/openvpn_exporter.go:362-480 | The only error is a parse error, and every observation's first label is the status path. A successful walk ends with the connected-clients gauge, valued at the total number of client_list items. |
| Api.ItemValues | exporters/openvpn_exporter.go:400-443 | Every label and metric column gets a value, and a metric column's value is the string at its fixed position. |
| Api.ApiItemLabels | exporters/openvpn_exporter.go:400-449 | An item's labels are the status path followed by the strings at the label positions of its category, in label-column order. |
| Api.ApiLabelPositions | exporters/openvpn_exporter.go:403-443 | Clients are read from positions 0, 7, 1, 2, 8 and routes from 1, 2, 0. With individuals ignored, only the common name is read: position 0 for clients, 1 for routes. Client bytes received and sent come from positions 4 and 5, a route's last reference time from position 4. |
| Api.PositionsApart | exporters/openvpn_exporter.go:403-441 | In both categories, distinct label columns are read from distinct array positions, and no label position is also a metric position. |
| Api.ApiItemEmitsEveryMetric | exporters/openvpn_exporter.go:431-462 | An item emits every metric of its directive in table order, each with the value at its metric position. It fails exactly when one of those values does not parse. |
| Api.NonObjectsSkipped | exporters/openvpn_exporter.go:366-367 | Instances whose value is not an object change nothing: walking the document is the same as walking its object instances alone. |
| Collect.DecodeStatus | exporters/openvpn_exporter.go:179-196 | The dispatcher never emits the up gauge. A `TITLE,` blob goes to the server decoder with comma separators, a `TITLE\t` blob to it with tab separators, and an `OpenVPN STATISTICS` blob to the client decoder, each over the scanned lines. Its error is "unexpected contents" exactly when no format prefix matches, and then nothing is emitted and the error names the peeked characters. |
| Collect.ServerFileDecodesItsLines | exporters/openvpn_exporter.go:179-184 | A server file of either version written as newline-terminated lines decodes as exactly those lines with that version's separator: detection and scanning lose nothing. |
| Collect.ClientFileDecodesItsLines | exporters/openvpn_exporter.go:179-190 | A client statistics file written as newline-terminated lines decodes as exactly those lines. |
| Collect.LegacyServerHasNoClientCount | openvpn_exporter.go:167-238 | The older exporter's server decode never emits a connected-clients gauge or an up gauge. |
| Collect.ReadStatus | exporters/openvpn_exporter.go:482-489 | Reading a source never emits the up gauge itself, and a read can succeed only when the file exists. |
| Collect.OneUpPerSource | exporters/openvpn_exporter.go:532-548 | When no decode emits an up gauge itself, a sweep over sources has exactly one up gauge per source, in source order, valued 1 exactly when that source decoded without error. |
| Collect.OneUpPerPath | exporters/openvpn_exporter.go:532-548 | Every status path gets exactly one up gauge, in path order and labelled with the path. It is 1 exactly when the file was read and decoded without error. |
| Collect.CollectFiles | exporters/openvpn_exporter.go:532-548 | The file-mode collector sends exactly one up gauge per status path, in path order, labelled with the path, valued 1 exactly when that path was read and decoded without error. |
| Collect.MissingFileIsDown | exporters/openvpn_exporter.go:482-487 | A path with no file is reported with up 0. |
| Collect.OneUpPerInstance | openvpn_exporter.go:305-325 | Every instance gets exactly one up gauge, labelled with its status path and name. It is 1 exactly when the file was read and decoded without error. |
| Collect.CollectInstances | openvpn_exporter.go:305-325 | The older collector sends exactly one up gauge per instance entry, in entry order, labelled with its path and name, valued 1 exactly when that instance was read and decoded without error. |
| Collect.SegmentEntry | openvpn_exporter.go:336-342 | A kept segment is either `name:path` or a bare path naming the instance after itself. The name and path are never empty and never contain a colon. |
| Collect.SegmentSkips | openvpn_exporter.go:337-340 | Segments with two colons (`a:b:c`), an empty path (`a:`), an empty name (`:b`), or no text at all are skipped. |
| Collect.ParseSegmentsKeys | openvpn_exporter.go:336-343 | An instance is in the table exactly when some kept segment names it. |
| Collect.ParseSegmentsLastWins | openvpn_exporter.go:336-343 | An instance's path is the one from the last segment that names it. |
| Collect.SegmentRoundTrip | openvpn_exporter.go:337-342 | `name:path` yields the entry (name, path), and a bare path names the instance after itself. |
| Collect.ParseSegments | openvpn_exporter.go:335-343 | Every instance in the table has a non-empty name and path, neither containing a colon. |
| Collect.ParseStatusPaths | openvpn_exporter.go:335-343 | The same holds for the table built from the whole comma-separated flag. |
| Collect.StatusPathsRoundTrip | openvpn_exporter.go:336-343 | Parsing a flag written from distinct, well-formed entries gives back exactly those entries. |

## Left out

- File and process I/O are left out: `os.Open`, running `sacli VPNStatus`, `json.Unmarshal`, and the HTTP server and flag handling of `main`. A missing file becomes `OpenError`, and the JSON document arrives already unmarshalled.
- Text is modelled as characters, not bytes. Go peeks at 18 bytes and may cut a multi-byte character; the model peeks at 18 characters. Detection agrees because every format prefix is ASCII, but the lead reported for an unrecognised blob with non-ASCII text in its first 18 bytes differs, and invalid UTF-8 cannot be represented.
- Scanner errors are left out. That includes the 64 KiB token limit of `bufio.Scanner` and the error from `scanner.Err()`, so a line is never too long in the model.
- Floating point and time zones are left out. `strconv.ParseFloat` and `time.ParseInLocation` are opaque parameters, and a float is a `real`.
- Channel sends, Prometheus descriptors and log messages are left out. Each sent metric is an `Observation(name, kind, value, labels)`. Error texts are kept only as error kinds, so the two exporters' different wording ("unsupported key" against "Unsupported key") is not modelled.
- Go map iteration order is left out. Only the older exporter's instance table and the JSON objects are Go maps; the model visits them in the order of a sequence, and each stated property holds whatever that order is. The current exporter's status paths are a slice, and the model keeps their order.
- The up gauge of the Access Server mode is left out. The source tests the error twice, so up 0 is never sent; on success it sends up 1 labelled `api`.
- Api.DecodeApi: the unchecked type assertions of the source, which would panic, are a precondition (`DocWellTyped`) rather than a modelled failure.
- Server.DecodeServer: the dedupe record is keyed by metric name instead of by the Go metric field value. One record serves the whole pass, across CLIENT_LIST and ROUTING_TABLE, and the names are distinct across the whole table (Model.MetricNamesUnique), so the two agree.
- Emit.EmitMetrics keeps the code's `subslice` test, so the decoders model the output the exporter actually sends; the exact-repeat test of "## Findings" is stated beside it rather than substituted.

## Findings

| source | as written | input that shows it | evidently intended | confidence | as-written member | corrected member |
|---|---|---|---|---|---|---|
| exporters/openvpn_exporter.go:259-309 | A metric is skipped when every value of the label tuple occurs somewhere in the flat list of that metric's earlier tuples (`subslice`). | Client records labelled (p, alice, 10.0.0.1) and (p, bob, 10.0.0.2), then (p, alice, 10.0.0.2): the third client's metrics are skipped. | Skip only a label tuple that was emitted before, as the log message "Metric entry with same labels" at line 273 says. | high for the input shown; not executed | Emit.SuppressesUnseenCombination | Emit.EmittedBeforeIsCovered |
