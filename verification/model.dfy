/**
 The observation shape shared by every decoder, the error kinds a decode can
 end with, the parsers the decoders borrow from the Go runtime, and the static
 tables that say which status-file columns become metrics and labels.
 */
module Model {

  datatype Option<T> = None | Some(value: T)

  /** Prometheus value semantics of an observation. */
  datatype Kind = Counter | Gauge

  /** One metric sample: metric name, value kind, value, and the label values
      in the order of the metric's label names. */
  datatype Observation = Observation(name: string, kind: Kind, value: real, labels: seq<string>)

  /** Why the decode of one status source stopped. */
  datatype Error =
    | UnexpectedContents(lead: string)        // no known format prefix; carries the peeked bytes
    | MissingHeader(recordType: string)       // "... should be preceded by HEADERS"
    | ColumnCountMismatch(recordType: string) // "HEADER for ... describes a different number of columns"
    | ParseError(text: string)                // strconv.ParseFloat rejected the text
    | TimeParseError(text: string)            // time.ParseInLocation rejected the text
    | UnsupportedKey(key: string)             // "unsupported key: ..."
    | OpenError(path: string)                 // os.Open failed

  /** The errors a line decoder can end with, as opposed to failing to open
      or to recognise the source. */
  predicate LineError(e: Error) {
    e.MissingHeader? || e.ColumnCountMismatch? || e.ParseError? || e.TimeParseError? || e.UnsupportedKey?
  }

  /** What one decode sent to the metrics channel, and the error it returned
      if any. Observations sent before an error are not taken back. */
  datatype Run = Run(out: seq<Observation>, err: Option<Error>) {
    predicate Ok() { err.None? }
  }

  /** The foreign parsers the decoders call: `strconv.ParseFloat(s, 64)` and
      the Unix time of `time.ParseInLocation("Mon Jan 2 15:04:05 2006", s, Local)`;
      `None` is the parser's error. */
  datatype Parsers = Parsers(parseFloat: string -> Option<real>, parseTime: string -> Option<int>)

  // Fully qualified metric names (namespace "openvpn").
  const UpName := "openvpn_up"
  const UpdateTimeName := "openvpn_status_update_time_seconds"
  const BuildInfoName := "openvpn_server_build_info"
  const ConnectedClientsName := "openvpn_server_connected_clients"
  const ClientReceivedName := "openvpn_server_client_received_bytes_total"
  const ClientSentName := "openvpn_server_client_sent_bytes_total"
  const RouteLastRefName := "openvpn_server_route_last_reference_time_seconds"

  /** The metrics only the collector itself emits: no table entry may use them. */
  predicate Reserved(name: string) {
    name == UpName || name == ConnectedClientsName
  }

  /** A column of a server record that is exported as a metric. */
  datatype MetricField = MetricField(column: string, name: string, kind: Kind)

  /** How records of one type are exported: the columns whose values become
      labels (in label order) and the columns that become metrics. */
  datatype Directive = Directive(labelColumns: seq<string>, metrics: seq<MetricField>)

  const ClientListMetrics: seq<MetricField> := [
    MetricField("Bytes Received", ClientReceivedName, Counter),
    MetricField("Bytes Sent", ClientSentName, Counter)
  ]

  const RoutingTableMetrics: seq<MetricField> := [
    MetricField("Last Ref (time_t)", RouteLastRefName, Gauge)
  ]

  /** A directive fit for the decoders: no metric uses a reserved name, and
      metric names are pairwise distinct (each metric has its own record of
      already-emitted labels). */
  predicate WellFormedDirective(d: Directive) {
    && (forall j :: 0 <= j < |d.metrics| ==> !Reserved(d.metrics[j].name))
    && (forall i, j :: 0 <= i < j < |d.metrics| ==> d.metrics[i].name != d.metrics[j].name)
  }

  /** The record types whose data lines the server decoder exports. */
  predicate RecordTypes(t: map<string, Directive>) {
    t.Keys == {"CLIENT_LIST", "ROUTING_TABLE"}
  }

  /** The directive table of the current exporter. With `ignoreIndividuals`
      a client or route is identified by its common name alone; otherwise by
      the full identity columns. */
  function Directives(ignoreIndividuals: bool): (t: map<string, Directive>)
    ensures RecordTypes(t)
    ensures forall k :: k in t ==> WellFormedDirective(t[k])
    ensures t["CLIENT_LIST"].metrics == ClientListMetrics
    ensures t["ROUTING_TABLE"].metrics == RoutingTableMetrics
    ensures ignoreIndividuals ==> forall k :: k in t ==> t[k].labelColumns == ["Common Name"]
    ensures !ignoreIndividuals ==> |t["CLIENT_LIST"].labelColumns| == 5 && |t["ROUTING_TABLE"].labelColumns| == 3
  {
    var clientColumns := if ignoreIndividuals then ["Common Name"]
      else ["Common Name", "Connected Since (time_t)", "Real Address", "Virtual Address", "Username"];
    var routingColumns := if ignoreIndividuals then ["Common Name"]
      else ["Common Name", "Real Address", "Virtual Address"];
    map[
      "CLIENT_LIST" := Directive(clientColumns, ClientListMetrics),
      "ROUTING_TABLE" := Directive(routingColumns, RoutingTableMetrics)
    ]
  }

  /** The static directive table of the older exporter, written out on its own. */
  const LegacyDirectives: map<string, Directive> := map[
    "CLIENT_LIST" := Directive(
      ["Common Name", "Connected Since (time_t)", "Real Address", "Virtual Address", "Username"],
      [MetricField("Bytes Received", ClientReceivedName, Counter),
       MetricField("Bytes Sent", ClientSentName, Counter)]),
    "ROUTING_TABLE" := Directive(
      ["Common Name", "Real Address", "Virtual Address"],
      [MetricField("Last Ref (time_t)", RouteLastRefName, Gauge)])
  ]

  /** The two tables agree: the older exporter's static table is the current
      full-identity table, and the common-name-only table keeps the same
      metrics and only the first label column of each record type. */
  lemma DirectiveTablesAgree()
    ensures LegacyDirectives == Directives(false)
    ensures forall k :: k in Directives(true) ==>
      && Directives(true)[k].metrics == Directives(false)[k].metrics
      && Directives(true)[k].labelColumns == Directives(false)[k].labelColumns[..1]
  {
  }

  /** Across the whole table, each metric name belongs to exactly one metric
      of one record type, so a record of emitted labels keyed by metric name
      is keyed by metric. */
  lemma MetricNamesUnique(ignoreIndividuals: bool)
    ensures var t := Directives(ignoreIndividuals);
            forall k1, k2, i, j ::
              k1 in t && k2 in t && 0 <= i < |t[k1].metrics| && 0 <= j < |t[k2].metrics| &&
              t[k1].metrics[i].name == t[k2].metrics[j].name
              ==> k1 == k2 && i == j
  {
    var t := Directives(ignoreIndividuals);
    assert t.Keys == {"CLIENT_LIST", "ROUTING_TABLE"};
  }

  /** The nine traffic counters of the client status file: line key to metric name. */
  const ClientCounters: map<string, string> := map[
    "TUN/TAP read bytes" := "openvpn_client_tun_tap_read_bytes_total",
    "TUN/TAP write bytes" := "openvpn_client_tun_tap_write_bytes_total",
    "TCP/UDP read bytes" := "openvpn_client_tcp_udp_read_bytes_total",
    "TCP/UDP write bytes" := "openvpn_client_tcp_udp_write_bytes_total",
    "Auth read bytes" := "openvpn_client_auth_read_bytes_total",
    "pre-compress bytes" := "openvpn_client_pre_compress_bytes_total",
    "post-compress bytes" := "openvpn_client_post_compress_bytes_total",
    "pre-decompress bytes" := "openvpn_client_pre_decompress_bytes_total",
    "post-decompress bytes" := "openvpn_client_post_decompress_bytes_total"
  ]

  /** No client counter uses a reserved metric name. */
  lemma ClientCountersNotReserved()
    ensures forall a :: a in ClientCounters ==> !Reserved(ClientCounters[a])
  {
  }
}
