/**
 The client status decoder: comma-separated lines, each either a banner, the
 update time, or one of nine traffic counters.
 */
module Client {
  import opened Text
  import opened Model
  import opened Emit

  datatype LineResult = Accepted(emitted: seq<Observation>) | Rejected(err: Error)

  /** One line of a client status file; `prefix` is the label tuple of every
      observation (the status path, and in the older exporter the instance
      name). */
  function ClientLine(p: Parsers, prefix: seq<string>, line: string): (r: LineResult)
    ensures r.Accepted? ==> |r.emitted| <= 1 && LabelledWith(r.emitted, prefix)
    ensures var f := Split(line, ',');
            r == Rejected(UnsupportedKey(f[0])) <==>
              !((|f| == 1 && (f[0] == "END" || f[0] == "OpenVPN STATISTICS"))
                || (|f| == 2 && (f[0] == "Updated" || f[0] in ClientCounters)))
    ensures var f := Split(line, ',');
            r.Rejected? && !r.err.UnsupportedKey? ==>
              |f| == 2 && r.err == (if f[0] == "Updated" then TimeParseError(f[1]) else ParseError(f[1]))
  {
    var f := Split(line, ',');
    if f[0] == "END" && |f| == 1 then Accepted([])
    else if f[0] == "OpenVPN STATISTICS" && |f| == 1 then Accepted([])
    else if f[0] == "Updated" && |f| == 2 then
      match p.parseTime(f[1])
      case None => Rejected(TimeParseError(f[1]))
      case Some(t) => Accepted([Observation(UpdateTimeName, Gauge, t as real, prefix)])
    else if f[0] in ClientCounters && |f| == 2 then
      match p.parseFloat(f[1])
      case None => Rejected(ParseError(f[1]))
      case Some(v) => Accepted([Observation(ClientCounters[f[0]], Counter, v, prefix)])
    else Rejected(UnsupportedKey(f[0]))
  }

  /** Every observation carries exactly the label tuple `prefix`. */
  predicate LabelledWith(out: seq<Observation>, prefix: seq<string>) {
    forall i :: 0 <= i < |out| ==> out[i].labels == prefix
  }

  /** An accepted line emits at most one observation, labelled with the
      prefix and named neither as the up gauge nor as the client count. */
  lemma ClientLineEmits(p: Parsers, prefix: seq<string>, line: string)
    ensures var r := ClientLine(p, prefix, line);
            r.Accepted? ==> LabelledWith(r.emitted, prefix) && NoReservedFrom(r.emitted, 0)
  {
    ClientCountersNotReserved();
  }

  lemma ConcatTagged(a: seq<Observation>, b: seq<Observation>, prefix: seq<string>)
    requires LabelledWith(a, prefix) && NoReservedFrom(a, 0)
    requires LabelledWith(b, prefix) && NoReservedFrom(b, 0)
    ensures LabelledWith(a + b, prefix) && NoReservedFrom(a + b, 0)
  {
    forall i | |a| <= i < |a + b| ensures (a + b)[i] == b[i - |a|] {
    }
  }

  /** Decodes a client status file line by line; the first rejected line
      ends the pass. */
  function DecodeClient(p: Parsers, prefix: seq<string>, lines: seq<string>): (r: Run)
    ensures LabelledWith(r.out, prefix)
    ensures NoReservedFrom(r.out, 0)
    ensures r.err.Some? ==> r.err.value.TimeParseError? || r.err.value.ParseError? || r.err.value.UnsupportedKey?
    decreases |lines|
  {
    if |lines| == 0 then Run([], None)
    else
      match ClientLine(p, prefix, lines[0])
      case Rejected(e) => Run([], Some(e))
      case Accepted(obs) =>
        var rest := DecodeClient(p, prefix, lines[1..]);
        ClientLineEmits(p, prefix, lines[0]);
        ConcatTagged(obs, rest.out, prefix);
        Run(obs + rest.out, rest.err)
  }

  /** The client line grammar: a one-field banner or footer, an update time
      that parses, or a known counter whose value parses. */
  predicate Accepts(p: Parsers, line: string) {
    var f := Split(line, ',');
    || (|f| == 1 && (f[0] == "END" || f[0] == "OpenVPN STATISTICS"))
    || (|f| == 2 && f[0] == "Updated" && p.parseTime(f[1]).Some?)
    || (|f| == 2 && f[0] in ClientCounters && p.parseFloat(f[1]).Some?)
  }

  /** The number of lines that carry a value (two fields). */
  function CountValueLines(lines: seq<string>): nat
    decreases |lines|
  {
    if |lines| == 0 then 0
    else (if |Split(lines[0], ',')| == 2 then 1 else 0) + CountValueLines(lines[1..])
  }

  /** What an accepted line reports, read off the grammar: the update time
      as the update-time gauge, a counter as that key's counter, and nothing
      for a banner or footer. */
  function LineObservations(p: Parsers, prefix: seq<string>, line: string): seq<Observation>
    requires Accepts(p, line)
  {
    var f := Split(line, ',');
    if |f| == 2 && f[0] == "Updated" then [Observation(UpdateTimeName, Gauge, p.parseTime(f[1]).value as real, prefix)]
    else if |f| == 2 then [Observation(ClientCounters[f[0]], Counter, p.parseFloat(f[1]).value, prefix)]
    else []
  }

  /** The observations of a run of accepted lines, line after line. */
  function ClientObservations(p: Parsers, prefix: seq<string>, lines: seq<string>): (r: seq<Observation>)
    requires forall i :: 0 <= i < |lines| ==> Accepts(p, lines[i])
    decreases |lines|
  {
    if |lines| == 0 then []
    else LineObservations(p, prefix, lines[0]) + ClientObservations(p, prefix, lines[1..])
  }

  /** Accepted lines report one observation per value line. */
  lemma {:induction false} ClientObservationsCount(p: Parsers, prefix: seq<string>, lines: seq<string>)
    requires forall i :: 0 <= i < |lines| ==> Accepts(p, lines[i])
    ensures |ClientObservations(p, prefix, lines)| == CountValueLines(lines)
    decreases |lines|
  {
    if |lines| > 0 {
      ClientObservationsCount(p, prefix, lines[1..]);
    }
  }

  /** A line is accepted exactly when the grammar allows it; an update time
      becomes the update-time gauge at the parsed Unix time, a counter key
      becomes its counter at the parsed value, and banners emit nothing. */
  lemma ClientLineAccepts(p: Parsers, prefix: seq<string>, line: string)
    ensures ClientLine(p, prefix, line).Accepted? <==> Accepts(p, line)
    ensures ClientLine(p, prefix, line).Accepted? ==>
      |ClientLine(p, prefix, line).emitted| == if |Split(line, ',')| == 2 then 1 else 0
    ensures Accepts(p, line) ==> ClientLine(p, prefix, line).emitted == LineObservations(p, prefix, line)
    ensures var f := Split(line, ',');
            |f| == 2 && f[0] == "Updated" && p.parseTime(f[1]).Some? ==>
              ClientLine(p, prefix, line) == Accepted([Observation(UpdateTimeName, Gauge, p.parseTime(f[1]).value as real, prefix)])
    ensures var f := Split(line, ',');
            |f| == 2 && f[0] in ClientCounters && p.parseFloat(f[1]).Some? ==>
              ClientLine(p, prefix, line) == Accepted([Observation(ClientCounters[f[0]], Counter, p.parseFloat(f[1]).value, prefix)])
  {
    assert "Updated" !in ClientCounters;
  }

  /** A client file decodes without error exactly when every line is accepted,
      and then it yields, in line order, what each line reports: one
      observation per value line. */
  lemma {:induction false} DecodeClientOkIff(p: Parsers, prefix: seq<string>, lines: seq<string>)
    ensures DecodeClient(p, prefix, lines).Ok() <==> forall i :: 0 <= i < |lines| ==> Accepts(p, lines[i])
    ensures DecodeClient(p, prefix, lines).Ok() ==> DecodeClient(p, prefix, lines).out == ClientObservations(p, prefix, lines)
    ensures DecodeClient(p, prefix, lines).Ok() ==> |DecodeClient(p, prefix, lines).out| == CountValueLines(lines)
    decreases |lines|
  {
    if |lines| > 0 {
      ClientLineAccepts(p, prefix, lines[0]);
      DecodeClientOkIff(p, prefix, lines[1..]);
      assert forall i :: 0 < i < |lines| ==> lines[i] == lines[1..][i - 1];
    }
  }

  /** The first rejected line decides the error, and everything the lines
      before it reported stays emitted. */
  lemma {:induction false} FirstRejectedLine(p: Parsers, prefix: seq<string>, lines: seq<string>, i: nat)
    requires i < |lines|
    requires forall j :: 0 <= j < i ==> Accepts(p, lines[j])
    requires !Accepts(p, lines[i])
    ensures DecodeClient(p, prefix, lines).err == Some(ClientLine(p, prefix, lines[i]).err)
    ensures |DecodeClient(p, prefix, lines).out| == CountValueLines(lines[..i])
    ensures DecodeClient(p, prefix, lines).out == ClientObservations(p, prefix, lines[..i])
    decreases i
  {
    ClientLineAccepts(p, prefix, lines[0]);
    if i == 0 {
      assert lines[..i] == [];
    } else {
      var tail := lines[1..];
      forall j | 0 <= j < i - 1 ensures Accepts(p, tail[j]) {
        assert tail[j] == lines[j + 1];
      }
      assert tail[i - 1] == lines[i];
      FirstRejectedLine(p, prefix, tail, i - 1);
      assert lines[..i][0] == lines[0];
      assert lines[..i][1..] == tail[..i - 1];
    }
    ClientObservationsCount(p, prefix, lines[..i]);
  }
}
