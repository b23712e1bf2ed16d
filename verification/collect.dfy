/**
 The collectors of both exporters: each status source is read, detected and
 decoded, and followed by its up gauge; and the older exporter's
 `--openvpn.status_paths` flag is turned into its instance table.
 */
module Collect {
  import opened Text
  import opened Model
  import opened Emit
  import opened Detector
  import opened Server
  import opened Client

  /** Decoder options of the current exporter: labels carry the status path,
      repeats are suppressed, and server files end with the client count. */
  function CurrentOptions(path: string, ignoreIndividuals: bool): (o: Options)
    ensures ValidOptions(o) && "CLIENT_LIST" in o.directives
  {
    Options([path], Directives(ignoreIndividuals), true, true)
  }

  /** Decoder options of the older exporter: labels carry the status path
      and the instance name, nothing is suppressed, no client count. */
  function LegacyOptions(path: string, instance: string): (o: Options)
    ensures ValidOptions(o) && "CLIENT_LIST" in o.directives
  {
    DirectiveTablesAgree();
    Options([path, instance], LegacyDirectives, false, false)
  }

  /** The older exporter's server decode never emits the up gauge or a
      connected-clients gauge, whether or not it succeeds. */
  lemma LegacyServerHasNoClientCount(p: Parsers, path: string, instance: string, sep: char, lines: seq<string>)
    ensures NoReservedFrom(DecodeServer(p, LegacyOptions(path, instance), sep, lines, Start).out, 0)
  {
    ConnectedClientsAtEnd(p, LegacyOptions(path, instance), sep, lines, Start);
  }

  /** No observation is the up gauge. */
  predicate NoUp(out: seq<Observation>) {
    forall i :: 0 <= i < |out| ==> out[i].name != UpName
  }

  /** Detects the format of a status blob and hands its lines to the
      matching decoder; an unrecognised blob is an error that names the
      peeked elements. */
  function DecodeStatus(p: Parsers, opts: Options, blob: string): (r: Run)
    requires ValidOptions(opts) && "CLIENT_LIST" in opts.directives
    ensures NoUp(r.out)
    ensures (r.err.Some? && r.err.value.UnexpectedContents?) <==> Detect(blob).Unknown?
    ensures Detect(blob).Unknown? ==> r.out == [] && r.err.value.lead == Peek(blob)
    ensures HasPrefix(blob, ServerCommaPrefix) ==> r == DecodeServer(p, opts, ',', ScanLines(blob), Start)
    ensures HasPrefix(blob, ServerTabPrefix) ==> r == DecodeServer(p, opts, '\t', ScanLines(blob), Start)
    ensures HasPrefix(blob, ClientPrefix) ==> r == DecodeClient(p, opts.prefix, ScanLines(blob))
  {
    match Detect(blob)
    case Unknown(lead) => Run([], Some(UnexpectedContents(lead)))
    case Found(format) =>
      var lines := ScanLines(blob);
      if format == ClientStats then
        ClientNoUp(p, opts.prefix, lines);
        DecodeClient(p, opts.prefix, lines)
      else
        var sep := if format == ServerComma then ',' else '\t';
        ServerNoUp(p, opts, sep, lines);
        DecodeServer(p, opts, sep, lines, Start)
  }

  lemma ServerNoUp(p: Parsers, opts: Options, sep: char, lines: seq<string>)
    requires ValidOptions(opts) && "CLIENT_LIST" in opts.directives
    ensures NoUp(DecodeServer(p, opts, sep, lines, Start).out)
  {
    var r := DecodeServer(p, opts, sep, lines, Start);
    ConnectedClientsAtEnd(p, opts, sep, lines, Start);
    if r.Ok() && opts.countClients {
      NoUpOfCounted(r.out, opts, CountClientRecords(lines, sep));
    } else {
      NoUpOfNoReserved(r.out);
    }
  }

  lemma NoUpOfNoReserved(out: seq<Observation>)
    requires NoReservedFrom(out, 0)
    ensures NoUp(out)
  {
    forall i | 0 <= i < |out| ensures out[i].name != UpName {
      assert !Reserved(out[i].name);
    }
  }

  lemma NoUpOfCounted(out: seq<Observation>, opts: Options, n: nat)
    requires EndsWithCount(out, opts, n)
    ensures NoUp(out)
  {
    var k := |out| - 1;
    NoUpOfNoReserved(out[..k]);
    forall i | 0 <= i < |out| ensures out[i].name != UpName {
      if i < k {
        assert out[i] == out[..k][i];
      }
    }
  }

  lemma ClientNoUp(p: Parsers, prefix: seq<string>, lines: seq<string>)
    ensures NoUp(DecodeClient(p, prefix, lines).out)
  {
  }

  /** A server file of either version written as lines, each ended by a
      newline, decodes as those lines with that version's separator:
      detection and line splitting lose nothing. */
  lemma ServerFileDecodesItsLines(p: Parsers, opts: Options, sep: char, lines: seq<string>)
    requires ValidOptions(opts) && "CLIENT_LIST" in opts.directives
    requires |lines| >= 1
    requires (sep == ',' && HasPrefix(lines[0], ServerCommaPrefix)) || (sep == '\t' && HasPrefix(lines[0], ServerTabPrefix))
    requires forall i :: 0 <= i < |lines| ==> '\n' !in lines[i]
    requires forall i :: 0 <= i < |lines| ==> |lines[i]| == 0 || lines[i][|lines[i]| - 1] != '\r'
    ensures DecodeStatus(p, opts, Terminated(lines)) == DecodeServer(p, opts, sep, lines, Start)
  {
    var blob := Terminated(lines);
    var n := |ServerCommaPrefix|;
    assert blob == lines[0] + ("\n" + Terminated(lines[1..]));
    assert blob[..n] == lines[0][..n];
    ScanLinesOfTerminated(lines);
  }

  /** A client statistics file written as lines, each ended by a newline,
      decodes as those lines. */
  lemma ClientFileDecodesItsLines(p: Parsers, opts: Options, lines: seq<string>)
    requires ValidOptions(opts) && "CLIENT_LIST" in opts.directives
    requires |lines| >= 1 && HasPrefix(lines[0], ClientPrefix)
    requires forall i :: 0 <= i < |lines| ==> '\n' !in lines[i]
    requires forall i :: 0 <= i < |lines| ==> |lines[i]| == 0 || lines[i][|lines[i]| - 1] != '\r'
    ensures DecodeStatus(p, opts, Terminated(lines)) == DecodeClient(p, opts.prefix, lines)
  {
    var blob := Terminated(lines);
    var n := |ClientPrefix|;
    assert blob == lines[0] + ("\n" + Terminated(lines[1..]));
    assert blob[..n] == lines[0][..n];
    ScanLinesOfTerminated(lines);
  }

  /** What reading the source at `path` yields: a decode of its contents,
      or the open error when there is no such file. */
  function ReadStatus(p: Parsers, opts: Options, path: string, files: map<string, string>): (r: Run)
    requires ValidOptions(opts) && "CLIENT_LIST" in opts.directives
    ensures NoUp(r.out)
    ensures r.Ok() ==> path in files
  {
    if path in files then DecodeStatus(p, opts, files[path]) else Run([], Some(OpenError(path)))
  }

  /** The up gauge: 1 when the source was read and decoded without error. */
  function Up(ok: bool, labels: seq<string>): Observation {
    Observation(UpName, Gauge, if ok then 1.0 else 0.0, labels)
  }

  /** The up gauges of a sequence of observations, in order. */
  function Ups(out: seq<Observation>): (r: seq<Observation>)
    ensures |r| <= |out|
    decreases |out|
  {
    if |out| == 0 then []
    else (if out[0].name == UpName then [out[0]] else []) + Ups(out[1..])
  }

  lemma {:induction false} UpsAppend(a: seq<Observation>, b: seq<Observation>)
    ensures Ups(a + b) == Ups(a) + Ups(b)
    decreases |a|
  {
    if |a| > 0 {
      var h := if a[0].name == UpName then [a[0]] else [];
      assert (a + b)[0] == a[0];
      assert (a + b)[1..] == a[1..] + b;
      assert Ups(a + b) == h + Ups(a[1..] + b);
      UpsAppend(a[1..], b);
      assert Ups(a) == h + Ups(a[1..]);
      assert Ups(a + b) == h + (Ups(a[1..]) + Ups(b));
    } else {
      assert a + b == b;
    }
  }

  lemma {:induction false} UpsOfNoUp(out: seq<Observation>)
    requires NoUp(out)
    ensures Ups(out) == []
    decreases |out|
  {
    if |out| > 0 {
      UpsOfNoUp(out[1..]);
    }
  }

  /** The up gauge of one source, after the observations of its decode. */
  lemma UpsOfSource(r: Run, up: Observation)
    requires NoUp(r.out)
    requires up.name == UpName
    ensures Ups(r.out + [up]) == [up]
  {
    UpsAppend(r.out, [up]);
    UpsOfNoUp(r.out);
    assert Ups([up]) == [up] + Ups([]);
  }

  /** One source's observations, its up gauge, then the rest of the sweep:
      the up gauges are this one followed by those of the rest. */
  lemma UpsOfStep(r: Run, up: Observation, rest: seq<Observation>)
    requires NoUp(r.out)
    requires up.name == UpName
    ensures Ups(r.out + [up] + rest) == [up] + Ups(rest)
  {
    UpsOfSource(r, up);
    UpsAppend(r.out + [up], rest);
  }

  /** A sweep over status sources: each source in turn, its observations
      followed by its up gauge. `scrape` reads and decodes one source and
      `labelsOf` gives the labels of its up gauge. */
  function Sweep<K>(scrape: K -> Run, labelsOf: K -> seq<string>, sources: seq<K>): (out: seq<Observation>)
    ensures |out| >= |sources|
    decreases |sources|
  {
    if |sources| == 0 then []
    else
      var r := scrape(sources[0]);
      r.out + [Up(r.Ok(), labelsOf(sources[0]))] + Sweep(scrape, labelsOf, sources[1..])
  }

  /** When no decode emits the up gauge itself, a sweep has exactly one up
      gauge per source, in source order, valued 1 exactly when that source's
      decode succeeded. */
  lemma {:induction false} OneUpPerSource<K>(scrape: K -> Run, labelsOf: K -> seq<string>, sources: seq<K>)
    requires forall k :: NoUp(scrape(k).out)
    ensures var ups := Ups(Sweep(scrape, labelsOf, sources));
            && |ups| == |sources|
            && forall i :: 0 <= i < |sources| ==> ups[i] == Up(scrape(sources[i]).Ok(), labelsOf(sources[i]))
    decreases |sources|
  {
    if |sources| > 0 {
      var r := scrape(sources[0]);
      var rest := Sweep(scrape, labelsOf, sources[1..]);
      UpsOfStep(r, Up(r.Ok(), labelsOf(sources[0])), rest);
      OneUpPerSource(scrape, labelsOf, sources[1..]);
      var ups := Ups(Sweep(scrape, labelsOf, sources));
      forall i | 0 < i < |sources| ensures ups[i] == Up(scrape(sources[i]).Ok(), labelsOf(sources[i])) {
        assert sources[i] == sources[1..][i - 1];
      }
    }
  }

  /** The current exporter's file mode: each status path in turn, its up
      gauge labelled with the path. The file system is the map `files` from
      path to contents. */
  function CollectFiles(p: Parsers, ignoreIndividuals: bool, paths: seq<string>, files: map<string, string>): (out: seq<Observation>)
    ensures |Ups(out)| == |paths|
    ensures forall i :: 0 <= i < |paths| ==>
              Ups(out)[i] == Up(ReadStatus(p, CurrentOptions(paths[i], ignoreIndividuals), paths[i], files).Ok(), [paths[i]])
  {
    var scrape := path => ReadStatus(p, CurrentOptions(path, ignoreIndividuals), path, files);
    OneUpPerSource(scrape, path => [path], paths);
    Sweep(scrape, path => [path], paths)
  }

  /** Every status path gets exactly one up gauge, in path order, labelled
      with the path, valued 1 exactly when its file was read and decoded
      without error. */
  lemma OneUpPerPath(p: Parsers, ignoreIndividuals: bool, paths: seq<string>, files: map<string, string>)
    ensures var ups := Ups(CollectFiles(p, ignoreIndividuals, paths, files));
            && |ups| == |paths|
            && forall i :: 0 <= i < |paths| ==>
                 ups[i] == Up(ReadStatus(p, CurrentOptions(paths[i], ignoreIndividuals), paths[i], files).Ok(), [paths[i]])
  {
    OneUpPerSource(path => ReadStatus(p, CurrentOptions(path, ignoreIndividuals), path, files), path => [path], paths);
  }

  /** A path with no file is reported down. */
  lemma MissingFileIsDown(p: Parsers, ignoreIndividuals: bool, paths: seq<string>, files: map<string, string>, i: nat)
    requires i < |paths| && paths[i] !in files
    ensures var ups := Ups(CollectFiles(p, ignoreIndividuals, paths, files));
            |ups| == |paths| && ups[i] == Up(false, [paths[i]])
  {
    OneUpPerPath(p, ignoreIndividuals, paths, files);
  }

  /** Reads the source of one instance of the older exporter, given as its
      (name, status path) entry. */
  function ReadInstance(p: Parsers, files: map<string, string>, entry: (string, string)): Run {
    ReadStatus(p, LegacyOptions(entry.1, entry.0), entry.1, files)
  }

  /** The older exporter: each instance in turn, its up gauge labelled with
      the status path and the instance name. `entries` stands for the
      instance table that `ParseStatusPaths` builds, listed in Go's map
      iteration order: each of its (name, path) entries once. Nothing here
      depends on that, so the lemmas below hold for any list. */
  function CollectInstances(p: Parsers, entries: seq<(string, string)>, files: map<string, string>): (out: seq<Observation>)
    ensures |Ups(out)| == |entries|
    ensures forall i :: 0 <= i < |entries| ==>
              Ups(out)[i] == Up(ReadInstance(p, files, entries[i]).Ok(), [entries[i].1, entries[i].0])
  {
    var scrape := (e: (string, string)) => ReadInstance(p, files, e);
    OneUpPerSource(scrape, (e: (string, string)) => [e.1, e.0], entries);
    Sweep(scrape, (e: (string, string)) => [e.1, e.0], entries)
  }

  /** Every instance gets exactly one up gauge, in iteration order, labelled
      with its status path and name, valued 1 exactly when its file was read
      and decoded without error. */
  lemma OneUpPerInstance(p: Parsers, entries: seq<(string, string)>, files: map<string, string>)
    ensures var ups := Ups(CollectInstances(p, entries, files));
            && |ups| == |entries|
            && forall i :: 0 <= i < |entries| ==>
                 ups[i] == Up(ReadStatus(p, LegacyOptions(entries[i].1, entries[i].0), entries[i].1, files).Ok(),
                              [entries[i].1, entries[i].0])
  {
    OneUpPerSource((e: (string, string)) => ReadInstance(p, files, e), (e: (string, string)) => [e.1, e.0], entries);
  }

  /** One comma-separated segment of the status-paths flag: `path` names an
      instance after its own path, `name:path` names it explicitly; a
      segment with more than one colon, or an empty name or path, is
      skipped. */
  function SegmentEntry(segment: string): (r: Option<(string, string)>)
    ensures r.Some? ==> r.value.0 != "" && r.value.1 != ""
    ensures r.Some? ==> ':' !in r.value.0 && ':' !in r.value.1
    ensures r.Some? ==> segment == r.value.0 + ":" + r.value.1 || (segment == r.value.1 && r.value.0 == r.value.1)
  {
    var s := Split(segment, ':');
    var n := |s|;
    if n > 2 || s[0] == "" || s[n - 1] == "" then None
    else
      assert n == 2 ==> s[1..] == [s[1]] && Join(s, ':') == s[0] + ":" + s[1];
      Some((s[0], s[n - 1]))
  }

  /** The instance table built from the segments in order; a later segment
      with the same name replaces an earlier one. */
  function ParseSegments(segments: seq<string>): (r: map<string, string>)
    ensures forall k :: k in r ==> k != "" && r[k] != "" && ':' !in k && ':' !in r[k]
    decreases |segments|
  {
    if |segments| == 0 then map[]
    else
      var m := ParseSegments(segments[..|segments| - 1]);
      match SegmentEntry(segments[|segments| - 1])
      case None => m
      case Some(e) => m[e.0 := e.1]
  }

  /** The older exporter's instance table from its `--openvpn.status_paths`
      flag: every instance has a non-empty name and path, neither holding a
      colon. */
  function ParseStatusPaths(flag: string): (r: map<string, string>)
    ensures forall k :: k in r ==> k != "" && r[k] != "" && ':' !in k && ':' !in r[k]
  {
    ParseSegments(Split(flag, ','))
  }

  /** The segment `i` is kept and names instance `name`. */
  predicate Names(segments: seq<string>, i: int, name: string)
    requires 0 <= i < |segments|
  {
    SegmentEntry(segments[i]).Some? && SegmentEntry(segments[i]).value.0 == name
  }

  /** An instance is in the table exactly when some kept segment names it. */
  lemma {:induction false} ParseSegmentsKeys(segments: seq<string>, name: string)
    ensures name in ParseSegments(segments) <==> exists i :: 0 <= i < |segments| && Names(segments, i, name)
    decreases |segments|
  {
    if |segments| > 0 {
      var n := |segments| - 1;
      var init := segments[..n];
      ParseSegmentsKeys(init, name);
      assert forall i :: 0 <= i < n ==> init[i] == segments[i];
      if exists i :: 0 <= i < |segments| && Names(segments, i, name) {
        var i :| 0 <= i < |segments| && Names(segments, i, name);
        if i < n {
          assert Names(init, i, name);
        }
      }
      if name in ParseSegments(segments) && !Names(segments, n, name) {
        var i :| 0 <= i < n && Names(init, i, name);
        assert Names(segments, i, name);
      }
    }
  }

  /** An instance's path is the one of the last segment that names it. */
  lemma {:induction false} ParseSegmentsLastWins(segments: seq<string>, name: string, i: nat)
    requires i < |segments| && Names(segments, i, name)
    requires forall j :: i < j < |segments| ==> !Names(segments, j, name)
    ensures name in ParseSegments(segments)
    ensures ParseSegments(segments)[name] == SegmentEntry(segments[i]).value.1
    decreases |segments|
  {
    var n := |segments| - 1;
    if i < n {
      var init := segments[..n];
      assert forall j :: 0 <= j < n ==> init[j] == segments[j];
      assert Names(init, i, name);
      forall j | i < j < n ensures !Names(init, j, name) {
        assert !Names(segments, j, name);
      }
      ParseSegmentsLastWins(init, name, i);
      assert !Names(segments, n, name);
    }
  }

  /** A segment written as `name:path` yields that entry, and a segment
      holding only a path names the instance after the path. */
  lemma SegmentRoundTrip(name: string, path: string)
    requires name != "" && path != ""
    requires ':' !in name && ':' !in path
    ensures SegmentEntry(name + ":" + path) == Some((name, path))
    ensures SegmentEntry(path) == Some((path, path))
  {
    SplitAtFirstSep(name, ':', path);
    SplitWithoutSep(path, ':');
  }

  /** Segments with two colons, an empty name or an empty path are
      skipped. */
  lemma SegmentSkips()
    ensures SegmentEntry("a:b:c").None?
    ensures SegmentEntry("a:").None? && SegmentEntry(":b").None? && SegmentEntry("").None?
  {
    var three := ["a", "b", "c"];
    assert three[1..][1..] == ["c"];
    assert Join(three, ':') == "a:b:c";
    SplitJoin(three, ':');
    var tail := ["a", ""];
    assert tail[1..] == [""];
    assert Join(tail, ':') == "a:";
    SplitJoin(tail, ':');
    var head := ["", "b"];
    assert head[1..] == ["b"];
    assert Join(head, ':') == ":b";
    SplitJoin(head, ':');
  }

  /** The flag text that lists `entries` as `name:path` segments. */
  function FormatStatusPaths(entries: seq<(string, string)>): string
    requires |entries| >= 1
  {
    Join(seq(|entries|, i requires 0 <= i < |entries| => entries[i].0 + ":" + entries[i].1), ',')
  }

  /** Parsing a flag written from distinctly named entries, with no colon
      or comma inside a name or path, gives back exactly those entries. */
  lemma StatusPathsRoundTrip(entries: seq<(string, string)>)
    requires |entries| >= 1
    requires forall i :: 0 <= i < |entries| ==> entries[i].0 != "" && entries[i].1 != ""
    requires forall i :: 0 <= i < |entries| ==> ':' !in entries[i].0 && ':' !in entries[i].1
    requires forall i :: 0 <= i < |entries| ==> ',' !in entries[i].0 && ',' !in entries[i].1
    requires forall i, j :: 0 <= i < j < |entries| ==> entries[i].0 != entries[j].0
    ensures var t := ParseStatusPaths(FormatStatusPaths(entries));
            && (forall i :: 0 <= i < |entries| ==> entries[i].0 in t && t[entries[i].0] == entries[i].1)
            && (forall k :: k in t ==> exists i :: 0 <= i < |entries| && entries[i].0 == k)
  {
    var segments := seq(|entries|, i requires 0 <= i < |entries| => entries[i].0 + ":" + entries[i].1);
    forall i | 0 <= i < |segments| ensures ',' !in segments[i] && SegmentEntry(segments[i]) == Some(entries[i]) {
      SegmentRoundTrip(entries[i].0, entries[i].1);
    }
    SplitJoin(segments, ',');
    var t := ParseStatusPaths(FormatStatusPaths(entries));
    assert t == ParseSegments(segments);
    forall i | 0 <= i < |entries| ensures entries[i].0 in t && t[entries[i].0] == entries[i].1 {
      assert Names(segments, i, entries[i].0);
      forall j | i < j < |segments| ensures !Names(segments, j, entries[i].0) {
        assert SegmentEntry(segments[j]) == Some(entries[j]);
      }
      ParseSegmentsLastWins(segments, entries[i].0, i);
    }
    forall k | k in t ensures exists i :: 0 <= i < |entries| && entries[i].0 == k {
      ParseSegmentsKeys(segments, k);
      var i :| 0 <= i < |segments| && Names(segments, i, k);
      assert entries[i].0 == k;
    }
  }
}
