/**
 The server status decoder. Each line is split on the separator the detector
 chose and dispatched on its first field. `HEADER` lines announce the column
 names of a record type; data records of that type are then read against the
 most recent announcement, turned into a label tuple and emitted metric by
 metric. The two exporter variants differ only in the `Options` they pass.
 */
module Server {
  import opened Text
  import opened Model
  import opened Emit

  /** What distinguishes the two exporter variants: the label values every
      observation starts with (the status path, and in the older exporter the
      instance name), the directive table, whether repeated label tuples are
      suppressed, and whether the connected-clients gauge is emitted. */
  datatype Options = Options(prefix: seq<string>, directives: map<string, Directive>, dedupe: bool, countClients: bool)

  /** The directive keywords the decoder handles itself. */
  predicate IsKeyword(k: string) {
    k == "END" || k == "GLOBAL_STATS" || k == "HEADER" || k == "TIME" || k == "TITLE"
  }

  /** Options as both exporters build them: a non-empty label prefix, and a
      table of well-formed directives none of which is named like a keyword. */
  predicate ValidOptions(opts: Options) {
    && |opts.prefix| >= 1
    && (forall k :: k in opts.directives ==> !IsKeyword(k) && WellFormedDirective(opts.directives[k]))
  }

  /** The decoder state of one pass: the columns announced per record type,
      the number of CLIENT_LIST records seen, and the emission so far. */
  datatype Scan = Scan(headers: map<string, seq<string>>, clients: nat, em: Emission)

  datatype Step = Step(scan: Scan, err: Option<Error>)

  const Start: Scan := Scan(map[], 0, Emission(map[], []))

  // The shapes of a split line.

  predicate IsNoOp(f: seq<string>)
    requires |f| >= 1
  {
    (f[0] == "END" && |f| == 1) || f[0] == "GLOBAL_STATS" || (f[0] == "TITLE" && |f| == 2)
  }

  predicate IsHeader(f: seq<string>)
    requires |f| >= 1
  {
    f[0] == "HEADER" && |f| > 2
  }

  predicate IsTime(f: seq<string>)
    requires |f| >= 1
  {
    f[0] == "TIME" && |f| == 3
  }

  predicate IsRecord(opts: Options, f: seq<string>)
    requires |f| >= 1
  {
    f[0] in opts.directives
  }

  /** The line shapes the decoder accepts. */
  predicate Recognized(opts: Options, f: seq<string>)
    requires |f| >= 1
  {
    IsNoOp(f) || IsHeader(f) || IsTime(f) || IsRecord(opts, f)
  }

  /** The announced columns after one line: a HEADER line replaces the entry
      of the record type it names, every other line leaves them alone. */
  function HeaderUpdate(h: map<string, seq<string>>, f: seq<string>): map<string, seq<string>>
    requires |f| >= 1
  {
    if IsHeader(f) then h[f[1] := f[2..]] else h
  }

  /** The position of the last occurrence of `x` in `xs`. */
  function LastIndex(xs: seq<string>, x: string): (i: nat)
    requires x in xs
    ensures i < |xs| && xs[i] == x
    ensures forall j :: i < j < |xs| ==> xs[j] != x
    decreases |xs|
  {
    if xs[|xs| - 1] == x then |xs| - 1
    else
      assert x in xs[..|xs| - 1] by {
        var k :| 0 <= k < |xs| && xs[k] == x;
        assert xs[..|xs| - 1][k] == x;
      }
      LastIndex(xs[..|xs| - 1], x)
  }

  /** `m` after assigning `vals[i]` to `names[i]` for each `i` in turn. */
  function Assign(m: map<string, string>, names: seq<string>, vals: seq<string>): (r: map<string, string>)
    requires |names| == |vals|
    ensures forall c :: c in r <==> c in m || c in names
    ensures forall c :: c in names ==> r[c] == vals[LastIndex(names, c)]
    ensures forall c :: c in m && c !in names ==> r[c] == m[c]
    decreases |names|
  {
    if |names| == 0 then m
    else
      var n := |names| - 1;
      assert forall c :: c in names && c != names[n] ==> c in names[..n] by {
        forall c | c in names && c != names[n] ensures c in names[..n] {
          var k :| 0 <= k < |names| && names[k] == c;
          assert names[..n][k] == c;
        }
      }
      assert forall c :: c in names[..n] ==> c in names;
      Assign(m, names[..n], vals[..n])[names[n] := vals[n]]
  }

  /** The value a record holds for each column: the label columns default
      to the empty string, then each announced column takes the field at its
      position (a column announced twice keeps the later field). */
  function ColumnValues(labelColumns: seq<string>, names: seq<string>, fields: seq<string>): (r: map<string, string>)
    requires |fields| == |names| + 1
    ensures forall c :: c in r <==> c in labelColumns || c in names
  {
    Assign(map c | c in labelColumns :: "", names, fields[1..])
  }

  /** A record's column values: an announced column holds the field at its
      last announced position, and a label column the header does not
      announce holds the empty string. */
  lemma ColumnValuesRead(labelColumns: seq<string>, names: seq<string>, fields: seq<string>)
    requires |fields| == |names| + 1
    ensures var r := ColumnValues(labelColumns, names, fields);
            && (forall c :: c in names ==> r[c] == fields[LastIndex(names, c) + 1])
            && (forall c :: c in labelColumns && c !in names ==> r[c] == "")
  {
  }

  /** The value of column `c` in a record read against `names`, or the empty
      string when the header does not announce it. */
  function ColumnOrBlank(c: string, names: seq<string>, fields: seq<string>): string
    requires |fields| == |names| + 1
  {
    if c in names then fields[LastIndex(names, c) + 1] else ""
  }

  /** The label tuple of a record: the option prefix followed by the value of
      each label column of its directive, in the directive's order. */
  function RecordLabels(opts: Options, d: Directive, names: seq<string>, fields: seq<string>): (r: seq<string>)
    requires |fields| == |names| + 1
    ensures |r| == |opts.prefix| + |d.labelColumns|
    ensures r[..|opts.prefix|] == opts.prefix
    ensures forall i :: 0 <= i < |d.labelColumns| ==>
      r[|opts.prefix| + i] == ColumnOrBlank(d.labelColumns[i], names, fields)
  {
    var values := ColumnValues(d.labelColumns, names, fields);
    var cols := d.labelColumns;
    opts.prefix + seq(|cols|, i requires 0 <= i < |cols| => values[cols[i]])
  }

  /** One line of a server status file. */
  function ServerLine(p: Parsers, opts: Options, sep: char, s: Scan, line: string): (r: Step)
    ensures var f := Split(line, sep);
            r.scan.headers == HeaderUpdate(s.headers, f)
    ensures var f := Split(line, sep);
            ValidOptions(opts) ==>
              r.scan.clients == s.clients + if f[0] == "CLIENT_LIST" && f[0] in opts.directives then 1 else 0
    ensures |s.em.out| <= |r.scan.em.out| && r.scan.em.out[..|s.em.out|] == s.em.out
    ensures var f := Split(line, sep);
            r.err == Some(UnsupportedKey(f[0])) <==> !Recognized(opts, f)
    ensures var f := Split(line, sep);
            IsNoOp(f) ==> r == Step(s, None)
    ensures var f := Split(line, sep);
            IsHeader(f) ==> r == Step(s.(headers := HeaderUpdate(s.headers, f)), None)
    ensures var f := Split(line, sep);
            ValidOptions(opts) && IsRecord(opts, f) && f[0] !in s.headers ==>
              r.err == Some(MissingHeader(f[0]))
    ensures var f := Split(line, sep);
            ValidOptions(opts) && IsRecord(opts, f) && f[0] in s.headers && |f| != |s.headers[f[0]]| + 1 ==>
              r.err == Some(ColumnCountMismatch(f[0]))
    ensures var f := Split(line, sep);
            IsTime(f) ==>
              if p.parseFloat(f[2]).None? then r == Step(s, Some(ParseError(f[2])))
              else r == Step(s.(em := s.em.(out := s.em.out + [Observation(UpdateTimeName, Gauge, p.parseFloat(f[2]).value, opts.prefix)])), None)
    ensures r.err.Some? ==> LineError(r.err.value)
  {
    var f := Split(line, sep);
    var key := f[0];
    if key == "END" && |f| == 1 then Step(s, None)
    else if key == "GLOBAL_STATS" then Step(s, None)
    else if key == "HEADER" && |f| > 2 then Step(s.(headers := s.headers[f[1] := f[2..]]), None)
    else if key == "TIME" && |f| == 3 then
      match p.parseFloat(f[2])
      case None => Step(s, Some(ParseError(f[2])))
      case Some(t) =>
        Step(s.(em := s.em.(out := s.em.out + [Observation(UpdateTimeName, Gauge, t, opts.prefix)])), None)
    else if key == "TITLE" && |f| == 2 then Step(s, None)
    else if key in opts.directives then RecordLine(p, opts, s, f)
    else Step(s, Some(UnsupportedKey(key)))
  }

  /** A data line of a record type the table exports: a CLIENT_LIST record
      is counted first, then the record must match its announced header, and
      then its metrics are emitted. */
  function RecordLine(p: Parsers, opts: Options, s: Scan, f: seq<string>): (r: Step)
    requires |f| >= 1 && IsRecord(opts, f)
    ensures r.scan.headers == s.headers
    ensures r.scan.clients == s.clients + if f[0] == "CLIENT_LIST" then 1 else 0
    ensures |s.em.out| <= |r.scan.em.out| && r.scan.em.out[..|s.em.out|] == s.em.out
    ensures r.err.Some? ==> r.err.value.MissingHeader? || r.err.value.ColumnCountMismatch? || r.err.value.ParseError?
    ensures f[0] !in s.headers ==> r.err == Some(MissingHeader(f[0]))
    ensures f[0] in s.headers && |f| != |s.headers[f[0]]| + 1 ==> r.err == Some(ColumnCountMismatch(f[0]))
  {
    var key := f[0];
    var d := opts.directives[key];
    var s1 := if key == "CLIENT_LIST" then s.(clients := s.clients + 1) else s;
    if key !in s.headers then Step(s1, Some(MissingHeader(key)))
    else
      var names := s.headers[key];
      if |f| != |names| + 1 then Step(s1, Some(ColumnCountMismatch(key)))
      else
        var values := ColumnValues(d.labelColumns, names, f);
        var labels := RecordLabels(opts, d, names, f);
        var e := EmitMetrics(p, opts.dedupe, d.metrics, values, labels, s1.em);
        Step(s1.(em := e.em), e.err)
  }

  /** Decodes the remaining lines from state `s`. After the last line the
      connected-clients gauge is emitted (when the options ask for it); the
      first error ends the pass at once. */
  function DecodeServer(p: Parsers, opts: Options, sep: char, lines: seq<string>, s: Scan): (r: Run)
    ensures |s.em.out| <= |r.out| && r.out[..|s.em.out|] == s.em.out
    ensures r.err.Some? ==> LineError(r.err.value)
    decreases |lines|
  {
    if |lines| == 0 then
      Run(s.em.out + if opts.countClients then [ConnectedClients(opts, s.clients)] else [], None)
    else
      var st := ServerLine(p, opts, sep, s, lines[0]);
      if st.err.Some? then Run(st.scan.em.out, st.err)
      else
        var r := DecodeServer(p, opts, sep, lines[1..], st.scan);
        assert r.out[..|s.em.out|] == r.out[..|st.scan.em.out|][..|s.em.out|];
        r
  }

  function ConnectedClients(opts: Options, n: nat): Observation {
    Observation(ConnectedClientsName, Gauge, n as real, opts.prefix)
  }

  /** The number of lines whose first field is CLIENT_LIST. */
  function CountClientRecords(lines: seq<string>, sep: char): nat
    decreases |lines|
  {
    if |lines| == 0 then 0
    else (if Split(lines[0], sep)[0] == "CLIENT_LIST" then 1 else 0) + CountClientRecords(lines[1..], sep)
  }

  /** The announced columns after a sequence of lines: only HEADER lines count. */
  function HeadersAfter(lines: seq<string>, sep: char, h: map<string, seq<string>>): map<string, seq<string>>
    decreases |lines|
  {
    if |lines| == 0 then h else HeadersAfter(lines[1..], sep, HeaderUpdate(h, Split(lines[0], sep)))
  }

  lemma NoReservedJoin(out: seq<Observation>, mid: nat, from: nat)
    requires from <= mid <= |out|
    requires NoReservedFrom(out[..mid], from)
    requires NoReservedFrom(out, mid)
    ensures NoReservedFrom(out, from)
  {
    forall i | from <= i < |out| ensures !Reserved(out[i].name) {
      if i < mid {
        assert out[..mid][i] == out[i];
      }
    }
  }

  /** A line never emits the up metric or the connected-clients gauge. */
  lemma ServerLineAvoidsReserved(p: Parsers, opts: Options, sep: char, s: Scan, line: string)
    requires ValidOptions(opts)
    ensures NoReservedFrom(ServerLine(p, opts, sep, s, line).scan.em.out, |s.em.out|)
  {
    var f := Split(line, sep);
    var key := f[0];
    if !IsNoOp(f) && !IsHeader(f) && !IsTime(f) && key in opts.directives && key in s.headers
       && |f| == |s.headers[key]| + 1 {
      var d := opts.directives[key];
      var names := s.headers[key];
      var values := ColumnValues(d.labelColumns, names, f);
      var labels := RecordLabels(opts, d, names, f);
      assert WellFormedDirective(d);
      EmitAvoidsReserved(p, opts.dedupe, d.metrics, values, labels, s.em);
    }
  }

  /** One line keeps the output free of reserved metrics and counts exactly
      the CLIENT_LIST records. */
  lemma ServerStep(p: Parsers, opts: Options, sep: char, s: Scan, line: string)
    requires ValidOptions(opts)
    requires "CLIENT_LIST" in opts.directives
    requires NoReservedFrom(s.em.out, 0)
    ensures var st := ServerLine(p, opts, sep, s, line);
            && st.scan.clients == s.clients + (if Split(line, sep)[0] == "CLIENT_LIST" then 1 else 0)
            && NoReservedFrom(st.scan.em.out, 0)
  {
    var st := ServerLine(p, opts, sep, s, line);
    ServerLineAvoidsReserved(p, opts, sep, s, line);
    NoReservedJoin(st.scan.em.out, |s.em.out|, 0);
  }

  /** The output ends with the connected-clients gauge valued `n`, and
      nothing before it is reserved. */
  predicate EndsWithCount(out: seq<Observation>, opts: Options, n: nat) {
    && |out| >= 1
    && out[|out| - 1] == ConnectedClients(opts, n)
    && NoReservedFrom(out[..|out| - 1], 0)
  }

  /** The connected-clients gauge comes last, once, and only after a pass
      without error; its value is the number of CLIENT_LIST records read,
      whether or not their metrics were suppressed as repeats. */
  lemma {:induction false} ConnectedClientsAtEnd(p: Parsers, opts: Options, sep: char, lines: seq<string>, s: Scan)
    requires ValidOptions(opts)
    requires "CLIENT_LIST" in opts.directives
    requires NoReservedFrom(s.em.out, 0)
    ensures var r := DecodeServer(p, opts, sep, lines, s);
            if r.Ok() && opts.countClients then EndsWithCount(r.out, opts, s.clients + CountClientRecords(lines, sep))
            else NoReservedFrom(r.out, 0)
    decreases |lines|
  {
    if |lines| == 0 {
      var r := DecodeServer(p, opts, sep, lines, s);
      if opts.countClients {
        assert r.out[..|r.out| - 1] == s.em.out;
      }
    } else {
      var st := ServerLine(p, opts, sep, s, lines[0]);
      ServerStep(p, opts, sep, s, lines[0]);
      var r := DecodeServer(p, opts, sep, lines, s);
      if st.err.None? {
        ConnectedClientsAtEnd(p, opts, sep, lines[1..], st.scan);
        assert r == DecodeServer(p, opts, sep, lines[1..], st.scan);
      } else {
        assert r.out == st.scan.em.out;
      }
    }
  }

  /** A record line conforms to the announced columns: a HEADER for its type
      has been seen and the record has one field per announced column plus
      the type itself. */
  predicate Conforms(opts: Options, f: seq<string>, h: map<string, seq<string>>)
    requires |f| >= 1
  {
    IsRecord(opts, f) ==> f[0] in h && |f| == |h[f[0]]| + 1
  }

  /** In a pass without error, every record conforms to the columns announced
      by the HEADER lines before it. */
  lemma {:induction false} RecordsFollowHeaders(p: Parsers, opts: Options, sep: char, lines: seq<string>, s: Scan)
    requires ValidOptions(opts)
    ensures DecodeServer(p, opts, sep, lines, s).Ok() ==>
      forall i :: 0 <= i < |lines| ==> Conforms(opts, Split(lines[i], sep), HeadersAfter(lines[..i], sep, s.headers))
    decreases |lines|
  {
    if |lines| > 0 && DecodeServer(p, opts, sep, lines, s).Ok() {
      var st := ServerLine(p, opts, sep, s, lines[0]);
      assert st.err.None?;
      RecordsFollowHeaders(p, opts, sep, lines[1..], st.scan);
      forall i | 0 <= i < |lines|
        ensures Conforms(opts, Split(lines[i], sep), HeadersAfter(lines[..i], sep, s.headers))
      {
        if i > 0 {
          assert lines[..i][1..] == lines[1..][..i - 1];
          assert lines[1..][i - 1] == lines[i];
        }
      }
    }
  }

  /** The line announces the columns of record type `k`. */
  predicate AnnouncesHeader(line: string, sep: char, k: string) {
    var f := Split(line, sep);
    IsHeader(f) && f[1] == k
  }

  /** A record type has announced columns after some lines exactly when it
      had them before or one of the lines announces them. */
  lemma {:induction false} HeadersAfterKeys(lines: seq<string>, sep: char, h: map<string, seq<string>>, k: string)
    ensures k in HeadersAfter(lines, sep, h) <==>
            k in h || exists j :: 0 <= j < |lines| && AnnouncesHeader(lines[j], sep, k)
    decreases |lines|
  {
    if |lines| > 0 {
      var h1 := HeaderUpdate(h, Split(lines[0], sep));
      HeadersAfterKeys(lines[1..], sep, h1, k);
      if exists j :: 0 <= j < |lines[1..]| && AnnouncesHeader(lines[1..][j], sep, k) {
        var j :| 0 <= j < |lines[1..]| && AnnouncesHeader(lines[1..][j], sep, k);
        assert AnnouncesHeader(lines[j + 1], sep, k);
      }
      if exists j :: 0 <= j < |lines| && AnnouncesHeader(lines[j], sep, k) {
        var j :| 0 <= j < |lines| && AnnouncesHeader(lines[j], sep, k);
        if j > 0 {
          assert AnnouncesHeader(lines[1..][j - 1], sep, k);
        }
      }
    }
  }

  /** A data record with no earlier HEADER for its type makes the pass fail;
      it is never skipped. */
  lemma RecordBeforeHeaderFails(p: Parsers, opts: Options, sep: char, lines: seq<string>, i: nat)
    requires ValidOptions(opts)
    requires i < |lines|
    requires IsRecord(opts, Split(lines[i], sep))
    requires forall j :: 0 <= j < i ==> !AnnouncesHeader(lines[j], sep, Split(lines[i], sep)[0])
    ensures !DecodeServer(p, opts, sep, lines, Start).Ok()
  {
    var k := Split(lines[i], sep)[0];
    HeadersAfterKeys(lines[..i], sep, map[], k);
    forall j | 0 <= j < i ensures !AnnouncesHeader(lines[..i][j], sep, k) {
      assert lines[..i][j] == lines[j];
    }
    assert !Conforms(opts, Split(lines[i], sep), HeadersAfter(lines[..i], sep, map[]));
    RecordsFollowHeaders(p, opts, sep, lines, Start);
  }

  /** A line only adds to the labels recorded per metric. */
  lemma ServerLineGrowsRecords(p: Parsers, opts: Options, sep: char, s: Scan, line: string)
    ensures forall n :: Recorded(s.em, n) <= Recorded(ServerLine(p, opts, sep, s, line).scan.em, n)
  {
    var f := Split(line, sep);
    var key := f[0];
    if !IsNoOp(f) && !IsHeader(f) && !IsTime(f) && key in opts.directives && key in s.headers
       && |f| == |s.headers[key]| + 1 {
      var d := opts.directives[key];
      var names := s.headers[key];
      var values := ColumnValues(d.labelColumns, names, f);
      var labels := RecordLabels(opts, d, names, f);
      EmitExtendsRecords(p, opts.dedupe, d.metrics, values, labels, s.em);
    }
  }

  /** The decoder state after some lines, stopping at the first line that
      fails; the lines before the one a decode pass is reading. */
  function Advance(p: Parsers, opts: Options, sep: char, lines: seq<string>, s: Scan): (r: Step)
    ensures forall n :: Recorded(s.em, n) <= Recorded(r.scan.em, n)
    ensures r.err.None? ==> r.scan.headers == HeadersAfter(lines, sep, s.headers)
    decreases |lines|
  {
    if |lines| == 0 then Step(s, None)
    else
      var st := ServerLine(p, opts, sep, s, lines[0]);
      ServerLineGrowsRecords(p, opts, sep, s, lines[0]);
      if st.err.Some? then st
      else Advance(p, opts, sep, lines[1..], st.scan)
  }

  /** Advancing over two runs of lines is advancing over the first, then,
      unless it failed, over the second. */
  lemma {:induction false} AdvanceAppend(p: Parsers, opts: Options, sep: char, xs: seq<string>, ys: seq<string>, s: Scan)
    ensures var a := Advance(p, opts, sep, xs, s);
            Advance(p, opts, sep, xs + ys, s) == if a.err.Some? then a else Advance(p, opts, sep, ys, a.scan)
    decreases |xs|
  {
    if |xs| > 0 {
      assert (xs + ys)[0] == xs[0] && (xs + ys)[1..] == xs[1..] + ys;
      var st := ServerLine(p, opts, sep, s, xs[0]);
      if st.err.None? {
        AdvanceAppend(p, opts, sep, xs[1..], ys, st.scan);
      }
    } else {
      assert xs + ys == ys;
    }
  }

  /** A decode pass reaches the state `Advance` gives: decoding two runs of
      lines is advancing over the first and, unless that failed, decoding the
      second from where it stopped. */
  lemma {:induction false} DecodeServerAdvance(p: Parsers, opts: Options, sep: char, xs: seq<string>, ys: seq<string>, s: Scan)
    ensures var a := Advance(p, opts, sep, xs, s);
            DecodeServer(p, opts, sep, xs + ys, s) ==
            if a.err.Some? then Run(a.scan.em.out, a.err) else DecodeServer(p, opts, sep, ys, a.scan)
    decreases |xs|
  {
    if |xs| > 0 {
      assert (xs + ys)[0] == xs[0] && (xs + ys)[1..] == xs[1..] + ys;
      var st := ServerLine(p, opts, sep, s, xs[0]);
      if st.err.None? {
        DecodeServerAdvance(p, opts, sep, xs[1..], ys, st.scan);
      }
    } else {
      assert xs + ys == ys;
    }
  }

  /** Lines none of which announces record type `k` leave its columns as
      they were. */
  lemma {:induction false} HeadersAfterKeep(lines: seq<string>, sep: char, h: map<string, seq<string>>, k: string)
    requires k in h
    requires forall j :: 0 <= j < |lines| ==> !AnnouncesHeader(lines[j], sep, k)
    ensures k in HeadersAfter(lines, sep, h) && HeadersAfter(lines, sep, h)[k] == h[k]
    decreases |lines|
  {
    if |lines| > 0 {
      assert !AnnouncesHeader(lines[0], sep, k);
      forall j | 0 <= j < |lines| - 1 ensures !AnnouncesHeader(lines[1..][j], sep, k) {
        assert lines[1..][j] == lines[j + 1];
      }
      HeadersAfterKeep(lines[1..], sep, HeaderUpdate(h, Split(lines[0], sep)), k);
    }
  }

  /** Two split record lines of the same type, read against the columns
      `h`, that both match the announced column count and give the same
      label tuple; their metric values may differ. */
  predicate SameLabels(opts: Options, h: map<string, seq<string>>, f1: seq<string>, f2: seq<string>) {
    && |f1| >= 1 && |f2| >= 1
    && f1[0] == f2[0] && f1[0] in opts.directives && f1[0] in h
    && |f1| == |h[f1[0]]| + 1 && |f2| == |f1|
    && RecordLabels(opts, opts.directives[f1[0]], h[f1[0]], f1) == RecordLabels(opts, opts.directives[f1[0]], h[f1[0]], f2)
  }

  /** With individuals ignored, the label tuple is the common name alone:
      two sessions of one common name have the same labels, whatever their
      addresses and byte counts. */
  lemma SameCommonNameSameLabels(opts: Options, h: map<string, seq<string>>, f1: seq<string>, f2: seq<string>)
    requires opts.directives == Directives(true)
    requires "CLIENT_LIST" in h && "Common Name" in h["CLIENT_LIST"]
    requires |f1| == |f2| == |h["CLIENT_LIST"]| + 1 && f1[0] == f2[0] == "CLIENT_LIST"
    requires var c := LastIndex(h["CLIENT_LIST"], "Common Name") + 1; f1[c] == f2[c]
    ensures SameLabels(opts, h, f1, f2)
  {
    var d := opts.directives["CLIENT_LIST"];
    var names := h["CLIENT_LIST"];
    assert d.labelColumns == ["Common Name"];
    var l1 := RecordLabels(opts, d, names, f1);
    var l2 := RecordLabels(opts, d, names, f2);
    assert l1[..|opts.prefix|] == l2[..|opts.prefix|];
    assert l1[|opts.prefix|] == l2[|opts.prefix|];
    assert l1 == l1[..|opts.prefix|] + [l1[|opts.prefix|]];
    assert l2 == l2[..|opts.prefix|] + [l2[|opts.prefix|]];
  }

  /** With dedupe, once a record has been read without error, any later
      record of the same type with the same label tuple is suppressed, in
      every state whose records cover the ones the first left and whose
      columns for the type are unchanged: none of its values is parsed (so
      an unparsable one is no error), nothing is emitted, and only the
      client count moves. */
  lemma RepeatedRecordSuppressed(p: Parsers, opts: Options, sep: char, s: Scan, line: string, t: Scan, line2: string)
    requires ValidOptions(opts) && opts.dedupe
    requires ServerLine(p, opts, sep, s, line).err.None?
    requires SameLabels(opts, s.headers, Split(line, sep), Split(line2, sep))
    requires forall n :: Recorded(ServerLine(p, opts, sep, s, line).scan.em, n) <= Recorded(t.em, n)
    requires var k := Split(line, sep)[0];
             k in t.headers && t.headers[k] == s.headers[k]
    ensures var f := Split(line2, sep);
            ServerLine(p, opts, sep, t, line2) == Step(t.(clients := t.clients + if f[0] == "CLIENT_LIST" then 1 else 0), None)
  {
    var f := Split(line, sep);
    var f2 := Split(line2, sep);
    var key := f[0];
    var d := opts.directives[key];
    var names := s.headers[key];
    var values := ColumnValues(d.labelColumns, names, f);
    var values2 := ColumnValues(d.labelColumns, names, f2);
    var labels := RecordLabels(opts, d, names, f);
    var s0 := if key == "CLIENT_LIST" then s.(clients := s.clients + 1) else s;
    EmitRecordsLabels(p, d.metrics, values, labels, s0.em);
    var s1 := ServerLine(p, opts, sep, s, line).scan;
    assert s1.em == EmitMetrics(p, true, d.metrics, values, labels, s0.em).em;
    forall j | 0 <= j < |d.metrics| && d.metrics[j].column in values2
      ensures Subslice(labels, Recorded(t.em, d.metrics[j].name))
    {
      assert d.metrics[j].column in values;
      SubsliceOfExtension(labels, Recorded(s1.em, d.metrics[j].name), Recorded(t.em, d.metrics[j].name));
    }
    EmitAllSeen(p, d.metrics, values2, labels, t.em);
  }

  /** Reading a record of a configured type, then lines that announce no
      columns for its type, leaves its columns as they were. */
  lemma RecordThenLinesKeepHeaders(p: Parsers, opts: Options, sep: char, s: Scan, line: string, between: seq<string>)
    requires ValidOptions(opts)
    requires var f := Split(line, sep); |f| >= 1 && f[0] in opts.directives && f[0] in s.headers
    requires forall k :: 0 <= k < |between| ==> !AnnouncesHeader(between[k], sep, Split(line, sep)[0])
    requires Advance(p, opts, sep, between, ServerLine(p, opts, sep, s, line).scan).err.None?
    ensures var k := Split(line, sep)[0];
            var t := Advance(p, opts, sep, between, ServerLine(p, opts, sep, s, line).scan).scan;
            k in t.headers && t.headers[k] == s.headers[k]
  {
    var f := Split(line, sep);
    assert !IsKeyword(f[0]) && !IsHeader(f);
    var s1 := ServerLine(p, opts, sep, s, line).scan;
    HeadersAfterKeep(between, sep, s1.headers, f[0]);
  }

  /** Advancing over the first `m` lines is advancing over the first `k`
      and, unless that failed, over the lines from `k` to `m`. */
  lemma AdvanceSplit(p: Parsers, opts: Options, sep: char, lines: seq<string>, s: Scan, k: nat, m: nat)
    requires k <= m <= |lines|
    ensures var a := Advance(p, opts, sep, lines[..k], s);
            Advance(p, opts, sep, lines[..m], s) == if a.err.Some? then a else Advance(p, opts, sep, lines[k..m], a.scan)
  {
    assert lines[..m] == lines[..k] + lines[k..m];
    AdvanceAppend(p, opts, sep, lines[..k], lines[k..m], s);
  }

  /** Advancing over one line is reading that line. */
  lemma AdvanceOne(p: Parsers, opts: Options, sep: char, line: string, s: Scan)
    ensures Advance(p, opts, sep, [line], s) == ServerLine(p, opts, sep, s, line)
  {
    assert [line][1..] == [];
  }

  /** When the lines before `j` succeed, so do those before `i`, line `i`
      read from there, and the lines between `i` and `j` read after it. */
  lemma AdvanceAround(p: Parsers, opts: Options, sep: char, lines: seq<string>, s: Scan, i: nat, j: nat)
    requires i < j <= |lines|
    requires Advance(p, opts, sep, lines[..j], s).err.None?
    ensures var a0 := Advance(p, opts, sep, lines[..i], s);
            var st := ServerLine(p, opts, sep, a0.scan, lines[i]);
            && a0.err.None?
            && st.err.None?
            && Advance(p, opts, sep, lines[i + 1..j], st.scan).err.None?
            && Advance(p, opts, sep, lines[..j], s) == Advance(p, opts, sep, lines[i + 1..j], st.scan)
  {
    var a0 := Advance(p, opts, sep, lines[..i], s);
    var a1 := Advance(p, opts, sep, lines[..i + 1], s);
    var a := Advance(p, opts, sep, lines[..j], s);
    AdvanceSplit(p, opts, sep, lines, s, i + 1, j);
    assert a1.err.None? && a == Advance(p, opts, sep, lines[i + 1..j], a1.scan);
    AdvanceSplit(p, opts, sep, lines, s, i, i + 1);
    assert a0.err.None? && a1 == Advance(p, opts, sep, lines[i..i + 1], a0.scan);
    assert lines[i..i + 1] == [lines[i]];
    AdvanceOne(p, opts, sep, lines[i], a0.scan);
  }

  /** Within one decode pass with dedupe, a record whose label tuple repeats
      that of an earlier record of its type, with no HEADER for the type in
      between, is suppressed when the pass reaches it, whatever its metric
      values: nothing is parsed or emitted and only the client count
      moves. */
  lemma RepeatInPassSuppressed(p: Parsers, opts: Options, sep: char, lines: seq<string>, s: Scan, i: nat, j: nat)
    requires ValidOptions(opts) && opts.dedupe
    requires i < j < |lines|
    requires SameLabels(opts, HeadersAfter(lines[..i], sep, s.headers), Split(lines[i], sep), Split(lines[j], sep))
    requires forall k :: i < k < j ==> !AnnouncesHeader(lines[k], sep, Split(lines[i], sep)[0])
    requires Advance(p, opts, sep, lines[..j], s).err.None?
    ensures var a := Advance(p, opts, sep, lines[..j], s);
            var f := Split(lines[j], sep);
            ServerLine(p, opts, sep, a.scan, lines[j]) ==
            Step(a.scan.(clients := a.scan.clients + if f[0] == "CLIENT_LIST" then 1 else 0), None)
  {
    var a0 := Advance(p, opts, sep, lines[..i], s);
    AdvanceAround(p, opts, sep, lines, s, i, j);
    var between := lines[i + 1..j];
    forall k | 0 <= k < |between| ensures !AnnouncesHeader(between[k], sep, Split(lines[i], sep)[0]) {
      assert between[k] == lines[i + 1 + k];
    }
    RecordThenLinesKeepHeaders(p, opts, sep, a0.scan, lines[i], between);
    var st := ServerLine(p, opts, sep, a0.scan, lines[i]);
    RepeatedRecordSuppressed(p, opts, sep, a0.scan, lines[i], Advance(p, opts, sep, between, st.scan).scan, lines[j]);
  }

  /** A conforming record emits exactly its fresh metrics: those whose
      column has a value and, under dedupe, whose record does not already
      cover the label tuple. It fails exactly when one of their values does
      not parse, and otherwise emits one observation per fresh metric, in
      table order, under the record's label tuple. */
  lemma RecordEmitsEveryMetric(p: Parsers, opts: Options, sep: char, s: Scan, line: string)
    requires ValidOptions(opts)
    requires IsRecord(opts, Split(line, sep))
    requires Conforms(opts, Split(line, sep), s.headers)
    ensures var f := Split(line, sep);
            var d := opts.directives[f[0]];
            var values := ColumnValues(d.labelColumns, s.headers[f[0]], f);
            var labels := RecordLabels(opts, d, s.headers[f[0]], f);
            var due := Fresh(opts.dedupe, d.metrics, values, labels, s.em);
            var r := ServerLine(p, opts, sep, s, line);
            && (r.err.None? <==> AllParse(p, due, values))
            && (r.err.None? ==> r.scan.em.out == s.em.out + Expected(p, due, values, labels))
  {
    var f := Split(line, sep);
    var key := f[0];
    var d := opts.directives[key];
    var names := s.headers[key];
    var values := ColumnValues(d.labelColumns, names, f);
    var labels := RecordLabels(opts, d, names, f);
    var s0 := if key == "CLIENT_LIST" then s.(clients := s.clients + 1) else s;
    assert WellFormedDirective(d);
    EmitsEveryFreshMetric(p, opts.dedupe, d.metrics, values, labels, s0.em);
  }
}
