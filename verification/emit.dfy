/**
 The metric-emission loop shared by the server decoder and the JSON-API
 decoder: for one record, every directive metric whose column has a value is
 parsed and emitted under the record's label tuple, optionally skipping label
 tuples the metric has already been emitted with.
 */
module Emit {
  import opened Model

  /** Go's `subslice(sub, main)`: `sub` is no longer than `main` and each of
      its elements occurs somewhere in `main`. Neither order nor adjacency is
      checked. */
  predicate Subslice(sub: seq<string>, main: seq<string>) {
    |sub| <= |main| && forall i :: 0 <= i < |sub| ==> sub[i] in main
  }

  /** Output so far, and per metric name the flat concatenation of every
      label tuple that metric has been emitted with in this pass. */
  datatype Emission = Emission(recorded: map<string, seq<string>>, out: seq<Observation>)

  datatype Emitted = Emitted(em: Emission, err: Option<Error>)

  /** The labels recorded for a metric; a metric never emitted has none. */
  function Recorded(e: Emission, name: string): seq<string> {
    if name in e.recorded then e.recorded[name] else []
  }

  lemma SubsliceOfAppended(t: seq<string>, a: seq<string>)
    ensures Subslice(t, a + t)
  {
    forall i | 0 <= i < |t| ensures t[i] in a + t {
      assert (a + t)[|a| + i] == t[i];
    }
  }

  lemma SubsliceOfExtension(t: seq<string>, a: seq<string>, b: seq<string>)
    requires Subslice(t, a)
    requires a <= b
    ensures Subslice(t, b)
  {
    forall i | 0 <= i < |t| ensures t[i] in b {
      var k :| 0 <= k < |a| && a[k] == t[i];
      assert b[k] == a[k];
    }
  }

  /** Emits, in table order, each metric whose column is among `values`:
      its value parsed from that column, labelled with `labels`. With
      `dedupe`, a metric whose recorded labels already cover `labels` (in the
      sense of `Subslice`) is skipped without parsing; an emitted one gets
      `labels` appended to its record. The first unparsable value stops the
      loop. */
  function EmitMetrics(p: Parsers, dedupe: bool, metrics: seq<MetricField>, values: map<string, string>,
                       labels: seq<string>, e: Emission): (r: Emitted)
    ensures |e.out| <= |r.em.out| && r.em.out[..|e.out|] == e.out
    ensures forall i :: |e.out| <= i < |r.em.out| ==> r.em.out[i].labels == labels
    ensures r.err.Some? ==> r.err.value.ParseError?
    ensures !dedupe ==> r.em.recorded == e.recorded
    decreases |metrics|
  {
    if |metrics| == 0 then Emitted(e, None)
    else
      var m := metrics[0];
      if m.column !in values then
        EmitMetrics(p, dedupe, metrics[1..], values, labels, e)
      else if dedupe && Subslice(labels, Recorded(e, m.name)) then
        EmitMetrics(p, dedupe, metrics[1..], values, labels, e)
      else
        match p.parseFloat(values[m.column])
        case None => Emitted(e, Some(ParseError(values[m.column])))
        case Some(v) =>
          var e1 := AfterFirst(dedupe, m, v, labels, e);
          var r := EmitMetrics(p, dedupe, metrics[1..], values, labels, e1);
          assert r.em.out[..|e.out|] == r.em.out[..|e1.out|][..|e.out|];
          r
  }

  /** Emission only adds to the per-metric records. */
  lemma {:induction false} EmitExtendsRecords(p: Parsers, dedupe: bool, metrics: seq<MetricField>,
                                              values: map<string, string>, labels: seq<string>, e: Emission)
    ensures forall n :: Recorded(e, n) <= Recorded(EmitMetrics(p, dedupe, metrics, values, labels, e).em, n)
    decreases |metrics|
  {
    if |metrics| > 0 {
      var m := metrics[0];
      if m.column !in values || (dedupe && Subslice(labels, Recorded(e, m.name))) {
        EmitExtendsRecords(p, dedupe, metrics[1..], values, labels, e);
      } else if p.parseFloat(values[m.column]).Some? {
        var e1 := AfterFirst(dedupe, m, p.parseFloat(values[m.column]).value, labels, e);
        assert forall n :: Recorded(e, n) <= Recorded(e1, n);
        EmitExtendsRecords(p, dedupe, metrics[1..], values, labels, e1);
      }
    }
  }

  /** After a successful deduplicating emission, every metric with a value
      counts `labels` as already emitted: the same record a second time is
      suppressed. */
  lemma {:induction false} EmitRecordsLabels(p: Parsers, metrics: seq<MetricField>,
                                             values: map<string, string>, labels: seq<string>, e: Emission)
    requires EmitMetrics(p, true, metrics, values, labels, e).err.None?
    ensures forall j :: 0 <= j < |metrics| && metrics[j].column in values ==>
      Subslice(labels, Recorded(EmitMetrics(p, true, metrics, values, labels, e).em, metrics[j].name))
    decreases |metrics|
  {
    if |metrics| > 0 {
      var m := metrics[0];
      var seen := Recorded(e, m.name);
      if m.column !in values {
        EmitRecordsLabels(p, metrics[1..], values, labels, e);
      } else if Subslice(labels, seen) {
        EmitRecordsLabels(p, metrics[1..], values, labels, e);
        EmitExtendsRecords(p, true, metrics[1..], values, labels, e);
        SubsliceOfExtension(labels, seen, Recorded(EmitMetrics(p, true, metrics[1..], values, labels, e).em, m.name));
      } else {
        var e1 := AfterFirst(true, m, p.parseFloat(values[m.column]).value, labels, e);
        EmitRecordsLabels(p, metrics[1..], values, labels, e1);
        EmitExtendsRecords(p, true, metrics[1..], values, labels, e1);
        SubsliceOfAppended(labels, seen);
        assert Recorded(e1, m.name) == seen + labels;
        SubsliceOfExtension(labels, Recorded(e1, m.name), Recorded(EmitMetrics(p, true, metrics[1..], values, labels, e1).em, m.name));
      }
    }
  }

  /** No observation from index `from` on carries a reserved metric name. */
  predicate NoReservedFrom(out: seq<Observation>, from: nat) {
    forall i :: from <= i < |out| ==> !Reserved(out[i].name)
  }

  /** Emission only uses the metric names of its table. */
  lemma {:induction false} EmitAvoidsReserved(p: Parsers, dedupe: bool, metrics: seq<MetricField>,
                                              values: map<string, string>, labels: seq<string>, e: Emission)
    requires forall j :: 0 <= j < |metrics| ==> !Reserved(metrics[j].name)
    ensures NoReservedFrom(EmitMetrics(p, dedupe, metrics, values, labels, e).em.out, |e.out|)
    decreases |metrics|
  {
    if |metrics| > 0 {
      var m := metrics[0];
      var rest := metrics[1..];
      assert forall j :: 0 <= j < |rest| ==> !Reserved(rest[j].name) by {
        forall j | 0 <= j < |rest| ensures !Reserved(rest[j].name) {
          assert rest[j] == metrics[j + 1];
        }
      }
      if m.column !in values || (dedupe && Subslice(labels, Recorded(e, m.name))) {
        EmitAvoidsReserved(p, dedupe, rest, values, labels, e);
        assert EmitMetrics(p, dedupe, metrics, values, labels, e) == EmitMetrics(p, dedupe, rest, values, labels, e);
      } else if p.parseFloat(values[m.column]).Some? {
        var e1 := AfterFirst(dedupe, m, p.parseFloat(values[m.column]).value, labels, e);
        EmitAvoidsReserved(p, dedupe, rest, values, labels, e1);
        var r := EmitMetrics(p, dedupe, rest, values, labels, e1);
        assert EmitMetrics(p, dedupe, metrics, values, labels, e) == r;
        forall i | |e.out| <= i < |r.em.out| ensures !Reserved(r.em.out[i].name) {
          if i == |e.out| {
            assert r.em.out[i] == r.em.out[..|e1.out|][i] == e1.out[i];
          }
        }
      }
    }
  }

  /** The metrics whose column has a value, in table order. */
  function Present(metrics: seq<MetricField>, values: map<string, string>): (r: seq<MetricField>)
    ensures forall j :: 0 <= j < |r| ==> r[j].column in values
    ensures forall x :: x in r ==> x in metrics
    ensures forall j :: 0 <= j < |metrics| && metrics[j].column in values ==> metrics[j] in r
    decreases |metrics|
  {
    if |metrics| == 0 then []
    else
      var rest := Present(metrics[1..], values);
      assert forall j :: 0 < j < |metrics| ==> metrics[j] == metrics[1..][j - 1];
      if metrics[0].column in values then [metrics[0]] + rest
      else rest
  }

  /** When every metric's column has a value, all metrics are present. */
  lemma {:induction false} PresentOfAll(metrics: seq<MetricField>, values: map<string, string>)
    requires forall j :: 0 <= j < |metrics| ==> metrics[j].column in values
    ensures Present(metrics, values) == metrics
    decreases |metrics|
  {
    if |metrics| > 0 {
      assert forall j :: 0 <= j < |metrics| - 1 ==> metrics[1..][j] == metrics[j + 1];
      PresentOfAll(metrics[1..], values);
      assert [metrics[0]] + metrics[1..] == metrics;
    }
  }

  predicate DistinctNames(metrics: seq<MetricField>) {
    forall i, j :: 0 <= i < j < |metrics| ==> metrics[i].name != metrics[j].name
  }

  /** No label tuple of these metrics can be suppressed: there is no
      dedupe, or none of them has been emitted yet in this pass. */
  predicate Unsuppressed(dedupe: bool, metrics: seq<MetricField>, e: Emission) {
    dedupe ==> forall j :: 0 <= j < |metrics| ==> Recorded(e, metrics[j].name) == []
  }

  /** The step the emission loop takes after emitting its first metric. */
  function AfterFirst(dedupe: bool, m: MetricField, v: real, labels: seq<string>, e: Emission): Emission {
    Emission(
      if dedupe then e.recorded[m.name := Recorded(e, m.name) + labels] else e.recorded,
      e.out + [Observation(m.name, m.kind, v, labels)])
  }

  /** Every metric of `ms` has a value, and it parses. */
  predicate AllParse(p: Parsers, ms: seq<MetricField>, values: map<string, string>) {
    forall j :: 0 <= j < |ms| ==> ms[j].column in values && p.parseFloat(values[ms[j].column]).Some?
  }

  /** One observation per metric of `ms`, in order, with its parsed value. */
  function Expected(p: Parsers, ms: seq<MetricField>, values: map<string, string>, labels: seq<string>): (r: seq<Observation>)
    requires AllParse(p, ms, values)
    ensures |r| == |ms|
    decreases |ms|
  {
    if |ms| == 0 then []
    else
      [Observation(ms[0].name, ms[0].kind, p.parseFloat(values[ms[0].column]).value, labels)]
      + Expected(p, ms[1..], values, labels)
  }

  lemma AllParseCons(p: Parsers, m: MetricField, ms: seq<MetricField>, values: map<string, string>)
    ensures AllParse(p, [m] + ms, values) <==>
            (m.column in values && p.parseFloat(values[m.column]).Some? && AllParse(p, ms, values))
  {
    var all := [m] + ms;
    assert all[0] == m;
    assert forall j :: 0 <= j < |ms| ==> all[j + 1] == ms[j];
  }

  /** When no label tuple can be suppressed, the loop fails exactly when the
      value of some metric with a value does not parse. */
  lemma {:induction false} EmitFailsIffUnparsable(p: Parsers, dedupe: bool, metrics: seq<MetricField>,
                                                  values: map<string, string>, labels: seq<string>, e: Emission)
    requires |labels| >= 1
    requires DistinctNames(metrics)
    requires Unsuppressed(dedupe, metrics, e)
    ensures EmitMetrics(p, dedupe, metrics, values, labels, e).err.None? <==> AllParse(p, Present(metrics, values), values)
  {
    FreshIsPresent(dedupe, metrics, values, labels, e);
    EmitsEveryFreshMetric(p, dedupe, metrics, values, labels, e);
  }

  /** When no label tuple can be suppressed, a successful loop emits exactly
      one observation per metric with a value, in table order, carrying the
      parsed value of its column and the record's labels. */
  lemma {:induction false} EmitsEveryPresentMetric(p: Parsers, dedupe: bool, metrics: seq<MetricField>,
                                                   values: map<string, string>, labels: seq<string>, e: Emission)
    requires |labels| >= 1
    requires DistinctNames(metrics)
    requires Unsuppressed(dedupe, metrics, e)
    requires EmitMetrics(p, dedupe, metrics, values, labels, e).err.None?
    ensures AllParse(p, Present(metrics, values), values)
    ensures EmitMetrics(p, dedupe, metrics, values, labels, e).em.out ==
            e.out + Expected(p, Present(metrics, values), values, labels)
  {
    FreshIsPresent(dedupe, metrics, values, labels, e);
    EmitsEveryFreshMetric(p, dedupe, metrics, values, labels, e);
  }

  /** The metrics the loop emits, in table order: those whose column has a
      value and, with `dedupe`, whose record does not already cover
      `labels`. */
  function Fresh(dedupe: bool, metrics: seq<MetricField>, values: map<string, string>,
                 labels: seq<string>, e: Emission): (r: seq<MetricField>)
    ensures forall j :: 0 <= j < |r| ==> r[j].column in values
    ensures forall j :: 0 <= j < |r| ==> !(dedupe && Subslice(labels, Recorded(e, r[j].name)))
    ensures forall x :: x in r ==> x in metrics
    ensures forall j ::
              0 <= j < |metrics| && metrics[j].column in values && !(dedupe && Subslice(labels, Recorded(e, metrics[j].name)))
              ==> metrics[j] in r
    decreases |metrics|
  {
    if |metrics| == 0 then []
    else
      var m := metrics[0];
      var rest := Fresh(dedupe, metrics[1..], values, labels, e);
      assert forall j :: 0 < j < |metrics| ==> metrics[j] == metrics[1..][j - 1];
      if m.column in values && !(dedupe && Subslice(labels, Recorded(e, m.name))) then
        [m] + rest
      else rest
  }

  lemma DistinctTail(metrics: seq<MetricField>)
    requires |metrics| > 0 && DistinctNames(metrics)
    ensures DistinctNames(metrics[1..])
    ensures forall j :: 0 <= j < |metrics| - 1 ==> metrics[1..][j].name != metrics[0].name
  {
    var rest := metrics[1..];
    forall i, j | 0 <= i < j < |rest| ensures rest[i].name != rest[j].name {
      assert rest[i] == metrics[i + 1] && rest[j] == metrics[j + 1];
    }
  }

  /** Which metrics are fresh depends only on the records of their own
      names. */
  lemma {:induction false} FreshFrame(dedupe: bool, metrics: seq<MetricField>, values: map<string, string>,
                                      labels: seq<string>, e: Emission, e': Emission)
    requires forall j :: 0 <= j < |metrics| ==> Recorded(e, metrics[j].name) == Recorded(e', metrics[j].name)
    ensures Fresh(dedupe, metrics, values, labels, e) == Fresh(dedupe, metrics, values, labels, e')
    decreases |metrics|
  {
    if |metrics| > 0 {
      assert Recorded(e, metrics[0].name) == Recorded(e', metrics[0].name);
      forall j | 0 <= j < |metrics| - 1
        ensures Recorded(e, metrics[1..][j].name) == Recorded(e', metrics[1..][j].name)
      {
        assert metrics[1..][j] == metrics[j + 1];
      }
      FreshFrame(dedupe, metrics[1..], values, labels, e, e');
    }
  }

  /** The loop's first step on a metric that is not fresh: it moves on. */
  lemma EmitSkipStep(p: Parsers, dedupe: bool, metrics: seq<MetricField>, values: map<string, string>,
                     labels: seq<string>, e: Emission)
    requires |metrics| > 0
    requires metrics[0].column !in values || (dedupe && Subslice(labels, Recorded(e, metrics[0].name)))
    ensures EmitMetrics(p, dedupe, metrics, values, labels, e) == EmitMetrics(p, dedupe, metrics[1..], values, labels, e)
    ensures Fresh(dedupe, metrics, values, labels, e) == Fresh(dedupe, metrics[1..], values, labels, e)
  {
  }

  /** The loop's first step on a fresh metric whose value parses: it emits
      and records the metric, and the rest of the metrics are as fresh as
      before. */
  lemma EmitFreshStep(p: Parsers, dedupe: bool, metrics: seq<MetricField>, values: map<string, string>,
                      labels: seq<string>, e: Emission)
    requires |metrics| > 0 && DistinctNames(metrics)
    requires metrics[0].column in values && !(dedupe && Subslice(labels, Recorded(e, metrics[0].name)))
    requires p.parseFloat(values[metrics[0].column]).Some?
    ensures var e1 := AfterFirst(dedupe, metrics[0], p.parseFloat(values[metrics[0].column]).value, labels, e);
            && EmitMetrics(p, dedupe, metrics, values, labels, e) == EmitMetrics(p, dedupe, metrics[1..], values, labels, e1)
            && Fresh(dedupe, metrics, values, labels, e) == [metrics[0]] + Fresh(dedupe, metrics[1..], values, labels, e1)
  {
    var e1 := AfterFirst(dedupe, metrics[0], p.parseFloat(values[metrics[0].column]).value, labels, e);
    DistinctTail(metrics);
    FreshFrame(dedupe, metrics[1..], values, labels, e, e1);
  }

  /** The loop's first step on a fresh metric whose value does not parse:
      it fails. */
  lemma EmitFailStep(p: Parsers, dedupe: bool, metrics: seq<MetricField>, values: map<string, string>,
                     labels: seq<string>, e: Emission)
    requires |metrics| > 0
    requires metrics[0].column in values && !(dedupe && Subslice(labels, Recorded(e, metrics[0].name)))
    requires p.parseFloat(values[metrics[0].column]).None?
    ensures EmitMetrics(p, dedupe, metrics, values, labels, e).err.Some?
    ensures !AllParse(p, Fresh(dedupe, metrics, values, labels, e), values)
  {
    AllParseCons(p, metrics[0], Fresh(dedupe, metrics[1..], values, labels, e), values);
  }

  lemma ExpectedCons(p: Parsers, m: MetricField, ms: seq<MetricField>, values: map<string, string>, labels: seq<string>)
    requires AllParse(p, [m] + ms, values)
    ensures m.column in values && p.parseFloat(values[m.column]).Some?
    ensures AllParse(p, ms, values)
    ensures Expected(p, [m] + ms, values, labels) ==
            [Observation(m.name, m.kind, p.parseFloat(values[m.column]).value, labels)] + Expected(p, ms, values, labels)
  {
    AllParseCons(p, m, ms, values);
    assert ([m] + ms)[0] == m && ([m] + ms)[1..] == ms;
  }

  /** The emission loop agrees with its fresh metrics: it fails exactly when
      one of their values does not parse, and otherwise appends one
      observation per fresh metric. */
  predicate EmitMatchesFresh(p: Parsers, dedupe: bool, metrics: seq<MetricField>,
                             values: map<string, string>, labels: seq<string>, e: Emission) {
    var r := EmitMetrics(p, dedupe, metrics, values, labels, e);
    var due := Fresh(dedupe, metrics, values, labels, e);
    && (r.err.None? <==> AllParse(p, due, values))
    && (r.err.None? ==> r.em.out == e.out + Expected(p, due, values, labels))
  }

  lemma SkipKeepsMatch(p: Parsers, dedupe: bool, metrics: seq<MetricField>, values: map<string, string>,
                       labels: seq<string>, e: Emission)
    requires |metrics| > 0
    requires metrics[0].column !in values || (dedupe && Subslice(labels, Recorded(e, metrics[0].name)))
    requires EmitMatchesFresh(p, dedupe, metrics[1..], values, labels, e)
    ensures EmitMatchesFresh(p, dedupe, metrics, values, labels, e)
  {
    EmitSkipStep(p, dedupe, metrics, values, labels, e);
  }

  lemma FailMatches(p: Parsers, dedupe: bool, metrics: seq<MetricField>, values: map<string, string>,
                    labels: seq<string>, e: Emission)
    requires |metrics| > 0
    requires metrics[0].column in values && !(dedupe && Subslice(labels, Recorded(e, metrics[0].name)))
    requires p.parseFloat(values[metrics[0].column]).None?
    ensures EmitMatchesFresh(p, dedupe, metrics, values, labels, e)
  {
    EmitFailStep(p, dedupe, metrics, values, labels, e);
  }

  lemma EmitKeepsMatch(p: Parsers, dedupe: bool, metrics: seq<MetricField>, values: map<string, string>,
                       labels: seq<string>, e: Emission)
    requires |metrics| > 0 && DistinctNames(metrics)
    requires metrics[0].column in values && !(dedupe && Subslice(labels, Recorded(e, metrics[0].name)))
    requires p.parseFloat(values[metrics[0].column]).Some?
    requires EmitMatchesFresh(p, dedupe, metrics[1..], values, labels,
                              AfterFirst(dedupe, metrics[0], p.parseFloat(values[metrics[0].column]).value, labels, e))
    ensures EmitMatchesFresh(p, dedupe, metrics, values, labels, e)
  {
    var m := metrics[0];
    var rest := metrics[1..];
    var v := p.parseFloat(values[m.column]).value;
    var e1 := AfterFirst(dedupe, m, v, labels, e);
    EmitFreshStep(p, dedupe, metrics, values, labels, e);
    var restDue := Fresh(dedupe, rest, values, labels, e1);
    AllParseCons(p, m, restDue, values);
    var r := EmitMetrics(p, dedupe, rest, values, labels, e1);
    if r.err.None? {
      ExpectedCons(p, m, restDue, values, labels);
      assert e1.out == e.out + [Observation(m.name, m.kind, v, labels)];
    }
  }

  /** Whatever has been recorded, the loop fails exactly when the value of a
      fresh metric does not parse, and otherwise emits one observation per
      fresh metric, in table order, under the record's labels. */
  lemma {:induction false} EmitsEveryFreshMetric(p: Parsers, dedupe: bool, metrics: seq<MetricField>,
                                                 values: map<string, string>, labels: seq<string>, e: Emission)
    requires DistinctNames(metrics)
    ensures var r := EmitMetrics(p, dedupe, metrics, values, labels, e);
            var due := Fresh(dedupe, metrics, values, labels, e);
            && (r.err.None? <==> AllParse(p, due, values))
            && (r.err.None? ==> r.em.out == e.out + Expected(p, due, values, labels))
    decreases |metrics|
  {
    if |metrics| > 0 {
      var m := metrics[0];
      DistinctTail(metrics);
      if m.column !in values || (dedupe && Subslice(labels, Recorded(e, m.name))) {
        EmitsEveryFreshMetric(p, dedupe, metrics[1..], values, labels, e);
        SkipKeepsMatch(p, dedupe, metrics, values, labels, e);
      } else if p.parseFloat(values[m.column]).None? {
        FailMatches(p, dedupe, metrics, values, labels, e);
      } else {
        var e1 := AfterFirst(dedupe, m, p.parseFloat(values[m.column]).value, labels, e);
        EmitsEveryFreshMetric(p, dedupe, metrics[1..], values, labels, e1);
        EmitKeepsMatch(p, dedupe, metrics, values, labels, e);
      }
    }
    assert EmitMatchesFresh(p, dedupe, metrics, values, labels, e);
  }

  /** When nothing can be suppressed, the fresh metrics are the present
      ones. */
  lemma {:induction false} FreshIsPresent(dedupe: bool, metrics: seq<MetricField>, values: map<string, string>,
                                          labels: seq<string>, e: Emission)
    requires |labels| >= 1
    requires Unsuppressed(dedupe, metrics, e)
    ensures Fresh(dedupe, metrics, values, labels, e) == Present(metrics, values)
    decreases |metrics|
  {
    if |metrics| > 0 {
      if dedupe {
        assert Recorded(e, metrics[0].name) == [];
        assert forall j :: 0 <= j < |metrics| - 1 ==> metrics[1..][j] == metrics[j + 1];
      }
      FreshIsPresent(dedupe, metrics[1..], values, labels, e);
    }
  }

  /** When every metric with a value already has `labels` covered by its
      record, deduplicating emission does nothing: no output, no parse, no
      error, no new record. */
  lemma {:induction false} EmitAllSeen(p: Parsers, metrics: seq<MetricField>, values: map<string, string>,
                                       labels: seq<string>, e: Emission)
    requires forall j :: 0 <= j < |metrics| && metrics[j].column in values ==> Subslice(labels, Recorded(e, metrics[j].name))
    ensures EmitMetrics(p, true, metrics, values, labels, e) == Emitted(e, None)
    decreases |metrics|
  {
    if |metrics| > 0 {
      EmitAllSeen(p, metrics[1..], values, labels, e);
    }
  }

  /** The flat record of a metric: its emitted label tuples, concatenated
      in emission order. */
  function Flatten(tuples: seq<seq<string>>): (r: seq<string>)
    decreases |tuples|
  {
    if |tuples| == 0 then [] else tuples[0] + Flatten(tuples[1..])
  }

  /** The suppression rule the decoder means to follow: the exact label
      tuple was already emitted for this metric. */
  predicate EmittedBefore(tuples: seq<seq<string>>, labels: seq<string>) {
    labels in tuples
  }

  /** Every tuple emitted before is covered by the flat record, so the
      decoder never emits a true repeat. */
  lemma {:induction false} EmittedBeforeIsCovered(tuples: seq<seq<string>>, labels: seq<string>)
    requires EmittedBefore(tuples, labels)
    ensures Subslice(labels, Flatten(tuples))
    decreases |tuples|
  {
    if tuples[0] == labels {
      SubsliceOfAppended(labels, []);
      assert [] + labels == labels;
      SubsliceOfExtension(labels, labels, labels + Flatten(tuples[1..]));
    } else {
      assert labels in tuples[1..];
      EmittedBeforeIsCovered(tuples[1..], labels);
      SubsliceOfAppended(Flatten(tuples[1..]), tuples[0]);
      forall i | 0 <= i < |labels| ensures labels[i] in Flatten(tuples) {
        var k :| 0 <= k < |Flatten(tuples[1..])| && Flatten(tuples[1..])[k] == labels[i];
        assert Flatten(tuples)[|tuples[0]| + k] == labels[i];
      }
    }
  }

  lemma {:induction false} FlattenAppend(tuples: seq<seq<string>>, labels: seq<string>)
    ensures Flatten(tuples + [labels]) == Flatten(tuples) + labels
    decreases |tuples|
  {
    if |tuples| == 0 {
      assert [] + [labels] == [labels];
      assert [labels][1..] == [];
    } else {
      assert (tuples + [labels])[0] == tuples[0];
      assert (tuples + [labels])[1..] == tuples[1..] + [labels];
      FlattenAppend(tuples[1..], labels);
    }
  }

  /** Some metric of the table has name `n`. */
  predicate NamedIn(metrics: seq<MetricField>, n: string) {
    exists j :: 0 <= j < |metrics| && metrics[j].name == n
  }

  /** A successful deduplicating pass appends `labels` to the record of
      exactly the fresh metrics. */
  predicate FreshRecordsGrow(p: Parsers, metrics: seq<MetricField>, values: map<string, string>,
                             labels: seq<string>, e: Emission) {
    var r := EmitMetrics(p, true, metrics, values, labels, e);
    var due := Fresh(true, metrics, values, labels, e);
    r.err.None? ==>
      forall j :: 0 <= j < |metrics| ==>
        Recorded(r.em, metrics[j].name) == Recorded(e, metrics[j].name) + (if metrics[j] in due then labels else [])
  }

  /** A successful deduplicating pass leaves the record of every name
      outside the table as it was. */
  ghost predicate OtherRecordsKept(p: Parsers, metrics: seq<MetricField>, values: map<string, string>,
                                   labels: seq<string>, e: Emission) {
    var r := EmitMetrics(p, true, metrics, values, labels, e);
    r.err.None? ==>
      forall n :: !NamedIn(metrics, n) ==> Recorded(r.em, n) == Recorded(e, n)
  }

  lemma SkipGrowsFreshRecords(p: Parsers, metrics: seq<MetricField>, values: map<string, string>,
                              labels: seq<string>, e: Emission)
    requires |metrics| > 0 && DistinctNames(metrics)
    requires metrics[0].column !in values || Subslice(labels, Recorded(e, metrics[0].name))
    requires FreshRecordsGrow(p, metrics[1..], values, labels, e)
    requires OtherRecordsKept(p, metrics[1..], values, labels, e)
    ensures FreshRecordsGrow(p, metrics, values, labels, e)
  {
    var m := metrics[0];
    var rest := metrics[1..];
    DistinctTail(metrics);
    EmitSkipStep(p, true, metrics, values, labels, e);
    var r := EmitMetrics(p, true, rest, values, labels, e);
    var due := Fresh(true, rest, values, labels, e);
    if r.err.None? {
      forall j | 0 <= j < |metrics|
        ensures Recorded(r.em, metrics[j].name) == Recorded(e, metrics[j].name) + (if metrics[j] in due then labels else [])
      {
        if j == 0 {
          assert !NamedIn(rest, m.name);
          assert m !in due;
        } else {
          assert metrics[j] == rest[j - 1];
        }
      }
    }
  }

  lemma SkipKeepsOtherRecords(p: Parsers, metrics: seq<MetricField>, values: map<string, string>,
                              labels: seq<string>, e: Emission)
    requires |metrics| > 0
    requires metrics[0].column !in values || Subslice(labels, Recorded(e, metrics[0].name))
    requires OtherRecordsKept(p, metrics[1..], values, labels, e)
    ensures OtherRecordsKept(p, metrics, values, labels, e)
  {
    EmitSkipStep(p, true, metrics, values, labels, e);
    assert forall j :: 0 <= j < |metrics| - 1 ==> metrics[1..][j] == metrics[j + 1];
  }

  lemma EmitGrowsFreshRecords(p: Parsers, metrics: seq<MetricField>, values: map<string, string>,
                              labels: seq<string>, e: Emission)
    requires |metrics| > 0 && DistinctNames(metrics)
    requires metrics[0].column in values && !Subslice(labels, Recorded(e, metrics[0].name))
    requires p.parseFloat(values[metrics[0].column]).Some?
    requires var e1 := AfterFirst(true, metrics[0], p.parseFloat(values[metrics[0].column]).value, labels, e);
             FreshRecordsGrow(p, metrics[1..], values, labels, e1) && OtherRecordsKept(p, metrics[1..], values, labels, e1)
    ensures FreshRecordsGrow(p, metrics, values, labels, e)
  {
    var m := metrics[0];
    var rest := metrics[1..];
    var e1 := AfterFirst(true, m, p.parseFloat(values[m.column]).value, labels, e);
    DistinctTail(metrics);
    EmitFreshStep(p, true, metrics, values, labels, e);
    var r := EmitMetrics(p, true, rest, values, labels, e1);
    var due := Fresh(true, metrics, values, labels, e);
    var restDue := Fresh(true, rest, values, labels, e1);
    if r.err.None? {
      forall j | 0 <= j < |metrics|
        ensures Recorded(r.em, metrics[j].name) == Recorded(e, metrics[j].name) + (if metrics[j] in due then labels else [])
      {
        if j == 0 {
          assert Recorded(r.em, m.name) == Recorded(e1, m.name);
        } else {
          assert metrics[j] == rest[j - 1] && metrics[j].name != m.name;
          assert metrics[j] in due <==> metrics[j] in restDue;
        }
      }
    }
  }

  lemma EmitKeepsOtherRecords(p: Parsers, metrics: seq<MetricField>, values: map<string, string>,
                              labels: seq<string>, e: Emission)
    requires |metrics| > 0
    requires metrics[0].column in values && !Subslice(labels, Recorded(e, metrics[0].name))
    requires p.parseFloat(values[metrics[0].column]).Some?
    requires OtherRecordsKept(p, metrics[1..], values, labels,
                              AfterFirst(true, metrics[0], p.parseFloat(values[metrics[0].column]).value, labels, e))
    ensures OtherRecordsKept(p, metrics, values, labels, e)
  {
    assert forall j :: 0 <= j < |metrics| - 1 ==> metrics[1..][j] == metrics[j + 1];
  }

  lemma {:induction false} EmitRecordsFresh(p: Parsers, metrics: seq<MetricField>, values: map<string, string>,
                                            labels: seq<string>, e: Emission)
    requires DistinctNames(metrics)
    ensures var r := EmitMetrics(p, true, metrics, values, labels, e);
            var due := Fresh(true, metrics, values, labels, e);
            r.err.None? ==>
              && (forall j :: 0 <= j < |metrics| ==>
                    Recorded(r.em, metrics[j].name) == Recorded(e, metrics[j].name) + (if metrics[j] in due then labels else []))
              && (forall n :: !NamedIn(metrics, n) ==> Recorded(r.em, n) == Recorded(e, n))
    decreases |metrics|
  {
    if |metrics| > 0 {
      var m := metrics[0];
      DistinctTail(metrics);
      if m.column !in values || Subslice(labels, Recorded(e, m.name)) {
        EmitRecordsFresh(p, metrics[1..], values, labels, e);
        SkipGrowsFreshRecords(p, metrics, values, labels, e);
        SkipKeepsOtherRecords(p, metrics, values, labels, e);
      } else if p.parseFloat(values[m.column]).Some? {
        var e1 := AfterFirst(true, m, p.parseFloat(values[m.column]).value, labels, e);
        EmitRecordsFresh(p, metrics[1..], values, labels, e1);
        EmitGrowsFreshRecords(p, metrics, values, labels, e);
        EmitKeepsOtherRecords(p, metrics, values, labels, e);
      }
    }
    assert FreshRecordsGrow(p, metrics, values, labels, e);
    assert OtherRecordsKept(p, metrics, values, labels, e);
  }

  /** The model's record is the flat list of the tuples actually emitted:
      if a metric's record flattens the tuples emitted so far, then after a
      successful deduplicating pass it flattens them with `labels` appended
      exactly when the metric was emitted. A tuple emitted before is never
      emitted again. */
  lemma RecordFlattensEmittedTuples(p: Parsers, metrics: seq<MetricField>, values: map<string, string>,
                                    labels: seq<string>, e: Emission, j: nat, tuples: seq<seq<string>>)
    requires DistinctNames(metrics)
    requires EmitMetrics(p, true, metrics, values, labels, e).err.None?
    requires j < |metrics| && Recorded(e, metrics[j].name) == Flatten(tuples)
    ensures var r := EmitMetrics(p, true, metrics, values, labels, e);
            var emitted := metrics[j] in Fresh(true, metrics, values, labels, e);
            && (emitted <==> metrics[j].column in values && !Subslice(labels, Flatten(tuples)))
            && Recorded(r.em, metrics[j].name) == Flatten(if emitted then tuples + [labels] else tuples)
            && (EmittedBefore(tuples, labels) ==> !emitted)
  {
    EmitRecordsFresh(p, metrics, values, labels, e);
    FlattenAppend(tuples, labels);
    if EmittedBefore(tuples, labels) {
      EmittedBeforeIsCovered(tuples, labels);
    }
  }

  /** The two tuples of `SuppressesUnseenCombination` were emitted and the
      third was not, yet the flat record covers it. */
  lemma UnseenCombinationNotEmitted()
    ensures var tuples := [["p", "alice", "10.0.0.1"], ["p", "bob", "10.0.0.2"]];
            var labels := ["p", "alice", "10.0.0.2"];
            && Flatten(tuples) == ["p", "alice", "10.0.0.1", "p", "bob", "10.0.0.2"]
            && !EmittedBefore(tuples, labels)
            && Subslice(labels, Flatten(tuples))
  {
    var tuples := [["p", "alice", "10.0.0.1"], ["p", "bob", "10.0.0.2"]];
    assert tuples[1..][1..] == [];
    var flat := Flatten(tuples);
    assert flat == ["p", "alice", "10.0.0.1", "p", "bob", "10.0.0.2"];
    assert flat[0] == "p" && flat[1] == "alice" && flat[5] == "10.0.0.2";
  }

  /** A label tuple never emitted can still be suppressed: `Subslice` only
      asks that each label value occurred in some earlier tuple. Here the
      tuples ("p", "alice", "10.0.0.1") and ("p", "bob", "10.0.0.2") were
      emitted, and a third, different client ("p", "alice", "10.0.0.2") is
      skipped. */
  lemma SuppressesUnseenCombination(p: Parsers, m: MetricField)
    ensures var e := Emission(map[m.name := ["p", "alice", "10.0.0.1", "p", "bob", "10.0.0.2"]], []);
            var values := map[m.column := "42"];
            EmitMetrics(p, true, [m], values, ["p", "alice", "10.0.0.2"], e) == Emitted(e, None)
  {
    var e := Emission(map[m.name := ["p", "alice", "10.0.0.1", "p", "bob", "10.0.0.2"]], []);
    var main := Recorded(e, m.name);
    assert main[0] == "p" && main[1] == "alice" && main[5] == "10.0.0.2";
    assert Subslice(["p", "alice", "10.0.0.2"], main);
  }
}
