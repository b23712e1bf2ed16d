/**
 The Access Server decoder: the JSON document printed by `sacli VPNStatus`,
 already unmarshalled, is walked instance by instance and category by
 category. Server records arrive as positional string arrays, so each label
 and metric column is fetched from a fixed array position.
 */
module Api {
  import opened Model
  import opened Emit

  /** An unmarshalled JSON value. Objects keep their members as a sequence
      of (key, value) pairs: the order stands for Go's map iteration order,
      which the decoder does not control. */
  datatype Json =
    | JNull
    | JBool(b: bool)
    | JNumber(n: real)
    | JString(str: string)
    | JArray(items: seq<Json>)
    | JObject(entries: seq<(string, Json)>)

  /** The categories whose items are server records. */
  predicate IsTable(category: string) {
    category == "client_list" || category == "routing_table"
  }

  /** The directive key of a record category: the category in upper case. */
  function RecordTypeOf(category: string): (k: string)
    requires IsTable(category)
    ensures k in Directives(false) && k in Directives(true)
  {
    if category == "client_list" then "CLIENT_LIST" else "ROUTING_TABLE"
  }

  /** The directive of a record category. */
  function TableOf(ignore: bool, category: string): Directive
    requires IsTable(category)
  {
    Directives(ignore)[RecordTypeOf(category)]
  }

  /** The array position of a label column within an item of a category;
      an unknown column falls back to position 0. */
  function LabelIndex(category: string, column: string): nat {
    if category == "client_list" then
      if column == "Common Name" then 0
      else if column == "Real Address" then 1
      else if column == "Virtual Address" then 2
      else if column == "Connected Since (time_t)" then 7
      else if column == "Username" then 8
      else 0
    else if category == "routing_table" then
      if column == "Virtual Address" then 0
      else if column == "Common Name" then 1
      else if column == "Real Address" then 2
      else 0
    else 0
  }

  /** The array position of a metric column, the same in every category. */
  function MetricIndex(column: string): nat {
    if column == "Bytes Received" then 4
    else if column == "Bytes Sent" then 5
    else if column == "Last Ref (time_t)" then 4
    else 0
  }

  /** `v` is an array with a string at position `i`. */
  predicate StringAt(v: Json, i: nat) {
    v.JArray? && i < |v.items| && v.items[i].JString?
  }

  function Str(v: Json, i: nat): string
    requires StringAt(v, i)
  {
    v.items[i].str
  }

  /** An item the decoder can read without a failed type assertion. */
  predicate ItemWellTyped(d: Directive, category: string, item: Json) {
    && item.JArray?
    && (forall j :: 0 <= j < |d.labelColumns| ==> StringAt(item, LabelIndex(category, d.labelColumns[j])))
    && (forall j :: 0 <= j < |d.metrics| ==> StringAt(item, MetricIndex(d.metrics[j].column)))
  }

  predicate CategoryWellTyped(ignore: bool, category: string, data: Json) {
    && (category == "title" ==> data.JString?)
    && (category == "time" ==> StringAt(data, 1))
    && (IsTable(category) ==> data.JArray? && ItemsWellTyped(ignore, category, data.items))
  }

  predicate ItemsWellTyped(ignore: bool, category: string, items: seq<Json>)
    requires IsTable(category)
  {
    forall i :: 0 <= i < |items| ==> ItemWellTyped(TableOf(ignore, category), category, items[i])
  }

  lemma ItemsWellTypedTail(ignore: bool, category: string, items: seq<Json>)
    requires IsTable(category) && |items| >= 1 && ItemsWellTyped(ignore, category, items)
    ensures ItemWellTyped(TableOf(ignore, category), category, items[0])
    ensures ItemsWellTyped(ignore, category, items[1..])
  {
    forall i | 0 <= i < |items| - 1
      ensures ItemWellTyped(TableOf(ignore, category), category, items[1..][i])
    {
      assert items[1..][i] == items[i + 1];
    }
  }

  predicate InstanceWellTyped(ignore: bool, v: Json) {
    v.JObject? ==> forall j :: 0 <= j < |v.entries| ==> CategoryWellTyped(ignore, v.entries[j].0, v.entries[j].1)
  }

  /** Every type assertion the decoder makes on the document holds. */
  predicate DocWellTyped(ignore: bool, doc: seq<(string, Json)>) {
    forall i :: 0 <= i < |doc| ==> InstanceWellTyped(ignore, doc[i].1)
  }

  /** Stores the label columns' values, in column order. */
  function FillLabels(m: map<string, string>, category: string, cols: seq<string>, item: Json): (r: map<string, string>)
    requires forall j :: 0 <= j < |cols| ==> StringAt(item, LabelIndex(category, cols[j]))
    ensures forall c :: c in r <==> c in m || c in cols
    ensures forall j :: 0 <= j < |cols| ==> r[cols[j]] == Str(item, LabelIndex(category, cols[j]))
    ensures forall c :: c in m && c !in cols ==> r[c] == m[c]
    decreases |cols|
  {
    if |cols| == 0 then m
    else
      assert forall j :: 0 <= j < |cols| - 1 ==> cols[1..][j] == cols[j + 1];
      FillLabels(m[cols[0] := Str(item, LabelIndex(category, cols[0]))], category, cols[1..], item)
  }

  /** Some metric reads column `c`. */
  predicate HasColumn(metrics: seq<MetricField>, c: string) {
    exists j :: 0 <= j < |metrics| && metrics[j].column == c
  }

  /** Stores the metric columns' values, in table order. */
  function FillMetrics(m: map<string, string>, metrics: seq<MetricField>, item: Json): (r: map<string, string>)
    requires forall j :: 0 <= j < |metrics| ==> StringAt(item, MetricIndex(metrics[j].column))
    ensures forall c :: c in m ==> c in r
    ensures forall j :: 0 <= j < |metrics| ==>
              metrics[j].column in r && r[metrics[j].column] == Str(item, MetricIndex(metrics[j].column))
    ensures forall c :: c in m && !HasColumn(metrics, c) ==> r[c] == m[c]
    decreases |metrics|
  {
    if |metrics| == 0 then m
    else
      var c := metrics[0].column;
      var rest := metrics[1..];
      assert forall j :: 0 <= j < |rest| ==> rest[j] == metrics[j + 1];
      var r := FillMetrics(m[c := Str(item, MetricIndex(c))], rest, item);
      assert forall x :: HasColumn(rest, x) ==> HasColumn(metrics, x) by {
        forall x | HasColumn(rest, x) ensures HasColumn(metrics, x) {
          var j :| 0 <= j < |rest| && rest[j].column == x;
          assert metrics[j + 1].column == x;
        }
      }
      assert HasColumn(metrics, c) by {
        assert metrics[0].column == c;
      }
      r
  }

  /** The column values of one item, by column name. */
  function ItemValues(d: Directive, category: string, item: Json): (r: map<string, string>)
    requires ItemWellTyped(d, category, item)
    ensures forall j :: 0 <= j < |d.labelColumns| ==> d.labelColumns[j] in r
    ensures forall j :: 0 <= j < |d.metrics| ==> d.metrics[j].column in r
    ensures forall j :: 0 <= j < |d.metrics| ==> r[d.metrics[j].column] == Str(item, MetricIndex(d.metrics[j].column))
  {
    var m := FillLabels(map[], category, d.labelColumns, item);
    assert forall j :: 0 <= j < |d.labelColumns| ==> d.labelColumns[j] in m;
    FillMetrics(m, d.metrics, item)
  }

  /** The label tuple of an item: the status path, then its label columns. */
  function ItemLabels(path: string, cols: seq<string>, values: map<string, string>): (r: seq<string>)
    requires forall j :: 0 <= j < |cols| ==> cols[j] in values
  {
    [path] + seq(|cols|, j requires 0 <= j < |cols| => values[cols[j]])
  }

  /** What the document walk carries: the number of client records seen,
      and what has been emitted. */
  datatype ApiScan = ApiScan(clients: nat, em: Emission)

  datatype ApiStep = ApiStep(scan: ApiScan, err: Option<Error>)

  const ApiStart := ApiScan(0, Emission(map[], []))

  /** `b` keeps `a` as its prefix: nothing emitted is taken back. */
  predicate Extends(a: seq<Observation>, b: seq<Observation>) {
    |a| <= |b| && b[..|a|] == a
  }

  /** Every observation's first label is the status path. */
  predicate LabelledBy(out: seq<Observation>, path: string) {
    forall i :: 0 <= i < |out| ==> |out[i].labels| >= 1 && out[i].labels[0] == path
  }

  lemma ExtendsTrans(a: seq<Observation>, b: seq<Observation>, c: seq<Observation>)
    requires Extends(a, b) && Extends(b, c)
    ensures Extends(a, c)
  {
    assert c[..|a|] == c[..|b|][..|a|];
  }

  /** Labelling is kept by an extension whose new observations are labelled. */
  lemma LabelledExtension(a: seq<Observation>, b: seq<Observation>, path: string)
    requires Extends(a, b)
    requires forall i :: |a| <= i < |b| ==> |b[i].labels| >= 1 && b[i].labels[0] == path
    ensures LabelledBy(a, path) ==> LabelledBy(b, path)
  {
    if LabelledBy(a, path) {
      forall i | 0 <= i < |b| ensures |b[i].labels| >= 1 && b[i].labels[0] == path {
        if i < |a| {
          assert b[i] == b[..|a|][i];
        }
      }
    }
  }

  /** One record item: a client record is counted first, then every metric
      of its directive is emitted with the item's labels. */
  function ApiItem(p: Parsers, ignore: bool, path: string, category: string, item: Json, s: ApiScan): (r: ApiStep)
    requires IsTable(category)
    requires ItemWellTyped(TableOf(ignore, category), category, item)
    ensures r.scan.clients == s.clients + if category == "client_list" then 1 else 0
    ensures Extends(s.em.out, r.scan.em.out)
    ensures LabelledBy(s.em.out, path) ==> LabelledBy(r.scan.em.out, path)
    ensures r.err.Some? ==> r.err.value.ParseError?
  {
    var d := TableOf(ignore, category);
    var s1 := if category == "client_list" then s.(clients := s.clients + 1) else s;
    var values := ItemValues(d, category, item);
    var labels := ItemLabels(path, d.labelColumns, values);
    assert |labels| >= 1 && labels[0] == path;
    var e := EmitMetrics(p, false, d.metrics, values, labels, s1.em);
    LabelledExtension(s.em.out, e.em.out, path);
    ApiStep(s1.(em := e.em), e.err)
  }

  /** The items of one record category, in order, until one fails. */
  function ApiItems(p: Parsers, ignore: bool, path: string, category: string, items: seq<Json>, s: ApiScan): (r: ApiStep)
    requires IsTable(category)
    requires ItemsWellTyped(ignore, category, items)
    ensures r.err.None? ==> r.scan.clients == s.clients + if category == "client_list" then |items| else 0
    ensures Extends(s.em.out, r.scan.em.out)
    ensures LabelledBy(s.em.out, path) ==> LabelledBy(r.scan.em.out, path)
    ensures r.err.Some? ==> r.err.value.ParseError?
    decreases |items|
  {
    if |items| == 0 then ApiStep(s, None)
    else
      ItemsWellTypedTail(ignore, category, items);
      var a := ApiItem(p, ignore, path, category, items[0], s);
      if a.err.Some? then a
      else
        var r := ApiItems(p, ignore, path, category, items[1..], a.scan);
        ExtendsTrans(s.em.out, a.scan.em.out, r.scan.em.out);
        r
  }

  /** The number of client records under the categories of one instance. */
  function ClientItemsOf(entries: seq<(string, Json)>): nat
    decreases |entries|
  {
    if |entries| == 0 then 0
    else
      (if entries[0].0 == "client_list" && entries[0].1.JArray? then |entries[0].1.items| else 0)
      + ClientItemsOf(entries[1..])
  }

  /** The number of client records in the whole document; instances that are
      not objects hold none. */
  function ClientItems(doc: seq<(string, Json)>): nat
    decreases |doc|
  {
    if |doc| == 0 then 0
    else (if doc[0].1.JObject? then ClientItemsOf(doc[0].1.entries) else 0) + ClientItems(doc[1..])
  }

  /** One category of one instance: the build title, the update time, a
      record table, or anything else, which is skipped. */
  function ApiCategory(p: Parsers, ignore: bool, path: string, id: string, category: string, data: Json, s: ApiScan): (r: ApiStep)
    requires CategoryWellTyped(ignore, category, data)
    ensures r.err.None? ==> r.scan.clients == s.clients + if category == "client_list" && data.JArray? then |data.items| else 0
    ensures Extends(s.em.out, r.scan.em.out)
    ensures LabelledBy(s.em.out, path) ==> LabelledBy(r.scan.em.out, path)
    ensures r.err.Some? ==> r.err.value.ParseError?
    ensures category == "title" ==>
              r == ApiStep(s.(em := s.em.(out := s.em.out + [Observation(BuildInfoName, Gauge, 1.0, [path, id, data.str])])), None)
    ensures category == "time" && p.parseFloat(Str(data, 1)).None? ==>
              r == ApiStep(s, Some(ParseError(Str(data, 1))))
    ensures category == "time" && p.parseFloat(Str(data, 1)).Some? ==>
              r == ApiStep(s.(em := s.em.(out := s.em.out + [Observation(UpdateTimeName, Gauge, p.parseFloat(Str(data, 1)).value, [path, id])])), None)
    ensures category != "title" && category != "time" && !IsTable(category) ==> r == ApiStep(s, None)
  {
    if category == "title" then
      var out := s.em.out + [Observation(BuildInfoName, Gauge, 1.0, [path, id, data.str])];
      assert out[..|s.em.out|] == s.em.out;
      ApiStep(s.(em := s.em.(out := out)), None)
    else if category == "time" then
      match p.parseFloat(Str(data, 1))
      case None => ApiStep(s, Some(ParseError(Str(data, 1))))
      case Some(v) =>
        var out := s.em.out + [Observation(UpdateTimeName, Gauge, v, [path, id])];
        assert out[..|s.em.out|] == s.em.out;
        ApiStep(s.(em := s.em.(out := out)), None)
    else if IsTable(category) then
      ApiItems(p, ignore, path, category, data.items, s)
    else ApiStep(s, None)
  }

  /** The categories of one instance, in order, until one fails. */
  function ApiCategories(p: Parsers, ignore: bool, path: string, id: string, entries: seq<(string, Json)>, s: ApiScan): (r: ApiStep)
    requires forall j :: 0 <= j < |entries| ==> CategoryWellTyped(ignore, entries[j].0, entries[j].1)
    ensures r.err.None? ==> r.scan.clients == s.clients + ClientItemsOf(entries)
    ensures Extends(s.em.out, r.scan.em.out)
    ensures LabelledBy(s.em.out, path) ==> LabelledBy(r.scan.em.out, path)
    ensures r.err.Some? ==> r.err.value.ParseError?
    decreases |entries|
  {
    if |entries| == 0 then ApiStep(s, None)
    else
      var a := ApiCategory(p, ignore, path, id, entries[0].0, entries[0].1, s);
      if a.err.Some? then a
      else
        var r := ApiCategories(p, ignore, path, id, entries[1..], a.scan);
        ExtendsTrans(s.em.out, a.scan.em.out, r.scan.em.out);
        r
  }

  /** The instances of the document, in order, until one fails; a value
      that is not an object is skipped. */
  function ApiInstances(p: Parsers, ignore: bool, path: string, doc: seq<(string, Json)>, s: ApiScan): (r: ApiStep)
    requires DocWellTyped(ignore, doc)
    ensures r.err.None? ==> r.scan.clients == s.clients + ClientItems(doc)
    ensures Extends(s.em.out, r.scan.em.out)
    ensures LabelledBy(s.em.out, path) ==> LabelledBy(r.scan.em.out, path)
    ensures r.err.Some? ==> r.err.value.ParseError?
    decreases |doc|
  {
    if |doc| == 0 then ApiStep(s, None)
    else
      var a := if doc[0].1.JObject? then ApiCategories(p, ignore, path, doc[0].0, doc[0].1.entries, s) else ApiStep(s, None);
      if a.err.Some? then a
      else
        assert DocWellTyped(ignore, doc[1..]) by {
          assert forall i :: 0 <= i < |doc| - 1 ==> doc[1..][i] == doc[i + 1];
        }
        var r := ApiInstances(p, ignore, path, doc[1..], a.scan);
        ExtendsTrans(s.em.out, a.scan.em.out, r.scan.em.out);
        r
  }

  /** Decodes an unmarshalled status document. A failed parse ends the walk
      with what was already emitted; otherwise the walk ends with the number
      of client records, over all instances, as the connected-clients gauge. */
  function DecodeApi(p: Parsers, ignore: bool, path: string, doc: seq<(string, Json)>): (r: Run)
    requires DocWellTyped(ignore, doc)
    ensures r.err.Some? ==> r.err.value.ParseError?
    ensures r.Ok() ==> |r.out| >= 1 && r.out[|r.out| - 1] == Observation(ConnectedClientsName, Gauge, ClientItems(doc) as real, [path])
    ensures LabelledBy(r.out, path)
  {
    var w := ApiInstances(p, ignore, path, doc, ApiStart);
    if w.err.Some? then Run(w.scan.em.out, w.err)
    else
      var out := w.scan.em.out + [Observation(ConnectedClientsName, Gauge, w.scan.clients as real, [path])];
      LabelledExtension(w.scan.em.out, out, path);
      Run(out, None)
  }

  /** Keeps only the instances whose value is an object. */
  function Objects(doc: seq<(string, Json)>): (r: seq<(string, Json)>)
    ensures forall i :: 0 <= i < |r| ==> r[i].1.JObject?
    decreases |doc|
  {
    if |doc| == 0 then []
    else if doc[0].1.JObject? then [doc[0]] + Objects(doc[1..])
    else Objects(doc[1..])
  }

  lemma {:induction false} ObjectsWellTyped(ignore: bool, doc: seq<(string, Json)>)
    requires DocWellTyped(ignore, doc)
    ensures DocWellTyped(ignore, Objects(doc))
    decreases |doc|
  {
    if |doc| > 0 {
      assert DocWellTyped(ignore, doc[1..]) by {
        assert forall i :: 0 <= i < |doc| - 1 ==> doc[1..][i] == doc[i + 1];
      }
      ObjectsWellTyped(ignore, doc[1..]);
      var rest := Objects(doc[1..]);
      if doc[0].1.JObject? {
        assert forall i :: 0 < i < |[doc[0]] + rest| ==> ([doc[0]] + rest)[i] == rest[i - 1];
      }
    }
  }

  /** Instances that are not objects change nothing: the walk over the
      document is the walk over its object instances alone. */
  lemma {:induction false} NonObjectsSkipped(p: Parsers, ignore: bool, path: string, doc: seq<(string, Json)>, s: ApiScan)
    requires DocWellTyped(ignore, doc)
    ensures DocWellTyped(ignore, Objects(doc))
    ensures ApiInstances(p, ignore, path, doc, s) == ApiInstances(p, ignore, path, Objects(doc), s)
    decreases |doc|
  {
    ObjectsWellTyped(ignore, doc);
    if |doc| > 0 {
      assert DocWellTyped(ignore, doc[1..]) by {
        assert forall i :: 0 <= i < |doc| - 1 ==> doc[1..][i] == doc[i + 1];
      }
      if doc[0].1.JObject? {
        var a := ApiCategories(p, ignore, path, doc[0].0, doc[0].1.entries, s);
        var objs := Objects(doc);
        assert objs[0] == doc[0] && objs[1..] == Objects(doc[1..]);
        if a.err.None? {
          NonObjectsSkipped(p, ignore, path, doc[1..], a.scan);
        }
      } else {
        NonObjectsSkipped(p, ignore, path, doc[1..], s);
      }
    }
  }

  /** A label column that no metric shares keeps the value at its label
      position. */
  lemma ItemValuesAtLabel(d: Directive, category: string, item: Json, j: nat)
    requires ItemWellTyped(d, category, item)
    requires j < |d.labelColumns|
    requires forall k :: 0 <= k < |d.metrics| ==> d.metrics[k].column != d.labelColumns[j]
    ensures ItemValues(d, category, item)[d.labelColumns[j]] == Str(item, LabelIndex(category, d.labelColumns[j]))
  {
    var m := FillLabels(map[], category, d.labelColumns, item);
    assert d.labelColumns[j] in m;
  }

  /** The labels an item gets when every label column is read at its
      label position. */
  function PositionalLabels(path: string, category: string, cols: seq<string>, item: Json): (r: seq<string>)
    requires forall j :: 0 <= j < |cols| ==> StringAt(item, LabelIndex(category, cols[j]))
  {
    [path] + seq(|cols|, j requires 0 <= j < |cols| => Str(item, LabelIndex(category, cols[j])))
  }

  /** When no metric column is also a label column, an item's labels are
      read straight from the label positions. */
  lemma LabelsArePositional(path: string, d: Directive, category: string, item: Json)
    requires ItemWellTyped(d, category, item)
    requires forall j, k :: 0 <= j < |d.labelColumns| && 0 <= k < |d.metrics| ==> d.metrics[k].column != d.labelColumns[j]
    ensures ItemLabels(path, d.labelColumns, ItemValues(d, category, item)) == PositionalLabels(path, category, d.labelColumns, item)
  {
    forall j | 0 <= j < |d.labelColumns| {
      ItemValuesAtLabel(d, category, item, j);
    }
  }

  /** The array positions a sequence of label columns is read from. */
  function Positions(category: string, cols: seq<string>): (r: seq<nat>)
    ensures |r| == |cols|
  {
    seq(|cols|, j requires 0 <= j < |cols| => LabelIndex(category, cols[j]))
  }

  /** The array positions the metrics of a table are read from. */
  function MetricPositions(ms: seq<MetricField>): (r: seq<nat>)
    ensures |r| == |ms|
  {
    seq(|ms|, j requires 0 <= j < |ms| => MetricIndex(ms[j].column))
  }

  /** The label positions of each record category under each identity
      setting: a client is read from positions 0, 7, 1, 2, 8 (common name,
      connected since, real address, virtual address, user name) and a
      route from 1, 2, 0 (common name, real address, virtual address);
      with individuals ignored, only the common name is read. A client's
      received and sent bytes are at positions 4 and 5, a route's last
      reference time at position 4. */
  lemma ApiLabelPositions(ignore: bool)
    ensures Positions("client_list", Directives(ignore)["CLIENT_LIST"].labelColumns) == if ignore then [0] else [0, 7, 1, 2, 8]
    ensures Positions("routing_table", Directives(ignore)["ROUTING_TABLE"].labelColumns) == if ignore then [1] else [1, 2, 0]
    ensures MetricPositions(Directives(ignore)["CLIENT_LIST"].metrics) == [4, 5]
    ensures MetricPositions(Directives(ignore)["ROUTING_TABLE"].metrics) == [4]
  {
  }

  /** Within each record category, distinct label columns of a table are
      read from distinct array positions, and no label shares a position
      with a metric: an item's labels and values are separate cells. */
  lemma PositionsApart(ignore: bool, category: string)
    requires IsTable(category)
    ensures var d := TableOf(ignore, category);
            var lp := Positions(category, d.labelColumns);
            var mp := MetricPositions(d.metrics);
            && (forall j, k :: 0 <= j < k < |lp| ==> lp[j] != lp[k])
            && (forall j, m :: 0 <= j < |lp| && 0 <= m < |mp| ==> lp[j] != mp[m])
  {
    ApiLabelPositions(ignore);
    var d := TableOf(ignore, category);
    PositionListsApart(Positions(category, d.labelColumns), MetricPositions(d.metrics));
  }

  lemma PositionListsApart(lp: seq<nat>, mp: seq<nat>)
    requires lp == [0, 7, 1, 2, 8] || lp == [0] || lp == [1, 2, 0] || lp == [1]
    requires mp == [4, 5] || mp == [4]
    ensures forall j, k :: 0 <= j < k < |lp| ==> lp[j] != lp[k]
    ensures forall j, m :: 0 <= j < |lp| && 0 <= m < |mp| ==> lp[j] != mp[m]
  {
  }

  /** In both tables, no metric column is also a label column. */
  lemma ColumnsApart(ignore: bool, k: string)
    requires k in Directives(ignore)
    ensures var d := Directives(ignore)[k];
            forall j, m :: 0 <= j < |d.labelColumns| && 0 <= m < |d.metrics| ==> d.metrics[m].column != d.labelColumns[j]
  {
  }

  /** An item's labels are the status path followed by the strings at the
      label positions of its category, in label column order. */
  lemma ApiItemLabels(path: string, ignore: bool, category: string, item: Json)
    requires IsTable(category)
    requires ItemWellTyped(TableOf(ignore, category), category, item)
    ensures var d := TableOf(ignore, category);
            ItemLabels(path, d.labelColumns, ItemValues(d, category, item)) == PositionalLabels(path, category, d.labelColumns, item)
  {
    var d := TableOf(ignore, category);
    ColumnsApart(ignore, RecordTypeOf(category));
    LabelsArePositional(path, d, category, item);
  }

  /** An item emits every metric of its directive, in table order, each
      with the value at its metric position; it fails exactly when one of
      those values does not parse. */
  lemma ApiItemEmitsEveryMetric(p: Parsers, ignore: bool, path: string, category: string, item: Json, s: ApiScan)
    requires IsTable(category)
    requires ItemWellTyped(TableOf(ignore, category), category, item)
    ensures var d := TableOf(ignore, category);
            var values := ItemValues(d, category, item);
            var labels := ItemLabels(path, d.labelColumns, values);
            var r := ApiItem(p, ignore, path, category, item, s);
            && (r.err.None? <==> AllParse(p, d.metrics, values))
            && (r.err.None? ==> r.scan.em.out == s.em.out + Expected(p, d.metrics, values, labels))
  {
    var d := TableOf(ignore, category);
    var values := ItemValues(d, category, item);
    var labels := ItemLabels(path, d.labelColumns, values);
    var s1 := if category == "client_list" then s.(clients := s.clients + 1) else s;
    PresentOfAll(d.metrics, values);
    EmitFailsIffUnparsable(p, false, d.metrics, values, labels, s1.em);
    if EmitMetrics(p, false, d.metrics, values, labels, s1.em).err.None? {
      EmitsEveryPresentMetric(p, false, d.metrics, values, labels, s1.em);
    }
  }
}
