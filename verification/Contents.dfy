/** What the tables hold after complete runs, told from the events of the stream. */
module Contents {
  import opened Payload
  import opened Strings
  import opened Delivery
  import opened Pipeline
  import opened Tables
  import opened Guarantees
  import opened Leaves

  /** An event somewhere in the stream, at any depth of batches, is to leave this row. */
  ghost predicate RowPromised(stream: seq<Payload>, r: Row) {
    exists m: nat, path :: m < |stream| && IsLeaf(stream[m], path) && LeafOf(stream[m], path).Request? &&
      RowOf(LeafOf(stream[m], path).request, r)
  }

  ghost predicate FindingPromised(stream: seq<Payload>, f: FindingRow) {
    exists m: nat, path :: m < |stream| && IsLeaf(stream[m], path) && LeafOf(stream[m], path).Inspector? &&
      FindingOf(LeafOf(stream[m], path).event, f)
  }

  lemma {:induction false} StampedLeaf(p: Payload, path: seq<nat>)
    requires Stamped(p) && IsLeaf(p, path)
    ensures Stamped(LeafOf(p, path))
    decreases |path|
  {
    if path != [] {
      StampedItem(p.items, path[0]);
      StampedLeaf(p.items[path[0]], path[1..]);
    }
  }

  lemma {:induction false} StampedItem(items: seq<Payload>, i: nat)
    requires StampedItems(items) && i < |items|
    ensures Stamped(items[i])
    decreases i
  {
    if i > 0 {
      StampedItem(items[1..], i - 1);
    }
  }

  lemma FindingFixed(ev: InspectorEvent, f: FindingRow, g: FindingRow)
    requires FindingOf(ev, f) && FindingOf(ev, g) && f.key.index == g.key.index && ev.ts.Just?
    ensures f == g
  {
  }

  lemma RowFixed(ev: RequestEvent, r: Row, s: Row)
    requires RowOf(ev, r) && RowOf(ev, s) && ev.ts.Just?
    ensures r == s
  {
  }

  lemma {:induction false} RowMember(ys: seq<Yield>, r: Row)
    ensures r in RowsIn(ys) <==> exists j :: 0 <= j < |ys| && r in ys[j].rows
  {
    if ys != [] {
      RowMember(ys[1..], r);
      assert forall j :: 0 < j < |ys| ==> ys[j] == ys[1..][j - 1];
      assert forall j :: 0 <= j < |ys| - 1 ==> ys[1..][j] == ys[j + 1];
    }
  }

  lemma {:induction false} FindingMember(ys: seq<Yield>, f: FindingRow)
    ensures f in FindingsIn(ys) <==> exists j :: 0 <= j < |ys| && f in ys[j].findings
  {
    if ys != [] {
      FindingMember(ys[1..], f);
      assert forall j :: 0 < j < |ys| ==> ys[j] == ys[1..][j - 1];
      assert forall j :: 0 <= j < |ys| - 1 ==> ys[1..][j] == ys[j + 1];
    }
  }

  lemma FindingIn(ev: InspectorEvent, fs: seq<FindingRow>, f: FindingRow)
    requires Stamped(Inspector(ev)) && FindingsFor(Inspector(ev), fs) && FindingOf(ev, f)
    ensures f in fs
  {
    var i := f.key.index;
    assert i < |fs|;
    FindingFixed(ev, fs[i], f);
  }

  lemma FindingYielded(p: Payload, ys: seq<Yield>, path: seq<nat>, f: FindingRow) returns (j: nat)
    requires Stamped(p) && AllTold(p, ys)
    requires IsLeaf(p, path) && LeafOf(p, path).Inspector? && FindingOf(LeafOf(p, path).event, f)
    ensures j < |ys| && f in ys[j].findings
  {
    hide Stamped, FindingOf, DistinctPaths;
    j :| 0 <= j < |ys| && ys[j].path == path;
    assert LeafTold(p, ys[j]);
    StampedLeaf(p, path);
    FindingIn(LeafOf(p, path).event, ys[j].findings, f);
  }

  /** Of a stamped payload: what it parses to is what its events are to leave. */
  lemma FindingParsedIff(p: Payload, now: Clock, f: FindingRow)
    requires Stamped(p)
    ensures f in Parse(p, now).findings <==>
            exists path :: IsLeaf(p, path) && LeafOf(p, path).Inspector? && FindingOf(LeafOf(p, path).event, f)
  {
    hide Parse, Stamped, FindingOf, FindingsIn, RowsIn, AnyBad;
    var ys := ParseTells(p, now);
    FindingMember(ys, f);
    if f in Parse(p, now).findings {
      var j :| 0 <= j < |ys| && f in ys[j].findings;
      assert LeafTold(p, ys[j]);
      assert FindingOf(LeafOf(p, ys[j].path).event, f);
    }
    if path :| IsLeaf(p, path) && LeafOf(p, path).Inspector? && FindingOf(LeafOf(p, path).event, f) {
      var j := FindingYielded(p, ys, path, f);
      assert f in ys[j].findings;
    }
  }

  lemma RowIn(ev: RequestEvent, rows: seq<Row>, r: Row)
    requires Stamped(Request(ev)) && RowsFor(Request(ev), rows) && RowOf(ev, r)
    ensures r in rows
  {
    RowFixed(ev, rows[0], r);
  }

  lemma RowYielded(p: Payload, ys: seq<Yield>, path: seq<nat>, r: Row) returns (j: nat)
    requires Stamped(p) && AllTold(p, ys)
    requires IsLeaf(p, path) && LeafOf(p, path).Request? && RowOf(LeafOf(p, path).request, r)
    ensures j < |ys| && r in ys[j].rows
  {
    hide Stamped, RowOf, DistinctPaths;
    j :| 0 <= j < |ys| && ys[j].path == path;
    assert LeafTold(p, ys[j]);
    StampedLeaf(p, path);
    RowIn(LeafOf(p, path).request, ys[j].rows, r);
  }

  lemma RowParsedIff(p: Payload, now: Clock, r: Row)
    requires Stamped(p)
    ensures r in Parse(p, now).rows <==>
            exists path :: IsLeaf(p, path) && LeafOf(p, path).Request? && RowOf(LeafOf(p, path).request, r)
  {
    hide Parse, Stamped, RowOf, FindingsIn, RowsIn, AnyBad;
    var ys := ParseTells(p, now);
    RowMember(ys, r);
    if r in Parse(p, now).rows {
      var j :| 0 <= j < |ys| && r in ys[j].rows;
      assert LeafTold(p, ys[j]);
      assert RowOf(LeafOf(p, ys[j].path).request, r);
    }
    if path :| IsLeaf(p, path) && LeafOf(p, path).Request? && RowOf(LeafOf(p, path).request, r) {
      var j := RowYielded(p, ys, path, r);
      assert r in ys[j].rows;
    }
  }

  /** The rows of a stamped stream are those its events are to leave. */
  lemma StreamTold(stream: seq<Payload>)
    requires AllStamped(stream)
    ensures forall r :: r in StreamRows(stream) <==> RowPromised(stream, r)
    ensures forall f :: f in StreamFindings(stream) <==> FindingPromised(stream, f)
  {
    hide Parse, Stamped, RowOf, FindingOf, IsLeaf, LeafOf;
    var once := Once(|stream|, Steady(0));
    RowsOfMember(stream, once);
    forall r ensures r in StreamRows(stream) <==> RowPromised(stream, r) {
      forall m: nat | m < |stream| { RowParsedIff(stream[m], Steady(0), r); }
      assert forall m: nat :: m < |stream| ==>
        once[m] in once && Rows(stream, once[m]) == Parse(stream[m], Steady(0)).rows;
    }
    forall f ensures f in StreamFindings(stream) <==> FindingPromised(stream, f) {
      forall m: nat | m < |stream| { FindingParsedIff(stream[m], Steady(0), f); }
      assert forall m: nat :: m < |stream| ==>
        once[m] in once && Findings(stream, once[m]) == Parse(stream[m], Steady(0)).findings;
    }
  }

  /** After every complete run over stamped messages the raw tables hold a row for every addressed request
      and a finding for every finding of every addressed inspector event, or one clean one, however deep
      in batches it came; and they hold nothing else. */
  lemma TablesTold(stream: seq<Payload>, run: Run)
    requires AllStamped(stream) && Complete(stream, run)
    ensures forall r :: r in After(stream, run).store.audit <==> RowPromised(stream, r)
    ensures forall f :: f in After(stream, run).store.findings <==> FindingPromised(stream, f)
  {
    hide IsRun, After, StreamRows, StreamFindings, AllConfirmed, AllStamped, RowPromised, FindingPromised;
    TablesComplete(stream, run);
    StreamTold(stream);
  }

  /** Rows and findings that events of the stream are to leave under one sort key are the same. */
  ghost predicate KeysTell(stream: seq<Payload>) {
    && (forall r, s :: RowPromised(stream, r) && RowPromised(stream, s) && r.key == s.key ==> r == s)
    && (forall f, g :: FindingPromised(stream, f) && FindingPromised(stream, g) && f.key == g.key ==> f == g)
  }

  /** And if the sort keys tell them apart the tables with FINAL show exactly these, each once. */
  lemma EventsShownOnce(stream: seq<Payload>, run: Run)
    requires AllStamped(stream) && Complete(stream, run) && KeysTell(stream)
    ensures var st := After(stream, run).store;
            && (forall r :: r in Audit(st).Values <==> RowPromised(stream, r))
            && (forall f :: f in AuditFinding(st).Values <==> FindingPromised(stream, f))
            && (forall k :: k in Audit(st) ==> Audit(st)[k].key == k)
            && (forall k :: k in AuditFinding(st) ==> AuditFinding(st)[k].key == k)
  {
    hide IsRun, After, StreamRows, StreamFindings, AllConfirmed, AllStamped, RowPromised, FindingPromised, Collapse;
    var st := After(stream, run).store;
    StreamTold(stream);
    EffectivelyOnce(stream, run);
    CollapseHolds(st.audit, RowKeyOf, RowRev);
    CollapseHolds(st.findings, FindingKeyOf, FindingRev);
    assert forall k :: k in Audit(st) ==> RowKeyOf(Audit(st)[k]) == k;
    assert forall k :: k in AuditFinding(st) ==> FindingKeyOf(AuditFinding(st)[k]) == k;
  }

  /** For instance finding i of an inspector event below the cap. */
  lemma FindingIsStored(stream: seq<Payload>, run: Run, m: nat, path: seq<nat>, i: nat)
    requires AllStamped(stream) && Complete(stream, run)
    requires m < |stream| && IsLeaf(stream[m], path) && LeafOf(stream[m], path).Inspector?
    requires var ev := LeafOf(stream[m], path).event;
             ev.node != "" && ev.ray != "" && ev.inspector != "" && i < |ev.findings| && i < 1024
    ensures var ev := LeafOf(stream[m], path).event;
            var phase := if ev.phase == "" then "request" else ev.phase;
            && ev.ts.Just?
            && (ev.frame.Nothing? ==>
                  FindingRow(FindingKey(ev.ts.value, ev.node, ev.ray, phase, ev.inspector, i, "", 0), 0, ev.head,
                             Just(ev.findings[i])) in After(stream, run).store.findings)
            && (ev.frame.Just? ==>
                  FindingRow(FindingKey(ev.ts.value, ev.node, ev.ray, phase, ev.inspector, i,
                                        ev.frame.value.direction, ev.frame.value.number), 0, ev.head,
                             Just(ev.findings[i])) in After(stream, run).store.findings)
  {
    hide IsRun, After, AllConfirmed;
    var ev := LeafOf(stream[m], path).event;
    StampedLeaf(stream[m], path);
    TablesTold(stream, run);
    var phase := if ev.phase == "" then "request" else ev.phase;
    var frame := if ev.frame.Just? then ev.frame.value else Frame("", 0);
    var f := FindingRow(FindingKey(ev.ts.value, ev.node, ev.ray, phase, ev.inspector, i, frame.direction, frame.number),
                        0, ev.head, Just(ev.findings[i]));
    assert FindingOf(ev, f);
    assert FindingPromised(stream, f);
  }
}
