/** What a payload yields, told from its leaves: the events that stand in it at any depth of batches. */
module Leaves {
  import opened Payload
  import opened Strings

  /** A path leads through the batches to something that is no batch. */
  predicate IsLeaf(p: Payload, path: seq<nat>)
    decreases |path|
  {
    if path == [] then !p.BatchOf?
    else p.BatchOf? && path[0] < |p.items| && IsLeaf(p.items[path[0]], path[1..])
  }

  function LeafOf(p: Payload, path: seq<nat>): Payload
    requires IsLeaf(p, path)
    decreases |path|
  {
    if path == [] then p else LeafOf(p.items[path[0]], path[1..])
  }

  // What an event is to leave behind

  predicate SameFrame(frame: Maybe<Frame>, direction: string, number: nat) {
    match frame
    case Just(f) => direction == f.direction && number == f.number
    case Nothing => direction == "" && number == 0
  }

  /** The row of a request event, but for a time stamp that does not parse. */
  predicate RowOf(ev: RequestEvent, r: Row) {
    && ev.node != "" && ev.ray != ""
    && r.key.node == ev.node && r.key.ray == ev.ray
    && (ev.phase != "" ==> r.key.phase == ev.phase) && (ev.phase == "" ==> r.key.phase == "request")
    && SameFrame(ev.frame, r.key.direction, r.key.frame)
    && (ev.ts.Just? ==> r.key.ts == ev.ts.value)
    && r.rev == 0 && r.rest == ev.rest
  }

  /** The row of an inspector event at an index, but for a time stamp that does not parse. */
  predicate FindingOf(ev: InspectorEvent, f: FindingRow) {
    && ev.node != "" && ev.ray != "" && ev.inspector != ""
    && f.key.node == ev.node && f.key.ray == ev.ray && f.key.inspector == ev.inspector
    && (ev.phase != "" ==> f.key.phase == ev.phase) && (ev.phase == "" ==> f.key.phase == "request")
    && SameFrame(ev.frame, f.key.direction, f.key.frame)
    && (ev.ts.Just? ==> f.key.ts == ev.ts.value)
    && f.rev == 0 && f.head == ev.head
    && (ev.findings == [] ==> f.key.index == 0 && f.detail == Nothing)
    && (ev.findings != [] ==>
          f.key.index < |ev.findings| && f.key.index < 1024 && f.detail == Just(ev.findings[f.key.index]))
  }

  /** The rows a leaf is to give: one for an addressed request, none for anything else. */
  predicate RowsFor(leaf: Payload, rows: seq<Row>) {
    if leaf.Request? && leaf.request.node != "" && leaf.request.ray != "" then
      |rows| == 1 && RowOf(leaf.request, rows[0])
    else rows == []
  }

  /** The findings a leaf is to give: of an addressed inspector event one a finding, in order, up to the cap,
      and one if it has none; nothing for anything else. */
  predicate FindingsFor(leaf: Payload, fs: seq<FindingRow>) {
    if leaf.Inspector? && leaf.event.node != "" && leaf.event.ray != "" && leaf.event.inspector != "" then
      var n := |leaf.event.findings|;
      && |fs| == (if n == 0 then 1 else if n > 1024 then 1024 else n)
      && forall i :: 0 <= i < |fs| ==> FindingOf(leaf.event, fs[i]) && fs[i].key.index == i
    else fs == []
  }

  predicate IsBad(leaf: Payload) { leaf.Malformed? || leaf.InspectorMistyped? }

  /** What is read of the leaf at a path. */
  datatype Yield = Yield(path: seq<nat>, rows: seq<Row>, findings: seq<FindingRow>, bad: bool)

  function RowsIn(ys: seq<Yield>): seq<Row> {
    if ys == [] then [] else ys[0].rows + RowsIn(ys[1..])
  }

  function FindingsIn(ys: seq<Yield>): seq<FindingRow> {
    if ys == [] then [] else ys[0].findings + FindingsIn(ys[1..])
  }

  predicate AnyBad(ys: seq<Yield>) {
    exists j :: 0 <= j < |ys| && ys[j].bad
  }

  predicate LeafTold(p: Payload, y: Yield) {
    && IsLeaf(p, y.path)
    && RowsFor(LeafOf(p, y.path), y.rows) && FindingsFor(LeafOf(p, y.path), y.findings)
    && (y.bad <==> IsBad(LeafOf(p, y.path)))
  }

  ghost predicate DistinctPaths(ys: seq<Yield>) {
    forall i, j :: 0 <= i < j < |ys| ==> ys[i].path != ys[j].path
  }

  /** Every leaf is told of once. */
  ghost predicate AllTold(p: Payload, ys: seq<Yield>) {
    && (forall j :: 0 <= j < |ys| ==> LeafTold(p, ys[j]))
    && DistinctPaths(ys)
    && forall path :: IsLeaf(p, path) ==> exists j :: 0 <= j < |ys| && ys[j].path == path
  }

  lemma YieldsJoin(a: seq<Yield>, b: seq<Yield>)
    ensures RowsIn(a + b) == RowsIn(a) + RowsIn(b) && FindingsIn(a + b) == FindingsIn(a) + FindingsIn(b)
    ensures AnyBad(a + b) <==> AnyBad(a) || AnyBad(b)
  {
    YieldsFlat(a, b);
    var all := a + b;
    if j :| 0 <= j < |a| && a[j].bad {
      assert all[j].bad;
    }
    if j :| 0 <= j < |b| && b[j].bad {
      assert all[|a| + j].bad;
    }
  }

  lemma {:induction false} YieldsFlat(a: seq<Yield>, b: seq<Yield>)
    ensures RowsIn(a + b) == RowsIn(a) + RowsIn(b) && FindingsIn(a + b) == FindingsIn(a) + FindingsIn(b)
  {
    if a == [] {
      assert a + b == b;
    } else {
      assert (a + b)[1..] == a[1..] + b;
      YieldsFlat(a[1..], b);
    }
  }

  lemma OneYield(y: Yield)
    ensures RowsIn([y]) == y.rows && FindingsIn([y]) == y.findings && (AnyBad([y]) <==> y.bad)
  {
    assert [y][1..] == [] && [y][0] == y;
  }

  lemma EventYields(p: Payload, now: Clock)
    requires !p.BatchOf?
    ensures var r := Parse(p, now);
            RowsFor(p, r.rows) && FindingsFor(p, r.findings) && (r.bad <==> IsBad(p))
  {
    hide InspectorRows;
    if p.Inspector? {
      InspectorTold(p.event, now.at);
    }
  }

  lemma InspectorTold(ev: InspectorEvent, now: int)
    ensures FindingsFor(Inspector(ev), InspectorRows(ev, now))
  {
    hide FindingOf;
    forall i | 0 <= i < |InspectorRows(ev, now)| ensures FindingOf(ev, InspectorRows(ev, now)[i]) {
      FindingTold(ev, now, i);
    }
  }

  lemma FindingTold(ev: InspectorEvent, now: int, i: nat)
    requires i < |InspectorRows(ev, now)|
    ensures FindingOf(ev, InspectorRows(ev, now)[i])
  {
  }

  /** The yields of an item, under its place in the batch. */
  function Placed(ys: seq<Yield>, i: nat): (r: seq<Yield>)
    ensures |r| == |ys| && forall j :: 0 <= j < |ys| ==> r[j] == ys[j].(path := [i] + ys[j].path)
  {
    seq(|ys|, j requires 0 <= j < |ys| => ys[j].(path := [i] + ys[j].path))
  }

  lemma {:induction false} PlacedSame(ys: seq<Yield>, i: nat)
    ensures RowsIn(Placed(ys, i)) == RowsIn(ys) && FindingsIn(Placed(ys, i)) == FindingsIn(ys)
    ensures AnyBad(Placed(ys, i)) <==> AnyBad(ys)
  {
    PlacedFlat(ys, i);
    assert forall j :: 0 <= j < |ys| ==> Placed(ys, i)[j].bad == ys[j].bad;
  }

  lemma {:induction false} PlacedFlat(ys: seq<Yield>, i: nat)
    ensures RowsIn(Placed(ys, i)) == RowsIn(ys) && FindingsIn(Placed(ys, i)) == FindingsIn(ys)
  {
    if ys != [] {
      assert Placed(ys, i)[1..] == Placed(ys[1..], i);
      PlacedFlat(ys[1..], i);
    }
  }

  /** The leaves of the items of a batch from i on. */
  ghost predicate ItemsTold(p: Payload, i: nat, ys: seq<Yield>)
    requires p.BatchOf?
  {
    && (forall j :: 0 <= j < |ys| ==> LeafTold(p, ys[j]) && ys[j].path != [] && ys[j].path[0] >= i)
    && DistinctPaths(ys)
    && forall path :: IsLeaf(p, path) && path[0] >= i ==> exists j :: 0 <= j < |ys| && ys[j].path == path
  }

  lemma PlacedTold(p: Payload, i: nat, y: Yield)
    requires p.BatchOf? && i < |p.items| && LeafTold(p.items[i], y)
    ensures LeafTold(p, y.(path := [i] + y.path))
  {
    assert ([i] + y.path)[1..] == y.path;
  }

  lemma FrontTold(p: Payload, i: nat, item: seq<Yield>, rest: seq<Yield>, j: nat)
    requires p.BatchOf? && i < |p.items| && AllTold(p.items[i], item) && ItemsTold(p, i + 1, rest)
    requires j < |item| + |rest|
    ensures var y := (Placed(item, i) + rest)[j]; LeafTold(p, y) && y.path != [] && y.path[0] >= i
    ensures var y := (Placed(item, i) + rest)[j]; y.path[0] == i <==> j < |item|
  {
    hide LeafTold, DistinctPaths, IsLeaf;
    if j < |item| {
      PlacedTold(p, i, item[j]);
    }
  }

  lemma FrontDistinct(p: Payload, i: nat, item: seq<Yield>, rest: seq<Yield>)
    requires p.BatchOf? && i < |p.items| && AllTold(p.items[i], item) && ItemsTold(p, i + 1, rest)
    ensures DistinctPaths(Placed(item, i) + rest)
  {
    hide LeafTold, IsLeaf;
    var all := Placed(item, i) + rest;
    forall j, k | 0 <= j < k < |all| ensures all[j].path != all[k].path {
      FrontTold(p, i, item, rest, j);
      FrontTold(p, i, item, rest, k);
      if k < |item| {
        assert all[j].path[1..] == item[j].path && all[k].path[1..] == item[k].path;
      } else if j >= |item| {
        assert rest[j - |item|].path != rest[k - |item|].path;
      }
    }
  }

  lemma FrontCovers(p: Payload, i: nat, item: seq<Yield>, rest: seq<Yield>, path: seq<nat>) returns (j: nat)
    requires p.BatchOf? && i < |p.items| && AllTold(p.items[i], item) && ItemsTold(p, i + 1, rest)
    requires IsLeaf(p, path) && path[0] >= i
    ensures j < |item| + |rest| && (Placed(item, i) + rest)[j].path == path
  {
    hide LeafTold, DistinctPaths;
    if path[0] == i {
      assert IsLeaf(p.items[i], path[1..]);
      j :| 0 <= j < |item| && item[j].path == path[1..];
      assert [i] + path[1..] == path;
    } else {
      var k :| 0 <= k < |rest| && rest[k].path == path;
      j := |item| + k;
    }
  }

  lemma ItemInFront(p: Payload, i: nat, item: seq<Yield>, rest: seq<Yield>)
    requires p.BatchOf? && i < |p.items| && AllTold(p.items[i], item) && ItemsTold(p, i + 1, rest)
    ensures ItemsTold(p, i, Placed(item, i) + rest)
  {
    hide LeafTold, AllTold, DistinctPaths;
    var all := Placed(item, i) + rest;
    FrontDistinct(p, i, item, rest);
    forall j | 0 <= j < |all| ensures LeafTold(p, all[j]) && all[j].path != [] && all[j].path[0] >= i {
      FrontTold(p, i, item, rest, j);
    }
    forall path | IsLeaf(p, path) && path[0] >= i ensures exists j :: 0 <= j < |all| && all[j].path == path {
      var j := FrontCovers(p, i, item, rest, path);
      assert all[j].path == path;
    }
  }

  /** Whatever the depth and the clock, a payload yields what its leaves are to give, each once and in one
      piece, and nothing else; it is bad exactly if one of them is. */
  lemma {:induction false} ParseTells(p: Payload, now: Clock) returns (ys: seq<Yield>)
    ensures AllTold(p, ys)
    ensures Parse(p, now) == Parsed(RowsIn(ys), FindingsIn(ys), AnyBad(ys))
    decreases p, 1
  {
    if p.BatchOf? {
      ys := ItemsTell(p, p.items, 0, now);
      assert p.items[0..] == p.items;
      BatchTold(p, ys);
    } else {
      var r := Parse(p, now);
      ys := [Yield([], r.rows, r.findings, r.bad)];
      EventYields(p, now);
      OneYield(ys[0]);
      LeafAlone(p, ys[0]);
    }
  }

  lemma LeafAlone(p: Payload, y: Yield)
    requires !p.BatchOf? && y.path == [] && LeafTold(p, y)
    ensures AllTold(p, [y])
  {
    forall path | IsLeaf(p, path) ensures exists j :: 0 <= j < |[y]| && [y][j].path == path {
      assert [y][0].path == path;
    }
  }

  lemma BatchTold(p: Payload, ys: seq<Yield>)
    requires p.BatchOf? && ItemsTold(p, 0, ys)
    ensures AllTold(p, ys)
  {
  }

  lemma {:induction false} ItemsTell(p: Payload, items: seq<Payload>, i: nat, now: Clock) returns (ys: seq<Yield>)
    requires p.BatchOf? && items == p.items && i <= |items|
    ensures ItemsTold(p, i, ys)
    ensures ParseItems(items[i..], now) == Parsed(RowsIn(ys), FindingsIn(ys), AnyBad(ys))
    decreases items, 0, |items| - i
  {
    if i == |items| {
      ys := [];
    } else {
      var item := ParseTells(items[i], First(now));
      var rest := ItemsTell(p, items, i + 1, Later(now));
      ys := Placed(item, i) + rest;
      ItemInFront(p, i, item, rest);
      YieldsJoin(Placed(item, i), rest);
      PlacedSame(item, i);
      assert items[i..][0] == items[i] && items[i..][1..] == items[i + 1..];
    }
  }
}
