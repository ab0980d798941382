/** Payloads of the audit stream and the rows they turn into: the envelope of
    internal/model/kind.go, the key columns that internal/model/row.go and
    internal/model/finding.go fill in, and `parse` of internal/consume/consume.go. */
module Payload {
  import opened Strings

  /** Sort key of waf.audit. */
  datatype RowKey = RowKey(ts: int, node: string, ray: string, phase: string, direction: string, frame: nat)

  /** Sort key of waf.audit_finding. */
  datatype FindingKey = FindingKey(ts: int, node: string, ray: string, phase: string,
                                   inspector: string, index: nat, direction: string, frame: nat)

  /** A row of waf.audit. `rest` stands for every column outside the key; no event sets `rev`. */
  datatype Row = Row(key: RowKey, rev: nat, rest: string)

  /** A row of waf.audit_finding: `head` is what the event shares among its rows, `detail` one finding. */
  datatype FindingRow = FindingRow(key: FindingKey, rev: nat, head: string, detail: Maybe<string>)

  datatype Frame = Frame(direction: string, number: nat)

  /** `ts` is Nothing when the time stamp does not parse. */
  datatype RequestEvent = RequestEvent(ts: Maybe<int>, node: string, ray: string, phase: string,
                                       frame: Maybe<Frame>, rest: string)

  datatype InspectorEvent = InspectorEvent(ts: Maybe<int>, node: string, ray: string, phase: string,
                                           inspector: string, frame: Maybe<Frame>, head: string,
                                           findings: seq<string>)

  datatype Payload =
    | Malformed                          // not JSON, or a request that does not unmarshal
    | Request(request: RequestEvent)     // kind "request" or no kind
    | Inspector(event: InspectorEvent)   // kind "inspector"
    | InspectorMistyped                  // kind "inspector" that does not unmarshal
    | BatchOf(items: seq<Payload>)       // kind "batch"
    | BatchMistyped                      // kind "batch" that does not unmarshal
    | OtherKind

  datatype Parsed = Parsed(rows: seq<Row>, findings: seq<FindingRow>, bad: bool)

  const MAX_FINDINGS: nat := 1024
  const UINT16: nat := 65536

  function Or(ts: Maybe<int>, now: int): int {
    if ts.Just? then ts.value else now
  }

  function PhaseOf(phase: string): string {
    if phase == "" then "request" else phase
  }

  function DirectionOf(frame: Maybe<Frame>): string {
    if frame.Just? then frame.value.direction else ""
  }

  function NumberOf(frame: Maybe<Frame>): nat {
    if frame.Just? then frame.value.number else 0
  }

  function RequestRow(ev: RequestEvent, now: int): Row {
    Row(RowKey(Or(ev.ts, now), ev.node, ev.ray, PhaseOf(ev.phase), DirectionOf(ev.frame), NumberOf(ev.frame)),
        0, ev.rest)
  }

  predicate Addressed(ev: InspectorEvent) {
    ev.node != "" && ev.ray != "" && ev.inspector != ""
  }

  function FindingKeyAt(ev: InspectorEvent, now: int, i: nat): FindingKey {
    FindingKey(Or(ev.ts, now), ev.node, ev.ray, PhaseOf(ev.phase), ev.inspector, i % UINT16,
               DirectionOf(ev.frame), NumberOf(ev.frame))
  }

  /** The rows of an inspector event: one clean row, or one row a finding up to the cap. */
  function InspectorRows(ev: InspectorEvent, now: int): seq<FindingRow> {
    if !Addressed(ev) then []
    else if |ev.findings| == 0 then [FindingRow(FindingKeyAt(ev, now, 0), 0, ev.head, Nothing)]
    else
      var n := if |ev.findings| > MAX_FINDINGS then MAX_FINDINGS else |ev.findings|;
      seq(n, i requires 0 <= i < n => FindingRow(FindingKeyAt(ev, now, i), 0, ev.head, Just(ev.findings[i])))
  }

  /** FromInspector: fills the head row, caps the list, then copies the head once a finding. */
  method FromInspector(ev: InspectorEvent, now: int) returns (rows: seq<FindingRow>, ok: bool)
    ensures ok <==> Addressed(ev)
    ensures rows == InspectorRows(ev, now)
  {
    rows := [];
    if ev.node == "" || ev.ray == "" || ev.inspector == "" {
      return [], false;
    }
    var phase := if ev.phase == "" then "request" else ev.phase;
    var ts := if ev.ts.Just? then ev.ts.value else now;
    var head := FindingRow(FindingKey(ts, ev.node, ev.ray, phase, ev.inspector, 0, "", 0), 0, ev.head, Nothing);
    if ev.frame.Just? {
      head := head.(key := head.key.(direction := ev.frame.value.direction, frame := ev.frame.value.number));
    }
    if |ev.findings| == 0 {
      return [head], true;
    }
    var items := ev.findings;
    if |items| > MAX_FINDINGS {
      items := items[..MAX_FINDINGS];
    }
    for i := 0 to |items|
      invariant rows == InspectorRows(ev, now)[..i]
    {
      var row := head;
      row := row.(key := row.key.(index := i % UINT16), detail := Just(items[i]));
      rows := rows + [row];
    }
    ok := true;
  }

  /** The cap keeps the 16-bit index from wrapping, so no two rows of one event share a sort key. */
  lemma InspectorKeysDistinct(ev: InspectorEvent, now: int, i: nat, j: nat)
    requires i < j < |InspectorRows(ev, now)|
    ensures InspectorRows(ev, now)[i].key != InspectorRows(ev, now)[j].key
  {
    assert i % UINT16 == i && j % UINT16 == j;
  }

  /** The readings of the clock during one parse: `at` for an event, `items` for those of a batch in
      turn, and `at` again for all items behind the list. */
  datatype Clock = Clock(at: int, items: seq<Clock>)

  function Steady(t: int): Clock {
    Clock(t, [])
  }

  function First(c: Clock): Clock {
    if c.items == [] then Steady(c.at) else c.items[0]
  }

  function Later(c: Clock): Clock {
    if c.items == [] then c else Clock(c.at, c.items[1..])
  }

  /** `parse`: the rows and findings of one payload; a batch is descended item by item. */
  function Parse(p: Payload, now: Clock): Parsed
    decreases p, 1
  {
    match p
    case Malformed => Parsed([], [], true)
    case Request(ev) =>
      if ev.node == "" || ev.ray == "" then Parsed([], [], false)
      else Parsed([RequestRow(ev, now.at)], [], false)
    case Inspector(ev) => Parsed([], InspectorRows(ev, now.at), false)
    case InspectorMistyped => Parsed([], [], true)
    case BatchOf(items) => ParseItems(items, now)
    case BatchMistyped => Parsed([], [], false)
    case OtherKind => Parsed([], [], false)
  }

  function ParseItems(items: seq<Payload>, now: Clock): Parsed
    decreases items, 0
  {
    if items == [] then Parsed([], [], false)
    else
      var head := Parse(items[0], First(now));
      var tail := ParseItems(items[1..], Later(now));
      Parsed(head.rows + tail.rows, head.findings + tail.findings, head.bad || tail.bad)
  }

  /** Every event of the payload that yields rows carries a time stamp that parses. */
  predicate Stamped(p: Payload)
    decreases p, 1
  {
    match p
    case Request(ev) => ev.node == "" || ev.ray == "" || ev.ts.Just?
    case Inspector(ev) => !Addressed(ev) || ev.ts.Just?
    case BatchOf(items) => StampedItems(items)
    case _ => true
  }

  predicate StampedItems(items: seq<Payload>)
    decreases items, 0
  {
    items == [] || (Stamped(items[0]) && StampedItems(items[1..]))
  }

  /** How many rows and findings a payload yields does not depend on the clock, nor whether it is bad. */
  lemma {:induction false} ParseShape(p: Payload, a: Clock, b: Clock)
    ensures |Parse(p, a).rows| == |Parse(p, b).rows|
    ensures |Parse(p, a).findings| == |Parse(p, b).findings|
    ensures Parse(p, a).bad == Parse(p, b).bad
    decreases p, 1
  {
    if p.BatchOf? {
      ParseItemsShape(p.items, a, b);
    }
  }

  lemma {:induction false} ParseItemsShape(items: seq<Payload>, a: Clock, b: Clock)
    ensures |ParseItems(items, a).rows| == |ParseItems(items, b).rows|
    ensures |ParseItems(items, a).findings| == |ParseItems(items, b).findings|
    ensures ParseItems(items, a).bad == ParseItems(items, b).bad
    decreases items, 0
  {
    if items != [] {
      ParseShape(items[0], First(a), First(b));
      ParseItemsShape(items[1..], Later(a), Later(b));
    }
  }

  lemma {:induction false} StampedParsesAlike(p: Payload, a: Clock, b: Clock)
    requires Stamped(p)
    ensures Parse(p, a) == Parse(p, b)
    decreases p, 1
  {
    if p.BatchOf? {
      StampedItemsAlike(p.items, a, b);
    } else if p.Inspector? {
      assert InspectorRows(p.event, a.at) == InspectorRows(p.event, b.at);
    }
  }

  lemma {:induction false} StampedItemsAlike(items: seq<Payload>, a: Clock, b: Clock)
    requires StampedItems(items)
    ensures ParseItems(items, a) == ParseItems(items, b)
    decreases items, 0
  {
    if items != [] {
      StampedParsesAlike(items[0], First(a), First(b));
      StampedItemsAlike(items[1..], Later(a), Later(b));
    }
  }

  /** Some row or finding bears the time stamp t. */
  predicate Bears(parsed: Parsed, t: int) {
    (exists r :: r in parsed.rows && r.key.ts == t) || (exists f :: f in parsed.findings && f.key.ts == t)
  }

  lemma {:induction false} UnstampedBears(p: Payload, t: int)
    requires !Stamped(p)
    ensures Bears(Parse(p, Steady(t)), t)
    decreases p, 1
  {
    match p
    case BatchOf(items) => UnstampedItemsBear(items, t);
    case Request(ev) => assert RequestRow(ev, t) in Parse(p, Steady(t)).rows;
    case Inspector(ev) => assert InspectorRows(ev, t)[0] in Parse(p, Steady(t)).findings;
  }

  lemma {:induction false} UnstampedItemsBear(items: seq<Payload>, t: int)
    requires !StampedItems(items)
    ensures Bears(ParseItems(items, Steady(t)), t)
    decreases items, 0
  {
    var x, y := Parse(items[0], Steady(t)), ParseItems(items[1..], Steady(t));
    if !Stamped(items[0]) {
      UnstampedBears(items[0], t);
    } else {
      UnstampedItemsBear(items[1..], t);
    }
    assert forall r :: r in x.rows + y.rows <==> r in x.rows || r in y.rows;
    assert forall f :: f in x.findings + y.findings <==> f in x.findings || f in y.findings;
  }

  /** Some number is greater than the time stamps of all rows and findings. */
  lemma {:induction false} Exceeding(rows: seq<Row>, findings: seq<FindingRow>) returns (t: int)
    ensures forall r :: r in rows ==> r.key.ts < t
    ensures forall f :: f in findings ==> f.key.ts < t
  {
    t := 0;
    for i := 0 to |rows|
      invariant forall k :: 0 <= k < i ==> rows[k].key.ts < t
    {
      t := if rows[i].key.ts < t then t else rows[i].key.ts + 1;
    }
    for i := 0 to |findings|
      invariant forall r :: r in rows ==> r.key.ts < t
      invariant forall k :: 0 <= k < i ==> findings[k].key.ts < t
    {
      t := if findings[i].key.ts < t then t else findings[i].key.ts + 1;
    }
  }

  ghost predicate ClockFree(p: Payload) {
    forall a, b :: Parse(p, a) == Parse(p, b)
  }

  lemma ClocksTell(p: Payload, a: Clock, b: Clock)
    requires Parse(p, a) != Parse(p, b)
    ensures !ClockFree(p)
  {
    hide Parse;
  }

  /** A payload parses to the same rows whatever the clock shows at each of its events exactly when it
      is stamped. */
  lemma {:induction false} ClockFreeIffStamped(p: Payload)
    ensures ClockFree(p) <==> Stamped(p)
  {
    hide Stamped;
    if Stamped(p) {
      forall a, b ensures Parse(p, a) == Parse(p, b) {
        StampedParsesAlike(p, a, b);
      }
    } else {
      hide Parse;
      var parsed := Parse(p, Steady(0));
      var t := Exceeding(parsed.rows, parsed.findings);
      UnstampedBears(p, t);
      ClocksTell(p, Steady(t), Steady(0));
    }
  }
}
