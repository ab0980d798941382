/** The at-least-once consumer of internal/consume/consume.go.

    `fetch` takes messages from the stream, `insert` gathers what comes through the channel and
    `flush` writes two tables and then acks or naks.  Every choice the environment makes (which
    message is delivered, when the ticker fires, how far a failing insert got, which ack is lost,
    when the process dies) is part of a label, so a run is a sequence of labels. */
module Delivery {
  import opened Lists
  import opened Payload
  import opened Strings

  const INSERT_ROWS: nat := 20000
  const PIPELINE: nat := 2
  const FETCH_BATCH: nat := 500

  /** One delivery of message number `msg`, parsed when the clock showed `now`. */
  datatype Delivery = Delivery(id: nat, msg: nat, now: Clock)

  datatype Batch = Batch(rows: seq<Row>, findings: seq<FindingRow>, msgs: seq<Delivery>)

  const EMPTY := Batch([], [], [])

  function Join(a: Batch, b: Batch): Batch {
    Batch(a.rows + b.rows, a.findings + b.findings, a.msgs + b.msgs)
  }

  function Size(b: Batch): nat {
    |b.rows| + |b.findings|
  }

  // What deliveries yield

  function Rows(stream: seq<Payload>, d: Delivery): seq<Row> {
    if d.msg < |stream| then Parse(stream[d.msg], d.now).rows else []
  }

  function Findings(stream: seq<Payload>, d: Delivery): seq<FindingRow> {
    if d.msg < |stream| then Parse(stream[d.msg], d.now).findings else []
  }

  predicate Yields(stream: seq<Payload>, d: Delivery) {
    Rows(stream, d) != [] || Findings(stream, d) != []
  }

  function RowsOf(stream: seq<Payload>, ds: seq<Delivery>): seq<Row> {
    if ds == [] then [] else Rows(stream, ds[0]) + RowsOf(stream, ds[1..])
  }

  function FindingsOf(stream: seq<Payload>, ds: seq<Delivery>): seq<FindingRow> {
    if ds == [] then [] else Findings(stream, ds[0]) + FindingsOf(stream, ds[1..])
  }

  function Yielding(stream: seq<Payload>): Delivery -> bool {
    (d: Delivery) => Yields(stream, d)
  }

  function Barren(stream: seq<Payload>): Delivery -> bool {
    (d: Delivery) => !Yields(stream, d)
  }

  function Keep(stream: seq<Payload>, ds: seq<Delivery>): seq<Delivery> {
    Filtered(ds, Yielding(stream))
  }

  function Discard(stream: seq<Payload>, ds: seq<Delivery>): seq<Delivery> {
    Filtered(ds, Barren(stream))
  }

  function Gather(stream: seq<Payload>, ds: seq<Delivery>): Batch {
    Batch(RowsOf(stream, ds), FindingsOf(stream, ds), ds)
  }

  lemma {:induction false} RowsOfJoin(stream: seq<Payload>, a: seq<Delivery>, b: seq<Delivery>)
    ensures RowsOf(stream, a + b) == RowsOf(stream, a) + RowsOf(stream, b)
    ensures FindingsOf(stream, a + b) == FindingsOf(stream, a) + FindingsOf(stream, b)
  {
    hide Rows, Findings;
    if a == [] {
      assert a + b == b;
    } else {
      assert (a + b)[1..] == a[1..] + b;
      RowsOfJoin(stream, a[1..], b);
    }
  }

  /** A gathered list holds a row exactly when one of its deliveries yields it. */
  lemma {:induction false} RowsOfMember(stream: seq<Payload>, ds: seq<Delivery>)
    ensures forall r :: r in RowsOf(stream, ds) <==> exists d :: d in ds && r in Rows(stream, d)
    ensures forall f :: f in FindingsOf(stream, ds) <==> exists d :: d in ds && f in Findings(stream, d)
  {
    if ds != [] {
      RowsOfMember(stream, ds[1..]);
      assert forall d :: d in ds <==> d == ds[0] || d in ds[1..];
    }
  }

  /** How often a delivery occurs in a list. */
  function Times(ds: seq<Delivery>, d: Delivery): nat {
    if ds == [] then 0 else (if ds[0] == d then 1 else 0) + Times(ds[1..], d)
  }

  lemma {:induction false} TimesJoin(a: seq<Delivery>, b: seq<Delivery>, d: Delivery)
    ensures Times(a + b, d) == Times(a, d) + Times(b, d)
  {
    if a == [] {
      assert a + b == b;
    } else {
      assert (a + b)[1..] == a[1..] + b;
      TimesJoin(a[1..], b, d);
    }
  }

  lemma {:induction false} TimesMember(ds: seq<Delivery>, d: Delivery)
    ensures Times(ds, d) > 0 <==> d in ds
  {
    if ds != [] {
      TimesMember(ds[1..], d);
      assert d in ds <==> d == ds[0] || d in ds[1..];
    }
  }

  lemma TimesSnoc(ds: seq<Delivery>, e: Delivery, d: Delivery)
    ensures Times(ds + [e], d) == Times(ds, d) + if e == d then 1 else 0
  {
    TimesJoin(ds, [e], d);
    assert [e][1..] == [];
  }

  /** Keep and Discard part the list: each delivery goes to one side, by whether it yields anything. */
  lemma {:induction false} KeepDiscard(stream: seq<Payload>, ds: seq<Delivery>, d: Delivery)
    ensures Times(ds, d) == Times(Keep(stream, ds), d) + Times(Discard(stream, ds), d)
    ensures d in Keep(stream, ds) <==> d in ds && Yields(stream, d)
    ensures d in Discard(stream, ds) <==> d in ds && !Yields(stream, d)
  {
    hide Yields, Filtered;
    FilteredMembers(ds, Yielding(stream));
    FilteredMembers(ds, Barren(stream));
    if ds == [] {
      FilteredNone(Yielding(stream));
      FilteredNone(Barren(stream));
    } else {
      var init, last := ds[..|ds| - 1], ds[|ds| - 1];
      assert ds == init + [last];
      KeepDiscard(stream, init, d);
      KeepSnoc(stream, init, last);
      TimesSnoc(init, last, d);
      TimesSnoc(Keep(stream, init), last, d);
      TimesSnoc(Discard(stream, init), last, d);
    }
  }

  lemma KeepSnoc(stream: seq<Payload>, ds: seq<Delivery>, d: Delivery)
    ensures Keep(stream, ds + [d]) == (if Yields(stream, d) then Keep(stream, ds) + [d] else Keep(stream, ds))
    ensures Discard(stream, ds + [d]) == (if Yields(stream, d) then Discard(stream, ds) else Discard(stream, ds) + [d])
  {
    hide Yields, Filtered;
    FilteredSnoc(ds, d, Yielding(stream));
    FilteredSnoc(ds, d, Barren(stream));
  }

  lemma GatherSnoc(stream: seq<Payload>, ds: seq<Delivery>, d: Delivery)
    ensures Gather(stream, ds + [d]) ==
            Batch(RowsOf(stream, ds) + Rows(stream, d), FindingsOf(stream, ds) + Findings(stream, d), ds + [d])
  {
    RowsOfJoin(stream, ds, [d]);
    assert [d][1..] == [];
    assert RowsOf(stream, [d]) == Rows(stream, d) && FindingsOf(stream, [d]) == Findings(stream, d);
  }

  /** `take`: acks at once what yields nothing and gathers the rest. */
  method Take(stream: seq<Payload>, ds: seq<Delivery>) returns (b: Batch, acked: seq<Delivery>)
    ensures b == Gather(stream, Keep(stream, ds))
    ensures acked == Discard(stream, ds)
  {
    b, acked := EMPTY, [];
    for i := 0 to |ds|
      invariant b == Gather(stream, Keep(stream, ds[..i]))
      invariant acked == Discard(stream, ds[..i])
    {
      var m := ds[i];
      assert ds[..i + 1] == ds[..i] + [m];
      KeepSnoc(stream, ds[..i], m);
      var rows, findings := Rows(stream, m), Findings(stream, m);
      if |rows| == 0 && |findings| == 0 {
        acked := acked + [m];
        continue;
      }
      GatherSnoc(stream, b.msgs, m);
      b := Batch(b.rows + rows, b.findings + findings, b.msgs + [m]);
    }
    assert ds[..|ds|] == ds;
  }

  // Tables, acks and naks

  /** What lies outside the process: the raw tables, the replies sent for deliveries, and the
      messages the server has seen acked. */
  datatype Store = Store(audit: seq<Row>, findings: seq<FindingRow>,
                         acks: seq<Delivery>, naks: seq<Delivery>, confirmed: set<nat>)

  /** How a write ends; a failing insert leaves any sub-multiset of its rows behind. */
  datatype Outcome =
    | Written
    | RowsFailed(rows: seq<Row>)
    | FindingsFailed(findings: seq<FindingRow>)

  predicate Possible(b: Batch, o: Outcome) {
    match o
    case Written => true
    case RowsFailed(part) => b.rows != [] && multiset(part) <= multiset(b.rows)
    case FindingsFailed(part) => b.findings != [] && multiset(part) <= multiset(b.findings)
  }

  function Landed(ds: seq<Delivery>, lost: set<nat>): set<nat> {
    set d | d in ds && d.id !in lost :: d.msg
  }

  function AckAll(st: Store, ds: seq<Delivery>, lost: set<nat>): Store {
    st.(acks := st.acks + ds, confirmed := st.confirmed + Landed(ds, lost))
  }

  function Flushed(st: Store, b: Batch, o: Outcome, lost: set<nat>): Store {
    if b.msgs == [] then st
    else match o
      case Written =>
        AckAll(st.(audit := st.audit + b.rows, findings := st.findings + b.findings), b.msgs, lost)
      case RowsFailed(part) =>
        st.(audit := st.audit + part, naks := st.naks + b.msgs)
      case FindingsFailed(part) =>
        st.(audit := st.audit + b.rows, findings := st.findings + part, naks := st.naks + b.msgs)
  }

  /** What wakes the select loop of `insert`, with how the flush ends if there is one. */
  datatype Event =
    | Received(batch: Batch, outcome: Outcome, lost: set<nat>)
    | Ticked(outcome: Outcome, lost: set<nat>)
    | Closed(outcome: Outcome, lost: set<nat>)

  predicate PossibleEvent(acc: Batch, e: Event) {
    match e
    case Received(b, o, _) => Possible(Join(acc, b), o)
    case Ticked(o, _) => Possible(acc, o)
    case Closed(o, _) => Possible(acc, o)
  }

  function InsertStep(st: Store, acc: Batch, e: Event): (Store, Batch) {
    match e
    case Received(b, o, lost) =>
      var joined := Join(acc, b);
      if Size(joined) >= INSERT_ROWS then (Flushed(st, joined, o, lost), EMPTY) else (st, joined)
    case Ticked(o, lost) => (Flushed(st, acc, o, lost), EMPTY)
    case Closed(o, lost) => (Flushed(st, acc, o, lost), EMPTY)
  }

  function InsertRun(st: Store, acc: Batch, events: seq<Event>): (Store, Batch)
    decreases |events|
  {
    if events == [] then (st, acc)
    else
      var next := InsertStep(st, acc, events[0]);
      if events[0].Closed? then next else InsertRun(next.0, next.1, events[1..])
  }

  /** Nothing is written or answered before the batch is full, unless the ticker fires or the channel closes;
      and what is then at hand is written, or answered with naks, and gone. */
  lemma FlushesWhenDue(st: Store, acc: Batch, e: Event)
    ensures var r := InsertStep(st, acc, e);
            && (e.Received? && |acc.rows| + |e.batch.rows| + |acc.findings| + |e.batch.findings| < 20000 ==>
                  r == (st, Batch(acc.rows + e.batch.rows, acc.findings + e.batch.findings, acc.msgs + e.batch.msgs)))
            && (e.Received? && |acc.rows| + |e.batch.rows| + |acc.findings| + |e.batch.findings| >= 20000 ==>
                  r.1 == Batch([], [], []))
            && (!e.Received? ==> r.1 == Batch([], [], []))
            && (!e.Received? && acc.msgs != [] && e.outcome.Written? ==>
                  r.0.audit == st.audit + acc.rows && r.0.findings == st.findings + acc.findings &&
                  r.0.acks == st.acks + acc.msgs)
            && (!e.Received? && acc.msgs != [] && !e.outcome.Written? ==>
                  r.0.acks == st.acks && r.0.naks == st.naks + acc.msgs)
  {
  }

  class Inserter {
    var audit: seq<Row>
    var findings: seq<FindingRow>
    var acks: seq<Delivery>
    var naks: seq<Delivery>
    var confirmed: set<nat>

    ghost function Outside(): Store
      reads this
    {
      Store(audit, findings, acks, naks, confirmed)
    }

    /** `write`: both inserts in turn, the second only after the first; empty lists are not sent. */
    method Write(b: Batch, o: Outcome) returns (ok: bool)
      requires Possible(b, o)
      modifies `audit, `findings
      ensures ok <==> o.Written?
      ensures audit == old(audit) + (if o.RowsFailed? then o.rows else b.rows)
      ensures findings == old(findings) + (match o
                                           case Written => b.findings
                                           case RowsFailed(_) => []
                                           case FindingsFailed(part) => part)
    {
      if |b.rows| != 0 {
        if o.RowsFailed? {
          audit := audit + o.rows;
          return false;
        }
        audit := audit + b.rows;
      }
      if |b.findings| != 0 {
        if o.FindingsFailed? {
          findings := findings + o.findings;
          return false;
        }
        findings := findings + b.findings;
      }
      ok := true;
    }

    /** `flush`: writes, then acks every message of the batch, or naks every one. */
    method Flush(b: Batch, o: Outcome, lost: set<nat>)
      requires Possible(b, o)
      modifies this
      ensures Outside() == Flushed(old(Outside()), b, o, lost)
    {
      if |b.msgs| == 0 {
        return;
      }
      var ok := Write(b, o);
      if !ok {
        for i := 0 to |b.msgs|
          invariant naks == old(naks) + b.msgs[..i]
          invariant acks == old(acks) && confirmed == old(confirmed)
          invariant audit == Flushed(old(Outside()), b, o, lost).audit
          invariant findings == Flushed(old(Outside()), b, o, lost).findings
        {
          naks := naks + [b.msgs[i]];
        }
        return;
      }
      for i := 0 to |b.msgs|
        invariant naks == old(naks)
        invariant acks == old(acks) + b.msgs[..i]
        invariant confirmed == old(confirmed) + Landed(b.msgs[..i], lost)
        invariant audit == old(audit) + b.rows && findings == old(findings) + b.findings
      {
        acks := acks + [b.msgs[i]];
        if b.msgs[i].id !in lost {
          confirmed := confirmed + {b.msgs[i].msg};
        }
        assert b.msgs[..i + 1] == b.msgs[..i] + [b.msgs[i]];
      }
      assert b.msgs[..|b.msgs|] == b.msgs;
    }

    /** `insert`: the select loop over whatever wakes it, until the channel is closed and empty. */
    method Insert(events: seq<Event>) returns (acc: Batch)
      requires Schedulable(EMPTY, events)
      modifies this
      ensures (Outside(), acc) == InsertRun(old(Outside()), EMPTY, events)
    {
      acc := EMPTY;
      var i := 0;
      while i < |events|
        invariant 0 <= i <= |events|
        invariant Schedulable(acc, events[i..])
        invariant InsertRun(Outside(), acc, events[i..]) == InsertRun(old(Outside()), EMPTY, events)
      {
        var e := events[i];
        assert events[i..][0] == e && events[i..][1..] == events[i + 1..];
        match e {
          case Closed(o, lost) =>
            Flush(acc, o, lost);
            acc := EMPTY;
            return;
          case Received(b, o, lost) =>
            acc := Join(acc, b);
            if |acc.rows| + |acc.findings| >= INSERT_ROWS {
              Flush(acc, o, lost);
              acc := EMPTY;
            }
          case Ticked(o, lost) =>
            Flush(acc, o, lost);
            acc := EMPTY;
        }
        i := i + 1;
      }
    }
  }

  /** Every event of the schedule can happen when its turn comes. */
  ghost predicate Schedulable(acc: Batch, events: seq<Event>)
    decreases |events|
  {
    events == [] ||
    (PossibleEvent(acc, events[0]) &&
     (events[0].Closed? ||
      Schedulable(InsertStep(Store([], [], [], [], {}), acc, events[0]).1, events[1..])))
  }
}
