/** What the audit pipeline promises over whole runs: acks follow inserts, every delivery is
    accounted for, and the collapsed tables hold each row of the stream once. */
module Guarantees {
  import opened Payload
  import opened Delivery
  import opened Lists
  import opened Pipeline
  import opened Strings
  import opened Tables

  /** The stream read once from its beginning, every message parsed at the clock `now`. */
  function Once(n: nat, now: Clock): seq<Delivery> {
    seq(n, i requires 0 <= i < n => Delivery(i, i, now))
  }

  function StreamRows(stream: seq<Payload>): seq<Row> {
    RowsOf(stream, Once(|stream|, Steady(0)))
  }

  function StreamFindings(stream: seq<Payload>): seq<FindingRow> {
    FindingsOf(stream, Once(|stream|, Steady(0)))
  }

  function RowKeyOf(r: Row): RowKey { r.key }
  function RowRev(r: Row): nat { r.rev }
  function FindingKeyOf(f: FindingRow): FindingKey { f.key }
  function FindingRev(f: FindingRow): nat { f.rev }

  /** waf.audit and waf.audit_finding as a read with FINAL shows them. */
  function Audit(st: Store): map<RowKey, Row> {
    Collapse(st.audit, RowKeyOf, RowRev)
  }

  function AuditFinding(st: Store): map<FindingKey, FindingRow> {
    Collapse(st.findings, FindingKeyOf, FindingRev)
  }

  predicate AllStamped(stream: seq<Payload>) {
    forall i :: 0 <= i < |stream| ==> Stamped(stream[i])
  }

  predicate AllConfirmed(stream: seq<Payload>, st: Store) {
    forall i :: 0 <= i < |stream| ==> i in st.confirmed
  }

  /** A message is acked only when all that this delivery of it yields is in the raw tables,
      whichever of the two inserts failed before. */
  lemma AckedIsStored(stream: seq<Payload>, run: Run, d: Delivery)
    requires IsRun(stream, run) && d in After(stream, run).store.acks
    ensures forall r :: r in Rows(stream, d) ==> r in After(stream, run).store.audit
    ensures forall f :: f in Findings(stream, d) ==> f in After(stream, run).store.findings
  {
    Invariant(stream, run);
  }

  lemma {:induction false} TimesUnique(ds: seq<Delivery>, d: Delivery)
    requires forall i, j :: 0 <= i < j < |ds| ==> ds[i] != ds[j]
    ensures Times(ds, d) <= 1
  {
    if ds != [] {
      TimesUnique(ds[1..], d);
      TimesMember(ds[1..], d);
    }
  }

  /** Each delivery taken is in exactly one place, the accumulator holds exactly what its
      deliveries yield, and it stays below the insert size. */
  lemma Ownership(stream: seq<Payload>, run: Run, d: Delivery)
    requires IsRun(stream, run)
    ensures var s := After(stream, run);
            && (d in s.taken ==> Places(s, d) == 1)
            && (d !in s.taken ==> Places(s, d) == 0)
            && s.acc.rows == RowsOf(stream, s.acc.msgs)
            && s.acc.findings == FindingsOf(stream, s.acc.msgs)
            && |s.acc.rows| + |s.acc.findings| < 20000 && |s.channel| <= 2
  {
    Invariant(stream, run);
    var s := After(stream, run);
    TimesUnique(s.taken, d);
    TimesMember(s.taken, d);
  }

  /** When `Run` has returned nothing is left in hand, channel or accumulator: what was taken has
      been acked or naked, or was dropped without a reply and comes again. */
  lemma Drained(stream: seq<Payload>, run: Run, d: Delivery)
    requires IsRun(stream, run) && !After(stream, run).inserting
    ensures var s := After(stream, run);
            && s.hand.Nothing? && s.channel == [] && s.acc == EMPTY
            && (d in s.taken ==>
                  Times(s.store.acks, d) + Times(s.store.naks, d) + Times(s.dropped, d) == 1)
  {
    Invariant(stream, run);
    Ownership(stream, run, d);
  }

  lemma SameYield(stream: seq<Payload>, d: Delivery, e: Delivery)
    requires AllStamped(stream) && d.msg == e.msg
    ensures Rows(stream, d) == Rows(stream, e) && Findings(stream, d) == Findings(stream, e)
  {
    if d.msg < |stream| {
      StampedParsesAlike(stream[d.msg], d.now, e.now);
    }
  }

  /** Safety at every moment: the raw tables hold nothing the stream does not yield, and all that
      the confirmed messages yield. */
  lemma TablesBetween(stream: seq<Payload>, run: Run)
    requires IsRun(stream, run) && AllStamped(stream)
    ensures var st := After(stream, run).store;
            && (forall r :: r in st.audit ==> r in StreamRows(stream))
            && (forall f :: f in st.findings ==> f in StreamFindings(stream))
            && (forall m :: m in st.confirmed ==> Stored(stream, st, Delivery(m, m, Steady(0))))
  {
    Invariant(stream, run);
    var s := After(stream, run);
    var once := Once(|stream|, Steady(0));
    RowsOfMember(stream, once);
    forall d | d in s.taken
      ensures forall r :: r in Rows(stream, d) ==> r in StreamRows(stream)
      ensures forall f :: f in Findings(stream, d) ==> f in StreamFindings(stream)
    {
      assert d.msg < |stream|;
      assert once[d.msg] in once;
      SameYield(stream, d, once[d.msg]);
    }
    forall m | m in s.store.confirmed ensures Stored(stream, s.store, Delivery(m, m, Steady(0))) {
      var d :| d in s.store.acks && d.msg == m;
      SameYield(stream, d, Delivery(m, m, Steady(0)));
    }
  }

  /** Once every message is confirmed the raw tables hold exactly the rows of the stream. */
  lemma TablesComplete(stream: seq<Payload>, run: Run)
    requires IsRun(stream, run) && AllStamped(stream) && AllConfirmed(stream, After(stream, run).store)
    ensures SameRows(After(stream, run).store.audit, StreamRows(stream))
    ensures SameRows(After(stream, run).store.findings, StreamFindings(stream))
  {
    TablesBetween(stream, run);
    var st := After(stream, run).store;
    var once := Once(|stream|, Steady(0));
    RowsOfMember(stream, once);
    forall r | r in StreamRows(stream) ensures r in st.audit {
      var d :| d in once && r in Rows(stream, d);
      assert d == Delivery(d.msg, d.msg, Steady(0)) && Stored(stream, st, Delivery(d.msg, d.msg, Steady(0)));
    }
    forall f | f in StreamFindings(stream) ensures f in st.findings {
      var d :| d in once && f in Findings(stream, d);
      assert d == Delivery(d.msg, d.msg, Steady(0)) && Stored(stream, st, Delivery(d.msg, d.msg, Steady(0)));
    }
  }

  /** Effectively once: after any run that ends with every message confirmed, the collapsed tables
      are those of a stream read once, and they show every row of the stream exactly when the sort
      key determines the row. */
  lemma {:induction false} EffectivelyOnce(stream: seq<Payload>, run: Run)
    requires IsRun(stream, run) && AllStamped(stream) && AllConfirmed(stream, After(stream, run).store)
    ensures var st := After(stream, run).store;
            && ((forall r :: r in Audit(st).Values <==> r in StreamRows(stream))
                <==> Determined(StreamRows(stream), RowKeyOf))
            && ((forall f :: f in AuditFinding(st).Values <==> f in StreamFindings(stream))
                <==> Determined(StreamFindings(stream), FindingKeyOf))
            && (Determined(StreamRows(stream), RowKeyOf) ==>
                  Audit(st) == Collapse(StreamRows(stream), RowKeyOf, RowRev))
            && (Determined(StreamFindings(stream), FindingKeyOf) ==>
                  AuditFinding(st) == Collapse(StreamFindings(stream), FindingKeyOf, FindingRev))
  {
    var st := After(stream, run).store;
    TablesComplete(stream, run);
    FinalShowsAllIff(st.audit, RowKeyOf, RowRev);
    FinalShowsAllIff(st.findings, FindingKeyOf, FindingRev);
    assert Determined(st.audit, RowKeyOf) <==> Determined(StreamRows(stream), RowKeyOf);
    assert Determined(st.findings, FindingKeyOf) <==> Determined(StreamFindings(stream), FindingKeyOf);
    if Determined(st.audit, RowKeyOf) {
      CollapseIgnoresRepeats(st.audit, StreamRows(stream), RowKeyOf, RowRev);
    }
    if Determined(st.findings, FindingKeyOf) {
      CollapseIgnoresRepeats(st.findings, StreamFindings(stream), FindingKeyOf, FindingRev);
    }
  }

  // From any state every message can still get through

  predicate Idle(s: State) {
    s.fetching && s.inserting && s.hand.Nothing? && s.channel == [] && s.acc == EMPTY
  }

  predicate Running(s: State) {
    s.fetching && s.inserting
  }

  /** A run that goes on without the process stopping or dying. */
  ghost predicate Calmly(run: Run, more: Run)
    decreases more
  {
    more == run || (more.Then? && !more.last.Restart? && !more.last.StopFetch? && Calmly(run, more.before))
  }

  lemma {:induction false} CalmContinues(run: Run, more: Run)
    requires Calmly(run, more)
    ensures Continues(run, more)
    decreases more
  {
    if more != run {
      CalmContinues(run, more.before);
    }
  }

  lemma {:induction false} CalmTransitive(a: Run, b: Run, c: Run)
    requires Calmly(a, b) && Calmly(b, c)
    ensures Calmly(a, c)
    decreases c
  {
    if b != c {
      CalmTransitive(a, b, c.before);
    }
  }

  lemma {:induction false} ContinuesTransitive(a: Run, b: Run, c: Run)
    requires Continues(a, b) && Continues(b, c)
    ensures Continues(a, c)
    decreases c
  {
    if b != c {
      ContinuesTransitive(a, b, c.before);
    }
  }

  lemma Extend(stream: seq<Payload>, run: Run, l: Label) returns (more: Run)
    requires IsRun(stream, run) && Enabled(stream, After(stream, run), l)
    ensures more == Then(run, l) && IsRun(stream, more) && Continues(run, more)
    ensures !l.Restart? && !l.StopFetch? ==> Calmly(run, more)
    ensures After(stream, more) == Next(stream, After(stream, run), l)
  {
    more := Then(run, l);
    assert Continues(run, run) && Calmly(run, run);
  }

  /** The store after one undisturbed delivery. */
  function Delivered(stream: seq<Payload>, st: Store, d: Delivery, lost: set<nat>): Store {
    AckAll(st.(audit := st.audit + Rows(stream, d), findings := st.findings + Findings(stream, d)), [d], lost)
  }

  lemma DeliveredFacts(stream: seq<Payload>, st: Store, d: Delivery, lost: set<nat>)
    ensures Delivered(stream, st, d, lost) ==
            (if Yields(stream, d) then Flushed(st, Gather(stream, [d]), Written, lost) else AckAll(st, [d], lost))
    ensures st.confirmed <= Delivered(stream, st, d, lost).confirmed
    ensures d.id !in lost ==> d.msg in Delivered(stream, st, d, lost).confirmed
  {
    SingleGather(stream, d);
    assert d in [d] && (d.id !in lost ==> d.msg in Landed([d], lost));
  }

  lemma SingleGather(stream: seq<Payload>, d: Delivery)
    ensures Keep(stream, [d]) == (if Yields(stream, d) then [d] else [])
    ensures Discard(stream, [d]) == (if Yields(stream, d) then [] else [d])
    ensures Gather(stream, [d]) == Batch(Rows(stream, d), Findings(stream, d), [d])
  {
    GatherSnoc(stream, [], d);
    KeepSnoc(stream, [], d);
    assert [] + [d] == [d];
  }

  lemma FetchOne(stream: seq<Payload>, s: State, m: nat, now: Clock, lost: set<nat>)
    requires Idle(s) && m < |stream|
    ensures Enabled(stream, s, Fetch([(m, now)], lost))
    ensures var d := Delivery(|s.taken|, m, now);
            Next(stream, s, Fetch([(m, now)], lost)) ==
            (if Yields(stream, d) then s.(taken := s.taken + [d], hand := Just(Gather(stream, [d])))
             else s.(taken := s.taken + [d], store := AckAll(s.store, [d], lost)))
  {
    var d := Delivery(|s.taken|, m, now);
    assert Number(|s.taken|, [(m, now)]) == [d];
    SingleGather(stream, d);
    assert s.store.acks + [] == s.store.acks && s.store.confirmed + Landed([], lost) == s.store.confirmed;
  }

  lemma SendAndFlush(stream: seq<Payload>, s: State, b: Batch, lost: set<nat>)
    requires s.fetching && s.inserting && s.hand == Just(b) && s.channel == [] && s.acc == EMPTY && b.msgs != []
    ensures Enabled(stream, s, Send)
    ensures var s' := Next(stream, s, Send);
            var receive, tick := Insert(Received(b, Written, lost)), Insert(Ticked(Written, lost));
            && Enabled(stream, s', receive)
            && Enabled(stream, Next(stream, s', receive), tick)
            && Next(stream, Next(stream, s', receive), tick) ==
               s.(hand := Nothing, store := Flushed(s.store, b, Written, lost))
  {
    assert Join(EMPTY, b) == b;
    assert s.channel + [b] == [b] && [b][1..] == [];
  }

  lemma {:induction false} SendOne(stream: seq<Payload>, run: Run, b: Batch, lost: set<nat>) returns (more: Run)
    requires IsRun(stream, run) && b.msgs != []
    requires var s := After(stream, run);
             s.fetching && s.inserting && s.hand == Just(b) && s.channel == [] && s.acc == EMPTY
    ensures IsRun(stream, more) && Calmly(run, more)
    ensures var s := After(stream, run);
            After(stream, more) == s.(hand := Nothing, store := Flushed(s.store, b, Written, lost))
  {
    SendAndFlush(stream, After(stream, run), b, lost);
    var sent := Extend(stream, run, Send);
    var received := Extend(stream, sent, Insert(Received(b, Written, lost)));
    more := Extend(stream, received, Insert(Ticked(Written, lost)));
    CalmTransitive(run, sent, received);
    CalmTransitive(run, received, more);
  }

  /** One message fetched, sent, received and flushed with success, its ack lost or not. */
  lemma DeliverOne(stream: seq<Payload>, run: Run, m: nat, now: Clock, lost: set<nat>) returns (more: Run)
    requires IsRun(stream, run) && Idle(After(stream, run)) && m < |stream|
    ensures IsRun(stream, more) && Calmly(run, more) && Idle(After(stream, more))
    ensures var s := After(stream, run);
            After(stream, more).store == Delivered(stream, s.store, Delivery(|s.taken|, m, now), lost)
    ensures |After(stream, more).taken| == |After(stream, run).taken| + 1
    ensures After(stream, run).store.confirmed <= After(stream, more).store.confirmed
    ensures |After(stream, run).taken| !in lost ==> m in After(stream, more).store.confirmed
  {
    var s := After(stream, run);
    var d := Delivery(|s.taken|, m, now);
    FetchOne(stream, s, m, now, lost);
    DeliveredFacts(stream, s.store, d, lost);
    more := Extend(stream, run, Fetch([(m, now)], lost));
    if Yields(stream, d) {
      var flushed := SendOne(stream, more, Gather(stream, [d]), lost);
      CalmTransitive(run, more, flushed);
      more := flushed;
    }
  }

  /** A running process can empty hand, channel and accumulator without stopping. */
  lemma {:induction false} DrainCalmly(stream: seq<Payload>, run: Run) returns (more: Run)
    requires IsRun(stream, run) && Running(After(stream, run))
    ensures IsRun(stream, more) && Calmly(run, more) && Idle(After(stream, more))
    decreases |After(stream, run).channel| + if After(stream, run).hand.Just? then 2 else 0
  {
    var s := After(stream, run);
    if s.channel != [] {
      var next := Extend(stream, run, Insert(Received(s.channel[0], Written, {})));
      more := DrainCalmly(stream, next);
      CalmTransitive(run, next, more);
    } else if s.hand.Just? {
      var next := Extend(stream, run, Send);
      more := DrainCalmly(stream, next);
      CalmTransitive(run, next, more);
    } else {
      more := Extend(stream, run, Insert(Ticked(Written, {})));
    }
  }

  ghost predicate Progressed(stream: seq<Payload>, run: Run, more: Run, n: nat) {
    IsRun(stream, more) && Calmly(run, more) && Idle(After(stream, more)) &&
    forall m :: 0 <= m < n ==> m in After(stream, more).store.confirmed
  }

  lemma ProgressOne(stream: seq<Payload>, run: Run, sofar: Run, n: nat) returns (more: Run)
    requires n < |stream| && Progressed(stream, run, sofar, n)
    ensures Progressed(stream, run, more, n + 1)
  {
    more := DeliverOne(stream, sofar, n, Steady(0), {});
    CalmTransitive(run, sofar, more);
  }

  /** No running process is stuck: from every reachable state it can go on, without stopping or dying,
      until every message is confirmed. */
  lemma CompletableCalmly(stream: seq<Payload>, run: Run) returns (more: Run)
    requires IsRun(stream, run) && Running(After(stream, run))
    ensures IsRun(stream, more) && Calmly(run, more) && AllConfirmed(stream, After(stream, more).store)
  {
    more := DrainCalmly(stream, run);
    for i := 0 to |stream|
      invariant Progressed(stream, run, more, i)
    {
      more := ProgressOne(stream, run, more, i);
    }
  }

  /** And a process that has stopped can be started again. */
  lemma Completable(stream: seq<Payload>, run: Run) returns (more: Run)
    requires IsRun(stream, run)
    ensures IsRun(stream, more) && Continues(run, more) && AllConfirmed(stream, After(stream, more).store)
  {
    var up := run;
    if Running(After(stream, run)) {
      assert Continues(run, run);
    } else {
      up := Extend(stream, run, Restart([], []));
    }
    more := CompletableCalmly(stream, up);
    CalmContinues(up, more);
    ContinuesTransitive(run, up, more);
  }

  lemma WrittenStep(st: Store, acc: Batch, e: Event, d: Delivery)
    requires (e.Received? || e.Closed?) && e.outcome == Written
    requires d in acc.msgs || (e.Received? && d in e.batch.msgs)
    ensures var r := InsertStep(st, acc, e); d in r.0.acks || (e.Received? && d in r.1.msgs)
  {
    var b := if e.Received? then Join(acc, e.batch) else acc;
    assert d in b.msgs && (forall x :: x in b.msgs ==> x in st.acks + b.msgs);
  }

  lemma AnswersGrow(st: Store, acc: Batch, e: Event)
    requires e.outcome == Written
    ensures st.acks <= InsertStep(st, acc, e).0.acks && st.naks == InsertStep(st, acc, e).0.naks
  {
  }

  /** A process that has stopped fetching comes to its end: what is in the channel and at hand is written and
      acked, if the inserts succeed, and nothing is running any more. */
  lemma {:induction false} ComesToRest(stream: seq<Payload>, run: Run) returns (more: Run)
    requires IsRun(stream, run) && After(stream, run).inserting && !After(stream, run).fetching
    ensures IsRun(stream, more) && Continues(run, more)
    ensures var s, s' := After(stream, run), After(stream, more);
            && !s'.inserting && !s'.fetching && s'.taken == s.taken && s'.dropped == s.dropped
            && s.store.acks <= s'.store.acks && s'.store.naks == s.store.naks
            && forall d :: d in MsgsOf(s.channel) || d in s.acc.msgs ==> d in s'.store.acks
    decreases |After(stream, run).channel|
  {
    hide IsRun, After, InsertStep, Continues;
    var s := After(stream, run);
    var e := if s.channel != [] then Received(s.channel[0], Written, {}) else Closed(Written, {});
    AnswersGrow(s.store, s.acc, e);
    more := Extend(stream, run, Insert(e));
    var next := After(stream, more);
    if s.channel != [] {
      var rest := ComesToRest(stream, more);
      ContinuesTransitive(run, more, rest);
      more := rest;
    }
    forall d | d in MsgsOf(s.channel) || d in s.acc.msgs ensures d in After(stream, more).store.acks {
      if d in s.acc.msgs || (s.channel != [] && d in s.channel[0].msgs) {
        WrittenStep(s.store, s.acc, e, d);
      }
    }
  }

  /** And any running process can be stopped so. */
  lemma Stoppable(stream: seq<Payload>, run: Run) returns (more: Run)
    requires IsRun(stream, run) && Running(After(stream, run))
    ensures IsRun(stream, more) && Continues(run, more)
    ensures var s, s' := After(stream, run), After(stream, more);
            && !s'.inserting && !s'.fetching && s'.taken == s.taken && s'.dropped == s.dropped + InHand(s)
            && forall d :: d in MsgsOf(s.channel) || d in s.acc.msgs ==> d in s'.store.acks
  {
    hide IsRun, After, Continues;
    var stopped := Extend(stream, run, StopFetch);
    more := ComesToRest(stream, stopped);
    ContinuesTransitive(run, stopped, more);
  }

  lemma DeliverTwice(stream: seq<Payload>, run: Run, m: nat, a: Clock, b: Clock) returns (more: Run)
    requires IsRun(stream, run) && Idle(After(stream, run)) && m < |stream|
    ensures IsRun(stream, more) && Calmly(run, more) && m in After(stream, more).store.confirmed
    ensures var st, st' := After(stream, run).store, After(stream, more).store;
            && st'.audit == st.audit + Parse(stream[m], a).rows + Parse(stream[m], b).rows
            && st'.findings == st.findings + Parse(stream[m], a).findings + Parse(stream[m], b).findings
  {
    var n := |After(stream, run).taken|;
    var first := DeliverOne(stream, run, m, a, {n});
    more := DeliverOne(stream, first, m, b, {});
    CalmTransitive(run, first, more);
  }

  lemma BeginIdle(stream: seq<Payload>)
    ensures IsRun(stream, Begin) && Idle(After(stream, Begin))
    ensures After(stream, Begin).store == Store([], [], [], [], {})
  {
  }

  /** When an ack is lost the message comes twice, and what both deliveries yield is stored. */
  lemma RedeliveredIsStoredTwice(stream: seq<Payload>, m: nat, a: Clock, b: Clock) returns (run: Run)
    requires m < |stream|
    ensures IsRun(stream, run) && m in After(stream, run).store.confirmed
    ensures After(stream, run).store.audit == Parse(stream[m], a).rows + Parse(stream[m], b).rows
    ensures After(stream, run).store.findings == Parse(stream[m], a).findings + Parse(stream[m], b).findings
  {
    BeginIdle(stream);
    var begin := Begin;
    run := DeliverTwice(stream, begin, m, a, b);
  }

  /** A request without a time stamp that parses can come to stand in the collapsed table twice. */
  lemma UnstampedDoubles(stream: seq<Payload>, m: nat, a: int, b: int) returns (run: Run)
    requires m < |stream| && stream[m].Request? && a != b
    requires var ev := stream[m].request; ev.node != "" && ev.ray != "" && ev.ts.Nothing?
    ensures IsRun(stream, run) && m in After(stream, run).store.confirmed
    ensures var audit, x, y := Audit(After(stream, run).store), RequestRow(stream[m].request, a),
                               RequestRow(stream[m].request, b);
            audit == map[x.key := x, y.key := y] && |audit| == 2
  {
    var x, y := RequestRow(stream[m].request, a), RequestRow(stream[m].request, b);
    run := RedeliveredIsStoredTwice(stream, m, Steady(a), Steady(b));
    assert [x] + [y] == [x, y];
    CollapseTwo(x, y, RowKeyOf, RowRev);
  }

  // Exactly when the tables come out the same

  lemma TablesGrowOne(stream: seq<Payload>, s: State, l: Label)
    requires Enabled(stream, s, l)
    ensures s.store.audit <= Next(stream, s, l).store.audit
    ensures s.store.findings <= Next(stream, s, l).store.findings
  {
  }

  lemma {:induction false} TablesGrow(stream: seq<Payload>, run: Run, more: Run)
    requires IsRun(stream, more) && Continues(run, more)
    ensures IsRun(stream, run)
    ensures After(stream, run).store.audit <= After(stream, more).store.audit
    ensures After(stream, run).store.findings <= After(stream, more).store.findings
    decreases more
  {
    if more != run {
      TablesGrow(stream, run, more.before);
      TablesGrowOne(stream, After(stream, more.before), more.last);
    }
  }

  /** A run that ends with every message confirmed. */
  ghost predicate Complete(stream: seq<Payload>, run: Run) {
    IsRun(stream, run) && AllConfirmed(stream, After(stream, run).store)
  }

  /** A row or a finding of the raw tables bears the time stamp t. */
  predicate Holds(st: Store, t: int) {
    Bears(Parsed(st.audit, st.findings, false), t)
  }

  /** A message without a time stamp that parses can be stored under any, and the run completed. */
  lemma UnstampedEscapes(stream: seq<Payload>, m: nat, t: int) returns (run: Run)
    requires m < |stream| && !Stamped(stream[m])
    ensures Complete(stream, run) && Holds(After(stream, run).store, t)
  {
    hide Parse, Stamped, Bears, IsRun, Continues, AllConfirmed, Holds, Delivered;
    BeginIdle(stream);
    var begin := Begin;
    var one := DeliverOne(stream, begin, m, Steady(t), {});
    DeliveredTables(stream, Store([], [], [], [], {}), Delivery(|After(stream, begin).taken|, m, Steady(t)), {});
    UnstampedBears(stream[m], t);
    run := Completable(stream, one);
    TablesGrow(stream, one, run);
    BearsMore(Parse(stream[m], Steady(t)), After(stream, run).store, t);
  }

  lemma DeliveredTables(stream: seq<Payload>, st: Store, d: Delivery, lost: set<nat>)
    requires st.audit == [] && st.findings == []
    ensures Delivered(stream, st, d, lost).audit == Rows(stream, d)
    ensures Delivered(stream, st, d, lost).findings == Findings(stream, d)
  {
  }

  lemma BearsMore(p: Parsed, st: Store, t: int)
    requires Bears(p, t) && p.rows <= st.audit && p.findings <= st.findings
    ensures Holds(st, t)
  {
    assert forall r :: r in p.rows ==> r in st.audit;
    assert forall f :: f in p.findings ==> f in st.findings;
  }

  ghost predicate SameTables(a: Store, rows: seq<Row>, findings: seq<FindingRow>) {
    SameRows(a.audit, rows) && SameRows(a.findings, findings)
  }

  lemma SomeComplete(stream: seq<Payload>) returns (run: Run)
    ensures Complete(stream, run)
  {
    BeginIdle(stream);
    var begin := Begin;
    run := Completable(stream, begin);
  }

  /** The raw tables hold the rows of the stream, and no others, after every complete run exactly when
      every message is stamped. */
  lemma {:induction false} OnceIffStamped(stream: seq<Payload>)
    ensures (forall run :: Complete(stream, run) ==>
               SameTables(After(stream, run).store, StreamRows(stream), StreamFindings(stream)))
            <==> AllStamped(stream)
  {
    hide IsRun, After, StreamRows, StreamFindings, AllConfirmed, Stamped;
    if AllStamped(stream) {
      forall run | Complete(stream, run)
        ensures SameTables(After(stream, run).store, StreamRows(stream), StreamFindings(stream))
      {
        TablesComplete(stream, run);
      }
    } else {
      var m :| 0 <= m < |stream| && !Stamped(stream[m]);
      var t := Exceeding(StreamRows(stream), StreamFindings(stream));
      var run := UnstampedEscapes(stream, m, t);
      assert Complete(stream, run);
    }
  }

  /** All complete runs leave the same rows exactly when every message is stamped. */
  lemma {:induction false} OneOutcomeIffStamped(stream: seq<Payload>)
    ensures (forall a, b :: Complete(stream, a) && Complete(stream, b) ==>
               SameTables(After(stream, a).store, After(stream, b).store.audit, After(stream, b).store.findings))
            <==> AllStamped(stream)
  {
    hide IsRun, After, StreamRows, StreamFindings, AllConfirmed, Stamped;
    if AllStamped(stream) {
      forall a, b | Complete(stream, a) && Complete(stream, b)
        ensures SameTables(After(stream, a).store, After(stream, b).store.audit, After(stream, b).store.findings)
      {
        TablesComplete(stream, a);
        TablesComplete(stream, b);
      }
    } else {
      var m :| 0 <= m < |stream| && !Stamped(stream[m]);
      var b := SomeComplete(stream);
      var t := Exceeding(After(stream, b).store.audit, After(stream, b).store.findings);
      var a := UnstampedEscapes(stream, m, t);
      assert Complete(stream, a) && Complete(stream, b);
    }
  }

  /** The collapsed tables show the rows of the stream, and no others. */
  ghost predicate ShowsStream(stream: seq<Payload>, st: Store) {
    (forall r :: r in Audit(st).Values <==> r in StreamRows(stream)) &&
    (forall f :: f in AuditFinding(st).Values <==> f in StreamFindings(stream))
  }

  lemma EscapesCollapsed(stream: seq<Payload>, st: Store, t: int)
    requires Holds(st, t)
    requires forall r :: r in StreamRows(stream) ==> r.key.ts < t
    requires forall f :: f in StreamFindings(stream) ==> f.key.ts < t
    ensures !ShowsStream(stream, st)
  {
    hide StreamRows, StreamFindings, Collapse;
    CollapseHolds(st.audit, RowKeyOf, RowRev);
    CollapseHolds(st.findings, FindingKeyOf, FindingRev);
    if r :| r in st.audit && r.key.ts == t {
      assert Audit(st)[RowKeyOf(r)].key.ts == t && Audit(st)[RowKeyOf(r)] in Audit(st).Values;
    } else {
      var f :| f in st.findings && f.key.ts == t;
      assert AuditFinding(st)[FindingKeyOf(f)].key.ts == t;
      assert AuditFinding(st)[FindingKeyOf(f)] in AuditFinding(st).Values;
    }
  }

  /** Effectively once, exactly: the collapsed tables show the stream after every complete run if and
      only if every message is stamped and the sort keys determine the rows of the stream. */
  lemma {:induction false} EffectivelyOnceIff(stream: seq<Payload>)
    ensures (forall run :: Complete(stream, run) ==> ShowsStream(stream, After(stream, run).store))
            <==> AllStamped(stream) && Determined(StreamRows(stream), RowKeyOf)
                 && Determined(StreamFindings(stream), FindingKeyOf)
  {
    hide IsRun, After, StreamRows, StreamFindings, AllConfirmed, Stamped, Collapse, Audit, AuditFinding, Determined;
    if AllStamped(stream) {
      forall run | Complete(stream, run)
        ensures ShowsStream(stream, After(stream, run).store)
                <==> Determined(StreamRows(stream), RowKeyOf) && Determined(StreamFindings(stream), FindingKeyOf)
      {
        EffectivelyOnce(stream, run);
      }
      var run := SomeComplete(stream);
      assert Complete(stream, run);
    } else {
      var m :| 0 <= m < |stream| && !Stamped(stream[m]);
      var t := Exceeding(StreamRows(stream), StreamFindings(stream));
      var run := UnstampedEscapes(stream, m, t);
      EscapesCollapsed(stream, After(stream, run).store, t);
      assert Complete(stream, run);
    }
  }
}
