/** Runs of the audit pipeline of internal/consume/consume.go as a labelled transition system:
    fetch's hand, the bounded channel, the accumulator of `insert`, and everything outside. */
module Pipeline {
  import opened Payload
  import opened Delivery
  import opened Lists
  import opened Strings

  datatype State = State(store: Store, hand: Maybe<Batch>, channel: seq<Batch>, acc: Batch,
                         taken: seq<Delivery>, dropped: seq<Delivery>,
                         fetching: bool, inserting: bool)

  const START := State(Store([], [], [], [], {}), Nothing, [], EMPTY, [], [], true, true)

  datatype Label =
    | Fetch(msgs: seq<(nat, Clock)>, lost: set<nat>)  // stream positions with the clock at parse; lost acks
    | Send                                          // the batch in hand enters the channel
    | StopFetch                                     // the context ends or a fetch fails
    | Insert(event: Event)                          // one turn of the select loop of `insert`
    | Restart(rows: seq<Row>, findings: seq<FindingRow>)
      // the process dies, leaving part of an insert under way behind, and a new one starts

  function Number(first: nat, msgs: seq<(nat, Clock)>): seq<Delivery> {
    seq(|msgs|, i requires 0 <= i < |msgs| => Delivery(first + i, msgs[i].0, msgs[i].1))
  }

  function MsgsOf(bs: seq<Batch>): seq<Delivery> {
    if bs == [] then [] else bs[0].msgs + MsgsOf(bs[1..])
  }

  function InHand(s: State): seq<Delivery> {
    if s.hand.Just? then s.hand.value.msgs else []
  }

  /** What an insert under way at the moment of a crash may have been writing. */
  function Underway(s: State): Batch {
    if s.channel == [] then s.acc else Join(s.acc, s.channel[0])
  }

  /** The messages may be any of the stream, acked or not: Nak, AckWait and restarts only
      narrow down which ones come and when. */
  predicate Enabled(stream: seq<Payload>, s: State, l: Label) {
    match l
    case Fetch(msgs, _) =>
      s.fetching && s.hand.Nothing? && |msgs| <= FETCH_BATCH && forall i :: 0 <= i < |msgs| ==> msgs[i].0 < |stream|
    case Send => s.fetching && s.hand.Just? && |s.channel| < PIPELINE
    case StopFetch => s.fetching
    case Insert(e) =>
      s.inserting && PossibleEvent(s.acc, e) &&
      (e.Received? ==> s.channel != [] && e.batch == s.channel[0]) &&
      (e.Closed? ==> !s.fetching && s.channel == [])
    case Restart(rows, findings) =>
      multiset(rows) <= multiset(Underway(s).rows) && multiset(findings) <= multiset(Underway(s).findings)
  }

  function Next(stream: seq<Payload>, s: State, l: Label): State
    requires Enabled(stream, s, l)
  {
    match l
    case Fetch(msgs, lost) =>
      var ds := Number(|s.taken|, msgs);
      var b := Gather(stream, Keep(stream, ds));
      s.(taken := s.taken + ds,
         store := AckAll(s.store, Discard(stream, ds), lost),
         hand := if b.msgs == [] then Nothing else Just(b))
    case Send => s.(channel := s.channel + [s.hand.value], hand := Nothing)
    case StopFetch => s.(fetching := false, hand := Nothing, dropped := s.dropped + InHand(s))
    case Insert(e) =>
      var r := InsertStep(s.store, s.acc, e);
      s.(store := r.0, acc := r.1,
         channel := if e.Received? then s.channel[1..] else s.channel,
         inserting := !e.Closed?)
    case Restart(rows, findings) =>
      State(s.store.(audit := s.store.audit + rows, findings := s.store.findings + findings),
            Nothing, [], EMPTY, s.taken,
            s.dropped + InHand(s) + MsgsOf(s.channel) + s.acc.msgs, true, true)
  }

  /** A run: its labels from the start on. */
  datatype Run = Begin | Then(before: Run, last: Label)

  ghost predicate IsRun(stream: seq<Payload>, run: Run)
    decreases run, 0
  {
    match run
    case Begin => true
    case Then(before, l) => IsRun(stream, before) && Enabled(stream, After(stream, before), l)
  }

  /** The state a run ends in. */
  ghost function After(stream: seq<Payload>, run: Run): State
    requires IsRun(stream, run)
    decreases run, 1
  {
    match run
    case Begin => START
    case Then(before, l) => Next(stream, After(stream, before), l)
  }

  ghost predicate Continues(run: Run, more: Run)
    decreases more
  {
    more == run || (more.Then? && Continues(run, more.before))
  }

  // The invariant

  predicate Faithful(stream: seq<Payload>, b: Batch) {
    b == Gather(stream, b.msgs)
  }

  ghost predicate Stored(stream: seq<Payload>, st: Store, d: Delivery) {
    (forall r :: r in Rows(stream, d) ==> r in st.audit) &&
    (forall f :: f in Findings(stream, d) ==> f in st.findings)
  }

  /** Every delivery acked is stored, and the server counts as acked only what was acked. */
  ghost predicate AckSafe(stream: seq<Payload>, st: Store) {
    (forall d :: d in st.acks ==> Stored(stream, st, d)) &&
    (forall m :: m in st.confirmed ==> exists d :: d in st.acks && d.msg == m)
  }

  /** Nothing is in the tables that no delivery yields. */
  ghost predicate Derived(stream: seq<Payload>, st: Store, taken: seq<Delivery>) {
    (forall r :: r in st.audit ==> exists d :: d in taken && r in Rows(stream, d)) &&
    (forall f :: f in st.findings ==> exists d :: d in taken && f in Findings(stream, d))
  }

  predicate Batches(stream: seq<Payload>, s: State) {
    Faithful(stream, s.acc) &&
    (s.hand.Just? ==> Faithful(stream, s.hand.value)) &&
    (forall i :: 0 <= i < |s.channel| ==> Faithful(stream, s.channel[i]))
  }

  /** In how many places a delivery is: fetch's hand, the channel, the accumulator, acked, naked,
      or dropped without a reply. */
  function Places(s: State, d: Delivery): nat {
    Times(InHand(s), d) + Times(MsgsOf(s.channel), d) + Times(s.acc.msgs, d) +
    Times(s.store.acks, d) + Times(s.store.naks, d) + Times(s.dropped, d)
  }

  ghost predicate Owned(stream: seq<Payload>, s: State) {
    (forall d :: Places(s, d) == Times(s.taken, d)) &&
    (forall i :: 0 <= i < |s.taken| ==> s.taken[i].id == i && s.taken[i].msg < |stream|)
  }

  predicate Bounded(s: State) {
    Size(s.acc) < INSERT_ROWS && |s.channel| <= PIPELINE &&
    (!s.fetching ==> s.hand.Nothing?) &&
    (!s.inserting ==> !s.fetching && s.channel == [] && s.acc == EMPTY)
  }

  ghost predicate Inv(stream: seq<Payload>, s: State) {
    Batches(stream, s) && Owned(stream, s) && Bounded(s) &&
    AckSafe(stream, s.store) && Derived(stream, s.store, s.taken)
  }

  // Preservation, one component at a time

  lemma {:induction false} MsgsOfSnoc(bs: seq<Batch>, b: Batch)
    ensures MsgsOf(bs + [b]) == MsgsOf(bs) + b.msgs
  {
    if bs == [] {
      assert bs + [b] == [b] && MsgsOf([b]) == b.msgs + MsgsOf([]);
    } else {
      assert (bs + [b])[1..] == bs[1..] + [b];
      MsgsOfSnoc(bs[1..], b);
    }
  }

  lemma BatchesKept(stream: seq<Payload>, s: State, l: Label)
    requires Batches(stream, s) && Enabled(stream, s, l)
    ensures Batches(stream, Next(stream, s, l))
  {
    if l.Insert? && l.event.Received? {
      RowsOfJoin(stream, s.acc.msgs, s.channel[0].msgs);
    }
  }

  lemma NoTimes(d: Delivery)
    ensures Times([], d) == 0
  {
  }

  /** A flush answers every message of its batch, one way or the other. */
  lemma FlushSettles(st: Store, b: Batch, o: Outcome, lost: set<nat>, d: Delivery)
    ensures var r := Flushed(st, b, o, lost);
            Times(r.acks, d) + Times(r.naks, d) == Times(st.acks, d) + Times(st.naks, d) + Times(b.msgs, d)
  {
    hide Times;
    NoTimes(d);
    TimesJoin(st.acks, b.msgs, d);
    TimesJoin(st.naks, b.msgs, d);
  }

  lemma InsertSettles(st: Store, acc: Batch, e: Event, d: Delivery)
    ensures var r := InsertStep(st, acc, e);
            Times(r.1.msgs, d) + Times(r.0.acks, d) + Times(r.0.naks, d) ==
            Times(acc.msgs, d) + Times(st.acks, d) + Times(st.naks, d) +
            (if e.Received? then Times(e.batch.msgs, d) else 0)
  {
    hide Times, Flushed;
    var b := if e.Received? then Join(acc, e.batch) else acc;
    if e.Received? {
      TimesJoin(acc.msgs, e.batch.msgs, d);
    }
    NoTimes(d);
    FlushSettles(st, b, e.outcome, e.lost, d);
  }

  lemma PlacesKept(stream: seq<Payload>, s: State, l: Label, d: Delivery)
    requires Bounded(s) && Enabled(stream, s, l)
    ensures var s' := Next(stream, s, l);
            Places(s', d) + Times(s.taken, d) == Places(s, d) + Times(s'.taken, d)
  {
    match l
    case Fetch(msgs, _) =>
      var ds := Number(|s.taken|, msgs);
      KeepDiscard(stream, ds, d);
      TimesJoin(s.taken, ds, d);
      TimesJoin(s.store.acks, Discard(stream, ds), d);
    case Send =>
      MsgsOfSnoc(s.channel, s.hand.value);
      TimesJoin(MsgsOf(s.channel), s.hand.value.msgs, d);
    case StopFetch =>
      TimesJoin(s.dropped, InHand(s), d);
    case Insert(e) =>
      InsertSettles(s.store, s.acc, e, d);
      if e.Received? {
        TimesJoin(s.channel[0].msgs, MsgsOf(s.channel[1..]), d);
      }
    case Restart(_, _) =>
      TimesJoin(s.dropped, InHand(s), d);
      TimesJoin(s.dropped + InHand(s), MsgsOf(s.channel), d);
      TimesJoin(s.dropped + InHand(s) + MsgsOf(s.channel), s.acc.msgs, d);
  }

  lemma OwnedKept(stream: seq<Payload>, s: State, l: Label)
    requires Owned(stream, s) && Bounded(s) && Enabled(stream, s, l)
    ensures Owned(stream, Next(stream, s, l))
  {
    forall d ensures Places(Next(stream, s, l), d) == Times(Next(stream, s, l).taken, d) {
      PlacesKept(stream, s, l, d);
    }
  }

  /** A flush acks only what it has written. */
  lemma FlushAckSafe(stream: seq<Payload>, st: Store, b: Batch, o: Outcome, lost: set<nat>)
    requires Faithful(stream, b) && AckSafe(stream, st)
    ensures AckSafe(stream, Flushed(st, b, o, lost))
  {
    var st' := Flushed(st, b, o, lost);
    RowsOfMember(stream, b.msgs);
    forall d | d in st'.acks ensures Stored(stream, st', d) {
      if d in st.acks {
        assert Stored(stream, st, d);
      }
    }
    forall m | m in st'.confirmed ensures exists d :: d in st'.acks && d.msg == m {
      if m in st.confirmed {
        var d :| d in st.acks && d.msg == m;
        assert d in st'.acks;
      } else {
        var d :| d in b.msgs && d.id !in lost && d.msg == m;
        assert d in st'.acks;
      }
    }
  }

  lemma {:induction false} AckSafeKept(stream: seq<Payload>, s: State, l: Label)
    requires Batches(stream, s) && AckSafe(stream, s.store) && Enabled(stream, s, l)
    ensures AckSafe(stream, Next(stream, s, l).store)
  {
    var st := Next(stream, s, l).store;
    if l.Insert? {
      var e := l.event;
      if e.Received? {
        RowsOfJoin(stream, s.acc.msgs, e.batch.msgs);
        FlushAckSafe(stream, s.store, Join(s.acc, e.batch), e.outcome, e.lost);
      } else {
        FlushAckSafe(stream, s.store, s.acc, e.outcome, e.lost);
      }
    } else {
      if l.Fetch? {
        forall d { KeepDiscard(stream, Number(|s.taken|, l.msgs), d); }
      }
      forall d | d in st.acks ensures Stored(stream, st, d) {
        assert d in s.store.acks ==> Stored(stream, s.store, d);
      }
      forall m | m in st.confirmed ensures exists d :: d in st.acks && d.msg == m {
        if m in s.store.confirmed {
          var d :| d in s.store.acks && d.msg == m;
          assert d in st.acks;
        }
      }
    }
  }

  /** Whatever part of a batch reaches the tables is yielded by deliveries of the batch. */
  lemma PartDerived(stream: seq<Payload>, b: Batch, rows: seq<Row>, findings: seq<FindingRow>, taken: seq<Delivery>)
    requires Faithful(stream, b) && (forall d :: d in b.msgs ==> d in taken)
    requires multiset(rows) <= multiset(b.rows) && multiset(findings) <= multiset(b.findings)
    ensures forall r :: r in rows ==> exists d :: d in taken && r in Rows(stream, d)
    ensures forall f :: f in findings ==> exists d :: d in taken && f in Findings(stream, d)
  {
    RowsOfMember(stream, b.msgs);
    forall r | r in rows ensures r in b.rows {
      assert r in multiset(rows);
      assert r in multiset(b.rows);
    }
    forall f | f in findings ensures f in b.findings {
      assert f in multiset(findings);
      assert f in multiset(b.findings);
    }
  }

  lemma HeldIsTaken(stream: seq<Payload>, s: State)
    requires Owned(stream, s)
    ensures forall d :: d in Underway(s).msgs ==> d in s.taken
  {
    forall d | d in Underway(s).msgs ensures d in s.taken {
      TimesMember(s.acc.msgs, d);
      TimesMember(MsgsOf(s.channel), d);
      TimesMember(s.taken, d);
      assert Places(s, d) == Times(s.taken, d);
    }
  }

  lemma FlushDerived(stream: seq<Payload>, st: Store, b: Batch, o: Outcome, lost: set<nat>, taken: seq<Delivery>)
    requires Faithful(stream, b) && (forall d :: d in b.msgs ==> d in taken)
    requires Possible(b, o) && Derived(stream, st, taken)
    ensures Derived(stream, Flushed(st, b, o, lost), taken)
  {
    PartDerived(stream, b, if o.RowsFailed? then o.rows else b.rows,
                if o.FindingsFailed? then o.findings else b.findings, taken);
  }

  lemma InsertDerived(stream: seq<Payload>, s: State, e: Event)
    requires Batches(stream, s) && Owned(stream, s) && Derived(stream, s.store, s.taken)
    requires Enabled(stream, s, Insert(e))
    ensures Derived(stream, InsertStep(s.store, s.acc, e).0, s.taken)
  {
    HeldIsTaken(stream, s);
    if e.Received? {
      RowsOfJoin(stream, s.acc.msgs, e.batch.msgs);
      if Size(Join(s.acc, e.batch)) >= INSERT_ROWS {
        FlushDerived(stream, s.store, Join(s.acc, e.batch), e.outcome, e.lost, s.taken);
      }
    } else {
      assert forall d :: d in s.acc.msgs ==> d in Underway(s).msgs;
      FlushDerived(stream, s.store, s.acc, e.outcome, e.lost, s.taken);
    }
  }

  lemma DerivedKept(stream: seq<Payload>, s: State, l: Label)
    requires Batches(stream, s) && Owned(stream, s) && Derived(stream, s.store, s.taken) && Enabled(stream, s, l)
    ensures Derived(stream, Next(stream, s, l).store, Next(stream, s, l).taken)
  {
    if l.Insert? {
      InsertDerived(stream, s, l.event);
    } else if l.Restart? {
      HeldIsTaken(stream, s);
      if s.channel != [] {
        RowsOfJoin(stream, s.acc.msgs, s.channel[0].msgs);
      }
      PartDerived(stream, Underway(s), l.rows, l.findings, s.taken);
    }
  }

  /** The invariant holds in every state of every run. */
  lemma {:induction false} Invariant(stream: seq<Payload>, run: Run)
    requires IsRun(stream, run)
    ensures Inv(stream, After(stream, run))
  {
    match run
    case Begin =>
    case Then(before, l) =>
      var s := After(stream, before);
      Invariant(stream, before);
      BatchesKept(stream, s, l);
      OwnedKept(stream, s, l);
      AckSafeKept(stream, s, l);
      DerivedKept(stream, s, l);
  }
}
