/** The log reader of internal/consume/logs.go: one loop that fetches, gathers and flushes. Its table
    is a plain MergeTree, so that nothing removes a line written twice. */
module Logs {
  import opened Lists
  import opened Strings
  import opened Delivery
  import opened Payload

  const LOG_ROWS: nat := 20000
  const MAX_TEXT: nat := 8192

  datatype LogLine = LogLine(ts: Maybe<int>, service: string, severity: string, text: string)

  /** A message of the log stream; `ts` of a line is absent if it does not parse. */
  datatype LogPayload = NoLog | LogLines(writer: string, lines: seq<LogLine>)

  datatype LogRow = LogRow(ts: int, writer: string, service: string, severity: string, text: string)

  function RowOf(writer: string, line: LogLine, now: int): LogRow {
    LogRow(match line.ts case Just(t) => t case Nothing => now, writer,
           if line.service == "" then "nginx" else line.service, line.severity, Capped(line.text, MAX_TEXT))
  }

  /** Each line without a time stamp reads the clock for itself. */
  function RowsFrom(writer: string, lines: seq<LogLine>, now: Clock): seq<LogRow> {
    if lines == [] then []
    else
      (if lines[0].text == "" then [] else [RowOf(writer, lines[0], First(now).at)]) +
      RowsFrom(writer, lines[1..], Later(now))
  }

  /** FromLog: what cannot be decoded has no rows. */
  function FromLog(p: LogPayload, now: Clock): seq<LogRow> {
    match p
    case NoLog => []
    case LogLines(writer, lines) => RowsFrom(if Trim(writer) == "" then "unknown" else Trim(writer), lines, now)
  }

  type Stream = seq<LogPayload>

  function Lines(stream: Stream, d: Delivery): seq<LogRow> {
    if d.msg < |stream| then FromLog(stream[d.msg], d.now) else []
  }

  function LinesOf(stream: Stream, ds: seq<Delivery>): seq<LogRow> {
    if ds == [] then [] else LinesOf(stream, ds[..|ds| - 1]) + Lines(stream, ds[|ds| - 1])
  }

  function HasLines(stream: Stream): Delivery -> bool {
    (d: Delivery) => Lines(stream, d) != []
  }

  function NoLines(stream: Stream): Delivery -> bool {
    (d: Delivery) => Lines(stream, d) == []
  }

  // The loop

  datatype Sent = Complete | Partial(rows: seq<LogRow>)

  /** One turn of the loop: a fetch and whether the interval has passed, or the end. */
  datatype Turn = Fetched(ds: seq<Delivery>, due: bool, sent: Sent) | Ended(sent: Sent)

  datatype Logger = Logger(table: seq<LogRow>, acks: seq<Delivery>, naks: seq<Delivery>,
                           rows: seq<LogRow>, msgs: seq<Delivery>, ended: bool)

  const START := Logger([], [], [], [], [], false)

  function Taken(stream: Stream, s: Logger, ds: seq<Delivery>): Logger {
    var kept := Filtered(ds, HasLines(stream));
    s.(acks := s.acks + Filtered(ds, NoLines(stream)), rows := s.rows + LinesOf(stream, kept), msgs := s.msgs + kept)
  }

  function FlushedLogs(s: Logger, sent: Sent): Logger {
    if s.msgs == [] then s.(rows := [])
    else
      match sent
      case Complete => s.(table := s.table + s.rows, acks := s.acks + s.msgs, rows := [], msgs := [])
      case Partial(part) => s.(table := s.table + part, naks := s.naks + s.msgs, rows := [], msgs := [])
  }

  predicate CanSend(s: Logger, sent: Sent) {
    sent.Partial? ==> s.rows != [] && multiset(sent.rows) <= multiset(s.rows)
  }

  predicate CanTurn(stream: Stream, s: Logger, t: Turn) {
    !s.ended && match t
                case Fetched(ds, due, sent) => CanSend(Taken(stream, s, ds), sent)
                case Ended(sent) => CanSend(s, sent)
  }

  function TurnOf(stream: Stream, s: Logger, t: Turn): Logger {
    match t
    case Fetched(ds, due, sent) =>
      var taken := Taken(stream, s, ds);
      if |taken.rows| >= LOG_ROWS || due then FlushedLogs(taken, sent) else taken
    case Ended(sent) => FlushedLogs(s, sent).(ended := true)
  }

  function LogsAfter(stream: Stream, turns: seq<Turn>): Logger {
    if turns == [] then START else TurnOf(stream, LogsAfter(stream, turns[..|turns| - 1]), turns[|turns| - 1])
  }

  /** The turns can happen in this order; the end comes last. */
  ghost predicate IsLogRun(stream: Stream, turns: seq<Turn>) {
    turns == [] ||
    (IsLogRun(stream, turns[..|turns| - 1]) &&
     CanTurn(stream, LogsAfter(stream, turns[..|turns| - 1]), turns[|turns| - 1]))
  }

  function Delivered(turns: seq<Turn>): seq<Delivery> {
    if turns == [] then []
    else
      Delivered(turns[..|turns| - 1]) + match turns[|turns| - 1] case Fetched(ds, _, _) => ds case Ended(_) => []
  }

  class LogReader {
    var table: seq<LogRow>
    var acks: seq<Delivery>
    var naks: seq<Delivery>

    ghost predicate Shows(s: Logger)
      reads this
    {
      table == s.table && acks == s.acks && naks == s.naks
    }

    /** takeLogs: acks at once what has no lines. */
    method TakeLogs(stream: Stream, ds: seq<Delivery>)
      returns (rows: seq<LogRow>, msgs: seq<Delivery>)
      modifies `acks
      ensures msgs == Filtered(ds, HasLines(stream)) && rows == LinesOf(stream, msgs)
      ensures acks == old(acks) + Filtered(ds, NoLines(stream))
    {
      hide Filtered, Lines;
      rows, msgs := [], [];
      FilteredNone(HasLines(stream));
      FilteredNone(NoLines(stream));
      for i := 0 to |ds|
        invariant msgs == Filtered(ds[..i], HasLines(stream)) && rows == LinesOf(stream, msgs)
        invariant acks == old(acks) + Filtered(ds[..i], NoLines(stream))
      {
        var m := ds[i];
        assert ds[..i + 1] == ds[..i] + [m];
        FilteredSnoc(ds[..i], m, HasLines(stream));
        FilteredSnoc(ds[..i], m, NoLines(stream));
        var lines := Lines(stream, m);
        if |lines| == 0 {
          acks := acks + [m];
          continue;
        }
        LinesSnoc(stream, msgs, m);
        rows, msgs := rows + lines, msgs + [m];
      }
      assert ds[..|ds|] == ds;
    }

    /** flushLogs. */
    method FlushLogs(ghost s: Logger, rows: seq<LogRow>, msgs: seq<Delivery>, sent: Sent)
      requires Shows(s) && rows == s.rows && msgs == s.msgs
      modifies this
      ensures Shows(FlushedLogs(s, sent))
    {
      if |msgs| == 0 {
        return;
      }
      if sent.Partial? {
        table := table + sent.rows;
        for i := 0 to |msgs|
          invariant naks == old(naks) + msgs[..i] && acks == old(acks) && table == old(table) + sent.rows
        {
          naks := naks + [msgs[i]];
        }
        return;
      }
      table := table + rows;
      for i := 0 to |msgs|
        invariant acks == old(acks) + msgs[..i] && naks == old(naks) && table == old(table) + rows
      {
        acks := acks + [msgs[i]];
      }
    }

    /** RunLogs, over whatever its environment does. */
    method RunLogs(stream: Stream, turns: seq<Turn>)
      requires IsLogRun(stream, turns) && Shows(START)
      modifies this
      ensures Shows(LogsAfter(stream, turns))
    {
      hide IsLogRun, LinesOf, Filtered;
      var rows: seq<LogRow>, msgs: seq<Delivery> := [], [];
      for i := 0 to |turns|
        invariant var s := LogsAfter(stream, turns[..i]); Shows(s) && rows == s.rows && msgs == s.msgs
      {
        ghost var s := LogsAfter(stream, turns[..i]);
        assert turns[..i + 1][..i] == turns[..i];
        match turns[i] {
          case Ended(sent) =>
            FlushLogs(s, rows, msgs, sent);
            rows, msgs := [], [];
          case Fetched(ds, due, sent) =>
            var more, kept := TakeLogs(stream, ds);
            rows, msgs := rows + more, msgs + kept;
            if |rows| >= LOG_ROWS || due {
              FlushLogs(Taken(stream, s, ds), rows, msgs, sent);
              rows, msgs := [], [];
            }
        }
      }
      assert turns[..|turns|] == turns;
    }
  }

  lemma LinesSnoc(stream: Stream, ds: seq<Delivery>, d: Delivery)
    ensures LinesOf(stream, ds + [d]) == LinesOf(stream, ds) + Lines(stream, d)
  {
    assert (ds + [d])[..|ds|] == ds;
  }

  // What holds after every turn

  lemma {:induction false} LinesJoin(stream: Stream, a: seq<Delivery>, b: seq<Delivery>)
    ensures LinesOf(stream, a + b) == LinesOf(stream, a) + LinesOf(stream, b)
    decreases |b|
  {
    hide Lines, LinesOf;
    if b == [] {
      assert a + b == a;
      NoLinesYet(stream);
    } else {
      var init, last := b[..|b| - 1], b[|b| - 1];
      LinesJoin(stream, a, init);
      assert a + b == (a + init) + [last] && b == init + [last];
      LinesSnoc(stream, a + init, last);
      LinesSnoc(stream, init, last);
    }
  }

  lemma {:induction false} LinesMember(stream: Stream, ds: seq<Delivery>)
    ensures forall r :: r in LinesOf(stream, ds) <==> exists d :: d in ds && r in Lines(stream, d)
  {
    hide Lines;
    if ds != [] {
      LinesMember(stream, ds[..|ds| - 1]);
      assert forall d :: d in ds <==> d in ds[..|ds| - 1] || d == ds[|ds| - 1];
    }
  }

  lemma OneMore<T>(all: seq<T>, a: seq<T>, b: seq<T>, x: T)
    requires multiset(all) == multiset(a) + multiset(b)
    ensures multiset(all + [x]) == multiset(a + [x]) + multiset(b)
    ensures multiset(all + [x]) == multiset(a) + multiset(b + [x])
  {
  }

  lemma {:induction false} FilteredParts(stream: Stream, ds: seq<Delivery>)
    ensures multiset(ds) == multiset(Filtered(ds, HasLines(stream))) + multiset(Filtered(ds, NoLines(stream)))
  {
    hide Lines, Filtered;
    if ds == [] {
      FilteredNone(HasLines(stream));
      FilteredNone(NoLines(stream));
    } else {
      var init, last := ds[..|ds| - 1], ds[|ds| - 1];
      var a, b := Filtered(init, HasLines(stream)), Filtered(init, NoLines(stream));
      assert ds == init + [last];
      FilteredParts(stream, init);
      FilteredSnoc(init, last, HasLines(stream));
      FilteredSnoc(init, last, NoLines(stream));
      OneMore(init, a, b, last);
    }
  }

  /** The rows at hand are those of the messages at hand. */
  predicate AtHand(stream: Stream, s: Logger) {
    s.rows == LinesOf(stream, s.msgs) && |s.rows| < LOG_ROWS && (s.ended ==> s.msgs == [])
  }

  ghost predicate LogAckSafe(stream: Stream, s: Logger) {
    forall d, r :: d in s.acks && r in Lines(stream, d) ==> r in s.table
  }

  ghost predicate LogDerived(stream: Stream, s: Logger, ds: seq<Delivery>) {
    forall r :: r in s.table ==> exists d :: d in ds && r in Lines(stream, d)
  }

  predicate LogOwned(s: Logger, ds: seq<Delivery>) {
    multiset(ds) == multiset(s.acks) + multiset(s.naks) + multiset(s.msgs)
  }

  ghost predicate LogInv(stream: Stream, s: Logger, ds: seq<Delivery>) {
    AtHand(stream, s) && LogAckSafe(stream, s) && LogDerived(stream, s, ds) && LogOwned(s, ds)
  }

  lemma {:induction false} TakenKeeps(stream: Stream, s: Logger, ds: seq<Delivery>, more: seq<Delivery>)
    requires LogInv(stream, s, ds)
    ensures var t := Taken(stream, s, more);
            t.rows == LinesOf(stream, t.msgs) && LogAckSafe(stream, t) && LogDerived(stream, t, ds + more) &&
            LogOwned(t, ds + more)
  {
    hide Lines, Filtered, LinesOf;
    var kept, dropped := Filtered(more, HasLines(stream)), Filtered(more, NoLines(stream));
    LinesJoin(stream, s.msgs, kept);
    FilteredMembers(more, NoLines(stream));
    FilteredParts(stream, more);
    forall r | r in s.table ensures exists d :: d in ds + more && r in Lines(stream, d) {
      var d :| d in ds && r in Lines(stream, d);
      assert d in ds + more;
    }
  }

  lemma FlushedKeeps(stream: Stream, s: Logger, sent: Sent, ds: seq<Delivery>)
    requires s.rows == LinesOf(stream, s.msgs) && LogAckSafe(stream, s) && LogDerived(stream, s, ds) && LogOwned(s, ds)
    requires CanSend(s, sent)
    ensures var t := FlushedLogs(s, sent);
            t.rows == [] && t.msgs == [] && LogAckSafe(stream, t) && LogDerived(stream, t, ds) && LogOwned(t, ds)
  {
    hide Lines, LinesOf;
    LinesMember(stream, s.msgs);
    if s.msgs != [] {
      forall d | d in s.msgs ensures d in ds {
        assert d in multiset(ds);
      }
      if sent.Partial? {
        forall r | r in sent.rows ensures r in s.rows {
          assert r in multiset(sent.rows);
        }
      }
    }
  }

  lemma {:induction false} TurnKeeps(stream: Stream, s: Logger, t: Turn, ds: seq<Delivery>)
    requires LogInv(stream, s, ds) && CanTurn(stream, s, t)
    ensures LogInv(stream, TurnOf(stream, s, t), ds + match t case Fetched(more, _, _) => more case Ended(_) => [])
  {
    hide Lines, LinesOf, Taken, FlushedLogs, LogAckSafe, LogDerived, LogOwned;
    NoLinesYet(stream);
    match t {
      case Ended(sent) =>
        assert ds + [] == ds;
        FlushedKeeps(stream, s, sent, ds);
        SameTables(stream, FlushedLogs(s, sent), ds);
      case Fetched(more, due, sent) =>
        TakenKeeps(stream, s, ds, more);
        TakenOpen(stream, s, more);
        var taken := Taken(stream, s, more);
        if |taken.rows| >= LOG_ROWS || due {
          FlushedKeeps(stream, taken, sent, ds + more);
        }
    }
  }

  lemma NoLinesYet(stream: Stream)
    ensures LinesOf(stream, []) == []
  {
  }

  lemma TakenOpen(stream: Stream, s: Logger, more: seq<Delivery>)
    ensures Taken(stream, s, more).ended == s.ended
    ensures forall sent :: FlushedLogs(Taken(stream, s, more), sent).ended == s.ended
  {
  }

  lemma SameTables(stream: Stream, s: Logger, ds: seq<Delivery>)
    requires LogAckSafe(stream, s) && LogDerived(stream, s, ds) && LogOwned(s, ds)
    ensures var t := s.(ended := true); LogAckSafe(stream, t) && LogDerived(stream, t, ds) && LogOwned(t, ds)
  {
  }

  /** In every run: a message is acked only if its lines are in the table or it has none; every line of
      the table comes from a message delivered; every delivery is acked, naked or at hand, once; less
      than a full insert is at hand, and nothing after the end. */
  lemma {:induction false} LogsHold(stream: Stream, turns: seq<Turn>)
    requires IsLogRun(stream, turns)
    ensures LogInv(stream, LogsAfter(stream, turns), Delivered(turns))
  {
    hide LogInv, CanTurn, TurnOf;
    if turns == [] {
      StartHolds(stream);
    } else {
      var init, last := turns[..|turns| - 1], turns[|turns| - 1];
      LogsHold(stream, init);
      TurnKeeps(stream, LogsAfter(stream, init), last, Delivered(init));
    }
  }

  lemma StartHolds(stream: Stream)
    ensures LogInv(stream, START, [])
  {
  }

  // What the table holds, repeats and order included

  /** The part of the rows that a turn whose insert fails leaves behind. */
  function LeftBy(stream: Stream, s: Logger, t: Turn): seq<LogRow> {
    match t
    case Fetched(ds, due, sent) =>
      var taken := Taken(stream, s, ds);
      if (|taken.rows| >= LOG_ROWS || due) && taken.msgs != [] && sent.Partial? then sent.rows else []
    case Ended(sent) => if s.msgs != [] && sent.Partial? then sent.rows else []
  }

  function LeftBehind(stream: Stream, turns: seq<Turn>): seq<LogRow> {
    if turns == [] then []
    else
      var init := turns[..|turns| - 1];
      LeftBehind(stream, init) + LeftBy(stream, LogsAfter(stream, init), turns[|turns| - 1])
  }

  /** The table is made up of the lines acked and of what failing inserts left. */
  predicate Balanced(stream: Stream, s: Logger, remains: seq<LogRow>) {
    multiset(s.table) == multiset(LinesOf(stream, s.acks)) + multiset(remains)
  }

  lemma {:induction false} BarrenLines(stream: Stream, ds: seq<Delivery>)
    ensures LinesOf(stream, Filtered(ds, NoLines(stream))) == []
    ensures LinesOf(stream, Filtered(ds, HasLines(stream))) == LinesOf(stream, ds)
  {
    hide Lines, Filtered, LinesOf;
    if ds == [] {
      FilteredNone(NoLines(stream));
      FilteredNone(HasLines(stream));
      NoLinesYet(stream);
    } else {
      var init, last := ds[..|ds| - 1], ds[|ds| - 1];
      assert ds == init + [last];
      BarrenLines(stream, init);
      LinesSnoc(stream, init, last);
      FilteredSnoc(init, last, NoLines(stream));
      FilteredSnoc(init, last, HasLines(stream));
      LinesSnoc(stream, Filtered(init, NoLines(stream)), last);
      LinesSnoc(stream, Filtered(init, HasLines(stream)), last);
    }
  }

  lemma TakenBalanced(stream: Stream, s: Logger, ds: seq<Delivery>, remains: seq<LogRow>)
    requires Balanced(stream, s, remains)
    ensures Balanced(stream, Taken(stream, s, ds), remains)
  {
    hide Lines, Filtered, LinesOf;
    BarrenLines(stream, ds);
    LinesJoin(stream, s.acks, Filtered(ds, NoLines(stream)));
    assert LinesOf(stream, s.acks) + [] == LinesOf(stream, s.acks);
  }

  lemma FlushedBalanced(stream: Stream, s: Logger, sent: Sent, remains: seq<LogRow>)
    requires Balanced(stream, s, remains) && s.rows == LinesOf(stream, s.msgs)
    ensures Balanced(stream, FlushedLogs(s, sent),
                     remains + if s.msgs != [] && sent.Partial? then sent.rows else [])
  {
    hide Lines, LinesOf;
    LinesJoin(stream, s.acks, s.msgs);
    assert remains + [] == remains;
  }

  lemma TurnBalanced(stream: Stream, s: Logger, t: Turn, remains: seq<LogRow>)
    requires Balanced(stream, s, remains) && s.rows == LinesOf(stream, s.msgs)
    ensures Balanced(stream, TurnOf(stream, s, t), remains + LeftBy(stream, s, t))
  {
    hide Lines, LinesOf, Taken, FlushedLogs;
    assert remains + [] == remains;
    match t {
      case Ended(sent) =>
        FlushedBalanced(stream, s, sent, remains);
        EndedBalanced(stream, FlushedLogs(s, sent), remains + LeftBy(stream, s, t));
      case Fetched(ds, due, sent) =>
        TakenBalanced(stream, s, ds, remains);
        TakenGathers(stream, s, ds);
        FlushedBalanced(stream, Taken(stream, s, ds), sent, remains);
    }
  }

  lemma EndedBalanced(stream: Stream, s: Logger, remains: seq<LogRow>)
    requires Balanced(stream, s, remains)
    ensures Balanced(stream, s.(ended := true), remains)
  {
  }

  lemma TakenGathers(stream: Stream, s: Logger, ds: seq<Delivery>)
    requires s.rows == LinesOf(stream, s.msgs)
    ensures var t := Taken(stream, s, ds); t.rows == LinesOf(stream, t.msgs)
  {
    hide Lines, Filtered, LinesOf;
    LinesJoin(stream, s.msgs, Filtered(ds, HasLines(stream)));
  }

  /** In every run the table is, repeats included, the lines of the acked messages and what failing
      inserts left behind. */
  lemma {:induction false} LogTableIs(stream: Stream, turns: seq<Turn>)
    requires IsLogRun(stream, turns)
    ensures Balanced(stream, LogsAfter(stream, turns), LeftBehind(stream, turns))
  {
    hide TurnOf, LeftBy, Balanced, CanTurn;
    if turns == [] {
      StartBalanced(stream);
    } else {
      var init, last := turns[..|turns| - 1], turns[|turns| - 1];
      LogTableIs(stream, init);
      LogsHold(stream, init);
      TurnBalanced(stream, LogsAfter(stream, init), last, LeftBehind(stream, init));
    }
  }

  lemma StartBalanced(stream: Stream)
    ensures Balanced(stream, START, [])
  {
  }

  /** So the acked lines are in the table once each exactly when no failing insert left a line. */
  lemma {:induction false} LoggedOnceIff(stream: Stream, turns: seq<Turn>)
    requires IsLogRun(stream, turns)
    ensures var s := LogsAfter(stream, turns);
            multiset(s.table) == multiset(LinesOf(stream, s.acks)) <==> LeftBehind(stream, turns) == []
  {
    hide LogsAfter, LeftBehind, LinesOf, IsLogRun;
    LogTableIs(stream, turns);
    var remains := LeftBehind(stream, turns);
    if remains != [] {
      assert remains[0] in multiset(remains);
      SumDiffers(multiset(LinesOf(stream, LogsAfter(stream, turns).acks)), multiset(remains), remains[0]);
    }
  }

  lemma SumDiffers<T>(a: multiset<T>, b: multiset<T>, x: T)
    requires x in b
    ensures a + b != a
  {
    assert (a + b)[x] == a[x] + b[x];
  }

  /** As long as no message is naked the table and the rows at hand are the lines delivered, in order. */
  predicate InOrderSoFar(stream: Stream, s: Logger, ds: seq<Delivery>) {
    s.naks == [] ==> s.table + s.rows == LinesOf(stream, ds)
  }

  lemma TurnInOrder(stream: Stream, s: Logger, t: Turn, ds: seq<Delivery>)
    requires InOrderSoFar(stream, s, ds) && s.rows == LinesOf(stream, s.msgs)
    ensures InOrderSoFar(stream, TurnOf(stream, s, t),
                         ds + match t case Fetched(more, _, _) => more case Ended(_) => [])
  {
    hide Lines, LinesOf;
    NoLinesYet(stream);
    match t {
      case Ended(sent) =>
        assert ds + [] == ds;
        FlushedInOrder(stream, s, sent, ds);
      case Fetched(more, due, sent) =>
        BarrenLines(stream, more);
        LinesJoin(stream, ds, more);
        TakenGathers(stream, s, more);
        var taken := Taken(stream, s, more);
        assert s.naks == [] ==> taken.table + taken.rows == (s.table + s.rows) + LinesOf(stream, more);
        FlushedInOrder(stream, taken, sent, ds + more);
    }
  }

  lemma FlushedInOrder(stream: Stream, s: Logger, sent: Sent, ds: seq<Delivery>)
    requires InOrderSoFar(stream, s, ds) && s.rows == LinesOf(stream, s.msgs)
    ensures InOrderSoFar(stream, FlushedLogs(s, sent), ds)
  {
    hide Lines;
    assert s.naks == [] ==> (s.table + s.rows) + [] == LinesOf(stream, ds);
  }

  lemma {:induction false} LogsInOrder(stream: Stream, turns: seq<Turn>)
    requires IsLogRun(stream, turns)
    ensures InOrderSoFar(stream, LogsAfter(stream, turns), Delivered(turns))
  {
    hide TurnOf, InOrderSoFar, CanTurn;
    if turns == [] {
      StartInOrder(stream);
    } else {
      var init, last := turns[..|turns| - 1], turns[|turns| - 1];
      LogsInOrder(stream, init);
      LogsHold(stream, init);
      TurnInOrder(stream, LogsAfter(stream, init), last, Delivered(init));
    }
  }

  lemma StartInOrder(stream: Stream)
    ensures InOrderSoFar(stream, START, [])
  {
  }

  /** When the reader has ended and no message was naked, the table is the lines of the messages
      delivered, in order and each as often as it was delivered. */
  lemma {:induction false} LogsComplete(stream: Stream, turns: seq<Turn>)
    requires IsLogRun(stream, turns)
    requires var s := LogsAfter(stream, turns); s.ended && s.naks == []
    ensures LogsAfter(stream, turns).table == LinesOf(stream, Delivered(turns))
  {
    hide LogsAfter, Delivered, Lines, IsLogRun;
    LogsHold(stream, turns);
    LogsInOrder(stream, turns);
    var s := LogsAfter(stream, turns);
    assert s.table + [] == s.table;
  }

  /** A line may be stored twice: an insert that fails after it was stored is naked and comes again. */
  lemma LogLineDoubles(line: LogLine, now: int)
    requires line.text != ""
    ensures var stream := [LogLines("edge", [line])];
            var first, second := Delivery(0, 0, Steady(now)), Delivery(1, 0, Steady(now));
            var turns := [Fetched([first], true, Partial(Lines(stream, first))), Fetched([second], true, Complete)];
            IsLogRun(stream, turns) && |LogsAfter(stream, turns).table| == 2 &&
            LogsAfter(stream, turns).table[0] == LogsAfter(stream, turns).table[1]
  {
    hide RowOf, Trim, TurnOf, CanTurn, Lines;
    var stream := [LogLines("edge", [line])];
    var first, second := Delivery(0, 0, Steady(now)), Delivery(1, 0, Steady(now));
    var turns := [Fetched([first], true, Partial(Lines(stream, first))), Fetched([second], true, Complete)];
    OneLine(stream, line, first);
    OneLine(stream, line, second);
    OneTurn(stream, START, first, Partial(Lines(stream, first)));
    var s := TurnOf(stream, START, turns[0]);
    OneTurn(stream, s, second, Complete);
    assert turns[..1] == [turns[0]] && [turns[0]][..0] == [];
    assert LogsAfter(stream, [turns[0]]) == s;
    assert IsLogRun(stream, [turns[0]]);
  }

  lemma OneLine(stream: Stream, line: LogLine, d: Delivery)
    requires line.text != "" && |stream| == 1 && stream[0] == LogLines("edge", [line]) && d.msg == 0
    requires d.now.items == []
    ensures Lines(stream, d) == [RowOf(if Trim("edge") == "" then "unknown" else Trim("edge"), line, d.now.at)]
  {
    hide RowOf, Trim;
    var writer := if Trim("edge") == "" then "unknown" else Trim("edge");
    assert [line][1..] == [];
    assert RowsFrom(writer, [line], d.now) == [RowOf(writer, line, d.now.at)] + RowsFrom(writer, [], d.now);
  }

  lemma OneTurn(stream: Stream, s: Logger, d: Delivery, sent: Sent)
    requires |Lines(stream, d)| == 1 && s.rows == [] && s.msgs == [] && !s.ended
    requires sent.Partial? ==> sent.rows == Lines(stream, d)
    ensures CanTurn(stream, s, Fetched([d], true, sent))
    ensures var t := TurnOf(stream, s, Fetched([d], true, sent));
            t.table == s.table + Lines(stream, d) && t.rows == [] && t.msgs == [] && !t.ended
  {
    hide Lines, Taken;
    OneTaken(stream, s, d);
  }

  lemma OneTaken(stream: Stream, s: Logger, d: Delivery)
    requires Lines(stream, d) != [] && s.rows == [] && s.msgs == []
    ensures Taken(stream, s, [d]) == s.(rows := Lines(stream, d), msgs := [d])
  {
    hide Lines, Filtered, LinesOf;
    assert [] + [d] == [d];
    FilteredNone(HasLines(stream));
    FilteredNone(NoLines(stream));
    FilteredSnoc([], d, HasLines(stream));
    FilteredSnoc([], d, NoLines(stream));
    NoLinesYet(stream);
    LinesSnoc(stream, [], d);
  }
}
