/** What the log table holds, told from the lines of the messages. */
module LogLines {
  import opened Lists
  import opened Strings
  import opened Delivery
  import opened Payload
  import opened Logs

  /** The row of a line, but for a time stamp that does not parse. */
  predicate LineTold(writer: string, line: LogLine, r: LogRow) {
    && (Trim(writer) != "" ==> r.writer == Trim(writer)) && (Trim(writer) == "" ==> r.writer == "unknown")
    && (line.service != "" ==> r.service == line.service) && (line.service == "" ==> r.service == "nginx")
    && r.severity == line.severity
    && (|line.text| <= 8192 ==> r.text == line.text) && (|line.text| > 8192 ==> r.text == line.text[..8192])
    && (line.ts.Just? ==> r.ts == line.ts.value)
  }

  /** Where the rows of a message come from: the places of its lines with a text, all of them, in order. */
  ghost predicate PlacesTold(lines: seq<LogLine>, at: seq<nat>) {
    && AtTexts(lines, at)
    && Rising(at)
    && (forall i :: 0 <= i < |lines| && lines[i].text != "" ==> i in at)
  }

  predicate AtTexts(lines: seq<LogLine>, at: seq<nat>) {
    forall k :: 0 <= k < |at| ==> at[k] < |lines| && lines[at[k]].text != ""
  }

  predicate Rising(at: seq<nat>) {
    forall j, k :: 0 <= j < k < |at| ==> at[j] < at[k]
  }

  /** FromLog: its loop over the lines. */
  method ReadLog(p: LogPayload, clock: Clock) returns (rows: seq<LogRow>)
    ensures rows == FromLog(p, clock)
  {
    if p.NoLog? {
      return [];
    }
    var writer := Trim(p.writer);
    if writer == "" {
      writer := "unknown";
    }
    rows := [];
    var now := clock;
    NoRowsLeft(writer, p.lines, clock);
    for i := 0 to |p.lines|
      invariant rows + RowsFrom(writer, p.lines[i..], now) == RowsFrom(writer, p.lines, clock)
    {
      hide RowOf, RowsFrom;
      var line := p.lines[i];
      RowsStep(writer, p.lines, i, now, rows);
      if line.text != "" {
        rows := rows + [RowOf(writer, line, First(now).at)];
      }
      now := Later(now);
    }
    NoRowsLeft(writer, p.lines, now);
  }

  lemma RowsStep(writer: string, lines: seq<LogLine>, i: nat, now: Clock, before: seq<LogRow>)
    requires i < |lines|
    ensures before + RowsFrom(writer, lines[i..], now) ==
            (if lines[i].text == "" then before else before + [RowOf(writer, lines[i], First(now).at)]) +
            RowsFrom(writer, lines[i + 1..], Later(now))
  {
    hide RowOf;
    assert lines[i..][0] == lines[i] && lines[i..][1..] == lines[i + 1..];
  }

  lemma NoRowsLeft(writer: string, lines: seq<LogLine>, now: Clock)
    ensures lines[0..] == lines && RowsFrom(writer, lines[|lines|..], now) == []
    ensures forall rows: seq<LogRow> :: rows + [] == rows && [] + rows == rows
  {
  }

  lemma RowTold(raw: string, line: LogLine, now: int)
    ensures LineTold(raw, line, RowOf(if Trim(raw) == "" then "unknown" else Trim(raw), line, now))
  {
    hide Trim;
  }

  function Behind(at: seq<nat>): (r: seq<nat>)
    ensures |r| == |at| && forall k :: 0 <= k < |at| ==> r[k] == at[k] + 1
  {
    seq(|at|, k requires 0 <= k < |at| => at[k] + 1)
  }

  lemma InBehind(at: seq<nat>, i: nat)
    ensures i + 1 in Behind(at) <==> i in at
  {
    if i in at {
      var k :| 0 <= k < |at| && at[k] == i;
      assert Behind(at)[k] == i + 1;
    }
  }

  lemma TextsBehind(lines: seq<LogLine>, at: seq<nat>)
    requires lines != [] && AtTexts(lines[1..], at)
    ensures AtTexts(lines, Behind(at))
    ensures lines[0].text != "" ==> AtTexts(lines, [0] + Behind(at))
  {
    var back := Behind(at);
    forall k | 0 <= k < |back| ensures back[k] < |lines| && lines[back[k]].text != "" {
      assert lines[back[k]] == lines[1..][at[k]];
    }
  }

  lemma RisingBehind(at: seq<nat>)
    requires Rising(at)
    ensures Rising(Behind(at)) && Rising([0] + Behind(at))
  {
  }

  lemma PlacesBehind(lines: seq<LogLine>, at: seq<nat>)
    requires lines != [] && PlacesTold(lines[1..], at)
    ensures PlacesTold(lines, if lines[0].text == "" then Behind(at) else [0] + Behind(at))
  {
    hide Behind, AtTexts, Rising;
    TextsBehind(lines, at);
    RisingBehind(at);
    forall i | 0 < i < |lines| && lines[i].text != "" ensures i in Behind(at) {
      assert lines[1..][i - 1] == lines[i];
      InBehind(at, i - 1);
    }
  }

  lemma {:induction false} RowsTold(raw: string, lines: seq<LogLine>, now: Clock) returns (at: seq<nat>)
    ensures PlacesTold(lines, at)
    ensures var rows := RowsFrom(if Trim(raw) == "" then "unknown" else Trim(raw), lines, now);
            |rows| == |at| && forall k :: 0 <= k < |rows| ==> LineTold(raw, lines[at[k]], rows[k])
  {
    hide RowOf, Trim, LineTold, PlacesTold;
    var writer := if Trim(raw) == "" then "unknown" else Trim(raw);
    if lines == [] {
      at := [];
      NoPlaces(lines);
    } else {
      var more := RowsTold(raw, lines[1..], Later(now));
      PlacesBehind(lines, more);
      PlacesInside(lines[1..], more);
      RowTold(raw, lines[0], First(now).at);
      at := if lines[0].text == "" then Behind(more) else [0] + Behind(more);
    }
    PlacesInside(lines, at);
  }

  lemma NoPlaces(lines: seq<LogLine>)
    requires lines == []
    ensures PlacesTold(lines, [])
  {
  }

  lemma PlacesInside(lines: seq<LogLine>, at: seq<nat>)
    requires PlacesTold(lines, at)
    ensures forall k :: 0 <= k < |at| ==> at[k] < |lines|
  {
  }

  /** A message gives one row for every line with a text, in order, each with the writer, the service, the
      severity, the text up to its cap and the time stamp of the line; and no other rows. */
  lemma LogTells(p: LogPayload, now: Clock) returns (at: seq<nat>)
    ensures p.NoLog? ==> FromLog(p, now) == []
    ensures p.LogLines? ==>
              && PlacesTold(p.lines, at) && |FromLog(p, now)| == |at|
              && forall k :: 0 <= k < |at| ==>
                   at[k] < |p.lines| && LineTold(p.writer, p.lines[at[k]], FromLog(p, now)[k])
  {
    hide RowOf, Trim, LineTold, RowsFrom;
    at := [];
    if p.LogLines? {
      at := RowsTold(p.writer, p.lines, now);
    }
  }

  /** Every line of an acked message is in the table, and every row of the table is that of a line of a
      message that was delivered. */
  lemma LinesAreLogged(stream: Stream, turns: seq<Turn>)
    requires IsLogRun(stream, turns)
    ensures forall d, i :: d in LogsAfter(stream, turns).acks && d.msg < |stream| && stream[d.msg].LogLines? &&
                           0 <= i < |stream[d.msg].lines| && stream[d.msg].lines[i].text != "" ==>
              exists r :: r in LogsAfter(stream, turns).table &&
                LineTold(stream[d.msg].writer, stream[d.msg].lines[i], r)
    ensures forall r :: r in LogsAfter(stream, turns).table ==>
              exists d, i: nat :: d in Delivered(turns) && d.msg < |stream| && stream[d.msg].LogLines? &&
                i < |stream[d.msg].lines| && LineTold(stream[d.msg].writer, stream[d.msg].lines[i], r)
  {
    hide LogsAfter, IsLogRun, FromLog, LineTold;
    LogsHold(stream, turns);
    var s := LogsAfter(stream, turns);
    forall d, i | d in s.acks && d.msg < |stream| && stream[d.msg].LogLines? &&
                  0 <= i < |stream[d.msg].lines| && stream[d.msg].lines[i].text != ""
      ensures exists r :: r in s.table && LineTold(stream[d.msg].writer, stream[d.msg].lines[i], r)
    {
      var at := LogTells(stream[d.msg], d.now);
      var k :| 0 <= k < |at| && at[k] == i;
      assert FromLog(stream[d.msg], d.now)[k] in Lines(stream, d);
    }
    forall r | r in s.table
      ensures exists d, i: nat :: d in Delivered(turns) && d.msg < |stream| && stream[d.msg].LogLines? &&
                i < |stream[d.msg].lines| && LineTold(stream[d.msg].writer, stream[d.msg].lines[i], r)
    {
      var d :| d in Delivered(turns) && r in Lines(stream, d);
      var at := LogTells(stream[d.msg], d.now);
      var k :| 0 <= k < |FromLog(stream[d.msg], d.now)| && FromLog(stream[d.msg], d.now)[k] == r;
      assert LineTold(stream[d.msg].writer, stream[d.msg].lines[at[k]], r);
    }
  }

  /** Nothing is written before twenty thousand lines are at hand or the interval has passed. */
  lemma LogsFlushWhenDue(stream: Stream, s: Logger, ds: seq<Delivery>, due: bool, sent: Sent)
    ensures var taken, t := Taken(stream, s, ds), TurnOf(stream, s, Fetched(ds, due, sent));
            && (|taken.rows| < 20000 && !due ==> t == taken && t.table == s.table && t.naks == s.naks)
            && (|taken.rows| >= 20000 || due ==> t.rows == [] && t.msgs == [])
  {
    hide Filtered, LinesOf;
  }
}
