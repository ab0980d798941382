/** The two lists of the search: findings (internal/query/finding.go) and requests
    (internal/query/query.go), with their real sort keys, orders and display keys. */
module Listing {
  import opened Payload
  import opened Strings
  import opened Tables
  import opened ReadSide
  import opened FinalPages
  import opened Alike

  // Keys compare column by column

  datatype Field = N(n: int) | S(s: string)

  predicate FieldLess(a: Field, b: Field) {
    match (a, b)
    case (N(m), N(n)) => m < n
    case (S(s), S(t)) => Less(s, t)
    case (N(_), S(_)) => true
    case (S(_), N(_)) => false
  }

  predicate FieldsLess(a: seq<Field>, b: seq<Field>) {
    b != [] && (a == [] || FieldLess(a[0], b[0]) || (a[0] == b[0] && FieldsLess(a[1..], b[1..])))
  }

  lemma FieldOrder(a: Field, b: Field, c: Field)
    ensures a == b || FieldLess(a, b) || FieldLess(b, a)
    ensures !(FieldLess(a, b) && FieldLess(b, a)) && !FieldLess(a, a)
    ensures FieldLess(a, b) && FieldLess(b, c) ==> FieldLess(a, c)
  {
    if a.S? {
      LessIrreflexive(a.s);
    }
    if a.S? && b.S? {
      LessTrichotomy(a.s, b.s);
      if c.S? && FieldLess(a, b) && FieldLess(b, c) {
        LessTransitive(a.s, b.s, c.s);
      }
    }
  }

  lemma {:induction false} FieldsOrder(a: seq<Field>, b: seq<Field>, c: seq<Field>)
    ensures a == b || FieldsLess(a, b) || FieldsLess(b, a)
    ensures !(FieldsLess(a, b) && FieldsLess(b, a))
    ensures FieldsLess(a, b) && FieldsLess(b, c) ==> FieldsLess(a, c)
    decreases |a|
  {
    if a != [] && b != [] {
      FieldOrder(a[0], b[0], if c != [] then c[0] else a[0]);
      FieldOrder(b[0], a[0], a[0]);
      FieldsOrder(a[1..], b[1..], if c != [] then c[1..] else []);
      assert a == [a[0]] + a[1..] && b == [b[0]] + b[1..];
    }
  }

  function FindingFields(k: FindingKey): seq<Field> {
    [N(k.ts), S(k.node), S(k.ray), S(k.phase), S(k.inspector), N(k.index), S(k.direction), N(k.frame)]
  }

  function RowFields(k: RowKey): seq<Field> {
    [N(k.ts), S(k.node), S(k.ray), S(k.phase), S(k.direction), N(k.frame)]
  }

  /** findingOrder: every column descending. */
  predicate FindingBefore(a: FindingKey, b: FindingKey) {
    FieldsLess(FindingFields(b), FindingFields(a))
  }

  /** listOrderDesc and listOrderAsc. */
  predicate RowBeforeDesc(a: RowKey, b: RowKey) {
    FieldsLess(RowFields(b), RowFields(a))
  }

  predicate RowBeforeAsc(a: RowKey, b: RowKey) {
    FieldsLess(RowFields(a), RowFields(b))
  }

  function RowOrder(asc: bool): (RowKey, RowKey) -> bool {
    if asc then RowBeforeAsc else RowBeforeDesc
  }

  lemma FindingKeysEqual(a: FindingKey, b: FindingKey)
    ensures FindingFields(a) == FindingFields(b) <==> a == b
  {
    var x, y := FindingFields(a), FindingFields(b);
    if x == y {
      assert x[0] == y[0] && x[1] == y[1] && x[2] == y[2] && x[3] == y[3];
      assert x[4] == y[4] && x[5] == y[5] && x[6] == y[6] && x[7] == y[7];
    }
  }

  lemma RowKeysEqual(a: RowKey, b: RowKey)
    ensures RowFields(a) == RowFields(b) <==> a == b
  {
    var x, y := RowFields(a), RowFields(b);
    if x == y {
      assert x[0] == y[0] && x[1] == y[1] && x[2] == y[2] && x[3] == y[3] && x[4] == y[4] && x[5] == y[5];
    }
  }

  lemma FindingOrderStrict()
    ensures StrictOrder(FindingBefore)
  {
    hide FieldsLess, FindingFields;
    forall a, b ensures a == b || FindingBefore(a, b) || FindingBefore(b, a) {
      FieldsOrder(FindingFields(a), FindingFields(b), []);
      FindingKeysEqual(a, b);
    }
    forall a, b ensures !(FindingBefore(a, b) && FindingBefore(b, a)) {
      FieldsOrder(FindingFields(a), FindingFields(b), []);
    }
    forall a, b, c | FindingBefore(a, b) && FindingBefore(b, c) ensures FindingBefore(a, c) {
      FieldsOrder(FindingFields(c), FindingFields(b), FindingFields(a));
    }
  }

  lemma RowOrderStrict(asc: bool)
    ensures StrictOrder(RowOrder(asc))
  {
    hide FieldsLess, RowFields;
    var lt := RowOrder(asc);
    forall a, b ensures a == b || lt(a, b) || lt(b, a) {
      FieldsOrder(RowFields(a), RowFields(b), []);
      RowKeysEqual(a, b);
    }
    forall a, b ensures !(lt(a, b) && lt(b, a)) {
      FieldsOrder(RowFields(a), RowFields(b), []);
    }
    forall a, b, c | lt(a, b) && lt(b, c) ensures lt(a, c) {
      FieldsOrder(RowFields(c), RowFields(b), RowFields(a));
      FieldsOrder(RowFields(a), RowFields(b), RowFields(c));
    }
  }

  lemma FieldsCons(x: Field, xs: seq<Field>, y: Field, ys: seq<Field>)
    ensures FieldsLess([x] + xs, [y] + ys) <==> FieldLess(x, y) || (x == y && FieldsLess(xs, ys))
    ensures !FieldsLess(xs, [])
  {
    assert ([x] + xs)[1..] == xs && ([y] + ys)[1..] == ys;
  }

  lemma LastFields(a: Field, b: Field, c: Field, d: Field)
    ensures FieldsLess([a, b], [c, d]) <==> FieldLess(a, c) || (a == c && FieldLess(b, d))
  {
    hide FieldLess;
    FieldsCons(b, [], d, []);
    FieldsCons(a, [b], c, [d]);
    assert [a, b] == [a] + [b] && [c, d] == [c] + [d] && [b] == [b] + [] && [d] == [d] + [];
  }

  /** The rows of a list by time, node, ray, phase, direction and number, each going down, or each up. */
  lemma RowOrderIs(a: RowKey, b: RowKey)
    ensures RowBeforeAsc(a, b) <==>
            || a.ts < b.ts
            || (a.ts == b.ts &&
                (|| Less(a.node, b.node)
                 || (a.node == b.node &&
                     (|| Less(a.ray, b.ray)
                      || (a.ray == b.ray &&
                          (|| Less(a.phase, b.phase)
                           || (a.phase == b.phase &&
                               (|| Less(a.direction, b.direction)
                                || (a.direction == b.direction && a.frame < b.frame)))))))))
    ensures RowBeforeDesc(a, b) <==> RowBeforeAsc(b, a)
  {
    hide Less, FieldsLess;
    var x, y := RowFields(a), RowFields(b);
    LastFields(x[4], x[5], y[4], y[5]);
    FieldsCons(x[3], x[4..], y[3], y[4..]);
    FieldsCons(x[2], x[3..], y[2], y[3..]);
    FieldsCons(x[1], x[2..], y[1], y[2..]);
    FieldsCons(x[0], x[1..], y[0], y[1..]);
    assert x == [x[0]] + x[1..] && x[1..] == [x[1]] + x[2..] && x[2..] == [x[2]] + x[3..];
    assert y == [y[0]] + y[1..] && y[1..] == [y[1]] + y[2..] && y[2..] == [y[2]] + y[3..];
    assert x[3..] == [x[3]] + x[4..] && x[4..] == [x[4], x[5]] && y[3..] == [y[3]] + y[4..] && y[4..] == [y[4], y[5]];
  }

  lemma LastColumns(a: FindingKey, b: FindingKey)
    ensures FieldsLess(FindingFields(a)[4..], FindingFields(b)[4..]) <==>
            || Less(a.inspector, b.inspector)
            || (a.inspector == b.inspector &&
                (|| a.index < b.index
                 || (a.index == b.index &&
                     (|| Less(a.direction, b.direction)
                      || (a.direction == b.direction && a.frame < b.frame)))))
  {
    hide Less, FieldsLess;
    var x, y := FindingFields(a), FindingFields(b);
    LastFields(x[6], x[7], y[6], y[7]);
    FieldsCons(x[5], x[6..], y[5], y[6..]);
    FieldsCons(x[4], x[5..], y[4], y[5..]);
    assert x[4..] == [x[4]] + x[5..] && x[5..] == [x[5]] + x[6..] && x[6..] == [x[6], x[7]];
    assert y[4..] == [y[4]] + y[5..] && y[5..] == [y[5]] + y[6..] && y[6..] == [y[6], y[7]];
  }

  lemma MiddleColumns(a: FindingKey, b: FindingKey)
    ensures FieldsLess(FindingFields(a)[2..], FindingFields(b)[2..]) <==>
            || Less(a.ray, b.ray)
            || (a.ray == b.ray &&
                (|| Less(a.phase, b.phase)
                 || (a.phase == b.phase && FieldsLess(FindingFields(a)[4..], FindingFields(b)[4..]))))
  {
    hide Less, FieldsLess;
    var x, y := FindingFields(a), FindingFields(b);
    FieldsCons(x[3], x[4..], y[3], y[4..]);
    FieldsCons(x[2], x[3..], y[2], y[3..]);
    assert x[2..] == [x[2]] + x[3..] && x[3..] == [x[3]] + x[4..];
    assert y[2..] == [y[2]] + y[3..] && y[3..] == [y[3]] + y[4..];
  }

  lemma FirstColumns(a: FindingKey, b: FindingKey)
    ensures FindingBefore(b, a) <==>
            || a.ts < b.ts
            || (a.ts == b.ts &&
                (|| Less(a.node, b.node)
                 || (a.node == b.node && FieldsLess(FindingFields(a)[2..], FindingFields(b)[2..]))))
  {
    hide Less, FieldsLess;
    var x, y := FindingFields(a), FindingFields(b);
    FieldsCons(x[1], x[2..], y[1], y[2..]);
    FieldsCons(x[0], x[1..], y[0], y[1..]);
    assert x == [x[0]] + x[1..] && x[1..] == [x[1]] + x[2..];
    assert y == [y[0]] + y[1..] && y[1..] == [y[1]] + y[2..];
  }

  /** The findings by time, node, ray, phase, inspector, index, direction and number, each going down. */
  lemma FindingOrderIs(a: FindingKey, b: FindingKey)
    ensures FindingBefore(b, a) <==>
            || a.ts < b.ts
            || (a.ts == b.ts &&
                (|| Less(a.node, b.node)
                 || (a.node == b.node &&
                     (|| Less(a.ray, b.ray)
                      || (a.ray == b.ray &&
                          (|| Less(a.phase, b.phase)
                           || (a.phase == b.phase &&
                               (|| Less(a.inspector, b.inspector)
                                || (a.inspector == b.inspector &&
                                    (|| a.index < b.index
                                     || (a.index == b.index &&
                                         (|| Less(a.direction, b.direction)
                                          || (a.direction == b.direction && a.frame < b.frame)))))))))))))
  {
    hide Less, FieldsLess, FindingFields;
    FirstColumns(a, b);
    MiddleColumns(a, b);
    LastColumns(a, b);
  }

  // What a list shows apart

  datatype ShownFinding = ShownFinding(node: string, ray: string, phase: string, inspector: string,
                                       direction: string, index: nat, frame: nat)

  /** The key scanFindings drops repeats by. */
  function Shown(f: FindingRow): ShownFinding {
    ShownFinding(f.key.node, f.key.ray, f.key.phase, f.key.inspector, f.key.direction, f.key.index, f.key.frame)
  }

  datatype ShownRow = ShownRow(node: string, ray: string, phase: string, direction: string, frame: nat)

  /** keyOf; only rows of frames carry a frame. */
  function KeyOf(r: Row): ShownRow {
    if r.key.phase == "frame" then ShownRow(r.key.node, r.key.ray, r.key.phase, r.key.direction, r.key.frame)
    else ShownRow(r.key.node, r.key.ray, r.key.phase, "", 0)
  }

  function SortKeyOfFinding(f: FindingRow): FindingKey { f.key }
  function SortKeyOfRow(r: Row): RowKey { r.key }
  function RevOfFinding(f: FindingRow): nat { f.rev }
  function RevOfRow(r: Row): nat { r.rev }

  lemma NewerFirst(k: FindingKey)
    ensures FindingBefore(k.(ts := k.ts + 1), k)
  {
  }

  lemma TwoDedup(newer: FindingRow, older: FindingRow)
    requires Shown(newer) == Shown(older)
    ensures Dedup([newer, older], Shown) == [newer]
  {
    hide Shown;
    var rows := [newer, older];
    assert rows[..1] == [newer];
    assert Shown(newer) in KeysOf([newer], Shown) by {
      assert Shown([newer][0]) == Shown(newer);
    }
    ShortDedup([newer], Shown);
  }

  /** Two findings that differ in the time stamp alone: the count says two, the list shows one. */
  lemma TimeStampHides(k: FindingKey, head: string, detail: Maybe<string>)
    ensures var older := FindingRow(k, 0, head, detail);
            var newer := FindingRow(k.(ts := k.ts + 1), 0, head, detail);
            var rows := [newer, older];
            && Determined(rows, SortKeyOfFinding)
            && RawAnswer(rows, _ => true, SortKeyOfFinding, FindingBefore, rows)
            && FinalAnswer(rows, _ => true, SortKeyOfFinding, RevOfFinding, FindingBefore, rows)
            && Dedup(rows, Shown) == [newer]
  {
    var older := FindingRow(k, 0, head, detail);
    var newer := FindingRow(k.(ts := k.ts + 1), 0, head, detail);
    var rows := [newer, older];
    hide FindingBefore, Dedup, Collapse;
    NewerFirst(k);
    TwoDedup(newer, older);
    FinalShowsAllIff(rows, SortKeyOfFinding, RevOfFinding);
  }

  // What is told apart, in plain columns

  predicate SameFinding(a: FindingRow, b: FindingRow) { a.key == b.key }
  predicate SameRow(a: Row, b: Row) { a.key == b.key }

  /** The columns two findings are told apart by: all of the sort key but the time stamp. */
  predicate AlikeFindings(a: FindingRow, b: FindingRow) {
    && a.key.node == b.key.node && a.key.ray == b.key.ray && a.key.phase == b.key.phase
    && a.key.inspector == b.key.inspector && a.key.index == b.key.index
    && a.key.direction == b.key.direction && a.key.frame == b.key.frame
  }

  /** The columns two requests are told apart by; direction and number only tell frames apart. */
  predicate AlikeRows(a: Row, b: Row) {
    && a.key.node == b.key.node && a.key.ray == b.key.ray && a.key.phase == b.key.phase
    && (a.key.phase == "frame" ==> a.key.direction == b.key.direction && a.key.frame == b.key.frame)
  }

  lemma FindingsCompared()
    ensures Compares(SameFinding, SortKeyOfFinding) && Compares(AlikeFindings, Shown)
  {
  }

  lemma RowsCompared()
    ensures Compares(SameRow, SortKeyOfRow) && Compares(AlikeRows, KeyOf)
  {
  }

  /** Two requests are listed as one exactly if they are alike. */
  lemma TwoRowsIff(a: Row, b: Row)
    ensures Dedup([a, b], KeyOf) == (if AlikeRows(a, b) then [a] else [a, b])
  {
    TwoServed(a, b, KeyOf);
    RowsCompared();
  }

  lemma TwoFindingsIff(a: FindingRow, b: FindingRow)
    ensures Dedup([a, b], Shown) == (if AlikeFindings(a, b) then [a] else [a, b])
  {
    TwoServed(a, b, Shown);
    FindingsCompared();
  }

  lemma TwoServed<R(!new), D>(a: R, b: R, shown: R -> D)
    ensures Dedup([a, b], shown) == if shown(a) == shown(b) then [a] else [a, b]
  {
    assert [a, b] == [a] + [b];
    DedupSnoc([a], b, shown);
    ShortDedup([a], shown);
    assert shown([a][0]) in KeysOf([a], shown);
  }

  /** Of every request on a page one alike is served, and no two that are alike; so requests of two rays, or
      of two nodes, are both served whatever stands beside them. */
  lemma RequestsServed(page: seq<Row>)
    ensures forall r :: r in page ==> exists s :: s in Dedup(page, KeyOf) && s in page && AlikeRows(s, r)
    ensures var served := Dedup(page, KeyOf);
            forall i, j :: 0 <= i < j < |served| ==> !AlikeRows(served[i], served[j])
    ensures forall a, b :: a in page && b in page && (a.key.ray != b.key.ray || a.key.node != b.key.node) ==>
              exists s, t :: s in Dedup(page, KeyOf) && t in Dedup(page, KeyOf) &&
                s != t && AlikeRows(s, a) && AlikeRows(t, b)
  {
    hide Dedup, KeyOf;
    RowsCompared();
    ServedBy(page, KeyOf, AlikeRows);
  }

  lemma FindingsServed(page: seq<FindingRow>)
    ensures forall f :: f in page ==> exists g :: g in Dedup(page, Shown) && g in page && AlikeFindings(g, f)
    ensures var served := Dedup(page, Shown);
            forall i, j :: 0 <= i < j < |served| ==> !AlikeFindings(served[i], served[j])
  {
    hide Dedup, Shown;
    FindingsCompared();
    ServedBy(page, Shown, AlikeFindings);
  }

  // What is served: pages of at most `limit` raw rows, each without what is shown alike

  /** A page of findings is a run of the table with FINAL exactly when no two findings on it share all
      columns shown and differ in the time stamp; otherwise it is shorter. */
  lemma FindingsPageIff(raw: seq<FindingRow>, wanted: FindingRow -> bool, rows: seq<FindingRow>,
                        final: seq<FindingRow>, offset: nat, limit: nat)
    requires limit > 0 && offset < |rows|
    requires forall a, b :: a in raw && b in raw && a.key == b.key ==> a == b
    requires RawAnswer(raw, wanted, SortKeyOfFinding, FindingBefore, rows)
    requires FinalAnswer(raw, wanted, SortKeyOfFinding, RevOfFinding, FindingBefore, final)
    ensures var page, run := PageOf(rows, offset, limit), RunOf(final, rows, offset, limit, SortKeyOfFinding);
            && 0 < |Dedup(page, Shown)| <= |run|
            && (Dedup(page, Shown) == run <==> TellsBy(page, SameFinding, AlikeFindings))
            && (|Dedup(page, Shown)| == |run| <==> TellsBy(page, SameFinding, AlikeFindings))
  {
    hide Dedup, Tells, TellsBy, RunOf, PageOf, RawAnswer, FinalAnswer;
    FindingOrderStrict();
    PageServedIff(raw, wanted, SortKeyOfFinding, Shown, RevOfFinding, FindingBefore, rows, final, offset, limit);
    FindingsCompared();
    TellsIff(PageOf(rows, offset, limit), SortKeyOfFinding, Shown, SameFinding, AlikeFindings);
  }

  /** The same for a page of requests, in either order: no two on it that are alike may differ in the
      sort key. */
  lemma RequestsPageIff(raw: seq<Row>, wanted: Row -> bool, asc: bool, rows: seq<Row>, final: seq<Row>,
                        offset: nat, limit: nat)
    requires limit > 0 && offset < |rows|
    requires forall a, b :: a in raw && b in raw && a.key == b.key ==> a == b
    requires RawAnswer(raw, wanted, SortKeyOfRow, RowOrder(asc), rows)
    requires FinalAnswer(raw, wanted, SortKeyOfRow, RevOfRow, RowOrder(asc), final)
    ensures var page, run := PageOf(rows, offset, limit), RunOf(final, rows, offset, limit, SortKeyOfRow);
            && 0 < |Dedup(page, KeyOf)| <= |run|
            && (Dedup(page, KeyOf) == run <==> TellsBy(page, SameRow, AlikeRows))
            && (|Dedup(page, KeyOf)| == |run| <==> TellsBy(page, SameRow, AlikeRows))
  {
    hide Dedup, Tells, TellsBy, RunOf, PageOf, RawAnswer, FinalAnswer, KeyOf;
    RowOrderStrict(asc);
    RowsCompared();
    RowsCoarser(raw);
    PageServedIff(raw, wanted, SortKeyOfRow, KeyOf, RevOfRow, RowOrder(asc), rows, final, offset, limit);
    TellsIff(PageOf(rows, offset, limit), SortKeyOfRow, KeyOf, SameRow, AlikeRows);
  }

  lemma RowsCoarser(raw: seq<Row>)
    ensures Coarser(raw, SortKeyOfRow, KeyOf)
  {
  }

  lemma FindingsCoarser(raw: seq<FindingRow>)
    ensures Coarser(raw, SortKeyOfFinding, Shown)
  {
  }

  /** Paging to the end of the findings: the pages are those the sort key would give exactly when every
      page tells its findings apart, and then the table with FINAL and one finding again for each page
      boundary between two copies. */
  lemma FindingsPagesIff(raw: seq<FindingRow>, wanted: FindingRow -> bool, rows: seq<FindingRow>,
                         final: seq<FindingRow>, limit: nat)
    requires limit > 0
    requires forall a, b :: a in raw && b in raw && a.key == b.key ==> a == b
    requires RawAnswer(raw, wanted, SortKeyOfFinding, FindingBefore, rows)
    requires FinalAnswer(raw, wanted, SortKeyOfFinding, RevOfFinding, FindingBefore, final)
    ensures var pages := Paged(rows, 0, limit, Shown);
            var told := PagesTellBy(rows, limit, SameFinding, AlikeFindings);
            var again := Straddles(rows, limit, SortKeyOfFinding);
            && (pages == Paged(rows, 0, limit, SortKeyOfFinding) <==> told)
            && |pages| <= |final| + again && (|pages| == |final| + again <==> told)
            && (told ==> Dedup(pages, SortKeyOfFinding) == final)
            && (told && again == 0 ==> pages == final)
  {
    hide Dedup, Paged, PagesTell, PagesTellBy, Straddles, RawAnswer, FinalAnswer, Shown;
    FindingOrderStrict();
    FindingsCompared();
    FindingsCoarser(raw);
    PagesServedIff(raw, wanted, SortKeyOfFinding, Shown, RevOfFinding, FindingBefore, rows, final, limit);
    PagesTellByIff(rows, limit, SortKeyOfFinding, Shown, SameFinding, AlikeFindings);
  }

  /** The same for the requests, in either order. */
  lemma RequestsPagesIff(raw: seq<Row>, wanted: Row -> bool, asc: bool, rows: seq<Row>, final: seq<Row>, limit: nat)
    requires limit > 0
    requires forall a, b :: a in raw && b in raw && a.key == b.key ==> a == b
    requires RawAnswer(raw, wanted, SortKeyOfRow, RowOrder(asc), rows)
    requires FinalAnswer(raw, wanted, SortKeyOfRow, RevOfRow, RowOrder(asc), final)
    ensures var pages := Paged(rows, 0, limit, KeyOf);
            var told, again := PagesTellBy(rows, limit, SameRow, AlikeRows), Straddles(rows, limit, SortKeyOfRow);
            && (pages == Paged(rows, 0, limit, SortKeyOfRow) <==> told)
            && |pages| <= |final| + again && (|pages| == |final| + again <==> told)
            && (told ==> Dedup(pages, SortKeyOfRow) == final)
            && (told && again == 0 ==> pages == final)
  {
    hide Dedup, Paged, PagesTell, PagesTellBy, Straddles, RawAnswer, FinalAnswer, KeyOf;
    RowOrderStrict(asc);
    RowsCompared();
    RowsCoarser(raw);
    PagesServedIff(raw, wanted, SortKeyOfRow, KeyOf, RevOfRow, RowOrder(asc), rows, final, limit);
    PagesTellByIff(rows, limit, SortKeyOfRow, KeyOf, SameRow, AlikeRows);
  }

  /** The pages of findings are the table with FINAL, one behind the other, exactly when on every page the
      first finding of a sort key is passed over just for the key that goes on with the next page. */
  lemma FindingsAreFinalIff(raw: seq<FindingRow>, wanted: FindingRow -> bool, rows: seq<FindingRow>,
                            final: seq<FindingRow>, limit: nat)
    requires limit > 0
    requires forall a, b :: a in raw && b in raw && a.key == b.key ==> a == b
    requires RawAnswer(raw, wanted, SortKeyOfFinding, FindingBefore, rows)
    requires FinalAnswer(raw, wanted, SortKeyOfFinding, RevOfFinding, FindingBefore, final)
    ensures Paged(rows, 0, limit, Shown) == final <==> HandedOverBy(rows, limit, SameFinding, AlikeFindings)
  {
    hide Paged, HandedOver, HandedOverBy, RawAnswer, FinalAnswer, Shown;
    FindingOrderStrict();
    FindingsCompared();
    FindingsCoarser(raw);
    PagesAreFinalIff(raw, wanted, SortKeyOfFinding, Shown, RevOfFinding, FindingBefore, rows, final, limit);
    PagesTellByIff(rows, limit, SortKeyOfFinding, Shown, SameFinding, AlikeFindings);
  }

  /** The same for the requests, in either order. */
  lemma RequestsAreFinalIff(raw: seq<Row>, wanted: Row -> bool, asc: bool, rows: seq<Row>, final: seq<Row>,
                            limit: nat)
    requires limit > 0
    requires forall a, b :: a in raw && b in raw && a.key == b.key ==> a == b
    requires RawAnswer(raw, wanted, SortKeyOfRow, RowOrder(asc), rows)
    requires FinalAnswer(raw, wanted, SortKeyOfRow, RevOfRow, RowOrder(asc), final)
    ensures Paged(rows, 0, limit, KeyOf) == final <==> HandedOverBy(rows, limit, SameRow, AlikeRows)
  {
    hide Paged, HandedOver, HandedOverBy, RawAnswer, FinalAnswer, KeyOf;
    RowOrderStrict(asc);
    RowsCompared();
    RowsCoarser(raw);
    PagesAreFinalIff(raw, wanted, SortKeyOfRow, KeyOf, RevOfRow, RowOrder(asc), rows, final, limit);
    PagesTellByIff(rows, limit, SortKeyOfRow, KeyOf, SameRow, AlikeRows);
  }

  /** The size of a page decides what is listed: two findings that differ in the time stamp alone are one
      on a page of two, and both are there on pages of one. */
  lemma PageSizeHides(k: FindingKey, head: string, detail: Maybe<string>)
    ensures var older := FindingRow(k, 0, head, detail);
            var newer := FindingRow(k.(ts := k.ts + 1), 0, head, detail);
            && Paged([newer, older], 0, 2, Shown) == [newer]
            && Paged([newer, older], 0, 1, Shown) == [newer, older]
  {
    var older := FindingRow(k, 0, head, detail);
    var newer := FindingRow(k.(ts := k.ts + 1), 0, head, detail);
    var rows := [newer, older];
    TimeStampHides(k, head, detail);
    assert PageOf(rows, 0, 2) == rows;
    assert Paged(rows, 0, 2, Shown) == Dedup(rows, Shown) + Paged(rows, 2, 2, Shown);
    assert PageOf(rows, 0, 1) == [newer] && PageOf(rows, 1, 1) == [older];
    ShortDedup([newer], Shown);
    ShortDedup([older], Shown);
    assert Paged(rows, 1, 1, Shown) == [older] + Paged(rows, 2, 1, Shown);
    assert Paged(rows, 0, 1, Shown) == [newer] + Paged(rows, 1, 1, Shown);
  }

  lemma TwoPages(newer: FindingRow, older: FindingRow)
    requires Shown(newer) == Shown(older)
    ensures Paged([newer, older, older], 0, 2, Shown) == [newer, older]
  {
    hide Dedup, Shown;
    var rows := [newer, older, older];
    assert PageOf(rows, 0, 2) == [newer, older] && PageOf(rows, 2, 2) == [older];
    TwoDedup(newer, older);
    ShortDedup([older], Shown);
    assert Paged(rows, 2, 2, Shown) == [older] + Paged(rows, 4, 2, Shown);
    assert Paged(rows, 0, 2, Shown) == [newer] + Paged(rows, 2, 2, Shown);
  }

  /** A finding passed over on one page can come back on the next: with a second copy of the older one behind
      the boundary, pages of two are the table with FINAL although the first does not tell its two apart. */
  lemma CopyComesBack(k: FindingKey, head: string, detail: Maybe<string>)
    ensures var older := FindingRow(k, 0, head, detail);
            var newer := FindingRow(k.(ts := k.ts + 1), 0, head, detail);
            var rows := [newer, older, older];
            && Paged(rows, 0, 2, Shown) == [newer, older]
            && !PagesTellBy(rows, 2, SameFinding, AlikeFindings)
            && HandedOverBy(rows, 2, SameFinding, AlikeFindings)
            && FinalAnswer(rows, _ => true, SortKeyOfFinding, RevOfFinding, FindingBefore, [newer, older])
  {
    hide FindingBefore, Dedup, Collapse, HandedBy, Paged;
    var older := FindingRow(k, 0, head, detail);
    var newer := FindingRow(k.(ts := k.ts + 1), 0, head, detail);
    var rows := [newer, older, older];
    NewerFirst(k);
    FindingOrderStrict();
    FinalShowsAllIff(rows, SortKeyOfFinding, RevOfFinding);
    TwoPages(newer, older);
    assert rows[..2] == [newer, older];
    assert newer in rows[..2] && older in rows[..2];
    FindingsAreFinalIff(rows, _ => true, rows, [newer, older], 2);
  }
}
