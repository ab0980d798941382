/** The row a link to one request shows (One of internal/query/query.go) and the findings its card reads
    (findingsOf of internal/query/finding.go): both read no more than a fixed number of rows. */
module OneRow {
  import opened Lists
  import opened Strings
  import opened Payload
  import opened Tables
  import opened ReadSide
  import opened Listing

  const PHASES: seq<string> := ["request", "response", "frame", "session"]

  predicate IsRequest(r: Row) {
    r.key.phase == "request"
  }

  /** Where the first row of the request phase stands; the end if there is none. */
  function FirstRequest(rows: seq<Row>): (i: nat)
    ensures i <= |rows| && (i < |rows| ==> IsRequest(rows[i])) && forall j :: 0 <= j < i ==> !IsRequest(rows[j])
  {
    if rows == [] || IsRequest(rows[0]) then 0 else 1 + FirstRequest(rows[1..])
  }

  /** One, from the rows that match and are in the order of the list. */
  method One(rows: seq<Row>, ray: string, phase: string) returns (found: Maybe<Row>)
    ensures found == OneOf(rows, ray, phase)
  {
    hide Dedup, FirstRequest;
    if ray == "" {
      return Nothing;
    }
    var read := PageOf(rows, 0, 2 * |PHASES|);
    var a := new Row[|read|](i requires 0 <= i < |read| => read[i]);
    assert a[..] == read;
    var n := DedupInPlace(a, KeyOf);
    if n == 0 {
      return Nothing;
    }
    if phase == "" {
      for i := 0 to n
        invariant forall j :: 0 <= j < i ==> !IsRequest(a[j])
      {
        if IsRequest(a[i]) {
          FirstIs(a[..n], i);
          return Just(a[i]);
        }
      }
    }
    found := Just(a[0]);
  }

  function OneOf(rows: seq<Row>, ray: string, phase: string): Maybe<Row> {
    var list := Dedup(PageOf(rows, 0, 2 * |PHASES|), KeyOf);
    if ray == "" || list == [] then Nothing
    else if phase == "" && FirstRequest(list) < |list| then Just(list[FirstRequest(list)])
    else Just(list[0])
  }

  lemma FirstIs(rows: seq<Row>, i: nat)
    requires i <= |rows| && (i < |rows| ==> IsRequest(rows[i])) && forall j :: 0 <= j < i ==> !IsRequest(rows[j])
    ensures FirstRequest(rows) == i
  {
  }

  /** Dropping repeats keeps the first row, and the first row of the request phase. */
  lemma {:induction false} FirstKept(rows: seq<Row>)
    ensures var list, i := Dedup(rows, KeyOf), FirstRequest(rows);
            && (rows != [] ==> list != [] && list[0] == rows[0])
            && (FirstRequest(list) < |list| <==> i < |rows|)
            && (i < |rows| ==> list[FirstRequest(list)] == rows[i])
    decreases |rows|
  {
    hide Dedup, FirstRequest, KeysOf;
    if rows == [] {
      NothingYet<Row, ShownRow>(KeyOf);
    } else {
      var init, last := rows[..|rows| - 1], rows[|rows| - 1];
      assert rows == init + [last];
      FirstKept(init);
      DedupSnoc(init, last, KeyOf);
      NothingYet<Row, ShownRow>(KeyOf);
      FirstSnoc(init, last);
      FirstSnoc(Dedup(init, KeyOf), last);
      if IsRequest(last) && KeyOf(last) in KeysOf(init, KeyOf) {
        SeenRequest(init, last);
      }
    }
  }

  lemma FirstSnoc(rows: seq<Row>, r: Row)
    ensures FirstRequest(rows + [r]) == if FirstRequest(rows) < |rows| || IsRequest(r) then FirstRequest(rows)
                                        else |rows| + 1
  {
    hide FirstRequest;
    var all, i := rows + [r], FirstRequest(rows);
    FirstIs(all, if i < |rows| || IsRequest(r) then i else |all|);
  }

  lemma SeenRequest(rows: seq<Row>, r: Row)
    requires IsRequest(r) && KeyOf(r) in KeysOf(rows, KeyOf)
    ensures FirstRequest(rows) < |rows|
  {
    var i :| 0 <= i < |rows| && KeyOf(rows[i]) == KeyOf(r);
    assert IsRequest(rows[i]);
  }

  lemma FirstOfFront(rows: seq<Row>, n: nat)
    requires n <= |rows|
    ensures FirstRequest(rows[..n]) == if FirstRequest(rows) < n then FirstRequest(rows) else n
  {
    hide FirstRequest;
    var i, front := FirstRequest(rows), rows[..n];
    FirstIs(front, if i < n then i else n);
  }

  lemma FrontRead<R>(rows: seq<R>, limit: nat)
    ensures PageOf(rows, 0, limit) == rows[..if |rows| < limit then |rows| else limit]
  {
  }

  /** What One finds in the raw rows. */
  lemma OneIs(rows: seq<Row>, ray: string, phase: string)
    ensures var i := FirstRequest(rows);
            OneOf(rows, ray, phase) == if rows == [] || ray == "" then Nothing
                                       else if phase == "" && i < |rows| && i < 8 then Just(rows[i])
                                       else Just(rows[0])
  {
    hide Dedup, FirstRequest, PageOf;
    var n := if |rows| < 8 then |rows| else 8;
    var read := rows[..n];
    FrontRead(rows, 8);
    FirstKept(read);
    FirstOfFront(rows, n);
    if rows == [] {
      ShortDedup(read, KeyOf);
    } else {
      assert read[0] == rows[0];
    }
  }

  /** A link without a phase shows the newest row of the request phase, or if there is none the newest row;
      but it looks no further than eight raw rows, so it shows the request exactly when fewer than eight
      raw rows of the ray, copies counted, stand before it. */
  lemma OneShowsRequestIff(raw: seq<Row>, wanted: Row -> bool, rows: seq<Row>, ray: string)
    requires ray != "" && RawAnswer(raw, wanted, SortKeyOfRow, RowOrder(false), rows)
    requires exists r :: r in raw && wanted(r) && IsRequest(r)
    ensures var found := OneOf(rows, ray, "");
            && found.Just? && found.value in raw && wanted(found.value)
            && (IsRequest(found.value) <==> FirstRequest(rows) < 8)
            && (IsRequest(found.value) ==>
                  forall r :: r in raw && wanted(r) && IsRequest(r) ==> !RowBeforeDesc(r.key, found.value.key))
  {
    hide Dedup, FirstRequest, RowBeforeDesc;
    var request :| request in raw && wanted(request) && IsRequest(request);
    assert request in rows;
    OneIs(rows, ray, "");
    hide OneOf;
    var i := FirstRequest(rows);
    assert i < |rows| && rows[i] in rows && rows[0] in rows;
    forall r | r in raw && wanted(r) && IsRequest(r) ensures !RowBeforeDesc(r.key, rows[i].key) {
      assert r in rows;
      var j :| 0 <= j < |rows| && rows[j] == r;
      assert i <= j;
      NotBeforeItself(r.key);
    }
  }

  lemma NotBeforeItself(k: RowKey)
    ensures !RowBeforeDesc(k, k)
  {
    hide FieldsLess, RowFields;
    FieldsOrder(RowFields(k), RowFields(k), []);
  }

  /** Eight frames that came after the request, newest first, and then the request. */
  function UpgradedRay(k: RowKey, rest: string): seq<Row> {
    seq(8, j requires 0 <= j < 8 => Row(k.(ts := k.ts + 8 - j, phase := "frame", direction := "s2c", frame := 8 - j),
                                        0, rest)) +
    [Row(k, 0, rest)]
  }

  /** The request of a ray with eight frames is not what a link to the ray shows. */
  lemma RequestIsMissed(k: RowKey, rest: string)
    requires k.phase == "request" && k.ray != ""
    ensures var rows := UpgradedRay(k, rest);
            && RawAnswer(rows, _ => true, SortKeyOfRow, RowOrder(false), rows)
            && Row(k, 0, rest) in rows && OneOf(rows, k.ray, "") == Just(rows[0]) && !IsRequest(rows[0])
  {
    hide Dedup, FirstRequest, RowBeforeDesc;
    var rows := UpgradedRay(k, rest);
    forall i, j | 0 <= i < j < |rows| ensures !RowBeforeDesc(rows[j].key, rows[i].key) {
      LaterFirst(rows[i].key, rows[j].key);
    }
    assert rows[8] == Row(k, 0, rest);
    FirstIs(rows, 8);
    OneIs(rows, k.ray, "");
  }

  lemma LaterFirst(a: RowKey, b: RowKey)
    requires b.ts < a.ts
    ensures !RowBeforeDesc(b, a)
  {
  }

  // The findings of a card

  const MAX_CARD_FINDINGS: nat := 1000

  /** findingsOf, from the rows with FINAL in the order of the query. */
  function CardFindingsOf(rows: seq<FindingRow>): seq<FindingRow> {
    Dedup(PageOf(rows, 0, MAX_CARD_FINDINGS), Shown)
  }

  /** A card has all findings of its ray exactly if what stands behind the first thousand is shown alike
      with one of them. */
  lemma CardHasAllIff(rows: seq<FindingRow>)
    ensures var n := if |rows| < 1000 then |rows| else 1000;
            && CardFindingsOf(rows) <= Dedup(rows, Shown)
            && (CardFindingsOf(rows) == Dedup(rows, Shown) <==>
                forall r :: r in rows[n..] ==> Shown(r) in KeysOf(rows[..n], Shown))
  {
    hide Dedup, KeysOf, PageOf, Shown;
    var n := if |rows| < MAX_CARD_FINDINGS then |rows| else MAX_CARD_FINDINGS;
    FrontRead(rows, MAX_CARD_FINDINGS);
    assert rows == rows[..n] + rows[n..];
    DedupGrows(rows[..n], rows[n..], Shown);
    DedupGrowsIff(rows[..n], rows[n..], Shown);
  }

  lemma {:induction false} DedupGrowsIff<R(!new), K>(a: seq<R>, b: seq<R>, key: R -> K)
    ensures Dedup(a + b, key) == Dedup(a, key) <==> forall r :: r in b ==> key(r) in KeysOf(a, key)
    decreases |b|
  {
    hide Dedup, KeysOf;
    if b == [] {
      assert a + b == a;
    } else {
      var init, last := b[..|b| - 1], b[|b| - 1];
      assert a + b == (a + init) + [last] && b == init + [last];
      DedupGrows(a, init, key);
      DedupGrowsIff(a, init, key);
      DedupSnoc(a + init, last, key);
      assert forall r :: r in b <==> r in init || r == last;
      if forall r :: r in init ==> key(r) in KeysOf(a, key) {
        SameKeys(a, init, key);
      }
    }
  }

  lemma SameKeys<R, K>(a: seq<R>, b: seq<R>, key: R -> K)
    requires forall r :: r in b ==> key(r) in KeysOf(a, key)
    ensures KeysOf(a + b, key) == KeysOf(a, key)
  {
    JoinedKeys(a, b, key);
    assert forall i :: 0 <= i < |b| ==> b[i] in b;
  }

  /** The findings of one full event, of which a card leaves out the last 24. */
  lemma FullEventIsCut(rows: seq<FindingRow>)
    requires |rows| == 1024 && Apart(rows, Shown)
    ensures |CardFindingsOf(rows)| == 1000 && |Dedup(rows, Shown)| == 1024
  {
    hide Dedup;
    DedupIdle(rows, Shown);
    DedupIdle(rows[..MAX_CARD_FINDINGS], Shown);
  }
}
