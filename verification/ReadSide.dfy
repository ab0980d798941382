/** Reading without FINAL: the lists of internal/query/finding.go and internal/query/query.go read raw
    rows in the order of the sort key and drop repeats in memory; their counts read with FINAL. */
module ReadSide {
  import opened Lists
  import opened Tables

  function KeysOf<R, K(==)>(rows: seq<R>, key: R -> K): set<K> {
    set i | 0 <= i < |rows| :: key(rows[i])
  }

  /** Of the rows with one key the first is kept. */
  function Dedup<R, K(==)>(rows: seq<R>, key: R -> K): seq<R> {
    if rows == [] then []
    else
      var init, last := rows[..|rows| - 1], rows[|rows| - 1];
      if key(last) in KeysOf(init, key) then Dedup(init, key) else Dedup(init, key) + [last]
  }

  lemma {:induction false} KeysSnoc<R, K>(rows: seq<R>, r: R, key: R -> K)
    ensures KeysOf(rows + [r], key) == KeysOf(rows, key) + {key(r)}
  {
    var all := rows + [r];
    forall k | k in KeysOf(rows, key) + {key(r)} ensures k in KeysOf(all, key) {
      if k == key(r) {
        assert key(all[|rows|]) == k;
      } else {
        var i :| 0 <= i < |rows| && key(rows[i]) == k;
        assert key(all[i]) == k;
      }
    }
  }

  lemma DedupSnoc<R, K>(rows: seq<R>, r: R, key: R -> K)
    ensures Dedup(rows + [r], key) ==
            if key(r) in KeysOf(rows, key) then Dedup(rows, key) else Dedup(rows, key) + [r]
  {
    assert (rows + [r])[..|rows|] == rows;
  }

  /** scanFindings: appends what has not been seen. */
  method Scan<R, K(==)>(rows: seq<R>, key: R -> K) returns (out: seq<R>)
    ensures out == Dedup(rows, key)
  {
    out := [];
    var seen: set<K> := {};
    for i := 0 to |rows|
      invariant seen == KeysOf(rows[..i], key) && out == Dedup(rows[..i], key)
    {
      var k := key(rows[i]);
      assert rows[..i + 1] == rows[..i] + [rows[i]];
      KeysSnoc(rows[..i], rows[i], key);
      DedupSnoc(rows[..i], rows[i], key);
      if k in seen {
        continue;
      }
      seen := seen + {k};
      out := out + [rows[i]];
    }
    assert rows[..|rows|] == rows;
  }

  lemma NothingYet<R, K>(key: R -> K)
    ensures Dedup<R, K>([], key) == [] && KeysOf<R, K>([], key) == {}
  {
  }

  lemma MovedDown<R>(s: seq<R>, n: nat, i: nat)
    requires n <= i < |s|
    ensures s[n := s[i]][..n + 1] == s[..n] + [s[i]] && s[n := s[i]][i + 1..] == s[i + 1..]
  {
  }

  /** dedup: the kept rows move to the front of the same array. */
  method DedupInPlace<R, K(==)>(a: array<R>, key: R -> K) returns (n: nat)
    modifies a
    ensures n <= a.Length && a[..n] == Dedup(old(a[..]), key)
  {
    hide Dedup, KeysOf;
    if a.Length < 2 {
      n := a.Length;
      ShortDedup(a[..], key);
      return;
    }
    ghost var rows := a[..];
    var seen: set<K> := {};
    n := 0;
    NothingYet<R, K>(key);
    for i := 0 to a.Length
      invariant n <= i && a[i..] == rows[i..]
      invariant seen == KeysOf(rows[..i], key) && a[..n] == Dedup(rows[..i], key)
    {
      assert a[i] == a[i..][0] == rows[i];
      var k := key(a[i]);
      assert rows[..i + 1] == rows[..i] + [rows[i]];
      KeysSnoc(rows[..i], rows[i], key);
      DedupSnoc(rows[..i], rows[i], key);
      assert a[i + 1..] == a[i..][1..] == rows[i..][1..] == rows[i + 1..];
      if k in seen {
        continue;
      }
      seen := seen + {k};
      MovedDown(a[..], n, i);
      a[n] := a[i];
      n := n + 1;
    }
    assert rows[..|rows|] == rows;
  }

  lemma ShortDedup<R, K>(rows: seq<R>, key: R -> K)
    requires |rows| < 2
    ensures Dedup(rows, key) == rows
  {
    if |rows| == 1 {
      assert rows[..0] == [];
      assert Dedup(rows[..0], key) == [];
    }
  }

  // Orders

  /** A strict total order of the keys. */
  ghost predicate StrictOrder<K(!new)>(lt: (K, K) -> bool) {
    (forall a, b :: a == b || lt(a, b) || lt(b, a)) &&
    (forall a, b :: !(lt(a, b) && lt(b, a))) &&
    (forall a, b, c :: lt(a, b) && lt(b, c) ==> lt(a, c))
  }

  ghost predicate Ordered<R, K>(rows: seq<R>, key: R -> K, lt: (K, K) -> bool) {
    forall i, j :: 0 <= i < j < |rows| ==> !lt(key(rows[j]), key(rows[i]))
  }

  ghost predicate StrictlyOrdered<R, K>(rows: seq<R>, key: R -> K, lt: (K, K) -> bool) {
    forall i, j :: 0 <= i < j < |rows| ==> lt(key(rows[i]), key(rows[j]))
  }

  lemma {:induction false} DedupKeeps<R(!new), K>(rows: seq<R>, key: R -> K)
    ensures forall r :: r in Dedup(rows, key) ==> r in rows
    ensures KeysOf(Dedup(rows, key), key) == KeysOf(rows, key)
    decreases |rows|
  {
    if rows != [] {
      var init, last := rows[..|rows| - 1], rows[|rows| - 1];
      DedupKeeps(init, key);
      assert rows == init + [last];
      KeysSnoc(init, last, key);
      KeysSnoc(Dedup(init, key), last, key);
    }
  }

  lemma {:induction false} DedupOrders<R(!new), K(!new)>(rows: seq<R>, key: R -> K, lt: (K, K) -> bool)
    requires StrictOrder(lt) && Ordered(rows, key, lt)
    ensures StrictlyOrdered(Dedup(rows, key), key, lt)
    decreases |rows|
  {
    if rows != [] {
      var init, last := rows[..|rows| - 1], rows[|rows| - 1];
      DedupOrders(init, key, lt);
      DedupKeeps(init, key);
      var kept := Dedup(init, key);
      if key(last) !in KeysOf(init, key) {
        forall i | 0 <= i < |kept| ensures lt(key(kept[i]), key(last)) {
          assert kept[i] in init;
          var j :| 0 <= j < |init| && init[j] == kept[i];
          assert init[j] == rows[j] && key(init[j]) in KeysOf(init, key);
        }
      }
    }
  }

  lemma EmptySame<R(!new)>(b: seq<R>)
    requires b != []
    ensures !SameRows([], b)
  {
    assert b[0] in b;
  }

  /** A strictly ordered list is determined by its rows. */
  lemma {:induction false} OrderUnique<R(!new), K(!new)>(a: seq<R>, b: seq<R>, key: R -> K, lt: (K, K) -> bool)
    requires StrictOrder(lt) && StrictlyOrdered(a, key, lt) && StrictlyOrdered(b, key, lt) && SameRows(a, b)
    ensures a == b
    decreases |a|
  {
    if a == [] {
      if b != [] {
        EmptySame(b);
      }
    } else {
      assert a[0] in b && b[0] in a;
      var i :| 0 <= i < |b| && b[i] == a[0];
      var j :| 0 <= j < |a| && a[j] == b[0];
      assert a[0] == b[0];
      forall r ensures r in a[1..] <==> r in b[1..] {
        assert r in a <==> r == a[0] || r in a[1..];
        assert r in b <==> r == b[0] || r in b[1..];
      }
      OrderUnique(a[1..], b[1..], key, lt);
      assert a == [a[0]] + a[1..] && b == [b[0]] + b[1..];
    }
  }

  // The raw read and the read with FINAL

  /** What the database may answer to the raw query: the rows the filter selects, each as often as
      it is stored, in the order of the sort key. */
  ghost predicate RawAnswer<R(!new), K>(raw: seq<R>, wanted: R -> bool, key: R -> K, lt: (K, K) -> bool, rows: seq<R>) {
    Ordered(rows, key, lt) && forall r :: r in rows <==> r in raw && wanted(r)
  }

  /** The answer with FINAL: the collapsed rows the filter selects, in the order of the sort key. */
  ghost predicate FinalAnswer<R(!new), K>(raw: seq<R>, wanted: R -> bool, key: R -> K, rev: R -> nat,
                                          lt: (K, K) -> bool, rows: seq<R>)
  {
    StrictlyOrdered(rows, key, lt) &&
    forall r :: r in rows <==> r in Collapse(raw, key, rev).Values && wanted(r)
  }

  lemma DedupSame<R(!new), K(!new)>(rows: seq<R>, key: R -> K)
    requires Determined(rows, key)
    ensures SameRows(Dedup(rows, key), rows)
  {
    DedupKeeps(rows, key);
    forall r | r in rows ensures r in Dedup(rows, key) {
      var i :| 0 <= i < |rows| && rows[i] == r;
      assert key(r) in KeysOf(rows, key);
      var j :| 0 <= j < |Dedup(rows, key)| && key(Dedup(rows, key)[j]) == key(r);
      assert Dedup(rows, key)[j] in rows;
    }
  }

  /** A table whose sort key determines the row reads alike both ways: dropping repeats of the sort
      key from the ordered raw rows gives what FINAL gives. */
  lemma RawReadIsFinal<R(!new), K(!new)>(raw: seq<R>, wanted: R -> bool, key: R -> K, rev: R -> nat,
                                         lt: (K, K) -> bool, rows: seq<R>, final: seq<R>)
    requires StrictOrder(lt) && Determined(raw, key)
    requires RawAnswer(raw, wanted, key, lt, rows) && FinalAnswer(raw, wanted, key, rev, lt, final)
    ensures Dedup(rows, key) == final
  {
    FinalShowsAllIff(raw, key, rev);
    DedupSame(rows, key);
    DedupOrders(rows, key, lt);
    OrderUnique(Dedup(rows, key), final, key, lt);
  }

  /** Different rows of the answer differ in their display key. */
  ghost predicate Apart<R, D>(rows: seq<R>, shown: R -> D) {
    forall i, j :: 0 <= i < j < |rows| ==> shown(rows[i]) != shown(rows[j])
  }

  lemma {:induction false} DedupTwice<R(!new), K(!new), D>(rows: seq<R>, key: R -> K, shown: R -> D)
    requires forall a, b :: a in rows && b in rows && key(a) == key(b) ==> shown(a) == shown(b)
    ensures Dedup(rows, shown) == Dedup(Dedup(rows, key), shown)
    decreases |rows|
  {
    if rows != [] {
      var init, last := rows[..|rows| - 1], rows[|rows| - 1];
      assert rows == init + [last];
      DedupTwice(init, key, shown);
      DedupKeeps(init, key);
      var kept := Dedup(init, key);
      DedupSnoc(kept, last, shown);
      ShownKeys(init, key, shown);
      if key(last) in KeysOf(init, key) {
        var i :| 0 <= i < |init| && key(init[i]) == key(last);
        assert init[i] in rows && shown(init[i]) in KeysOf(init, shown);
      }
    }
  }

  lemma ShownKeys<R(!new), K(!new), D>(rows: seq<R>, key: R -> K, shown: R -> D)
    requires forall a, b :: a in rows && b in rows && key(a) == key(b) ==> shown(a) == shown(b)
    ensures KeysOf(Dedup(rows, key), shown) == KeysOf(rows, shown)
  {
    DedupKeeps(rows, key);
    var kept := Dedup(rows, key);
    forall d | d in KeysOf(rows, shown) ensures d in KeysOf(kept, shown) {
      var i :| 0 <= i < |rows| && shown(rows[i]) == d;
      assert key(rows[i]) in KeysOf(rows, key);
      var j :| 0 <= j < |kept| && key(kept[j]) == key(rows[i]);
      assert kept[j] in rows && shown(kept[j]) == d;
    }
    forall d | d in KeysOf(kept, shown) ensures d in KeysOf(rows, shown) {
      var j :| 0 <= j < |kept| && shown(kept[j]) == d;
      assert kept[j] in rows;
    }
  }

  lemma {:induction false} DedupIdle<R, D>(rows: seq<R>, shown: R -> D)
    ensures |Dedup(rows, shown)| <= |rows|
    ensures Dedup(rows, shown) == rows <==> Apart(rows, shown)
    ensures |Dedup(rows, shown)| == |rows| <==> Apart(rows, shown)
    decreases |rows|
  {
    if rows != [] {
      var init, last := rows[..|rows| - 1], rows[|rows| - 1];
      assert rows == init + [last];
      DedupIdle(init, shown);
      if Apart(rows, shown) {
        assert forall i :: 0 <= i < |init| ==> init[i] == rows[i];
      }
    }
  }

  // Pages

  /** LIMIT and OFFSET. */
  function PageOf<R>(rows: seq<R>, offset: nat, limit: nat): seq<R> {
    var lo := if offset < |rows| then offset else |rows|;
    var hi := if offset + limit < |rows| then offset + limit else |rows|;
    rows[lo..hi]
  }

  /** All pages of a size, each with its repeats dropped, one behind the other. */
  function Listed<R, K(==)>(rows: seq<R>, limit: nat, key: R -> K): seq<R>
    requires limit > 0
    decreases |rows|
  {
    if rows == [] then []
    else
      var n := if limit < |rows| then limit else |rows|;
      Dedup(rows[..n], key) + Listed(rows[n..], limit, key)
  }

  /** The page boundaries between two rows with one key. */
  function Straddles<R, K(==)>(rows: seq<R>, limit: nat, key: R -> K): nat
    requires limit > 0
    decreases |rows|
  {
    if |rows| <= limit then 0
    else (if key(rows[limit - 1]) == key(rows[limit]) then 1 else 0) + Straddles(rows[limit..], limit, key)
  }

  /** Equal keys stand together in ordered rows. */
  lemma EqualsTogether<R(!new), K(!new)>(rows: seq<R>, key: R -> K, lt: (K, K) -> bool, i: nat, j: nat, k: nat)
    requires StrictOrder(lt) && Ordered(rows, key, lt) && i <= j <= k < |rows| && key(rows[i]) == key(rows[k])
    ensures key(rows[j]) == key(rows[i])
  {
    assert i == j || !lt(key(rows[j]), key(rows[i]));
    assert j == k || !lt(key(rows[k]), key(rows[j]));
  }

  /** Two windows that follow one another: dropping repeats in each gives the same as dropping them
      in both together, but for the key that goes on across the boundary. */
  lemma {:induction false} WindowsJoin<R(!new), K(!new)>(a: seq<R>, b: seq<R>, key: R -> K, lt: (K, K) -> bool)
    requires StrictOrder(lt) && Ordered(a + b, key, lt) && a != [] && b != []
    ensures var da, db := Dedup(a, key), Dedup(b, key);
            && db != [] && db[0] == b[0]
            && Dedup(a + b, key) == da + if key(a[|a| - 1]) == key(b[0]) then db[1..] else db
    decreases |b|
  {
    hide Dedup, KeysOf, Ordered, StrictOrder;
    var init, last := b[..|b| - 1], b[|b| - 1];
    assert b == init + [last] && a + b == (a + init) + [last];
    DedupSnoc(a + init, last, key);
    if init == [] {
      assert a + init == a && [last] == b;
      ShortDedup(b, key);
      SeenAtEnd(a, last, key, lt);
    } else {
      OrderedPrefix(a + init, last, key, lt);
      DedupSnoc(init, last, key);
      WindowsJoin(a, init, key, lt);
      SeenInside(a, init, last, key, lt);
      OneBehind(Dedup(a, key), Dedup(init, key), last, key(a[|a| - 1]) == key(b[0]));
    }
  }

  lemma OneBehind<R>(a: seq<R>, b: seq<R>, r: R, shared: bool)
    requires b != []
    ensures (a + if shared then b[1..] else b) + [r] == a + if shared then (b + [r])[1..] else b + [r]
  {
    assert (b + [r])[1..] == b[1..] + [r];
  }

  lemma OrderedPrefix<R(!new), K(!new)>(rows: seq<R>, r: R, key: R -> K, lt: (K, K) -> bool)
    requires Ordered(rows + [r], key, lt)
    ensures Ordered(rows, key, lt)
  {
    assert forall i :: 0 <= i < |rows| ==> (rows + [r])[i] == rows[i];
  }

  lemma SeenInside<R(!new), K(!new)>(a: seq<R>, b: seq<R>, r: R, key: R -> K, lt: (K, K) -> bool)
    requires StrictOrder(lt) && b != [] && Ordered(a + b + [r], key, lt)
    ensures key(r) in KeysOf(a + b, key) <==> key(r) in KeysOf(b, key)
  {
    JoinedKeys(a, b, key);
    SeenAtEnd(a + b, r, key, lt);
    assert (a + b)[|a + b| - 1] == b[|b| - 1];
  }

  lemma SeenAtEnd<R(!new), K(!new)>(a: seq<R>, r: R, key: R -> K, lt: (K, K) -> bool)
    requires StrictOrder(lt) && a != [] && Ordered(a + [r], key, lt)
    ensures key(r) in KeysOf(a, key) <==> key(a[|a| - 1]) == key(r)
  {
    var s := a + [r];
    if key(r) in KeysOf(a, key) {
      var i :| 0 <= i < |a| && key(a[i]) == key(r);
      assert s[i] == a[i];
      EqualsTogether(s, key, lt, i, |a| - 1, |a|);
    }
  }

  lemma JoinedKeys<R, K>(a: seq<R>, b: seq<R>, key: R -> K)
    ensures KeysOf(a + b, key) == KeysOf(a, key) + KeysOf(b, key)
  {
    var s := a + b;
    forall k | k in KeysOf(a, key) + KeysOf(b, key) ensures k in KeysOf(s, key) {
      if k in KeysOf(a, key) {
        var i :| 0 <= i < |a| && key(a[i]) == k;
        assert s[i] == a[i];
      } else {
        var i :| 0 <= i < |b| && key(b[i]) == k;
        assert s[|a| + i] == b[i];
      }
    }
  }

  lemma {:induction false} ListedLength<R(!new), K(!new)>(rows: seq<R>, limit: nat, key: R -> K, lt: (K, K) -> bool)
    requires StrictOrder(lt) && Ordered(rows, key, lt) && limit > 0
    ensures |Listed(rows, limit, key)| == |Dedup(rows, key)| + Straddles(rows, limit, key)
    decreases |rows|
  {
    hide Dedup, StrictOrder;
    if |rows| > limit {
      var a, b := rows[..limit], rows[limit..];
      assert a + b == rows;
      WindowsJoin(a, b, key, lt);
      ListedLength(b, limit, key, lt);
    } else {
      ShortDedup(rows[..0], key);
      assert rows[..|rows|] == rows && rows[|rows|..] == [];
      assert Listed(rows[|rows|..], limit, key) == [];
    }
  }

  lemma {:induction false} ListedRows<R(!new), K(!new)>(rows: seq<R>, limit: nat, key: R -> K, lt: (K, K) -> bool)
    requires StrictOrder(lt) && Ordered(rows, key, lt) && Determined(rows, key) && limit > 0
    ensures SameRows(Listed(rows, limit, key), rows) && Ordered(Listed(rows, limit, key), key, lt)
    decreases |rows|
  {
    if rows != [] {
      var n := if limit < |rows| then limit else |rows|;
      var a, b := rows[..n], rows[n..];
      assert rows == a + b;
      DedupSame(a, key);
      DedupOrders(a, key, lt);
      ListedRows(b, limit, key, lt);
      OrderedJoin(a, b, Dedup(a, key), Listed(b, limit, key), key, lt);
    }
  }

  lemma OrderedJoin<R(!new), K(!new)>(a: seq<R>, b: seq<R>, c: seq<R>, d: seq<R>, key: R -> K, lt: (K, K) -> bool)
    requires StrictOrder(lt) && Ordered(a + b, key, lt) && SameRows(a, c) && SameRows(b, d)
    requires StrictlyOrdered(c, key, lt) && Ordered(d, key, lt)
    ensures Ordered(c + d, key, lt) && SameRows(a + b, c + d)
  {
    var s := a + b;
    forall x, y | x in c && y in d ensures !lt(key(y), key(x)) {
      var i :| 0 <= i < |a| && a[i] == x;
      var j :| 0 <= j < |b| && b[j] == y;
      assert s[i] == x && s[|a| + j] == y;
    }
  }

  /** Paging through the whole answer lists its rows in order, and lists one again only where a
      page boundary falls between rows of one key: once for each such boundary. */
  lemma PagesDiffer<R(!new), K(!new)>(rows: seq<R>, limit: nat, key: R -> K, lt: (K, K) -> bool)
    requires StrictOrder(lt) && Ordered(rows, key, lt) && Determined(rows, key) && limit > 0
    ensures |Listed(rows, limit, key)| == |Dedup(rows, key)| + Straddles(rows, limit, key)
    ensures Dedup(Listed(rows, limit, key), key) == Dedup(rows, key)
    ensures Straddles(rows, limit, key) == 0 ==> Listed(rows, limit, key) == Dedup(rows, key)
  {
    var listed := Listed(rows, limit, key);
    ListedLength(rows, limit, key, lt);
    ListedRows(rows, limit, key, lt);
    DedupSame(listed, key);
    DedupSame(rows, key);
    DedupOrders(listed, key, lt);
    DedupOrders(rows, key, lt);
    OrderUnique(Dedup(listed, key), Dedup(rows, key), key, lt);
    DedupIdle(listed, key);
  }

  // The pages the program serves drop repeats of the display key

  /** Rows of the page that are shown alike have one sort key. */
  ghost predicate Tells<R, K, D>(page: seq<R>, key: R -> K, shown: R -> D) {
    forall a, b :: a in page && b in page && shown(a) == shown(b) ==> key(a) == key(b)
  }

  /** What is shown of a row depends on its sort key alone. */
  ghost predicate Coarser<R, K, D>(rows: seq<R>, key: R -> K, shown: R -> D) {
    forall a, b :: a in rows && b in rows && key(a) == key(b) ==> shown(a) == shown(b)
  }

  lemma {:induction false} DedupApart<R(!new), K>(rows: seq<R>, key: R -> K)
    ensures Apart(Dedup(rows, key), key)
    decreases |rows|
  {
    if rows != [] {
      var init, last := rows[..|rows| - 1], rows[|rows| - 1];
      DedupApart(init, key);
      DedupKeeps(init, key);
      var kept := Dedup(init, key);
      if key(last) !in KeysOf(init, key) {
        forall i | 0 <= i < |kept| ensures key(kept[i]) != key(last) {
          assert key(kept[i]) in KeysOf(kept, key);
        }
      }
    }
  }

  lemma ApartTells<R(!new), K, D>(rows: seq<R>, key: R -> K, shown: R -> D)
    requires Coarser(rows, key, shown)
    ensures Apart(Dedup(rows, key), shown) <==> Tells(rows, key, shown)
  {
    hide Dedup;
    var kept := Dedup(rows, key);
    DedupKeeps(rows, key);
    DedupApart(rows, key);
    if Apart(kept, shown) {
      forall a, b | a in rows && b in rows && shown(a) == shown(b) ensures key(a) == key(b) {
        var i := Representative(rows, key, a);
        var j := Representative(rows, key, b);
        assert kept[i] in rows && kept[j] in rows;
      }
    }
    if Tells(rows, key, shown) {
      forall i, j | 0 <= i < j < |kept| ensures shown(kept[i]) != shown(kept[j]) {
        assert kept[i] in rows && kept[j] in rows;
      }
    }
  }

  lemma Representative<R(!new), K>(rows: seq<R>, key: R -> K, r: R) returns (i: nat)
    requires r in rows
    ensures i < |Dedup(rows, key)| && key(Dedup(rows, key)[i]) == key(r)
  {
    DedupKeeps(rows, key);
    var k :| 0 <= k < |rows| && rows[k] == r;
    assert key(r) in KeysOf(rows, key) && key(r) in KeysOf(Dedup(rows, key), key);
    i :| i < |Dedup(rows, key)| && key(Dedup(rows, key)[i]) == key(r);
  }

  /** One page: dropping what is shown alike drops the repeats of the sort key and no more exactly when
      the page tells its sort keys apart. */
  lemma PageTellsIff<R(!new), K(!new), D>(page: seq<R>, key: R -> K, shown: R -> D)
    requires Coarser(page, key, shown)
    ensures Dedup(page, shown) == Dedup(page, key) <==> Tells(page, key, shown)
    ensures |Dedup(page, shown)| <= |Dedup(page, key)|
    ensures |Dedup(page, shown)| == |Dedup(page, key)| <==> Tells(page, key, shown)
  {
    hide Dedup, Tells, Apart;
    DedupTwice(page, key, shown);
    DedupIdle(Dedup(page, key), shown);
    ApartTells(page, key, shown);
  }

  ghost predicate PagesTell<R, K, D>(rows: seq<R>, limit: nat, key: R -> K, shown: R -> D)
    requires limit > 0
    decreases |rows|
  {
    rows == [] ||
    var n := if limit < |rows| then limit else |rows|;
    Tells(rows[..n], key, shown) && PagesTell(rows[n..], limit, key, shown)
  }

  /** All pages: the lists agree exactly when every page tells its sort keys apart. */
  lemma {:induction false} PagesTellIff<R(!new), K(!new), D>(rows: seq<R>, limit: nat, key: R -> K, shown: R -> D)
    requires Coarser(rows, key, shown) && limit > 0
    ensures Listed(rows, limit, shown) == Listed(rows, limit, key) <==> PagesTell(rows, limit, key, shown)
    ensures |Listed(rows, limit, shown)| <= |Listed(rows, limit, key)|
    ensures |Listed(rows, limit, shown)| == |Listed(rows, limit, key)| <==> PagesTell(rows, limit, key, shown)
    decreases |rows|
  {
    hide Dedup, Tells;
    if rows != [] {
      var n := if limit < |rows| then limit else |rows|;
      var a, b := rows[..n], rows[n..];
      assert forall r :: r in a ==> r in rows;
      assert forall r :: r in b ==> r in rows;
      PageTellsIff(a, key, shown);
      PagesTellIff(b, limit, key, shown);
      JoinedEqual(Dedup(a, shown), Listed(b, limit, shown), Dedup(a, key), Listed(b, limit, key));
    }
  }

  /** The answers to successive queries with LIMIT and OFFSET, from an offset on. */
  function Paged<R, K(==)>(rows: seq<R>, offset: nat, limit: nat, key: R -> K): seq<R>
    requires limit > 0
    decreases |rows| - offset
  {
    if offset >= |rows| then []
    else Dedup(PageOf(rows, offset, limit), key) + Paged(rows, offset + limit, limit, key)
  }

  lemma {:induction false} PagedIsListed<R, K>(rows: seq<R>, offset: nat, limit: nat, key: R -> K)
    requires limit > 0 && offset <= |rows|
    ensures Paged(rows, offset, limit, key) == Listed(rows[offset..], limit, key)
    decreases |rows| - offset
  {
    hide Dedup;
    var rest := rows[offset..];
    if rest != [] {
      var n := if limit < |rest| then limit else |rest|;
      assert rest[..n] == PageOf(rows, offset, limit);
      if offset + limit <= |rows| {
        assert rest[n..] == rows[offset + limit..];
        PagedIsListed(rows, offset + limit, limit, key);
      } else {
        assert rest[n..] == [];
      }
    }
  }

  /** Paging to the end through an answer.  The pages list what they would if they dropped repeats of
      the sort key exactly when every page tells its sort keys apart; then they are the table with
      FINAL, and one row of it again for each page boundary between two rows of one key. */
  lemma PagesServedIff<R(!new), K(!new), D(!new)>(raw: seq<R>, wanted: R -> bool, key: R -> K, shown: R -> D,
                                                 rev: R -> nat, lt: (K, K) -> bool, rows: seq<R>, final: seq<R>,
                                                 limit: nat)
    requires StrictOrder(lt) && Determined(raw, key) && Coarser(raw, key, shown) && limit > 0
    requires RawAnswer(raw, wanted, key, lt, rows) && FinalAnswer(raw, wanted, key, rev, lt, final)
    ensures var pages := Paged(rows, 0, limit, shown);
            && (pages == Paged(rows, 0, limit, key) <==> PagesTell(rows, limit, key, shown))
            && |pages| <= |final| + Straddles(rows, limit, key)
            && (|pages| == |final| + Straddles(rows, limit, key) <==> PagesTell(rows, limit, key, shown))
            && (PagesTell(rows, limit, key, shown) ==> Dedup(pages, key) == final)
            && (PagesTell(rows, limit, key, shown) && Straddles(rows, limit, key) == 0 ==> pages == final)
  {
    hide Dedup, Tells, PagesTell, Listed, Paged, Straddles;
    assert rows[0..] == rows;
    PagedIsListed(rows, 0, limit, shown);
    PagedIsListed(rows, 0, limit, key);
    PagesTellIff(rows, limit, key, shown);
    PagesDiffer(rows, limit, key, lt);
    RawReadIsFinal(raw, wanted, key, rev, lt, rows, final);
  }

  // One page

  lemma {:induction false} DedupGrows<R(!new), K>(a: seq<R>, b: seq<R>, key: R -> K)
    ensures Dedup(a, key) <= Dedup(a + b, key)
    decreases |b|
  {
    hide Dedup, KeysOf;
    if b == [] {
      assert a + b == a;
    } else {
      DedupGrows(a, b[..|b| - 1], key);
      assert a + b == (a + b[..|b| - 1]) + [b[|b| - 1]];
      DedupSnoc(a + b[..|b| - 1], b[|b| - 1], key);
    }
  }

  /** How many sort keys the rows before position m have. */
  function KeysBefore<R, K(==)>(rows: seq<R>, m: nat, key: R -> K): nat
    requires m <= |rows|
  {
    |Dedup(rows[..m], key)|
  }

  /** Where in the table with FINAL a page begins: at the key of the row before it, if it goes on. */
  function Start<R, K(==)>(rows: seq<R>, o: nat, key: R -> K): (lo: int)
    requires o < |rows|
  {
    KeysBefore(rows, o, key) - if o > 0 && key(rows[o - 1]) == key(rows[o]) then 1 else 0
  }

  /** The distinct rows of a page are a run of the rows without repeats. */
  lemma PageIsRun<R(!new), K(!new)>(rows: seq<R>, o: nat, m: nat, key: R -> K, lt: (K, K) -> bool)
    requires StrictOrder(lt) && Ordered(rows, key, lt) && Determined(rows, key) && o < m <= |rows|
    ensures 0 <= Start(rows, o, key) <= KeysBefore(rows, m, key) <= |Dedup(rows, key)|
    ensures Dedup(rows[o..m], key) == Dedup(rows, key)[Start(rows, o, key)..KeysBefore(rows, m, key)]
  {
    hide Dedup, StrictOrder, Ordered;
    var a, b, c := rows[..o], rows[o..m], rows[m..];
    assert rows[..m] == a + b && rows == (a + b) + c;
    DedupGrows(a + b, c, key);
    if o == 0 {
      assert a == [] && a + b == b;
      NothingKept(a, key);
      Run(Dedup(rows, key), Dedup(a + b, key), Dedup(a, key), Dedup(b, key), false);
    } else {
      OrderedFront(rows, m, key, lt);
      JoinedRun(rows, a, b, key, lt);
      Run(Dedup(rows, key), Dedup(a + b, key), Dedup(a, key), Dedup(b, key), key(rows[o - 1]) == key(rows[o]));
    }
  }

  lemma JoinedRun<R(!new), K(!new)>(rows: seq<R>, a: seq<R>, b: seq<R>, key: R -> K, lt: (K, K) -> bool)
    requires StrictOrder(lt) && Ordered(rows, key, lt) && Ordered(a + b, key, lt) && Determined(rows, key)
    requires a != [] && b != [] && a + b <= rows
    ensures var shared, da, db := key(a[|a| - 1]) == key(b[0]), Dedup(a, key), Dedup(b, key);
            && db != [] && Dedup(a + b, key) == da + (if shared then db[1..] else db)
            && (shared ==> da != [] && da[|da| - 1] == db[0])
  {
    hide Dedup, StrictOrder, Ordered;
    WindowsJoin(a, b, key, lt);
    assert a <= rows;
    LastKept(a, key, lt, rows);
    assert rows[|a| - 1] == a[|a| - 1] && rows[|a|] == b[0];
    assert rows[|a| - 1] in rows && rows[|a|] in rows;
  }

  lemma Run<R>(all: seq<R>, both: seq<R>, a: seq<R>, b: seq<R>, shared: bool)
    requires both <= all && both == a + if shared && b != [] then b[1..] else b
    requires shared ==> a != [] && b != [] && a[|a| - 1] == b[0]
    ensures var lo := |a| - if shared then 1 else 0; 0 <= lo <= |both| && b == all[lo..|both|]
  {
    if shared {
      assert both == a[..|a| - 1] + b;
    }
  }

  lemma NothingKept<R, K>(rows: seq<R>, key: R -> K)
    requires rows == []
    ensures Dedup(rows, key) == []
  {
  }

  lemma OrderedFront<R, K>(rows: seq<R>, m: nat, key: R -> K, lt: (K, K) -> bool)
    requires Ordered(rows, key, lt) && m <= |rows|
    ensures Ordered(rows[..m], key, lt)
  {
  }

  /** The last row, or its equal, is the last one kept. */
  lemma LastKept<R(!new), K(!new)>(a: seq<R>, key: R -> K, lt: (K, K) -> bool, rows: seq<R>)
    requires StrictOrder(lt) && Ordered(rows, key, lt) && Determined(rows, key) && a != [] && a <= rows
    ensures var d := Dedup(a, key); d != [] && d[|d| - 1] == a[|a| - 1]
  {
    var init, last := a[..|a| - 1], a[|a| - 1];
    assert a == init + [last];
    if key(last) in KeysOf(init, key) {
      OrderedFront(rows, |a|, key, lt);
      assert rows[..|a|] == a;
      SeenAtEnd(init, last, key, lt);
      LastKept(init, key, lt, rows);
      assert init[|init| - 1] == rows[|init| - 1] && last == rows[|a| - 1];
      assert rows[|init| - 1] in rows && rows[|a| - 1] in rows;
    }
  }

  /** The run of the table with FINAL that a page stands for. */
  function RunOf<R, K(==)>(final: seq<R>, rows: seq<R>, offset: nat, limit: nat, key: R -> K): seq<R>
    requires offset < |rows|
  {
    var m := if offset + limit < |rows| then offset + limit else |rows|;
    var lo, hi := Start(rows, offset, key), KeysBefore(rows, m, key);
    if 0 <= lo <= hi <= |final| then final[lo..hi] else []
  }

  /** A page that is served, wherever it begins: it is a run of the table with FINAL exactly when it
      tells its sort keys apart, and shorter than that run if not. */
  lemma PageServedIff<R(!new), K(!new), D(!new)>(raw: seq<R>, wanted: R -> bool, key: R -> K, shown: R -> D,
                                                rev: R -> nat, lt: (K, K) -> bool, rows: seq<R>, final: seq<R>,
                                                offset: nat, limit: nat)
    requires StrictOrder(lt) && Determined(raw, key) && Coarser(raw, key, shown) && limit > 0 && offset < |rows|
    requires RawAnswer(raw, wanted, key, lt, rows) && FinalAnswer(raw, wanted, key, rev, lt, final)
    ensures var page, run := PageOf(rows, offset, limit), RunOf(final, rows, offset, limit, key);
            && 0 < |Dedup(page, shown)| <= |run|
            && (Dedup(page, shown) == run <==> Tells(page, key, shown))
            && (|Dedup(page, shown)| == |run| <==> Tells(page, key, shown))
  {
    hide Dedup, Tells, Start, KeysBefore, Ordered, StrictOrder;
    var m := if offset + limit < |rows| then offset + limit else |rows|;
    RawReadIsFinal(raw, wanted, key, rev, lt, rows, final);
    PageIsRun(rows, offset, m, key, lt);
    var page := PageOf(rows, offset, limit);
    assert forall r :: r in page ==> r in rows;
    PageTellsIff(page, key, shown);
    DedupKeeps(page, shown);
    assert shown(page[0]) in KeysOf(page, shown) && KeysOf([], shown) == {};
  }
}
