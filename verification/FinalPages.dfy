/** When the pages that are served are, one after the other, the table with FINAL itself. */
module FinalPages {
  import opened Lists
  import opened Tables
  import opened ReadSide

  /** Of every sort key on the page the first row is passed over, for one before it that is shown alike,
      exactly if the key is one of those that go on behind the page. */
  ghost predicate Handed<R, K, D>(page: seq<R>, key: R -> K, shown: R -> D, onward: set<K>) {
    forall i :: 0 <= i < |page| && key(page[i]) !in KeysOf(page[..i], key) ==>
      (shown(page[i]) in KeysOf(page[..i], shown) <==> key(page[i]) in onward)
  }

  /** The same of all pages: at most the key of the row behind a page goes on. */
  ghost predicate HandedOver<R, K, D>(rows: seq<R>, limit: nat, key: R -> K, shown: R -> D)
    requires limit > 0
    decreases |rows|
  {
    rows == [] ||
    var n := if limit < |rows| then limit else |rows|;
    Handed(rows[..n], key, shown, Onward(rows[n..], key)) && HandedOver(rows[n..], limit, key, shown)
  }

  function Onward<R, K(==)>(rest: seq<R>, key: R -> K): set<K> {
    if rest == [] then {} else {key(rest[0])}
  }

  /** The rows without repeats, but for those whose key goes on. */
  ghost function Leaving<R, K>(rows: seq<R>, key: R -> K, onward: set<K>): seq<R> {
    if rows == [] then []
    else
      var init, last := rows[..|rows| - 1], rows[|rows| - 1];
      if key(last) in KeysOf(init, key) || key(last) in onward then Leaving(init, key, onward)
      else Leaving(init, key, onward) + [last]
  }

  lemma LeavingSnoc<R, K>(rows: seq<R>, r: R, key: R -> K, onward: set<K>)
    ensures Leaving(rows + [r], key, onward) ==
            if key(r) in KeysOf(rows, key) || key(r) in onward then Leaving(rows, key, onward)
            else Leaving(rows, key, onward) + [r]
  {
    assert (rows + [r])[..|rows|] == rows;
  }

  lemma HandedSnoc<R, K, D>(rows: seq<R>, r: R, key: R -> K, shown: R -> D, onward: set<K>)
    ensures Handed(rows + [r], key, shown, onward) <==>
            Handed(rows, key, shown, onward) &&
            (key(r) !in KeysOf(rows, key) ==> (shown(r) in KeysOf(rows, shown) <==> key(r) in onward))
  {
    hide KeysOf;
    var all := rows + [r];
    assert all[..|rows|] == rows;
    assert forall i :: 0 <= i < |rows| ==> all[i] == rows[i] && all[..i] == rows[..i];
    if Handed(all, key, shown, onward) {
      assert all[|rows|] == r;
    }
  }

  lemma {:induction false} LeavingKeeps<R(!new), K>(rows: seq<R>, key: R -> K, onward: set<K>)
    ensures forall r :: r in Leaving(rows, key, onward) ==> r in rows
    ensures onward == {} ==> Leaving(rows, key, onward) == Dedup(rows, key)
    decreases |rows|
  {
    hide KeysOf;
    if rows != [] {
      LeavingKeeps(rows[..|rows| - 1], key, onward);
    }
  }

  /** One page drops exactly the repeats and the keys that go on if it hands them over. */
  lemma {:induction false} PageHands<R(!new), K(!new), D>(page: seq<R>, key: R -> K, shown: R -> D, onward: set<K>)
    requires Coarser(page, key, shown)
    ensures Dedup(page, shown) == Leaving(page, key, onward) <==> Handed(page, key, shown, onward)
    decreases |page|
  {
    hide Dedup, Leaving, Handed, KeysOf;
    if page == [] {
      NothingHanded(page, key, shown, onward);
    } else {
      var init, last := page[..|page| - 1], page[|page| - 1];
      assert page == init + [last];
      PageHands(init, key, shown, onward);
      HandedSnoc(init, last, key, shown, onward);
      LeavingSnoc(init, last, key, onward);
      DedupSnoc(init, last, shown);
      LastFresh(init, last, key, shown, onward);
      if key(last) !in KeysOf(init, key) {
        BothOrNeither(Dedup(init, shown), Leaving(init, key, onward), last,
                      shown(last) in KeysOf(init, shown), key(last) in onward);
      }
    }
  }

  lemma NothingHanded<R, K, D>(page: seq<R>, key: R -> K, shown: R -> D, onward: set<K>)
    requires page == []
    ensures Dedup(page, shown) == Leaving(page, key, onward) && Handed(page, key, shown, onward)
  {
  }

  /** A row with a key that was not there is in neither list yet; one with a key that was is shown alike. */
  lemma LastFresh<R(!new), K(!new), D>(init: seq<R>, last: R, key: R -> K, shown: R -> D, onward: set<K>)
    requires Coarser(init + [last], key, shown)
    ensures key(last) in KeysOf(init, key) ==> shown(last) in KeysOf(init, shown)
    ensures key(last) !in KeysOf(init, key) ==>
            last !in Dedup(init, shown) && last !in Leaving(init, key, onward)
  {
    hide Dedup, Leaving;
    DedupKeeps(init, shown);
    LeavingKeeps(init, key, onward);
    var all := init + [last];
    assert all[|init|] == last;
    if key(last) in KeysOf(init, key) {
      var i :| 0 <= i < |init| && key(init[i]) == key(last);
      assert all[i] == init[i];
    }
    if last in init {
      var i :| 0 <= i < |init| && init[i] == last;
      assert key(last) in KeysOf(init, key);
    }
  }

  lemma BothOrNeither<R>(a: seq<R>, b: seq<R>, x: R, p: bool, q: bool)
    requires x !in a && x !in b
    ensures (if p then a else a + [x]) == (if q then b else b + [x]) <==> a == b && p == q
  {
    assert (a + [x])[..|a|] == a && (b + [x])[..|b|] == b;
    assert (a + [x])[|a|] == x && (b + [x])[|b|] == x;
  }

  // All pages

  /** Of the kept rows the last one alone can have the key it has. */
  lemma {:induction false} LeavingLast<R(!new), K(!new)>(rows: seq<R>, key: R -> K, k: K)
    ensures k !in KeysOf(rows, key) ==> Leaving(rows, key, {k}) == Dedup(rows, key)
    ensures var d := Dedup(rows, key);
            d != [] && key(d[|d| - 1]) == k ==> Leaving(rows, key, {k}) == d[..|d| - 1]
    decreases |rows|
  {
    hide Dedup, Leaving, KeysOf;
    if rows == [] {
      NothingYet<R, K>(key);
      NothingLeft<R, K>(key, {k});
    } else {
      var init, last := rows[..|rows| - 1], rows[|rows| - 1];
      assert rows == init + [last];
      LeavingLast(init, key, k);
      LeavingSnoc(init, last, key, {k});
      DedupSnoc(init, last, key);
      KeysSnoc(init, last, key);
    }
  }

  lemma NothingLeft<R, K>(key: R -> K, onward: set<K>)
    ensures Leaving<R, K>([], key, onward) == []
  {
  }

  /** The rows without repeats, cut at a page boundary. */
  lemma DedupAtCut<R(!new), K(!new)>(a: seq<R>, b: seq<R>, key: R -> K, lt: (K, K) -> bool)
    requires StrictOrder(lt) && Ordered(a + b, key, lt) && Determined(a + b, key) && a != [] && b != []
    ensures Dedup(a + b, key) == Leaving(a, key, {key(b[0])}) + Dedup(b, key)
    ensures Dedup(b, key) != [] && Dedup(b, key)[0] == b[0]
  {
    hide Dedup, Leaving, KeysOf, StrictOrder, Ordered, Determined;
    var k := key(b[0]);
    assert (a + b)[..|a + b|] == a + b;
    JoinedRun(a + b, a, b, key, lt);
    LeavingLast(a, key, k);
    CutOrdered(a, b, key, lt);
    SeenAtEnd(a, b[0], key, lt);
    var da, db := Dedup(a, key), Dedup(b, key);
    WindowsJoin(a, b, key, lt);
    if key(a[|a| - 1]) == k {
      assert da[..|da| - 1] + db == da + db[1..];
    }
  }

  lemma CutOrdered<R, K>(a: seq<R>, b: seq<R>, key: R -> K, lt: (K, K) -> bool)
    requires Ordered(a + b, key, lt) && b != []
    ensures Ordered(a + [b[0]], key, lt)
  {
    assert a + [b[0]] == (a + b)[..|a| + 1];
    OrderedFront(a + b, |a| + 1, key, lt);
  }

  /** The first row of a page is served. */
  lemma FirstServed<R(!new), K(!new), D>(rows: seq<R>, limit: nat, shown: R -> D)
    requires limit > 0 && rows != []
    ensures Listed(rows, limit, shown) != [] && Listed(rows, limit, shown)[0] == rows[0]
  {
    hide Dedup;
    var n := if limit < |rows| then limit else |rows|;
    assert rows[..n] == [rows[0]] + rows[1..n];
    ShortDedup([rows[0]], shown);
    DedupGrows([rows[0]], rows[1..n], shown);
  }

  /** Two lists, one without repeated keys, that have the row x behind a front each. */
  lemma CutEqual<R, K>(a: seq<R>, b: seq<R>, c: seq<R>, d: seq<R>, key: R -> K)
    requires b != [] && d != [] && b[0] == d[0] && Apart(c + d, key)
    ensures a + b == c + d <==> a == c && b == d
  {
    if a + b == c + d {
      assert (c + d)[|a|] == (a + b)[|a|] == b[0] && (c + d)[|c|] == d[0];
      assert |a| == |c|;
      assert a == (a + b)[..|a|] && c == (c + d)[..|c|] && b == (a + b)[|a|..] && d == (c + d)[|c|..];
    }
  }

  /** The pages served are the rows without repeats exactly when they hand their keys over. */
  lemma {:induction false} ListedIsDedupIff<R(!new), K(!new), D>(rows: seq<R>, limit: nat, key: R -> K,
                                                                shown: R -> D, lt: (K, K) -> bool)
    requires StrictOrder(lt) && Ordered(rows, key, lt) && Determined(rows, key) && Coarser(rows, key, shown)
    requires limit > 0
    ensures Listed(rows, limit, shown) == Dedup(rows, key) <==> HandedOver(rows, limit, key, shown)
    decreases |rows|
  {
    hide Dedup, Handed, Leaving, StrictOrder, Ordered, Apart;
    if rows == [] {
      NothingYet<R, K>(key);
    } else {
      var n := if limit < |rows| then limit else |rows|;
      var a, b := rows[..n], rows[n..];
      assert rows == a + b;
      assert (forall r :: r in a ==> r in rows) && (forall r :: r in b ==> r in rows);
      PageHands(a, key, shown, Onward(b, key));
      if b == [] {
        LeavingKeeps(a, key, {});
        assert rows == a && Listed(b, limit, shown) == [];
      } else {
        DedupAtCut(a, b, key, lt);
        FirstServed<R, K, D>(b, limit, shown);
        DedupApart(rows, key);
        BackOrdered(a, b, key, lt);
        ListedIsDedupIff(b, limit, key, shown, lt);
        CutEqual(Dedup(a, shown), Listed(b, limit, shown), Leaving(a, key, {key(b[0])}), Dedup(b, key), key);
      }
    }
  }

  lemma BackOrdered<R, K>(a: seq<R>, b: seq<R>, key: R -> K, lt: (K, K) -> bool)
    requires Ordered(a + b, key, lt)
    ensures Ordered(b, key, lt)
  {
    assert forall i :: 0 <= i < |b| ==> b[i] == (a + b)[|a| + i];
  }

  /** Paging to the end through an answer gives the table with FINAL exactly when, on every page, the
      first row of a sort key is passed over just for those keys that go on behind the page. */
  lemma PagesAreFinalIff<R(!new), K(!new), D(!new)>(raw: seq<R>, wanted: R -> bool, key: R -> K, shown: R -> D,
                                                   rev: R -> nat, lt: (K, K) -> bool, rows: seq<R>, final: seq<R>,
                                                   limit: nat)
    requires StrictOrder(lt) && Determined(raw, key) && Coarser(raw, key, shown) && limit > 0
    requires RawAnswer(raw, wanted, key, lt, rows) && FinalAnswer(raw, wanted, key, rev, lt, final)
    ensures Paged(rows, 0, limit, shown) == final <==> HandedOver(rows, limit, key, shown)
  {
    hide Dedup, Listed, Paged, HandedOver, StrictOrder;
    assert rows[0..] == rows;
    PagedIsListed(rows, 0, limit, shown);
    RawReadIsFinal(raw, wanted, key, rev, lt, rows, final);
    ListedIsDedupIff(rows, limit, key, shown, lt);
  }
}
