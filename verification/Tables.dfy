/** ReplacingMergeTree(rev): what a read with FINAL sees of a raw table. */
module Tables {

  /** Of the raw rows with one sort key the last one with the greatest revision is left. */
  function Collapse<K, R>(raw: seq<R>, key: R -> K, rev: R -> nat): map<K, R> {
    if raw == [] then map[]
    else
      var kept := Collapse(raw[..|raw| - 1], key, rev);
      var r := raw[|raw| - 1];
      if key(r) in kept && rev(kept[key(r)]) > rev(r) then kept else kept[key(r) := r]
  }

  /** Rows with equal keys are equal. */
  ghost predicate Determined<K, R>(rows: seq<R>, key: R -> K) {
    forall a, b :: a in rows && b in rows && key(a) == key(b) ==> a == b
  }

  ghost predicate SameRows<R(!new)>(a: seq<R>, b: seq<R>) {
    forall r :: r in a <==> r in b
  }

  /** Every raw key survives once, with a raw row of that key and the greatest revision. */
  lemma {:induction false} CollapseHolds<K, R>(raw: seq<R>, key: R -> K, rev: R -> nat)
    ensures var c := Collapse(raw, key, rev);
            && (forall k :: k in c ==> c[k] in raw && key(c[k]) == k)
            && (forall r :: r in raw ==> key(r) in c && rev(r) <= rev(c[key(r)]))
  {
    if raw != [] {
      var init := raw[..|raw| - 1];
      CollapseHolds(init, key, rev);
      assert forall r :: r in raw <==> r in init || r == raw[|raw| - 1];
    }
  }

  /** Row i has the key, no row of the key before it is of a greater revision, and every one behind it is of
      a lesser one. */
  ghost predicate LastBest<K, R>(raw: seq<R>, key: R -> K, rev: R -> nat, k: K, i: nat) {
    && i < |raw| && key(raw[i]) == k
    && (forall j :: 0 <= j < i && key(raw[j]) == k ==> rev(raw[j]) <= rev(raw[i]))
    && (forall j :: i < j < |raw| && key(raw[j]) == k ==> rev(raw[j]) < rev(raw[i]))
  }

  lemma LastBestSnoc<K, R>(raw: seq<R>, r: R, key: R -> K, rev: R -> nat, k: K, i: nat)
    requires LastBest(raw, key, rev, k, i) && (key(r) == k ==> rev(r) < rev(raw[i]))
    ensures LastBest(raw + [r], key, rev, k, i)
  {
  }

  /** What survives of a key is its row of the greatest revision that was inserted last. */
  lemma {:induction false} CollapseKeepsLast<K, R>(raw: seq<R>, key: R -> K, rev: R -> nat, k: K) returns (i: nat)
    requires k in Collapse(raw, key, rev)
    ensures LastBest(raw, key, rev, k, i) && raw[i] == Collapse(raw, key, rev)[k]
  {
    hide LastBest;
    var init, last := raw[..|raw| - 1], raw[|raw| - 1];
    var kept := Collapse(init, key, rev);
    assert raw == init + [last];
    if key(last) == k && !(k in kept && rev(kept[k]) > rev(last)) {
      CollapseHolds(init, key, rev);
      i := |init|;
      LastIsBest(init, last, key, rev, k);
    } else {
      i := CollapseKeepsLast(init, key, rev, k);
      BestInside(init, key, rev, k, i);
      LastBestSnoc(init, last, key, rev, k, i);
    }
  }

  lemma BestInside<K, R>(raw: seq<R>, key: R -> K, rev: R -> nat, k: K, i: nat)
    requires LastBest(raw, key, rev, k, i)
    ensures i < |raw|
  {
  }

  lemma LastIsBest<K, R>(init: seq<R>, last: R, key: R -> K, rev: R -> nat, k: K)
    requires key(last) == k && forall r :: r in init && key(r) == k ==> rev(r) <= rev(last)
    ensures LastBest(init + [last], key, rev, k, |init|)
  {
    assert forall j :: 0 <= j < |init| ==> (init + [last])[j] in init;
  }

  /** A read with FINAL shows every raw row exactly when the key determines the row. */
  lemma FinalShowsAllIff<K, R(!new)>(raw: seq<R>, key: R -> K, rev: R -> nat)
    ensures (forall r :: r in raw <==> r in Collapse(raw, key, rev).Values) <==> Determined(raw, key)
  {
    CollapseHolds(raw, key, rev);
    var c := Collapse(raw, key, rev);
    if Determined(raw, key) {
      forall r | r in raw ensures r in c.Values {
        assert c[key(r)] == r;
      }
    }
    if forall r :: r in raw <==> r in c.Values {
      forall a, b | a in raw && b in raw && key(a) == key(b) ensures a == b {
        assert a in c.Values && b in c.Values;
      }
    }
  }

  /** Order and repetition of raw rows do not show, given that the key determines the row. */
  lemma CollapseIgnoresRepeats<K, R(!new)>(a: seq<R>, b: seq<R>, key: R -> K, rev: R -> nat)
    requires SameRows(a, b) && Determined(a, key)
    ensures Collapse(a, key, rev) == Collapse(b, key, rev)
  {
    CollapseHolds(a, key, rev);
    CollapseHolds(b, key, rev);
    var ca, cb := Collapse(a, key, rev), Collapse(b, key, rev);
    forall k | k in ca ensures k in cb && ca[k] == cb[k] {
      assert ca[k] in b;
    }
    forall k | k in cb ensures k in ca {
      assert cb[k] in a;
    }
  }

  lemma CollapseTwo<K, R>(a: R, b: R, key: R -> K, rev: R -> nat)
    requires key(a) != key(b)
    ensures Collapse([a, b], key, rev) == map[key(a) := a, key(b) := b]
    ensures |Collapse([a, b], key, rev)| == 2
  {
    assert [a, b][..1] == [a] && [a][..0] == [];
    assert Collapse([a], key, rev) == map[key(a) := a];
    assert map[key(a) := a, key(b) := b].Keys == {key(a), key(b)};
  }
}
