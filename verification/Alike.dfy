/** Pages told by relations: which rows have one sort key, and which are shown alike. */
module Alike {
  import opened ReadSide
  import opened FinalPages

  /** Rows of the page that are shown alike have one sort key. */
  ghost predicate TellsBy<R(!new)>(page: seq<R>, same: (R, R) -> bool, alike: (R, R) -> bool) {
    forall a, b :: a in page && b in page && alike(a, b) ==> same(a, b)
  }

  ghost predicate PagesTellBy<R(!new)>(rows: seq<R>, limit: nat, same: (R, R) -> bool, alike: (R, R) -> bool)
    requires limit > 0
    decreases |rows|
  {
    rows == [] ||
    var n := if limit < |rows| then limit else |rows|;
    TellsBy(rows[..n], same, alike) && PagesTellBy(rows[n..], limit, same, alike)
  }

  /** No row before place i is in the relation to the one there. */
  ghost predicate NoneBefore<R>(page: seq<R>, i: nat, rel: (R, R) -> bool)
    requires i < |page|
  {
    forall j :: 0 <= j < i ==> !rel(page[j], page[i])
  }

  /** The first row of a sort key on the page is passed over, for one before it that is shown alike, exactly
      if the next page begins with the same key. */
  ghost predicate HandedBy<R>(page: seq<R>, rest: seq<R>, same: (R, R) -> bool, alike: (R, R) -> bool) {
    forall i :: 0 <= i < |page| && NoneBefore(page, i, same) ==>
      (!NoneBefore(page, i, alike) <==> rest != [] && same(page[i], rest[0]))
  }

  ghost predicate HandedOverBy<R>(rows: seq<R>, limit: nat, same: (R, R) -> bool, alike: (R, R) -> bool)
    requires limit > 0
    decreases |rows|
  {
    rows == [] ||
    var n := if limit < |rows| then limit else |rows|;
    HandedBy(rows[..n], rows[n..], same, alike) && HandedOverBy(rows[n..], limit, same, alike)
  }

  /** The relation is that of having one value. */
  ghost predicate Compares<R(!new), K>(rel: (R, R) -> bool, value: R -> K) {
    forall a, b :: rel(a, b) <==> value(a) == value(b)
  }

  lemma TellsIff<R(!new), K, D>(page: seq<R>, key: R -> K, shown: R -> D, same: (R, R) -> bool,
                                alike: (R, R) -> bool)
    requires Compares(same, key) && Compares(alike, shown)
    ensures Tells(page, key, shown) <==> TellsBy(page, same, alike)
  {
  }

  lemma NoneBeforeIff<R(!new), K>(page: seq<R>, i: nat, rel: (R, R) -> bool, value: R -> K)
    requires Compares(rel, value) && i < |page|
    ensures NoneBefore(page, i, rel) <==> value(page[i]) !in KeysOf(page[..i], value)
  {
    if !NoneBefore(page, i, rel) {
      var j :| 0 <= j < i && rel(page[j], page[i]);
      assert page[..i][j] == page[j];
    }
    if value(page[i]) in KeysOf(page[..i], value) {
      var j :| 0 <= j < i && value(page[..i][j]) == value(page[i]);
      assert rel(page[j], page[i]);
    }
  }

  lemma HandedIff<R(!new), K, D>(page: seq<R>, rest: seq<R>, key: R -> K, shown: R -> D, same: (R, R) -> bool,
                                 alike: (R, R) -> bool)
    requires Compares(same, key) && Compares(alike, shown)
    ensures Handed(page, key, shown, Onward(rest, key)) <==> HandedBy(page, rest, same, alike)
  {
    hide KeysOf, NoneBefore;
    forall i | 0 <= i < |page|
      ensures NoneBefore(page, i, same) <==> key(page[i]) !in KeysOf(page[..i], key)
      ensures NoneBefore(page, i, alike) <==> shown(page[i]) !in KeysOf(page[..i], shown)
    {
      NoneBeforeIff(page, i, same, key);
      NoneBeforeIff(page, i, alike, shown);
    }
  }

  lemma {:induction false} PagesTellByIff<R(!new), K, D>(rows: seq<R>, limit: nat, key: R -> K, shown: R -> D,
                                                         same: (R, R) -> bool, alike: (R, R) -> bool)
    requires limit > 0 && Compares(same, key) && Compares(alike, shown)
    ensures PagesTell(rows, limit, key, shown) <==> PagesTellBy(rows, limit, same, alike)
    ensures HandedOver(rows, limit, key, shown) <==> HandedOverBy(rows, limit, same, alike)
    decreases |rows|
  {
    hide Compares, Tells, TellsBy, Handed, HandedBy;
    if rows != [] {
      var n := if limit < |rows| then limit else |rows|;
      TellsIff(rows[..n], key, shown, same, alike);
      HandedIff(rows[..n], rows[n..], key, shown, same, alike);
      PagesTellByIff(rows[n..], limit, key, shown, same, alike);
    }
  }

  /** Every row of a page is served, or one that is shown alike; and no two rows served are shown alike. */
  lemma ServedBy<R(!new), D>(page: seq<R>, shown: R -> D, alike: (R, R) -> bool)
    requires Compares(alike, shown)
    ensures forall r :: r in page ==> exists s :: s in Dedup(page, shown) && s in page && alike(s, r)
    ensures var served := Dedup(page, shown);
            forall i, j :: 0 <= i < j < |served| ==> !alike(served[i], served[j])
  {
    hide Dedup, Compares, KeysOf;
    forall r | r in page ensures exists s :: s in Dedup(page, shown) && s in page && alike(s, r) {
      var s := OneServed(page, shown, alike, r);
    }
    ServedApart(page, shown, alike);
  }

  lemma OneServed<R(!new), D>(page: seq<R>, shown: R -> D, alike: (R, R) -> bool, r: R) returns (s: R)
    requires Compares(alike, shown) && r in page
    ensures s in Dedup(page, shown) && s in page && alike(s, r)
  {
    hide Dedup, KeysOf;
    DedupKeeps(page, shown);
    var i := Representative(page, shown, r);
    s := Dedup(page, shown)[i];
  }

  lemma ServedApart<R(!new), D>(page: seq<R>, shown: R -> D, alike: (R, R) -> bool)
    requires Compares(alike, shown)
    ensures var served := Dedup(page, shown);
            forall i, j :: 0 <= i < j < |served| ==> !alike(served[i], served[j])
  {
    hide Dedup;
    DedupApart(page, shown);
  }
}
