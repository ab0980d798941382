/** The insertion sort of internal/model/row.go (`sortStrings`) and internal/query/card.go
    (`sortedKeys`), in place on an array. */
module Sorting {
  import opened Lists
  import opened Strings
  import opened Tables
  import opened ReadSide

  /** Puts x behind the last element that is not greater. */
  function Insert(s: seq<string>, x: string): seq<string> {
    if s == [] || !Less(x, s[|s| - 1]) then s + [x]
    else Insert(s[..|s| - 1], x) + [s[|s| - 1]]
  }

  function Sorted(s: seq<string>): seq<string> {
    if s == [] then [] else Insert(Sorted(s[..|s| - 1]), s[|s| - 1])
  }

  lemma {:induction false} InsertLength(s: seq<string>, x: string)
    ensures |Insert(s, x)| == |s| + 1
    ensures forall y :: y in Insert(s, x) <==> y in s || y == x
    ensures multiset(Insert(s, x)) == multiset(s) + multiset{x}
  {
    if s != [] && Less(x, s[|s| - 1]) {
      InsertLength(s[..|s| - 1], x);
      assert s == s[..|s| - 1] + [s[|s| - 1]];
    }
  }

  lemma {:induction false} SortedLength(s: seq<string>)
    ensures |Sorted(s)| == |s|
    ensures forall y :: y in Sorted(s) <==> y in s
    ensures multiset(Sorted(s)) == multiset(s)
  {
    if s != [] {
      SortedLength(s[..|s| - 1]);
      InsertLength(Sorted(s[..|s| - 1]), s[|s| - 1]);
      assert s == s[..|s| - 1] + [s[|s| - 1]];
    }
  }

  /** The list with its element i moved down to place j. */
  function Moved(s: seq<string>, i: nat, j: nat): seq<string>
    requires j <= i < |s|
  {
    s[..j] + [s[i]] + s[j..i] + s[i + 1..]
  }

  lemma SwapMoves(s: seq<string>, i: nat, j: nat)
    requires 0 < j <= i < |s|
    ensures Moved(s, i, j)[j] == s[i] && Moved(s, i, j)[j - 1] == s[j - 1]
    ensures Moved(s, i, j)[j := s[j - 1]][j - 1 := s[i]] == Moved(s, i, j - 1)
  {
  }

  lemma InsertStep(s: seq<string>, x: string, i: nat, j: nat)
    requires 0 < j <= i <= |s| && Less(x, s[j - 1])
    ensures Insert(s[..j], x) + s[j..i] == Insert(s[..j - 1], x) + s[j - 1..i]
  {
    hide Less;
    assert s[..j][..j - 1] == s[..j - 1] && s[..j][j - 1] == s[j - 1];
    assert s[j - 1..i] == [s[j - 1]] + s[j..i];
  }

  lemma InsertDone(s: seq<string>, i: nat, j: nat)
    requires j <= i < |s| && (j == 0 || !Less(s[i], s[j - 1]))
    ensures Insert(s[..j], s[i]) + s[j..i] + s[i + 1..] == Moved(s, i, j)
  {
    hide Less;
  }

  lemma SortedStep(was: seq<string>, now: seq<string>, i: nat, after: seq<string>)
    requires |was| == |now| && i < |was|
    requires now == Sorted(was[..i]) + was[i..]
    requires |Sorted(was[..i])| == i
    requires after == Insert(now[..i], now[i]) + now[i + 1..]
    ensures after == Sorted(was[..i + 1]) + was[i + 1..]
  {
    hide Insert;
    assert was[..i + 1][..i] == was[..i] && was[..i + 1][i] == was[i] == now[i];
    assert now[..i] == Sorted(was[..i]);
    assert now[i + 1..] == was[i + 1..];
  }

  method SortStrings(a: array<string>)
    modifies a
    ensures a[..] == Sorted(old(a[..]))
  {
    hide Less, Insert, Sorted, Moved;
    ghost var was := a[..];
    if a.Length == 0 {
      SortedOne(was);
      return;
    }
    SortedOne(was);
    var i := 1;
    while i < a.Length
      invariant 1 <= i <= a.Length
      invariant a[..] == Sorted(was[..i]) + was[i..]
    {
      ghost var now := a[..];
      SortedLength(was[..i]);
      var j := i;
      MovedNot(now, i);
      while j > 0 && Less(a[j], a[j - 1])
        invariant 0 <= j <= i
        invariant a[..] == Moved(now, i, j)
        invariant Insert(now[..i], now[i]) == Insert(now[..j], now[i]) + now[j..i]
      {
        SwapMoves(now, i, j);
        assert a[..][j] == now[i] && a[..][j - 1] == now[j - 1];
        InsertStep(now, now[i], i, j);
        a[j], a[j - 1] := a[j - 1], a[j];
        j := j - 1;
      }
      if j > 0 {
        SwapMoves(now, i, j);
        assert a[..][j] == now[i] && a[..][j - 1] == now[j - 1];
      }
      InsertDone(now, i, j);
      SortedStep(was, now, i, a[..]);
      i := i + 1;
    }
    assert was[..a.Length] == was && a[..] == Sorted(was) + [];
  }

  method SortedCopy(names: seq<string>) returns (sorted: seq<string>)
    ensures sorted == Sorted(names)
  {
    var a := new string[|names|](i requires 0 <= i < |names| => names[i]);
    assert a[..] == names;
    SortStrings(a);
    sorted := a[..];
  }

  lemma SortedOne(s: seq<string>)
    ensures Sorted([]) == []
    ensures s != [] ==> Sorted(s[..1]) + s[1..] == s
  {
    if s != [] {
      assert s[..1] == [s[0]] && s[..1][..0] == [];
      assert s == [s[0]] + s[1..];
    }
  }

  lemma MovedNot(s: seq<string>, i: nat)
    requires i < |s|
    ensures Moved(s, i, i) == s
    ensures Insert(s[..i], s[i]) == Insert(s[..i], s[i]) + s[i..i]
  {
    hide Insert;
  }

  // Sorted lists of distinct names

  function Itself(s: string): string { s }

  predicate Distinct(s: seq<string>) {
    forall i, j :: 0 <= i < j < |s| ==> s[i] != s[j]
  }

  ghost predicate StrictlySorted(s: seq<string>) {
    forall i, j :: 0 <= i < j < |s| ==> Less(s[i], s[j])
  }

  lemma {:induction false} LessStrict()
    ensures StrictOrder(Less)
  {
    forall a, b ensures (a == b || Less(a, b) || Less(b, a)) && !(Less(a, b) && Less(b, a)) {
      LessTrichotomy(a, b);
    }
    forall a, b, c | Less(a, b) && Less(b, c) ensures Less(a, c) {
      LessTransitive(a, b, c);
    }
  }

  lemma SortedBefore(s: seq<string>, last: string)
    requires StrictlySorted(s) && forall y :: y in s ==> Less(y, last)
    ensures StrictlySorted(s + [last])
  {
    hide Less;
    var t := s + [last];
    forall i, j | 0 <= i < j < |t| ensures Less(t[i], t[j]) {
      assert t[i] == s[i] && s[i] in s;
    }
  }

  lemma SortedInit(s: seq<string>)
    requires StrictlySorted(s) && s != []
    ensures StrictlySorted(s[..|s| - 1])
  {
    hide Less;
  }

  lemma BeforeLast(s: seq<string>, y: string)
    requires StrictlySorted(s) && s != [] && y in s && y != s[|s| - 1]
    ensures Less(y, s[|s| - 1])
  {
    hide Less;
    var i :| 0 <= i < |s| && s[i] == y;
  }

  lemma {:induction false} InsertSorts(s: seq<string>, x: string)
    requires StrictlySorted(s) && x !in s
    ensures StrictlySorted(Insert(s, x))
  {
    hide Less, StrictlySorted;
    if s == [] {
      OneSorted(x);
    } else {
      var init, last := s[..|s| - 1], s[|s| - 1];
      SortedInit(s);
      assert s == init + [last];
      if Less(x, last) {
        InsertSorts(init, x);
        InsertLength(init, x);
        forall y | y in Insert(init, x) ensures Less(y, last) {
          if y != x {
            InitDiffers(s, y);
            BeforeLast(s, y);
          }
        }
        SortedBefore(Insert(init, x), last);
      } else {
        LessTrichotomy(x, last);
        forall y | y in s ensures Less(y, x) {
          if y != last {
            BeforeLast(s, y);
            LessTransitive(y, last, x);
          }
        }
        SortedBefore(s, x);
      }
    }
  }

  lemma InitDiffers(s: seq<string>, y: string)
    requires StrictlySorted(s) && s != [] && y in s[..|s| - 1]
    ensures y in s && y != s[|s| - 1]
  {
    hide Less;
    var i :| 0 <= i < |s| - 1 && s[..|s| - 1][i] == y;
    LessIrreflexive(y);
    assert Less(s[i], s[|s| - 1]);
  }

  lemma OneSorted(x: string)
    ensures StrictlySorted(Insert([], x))
  {
  }

  lemma {:induction false} SortedSorts(s: seq<string>)
    requires Distinct(s)
    ensures StrictlySorted(Sorted(s))
  {
    if s != [] {
      var init, last := s[..|s| - 1], s[|s| - 1];
      assert Distinct(init);
      SortedSorts(init);
      SortedLength(init);
      assert last !in init;
      InsertSorts(Sorted(init), last);
    }
  }

  /** Two enumerations of the same names sort alike. */
  lemma SortedAlike(s: seq<string>, t: seq<string>)
    requires Distinct(s) && Distinct(t) && SameRows(s, t)
    ensures Sorted(s) == Sorted(t)
  {
    LessStrict();
    SortedSorts(s);
    SortedSorts(t);
    SortedLength(s);
    SortedLength(t);
    OrderUnique(Sorted(s), Sorted(t), Itself, Less);
  }

  lemma {:induction false} FilteredDistinct(names: seq<string>, keep: string -> bool)
    requires Distinct(names)
    ensures Distinct(Filtered(names, keep))
    ensures forall k :: k in Filtered(names, keep) <==> k in names && keep(k)
  {
    FilteredMembers(names, keep);
    if names != [] {
      var init, last := names[..|names| - 1], names[|names| - 1];
      assert Distinct(init) && last !in init;
      FilteredDistinct(init, keep);
    }
  }

  lemma {:induction false} FilteredSorted(names: seq<string>, keep: string -> bool)
    requires StrictlySorted(names)
    ensures StrictlySorted(Filtered(names, keep))
  {
    hide Less;
    if names != [] {
      var init, last := names[..|names| - 1], names[|names| - 1];
      assert forall i :: 0 <= i < |init| ==> init[i] == names[i];
      FilteredSorted(init, keep);
      FilteredMembers(init, keep);
      var kept := Filtered(init, keep);
      forall i | 0 <= i < |kept| ensures Less(kept[i], last) {
        assert kept[i] in init;
      }
    }
  }

  // The strictly sorted list of a set

  ghost function InOrder(names: set<string>): (s: seq<string>)
    ensures StrictlySorted(s)
    ensures forall k :: k in s <==> k in names
  {
    if names == {} then []
    else
      var x :| x in names;
      var rest := InOrder(names - {x});
      InsertSorts(rest, x);
      InsertLength(rest, x);
      Insert(rest, x)
  }

  lemma InOrderUnique(names: set<string>, s: seq<string>)
    requires StrictlySorted(s) && forall k :: k in s <==> k in names
    ensures s == InOrder(names)
  {
    hide Less;
    LessStrict();
    OrderUnique(s, InOrder(names), Itself, Less);
  }

  /** sortedKeys: the keys, in whatever order the map hands them out, sorted. */
  method SortedKeys<T>(m: map<string, T>) returns (names: seq<string>)
    ensures names == InOrder(m.Keys)
  {
    hide Sorted, Less;
    var order: seq<string> := [];
    var rest := m.Keys;
    while rest != {}
      invariant Distinct(order) && rest <= m.Keys
      invariant forall k :: k in order <==> k in m.Keys && k !in rest
      decreases |rest|
    {
      var k :| k in rest;
      rest := rest - {k};
      order := order + [k];
    }
    names := SortedCopy(order);
    SortedSorts(order);
    SortedLength(order);
    InOrderUnique(m.Keys, names);
  }

  // Names without repeats

  lemma KeysAreNames(names: seq<string>)
    ensures KeysOf(names, Itself) == set n | n in names
  {
    forall n | n in names ensures n in KeysOf(names, Itself) {
      var i :| 0 <= i < |names| && names[i] == n;
      assert Itself(names[i]) == n;
    }
  }

  lemma {:induction false} DedupDistinct(names: seq<string>)
    ensures Distinct(Dedup(names, Itself))
    ensures names != [] ==> Dedup(names, Itself) != [] && Dedup(names, Itself)[0] == names[0]
  {
    if names != [] {
      var init, last := names[..|names| - 1], names[|names| - 1];
      DedupDistinct(init);
      DedupKeeps(init, Itself);
      var kept := Dedup(init, Itself);
      if last !in KeysOf(init, Itself) {
        forall i | 0 <= i < |kept| ensures kept[i] != last {
          assert Itself(kept[i]) in KeysOf(kept, Itself);
        }
      } else {
        assert init != [];
      }
    }
  }

  lemma {:induction false} DistinctKept(names: seq<string>)
    requires Distinct(names)
    ensures Dedup(names, Itself) == names
  {
    if names != [] {
      var init, last := names[..|names| - 1], names[|names| - 1];
      assert Distinct(init) && last !in init;
      DistinctKept(init);
      KeysAreNames(init);
    }
  }
}
