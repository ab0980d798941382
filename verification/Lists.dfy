/** Lists filtered and flattened in order. */
module Lists {

  function Filtered<T>(xs: seq<T>, keep: T -> bool): seq<T> {
    if xs == [] then []
    else Filtered(xs[..|xs| - 1], keep) + if keep(xs[|xs| - 1]) then [xs[|xs| - 1]] else []
  }

  lemma FilteredNone<T>(keep: T -> bool)
    ensures Filtered([], keep) == []
  {
  }

  lemma FilteredSnoc<T>(xs: seq<T>, x: T, keep: T -> bool)
    ensures Filtered(xs + [x], keep) == if keep(x) then Filtered(xs, keep) + [x] else Filtered(xs, keep)
  {
    assert (xs + [x])[..|xs|] == xs;
  }

  lemma {:induction false} FilteredMembers<T(!new)>(xs: seq<T>, keep: T -> bool)
    ensures forall x :: x in Filtered(xs, keep) <==> x in xs && keep(x)
  {
    if xs != [] {
      FilteredMembers(xs[..|xs| - 1], keep);
      assert xs == xs[..|xs| - 1] + [xs[|xs| - 1]];
    }
  }

  /** The places of the elements that are kept, all of them, in order. */
  ghost predicate PlacesOf<T>(xs: seq<T>, keep: T -> bool, at: seq<nat>) {
    && (forall k :: 0 <= k < |at| ==> at[k] < |xs| && keep(xs[at[k]]))
    && (forall j, k :: 0 <= j < k < |at| ==> at[j] < at[k])
    && (forall i :: 0 <= i < |xs| && keep(xs[i]) ==> i in at)
  }

  lemma PlacesSnoc<T>(xs: seq<T>, x: T, keep: T -> bool, at: seq<nat>)
    requires PlacesOf(xs, keep, at)
    ensures PlacesOf(xs + [x], keep, if keep(x) then at + [|xs|] else at)
  {
    var all := if keep(x) then at + [|xs|] else at;
    forall i | 0 <= i < |xs + [x]| && keep((xs + [x])[i]) ensures i in all {
      if i < |xs| {
        assert i in at;
      } else {
        assert all[|at|] == i;
      }
    }
  }

  /** A filtered list is what stands at these places. */
  lemma {:induction false} FilteredPlaces<T>(xs: seq<T>, keep: T -> bool) returns (at: seq<nat>)
    ensures PlacesOf(xs, keep, at) && |Filtered(xs, keep)| == |at|
    ensures forall k :: 0 <= k < |at| ==> at[k] < |xs| && Filtered(xs, keep)[k] == xs[at[k]]
  {
    hide Filtered, PlacesOf;
    if xs == [] {
      at := [];
      FilteredNone(keep);
      NoPlaces(xs, keep);
    } else {
      var init, last := xs[..|xs| - 1], xs[|xs| - 1];
      assert xs == init + [last];
      at := FilteredPlaces(init, keep);
      FilteredSnoc(init, last, keep);
      PlacesSnoc(init, last, keep, at);
      at := if keep(last) then at + [|init|] else at;
    }
  }

  lemma NoPlaces<T>(xs: seq<T>, keep: T -> bool)
    requires xs == []
    ensures PlacesOf(xs, keep, [])
  {
  }

  lemma {:induction false} AllKept<T>(xs: seq<T>, keep: T -> bool)
    requires forall i :: 0 <= i < |xs| ==> keep(xs[i])
    ensures Filtered(xs, keep) == xs
  {
    if xs != [] {
      AllKept(xs[..|xs| - 1], keep);
      assert xs == xs[..|xs| - 1] + [xs[|xs| - 1]];
    }
  }

  lemma {:induction false} FilteredPrefix<T>(a: seq<T>, b: seq<T>, keep: T -> bool)
    ensures Filtered(a, keep) <= Filtered(a + b, keep)
    decreases |b|
  {
    if b == [] {
      assert a + b == a;
    } else {
      FilteredPrefix(a, b[..|b| - 1], keep);
      assert a + b == (a + b[..|b| - 1]) + [b[|b| - 1]];
      FilteredSnoc(a + b[..|b| - 1], b[|b| - 1], keep);
    }
  }

  /** A filter shortens a list unless it keeps all of it. */
  lemma {:induction false} FilteredShorter<T>(xs: seq<T>, keep: T -> bool)
    ensures |Filtered(xs, keep)| <= |xs|
    ensures |Filtered(xs, keep)| == |xs| <==> forall i :: 0 <= i < |xs| ==> keep(xs[i])
  {
    if xs != [] {
      FilteredShorter(xs[..|xs| - 1], keep);
    }
  }

  /** Lists that are no longer join to the same only if they are the same. */
  lemma JoinedEqual<T>(a: seq<T>, b: seq<T>, c: seq<T>, d: seq<T>)
    requires |a| <= |c| && |b| <= |d|
    ensures |a| == |c| && |b| == |d| <==> |a + b| == |c + d|
    ensures a + b == c + d <==> a == c && b == d
  {
    if a + b == c + d {
      assert |a + b| == |c + d|;
      assert a == (a + b)[..|a|] && c == (c + d)[..|c|];
      assert b == (a + b)[|a|..] && d == (c + d)[|c|..];
    }
  }

  function Capped<T>(xs: seq<T>, max: nat): seq<T> {
    if |xs| > max then xs[..max] else xs
  }

  /** The value of a map at a key, as Go and the database read it: the zero value where there is none. */
  function Get<K, T>(m: map<K, T>, key: K, zero: T): T {
    if key in m then m[key] else zero
  }
}
