/** The derived columns of an audit row (internal/model/row.go): the folded previews of headers and
    arguments, and the inspectors of a request spread over columns. A Go map hands out its entries in
    any order; here that order is a parameter, and the results are proved not to depend on it. */
module Preview {
  import opened Lists
  import opened Strings
  import opened Tables
  import opened ReadSide
  import opened Sorting

  // Previews: name and value pairs, possibly repeated, some of them cut

  datatype Pair = Pair(name: string, value: string, truncated: bool)

  /** The values a name came with, in arrival order; `lower` is the name's normal form. */
  function ValuesOf(pairs: seq<Pair>, lower: string -> string, k: string): seq<string> {
    if pairs == [] then []
    else
      var last := pairs[|pairs| - 1];
      ValuesOf(pairs[..|pairs| - 1], lower, k) + if lower(last.name) == k then [last.value] else []
  }

  /** Section 5.3 of RFC 9110: one value, the parts separated by a comma and a space. */
  function Join(values: seq<string>): string
    requires values != []
  {
    if |values| == 1 then values[0]
    else Join(values[..|values| - 1]) + ", " + values[|values| - 1]
  }

  predicate IsCut(pairs: seq<Pair>, lower: string -> string, k: string) {
    exists p :: p in pairs && p.truncated && lower(p.name) == k
  }

  ghost predicate Gathers(pairs: seq<Pair>, lower: string -> string, folded: map<string, string>) {
    && (forall k :: k in folded <==> k != "" && ValuesOf(pairs, lower, k) != [])
    && forall k :: k in folded ==> ValuesOf(pairs, lower, k) != [] && folded[k] == Join(ValuesOf(pairs, lower, k))
  }

  ghost predicate CutsAre(pairs: seq<Pair>, lower: string -> string, cut: seq<string>) {
    forall k :: k in cut <==> k != "" && IsCut(pairs, lower, k)
  }

  lemma ValuesStep(pairs: seq<Pair>, p: Pair, lower: string -> string, k: string)
    ensures ValuesOf(pairs + [p], lower, k)
            == ValuesOf(pairs, lower, k) + if lower(p.name) == k then [p.value] else []
  {
    assert (pairs + [p])[..|pairs|] == pairs;
  }

  lemma JoinStep(values: seq<string>, v: string)
    ensures Join(values + [v]) == if values == [] then v else Join(values) + ", " + v
  {
    assert (values + [v])[..|values|] == values;
  }

  /** The map after one more pair under a name that is not empty. */
  function Added(folded: map<string, string>, name: string, value: string): map<string, string> {
    folded[name := if name in folded then folded[name] + ", " + value else value]
  }

  lemma GatherStep(pairs: seq<Pair>, p: Pair, lower: string -> string, folded: map<string, string>)
    requires Gathers(pairs, lower, folded)
    ensures Gathers(pairs + [p], lower,
                    if lower(p.name) == "" then folded else Added(folded, lower(p.name), p.value))
  {
    hide ValuesOf, Join;
    var name := lower(p.name);
    var all, after := pairs + [p], if name == "" then folded else Added(folded, name, p.value);
    forall k ensures k in after <==> k != "" && ValuesOf(all, lower, k) != [] {
      ValuesStep(pairs, p, lower, k);
    }
    forall k | k in after
      ensures ValuesOf(all, lower, k) != [] && after[k] == Join(ValuesOf(all, lower, k))
    {
      ValuesStep(pairs, p, lower, k);
      JoinStep(ValuesOf(pairs, lower, k), p.value);
      assert name != k ==> ValuesOf(all, lower, k) == ValuesOf(pairs, lower, k);
    }
  }

  lemma CutStep(pairs: seq<Pair>, p: Pair, lower: string -> string, cut: seq<string>)
    requires CutsAre(pairs, lower, cut)
    ensures CutsAre(pairs + [p], lower,
                    if lower(p.name) != "" && p.truncated && lower(p.name) !in cut then cut + [lower(p.name)] else cut)
  {
    var all, name := pairs + [p], lower(p.name);
    forall k ensures IsCut(all, lower, k) <==> IsCut(pairs, lower, k) || (p.truncated && name == k) {
      if IsCut(pairs, lower, k) {
        var q :| q in pairs && q.truncated && lower(q.name) == k;
        assert q in all;
      }
      if p.truncated && name == k {
        assert p in all;
      }
    }
  }

  method FoldPairs(pairs: seq<Pair>, lower: string -> string) returns (folded: map<string, string>, cut: seq<string>)
    ensures Gathers(pairs, lower, folded)
    ensures CutsAre(pairs, lower, cut) && StrictlySorted(cut)
  {
    hide ValuesOf, IsCut, Gathers, CutsAre;
    folded := map[];
    var names: seq<string> := [];
    var seen: set<string> := {};
    var i := 0;
    FoldNone(pairs, lower);
    while i < |pairs|
      invariant 0 <= i <= |pairs|
      invariant Gathers(pairs[..i], lower, folded)
      invariant CutsAre(pairs[..i], lower, names) && Distinct(names)
      invariant forall k :: k in seen <==> k in names
    {
      var p := pairs[i];
      var name := lower(p.name);
      assert pairs[..i + 1] == pairs[..i] + [p];
      GatherStep(pairs[..i], p, lower, folded);
      CutStep(pairs[..i], p, lower, names);
      i := i + 1;
      if name == "" {
        continue;
      }
      if p.truncated && name !in seen {
        seen := seen + {name};
        names := names + [name];
      }
      if name in folded {
        folded := folded[name := folded[name] + ", " + p.value];
      } else {
        folded := folded[name := p.value];
      }
    }
    assert pairs[..|pairs|] == pairs;
    cut := SortedCopy(names);
    CutsSame(pairs, lower, names, cut);
  }

  lemma FoldNone(pairs: seq<Pair>, lower: string -> string)
    ensures Gathers(pairs[..0], lower, map[]) && CutsAre(pairs[..0], lower, [])
  {
  }

  lemma CutsSame(pairs: seq<Pair>, lower: string -> string, names: seq<string>, cut: seq<string>)
    requires CutsAre(pairs, lower, names) && Distinct(names) && cut == Sorted(names)
    ensures CutsAre(pairs, lower, cut) && StrictlySorted(cut)
  {
    SortedLength(names);
    SortedSorts(names);
  }

  /** The contract of FoldPairs leaves one result, which the order of pairs under different names does not touch. */
  lemma FoldDetermined(p: seq<Pair>, q: seq<Pair>, lower: string -> string,
                       a: map<string, string>, b: map<string, string>, s: seq<string>, t: seq<string>)
    requires forall k :: ValuesOf(p, lower, k) == ValuesOf(q, lower, k)
    requires forall k :: IsCut(p, lower, k) <==> IsCut(q, lower, k)
    requires Gathers(p, lower, a) && Gathers(q, lower, b)
    requires CutsAre(p, lower, s) && StrictlySorted(s) && CutsAre(q, lower, t) && StrictlySorted(t)
    ensures a == b && s == t
  {
    hide ValuesOf, IsCut, Less;
    LessStrict();
    forall k ensures k in s <==> k in t {
    }
    OrderUnique(s, t, Itself, Less);
  }

  // What the contract says, told from the pairs

  function Under(lower: string -> string, k: string): Pair -> bool {
    (p: Pair) => lower(p.name) == k
  }

  lemma JoinOne(v: string)
    ensures Join([v]) == v
  {
  }

  lemma {:induction false} ValuesPlaces(pairs: seq<Pair>, lower: string -> string, k: string) returns (at: seq<nat>)
    ensures PlacesOf(pairs, Under(lower, k), at) && |ValuesOf(pairs, lower, k)| == |at|
    ensures forall j :: 0 <= j < |at| ==> at[j] < |pairs| && ValuesOf(pairs, lower, k)[j] == pairs[at[j]].value
  {
    hide ValuesOf, PlacesOf;
    if pairs == [] {
      at := [];
      NoValues(lower, k);
      Lists.NoPlaces(pairs, Under(lower, k));
    } else {
      var init, last := pairs[..|pairs| - 1], pairs[|pairs| - 1];
      assert pairs == init + [last];
      at := ValuesPlaces(init, lower, k);
      ValuesStep(init, last, lower, k);
      PlacesSnoc(init, last, Under(lower, k), at);
      at := if lower(last.name) == k then at + [|init|] else at;
    }
  }

  lemma NoValues(lower: string -> string, k: string)
    ensures ValuesOf([], lower, k) == []
  {
  }

  /** Joined lists join with one comma and space between them. */
  lemma {:induction false} JoinTwo(a: seq<string>, b: seq<string>)
    requires a != [] && b != []
    ensures Join(a + b) == Join(a) + ", " + Join(b)
    ensures Join([a[0]]) == a[0]
    decreases |b|
  {
    hide Join;
    JoinOne(a[0]);
    var init, last := b[..|b| - 1], b[|b| - 1];
    assert b == init + [last] && a + b == (a + init) + [last];
    JoinStep(a + init, last);
    JoinStep(init, last);
    if init == [] {
      assert a + init == a;
    } else {
      JoinTwo(a, init);
    }
  }

  /** A preview has an entry for every name but the empty one: the values that came under it, in order, one
      comma and space between two; and a name is listed as cut exactly if one of them was. */
  lemma FoldTells(pairs: seq<Pair>, lower: string -> string, folded: map<string, string>, cut: seq<string>, k: string)
    returns (at: seq<nat>)
    requires Gathers(pairs, lower, folded) && CutsAre(pairs, lower, cut)
    ensures PlacesOf(pairs, Under(lower, k), at)
    ensures k in folded <==> k != "" && at != []
    ensures k in folded ==> |at| > 0 && folded[k] == Join(seq(|at|, j requires 0 <= j < |at| =>
                                                                if at[j] < |pairs| then pairs[at[j]].value else ""))
    ensures k in cut <==> k != "" && exists i :: 0 <= i < |pairs| && pairs[i].truncated && lower(pairs[i].name) == k
  {
    hide ValuesOf, Join;
    at := ValuesPlaces(pairs, lower, k);
    var values := ValuesOf(pairs, lower, k);
    assert values == seq(|at|, j requires 0 <= j < |at| => if at[j] < |pairs| then pairs[at[j]].value else "");
    if i :| 0 <= i < |pairs| && pairs[i].truncated && lower(pairs[i].name) == k {
      assert pairs[i] in pairs;
    }
  }
}
