/** The inspectors of a request, a JSON object, spread over the columns of its audit row
    (internal/model/row.go). The order in which the map hands out its names is a parameter. */
module Spread {
  import opened JsonObject
  import opened Lists
  import opened Strings
  import opened Tables
  import opened ReadSide
  import opened Sorting
  import opened Preview

  const SELF := "module"

  /** What one inspector said; an absent text is empty, and `rewrite` is a raw JSON text. */
  datatype Entry = Entry(verdict: string, state: string, score: Maybe<int>, latency: Maybe<real>,
                         role: string, profile: string, rewrite: string)

  datatype Columns = Columns(names: seq<string>, verdict: map<string, string>, state: map<string, string>,
                             score: map<string, int>, latency: map<string, real>, role: map<string, string>,
                             profile: map<string, string>, rewrite: string)

  function Text(s: string): Maybe<string> {
    if s == "" then Nothing else Just(s)
  }

  function Verdict(e: Entry): Maybe<string> { Text(e.verdict) }
  function State(e: Entry): Maybe<string> { Text(e.state) }
  function Score(e: Entry): Maybe<int> { e.score }
  function Latency(e: Entry): Maybe<real> { e.latency }
  function Role(e: Entry): Maybe<string> { Text(e.role) }
  function Profile(e: Entry): Maybe<string> { Text(e.profile) }
  function Rewritten(e: Entry): Maybe<string> { if e.rewrite == "null" then Nothing else Text(e.rewrite) }

  /** The column of one field: the entries that carry it. */
  function Column<T>(items: map<string, Entry>, field: Entry -> Maybe<T>): map<string, T> {
    map k | k in items && field(items[k]).Just? :: field(items[k]).value
  }

  ghost predicate Enumerates<T>(order: seq<string>, items: map<string, T>) {
    Distinct(order) && forall k :: k in order <==> k in items
  }

  predicate Outside(name: string) { name != SELF }

  // The rewrite object

  /** The members of the object, in the order of `names`. */
  function MembersOf(names: seq<string>, items: map<string, string>): (ms: seq<Member>)
    requires forall n :: n in names ==> n in items
    ensures |ms| == |names| && forall i :: 0 <= i < |names| ==> ms[i] == Member(names[i], items[names[i]])
  {
    seq(|names|, i requires 0 <= i < |names| => Member(names[i], items[names[i]]))
  }

  function ObjectText(order: seq<string>, items: map<string, string>): string
    requires Enumerates(order, items)
  {
    SortedLength(order);
    if order == [] then "" else "{" + MembersText(MembersOf(Sorted(order), items)) + "}"
  }

  lemma EmptyTogether<T>(order: seq<string>, items: map<string, T>)
    requires Enumerates(order, items)
    ensures |items| == 0 <==> order == []
  {
    assert order != [] ==> order[0] in order;
    if |items| != 0 {
      var k :| k in items;
      assert k in order;
    }
  }

  lemma MembersStep(ms: seq<Member>, i: nat)
    requires i < |ms|
    ensures var text, m := "{" + MembersText(ms[..i]), ms[i];
            "{" + MembersText(ms[..i + 1])
            == (if i == 0 then text else text + ",") + Quote(m.name) + ":" + m.value
    ensures MembersText(ms[..0]) == ""
  {
    hide Quote;
    assert ms[..i + 1][..i] == ms[..i];
  }

  method FoldRewrites(items: map<string, string>, order: seq<string>) returns (text: string)
    requires Enumerates(order, items)
    ensures text == ObjectText(order, items)
  {
    hide Sorted, MembersText, Less, Quote;
    EmptyTogether(order, items);
    if |items| == 0 {
      return "";
    }
    var names := SortedCopy(order);
    SortedLength(order);
    assert forall n :: n in names ==> n in items;
    hide Enumerates;
    ghost var ms := MembersOf(names, items);
    text := "{";
    MembersStep(ms, 0);
    var i := 0;
    while i < |names|
      invariant 0 <= i <= |names|
      invariant text == "{" + MembersText(ms[..i])
    {
      MembersStep(ms, i);
      if i != 0 {
        text := text + ",";
      }
      assert ms[i] == Member(names[i], items[names[i]]);
      text := text + Quote(names[i]) + ":" + items[names[i]];
      i := i + 1;
    }
    assert ms[..|names|] == ms;
    text := text + "}";
  }

  // The columns

  /** The columns of the names in `order`, when the rewrites are handed out in the order of `again`. */
  function ColumnsOf(items: map<string, Entry>, order: seq<string>, again: seq<string>): Columns
    requires Enumerates(order, items) && Enumerates(again, Column(items, Rewritten))
  {
    Columns(Sorted(Filtered(order, Outside)), Column(items, Verdict), Column(items, State), Column(items, Score),
            Column(items, Latency), Column(items, Role), Column(items, Profile),
            ObjectText(again, Column(items, Rewritten)))
  }

  /** The column of the names handed out so far. */
  function Part<T>(items: map<string, Entry>, names: seq<string>, field: Entry -> Maybe<T>): map<string, T> {
    map k | k in items && k in names && field(items[k]).Just? :: field(items[k]).value
  }

  function With<T>(column: map<string, T>, name: string, value: Maybe<T>): map<string, T> {
    match value
    case Nothing => column
    case Just(v) => column[name := v]
  }

  lemma PartStep<T>(items: map<string, Entry>, names: seq<string>, name: string, field: Entry -> Maybe<T>)
    requires name in items
    ensures Part(items, names + [name], field) == With(Part(items, names, field), name, field(items[name]))
  {
  }

  lemma PartWhole<T>(items: map<string, Entry>, order: seq<string>, field: Entry -> Maybe<T>)
    requires Enumerates(order, items)
    ensures Part(items, order, field) == Column(items, field)
    ensures Part(items, [], field) == map[]
  {
  }

  method SpreadInspectors(items: map<string, Entry>, order: seq<string>, again: seq<string>)
    returns (row: Columns)
    requires Enumerates(order, items) && Enumerates(again, Column(items, Rewritten))
    ensures row == ColumnsOf(items, order, again)
  {
    hide Sorted, Part, With, Column, ObjectText, Filtered;
    PartWhole(items, order, Verdict);
    PartWhole(items, order, State);
    PartWhole(items, order, Score);
    PartWhole(items, order, Latency);
    PartWhole(items, order, Role);
    PartWhole(items, order, Profile);
    PartWhole(items, order, Rewritten);
    FilteredNone(Outside);
    row := Columns([], map[], map[], map[], map[], map[], map[], "");
    var rewrites: map<string, string> := map[];
    var i := 0;
    while i < |order|
      invariant 0 <= i <= |order|
      invariant row.names == Filtered(order[..i], Outside)
      invariant row.verdict == Part(items, order[..i], Verdict) && row.state == Part(items, order[..i], State)
      invariant row.score == Part(items, order[..i], Score) && row.latency == Part(items, order[..i], Latency)
      invariant row.role == Part(items, order[..i], Role) && row.profile == Part(items, order[..i], Profile)
      invariant rewrites == Part(items, order[..i], Rewritten)
    {
      var name := order[i];
      var item := items[name];
      assert order[..i + 1] == order[..i] + [name];
      FilteredSnoc(order[..i], name, Outside);
      row := row.(names := if name != SELF then row.names + [name] else row.names,
                  verdict := Put(row.verdict, items, order[..i], name, Verdict),
                  state := Put(row.state, items, order[..i], name, State),
                  score := Put(row.score, items, order[..i], name, Score),
                  latency := Put(row.latency, items, order[..i], name, Latency),
                  role := Put(row.role, items, order[..i], name, Role),
                  profile := Put(row.profile, items, order[..i], name, Profile));
      rewrites := Put(rewrites, items, order[..i], name, Rewritten);
      i := i + 1;
    }
    assert order[..|order|] == order;
    var text := FoldRewrites(rewrites, again);
    var names := SortedCopy(row.names);
    row := row.(names := names, rewrite := text);
  }

  function Put<T>(column: map<string, T>, items: map<string, Entry>, ghost names: seq<string>, name: string,
                  field: Entry -> Maybe<T>): (r: map<string, T>)
    requires name in items && column == Part(items, names, field)
    ensures r == Part(items, names + [name], field)
  {
    PartStep(items, names, name, field);
    With(column, name, field(items[name]))
  }

  // Map order does not matter

  lemma {:induction false} ObjectOrderFree(items: map<string, string>, one: seq<string>, two: seq<string>)
    requires Enumerates(one, items) && Enumerates(two, items)
    ensures ObjectText(one, items) == ObjectText(two, items)
  {
    hide Sorted, MembersText;
    SortedAlike(one, two);
    SortedLength(one);
    SortedLength(two);
  }

  /** Every order in which the maps hand out their names leaves the same columns, byte for byte;
      the inspector list is sorted and holds every name but the module's own, once. */
  lemma OrderFree(items: map<string, Entry>, one: seq<string>, oneAgain: seq<string>,
                  two: seq<string>, twoAgain: seq<string>)
    requires Enumerates(one, items) && Enumerates(two, items)
    requires Enumerates(oneAgain, Column(items, Rewritten)) && Enumerates(twoAgain, Column(items, Rewritten))
    ensures ColumnsOf(items, one, oneAgain) == ColumnsOf(items, two, twoAgain)
    ensures StrictlySorted(ColumnsOf(items, one, oneAgain).names)
    ensures forall k :: k in ColumnsOf(items, one, oneAgain).names <==> k in items && k != SELF
  {
    hide Sorted, Column, ObjectText, StrictlySorted, Filtered;
    FilteredDistinct(one, Outside);
    FilteredDistinct(two, Outside);
    SortedAlike(Filtered(one, Outside), Filtered(two, Outside));
    SortedSorts(Filtered(one, Outside));
    SortedLength(Filtered(one, Outside));
    ObjectOrderFree(Column(items, Rewritten), oneAgain, twoAgain);
  }

  // Reading the object back

  /** What the card shows of a rewrite. */
  datatype Rewrite = Rewrite(applied: bool, size: Maybe<nat>, groups: seq<string>)

  /** Decoding one raw value as a Rewrite. */
  type Decoder = string -> Maybe<Rewrite>

  predicate AllDecode(ms: seq<Member>, asRewrite: Decoder) {
    forall i :: 0 <= i < |ms| ==> asRewrite(ms[i].value).Just?
  }

  /** rewritesOf of internal/query/card.go: one member that does not decode spoils the whole object. */
  function RewritesOf(raw: string, asRewrite: Decoder): map<string, Rewrite> {
    if raw == "" then map[]
    else
      match SplitObject(raw)
      case Nothing => map[]
      case Just(ms) =>
        if AllDecode(ms, asRewrite)
        then map k | k in MapOf(ms) && asRewrite(MapOf(ms)[k]).Just? :: asRewrite(MapOf(ms)[k]).value
        else map[]
  }

  /** The rewrites stored: neither absent nor null. */
  function Stored(items: map<string, Entry>): map<string, string> {
    map k | k in items && items[k].rewrite !in {"", "null"} :: items[k].rewrite
  }

  lemma {:induction false} MapOfMembers(names: seq<string>, items: map<string, string>)
    requires Distinct(names) && forall n :: n in names ==> n in items
    ensures MapOf(MembersOf(names, items)) == map k | k in items && k in names :: items[k]
  {
    if names != [] {
      var init, last := names[..|names| - 1], names[|names| - 1];
      assert Distinct(init) && last !in init;
      assert MembersOf(names, items)[..|names| - 1] == MembersOf(init, items);
      MapOfMembers(init, items);
    }
  }

  lemma ObjectReadsBack(items: map<string, string>, order: seq<string>, asRewrite: Decoder)
    requires Enumerates(order, items) && forall k :: k in items ==> IsValue(items[k])
    ensures RewritesOf(ObjectText(order, items), asRewrite) ==
            if forall k :: k in items ==> asRewrite(items[k]).Just?
            then map k | k in items && asRewrite(items[k]).Just? :: asRewrite(items[k]).value
            else map[]
  {
    hide Sorted, Less, MembersText, SplitObject, IsValue, MapOf;
    SortedLength(order);
    SortedDistinct(order);
    if order != [] {
      var names := Sorted(order);
      var ms := MembersOf(names, items);
      ObjectInverts(ms);
      MapOfMembers(names, items);
      assert MapOf(ms) == items;
      if forall k :: k in items ==> asRewrite(items[k]).Just? {
        assert AllDecode(ms, asRewrite);
      } else {
        var k :| k in items && asRewrite(items[k]).Nothing?;
        assert k in names;
        var i :| 0 <= i < |names| && names[i] == k;
        assert asRewrite(ms[i].value).Nothing?;
      }
    }
  }

  /** Whether the card gets the stored rewrites back: each decoded, or none of them. */
  lemma RewritesReadBackIff(items: map<string, Entry>, order: seq<string>, again: seq<string>, asRewrite: Decoder)
    requires Enumerates(order, items) && Enumerates(again, Column(items, Rewritten))
    requires forall k :: k in items && items[k].rewrite != "" ==> IsValue(items[k].rewrite)
    ensures var got, stored := RewritesOf(ColumnsOf(items, order, again).rewrite, asRewrite), Stored(items);
            && ((forall k :: k in stored ==> asRewrite(stored[k]).Just?) ==>
                  got.Keys == stored.Keys && forall k :: k in stored ==> asRewrite(stored[k]) == Just(got[k]))
            && (!(forall k :: k in stored ==> asRewrite(stored[k]).Just?) ==> got == map[])
            && (got.Keys == stored.Keys <==> forall k :: k in stored ==> asRewrite(stored[k]).Just?)
  {
    hide Sorted, Less, ObjectText, IsValue, RewritesOf;
    assert Column(items, Rewritten) == Stored(items);
    ObjectReadsBack(Stored(items), again, asRewrite);
  }

  /** One inspector whose rewrite is a bare number costs the other, which sent an object, its rewrite. */
  lemma OneSpoilsAll(asRewrite: Decoder, e: Entry)
    requires asRewrite("{}").Just? && asRewrite("5").Nothing?
    ensures var items := map["a" := e.(rewrite := "{}"), "b" := e.(rewrite := "5")];
            && Enumerates(["a", "b"], items) && Enumerates(["a", "b"], Column(items, Rewritten))
            && Stored(items) == map["a" := "{}", "b" := "5"]
            && RewritesOf(ColumnsOf(items, ["a", "b"], ["a", "b"]).rewrite, asRewrite) == map[]
  {
    hide Sorted, ObjectText, RewritesOf, Column;
    var items := map["a" := e.(rewrite := "{}"), "b" := e.(rewrite := "5")];
    SpoiltColumns(items);
    RewritesReadBackIff(items, ["a", "b"], ["a", "b"], asRewrite);
    assert "b" in Stored(items) && Stored(items)["b"] == "5";
  }

  lemma SpoiltColumns(items: map<string, Entry>)
    requires items.Keys == {"a", "b"} && items["a"].rewrite == "{}" && items["b"].rewrite == "5"
    ensures Enumerates(["a", "b"], items) && Enumerates(["a", "b"], Column(items, Rewritten))
    ensures Stored(items) == map["a" := "{}", "b" := "5"]
    ensures IsValue("{}") && IsValue("5")
  {
    assert "a"[0] != "b"[0];
    assert |"5"| != |"null"| && |"{}"| != |"null"|;
  }

  lemma SortedDistinct(s: seq<string>)
    requires Distinct(s)
    ensures Distinct(Sorted(s))
  {
    hide Sorted, Less;
    SortedSorts(s);
    var t := Sorted(s);
    forall i, j | 0 <= i < j < |t| ensures t[i] != t[j] {
      LessIrreflexive(t[i]);
    }
  }
}
