/** What `where` builds, part by part, and that it means the filter. */
module FilterWhere {
  import opened Strings
  import opened Like
  import opened Lists
  import opened IpRange
  import opened FilterNames
  import opened FilterCompile

  datatype Entry = Entry(slot: Slot, value: Value)

  /** The clauses and parameters of one part of the filter. */
  datatype Part = Part(clauses: seq<Clause>, entries: seq<Entry>)

  const NONE := Part([], [])

  function Join(a: Part, b: Part): Part {
    Part(a.clauses + b.clauses, a.entries + b.entries)
  }

  function Name(part: nat, kind: nat, index: nat): string {
    NameOf(Slot(part, kind, index))
  }

  function One(part: nat, c: Clause, v: Value): Part {
    Part([c], [Entry(Slot(part, 0, 0), v)])
  }

  function Two(part: nat, c: Clause, v: Value, w: Value): Part {
    Part([c], [Entry(Slot(part, 0, 0), v), Entry(Slot(part, 1, 0), w)])
  }

  function FramePart(f: Filter): Part {
    if f.frameDirection == "" then NONE
    else
      Part([Equals(ColDirection, Name(FRAME, 0, 0)), EqualsNumber(ColFrame, Name(FRAME, 1, 0))],
           [Entry(Slot(FRAME, 0, 0), Text(f.frameDirection)), Entry(Slot(FRAME, 1, 0), Number(f.frameSeq))])
  }

  function TimePart(f: Filter): Part {
    Part([NotBefore(Name(TIME, 0, 0)), NotAfter(Name(TIME, 1, 0))],
         [Entry(Slot(TIME, 0, 0), Number(f.from)), Entry(Slot(TIME, 1, 0), Number(f.until))])
  }

  function EqualsPart(part: nat, column: TextColumn, s: string): Part {
    if s == "" then NONE else One(part, Equals(column, Name(part, 0, 0)), Text(s))
  }

  function NumberPart(part: nat, column: NumberColumn, on: bool, n: int): Part {
    if !on then NONE else One(part, EqualsNumber(column, Name(part, 0, 0)), Number(n))
  }

  function LikePart(part: nat, column: TextColumn, s: string): Part {
    if s == "" then NONE else One(part, LikeLower(column, Name(part, 0, 0)), Text(Around(Lower(s))))
  }

  function OneOfPart(part: nat, column: TextColumn, items: seq<string>): Part {
    if items == [] then NONE else One(part, OneOf(Name(part, 0, 0), column), Texts(items))
  }

  function HasPart(part: nat, column: ListColumn, s: string): Part {
    if s == "" then NONE else One(part, Has(column, Name(part, 0, 0)), Text(s))
  }

  function UserPart(user: string): Part {
    if user == "" then NONE
    else
      var who := SplitIdentity(user);
      if who.0 == "" then
        Part([Has(ColUsers, Name(USER, 1, 0))], [Entry(Slot(USER, 1, 0), Text(who.1))])
      else Two(USER, SessionOf(Name(USER, 0, 0), Name(USER, 1, 0)), Text(who.0), Text(who.1))
  }

  function VarsFrom(items: seq<Named>, i: nat): Part
    requires i <= |items|
    decreases |items| - i
  {
    if i == |items| then NONE
    else
      Join(Part([MapEquals(ColVars, Name(VARS, 0, i), Name(VARS, 1, i))],
                [Entry(Slot(VARS, 0, i), Text(items[i].name)), Entry(Slot(VARS, 1, i), Text(items[i].value))]),
           VarsFrom(items, i + 1))
  }

  function NamedFrom(part: nat, column: MapColumn, items: seq<Named>, i: nat): Part
    requires (part == HEADERS || part == PARAMS) && i <= |items|
    decreases |items| - i
  {
    if i == |items| then NONE
    else
      var key := Entry(Slot(part, 0, i), Text(items[i].name));
      Join(if items[i].value == "" then Part([MapHas(column, Name(part, 0, i))], [key])
           else Part([MapEquals(column, Name(part, 0, i), Name(part, 1, i))],
                     [key, Entry(Slot(part, 1, i), Text(items[i].value))]),
           NamedFrom(part, column, items, i + 1))
  }

  /** What ipClause gathers: parameters, names of single addresses, names of ranges. */
  datatype Ips = Ips(entries: seq<Entry>, singles: seq<string>, ranges: seq<(string, string)>)

  function IpsFrom(cidrs: seq<string>, parse: Parser, i: nat): Ips
    requires i <= |cidrs|
    decreases |cidrs| - i
  {
    if i == |cidrs| then Ips([], [], [])
    else
      var rest := IpsFrom(cidrs, parse, i + 1);
      match parse(cidrs[i])
      case Nothing => rest
      case Just(p) =>
        if !PrefixOk(p) then rest
        else if Low(p) == High(p) then
          Ips([Entry(Slot(IP, 0, i), Addr(Low(p)))] + rest.entries, [Name(IP, 0, i)] + rest.singles, rest.ranges)
        else
          Ips([Entry(Slot(IP, 1, i), Addr(Low(p))), Entry(Slot(IP, 2, i), Addr(High(p)))] + rest.entries,
              rest.singles, [(Name(IP, 1, i), Name(IP, 2, i))] + rest.ranges)
  }

  function IpPart(cidrs: seq<string>, parse: Parser): Part {
    var ips := IpsFrom(cidrs, parse, 0);
    if ips.singles == [] && ips.ranges == [] then NONE
    else Part([AnyAddress(ips.singles, ips.ranges)], ips.entries)
  }

  // Bindings

  predicate SlotsOk(es: seq<Entry>) {
    forall i :: 0 <= i < |es| ==> SlotOk(es[i].slot)
  }

  function Args(es: seq<Entry>): seq<Arg> {
    if es == [] then [] else [Arg(NameOf(es[0].slot), es[0].value)] + Args(es[1..])
  }

  predicate DistinctSlots(es: seq<Entry>) {
    forall i, j :: 0 <= i < j < |es| ==> es[i].slot != es[j].slot
  }

  /** The name of the slot is bound to the value. */
  predicate Bound(args: seq<Arg>, e: Entry) {
    Lookup(args, NameOf(e.slot)) == Just(e.value)
  }

  predicate AllBound(args: seq<Arg>, es: seq<Entry>) {
    forall i :: 0 <= i < |es| ==> Bound(args, es[i])
  }

  /** With distinct slots every parameter is bound once, to its own value. */
  lemma {:induction false} DistinctBinds(es: seq<Entry>)
    requires SlotsOk(es) && DistinctSlots(es)
    ensures AllBound(Args(es), es)
  {
    hide NameOf;
    if es != [] {
      DistinctBinds(es[1..]);
      forall i | 0 <= i < |es| ensures Bound(Args(es), es[i]) {
        if i > 0 {
          if NameOf(es[i].slot) == NameOf(es[0].slot) {
            NamesDistinct(es[i].slot, es[0].slot);
          }
          assert Bound(Args(es[1..]), es[1..][i - 1]);
        }
      }
    }
  }

  // Parts mean what the filter asks for

  /** Under the bindings of a part its clauses hold exactly of the rows with the property. */
  ghost predicate Means(p: Part, args: seq<Arg>, row: Row, truth: bool) {
    AllBound(args, p.entries) ==> (AllHold(p.clauses, args, row) <==> truth)
  }

  lemma OneHolds(part: nat, c: Clause, v: Value, args: seq<Arg>, row: Row)
    requires AllBound(args, One(part, c, v).entries)
    ensures Lookup(args, Name(part, 0, 0)) == Just(v)
    ensures AllHold(One(part, c, v).clauses, args, row) <==> Holds(c, args, row)
  {
    hide NameOf, Holds;
    assert Bound(args, One(part, c, v).entries[0]);
    assert [c][1..] == [];
  }

  lemma TwoHold(a: Entry, b: Entry, args: seq<Arg>)
    requires AllBound(args, [a, b])
    ensures Bound(args, a) && Bound(args, b)
  {
    assert [a, b][0] == a && [a, b][1] == b;
  }

  lemma PairHold(c: Clause, d: Clause, args: seq<Arg>, row: Row)
    ensures AllHold([c, d], args, row) <==> Holds(c, args, row) && Holds(d, args, row)
    ensures AllHold([c], args, row) <==> Holds(c, args, row)
  {
    hide Holds;
    assert [c, d][1..] == [d] && [d][1..] == [] && [c][1..] == [];
    assert AllHold([d], args, row) <==> Holds(d, args, row);
    assert AllHold([c], args, row) <==> Holds(c, args, row);
  }

  lemma FrameMeans(f: Filter, args: seq<Arg>, row: Row)
    ensures Means(FramePart(f), args, row, f.frameDirection != "" ==>
                    row.text(ColDirection) == f.frameDirection && row.number(ColFrame) == f.frameSeq)
  {
    hide NameOf;
    var p := FramePart(f);
    if f.frameDirection != "" && AllBound(args, p.entries) {
      TwoHold(p.entries[0], p.entries[1], args);
      PairHold(p.clauses[0], p.clauses[1], args, row);
    }
  }

  lemma TimeMeans(f: Filter, args: seq<Arg>, row: Row)
    ensures Means(TimePart(f), args, row, f.from <= row.number(ColTime) <= f.until)
  {
    hide NameOf;
    var p := TimePart(f);
    if AllBound(args, p.entries) {
      TwoHold(p.entries[0], p.entries[1], args);
      PairHold(p.clauses[0], p.clauses[1], args, row);
    }
  }

  lemma EqualsMeans(part: nat, column: TextColumn, s: string, args: seq<Arg>, row: Row)
    ensures Means(EqualsPart(part, column, s), args, row, s != "" ==> row.text(column) == s)
  {
    hide NameOf;
    if s != "" && AllBound(args, EqualsPart(part, column, s).entries) {
      OneHolds(part, Equals(column, Name(part, 0, 0)), Text(s), args, row);
    }
  }

  lemma NumberMeans(part: nat, column: NumberColumn, on: bool, n: int, args: seq<Arg>, row: Row)
    ensures Means(NumberPart(part, column, on, n), args, row, on ==> row.number(column) == n)
  {
    hide NameOf;
    if on && AllBound(args, NumberPart(part, column, on, n).entries) {
      OneHolds(part, EqualsNumber(column, Name(part, 0, 0)), Number(n), args, row);
    }
  }

  lemma SameLower(a: char, b: char)
    ensures LowerChar(a) == LowerChar(b) <==> SameLetter(a, b)
  {
  }

  lemma FoldedFront(text: string, i: nat, s: string)
    requires i <= |text|
    ensures Lower(s) <= Lower(text)[i..] <==> FoldedAt(text, i, s)
  {
    hide SameLetter, LowerChar;
    var t, u := Lower(text), Lower(s);
    forall a, b ensures LowerChar(a) == LowerChar(b) <==> SameLetter(a, b) {
      SameLower(a, b);
    }
    if i + |s| <= |text| {
      assert forall j :: 0 <= j < |s| ==> t[i..][j] == t[i + j] == LowerChar(text[i + j]) && u[j] == LowerChar(s[j]);
    }
  }

  /** Looking for the lower case of one text in that of another is looking for it in either case. */
  lemma FoldedContains(text: string, s: string)
    ensures Contains(Lower(text), Lower(s)) <==> ContainsFolded(text, s)
  {
    hide Lower, FoldedAt;
    forall i | 0 <= i <= |text| ensures Lower(s) <= Lower(text)[i..] <==> FoldedAt(text, i, s) {
      FoldedFront(text, i, s);
    }
  }

  lemma LikeMeans(part: nat, column: TextColumn, s: string, args: seq<Arg>, row: Row)
    ensures Means(LikePart(part, column, s), args, row,
                  s != "" ==> ContainsFolded(row.text(column), s))
  {
    hide NameOf, Matches, Contains, ContainsFolded, Lower;
    if s != "" && AllBound(args, LikePart(part, column, s).entries) {
      OneHolds(part, LikeLower(column, Name(part, 0, 0)), Text(Around(Lower(s))), args, row);
      EscapeFaithful(Lower(s), Lower(row.text(column)));
      FoldedContains(row.text(column), s);
    }
  }

  lemma OneOfMeans(part: nat, column: TextColumn, items: seq<string>, args: seq<Arg>, row: Row)
    ensures Means(OneOfPart(part, column, items), args, row, items != [] ==> row.text(column) in items)
  {
    hide NameOf;
    if items != [] && AllBound(args, OneOfPart(part, column, items).entries) {
      OneHolds(part, OneOf(Name(part, 0, 0), column), Texts(items), args, row);
    }
  }

  lemma HasMeans(part: nat, column: ListColumn, s: string, args: seq<Arg>, row: Row)
    ensures Means(HasPart(part, column, s), args, row, s != "" ==> s in row.list(column))
  {
    hide NameOf;
    if s != "" && AllBound(args, HasPart(part, column, s).entries) {
      OneHolds(part, Has(column, Name(part, 0, 0)), Text(s), args, row);
    }
  }

  /** What the two halves of an identity select is what the whole asks for. */
  lemma UserSplit(asked: string, row: Row)
    ensures var who := SplitIdentity(asked);
            UserSelected(asked, row) <==>
            if who.0 == "" then who.1 in row.list(ColUsers)
            else HasSession(row.list(ColSources), row.list(ColUsers), who.0, who.1)
  {
    hide HasSession, SessionSelected, IndexOf, SplitIdentity;
    if ':' in asked {
      var k := IndexOf(asked, ':');
      assert asked == asked[..k] + ":" + asked[k + 1..];
      SplitAtColon(asked[..k], asked[k + 1..]);
      assert forall j :: 0 <= j < |asked| && asked[j] == ':' && ':' !in asked[..j] ==> j == k;
      SessionMeans(asked[..k], asked[k + 1..], row);
    } else {
      SplitNoColon(asked);
    }
  }

  lemma SessionMeans(source: string, user: string, row: Row)
    ensures SessionSelected(source, user, row) <==>
            if source == "" then user in row.list(ColUsers)
            else HasSession(row.list(ColSources), row.list(ColUsers), source, user)
  {
  }

  /** The three forms of an identity. */
  lemma UserForms(source: string, user: string, row: Row)
    ensures ':' !in user ==> (UserSelected(user, row) <==> user in row.list(ColUsers))
    ensures UserSelected(":" + user, row) <==> user in row.list(ColUsers)
    ensures source != "" && ':' !in source ==>
              (UserSelected(source + ":" + user, row) <==>
               exists i :: 0 <= i < |row.list(ColSources)| && i < |row.list(ColUsers)| &&
                 row.list(ColSources)[i] == source && row.list(ColUsers)[i] == user)
  {
    hide SplitIdentity, UserSelected, IndexOf;
    UserSplit(user, row);
    UserSplit(":" + user, row);
    UserSplit(source + ":" + user, row);
    assert ":" + user == "" + ":" + user;
    SplitAtColon("", user);
    if ':' !in user {
      SplitNoColon(user);
    }
    if ':' !in source {
      SplitAtColon(source, user);
    }
  }

  lemma UserMeans(user: string, args: seq<Arg>, row: Row)
    ensures Means(UserPart(user), args, row, user != "" ==> UserSelected(user, row))
  {
    hide NameOf, SplitIdentity, UserSelected;
    var p := UserPart(user);
    UserSplit(user, row);
    if user != "" && AllBound(args, p.entries) {
      PairHold(p.clauses[0], p.clauses[0], args, row);
      assert Bound(args, p.entries[0]);
      if SplitIdentity(user).0 != "" {
        assert Bound(args, p.entries[1]);
      }
    }
  }

  lemma AllBoundJoin(args: seq<Arg>, a: seq<Entry>, b: seq<Entry>)
    requires AllBound(args, a + b)
    ensures AllBound(args, a) && AllBound(args, b)
  {
    hide Bound;
    assert forall i :: 0 <= i < |a| ==> (a + b)[i] == a[i];
    assert forall i :: 0 <= i < |b| ==> (a + b)[|a| + i] == b[i];
  }

  lemma JoinMeans(a: Part, b: Part, args: seq<Arg>, row: Row, s: bool, t: bool)
    requires Means(a, args, row, s) && Means(b, args, row, t)
    ensures Means(Join(a, b), args, row, s && t)
  {
    hide Bound, Holds;
    if AllBound(args, Join(a, b).entries) {
      AllBoundJoin(args, a.entries, b.entries);
      AllHoldJoin(a.clauses, b.clauses, args, row);
    }
  }

  lemma {:induction false} VarsMean(items: seq<Named>, i: nat, args: seq<Arg>, row: Row)
    requires i <= |items|
    ensures Means(VarsFrom(items, i), args, row,
                  forall j :: i <= j < |items| ==> Shows(row.mapping(ColVars), items[j].name, items[j].value))
    decreases |items| - i
  {
    hide NameOf;
    if i < |items| {
      var c := MapEquals(ColVars, Name(VARS, 0, i), Name(VARS, 1, i));
      var a := Entry(Slot(VARS, 0, i), Text(items[i].name));
      var b := Entry(Slot(VARS, 1, i), Text(items[i].value));
      var first := Shows(row.mapping(ColVars), items[i].name, items[i].value);
      assert Means(Part([c], [a, b]), args, row, first) by {
        if AllBound(args, [a, b]) {
          TwoHold(a, b, args);
          PairHold(c, c, args, row);
        }
      }
      VarsMean(items, i + 1, args, row);
      JoinMeans(Part([c], [a, b]), VarsFrom(items, i + 1), args, row, first,
                forall j :: i + 1 <= j < |items| ==> Shows(row.mapping(ColVars), items[j].name, items[j].value));
    }
  }

  lemma {:induction false} NamedMean(part: nat, column: MapColumn, items: seq<Named>, i: nat,
                                     args: seq<Arg>, row: Row)
    requires (part == HEADERS || part == PARAMS) && i <= |items|
    ensures Means(NamedFrom(part, column, items, i), args, row,
                  forall j :: i <= j < |items| ==> NamedSelected(row.mapping(column), items[j]))
    decreases |items| - i
  {
    hide NameOf;
    if i < |items| {
      var a := Entry(Slot(part, 0, i), Text(items[i].name));
      var b := Entry(Slot(part, 1, i), Text(items[i].value));
      var p := if items[i].value == "" then Part([MapHas(column, Name(part, 0, i))], [a])
               else Part([MapEquals(column, Name(part, 0, i), Name(part, 1, i))], [a, b]);
      var first := NamedSelected(row.mapping(column), items[i]);
      assert Means(p, args, row, first) by {
        PairHold(p.clauses[0], p.clauses[0], args, row);
        if AllBound(args, p.entries) {
          assert Bound(args, p.entries[0]);
          if items[i].value != "" {
            assert Bound(args, p.entries[1]);
          }
        }
      }
      NamedMean(part, column, items, i + 1, args, row);
      JoinMeans(p, NamedFrom(part, column, items, i + 1), args, row, first,
                forall j :: i + 1 <= j < |items| ==> NamedSelected(row.mapping(column), items[j]));
    }
  }

  /** A listed prefix from position i on holds the address. */
  ghost predicate Listed(cidrs: seq<string>, parse: Parser, i: nat, x: Address)
    requires |x| == 16 && ParserOk(parse)
  {
    exists j :: i <= j < |cidrs| && parse(cidrs[j]).Just? && InPrefix(x, parse(cidrs[j]).value)
  }

  lemma SingleMeans(args: seq<Arg>, e: Entry, x: Address)
    requires Bound(args, e) && e.value.Addr?
    ensures Single(args, NameOf(e.slot), x) <==> x == e.value.address
  {
    hide Lookup, NameOf;
  }

  lemma WithinMeans(args: seq<Arg>, lo: Entry, hi: Entry, x: Address)
    requires Bound(args, lo) && Bound(args, hi) && lo.value.Addr? && hi.value.Addr?
    requires |lo.value.address| == |x| == |hi.value.address|
    ensures Within(args, (NameOf(lo.slot), NameOf(hi.slot)), x) <==>
            AtMost(lo.value.address, x) && AtMost(x, hi.value.address)
  {
    hide Lookup, NameOf, AtMost;
  }

  lemma {:induction false} IpsMean(cidrs: seq<string>, parse: Parser, i: nat, args: seq<Arg>, x: Address)
    requires |x| == 16 && ParserOk(parse) && i <= |cidrs|
    requires AllBound(args, IpsFrom(cidrs, parse, i).entries)
    ensures var ips := IpsFrom(cidrs, parse, i);
            AnySingle(ips.singles, args, x) || AnyRange(ips.ranges, args, x) <==> Listed(cidrs, parse, i, x)
    ensures var ips := IpsFrom(cidrs, parse, i);
            ips.singles == [] && ips.ranges == [] <==> forall j :: i <= j < |cidrs| ==> parse(cidrs[j]).Nothing?
    decreases |cidrs| - i
  {
    hide NameOf, InPrefix, Low, High, AtMost, Lookup, Single, Within, Bound;
    if i < |cidrs| {
      var ips, rest := IpsFrom(cidrs, parse, i), IpsFrom(cidrs, parse, i + 1);
      match parse(cidrs[i])
      case Nothing =>
        IpsMean(cidrs, parse, i + 1, args, x);
      case Just(p) =>
        RangeExact(p, x);
        if Low(p) == High(p) {
          AllBoundJoin(args, [ips.entries[0]], rest.entries);
          assert ips.singles[1..] == rest.singles;
          IpsMean(cidrs, parse, i + 1, args, x);
          OneAddress(p, x);
          assert Single(args, ips.singles[0], x) <==> InPrefix(x, p) by {
            assert Bound(args, ips.entries[0]);
            SingleMeans(args, ips.entries[0], x);
          }
        } else {
          assert ips.entries == [ips.entries[0], ips.entries[1]] + rest.entries;
          AllBoundJoin(args, [ips.entries[0], ips.entries[1]], rest.entries);
          assert ips.ranges[1..] == rest.ranges;
          IpsMean(cidrs, parse, i + 1, args, x);
          assert Within(args, ips.ranges[0], x) <==> InPrefix(x, p) by {
            assert Bound(args, ips.entries[0]) && Bound(args, ips.entries[1]);
            WithinMeans(args, ips.entries[0], ips.entries[1], x);
          }
        }
    }
  }

  /** A range of one address holds that address. */
  lemma OneAddress(p: Prefix, x: Address)
    requires PrefixOk(p) && |x| == 16 && Low(p) == High(p)
    ensures x == Low(p) <==> InPrefix(x, p)
  {
    hide Masked, Filled, InPrefix;
    RangeExact(p, x);
    AtMostAntisymmetric(Low(p), x);
  }

  lemma {:induction false} AtMostAntisymmetric(a: Address, b: Address)
    requires |a| == |b|
    ensures AtMost(a, b) && AtMost(b, a) <==> a == b
  {
    hide ByteAtMost;
    if a != [] {
      AtMostAntisymmetric(a[1..], b[1..]);
      BytesAntisymmetric(a[0], b[0]);
    }
  }

  lemma BytesAntisymmetric(a: bv8, b: bv8)
    ensures ByteAtMost(a, b) && ByteAtMost(b, a) <==> a == b
  {
  }

  lemma {:induction false} NoIps(cidrs: seq<string>, parse: Parser, i: nat)
    requires i <= |cidrs|
    ensures var ips := IpsFrom(cidrs, parse, i);
            ips.singles == [] && ips.ranges == [] ==> ips.entries == []
    decreases |cidrs| - i
  {
    hide NameOf;
    if i < |cidrs| {
      NoIps(cidrs, parse, i + 1);
    }
  }

  lemma IpMeans(cidrs: seq<string>, parse: Parser, args: seq<Arg>, row: Row)
    requires |row.address| == 16 && ParserOk(parse)
    ensures Means(IpPart(cidrs, parse), args, row, cidrs != [] ==> AddressSelected(cidrs, parse, row.address))
  {
    hide IpsFrom, InPrefix, AnySingle, AnyRange, Bound;
    var p, ips := IpPart(cidrs, parse), IpsFrom(cidrs, parse, 0);
    NoIps(cidrs, parse, 0);
    if AllBound(args, ips.entries) {
      IpsMean(cidrs, parse, 0, args, row.address);
      if p.clauses != [] {
        PairHold(p.clauses[0], p.clauses[0], args, row);
      }
    }
  }

  // The whole filter

  /** The part of a filter with a number. */
  function PartAt(f: Filter, parse: Parser, n: nat): Part {
    if n == FRAME then FramePart(f)
    else if n == PHASE then EqualsPart(PHASE, ColPhase, f.phase)
    else if n == RAY then EqualsPart(RAY, ColRay, f.ray)
    else if n == TIME then TimePart(f)
    else if n == VERDICT then EqualsPart(VERDICT, ColVerdict, f.verdict)
    else if n == CODE then EqualsPart(CODE, ColCode, f.code)
    else if n == METHOD then EqualsPart(METHOD, ColMethod, f.method_)
    else if n == HOST then EqualsPart(HOST, ColHost, f.host)
    else if n == URI then LikePart(URI, ColUri, f.uri)
    else if n == ROUTES then OneOfPart(ROUTES, ColLocation, f.locationIDs)
    else if n == SERVERS then OneOfPart(SERVERS, ColServer, f.serverNames)
    else if n == STATUS then NumberPart(STATUS, ColStatus, f.hasStatus, f.status)
    else if n == NODE then EqualsPart(NODE, ColNode, f.node)
    else if n == INSPECTOR then HasPart(INSPECTOR, ColInspectors, f.inspector)
    else if n == COUNTRY then EqualsPart(COUNTRY, ColCountry, f.country)
    else if n == ASN then NumberPart(ASN, ColAsn, f.asn != 0, f.asn)
    else if n == USER then UserPart(f.user)
    else if n == SESSION then HasPart(SESSION, ColSessions, f.sessionID)
    else if n == MARKER then HasPart(MARKER, ColMarkers, f.marker)
    else if n == VARS then VarsFrom(f.vars, 0)
    else if n == HEADERS then NamedFrom(HEADERS, ColHeaders, f.headers, 0)
    else if n == PARAMS then NamedFrom(PARAMS, ColArgs, f.params, 0)
    else if n == BODY then LikePart(BODY, ColBody, f.body)
    else if n == IP then IpPart(f.cidrs, parse)
    else Part([], [Entry(Slot(PAGE, 0, 0), Number(f.limit)), Entry(Slot(PAGE, 1, 0), Number(f.offset))])
  }

  /** The parts `where` goes through, in order: with a ray it stops behind the node. */
  function PartNumbers(f: Filter): seq<nat> {
    if f.ray != "" then [FRAME, PHASE, RAY, NODE]
    else
      [FRAME, PHASE, TIME, VERDICT, CODE, METHOD, HOST, URI, ROUTES, SERVERS, STATUS, NODE, INSPECTOR, COUNTRY,
       ASN, USER, SESSION, MARKER, VARS, HEADERS, PARAMS, BODY, IP]
  }

  function Parts(f: Filter, parse: Parser, ns: seq<nat>): Part {
    if ns == [] then NONE else Join(PartAt(f, parse, ns[0]), Parts(f, parse, ns[1..]))
  }

  /** where. */
  function Where(f: Filter, parse: Parser): Part {
    Parts(f, parse, PartNumbers(f))
  }

  /** build: where, and then the page. */
  function Build(f: Filter, parse: Parser): Part {
    Parts(f, parse, PartNumbers(f) + [PAGE])
  }

  // All names are bound once

  /** The entries belong to one part and are distinct. */
  ghost predicate Inside(es: seq<Entry>, part: nat) {
    SlotsOk(es) && DistinctSlots(es) && forall i :: 0 <= i < |es| ==> es[i].slot.part == part
  }

  /** The entries belong to one part, are distinct, and numbered from i on. */
  ghost predicate InsideFrom(es: seq<Entry>, part: nat, i: nat) {
    Inside(es, part) && forall k :: 0 <= k < |es| ==> es[k].slot.index >= i
  }

  lemma InsideJoin(a: seq<Entry>, b: seq<Entry>, part: nat, i: nat)
    requires Inside(a, part) && InsideFrom(b, part, i + 1)
    requires forall k :: 0 <= k < |a| ==> a[k].slot.index == i
    ensures InsideFrom(a + b, part, i)
  {
    hide SlotOk;
    var es := a + b;
    forall k | 0 <= k < |es| ensures SlotOk(es[k].slot) && es[k].slot.part == part && es[k].slot.index >= i {
      assert es[k] == if k < |a| then a[k] else b[k - |a|];
    }
    forall k, l | 0 <= k < l < |es| ensures es[k].slot != es[l].slot {
      assert es[k] == if k < |a| then a[k] else b[k - |a|];
      assert es[l] == if l < |a| then a[l] else b[l - |a|];
    }
  }

  lemma {:induction false} VarsInside(items: seq<Named>, i: nat)
    requires i <= |items|
    ensures InsideFrom(VarsFrom(items, i).entries, VARS, i)
    decreases |items| - i
  {
    hide NameOf, SlotOk;
    FirstSlots(VARS);
    if i < |items| {
      VarsInside(items, i + 1);
      InsideJoin([Entry(Slot(VARS, 0, i), Text(items[i].name)), Entry(Slot(VARS, 1, i), Text(items[i].value))],
                 VarsFrom(items, i + 1).entries, VARS, i);
    }
  }

  lemma {:induction false} NamedInside(part: nat, column: MapColumn, items: seq<Named>, i: nat)
    requires (part == HEADERS || part == PARAMS) && i <= |items|
    ensures InsideFrom(NamedFrom(part, column, items, i).entries, part, i)
    decreases |items| - i
  {
    hide NameOf, SlotOk;
    FirstSlots(part);
    if i < |items| {
      NamedInside(part, column, items, i + 1);
      var key := Entry(Slot(part, 0, i), Text(items[i].name));
      InsideJoin(if items[i].value == "" then [key] else [key, Entry(Slot(part, 1, i), Text(items[i].value))],
                 NamedFrom(part, column, items, i + 1).entries, part, i);
    }
  }

  lemma {:induction false} IpsInside(cidrs: seq<string>, parse: Parser, i: nat)
    requires i <= |cidrs|
    ensures InsideFrom(IpsFrom(cidrs, parse, i).entries, IP, i)
    decreases |cidrs| - i
  {
    hide NameOf, Low, High, SlotOk;
    FirstSlots(IP);
    if i < |cidrs| {
      IpsInside(cidrs, parse, i + 1);
      var rest := IpsFrom(cidrs, parse, i + 1).entries;
      if parse(cidrs[i]).Just? && PrefixOk(parse(cidrs[i]).value) {
        var p := parse(cidrs[i]).value;
        InsideJoin(if Low(p) == High(p) then [Entry(Slot(IP, 0, i), Addr(Low(p)))]
                   else [Entry(Slot(IP, 1, i), Addr(Low(p))), Entry(Slot(IP, 2, i), Addr(High(p)))],
                   rest, IP, i);
      }
    }
  }

  lemma PartInside(f: Filter, parse: Parser, n: nat)
    requires n <= PAGE
    ensures Inside(PartAt(f, parse, n).entries, n)
  {
    hide NameOf, SlotOk, VarsFrom, NamedFrom, IpsFrom, SplitIdentity, Around, Lower;
    FirstSlots(n);
    VarsInside(f.vars, 0);
    NamedInside(HEADERS, ColHeaders, f.headers, 0);
    NamedInside(PARAMS, ColArgs, f.params, 0);
    IpsInside(f.cidrs, parse, 0);
  }

  /** The numbers go up and are those of parts. */
  predicate Ascending(ns: seq<nat>) {
    (forall i :: 0 <= i < |ns| ==> ns[i] <= PAGE) && forall i, j :: 0 <= i < j < |ns| ==> ns[i] < ns[j]
  }

  lemma {:induction false} PartsDistinct(f: Filter, parse: Parser, ns: seq<nat>)
    requires Ascending(ns)
    ensures var es := Parts(f, parse, ns).entries;
            SlotsOk(es) && DistinctSlots(es) && forall k :: 0 <= k < |es| ==> es[k].slot.part in ns
  {
    hide PartAt, SlotOk;
    if ns != [] {
      var a, b := PartAt(f, parse, ns[0]).entries, Parts(f, parse, ns[1..]).entries;
      PartInside(f, parse, ns[0]);
      PartsDistinct(f, parse, ns[1..]);
      var es := a + b;
      forall k | 0 <= k < |es| ensures SlotOk(es[k].slot) && es[k].slot.part in ns {
        assert es[k] == if k < |a| then a[k] else b[k - |a|];
      }
      forall k, l | 0 <= k < l < |es| ensures es[k].slot != es[l].slot {
        assert es[k] == if k < |a| then a[k] else b[k - |a|];
        assert es[l] == if l < |a| then a[l] else b[l - |a|];
      }
    }
  }

  predicate DistinctNames(args: seq<Arg>) {
    forall i, j :: 0 <= i < j < |args| ==> args[i].name != args[j].name
  }

  lemma {:induction false} ArgsDistinct(es: seq<Entry>)
    requires SlotsOk(es) && DistinctSlots(es)
    ensures |Args(es)| == |es| && DistinctNames(Args(es))
    ensures forall i :: 0 <= i < |es| ==> Args(es)[i] == Arg(NameOf(es[i].slot), es[i].value)
  {
    hide NameOf, SlotOk;
    if es != [] {
      ArgsDistinct(es[1..]);
      forall i | 0 < i < |es| ensures NameOf(es[i].slot) != NameOf(es[0].slot) {
        if NameOf(es[i].slot) == NameOf(es[0].slot) {
          NamesDistinct(es[i].slot, es[0].slot);
        }
      }
    }
  }

  // The filter is preserved

  /** What the filter asks for in one of its parts. */
  ghost predicate Asks(f: Filter, parse: Parser, n: nat, row: Row)
    requires |row.address| == 16 && ParserOk(parse)
  {
    if n == FRAME then
      f.frameDirection != "" ==> row.text(ColDirection) == f.frameDirection && row.number(ColFrame) == f.frameSeq
    else if n == PHASE then f.phase != "" ==> row.text(ColPhase) == f.phase
    else if n == RAY then f.ray != "" ==> row.text(ColRay) == f.ray
    else if n == TIME then f.from <= row.number(ColTime) <= f.until
    else if n == VERDICT then f.verdict != "" ==> row.text(ColVerdict) == f.verdict
    else if n == CODE then f.code != "" ==> row.text(ColCode) == f.code
    else if n == METHOD then f.method_ != "" ==> row.text(ColMethod) == f.method_
    else if n == HOST then f.host != "" ==> row.text(ColHost) == f.host
    else if n == URI then f.uri != "" ==> ContainsFolded(row.text(ColUri), f.uri)
    else if n == ROUTES then f.locationIDs != [] ==> row.text(ColLocation) in f.locationIDs
    else if n == SERVERS then f.serverNames != [] ==> row.text(ColServer) in f.serverNames
    else if n == STATUS then f.hasStatus ==> row.number(ColStatus) == f.status
    else if n == NODE then f.node != "" ==> row.text(ColNode) == f.node
    else if n == INSPECTOR then f.inspector != "" ==> f.inspector in row.list(ColInspectors)
    else if n == COUNTRY then f.country != "" ==> row.text(ColCountry) == f.country
    else if n == ASN then f.asn != 0 ==> row.number(ColAsn) == f.asn
    else if n == USER then f.user != "" ==> UserSelected(f.user, row)
    else if n == SESSION then f.sessionID != "" ==> f.sessionID in row.list(ColSessions)
    else if n == MARKER then f.marker != "" ==> f.marker in row.list(ColMarkers)
    else if n == VARS then
      forall i :: 0 <= i < |f.vars| ==> Shows(row.mapping(ColVars), f.vars[i].name, f.vars[i].value)
    else if n == HEADERS then
      forall i :: 0 <= i < |f.headers| ==> NamedSelected(row.mapping(ColHeaders), f.headers[i])
    else if n == PARAMS then
      forall i :: 0 <= i < |f.params| ==> NamedSelected(row.mapping(ColArgs), f.params[i])
    else if n == BODY then f.body != "" ==> ContainsFolded(row.text(ColBody), f.body)
    else if n == IP then f.cidrs != [] ==> AddressSelected(f.cidrs, parse, row.address)
    else true
  }

  lemma PartMeans(f: Filter, parse: Parser, n: nat, args: seq<Arg>, row: Row)
    requires |row.address| == 16 && ParserOk(parse)
    ensures Means(PartAt(f, parse, n), args, row, Asks(f, parse, n, row))
  {
    hide Means, FramePart, TimePart, EqualsPart, NumberPart, LikePart, OneOfPart, HasPart, UserPart, VarsFrom,
         NamedFrom, IpPart, AddressSelected, UserSelected, ContainsFolded, NamedSelected, Shows;
    if n == FRAME { FrameMeans(f, args, row); }
    else if n == PHASE { EqualsMeans(PHASE, ColPhase, f.phase, args, row); }
    else if n == RAY { EqualsMeans(RAY, ColRay, f.ray, args, row); }
    else if n == TIME { TimeMeans(f, args, row); }
    else if n == VERDICT { EqualsMeans(VERDICT, ColVerdict, f.verdict, args, row); }
    else if n == CODE { EqualsMeans(CODE, ColCode, f.code, args, row); }
    else if n == METHOD { EqualsMeans(METHOD, ColMethod, f.method_, args, row); }
    else if n == HOST { EqualsMeans(HOST, ColHost, f.host, args, row); }
    else if n == URI { LikeMeans(URI, ColUri, f.uri, args, row); }
    else if n == ROUTES { OneOfMeans(ROUTES, ColLocation, f.locationIDs, args, row); }
    else if n == SERVERS { OneOfMeans(SERVERS, ColServer, f.serverNames, args, row); }
    else if n == STATUS { NumberMeans(STATUS, ColStatus, f.hasStatus, f.status, args, row); }
    else if n == NODE { EqualsMeans(NODE, ColNode, f.node, args, row); }
    else if n == INSPECTOR { HasMeans(INSPECTOR, ColInspectors, f.inspector, args, row); }
    else if n == COUNTRY { EqualsMeans(COUNTRY, ColCountry, f.country, args, row); }
    else if n == ASN { NumberMeans(ASN, ColAsn, f.asn != 0, f.asn, args, row); }
    else if n == USER { UserMeans(f.user, args, row); }
    else if n == SESSION { HasMeans(SESSION, ColSessions, f.sessionID, args, row); }
    else if n == MARKER { HasMeans(MARKER, ColMarkers, f.marker, args, row); }
    else if n == VARS { VarsMean(f.vars, 0, args, row); }
    else if n == HEADERS { NamedMean(HEADERS, ColHeaders, f.headers, 0, args, row); }
    else if n == PARAMS { NamedMean(PARAMS, ColArgs, f.params, 0, args, row); }
    else if n == BODY { LikeMeans(BODY, ColBody, f.body, args, row); }
    else if n == IP { IpMeans(f.cidrs, parse, args, row); }
    else { PageMeans(f, parse, n, args, row); }
  }

  lemma PageMeans(f: Filter, parse: Parser, n: nat, args: seq<Arg>, row: Row)
    requires n > IP
    ensures Means(PartAt(f, parse, n), args, row, true)
  {
  }

  lemma {:induction false} PartsMean(f: Filter, parse: Parser, ns: seq<nat>, args: seq<Arg>, row: Row)
    requires |row.address| == 16 && ParserOk(parse)
    ensures Means(Parts(f, parse, ns), args, row, forall n :: n in ns ==> Asks(f, parse, n, row))
  {
    hide PartAt, Asks, Means;
    if ns == [] {
      NoneMeans(args, row);
    } else {
      PartMeans(f, parse, ns[0], args, row);
      PartsMean(f, parse, ns[1..], args, row);
      JoinMeans(PartAt(f, parse, ns[0]), Parts(f, parse, ns[1..]), args, row, Asks(f, parse, ns[0], row),
                forall n :: n in ns[1..] ==> Asks(f, parse, n, row));
      assert forall n :: n in ns <==> n == ns[0] || n in ns[1..];
    }
  }

  lemma NoneMeans(args: seq<Arg>, row: Row)
    ensures Means(NONE, args, row, true)
  {
  }

  predicate Visited(f: Filter, n: nat) {
    n <= IP && if f.ray != "" then n <= RAY || n == NODE else n != RAY
  }

  lemma PartsCount(f: Filter)
    ensures |PartNumbers(f)| == if f.ray != "" then 4 else 23
  {
  }

  /** The parts come in the order of their numbers. */
  lemma NumberAt(f: Filter, i: nat)
    requires i < |PartNumbers(f)|
    ensures PartNumbers(f)[i] == if f.ray != "" then (if i < 3 then i else NODE) else if i < 2 then i else i + 1
  {
  }

  lemma NumbersAre(f: Filter, n: nat)
    ensures n in PartNumbers(f) <==> Visited(f, n)
  {
    hide PartNumbers;
    var ns := PartNumbers(f);
    forall i | 0 <= i < |ns| { NumberAt(f, i); }
    PartsCount(f);
    if Visited(f, n) {
      var i := if n <= 2 && (f.ray != "" || n < 2) then n else if f.ray != "" then 3 else n - 1;
      NumberAt(f, i);
      assert ns[i] == n;
    }
  }

  lemma AsksIsSelects(f: Filter, parse: Parser, row: Row)
    requires |row.address| == 16 && ParserOk(parse)
    ensures (forall n :: n in PartNumbers(f) ==> Asks(f, parse, n, row)) <==> Selects(f, parse, row)
  {
    hide PartNumbers, Asks, Selects;
    forall n { NumbersAre(f, n); }
    VisitedAsks(f, parse, row);
  }

  lemma SelectsAsks(f: Filter, parse: Parser, row: Row, n: nat)
    requires |row.address| == 16 && ParserOk(parse) && Selects(f, parse, row) && Visited(f, n)
    ensures Asks(f, parse, n, row)
  {
    hide AddressSelected, UserSelected, ContainsFolded, NamedSelected, Shows;
  }

  lemma AsksColumns(f: Filter, parse: Parser, row: Row)
    requires |row.address| == 16 && ParserOk(parse)
    requires Asks(f, parse, TIME, row) && Asks(f, parse, VERDICT, row) && Asks(f, parse, CODE, row)
    requires Asks(f, parse, METHOD, row) && Asks(f, parse, HOST, row) && Asks(f, parse, STATUS, row)
    requires Asks(f, parse, ROUTES, row) && Asks(f, parse, SERVERS, row)
    requires Asks(f, parse, COUNTRY, row) && Asks(f, parse, ASN, row)
    ensures ColumnsSelected(f, row)
  {
    hide AddressSelected, UserSelected, ContainsFolded, NamedSelected, Shows;
  }

  lemma AsksLists(f: Filter, parse: Parser, row: Row)
    requires |row.address| == 16 && ParserOk(parse)
    requires Asks(f, parse, INSPECTOR, row) && Asks(f, parse, USER, row) && Asks(f, parse, SESSION, row)
    requires Asks(f, parse, MARKER, row) && Asks(f, parse, VARS, row)
    requires Asks(f, parse, HEADERS, row) && Asks(f, parse, PARAMS, row)
    ensures ListsSelected(f, row)
  {
    hide AddressSelected, UserSelected, ContainsFolded, NamedSelected, Shows;
  }

  lemma AsksTexts(f: Filter, parse: Parser, row: Row)
    requires |row.address| == 16 && ParserOk(parse) && Asks(f, parse, URI, row) && Asks(f, parse, BODY, row)
    ensures TextsSelected(f, row)
  {
    hide AddressSelected, UserSelected, ContainsFolded, NamedSelected, Shows;
  }

  lemma AsksEnds(f: Filter, parse: Parser, row: Row)
    requires |row.address| == 16 && ParserOk(parse)
    ensures Asks(f, parse, FRAME, row) <==> (f.frameDirection != "" ==>
              row.text(ColDirection) == f.frameDirection && row.number(ColFrame) == f.frameSeq)
    ensures Asks(f, parse, PHASE, row) <==> (f.phase != "" ==> row.text(ColPhase) == f.phase)
    ensures Asks(f, parse, NODE, row) <==> (f.node != "" ==> row.text(ColNode) == f.node)
    ensures f.ray != "" ==> (Asks(f, parse, RAY, row) <==> row.text(ColRay) == f.ray)
    ensures Asks(f, parse, IP, row) <==> (f.cidrs != [] ==> AddressSelected(f.cidrs, parse, row.address))
  {
    hide AddressSelected, UserSelected, ContainsFolded, NamedSelected, Shows;
  }

  lemma VisitedAsks(f: Filter, parse: Parser, row: Row)
    requires |row.address| == 16 && ParserOk(parse)
    ensures (forall n :: Visited(f, n) ==> Asks(f, parse, n, row)) <==> Selects(f, parse, row)
  {
    hide Asks, AddressSelected, ColumnsSelected, ListsSelected, TextsSelected;
    if Selects(f, parse, row) {
      forall n | Visited(f, n) { SelectsAsks(f, parse, row, n); }
    }
    AsksEnds(f, parse, row);
    if forall n :: Visited(f, n) ==> Asks(f, parse, n, row) {
      assert Visited(f, FRAME) && Visited(f, PHASE) && Visited(f, NODE);
      if f.ray == "" {
        AsksColumns(f, parse, row);
        AsksLists(f, parse, row);
        AsksTexts(f, parse, row);
        assert Visited(f, IP);
      } else {
        assert Visited(f, RAY);
      }
    }
  }

  /** The filter compiler preserves meaning: every name in the parameters is bound once, and the
      conjunction of the clauses under these bindings selects exactly the rows the filter asks for,
      with the early return when a ray is given. */
  lemma {:induction false} WherePreservesMeaning(f: Filter, parse: Parser, row: Row)
    requires |row.address| == 16 && ParserOk(parse)
    ensures DistinctNames(Args(Build(f, parse).entries))
    ensures AllHold(Where(f, parse).clauses, Args(Where(f, parse).entries), row) <==> Selects(f, parse, row)
    ensures AllHold(Build(f, parse).clauses, Args(Build(f, parse).entries), row) <==> Selects(f, parse, row)
  {
    hide Parts, Selects, Asks, AllHold, SlotOk, NameOf;
    hide PartNumbers;
    var ns := PartNumbers(f);
    NumbersAscend(f);
    Bindings(f, parse, ns);
    Bindings(f, parse, ns + [PAGE]);
    PartsMean(f, parse, ns, Args(Parts(f, parse, ns).entries), row);
    PartsMean(f, parse, ns + [PAGE], Args(Parts(f, parse, ns + [PAGE]).entries), row);
    AsksIsSelects(f, parse, row);
    PageAsksNothing(f, parse, row);
  }

  lemma {:induction false} NumbersAscend(f: Filter)
    ensures Ascending(PartNumbers(f)) && Ascending(PartNumbers(f) + [PAGE])
  {
    hide PartNumbers;
    var ns := PartNumbers(f);
    PartsCount(f);
    forall i | 0 <= i < |ns| { NumberAt(f, i); }
  }

  lemma PageAsksNothing(f: Filter, parse: Parser, row: Row)
    requires |row.address| == 16 && ParserOk(parse)
    ensures Asks(f, parse, PAGE, row)
  {
  }

  lemma {:induction false} Bindings(f: Filter, parse: Parser, ns: seq<nat>)
    requires Ascending(ns)
    ensures var es := Parts(f, parse, ns).entries;
            DistinctNames(Args(es)) && AllBound(Args(es), es)
  {
    hide Parts, SlotOk, NameOf;
    PartsDistinct(f, parse, ns);
    ArgsDistinct(Parts(f, parse, ns).entries);
    DistinctBinds(Parts(f, parse, ns).entries);
  }

  lemma JoinNone(a: Part, b: Part, c: Part)
    ensures Join(a, NONE) == a && Join(NONE, a) == a && Join(Join(a, b), c) == Join(a, Join(b, c))
  {
    assert a.clauses + (b.clauses + c.clauses) == a.clauses + b.clauses + c.clauses;
    assert a.entries + (b.entries + c.entries) == a.entries + b.entries + c.entries;
  }

  lemma {:induction false} PartsSnoc(f: Filter, parse: Parser, ns: seq<nat>, n: nat)
    ensures Parts(f, parse, ns + [n]) == Join(Parts(f, parse, ns), PartAt(f, parse, n))
  {
    hide PartAt;
    if ns == [] {
      assert ns + [n] == [n] && [n][1..] == [];
      JoinNone(PartAt(f, parse, n), NONE, NONE);
    } else {
      assert (ns + [n])[0] == ns[0] && (ns + [n])[1..] == ns[1..] + [n];
      PartsSnoc(f, parse, ns[1..], n);
      JoinNone(PartAt(f, parse, ns[0]), Parts(f, parse, ns[1..]), PartAt(f, parse, n));
    }
  }

  /** The page is bound under its two names, whatever the filter. */
  lemma PageBound(f: Filter, parse: Parser)
    ensures Lookup(Args(Build(f, parse).entries), "limit") == Just(Number(f.limit))
    ensures Lookup(Args(Build(f, parse).entries), "offset") == Just(Number(f.offset))
  {
    hide PartNumbers, Parts, SlotOk, NameOf, Lookup;
    var ns := PartNumbers(f);
    var es := Build(f, parse).entries;
    NumbersAscend(f);
    Bindings(f, parse, ns + [PAGE]);
    PartsSnoc(f, parse, ns, PAGE);
    PageEntries(f, parse);
    var n := |Parts(f, parse, ns).entries|;
    assert es[n] == Entry(Slot(PAGE, 0, 0), Number(f.limit));
    assert es[n + 1] == Entry(Slot(PAGE, 1, 0), Number(f.offset));
    assert Bound(Args(es), es[n]) && Bound(Args(es), es[n + 1]);
    PageNames();
  }

  lemma PageEntries(f: Filter, parse: Parser)
    ensures PartAt(f, parse, PAGE).entries ==
            [Entry(Slot(PAGE, 0, 0), Number(f.limit)), Entry(Slot(PAGE, 1, 0), Number(f.offset))]
  {
  }

  lemma PageNames()
    ensures NameOf(Slot(PAGE, 0, 0)) == "limit" && NameOf(Slot(PAGE, 1, 0)) == "offset"
  {
  }

  // The program's own form

  /** ipClause: the loop over the prefixes. */
  method IpClause(cidrs: seq<string>, parse: Parser) returns (part: Part)
    requires ParserOk(parse)
    ensures part == IpPart(cidrs, parse)
  {
    hide Name, Low, High, Wide;
    var singles: seq<string>, ranges: seq<(string, string)>, args: seq<Entry> := [], [], [];
    for i := 0 to |cidrs|
      invariant var ips := IpsFrom(cidrs, parse, i);
                Ips(args + ips.entries, singles + ips.singles, ranges + ips.ranges) == IpsFrom(cidrs, parse, 0)
    {
      ghost var rest := IpsFrom(cidrs, parse, i + 1);
      var parsed := parse(cidrs[i]);
      if parsed.Nothing? {
        continue;
      }
      var lo, hi := Range(parsed.value);
      if lo == hi {
        assert args + ([Entry(Slot(IP, 0, i), Addr(lo))] + rest.entries) ==
               args + [Entry(Slot(IP, 0, i), Addr(lo))] + rest.entries;
        singles := singles + [Name(IP, 0, i)];
        args := args + [Entry(Slot(IP, 0, i), Addr(lo))];
        continue;
      }
      assert args + ([Entry(Slot(IP, 1, i), Addr(lo)), Entry(Slot(IP, 2, i), Addr(hi))] + rest.entries) ==
             args + [Entry(Slot(IP, 1, i), Addr(lo)), Entry(Slot(IP, 2, i), Addr(hi))] + rest.entries;
      ranges := ranges + [(Name(IP, 1, i), Name(IP, 2, i))];
      args := args + [Entry(Slot(IP, 1, i), Addr(lo)), Entry(Slot(IP, 2, i), Addr(hi))];
    }
    assert args + [] == args && singles + [] == singles && ranges + [] == ranges;
    if |singles| == 0 && |ranges| == 0 {
      return NONE;
    }
    return Part([AnyAddress(singles, ranges)], args);
  }

  method VarClauses(items: seq<Named>) returns (part: Part)
    ensures part == VarsFrom(items, 0)
  {
    part := NONE;
    for i := 0 to |items|
      invariant Join(part, VarsFrom(items, i)) == VarsFrom(items, 0)
    {
      var next := Part([MapEquals(ColVars, Name(VARS, 0, i), Name(VARS, 1, i))],
                       [Entry(Slot(VARS, 0, i), Text(items[i].name)), Entry(Slot(VARS, 1, i), Text(items[i].value))]);
      JoinNone(part, next, VarsFrom(items, i + 1));
      part := Join(part, next);
    }
    JoinNone(part, NONE, NONE);
  }

  method NamedClauses(part: nat, column: MapColumn, items: seq<Named>) returns (built: Part)
    requires part == HEADERS || part == PARAMS
    ensures built == NamedFrom(part, column, items, 0)
  {
    built := NONE;
    for i := 0 to |items|
      invariant Join(built, NamedFrom(part, column, items, i)) == NamedFrom(part, column, items, 0)
    {
      var key := Entry(Slot(part, 0, i), Text(items[i].name));
      var next := Part([MapHas(column, Name(part, 0, i))], [key]);
      if items[i].value != "" {
        next := Part([MapEquals(column, Name(part, 0, i), Name(part, 1, i))],
                     [key, Entry(Slot(part, 1, i), Text(items[i].value))]);
      }
      JoinNone(built, next, NamedFrom(part, column, items, i + 1));
      built := Join(built, next);
    }
    JoinNone(built, NONE, NONE);
  }

  /** What where has put together so far. */
  datatype Built = Built(clauses: seq<Clause>, args: seq<Arg>)

  function Plus(b: Built, p: Part): Built {
    Built(b.clauses + p.clauses, b.args + Args(p.entries))
  }

  lemma PlusNone(b: Built)
    ensures Plus(b, NONE) == b
  {
  }

  /** The names of parts without a list are their stems. */
  lemma PlainNames(part: nat)
    requires !Numbered(part) && 0 < |Stems(part)| <= 2
    ensures Name(part, 0, 0) == Stems(part)[0]
    ensures |Stems(part)| == 2 ==> Name(part, 1, 0) == Stems(part)[1]
  {
    hide Stems;
  }

  lemma TwoArgs(d: Entry, e: Entry)
    ensures Args([d]) == [Arg(NameOf(d.slot), d.value)]
    ensures Args([d, e]) == [Arg(NameOf(d.slot), d.value), Arg(NameOf(e.slot), e.value)]
  {
    hide NameOf;
    assert [d, e][1..] == [e] && [e][1..] == [] && [d][1..] == [];
  }

  /** The one parameter of the part is called so. */
  ghost predicate NameIs(part: nat, name: string) {
    !Numbered(part) && |Stems(part)| == 1 && Stems(part)[0] == name
  }

  lemma ParameterNames()
    ensures NameIs(PHASE, "phase") && NameIs(RAY, "ray") && NameIs(NODE, "node") && NameIs(VERDICT, "verdict")
    ensures NameIs(CODE, "code") && NameIs(METHOD, "method") && NameIs(HOST, "host") && NameIs(URI, "uri")
  {
  }

  lemma OtherNames()
    ensures NameIs(ROUTES, "routes") && NameIs(SERVERS, "servers") && NameIs(STATUS, "status")
    ensures NameIs(INSPECTOR, "inspector") && NameIs(COUNTRY, "country") && NameIs(ASN, "asn")
    ensures NameIs(SESSION, "session") && NameIs(MARKER, "marker") && NameIs(BODY, "body")
  {
  }

  lemma OneMore(b: Built, part: nat, c: Clause, name: string, v: Value)
    requires NameIs(part, name)
    ensures Built(b.clauses + [c], b.args + [Arg(name, v)]) == Plus(b, One(part, c, v))
    ensures Name(part, 0, 0) == name
  {
    hide Stems;
    PlainNames(part);
    assert Args([Entry(Slot(part, 0, 0), v)]) == [Arg(name, v)];
  }

  /** The closure `add` of where. */
  method Add(b: Built, c: Clause, name: string, v: Value) returns (r: Built)
    ensures r == Built(b.clauses + [c], b.args + [Arg(name, v)])
  {
    r := Built(b.clauses + [c], b.args + [Arg(name, v)]);
  }

  method AddText(b: Built, ghost part: nat, column: TextColumn, name: string, s: string) returns (r: Built)
    requires NameIs(part, name)
    ensures r == Plus(b, EqualsPart(part, column, s))
  {
    hide Stems, Plus, Name;
    r := b;
    PlusNone(b);
    if s != "" {
      OneMore(b, part, Equals(column, name), name, Text(s));
      r := Add(b, Equals(column, name), name, Text(s));
    }
  }

  method AddNumber(b: Built, ghost part: nat, column: NumberColumn, name: string, on: bool, n: int) returns (r: Built)
    requires NameIs(part, name)
    ensures r == Plus(b, NumberPart(part, column, on, n))
  {
    hide Stems, Plus, Name;
    r := b;
    PlusNone(b);
    if on {
      OneMore(b, part, EqualsNumber(column, name), name, Number(n));
      r := Add(b, EqualsNumber(column, name), name, Number(n));
    }
  }

  method AddLike(b: Built, ghost part: nat, column: TextColumn, name: string, s: string) returns (r: Built)
    requires NameIs(part, name)
    ensures r == Plus(b, LikePart(part, column, s))
  {
    hide Stems, Plus, Name;
    r := b;
    PlusNone(b);
    if s != "" {
      var pattern := Text("%" + Escape(Lower(s)) + "%");
      OneMore(b, part, LikeLower(column, name), name, pattern);
      r := Add(b, LikeLower(column, name), name, pattern);
    }
  }

  method AddOneOf(b: Built, ghost part: nat, column: TextColumn, name: string, items: seq<string>) returns (r: Built)
    requires NameIs(part, name)
    ensures r == Plus(b, OneOfPart(part, column, items))
  {
    hide Stems, Plus, Name;
    r := b;
    PlusNone(b);
    if |items| > 0 {
      OneMore(b, part, OneOf(name, column), name, Texts(items));
      r := Add(b, OneOf(name, column), name, Texts(items));
    }
  }

  method AddHas(b: Built, ghost part: nat, column: ListColumn, name: string, s: string) returns (r: Built)
    requires NameIs(part, name)
    ensures r == Plus(b, HasPart(part, column, s))
  {
    hide Stems, Plus, Name;
    r := b;
    PlusNone(b);
    if s != "" {
      OneMore(b, part, Has(column, name), name, Text(s));
      r := Add(b, Has(column, name), name, Text(s));
    }
  }

  method AddFrame(b: Built, f: Filter) returns (r: Built)
    ensures r == Plus(b, FramePart(f))
  {
    PlainNames(FRAME);
    r := b;
    PlusNone(b);
    if f.frameDirection != "" {
      TwoArgs(FramePart(f).entries[0], FramePart(f).entries[1]);
      r := Add(r, Equals(ColDirection, "frame_direction"), "frame_direction", Text(f.frameDirection));
      r := Add(r, EqualsNumber(ColFrame, "frame_seq"), "frame_seq", Number(f.frameSeq));
    }
  }

  method AddTime(b: Built, f: Filter) returns (r: Built)
    ensures r == Plus(b, TimePart(f))
  {
    PlainNames(TIME);
    TwoArgs(TimePart(f).entries[0], TimePart(f).entries[1]);
    r := Add(b, NotBefore("from"), "from", Number(f.from));
    r := Add(r, NotAfter("to"), "to", Number(f.until));
  }

  method AddUser(b: Built, user: string) returns (r: Built)
    ensures r == Plus(b, UserPart(user))
  {
    hide SplitIdentity;
    PlainNames(USER);
    r := b;
    PlusNone(b);
    if user != "" {
      var who := SplitIdentity(user);
      if who.0 != "" {
        TwoArgs(UserPart(user).entries[0], UserPart(user).entries[1]);
        r := Built(r.clauses + [SessionOf("user_source", "user")],
                   r.args + [Arg("user_source", Text(who.0)), Arg("user", Text(who.1))]);
      } else {
        TwoArgs(UserPart(user).entries[0], UserPart(user).entries[0]);
        r := Add(r, Has(ColUsers, "user"), "user", Text(who.1));
      }
    }
  }

  /** The first k parts have been put together. */
  ghost predicate Done(b: Built, f: Filter, parse: Parser, k: nat) {
    k <= |PartNumbers(f)| && b == Plus(Built([], []), Parts(f, parse, PartNumbers(f)[..k]))
  }

  lemma Started(f: Filter, parse: Parser)
    ensures Done(Built([], []), f, parse, 0)
  {
  }

  lemma ArgsJoin(a: seq<Entry>, b: seq<Entry>)
    ensures Args(a + b) == Args(a) + Args(b)
    decreases |a|
  {
    if a == [] {
      assert a + b == b;
    } else {
      assert (a + b)[1..] == a[1..] + b;
      ArgsJoin(a[1..], b);
    }
  }

  lemma Advance(b: Built, f: Filter, parse: Parser, k: nat, n: nat)
    requires Done(b, f, parse, k) && k < |PartNumbers(f)| && PartNumbers(f)[k] == n
    ensures Done(Plus(b, PartAt(f, parse, n)), f, parse, k + 1)
  {
    hide PartAt, Args, PartNumbers, Parts;
    var ns := PartNumbers(f);
    PartsSnoc(f, parse, ns[..k], n);
    assert ns[..k + 1] == ns[..k] + [n];
    ArgsJoin(Parts(f, parse, ns[..k]).entries, PartAt(f, parse, n).entries);
  }

  lemma AllDone(b: Built, f: Filter, parse: Parser)
    requires Done(b, f, parse, |PartNumbers(f)|)
    ensures b.clauses == Where(f, parse).clauses && b.args == Args(Where(f, parse).entries)
  {
    hide Args, PartNumbers, Parts;
    assert PartNumbers(f)[..|PartNumbers(f)|] == PartNumbers(f);
  }

  lemma TextParts(f: Filter, parse: Parser)
    ensures PartAt(f, parse, PHASE) == EqualsPart(PHASE, ColPhase, f.phase)
    ensures PartAt(f, parse, RAY) == EqualsPart(RAY, ColRay, f.ray)
    ensures PartAt(f, parse, VERDICT) == EqualsPart(VERDICT, ColVerdict, f.verdict)
    ensures PartAt(f, parse, CODE) == EqualsPart(CODE, ColCode, f.code)
    ensures PartAt(f, parse, METHOD) == EqualsPart(METHOD, ColMethod, f.method_)
    ensures PartAt(f, parse, HOST) == EqualsPart(HOST, ColHost, f.host)
    ensures PartAt(f, parse, NODE) == EqualsPart(NODE, ColNode, f.node)
    ensures PartAt(f, parse, COUNTRY) == EqualsPart(COUNTRY, ColCountry, f.country)
  {
    hide EqualsPart;
  }

  lemma OtherParts(f: Filter, parse: Parser)
    ensures PartAt(f, parse, FRAME) == FramePart(f) && PartAt(f, parse, TIME) == TimePart(f)
    ensures PartAt(f, parse, URI) == LikePart(URI, ColUri, f.uri)
    ensures PartAt(f, parse, BODY) == LikePart(BODY, ColBody, f.body)
    ensures PartAt(f, parse, ROUTES) == OneOfPart(ROUTES, ColLocation, f.locationIDs)
    ensures PartAt(f, parse, SERVERS) == OneOfPart(SERVERS, ColServer, f.serverNames)
    ensures PartAt(f, parse, STATUS) == NumberPart(STATUS, ColStatus, f.hasStatus, f.status)
    ensures PartAt(f, parse, ASN) == NumberPart(ASN, ColAsn, f.asn != 0, f.asn)
  {
    hide FramePart, TimePart, NumberPart, LikePart, OneOfPart;
  }

  lemma ListParts(f: Filter, parse: Parser)
    ensures PartAt(f, parse, INSPECTOR) == HasPart(INSPECTOR, ColInspectors, f.inspector)
    ensures PartAt(f, parse, SESSION) == HasPart(SESSION, ColSessions, f.sessionID)
    ensures PartAt(f, parse, MARKER) == HasPart(MARKER, ColMarkers, f.marker)
    ensures PartAt(f, parse, USER) == UserPart(f.user) && PartAt(f, parse, VARS) == VarsFrom(f.vars, 0)
    ensures PartAt(f, parse, HEADERS) == NamedFrom(HEADERS, ColHeaders, f.headers, 0)
    ensures PartAt(f, parse, PARAMS) == NamedFrom(PARAMS, ColArgs, f.params, 0)
    ensures PartAt(f, parse, IP) == IpPart(f.cidrs, parse)
  {
    hide HasPart, UserPart, VarsFrom, NamedFrom, IpPart;
  }

  /** where: clause after clause, with the early return behind the node when a ray is given. */
  method Compile(f: Filter, parse: Parser) returns (clauses: seq<Clause>, args: seq<Arg>)
    requires ParserOk(parse)
    ensures clauses == Where(f, parse).clauses && args == Args(Where(f, parse).entries)
  {
    hide PartAt, FramePart, TimePart, EqualsPart, NumberPart, LikePart, OneOfPart, HasPart, UserPart, VarsFrom,
         NamedFrom, IpPart, Plus, Done, Args, Where, Parts, ParserOk, NameIs;
    ParameterNames();
    OtherNames();
    TextParts(f, parse);
    OtherParts(f, parse);
    ListParts(f, parse);
    var b := Built([], []);
    Started(f, parse);
    Advance(b, f, parse, 0, FRAME);
    b := AddFrame(b, f);
    Advance(b, f, parse, 1, PHASE);
    b := AddText(b, PHASE, ColPhase, "phase", f.phase);
    if f.ray != "" {
      Advance(b, f, parse, 2, RAY);
      b := AddText(b, RAY, ColRay, "ray", f.ray);
      Advance(b, f, parse, 3, NODE);
      b := AddText(b, NODE, ColNode, "node", f.node);
      AllDone(b, f, parse);
      return b.clauses, b.args;
    }
    Advance(b, f, parse, 2, TIME);
    b := AddTime(b, f);
    b := CompileColumns(f, parse, b);
    b := CompileMore(f, parse, b);
    b := CompileLists(f, parse, b);
    AllDone(b, f, parse);
    return b.clauses, b.args;
  }

  /** From the verdict to the servers. */
  method CompileColumns(f: Filter, parse: Parser, before: Built) returns (b: Built)
    requires f.ray == "" && Done(before, f, parse, 3)
    ensures Done(b, f, parse, 10)
  {
    hide PartAt, FramePart, TimePart, EqualsPart, NumberPart, LikePart, OneOfPart, HasPart, UserPart, VarsFrom,
         NamedFrom, IpPart, Plus, Done, Args, Parts, Join, Name, NameIs;
    ParameterNames();
    OtherNames();
    TextParts(f, parse);
    OtherParts(f, parse);
    ListParts(f, parse);
    b := before;
    Advance(b, f, parse, 3, VERDICT);
    b := AddText(b, VERDICT, ColVerdict, "verdict", f.verdict);
    Advance(b, f, parse, 4, CODE);
    b := AddText(b, CODE, ColCode, "code", f.code);
    Advance(b, f, parse, 5, METHOD);
    b := AddText(b, METHOD, ColMethod, "method", f.method_);
    Advance(b, f, parse, 6, HOST);
    b := AddText(b, HOST, ColHost, "host", f.host);
    Advance(b, f, parse, 7, URI);
    b := AddLike(b, URI, ColUri, "uri", f.uri);
    Advance(b, f, parse, 8, ROUTES);
    b := AddOneOf(b, ROUTES, ColLocation, "routes", f.locationIDs);
    Advance(b, f, parse, 9, SERVERS);
    b := AddOneOf(b, SERVERS, ColServer, "servers", f.serverNames);
  }

  /** From the status to the network. */
  method CompileMore(f: Filter, parse: Parser, before: Built) returns (b: Built)
    requires f.ray == "" && Done(before, f, parse, 10)
    ensures Done(b, f, parse, 15)
  {
    hide PartAt, FramePart, TimePart, EqualsPart, NumberPart, LikePart, OneOfPart, HasPart, UserPart, VarsFrom,
         NamedFrom, IpPart, Plus, Done, Args, Parts, Join, Name, NameIs;
    ParameterNames();
    OtherNames();
    TextParts(f, parse);
    OtherParts(f, parse);
    ListParts(f, parse);
    b := before;
    Advance(b, f, parse, 10, STATUS);
    b := AddNumber(b, STATUS, ColStatus, "status", f.hasStatus, f.status);
    Advance(b, f, parse, 11, NODE);
    b := AddText(b, NODE, ColNode, "node", f.node);
    Advance(b, f, parse, 12, INSPECTOR);
    b := AddHas(b, INSPECTOR, ColInspectors, "inspector", f.inspector);
    Advance(b, f, parse, 13, COUNTRY);
    b := AddText(b, COUNTRY, ColCountry, "country", f.country);
    Advance(b, f, parse, 14, ASN);
    b := AddNumber(b, ASN, ColAsn, "asn", f.asn != 0, f.asn);
  }

  /** The session columns, the maps, the body and the addresses. */
  method CompileLists(f: Filter, parse: Parser, before: Built) returns (b: Built)
    requires f.ray == "" && ParserOk(parse) && Done(before, f, parse, 15)
    ensures Done(b, f, parse, |PartNumbers(f)|)
  {
    hide PartAt, FramePart, TimePart, EqualsPart, NumberPart, LikePart, OneOfPart, HasPart, UserPart, VarsFrom,
         NamedFrom, IpPart, Done, Args, Parts, ParserOk, NameIs;
    ParameterNames();
    OtherNames();
    TextParts(f, parse);
    OtherParts(f, parse);
    ListParts(f, parse);
    b := before;
    Advance(b, f, parse, 15, USER);
    b := AddUser(b, f.user);
    Advance(b, f, parse, 16, SESSION);
    b := AddHas(b, SESSION, ColSessions, "session", f.sessionID);
    Advance(b, f, parse, 17, MARKER);
    b := AddHas(b, MARKER, ColMarkers, "marker", f.marker);
    Advance(b, f, parse, 18, VARS);
    var vars := VarClauses(f.vars);
    b := Built(b.clauses + vars.clauses, b.args + Args(vars.entries));
    Advance(b, f, parse, 19, HEADERS);
    var headers := NamedClauses(HEADERS, ColHeaders, f.headers);
    b := Built(b.clauses + headers.clauses, b.args + Args(headers.entries));
    Advance(b, f, parse, 20, PARAMS);
    var params := NamedClauses(PARAMS, ColArgs, f.params);
    b := Built(b.clauses + params.clauses, b.args + Args(params.entries));
    Advance(b, f, parse, 21, BODY);
    b := AddLike(b, BODY, ColBody, "body", f.body);
    Advance(b, f, parse, 22, IP);
    var ip := IpClause(f.cidrs, parse);
    b := Built(b.clauses + ip.clauses, b.args + Args(ip.entries));
  }

  /** build: the clauses, and the page as two more arguments. */
  method CompilePage(f: Filter, parse: Parser) returns (clauses: seq<Clause>, args: seq<Arg>)
    requires ParserOk(parse)
    ensures clauses == Build(f, parse).clauses && args == Args(Build(f, parse).entries)
  {
    hide PartAt, Args, Parts, ParserOk, PartNumbers;
    clauses, args := Compile(f, parse);
    PartsSnoc(f, parse, PartNumbers(f), PAGE);
    PageIs(f, parse);
    ArgsJoin(Where(f, parse).entries, PartAt(f, parse, PAGE).entries);
    args := args + [Arg("limit", Number(f.limit)), Arg("offset", Number(f.offset))];
  }

  lemma PageIs(f: Filter, parse: Parser)
    ensures PartAt(f, parse, PAGE).clauses == []
    ensures Args(PartAt(f, parse, PAGE).entries) == [Arg("limit", Number(f.limit)), Arg("offset", Number(f.offset))]
  {
    PlainNames(PAGE);
    TwoArgs(PartAt(f, parse, PAGE).entries[0], PartAt(f, parse, PAGE).entries[1]);
  }
}
