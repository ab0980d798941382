/** The filter compiler of internal/query/query.go: `where` and `ipClause` turn a filter into clauses
    with named parameters; here the clauses are evaluated on rows. */
module FilterCompile {
  import opened Strings
  import opened Like
  import opened Lists
  import opened IpRange
  import opened FilterNames

  // Rows and clauses

  datatype TextColumn = ColDirection | ColPhase | ColRay | ColNode | ColVerdict | ColCode | ColMethod | ColHost
                      | ColUri | ColLocation | ColServer | ColCountry | ColBody

  datatype NumberColumn = ColFrame | ColTime | ColStatus | ColAsn

  datatype ListColumn = ColInspectors | ColUsers | ColSessions | ColSources | ColMarkers

  datatype MapColumn = ColVars | ColHeaders | ColArgs

  /** A row of the table; the country and the network of its address come with it. */
  datatype Row = Row(text: TextColumn -> string, number: NumberColumn -> int, list: ListColumn -> seq<string>,
                     mapping: MapColumn -> map<string, string>, address: Address)

  datatype Clause =
    | Equals(column: TextColumn, name: string)
    | EqualsNumber(number: NumberColumn, name: string)
    | NotBefore(name: string)
    | NotAfter(name: string)
    | LikeLower(column: TextColumn, name: string)
    | OneOf(name: string, column: TextColumn)
    | Has(list: ListColumn, name: string)
    | SessionOf(source: string, user: string)
    | MapEquals(mapping: MapColumn, key: string, value: string)
    | MapHas(mapping: MapColumn, key: string)
    | AnyAddress(singles: seq<string>, ranges: seq<(string, string)>)

  datatype Value = Text(text: string) | Number(number: int) | Texts(texts: seq<string>) | Addr(address: Address)

  datatype Arg = Arg(name: string, value: Value)

  /** The value a name is bound to. */
  function Lookup(args: seq<Arg>, name: string): Maybe<Value> {
    if args == [] then Nothing
    else if args[0].name == name then Just(args[0].value)
    else Lookup(args[1..], name)
  }

  function TextArg(args: seq<Arg>, name: string): Maybe<string> {
    match Lookup(args, name)
    case Just(Text(s)) => Just(s)
    case _ => Nothing
  }

  predicate TextIs(args: seq<Arg>, name: string, s: string) {
    TextArg(args, name) == Just(s)
  }

  predicate AnySingle(names: seq<string>, args: seq<Arg>, x: Address) {
    names != [] && (Single(args, names[0], x) || AnySingle(names[1..], args, x))
  }

  predicate AnyRange(names: seq<(string, string)>, args: seq<Arg>, x: Address) {
    names != [] && (Within(args, names[0], x) || AnyRange(names[1..], args, x))
  }

  predicate Single(args: seq<Arg>, name: string, x: Address) {
    Lookup(args, name) == Just(Addr(x))
  }

  predicate Within(args: seq<Arg>, names: (string, string), x: Address) {
    match (Lookup(args, names.0), Lookup(args, names.1))
    case (Just(Addr(lo)), Just(Addr(hi))) =>
      |lo| == |x| == |hi| && AtMost(lo, x) && AtMost(x, hi)
    case _ => false
  }

  predicate HasSession(sources: seq<string>, users: seq<string>, source: string, user: string) {
    exists i :: 0 <= i < |sources| && i < |users| && sources[i] == source && users[i] == user
  }

  /** Whether a clause holds of a row; one with an unbound or ill-typed name does not. */
  predicate Holds(c: Clause, args: seq<Arg>, row: Row) {
    match c
    case Equals(column, name) => TextIs(args, name, row.text(column))
    case EqualsNumber(column, name) => Lookup(args, name) == Just(Number(row.number(column)))
    case NotBefore(name) =>
      (match Lookup(args, name) case Just(Number(t)) => row.number(ColTime) >= t case _ => false)
    case NotAfter(name) =>
      (match Lookup(args, name) case Just(Number(t)) => row.number(ColTime) <= t case _ => false)
    case LikeLower(column, name) =>
      (match TextArg(args, name) case Just(p) => Matches(p, Lower(row.text(column))) case _ => false)
    case OneOf(name, column) =>
      (match Lookup(args, name) case Just(Texts(items)) => row.text(column) in items case _ => false)
    case Has(column, name) =>
      (match TextArg(args, name) case Just(s) => s in row.list(column) case _ => false)
    case SessionOf(source, user) =>
      (match (TextArg(args, source), TextArg(args, user))
       case (Just(s), Just(u)) => HasSession(row.list(ColSources), row.list(ColUsers), s, u)
       case _ => false)
    case MapEquals(column, key, value) =>
      (match TextArg(args, key) case Just(k) => TextIs(args, value, Get(row.mapping(column), k, "")) case _ => false)
    case MapHas(column, key) =>
      (match TextArg(args, key) case Just(k) => k in row.mapping(column) case _ => false)
    case AnyAddress(singles, ranges) =>
      AnySingle(singles, args, row.address) || AnyRange(ranges, args, row.address)
  }

  /** The conjunction of the clauses. */
  predicate AllHold(cs: seq<Clause>, args: seq<Arg>, row: Row) {
    cs == [] || (Holds(cs[0], args, row) && AllHold(cs[1..], args, row))
  }

  lemma {:induction false} AllHoldJoin(a: seq<Clause>, b: seq<Clause>, args: seq<Arg>, row: Row)
    ensures AllHold(a + b, args, row) <==> AllHold(a, args, row) && AllHold(b, args, row)
  {
    hide Holds;
    if a == [] {
      assert a + b == b;
    } else {
      assert (a + b)[1..] == a[1..] + b;
      AllHoldJoin(a[1..], b, args, row);
    }
  }

  // Filters

  datatype Named = Named(name: string, value: string)

  datatype Filter = Filter(from: int, until: int, verdict: string, code: string, method_: string, host: string,
                           uri: string, ray: string, phase: string, frameDirection: string, frameSeq: int,
                           status: int, hasStatus: bool, node: string, inspector: string, cidrs: seq<string>,
                           country: string, asn: int, locationIDs: seq<string>, serverNames: seq<string>,
                           vars: seq<Named>, user: string, sessionID: string, marker: string,
                           headers: seq<Named>, params: seq<Named>, body: string, limit: int, offset: int)

  /** SplitIdentity. */
  function SplitIdentity(raw: string): (string, string) {
    var i := IndexOf(raw, ':');
    if i < |raw| then (raw[..i], raw[i + 1..]) else ("", raw)
  }

  /** What stands before the first colon and what stands behind it, further colons included. */
  lemma SplitAtColon(source: string, user: string)
    requires ':' !in source
    ensures SplitIdentity(source + ":" + user) == (source, user)
  {
    var raw := source + [':'] + user;
    IndexOfJoin(source, ':', user);
    assert raw[..|source|] == source && raw[|source| + 1..] == user;
  }

  lemma SplitNoColon(user: string)
    requires ':' !in user
    ensures SplitIdentity(user) == ("", user)
  {
  }

  /** netip.ParsePrefix. */
  type Parser = string -> Maybe<Prefix>

  ghost predicate ParserOk(parse: Parser) {
    forall s :: parse(s).Just? ==> PrefixOk(parse(s).value)
  }

  // What the filter selects, in plain words

  /** A map of the database shows the empty text where it has no value. */
  predicate Shows(m: map<string, string>, key: string, value: string) {
    if key in m then m[key] == value else value == ""
  }

  predicate NamedSelected(m: map<string, string>, n: Named) {
    n.name in m && (n.value == "" || m[n.name] == n.value)
  }

  predicate SameLetter(a: char, b: char) {
    a == b || ('A' <= a <= 'Z' && b as int == a as int + 32) || ('A' <= b <= 'Z' && a as int == b as int + 32)
  }

  predicate FoldedAt(text: string, i: nat, s: string) {
    i + |s| <= |text| && forall j :: 0 <= j < |s| ==> SameLetter(text[i + j], s[j])
  }

  /** `s` stands somewhere in the text, in letters of either case. */
  predicate ContainsFolded(text: string, s: string) {
    exists i :: 0 <= i <= |text| && FoldedAt(text, i, s)
  }

  ghost predicate AddressSelected(cidrs: seq<string>, parse: Parser, x: Address)
    requires |x| == 16 && ParserOk(parse)
  {
    (forall i :: 0 <= i < |cidrs| ==> parse(cidrs[i]).Nothing?) ||
    (exists i :: 0 <= i < |cidrs| && parse(cidrs[i]).Just? && InPrefix(x, parse(cidrs[i]).value))
  }

  /** The row has a session of the user, at the source if one is given. */
  predicate SessionSelected(source: string, user: string, row: Row) {
    var sources, users := row.list(ColSources), row.list(ColUsers);
    if source == "" then user in users
    else exists i :: 0 <= i < |sources| && i < |users| && sources[i] == source && users[i] == user
  }

  /** A text without a colon asks for a user, any other for what stands behind its first colon, at the
      source that stands before it. */
  predicate UserSelected(asked: string, row: Row) {
    if ':' !in asked then asked in row.list(ColUsers)
    else exists k :: 0 <= k < |asked| && asked[k] == ':' && ':' !in asked[..k] &&
           SessionSelected(asked[..k], asked[k + 1..], row)
  }

  predicate ColumnsSelected(f: Filter, row: Row) {
    && f.from <= row.number(ColTime) <= f.until
    && (f.verdict != "" ==> row.text(ColVerdict) == f.verdict)
    && (f.code != "" ==> row.text(ColCode) == f.code)
    && (f.method_ != "" ==> row.text(ColMethod) == f.method_)
    && (f.host != "" ==> row.text(ColHost) == f.host)
    && (f.locationIDs != [] ==> row.text(ColLocation) in f.locationIDs)
    && (f.serverNames != [] ==> row.text(ColServer) in f.serverNames)
    && (f.hasStatus ==> row.number(ColStatus) == f.status)
    && (f.country != "" ==> row.text(ColCountry) == f.country)
    && (f.asn != 0 ==> row.number(ColAsn) == f.asn)
  }

  predicate ListsSelected(f: Filter, row: Row) {
    && (f.inspector != "" ==> f.inspector in row.list(ColInspectors))
    && (f.user != "" ==> UserSelected(f.user, row))
    && (f.sessionID != "" ==> f.sessionID in row.list(ColSessions))
    && (f.marker != "" ==> f.marker in row.list(ColMarkers))
    && (forall i :: 0 <= i < |f.vars| ==> Shows(row.mapping(ColVars), f.vars[i].name, f.vars[i].value))
    && (forall i :: 0 <= i < |f.headers| ==> NamedSelected(row.mapping(ColHeaders), f.headers[i]))
    && (forall i :: 0 <= i < |f.params| ==> NamedSelected(row.mapping(ColArgs), f.params[i]))
  }

  predicate TextsSelected(f: Filter, row: Row) {
    && (f.uri != "" ==> ContainsFolded(row.text(ColUri), f.uri))
    && (f.body != "" ==> ContainsFolded(row.text(ColBody), f.body))
  }

  /** The rows a filter asks for. */
  ghost predicate Selects(f: Filter, parse: Parser, row: Row)
    requires |row.address| == 16 && ParserOk(parse)
  {
    && (f.frameDirection != "" ==>
          row.text(ColDirection) == f.frameDirection && row.number(ColFrame) == f.frameSeq)
    && (f.phase != "" ==> row.text(ColPhase) == f.phase)
    && (f.node != "" ==> row.text(ColNode) == f.node)
    && if f.ray != "" then row.text(ColRay) == f.ray
       else
         && ColumnsSelected(f, row) && ListsSelected(f, row) && TextsSelected(f, row)
         && (f.cidrs != [] ==> AddressSelected(f.cidrs, parse, row.address))
  }
}
