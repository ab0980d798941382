/** The names of the query parameters that `where` and `build` of internal/query/query.go bind,
    and why no two of them collide. */
module FilterNames {
  import opened Strings

  /** A parameter: the part of the filter it belongs to, which of the parameters of that part it is,
      and its number where the part has a list. */
  datatype Slot = Slot(part: nat, kind: nat, index: nat)

  const FRAME: nat := 0
  const PHASE: nat := 1
  const RAY: nat := 2
  const TIME: nat := 3
  const VERDICT: nat := 4
  const CODE: nat := 5
  const METHOD: nat := 6
  const HOST: nat := 7
  const URI: nat := 8
  const ROUTES: nat := 9
  const SERVERS: nat := 10
  const STATUS: nat := 11
  const NODE: nat := 12
  const INSPECTOR: nat := 13
  const COUNTRY: nat := 14
  const ASN: nat := 15
  const USER: nat := 16
  const SESSION: nat := 17
  const MARKER: nat := 18
  const VARS: nat := 19
  const HEADERS: nat := 20
  const PARAMS: nat := 21
  const BODY: nat := 22
  const IP: nat := 23
  const PAGE: nat := 24

  /** The stems of a part, in the order of their kinds. */
  function Stems(part: nat): seq<string> {
    if part == FRAME then ["frame_direction", "frame_seq"]
    else if part == PHASE then ["phase"]
    else if part == RAY then ["ray"]
    else if part == TIME then ["from", "to"]
    else if part == VERDICT then ["verdict"]
    else if part == CODE then ["code"]
    else if part == METHOD then ["method"]
    else if part == HOST then ["host"]
    else if part == URI then ["uri"]
    else if part == ROUTES then ["routes"]
    else if part == SERVERS then ["servers"]
    else if part == STATUS then ["status"]
    else if part == NODE then ["node"]
    else if part == INSPECTOR then ["inspector"]
    else if part == COUNTRY then ["country"]
    else if part == ASN then ["asn"]
    else if part == USER then ["user_source", "user"]
    else if part == SESSION then ["session"]
    else if part == MARKER then ["marker"]
    else if part == VARS then ["vk", "vv"]
    else if part == HEADERS then ["hk", "hv"]
    else if part == PARAMS then ["pk", "pv"]
    else if part == BODY then ["body"]
    else if part == IP then ["ip", "iplo", "iphi"]
    else if part == PAGE then ["limit", "offset"]
    else []
  }

  predicate Numbered(part: nat) {
    part == VARS || part == HEADERS || part == PARAMS || part == IP
  }

  predicate SlotOk(s: Slot) {
    s.kind < |Stems(s.part)| && (Numbered(s.part) || s.index == 0)
  }

  /** The name a slot is bound under, with `%d` for its number. */
  function NameOf(s: Slot): string {
    var stem := if s.kind < |Stems(s.part)| then Stems(s.part)[s.kind] else "";
    stem + (if Numbered(s.part) then Decimal(s.index) else "")
  }

  lemma FirstSlots(part: nat)
    requires part <= PAGE
    ensures SlotOk(Slot(part, 0, 0))
    ensures part in {FRAME, TIME, USER, VARS, HEADERS, PARAMS, IP, PAGE} ==> SlotOk(Slot(part, 1, 0))
    ensures Numbered(part) ==> forall i :: SlotOk(Slot(part, 0, i)) && SlotOk(Slot(part, 1, i))
    ensures part == IP ==> forall i :: SlotOk(Slot(part, 2, i))
  {
  }

  /** Length, first and last character tell all stems apart. */
  function Place(size: nat, first: char, last: char): (nat, nat) {
    if size == 2 then
      if first == 't' then (TIME, 1)
      else if first == 'v' then (if last == 'k' then (VARS, 0) else (VARS, 1))
      else if first == 'h' then (if last == 'k' then (HEADERS, 0) else (HEADERS, 1))
      else if first == 'p' then (if last == 'k' then (PARAMS, 0) else (PARAMS, 1))
      else (IP, 0)
    else if size == 3 then
      if first == 'r' then (RAY, 0) else if first == 'u' then (URI, 0) else (ASN, 0)
    else if size == 4 then
      if first == 'f' then (TIME, 0)
      else if first == 'c' then (CODE, 0)
      else if first == 'h' then (HOST, 0)
      else if first == 'n' then (NODE, 0)
      else if first == 'u' then (USER, 1)
      else if first == 'b' then (BODY, 0)
      else if last == 'o' then (IP, 1)
      else (IP, 2)
    else if size == 5 then
      if first == 'p' then (PHASE, 0) else (PAGE, 0)
    else if size == 6 then
      if first == 'r' then (ROUTES, 0)
      else if first == 's' then (STATUS, 0)
      else if first == 'o' then (PAGE, 1)
      else if last == 'd' then (METHOD, 0)
      else (MARKER, 0)
    else if size == 7 then
      if first == 'v' then (VERDICT, 0)
      else if first == 'c' then (COUNTRY, 0)
      else if last == 's' then (SERVERS, 0)
      else (SESSION, 0)
    else if size == 9 then
      if first == 'f' then (FRAME, 1) else (INSPECTOR, 0)
    else if size == 11 then (USER, 0)
    else (FRAME, 0)
  }

  predicate IsStem(s: string) {
    s != [] && forall i :: 0 <= i < |s| ==> !IsDigit(s[i])
  }

  lemma StemPlace(part: nat, kind: nat)
    requires kind < |Stems(part)|
    ensures var s := Stems(part)[kind]; s != [] && Place(|s|, s[0], s[|s| - 1]) == (part, kind)
  {
  }

  lemma FirstStems(part: nat, kind: nat)
    requires part < 9 && kind < |Stems(part)|
    ensures IsStem(Stems(part)[kind])
  {
  }

  lemma MiddleStems(part: nat, kind: nat)
    requires 9 <= part < 17 && kind < |Stems(part)|
    ensures IsStem(Stems(part)[kind])
  {
  }

  lemma LastStems(part: nat, kind: nat)
    requires 17 <= part && kind < |Stems(part)|
    ensures IsStem(Stems(part)[kind])
  {
  }

  lemma {:induction false} StemsAre(part: nat, kind: nat)
    requires kind < |Stems(part)|
    ensures IsStem(Stems(part)[kind])
  {
    hide Stems, IsStem;
    if part < 9 {
      FirstStems(part, kind);
    } else if part < 17 {
      MiddleStems(part, kind);
    } else {
      LastStems(part, kind);
    }
  }

  function StemSize(s: string): (n: nat)
    ensures n <= |s| && (n < |s| ==> IsDigit(s[n])) && forall j :: 0 <= j < n ==> !IsDigit(s[j])
  {
    if s == [] || IsDigit(s[0]) then 0 else 1 + StemSize(s[1..])
  }

  lemma StemSizeOf(a: string, m: string)
    requires IsStem(a) && AllDigits(m)
    ensures StemSize(a + m) == |a|
  {
    var s, n := a + m, StemSize(a + m);
    assert forall j :: 0 <= j < |a| ==> s[j] == a[j];
    assert forall j :: |a| <= j < |s| ==> s[j] == m[j - |a|];
    assert m != [] ==> s[|a|] == m[0];
  }

  /** A name splits in one way into a stem and its number. */
  lemma StemAndNumber(a: string, m: string, b: string, n: string)
    requires IsStem(a) && IsStem(b) && AllDigits(m) && AllDigits(n) && a + m == b + n
    ensures a == b && m == n
  {
    StemSizeOf(a, m);
    StemSizeOf(b, n);
    var s := a + m;
    assert a == s[..|a|] && b == s[..|a|] && m == s[|a|..] && n == s[|a|..];
  }

  /** No two parameters share a name, numbered or not. */
  lemma NamesDistinct(s: Slot, t: Slot)
    requires SlotOk(s) && SlotOk(t) && NameOf(s) == NameOf(t)
    ensures s == t
  {
    hide Stems, Place;
    StemPlace(s.part, s.kind);
    StemPlace(t.part, t.kind);
    StemsAre(s.part, s.kind);
    StemsAre(t.part, t.kind);
    var m := if Numbered(s.part) then Decimal(s.index) else "";
    var n := if Numbered(t.part) then Decimal(t.index) else "";
    StemAndNumber(Stems(s.part)[s.kind], m, Stems(t.part)[t.kind], n);
    if Numbered(s.part) {
      DecimalInjective(s.index, t.index);
    }
  }
}
