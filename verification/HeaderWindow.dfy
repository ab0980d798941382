/** Windows of a header list that do not open at its beginning: behind a pair, at a pair, or inside a
    string, whose rest is handed out as a continuation. */
module HeaderWindow {
  import opened Bytes
  import opened HeaderScan
  import opened HeaderDoc
  import opened HeaderCut

  // Windows that open between pairs

  /** A window that opens at the comma behind a pair, white space included, reads on with the next pair. */
  lemma {:induction false} SeparatorWindow(ws: Bytes, ps: seq<Item>, tail: Bytes, k: nat)
    requires IsSpaces(ws) && ps != [] && ItemsOk(ps)
    requires k <= |ws + ([COMMA] + (ListText(ps) + ([CLOSE] + tail)))|
    ensures var t := ws + ([COMMA] + (ListText(ps) + ([CLOSE] + tail)));
            && Scan(t[..k]) == (if k <= |ws| then NOTHING else ListCut(ps, k - |ws| - 1))
            && Scan(t) == Scanned(ListMeaning(ps), [])
  {
    hide Agree, IsSpaces, ListText, ListCut, ListMeaning, Scan, ItemsOk;
    var rest := ListText(ps) + ([CLOSE] + tail);
    var t := ws + ([COMMA] + rest);
    CommaScans(t[..k], ws, ps, tail, t);
    assert t[..|t|] == t;
    CommaScans(t, ws, ps, tail, t);
    ListCutWhole(ps, |t| - |ws| - 1);
  }

  lemma CommaScans(data: Bytes, ws: Bytes, ps: seq<Item>, tail: Bytes, t: Bytes)
    requires IsSpaces(ws) && ps != [] && ItemsOk(ps)
    requires t == ws + ([COMMA] + (ListText(ps) + ([CLOSE] + tail))) && |data| <= |t| && data == t[..|data|]
    ensures Scan(data) == if |data| <= |ws| then NOTHING else ListCut(ps, |data| - |ws| - 1)
  {
    hide Agree, IsSpaces, ItemsOk, ListText, ListCut, Skip, Scan;
    var rest := ListText(ps) + ([CLOSE] + tail);
    assert data[0..] == data;
    PrefixAgrees(data, 0, t);
    SkipAgrees(data, 0, ws, [COMMA] + rest);
    AgreeSplit(data, |ws|, [COMMA], rest);
    if |ws| < |data| {
      AgreeAt(data, |ws|, [COMMA], 0);
      BehindComma(data, |ws|, ps, tail);
    } else {
      OnlySpaces(data);
    }
  }

  lemma BehindComma(data: Bytes, at: nat, ps: seq<Item>, tail: Bytes)
    requires ps != [] && ItemsOk(ps) && at < |data| && Skip(data, 0) == at && data[at] == COMMA
    requires Agree(data, at + 1, ListText(ps) + ([CLOSE] + tail))
    ensures Scan(data) == ListCut(ps, |data| - at - 1)
  {
    hide Agree, ItemsOk, ListText, ListCut, Skip, ScanList, Unescape;
    ScanListSkips(data, at + 1);
    ListAgrees(data, at + 1, ps, tail);
  }

  lemma OnlySpaces(data: Bytes)
    requires Skip(data, 0) == |data|
    ensures Scan(data) == NOTHING
  {
    hide Skip, ScanList, Unescape;
  }

  /** A window that opens at a pair, without the bracket of the list, reads from that pair on. */
  lemma {:induction false} PairWindow(ps: seq<Item>, tail: Bytes, k: nat)
    requires ps != [] && ItemsOk(ps) && k <= |ListText(ps) + ([CLOSE] + tail)|
    ensures var t := ListText(ps) + ([CLOSE] + tail);
            && Scan(t[..k]) == ListCut(ps, k)
            && Scan(t) == Scanned(ListMeaning(ps), [])
  {
    hide Agree, ListText, ListCut, ListMeaning, Scan, ItemsOk;
    var t := ListText(ps) + ([CLOSE] + tail);
    PairScans(t[..k], ps, tail, t);
    assert t[..|t|] == t;
    PairScans(t, ps, tail, t);
    ListCutWhole(ps, |t|);
  }

  lemma PairScans(data: Bytes, ps: seq<Item>, tail: Bytes, t: Bytes)
    requires ps != [] && ItemsOk(ps)
    requires t == ListText(ps) + ([CLOSE] + tail) && |data| <= |t| && data == t[..|data|]
    ensures Scan(data) == ListCut(ps, |data|)
  {
    hide Agree, ListText, ListCut, Skip, ScanList;
    assert data[0..] == data;
    PrefixAgrees(data, 0, t);
    ListAgrees(data, 0, ps, tail);
    FirstPairOpens(data, 0, ps, tail);
    ScanListSkips(data, 0);
    var i := |ps[0].before|;
    if i < |data| {
      NameNext(data, ps, tail, t);
    } else {
      ListCutEarly(ps, |data|);
    }
  }

  lemma ListCutEarly(ps: seq<Item>, k: nat)
    requires ps != [] && k <= |ps[0].before|
    ensures ListCut(ps, k) == NOTHING
  {
  }

  /** Behind the bracket of a pair comes its name, not a second bracket. */
  lemma NameNext(data: Bytes, ps: seq<Item>, tail: Bytes, t: Bytes)
    requires ps != [] && ItemsOk(ps) && t == ListText(ps) + ([CLOSE] + tail)
    requires |ps[0].before| < |data| <= |t| && data == t[..|data|]
    ensures var j := Skip(data, |ps[0].before| + 1); j == |data| || data[j] == QUOTE
  {
    hide Agree, Skip, IsSpaces, Text, StringText, ValueText, PairText;
    var p := ps[0];
    var i := |p.before|;
    assert data[0..] == data;
    PrefixAgrees(data, 0, t);
    FirstItem(data, ps, tail);
    AgreeSplit(data, 0, p.before, PairText(p) + p.after);
    AgreeSplit(data, i, PairText(p), p.after);
    NameString(p);
    AgreeSplit(data, i, [OPEN], StringText(p.inner, p.name, ValueText(p)));
    StringSplits(data, i + 1, p.inner, p.name, ValueText(p));
  }

  lemma NameString(p: Item)
    ensures PairText(p) == [OPEN] + StringText(p.inner, p.name, ValueText(p))
  {
  }

  lemma FirstItem(data: Bytes, ps: seq<Item>, tail: Bytes)
    requires ps != [] && Agree(data, 0, ListText(ps) + ([CLOSE] + tail))
    ensures Agree(data, 0, ItemText(ps[0]))
  {
    hide Agree, ItemText;
    var mark := if |ps| == 1 then CLOSE else COMMA;
    var behind := if |ps| == 1 then tail else ListText(ps[1..]) + ([CLOSE] + tail);
    assert ListText(ps) + ([CLOSE] + tail) == ItemText(ps[0]) + ([mark] + behind);
    AgreeSplit(data, 0, ItemText(ps[0]), [mark] + behind);
  }

  // Windows that open inside a string

  lemma {:induction false} BodyShift(s: Bytes, m: nat, i: nat)
    requires m + i <= |s|
    ensures ReadBody(s[m..], i).text == ReadBody(s, m + i).text
    decreases |s| - i
  {
    hide Rune, HexNumber, AllHex;
    var t := s[m..];
    if i < |t| {
      UnitShift(s, m, i);
      var u := ReadUnit(t, i);
      if u.Piece? {
        BodyShift(s, m, u.next);
      }
    }
  }

  lemma UnitShift(s: Bytes, m: nat, i: nat)
    requires m + i < |s|
    ensures var u := ReadUnit(s[m..], i);
            ReadUnit(s, m + i) == if u.Piece? then Piece(u.text, m + u.next) else u
  {
    hide Rune, HexNumber, AllHex;
    if i + 5 < |s[m..]| {
      assert s[m..][i + 2..i + 6] == s[m + i + 2..m + i + 6];
    }
  }

  lemma ReadPast(data: Bytes, head: Bytes, m: nat)
    requires m <= |data| && m > 0 && ReadUnit(data, 0) == Piece(head, m)
    ensures Unescape(data) == head + Unescape(data[m..])
  {
    hide ReadUnit;
    BodyShift(data, m, 0);
  }

  predicate IsPlain(b: byte) { b != QUOTE && b != BACKSLASH }

  lemma {:induction false} PlainFront(s: Bytes, m: nat)
    requires m <= |s| && forall j :: 0 <= j < m ==> IsPlain(s[j])
    ensures Unescape(s) == s[..m] + Unescape(s[m..])
    decreases m
  {
    hide Unescape;
    if m == 0 {
      assert s[0..] == s;
    } else {
      PlainFront(s[1..], m - 1);
      ReadPast(s, [s[0]], 1);
      assert s[m..] == s[1..][m - 1..] && s[..m] == [s[0]] + s[1..][..m - 1];
    }
  }

  lemma {:induction false} SkipStops(data: Bytes, i: nat)
    requires i <= |data|
    ensures forall j :: i <= j < Skip(data, i) ==> IsSpace(data[j])
    ensures Skip(data, i) < |data| ==> !IsSpace(data[Skip(data, i)])
    decreases |data| - i
  {
    if i < |data| && IsSpace(data[i]) {
      SkipStops(data, i + 1);
    }
  }

  /** Where the reader of a list finds no pair it has passed over white space and commas alone. */
  lemma {:induction false} NoPairs(data: Bytes, i: nat) returns (m: nat)
    requires i <= |data| && ScanList(data, i).pairs == []
    ensures i <= m <= |data| && forall j :: i <= j < m ==> IsPlain(data[j])
    ensures var c := ScanList(data, i).continuation; c == [] || c == Unescape(data[m..])
    decreases |data| - i
  {
    hide ReadPair, Unescape, Skip;
    SkipStops(data, i);
    m := Skip(data, i);
    if m < |data| && data[m] == COMMA {
      m := NoPairs(data, m + 1);
    }
  }

  /** Nothing at the front of the window makes the reader take it for a place between strings. */
  predicate OpensInside(data: Bytes) {
    data == [] ||
    (data[0] != 0x20 && data[0] != 0x09 && data[0] != 0x0A && data[0] != 0x0D && data[0] != 0x2C &&
     (data[0] == 0x5B ==> var j := Skip(data, 1); j == |data| || (data[j] != 0x5B && data[j] != 0x22)))
  }

  lemma OpensContinues(data: Bytes)
    requires OpensInside(data)
    ensures Scan(data) == Scanned([], Unescape(data))
  {
    hide ReadBody;
    if data == [] {
      NothingThere();
    } else {
      assert Skip(data, 0) == 0 && data[0..] == data;
      if data[0] == OPEN {
        assert ReadString(data, 1).NoString?;
        assert ReadPair(data, 0).NoPair?;
      }
    }
  }

  lemma NothingThere()
    ensures Unescape([]) == []
  {
  }

  /** A window taken for a place between strings loses what made it so. */
  lemma ElseLoses(data: Bytes)
    requires !OpensInside(data)
    ensures Scan(data) != Scanned([], Unescape(data))
  {
    if Scan(data).pairs == [] {
      var m := PlacedBehind(data);
      PlainFront(data, m);
    }
  }

  lemma PlacedBehind(data: Bytes) returns (m: nat)
    requires !OpensInside(data) && Scan(data).pairs == []
    ensures 0 < m <= |data| && forall j :: 0 <= j < m ==> IsPlain(data[j])
    ensures var c := Scan(data).continuation; c == [] || c == Unescape(data[m..])
  {
    hide Skip, Unescape, ScanList;
    SkipStops(data, 0);
    m := Skip(data, 0);
    if m < |data| && data[m] == COMMA {
      SkipStops(data, m + 1);
      m := NoPairs(data, Skip(data, m + 1));
    } else if m < |data| && data[m] == OPEN {
      SkipStops(data, m + 1);
      var j := Skip(data, m + 1);
      if j < |data| && data[j] == OPEN {
        m := NoPairs(data, j);
      } else if m == 0 {
        PairThere(data, j);
      } else {
        m := NoPairs(data, m);
      }
    }
  }

  lemma PairThere(data: Bytes, j: nat)
    requires data != [] && data[0] == OPEN && j == Skip(data, 1) < |data| && data[j] == QUOTE
    ensures ScanList(data, 0).pairs != []
  {
    hide ReadBody;
    assert Skip(data, 0) == 0;
    assert ReadString(data, 1).ReadStr?;
    assert ReadPair(data, 0).ReadPr?;
  }

  /** Of any window: the reader hands the whole of it out as a continuation, escapes read up to the first
      quote, exactly if nothing at its front is taken for a place between strings. */
  lemma ContinuesIff(data: Bytes)
    ensures Scan(data) == Scanned([], Unescape(data)) <==> OpensInside(data)
  {
    hide Scan, Unescape, OpensInside;
    if OpensInside(data) {
      OpensContinues(data);
    } else {
      ElseLoses(data);
    }
  }

  /** What a window tells that opens inside a string before the elements `es`. */
  function RestCut(es: String, k: nat): Bytes {
    if k <= |Text(es)| then Cut(es, k) else Meaning(es)
  }

  lemma RestTold(es: String, rest: Bytes, k: nat)
    requires k <= |Text(es) + ([QUOTE] + rest)|
    ensures Unescape((Text(es) + ([QUOTE] + rest))[..k]) == RestCut(es, k)
  {
    hide Agree, Text, Cut, Meaning, ReadBody;
    var t := Text(es) + ([QUOTE] + rest);
    var data := t[..k];
    assert data[0..] == data;
    PrefixAgrees(data, 0, t);
    AgreeSplit(data, 0, Text(es), [QUOTE] + rest);
    AgreeSplit(data, |Text(es)|, [QUOTE], rest);
    BodyAgrees(data, 0, es);
  }

  /** A window that opens inside a string, and may end there, yields no pair and the rest of the string as
      continuation, exactly if its first bytes do not look like a place between strings. */
  lemma StringWindowIff(es: String, rest: Bytes, k: nat)
    requires k <= |Text(es) + ([QUOTE] + rest)|
    ensures var data := (Text(es) + ([QUOTE] + rest))[..k];
            Scan(data) == Scanned([], RestCut(es, k)) <==> OpensInside(data)
  {
    hide Scan, Unescape, OpensInside, RestCut, Text;
    RestTold(es, rest, k);
    ContinuesIff((Text(es) + ([QUOTE] + rest))[..k]);
  }

  /** In particular whenever the first byte is no white space, no comma and no bracket. */
  lemma StringWindow(es: String, rest: Bytes)
    requires es != [] ==> var b := Text(es)[0];
                          b != 0x20 && b != 0x09 && b != 0x0A && b != 0x0D && b != 0x2C && b != 0x5B
    ensures Scan(Text(es) + ([QUOTE] + rest)) == Scanned([], Meaning(es))
    ensures forall k :: 0 <= k <= |Text(es)| ==> Scan(Text(es)[..k]) == Scanned([], Cut(es, k))
  {
    hide Scan, Unescape, Cut, Meaning, Skip;
    var t := Text(es) + ([QUOTE] + rest);
    assert t[..|t|] == t;
    StringWindowIff(es, rest, |t|);
    forall k | 0 <= k <= |Text(es)| ensures Scan(Text(es)[..k]) == Scanned([], Cut(es, k)) {
      assert t[..k] == Text(es)[..k];
      StringWindowIff(es, rest, k);
    }
  }

  /** A window that opens inside a string at a space, before `et` and the end of the string: the space is not
      in the continuation. */
  lemma SpaceIsLost()
    ensures Scan([0x20, 0x65, 0x74, 0x22, 0x5D, 0x5D]) == Scanned([], [0x65, 0x74])
    ensures Meaning([Raw(0x20), Raw(0x65), Raw(0x74)]) == [0x20, 0x65, 0x74]
  {
    hide ReadBody;
    var data: Bytes := [0x20, 0x65, 0x74, 0x22, 0x5D, 0x5D];
    var es: String := [Raw(0x65), Raw(0x74)];
    assert Skip(data, 0) == 1 && data[1..] == [0x65, 0x74] + ([QUOTE] + [0x5D, 0x5D]);
    assert es[1..] == [Raw(0x74)] && es[1..][1..] == [];
    assert Text(es) == [0x65, 0x74] && Meaning(es) == [0x65, 0x74];
    var t := Text(es) + ([QUOTE] + [0x5D, 0x5D]);
    assert t[..|t|] == t;
    RestTold(es, [0x5D, 0x5D], |t|);
    var all: String := [Raw(0x20), Raw(0x65), Raw(0x74)];
    assert all[1..] == es && Meaning(all) == [0x20] + Meaning(es);
  }

  // Escapes no encoder writes

  /** A backslash before any other byte stands for that byte; one before a u stands for the u, if no four
      hexadecimal digits follow it; and where the window ends inside an escape nothing is read of it. */
  lemma OddEscapes(c: byte, rest: Bytes)
    ensures c !in {0x62, 0x66, 0x6E, 0x72, 0x74, 0x75} ==>
              Unescape([0x5C, c] + rest) == [c] + Unescape(rest)
    ensures |rest| >= 4 && !AllHex(rest[..4]) ==> Unescape([0x5C, 0x75] + rest) == [0x75] + Unescape(rest)
    ensures |rest| < 4 ==> Unescape([0x5C, 0x75] + rest) == []
    ensures Unescape([0x5C]) == []
  {
    hide Rune, HexNumber, AllHex, Unescape;
    var data, bad := [0x5C, c] + rest, [0x5C, 0x75] + rest;
    assert data[2..] == rest && bad[2..] == rest;
    if c !in {0x62, 0x66, 0x6E, 0x72, 0x74, 0x75} {
      ReadPast(data, [c], 2);
    }
    if |rest| >= 4 {
      assert bad[2..6] == rest[..4];
      if !AllHex(rest[..4]) {
        ReadPast(bad, [0x75], 2);
      }
    } else {
      assert ReadUnit(bad, 0) == Broken;
      NothingRead(bad);
    }
    assert ReadUnit([0x5C], 0) == Broken;
    NothingRead([0x5C]);
  }

  lemma NothingRead(data: Bytes)
    requires data != [] && ReadUnit(data, 0) == Broken
    ensures Unescape(data) == []
  {
  }
}
