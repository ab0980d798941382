/** What the header reader makes of a JSON header list cut at any byte.

    A document is a list of name and value strings in the grammar of RFC 8259 (sections 2, 5 and 7)
    with any white space between tokens and any choice of escapes.  `DocCut` says, from the
    structure of the document alone, what a text cut after k bytes still tells. */
module HeaderDoc {
  import opened Bytes
  import opened HeaderScan

  // Strings

  datatype Elem = Raw(b: byte) | Short(letter: byte) | Unicode(digits: Bytes)

  predicate ElemOk(e: Elem) {
    match e
    case Raw(b) => 0x20 <= b && b != QUOTE && b != BACKSLASH
    case Short(c) =>
      c == QUOTE || c == BACKSLASH || c == SLASH ||
      c == LETTER_B || c == LETTER_F || c == LETTER_N || c == LETTER_R || c == LETTER_T
    case Unicode(d) => |d| == 4 && AllHex(d)
  }

  type Element = e: Elem | ElemOk(e) witness Raw(0x20)
  type String = seq<Element>

  function ElemText(e: Element): (t: Bytes)
    ensures |t| > 0
  {
    match e
    case Raw(b) => [b]
    case Short(c) => [BACKSLASH, c]
    case Unicode(d) => [BACKSLASH, LETTER_U] + d
  }

  function ElemMeaning(e: Element): Bytes {
    match e
    case Raw(b) => [b]
    case Short(c) => [Escaped(c)]
    case Unicode(d) => Rune(HexNumber(d))
  }

  function Text(es: String): Bytes {
    if es == [] then [] else ElemText(es[0]) + Text(es[1..])
  }

  function Meaning(es: String): Bytes {
    if es == [] then [] else ElemMeaning(es[0]) + Meaning(es[1..])
  }

  /** The meaning of the elements that lie whole within the first k bytes of the text. */
  function Cut(es: String, k: nat): Bytes {
    if es == [] || k < |ElemText(es[0])| then []
    else ElemMeaning(es[0]) + Cut(es[1..], k - |ElemText(es[0])|)
  }

  // Lists of pairs

  predicate IsSpaces(s: Bytes) {
    forall i :: 0 <= i < |s| ==> s[i] == 0x20 || s[i] == 0x09 || s[i] == 0x0A || s[i] == 0x0D
  }

  datatype Item = Item(before: Bytes, inner: Bytes, name: String, beforeComma: Bytes, afterComma: Bytes,
                       value: String, end: Bytes, after: Bytes)

  predicate ItemOk(p: Item) {
    IsSpaces(p.before) && IsSpaces(p.inner) && IsSpaces(p.beforeComma) && IsSpaces(p.afterComma) &&
    IsSpaces(p.end) && IsSpaces(p.after)
  }

  function StringText(ws: Bytes, es: String, rest: Bytes): (t: Bytes)
    ensures |t| == |ws| + |Text(es)| + 2 + |rest|
  {
    ws + ([QUOTE] + (Text(es) + ([QUOTE] + rest)))
  }

  function ValueText(p: Item): (t: Bytes)
    ensures |t| == |p.beforeComma| + |p.afterComma| + |Text(p.value)| + |p.end| + 4
  {
    p.beforeComma + ([COMMA] + StringText(p.afterComma, p.value, p.end + [CLOSE]))
  }

  function PairText(p: Item): (t: Bytes)
    ensures |t| == ClosedAt(p) + |p.end| + 1
  {
    [OPEN] + StringText(p.inner, p.name, ValueText(p))
  }

  function PairMeaning(p: Item): Pair {
    Pair(Meaning(p.name), Meaning(p.value))
  }

  /** Where, in the text of the pair, the name begins, the value begins, and the value is closed. */
  function NameAt(p: Item): nat { |p.inner| + 2 }

  function ValueAt(p: Item): nat {
    NameAt(p) + |Text(p.name)| + |p.beforeComma| + |p.afterComma| + 3
  }

  function ClosedAt(p: Item): nat { ValueAt(p) + |Text(p.value)| + 1 }

  datatype CutPair = Unnamed | Named(pair: Pair)

  /** What the first k bytes of the text of a pair tell about it. */
  function PairCut(p: Item, k: nat): CutPair {
    if k < NameAt(p) then Unnamed
    else if k <= NameAt(p) + |Text(p.name)| then Named(Pair(Cut(p.name, k - NameAt(p)), []))
    else if k < ValueAt(p) then Named(Pair(Meaning(p.name), []))
    else if k <= ValueAt(p) + |Text(p.value)| then Named(Pair(Meaning(p.name), Cut(p.value, k - ValueAt(p))))
    else Named(PairMeaning(p))
  }

  function ItemText(p: Item): Bytes {
    p.before + (PairText(p) + p.after)
  }

  function ListText(ps: seq<Item>): Bytes
    requires ps != []
  {
    if |ps| == 1 then ItemText(ps[0]) else ItemText(ps[0]) + ([COMMA] + ListText(ps[1..]))
  }

  function ListMeaning(ps: seq<Item>): (ms: seq<Pair>)
    ensures |ms| == |ps| && forall i :: 0 <= i < |ps| ==> ms[i] == PairMeaning(ps[i])
  {
    seq(|ps|, i requires 0 <= i < |ps| => PairMeaning(ps[i]))
  }

  /** What the first k bytes of a list tell. */
  function ListCut(ps: seq<Item>, k: nat): Scanned
    requires ps != []
  {
    var p, left := ps[0], k - |ps[0].before|;
    if left <= 0 then NOTHING
    else if PairCut(p, left).Unnamed? then Scanned([], PairText(p)[..left])
    else
      var rest := k - |ItemText(p)| - 1;
      Behind([PairCut(p, left).pair], if rest <= 0 || |ps| == 1 then NOTHING else ListCut(ps[1..], rest))
  }

  function Min(a: nat, b: nat): nat {
    if a <= b then a else b
  }

  datatype Doc = Doc(lead: Bytes, items: seq<Item>, tail: Bytes)

  function DocText(d: Doc): Bytes
    requires d.items != []
  {
    d.lead + ([OPEN] + (ListText(d.items) + ([CLOSE] + d.tail)))
  }

  /** What the first k bytes of a document tell. */
  function DocCut(d: Doc, k: nat): Scanned
    requires d.items != []
  {
    var left := k - |d.lead| - 1;
    if left < 0 then NOTHING
    else if left <= |d.items[0].before| then Scanned([], [OPEN] + d.items[0].before[..left])
    else ListCut(d.items, left)
  }

  // Reading data that agrees with a text as far as it goes

  predicate Agree(data: Bytes, i: nat, text: Bytes)
    decreases |text|
  {
    text == [] || i >= |data| || (data[i] == text[0] && Agree(data, i + 1, text[1..]))
  }

  lemma {:induction false} AgreeAt(data: Bytes, i: nat, text: Bytes, j: nat)
    requires Agree(data, i, text) && j < |text| && i + j < |data|
    ensures data[i + j] == text[j]
    decreases j
  {
    if j > 0 {
      AgreeAt(data, i + 1, text[1..], j - 1);
    }
  }

  lemma {:induction false} AgreeSplit(data: Bytes, i: nat, a: Bytes, b: Bytes)
    requires Agree(data, i, a + b)
    ensures Agree(data, i, a) && Agree(data, i + |a|, b)
    decreases |a|
  {
    if a == [] {
      assert a + b == b;
    } else if i < |data| {
      assert (a + b)[1..] == a[1..] + b;
      AgreeSplit(data, i + 1, a[1..], b);
    }
  }

  lemma {:induction false} PrefixAgrees(data: Bytes, i: nat, text: Bytes)
    requires i <= |data| && |data| - i <= |text| && data[i..] == text[..|data| - i]
    ensures Agree(data, i, text)
    decreases |text|
  {
    if i < |data| {
      assert data[i] == data[i..][0] == text[0];
      assert data[i + 1..] == data[i..][1..] == text[..|data| - i][1..] == text[1..][..|data| - i - 1];
      PrefixAgrees(data, i + 1, text[1..]);
    }
  }

  lemma UnitAgrees(data: Bytes, i: nat, e: Element)
    requires i < |data| && Agree(data, i, ElemText(e))
    ensures ReadUnit(data, i) ==
            if i + |ElemText(e)| <= |data| then Piece(ElemMeaning(e), i + |ElemText(e)|) else Broken
  {
    var t := ElemText(e);
    AgreeAt(data, i, t, 0);
    if e.Raw? {
    } else if i + 1 < |data| {
      AgreeAt(data, i, t, 1);
      if e.Unicode? && i + 5 < |data| {
        AgreeAt(data, i, t, 2);
        AgreeAt(data, i, t, 3);
        AgreeAt(data, i, t, 4);
        AgreeAt(data, i, t, 5);
        assert data[i + 2..i + 6] == e.digits;
      }
    }
  }

  lemma BodyCloses(data: Bytes, i: nat)
    requires i <= |data| && Agree(data, i, [QUOTE])
    ensures ReadBody(data, i) == if i < |data| then Str([], i + 1, true) else Str([], |data|, false)
  {
  }

  lemma {:induction false} BodyAgrees(data: Bytes, i: nat, es: String)
    requires i <= |data| && Agree(data, i, Text(es)) && Agree(data, i + |Text(es)|, [QUOTE])
    ensures ReadBody(data, i) ==
            if i + |Text(es)| < |data| then Str(Meaning(es), i + |Text(es)| + 1, true)
            else Str(Cut(es, |data| - i), |data|, false)
    decreases |es|
  {
    hide ElemText, ElemMeaning, ReadUnit, Agree;
    if es == [] {
      BodyCloses(data, i);
    } else if i < |data| {
      var head := ElemText(es[0]);
      AgreeSplit(data, i, head, Text(es[1..]));
      UnitAgrees(data, i, es[0]);
      if i + |head| <= |data| {
        BodyAgrees(data, i + |head|, es[1..]);
      }
    }
  }

  lemma {:induction false} SkipAgrees(data: Bytes, i: nat, ws: Bytes, rest: Bytes)
    requires IsSpaces(ws) && i <= |data| && rest != [] && !IsSpace(rest[0]) && Agree(data, i, ws + rest)
    ensures Skip(data, i) == Min(i + |ws|, |data|)
    ensures Agree(data, i + |ws|, rest)
    decreases |ws|
  {
    if ws == [] {
      assert ws + rest == rest;
    } else if i < |data| {
      assert (ws + rest)[1..] == ws[1..] + rest;
      SkipAgrees(data, i + 1, ws[1..], rest);
    }
  }

  lemma StringSplits(data: Bytes, i: nat, ws: Bytes, es: String, rest: Bytes)
    requires IsSpaces(ws) && i <= |data| && Agree(data, i, StringText(ws, es, rest))
    ensures Skip(data, i) == Min(i + |ws|, |data|)
    ensures i + |ws| < |data| ==> data[i + |ws|] == QUOTE
    ensures Agree(data, i + |ws| + 1, Text(es)) && Agree(data, i + |ws| + 1 + |Text(es)|, [QUOTE])
    ensures Agree(data, i + |ws| + |Text(es)| + 2, rest)
  {
    hide Agree, Skip, IsSpaces, Text;
    var k := i + |ws|;
    SkipAgrees(data, i, ws, [QUOTE] + (Text(es) + ([QUOTE] + rest)));
    AgreeSplit(data, k, [QUOTE], Text(es) + ([QUOTE] + rest));
    AgreeSplit(data, k + 1, Text(es), [QUOTE] + rest);
    AgreeSplit(data, k + 1 + |Text(es)|, [QUOTE], rest);
    if k < |data| {
      AgreeAt(data, k, [QUOTE], 0);
    }
  }

  /** What readJSONString returns where white space and the string `es` begin. */
  function StringCut(data: Bytes, from: nat, es: String): StringRead {
    if |data| < from then NoString
    else if from + |Text(es)| < |data| then ReadStr(Str(Meaning(es), from + |Text(es)| + 1, true))
    else ReadStr(Str(Cut(es, |data| - from), |data|, false))
  }

  lemma StringAgrees(data: Bytes, i: nat, ws: Bytes, es: String, rest: Bytes)
    requires IsSpaces(ws) && i <= |data| && Agree(data, i, StringText(ws, es, rest))
    ensures ReadString(data, i) == StringCut(data, i + |ws| + 1, es)
    ensures Agree(data, i + |ws| + |Text(es)| + 2, rest)
  {
    hide Agree, Skip, Text, Cut, Meaning, ReadBody, IsSpaces;
    StringSplits(data, i, ws, es, rest);
    if i + |ws| < |data| {
      BodyAgrees(data, i + |ws| + 1, es);
    }
  }

  lemma PastAgrees(data: Bytes, i: nat, ws: Bytes, mark: byte, rest: Bytes)
    requires IsSpaces(ws) && i <= |data| && !IsSpace(mark) && Agree(data, i, ws + ([mark] + rest))
    ensures Past(data, i, mark) == Min(i + |ws| + 1, |data|)
    ensures Agree(data, i + |ws| + 1, rest)
  {
    SkipAgrees(data, i, ws, [mark] + rest);
    AgreeSplit(data, i + |ws|, [mark], rest);
  }

  /** The reads readPair makes, one after the other. */
  predicate PairReads(data: Bytes, i: nat, p: Item)
    requires i < |data|
  {
    var comma := i + NameAt(p) + |Text(p.name)| + 1;
    var value := comma + |p.beforeComma| + 1;
    Skip(data, i) == i && data[i] == OPEN &&
    ReadString(data, i + 1) == StringCut(data, i + NameAt(p), p.name) &&
    (comma <= |data| ==> Past(data, comma, COMMA) == Min(value, |data|)) &&
    (value <= |data| ==> ReadString(data, value) == StringCut(data, i + ValueAt(p), p.value)) &&
    (i + ClosedAt(p) <= |data| ==>
       Past(data, i + ClosedAt(p), CLOSE) == Min(i + ClosedAt(p) + |p.end| + 1, |data|))
  }

  lemma PairSplits(data: Bytes, i: nat, p: Item)
    requires ItemOk(p) && i < |data| && Agree(data, i, PairText(p))
    ensures PairReads(data, i, p)
  {
    hide ReadString, ReadBody, Text, Cut, Meaning, Past, IsSpaces;
    var comma := i + NameAt(p) + |Text(p.name)| + 1;
    var value := comma + |p.beforeComma| + 1;
    var tail := p.end + [CLOSE];
    AgreeSplit(data, i, [OPEN], StringText(p.inner, p.name, ValueText(p)));
    StringAgrees(data, i + 1, p.inner, p.name, ValueText(p));
    if comma <= |data| {
      PastAgrees(data, comma, p.beforeComma, COMMA, StringText(p.afterComma, p.value, tail));
    }
    if value <= |data| {
      StringAgrees(data, value, p.afterComma, p.value, tail);
    }
    if i + ClosedAt(p) <= |data| {
      assert tail == p.end + ([CLOSE] + []);
      PastAgrees(data, i + ClosedAt(p), p.end, CLOSE, []);
    }
  }

  lemma {:induction false} PairAgrees(data: Bytes, i: nat, p: Item)
    requires i < |data| && PairReads(data, i, p)
    ensures ReadPair(data, i) ==
            var cut := PairCut(p, |data| - i);
            if cut.Unnamed? then NoPair
            else ReadPr(cut.pair, Min(i + ClosedAt(p) + |p.end| + 1, |data|), |data| - i >= ClosedAt(p))
  {
    hide ReadString, ReadBody, Text, Cut, Meaning, Past, Skip;
  }

  // Lists and documents

  lemma {:induction false} AgreeTake(data: Bytes, i: nat, text: Bytes)
    requires i <= |data| <= i + |text| && Agree(data, i, text)
    ensures data[i..] == text[..|data| - i]
    decreases |text|
  {
    if i < |data| {
      AgreeTake(data, i + 1, text[1..]);
      assert data[i..] == [data[i]] + data[i + 1..];
      assert text[..|data| - i] == [text[0]] + text[1..][..|data| - i - 1];
    }
  }

  lemma {:induction false} PlainBody(s: Bytes, i: nat)
    requires i <= |s| && forall j :: i <= j < |s| ==> s[j] != QUOTE && s[j] != BACKSLASH
    ensures ReadBody(s, i).text == s[i..]
    decreases |s| - i
  {
    if i < |s| {
      PlainBody(s, i + 1);
      assert s[i..] == [s[i]] + s[i + 1..];
    }
  }

  /** A pair cut before its name starts is handed out as it stands. */
  lemma UnnamedText(data: Bytes, i: nat, p: Item)
    requires ItemOk(p) && i < |data| < i + NameAt(p) && Agree(data, i, PairText(p))
    ensures Unescape(data[i..]) == PairText(p)[..|data| - i]
  {
    hide Text, Agree;
    AgreeTake(data, i, PairText(p));
    var s := data[i..];
    forall j | 0 <= j < |s| ensures s[j] != QUOTE && s[j] != BACKSLASH {
      if j == 0 {
        assert PairText(p)[0] == OPEN;
      } else {
        assert PairText(p)[j] == p.inner[j - 1];
      }
    }
    PlainBody(s, 0);
  }

  /** One turn of the loop at the front of an item. */
  lemma ItemTurn(data: Bytes, i: nat, p: Item)
    requires ItemOk(p) && i <= |data| && Agree(data, i, ItemText(p))
    ensures ScanTurn(data, i) ==
            var from := i + |p.before|;
            if |data| <= from then Stop(NOTHING)
            else
              var cut := PairCut(p, |data| - from);
              if cut.Unnamed? then Stop(Scanned([], PairText(p)[..|data| - from]))
              else if |data| - from < ClosedAt(p) then Stop(Scanned([cut.pair], []))
              else GoOn([cut.pair], Min(from + |PairText(p)|, |data|))
  {
    hide Text, Agree, ReadPair, Unescape, Cut, Meaning;
    var from := i + |p.before|;
    assert PairText(p)[0] == OPEN;
    SkipAgrees(data, i, p.before, PairText(p) + p.after);
    AgreeSplit(data, from, PairText(p), p.after);
    if from < |data| {
      AgreeAt(data, from, PairText(p), 0);
      PairSplits(data, from, p);
      PairAgrees(data, from, p);
      if PairCut(p, |data| - from).Unnamed? {
        UnnamedText(data, from, p);
      }
    }
  }

  /** The turn behind an item, at the mark that follows it. */
  lemma MarkTurn(data: Bytes, i: nat, p: Item, mark: byte, rest: Bytes)
    requires ItemOk(p) && !IsSpace(mark) && Agree(data, i, ItemText(p) + ([mark] + rest))
    ensures Agree(data, i + |ItemText(p)| + 1, rest)
    ensures var next := Min(i + |p.before| + |PairText(p)|, |data|);
            var at := i + |ItemText(p)|;
            && Skip(data, next) == Min(at, |data|)
            && (at < |data| ==> data[at] == mark)
  {
    hide Text;
    var next := i + |p.before| + |PairText(p)|;
    assert ItemText(p) + ([mark] + rest) == (p.before + PairText(p)) + (p.after + ([mark] + rest));
    AgreeSplit(data, i, p.before + PairText(p), p.after + ([mark] + rest));
    AgreeSplit(data, next, p.after, [mark] + rest);
    AgreeSplit(data, next + |p.after|, [mark], rest);
    if next <= |data| {
      SkipAgrees(data, next, p.after, [mark] + rest);
    }
  }

  predicate ItemsOk(ps: seq<Item>) {
    forall i :: 0 <= i < |ps| ==> ItemOk(ps[i])
  }

  lemma {:induction false} ListAgrees(data: Bytes, i: nat, ps: seq<Item>, rest: Bytes)
    requires ps != [] && ItemsOk(ps) && i <= |data| && Agree(data, i, ListText(ps) + ([CLOSE] + rest))
    ensures ScanList(data, i) == ListCut(ps, |data| - i)
    decreases |ps|
  {
    hide Text, Agree, PairCut, ScanTurn, PairText, Skip;
    var p := ps[0];
    var mark := if |ps| == 1 then CLOSE else COMMA;
    var behind := if |ps| == 1 then rest else ListText(ps[1..]) + ([CLOSE] + rest);
    assert ListText(ps) + ([CLOSE] + rest) == ItemText(p) + ([mark] + behind);
    AgreeSplit(data, i, ItemText(p), [mark] + behind);
    ItemTurn(data, i, p);
    MarkTurn(data, i, p, mark, behind);
    var turn := ScanTurn(data, i);
    if turn.GoOn? {
      MarkScan(data, turn.next, mark);
      var at := i + |ItemText(p)|;
      if |ps| > 1 && at < |data| {
        ListAgrees(data, at + 1, ps[1..], rest);
      }
    }
  }

  lemma MarkScan(data: Bytes, next: nat, mark: byte)
    requires next <= |data| && (mark == CLOSE || mark == COMMA)
    requires var at := Skip(data, next); at < |data| ==> data[at] == mark
    ensures var at := Skip(data, next);
            ScanList(data, next) == if at < |data| && mark == COMMA then ScanList(data, at + 1) else NOTHING
  {
    hide ReadPair, Skip;
  }
}
