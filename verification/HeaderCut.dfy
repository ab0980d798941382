/** The promises of the header reader over every document and every cut. */
module HeaderCut {
  import opened Bytes
  import opened HeaderScan
  import opened HeaderDoc

  predicate DocOk(d: Doc) {
    d.items != [] && ItemsOk(d.items) && IsSpaces(d.lead) && IsSpaces(d.tail)
  }

  // The reader computes what the cut tells

  lemma {:induction false} SkipTwice(data: Bytes, i: nat)
    requires i <= |data|
    ensures Skip(data, Skip(data, i)) == Skip(data, i)
    decreases |data| - i
  {
    if i < |data| && IsSpace(data[i]) {
      SkipTwice(data, i + 1);
    }
  }

  lemma ScanListSkips(data: Bytes, i: nat)
    requires i <= |data|
    ensures ScanList(data, Skip(data, i)) == ScanList(data, i)
  {
    hide ReadPair, Skip, Unescape;
    SkipTwice(data, i);
  }

  lemma PairOpens(p: Item)
    ensures |PairText(p)| > 0 && PairText(p) == [OPEN] + PairText(p)[1..]
  {
  }

  lemma {:induction false} ListOpens(ps: seq<Item>) returns (more: Bytes)
    requires ps != []
    ensures ListText(ps) == ps[0].before + ([OPEN] + more)
  {
    hide Text, PairText;
    var p := ps[0];
    PairOpens(p);
    var behind := p.after + (if |ps| == 1 then [] else [COMMA] + ListText(ps[1..]));
    more := PairText(p)[1..] + behind;
    assert ItemText(p) == p.before + ([OPEN] + (PairText(p)[1..] + p.after));
  }

  /** A list cut before its first pair: only the bracket and white space are left. */
  lemma BareBracket(data: Bytes, i: nat)
    requires i < |data| && data[i] == OPEN && Skip(data, i + 1) == |data|
    requires forall j :: i < j < |data| ==> IsSpace(data[j])
    ensures ScanList(data, i) == Scanned([], data[i..])
  {
    PlainBody(data[i..], 0);
    assert Skip(data, i) == i;
    assert ReadString(data, i + 1).NoString?;
    assert ReadPair(data, i).NoPair?;
  }

  lemma {:induction false} SpacesAhead(data: Bytes, i: nat)
    requires i <= |data| && Skip(data, i) == |data|
    ensures forall j :: i <= j < |data| ==> IsSpace(data[j])
    decreases |data| - i
  {
    if i < |data| {
      SpacesAhead(data, i + 1);
    }
  }

  /** Behind the leading white space stands the bracket of the document, and behind that the list. */
  lemma LeadSkipped(data: Bytes, d: Doc)
    requires DocOk(d) && Agree(data, 0, DocText(d))
    ensures Skip(data, 0) == Min(|d.lead|, |data|)
    ensures |d.lead| < |data| ==> data[|d.lead|] == OPEN
    ensures Agree(data, |d.lead| + 1, ListText(d.items) + ([CLOSE] + d.tail))
  {
    hide Agree, IsSpaces, ListText, Skip;
    var list := ListText(d.items) + ([CLOSE] + d.tail);
    SkipAgrees(data, 0, d.lead, [OPEN] + list);
    AgreeSplit(data, |d.lead|, [OPEN], list);
    if |d.lead| < |data| {
      AgreeAt(data, |d.lead|, [OPEN] + list, 0);
    }
  }

  /** Behind the bracket of the document stands the one of the first pair. */
  lemma FirstPairOpens(data: Bytes, i: nat, items: seq<Item>, tail: Bytes)
    requires items != [] && IsSpaces(items[0].before) && i <= |data|
    requires Agree(data, i, ListText(items) + ([CLOSE] + tail))
    ensures Skip(data, i) == Min(i + |items[0].before|, |data|)
    ensures i + |items[0].before| < |data| ==> data[i + |items[0].before|] == OPEN
    ensures |data| <= i + |items[0].before| ==> data[i..] == items[0].before[..|data| - i]
  {
    hide Agree, IsSpaces, ListText, Skip;
    var before := items[0].before;
    var more := ListOpens(items);
    var rest := [OPEN] + (more + ([CLOSE] + tail));
    assert ListText(items) + ([CLOSE] + tail) == before + rest;
    SkipAgrees(data, i, before, rest);
    if i + |before| < |data| {
      AgreeAt(data, i + |before|, rest, 0);
    } else {
      AgreeSplit(data, i, before, rest);
      AgreeTake(data, i, before);
    }
  }

  lemma ScanOfList(data: Bytes, i: nat)
    requires Skip(data, 0) == i < |data| && data[i] == OPEN
    ensures var j := Skip(data, i + 1);
            && j <= |data|
            && (j < |data| && data[j] == OPEN ==> Scan(data) == ScanList(data, i + 1))
            && (j == |data| ==> Scan(data) == Scanned([], [OPEN] + data[i + 1..]))
  {
    hide ScanList, Skip;
    ScanListSkips(data, i + 1);
    if Skip(data, i + 1) == |data| {
      SpacesAhead(data, i + 1);
      BareBracket(data, i);
    }
  }

  /** scanHeaders on a document cut anywhere returns what the cut tells. */
  lemma ScanCut(d: Doc, k: nat)
    requires DocOk(d) && k <= |DocText(d)|
    ensures Scan(DocText(d)[..k]) == DocCut(d, k)
  {
    hide Agree, ListCut, ScanList, ListText, Skip, DocText;
    var data := DocText(d)[..k];
    assert data[0..] == data;
    PrefixAgrees(data, 0, DocText(d));
    LeadSkipped(data, d);
    var i := |d.lead|;
    if i < k {
      FirstPairOpens(data, i + 1, d.items, d.tail);
      ListAgrees(data, i + 1, d.items, d.tail);
      ScanOfList(data, i);
    }
  }

  // What a cut tells

  lemma {:induction false} CutPrefix(es: String, k: nat)
    ensures IsPrefix(Cut(es, k), Meaning(es))
    ensures k >= |Text(es)| ==> Cut(es, k) == Meaning(es)
    decreases |es|
  {
    if es != [] && k >= |ElemText(es[0])| {
      CutPrefix(es[1..], k - |ElemText(es[0])|);
    }
  }

  /** The leading pairs of the document, the last of them possibly cut short. */
  ghost predicate Truncated(got: seq<Pair>, all: seq<Pair>) {
    |got| <= |all| &&
    (forall j :: 0 <= j < |got| - 1 ==> got[j] == all[j]) &&
    (got != [] ==>
       var j := |got| - 1;
       IsPrefix(got[j].name, all[j].name) && IsPrefix(got[j].value, all[j].value))
  }

  /** The offset in a list at which the value of pair j has been closed. */
  function ClosedIn(ps: seq<Item>, j: nat): nat
    requires j < |ps|
  {
    if j == 0 then |ps[0].before| + ClosedAt(ps[0])
    else |ItemText(ps[0])| + 1 + ClosedIn(ps[1..], j - 1)
  }

  lemma PairCutFacts(p: Item, k: nat)
    ensures PairCut(p, k).Named? ==>
            var q := PairCut(p, k).pair;
            IsPrefix(q.name, Meaning(p.name)) && IsPrefix(q.value, Meaning(p.value))
    ensures k >= ClosedAt(p) ==> PairCut(p, k) == Named(PairMeaning(p))
  {
    hide Cut, Meaning, Text;
    CutPrefix(p.name, if k >= NameAt(p) then k - NameAt(p) else 0);
    CutPrefix(p.value, if k >= ValueAt(p) then k - ValueAt(p) else 0);
  }

  /** Behind a pair whose value is closed the list goes on, or ends. */
  lemma ListCutUnfolds(ps: seq<Item>, k: nat)
    requires ps != [] && k >= |ps[0].before| + ClosedAt(ps[0])
    ensures var rest := k - |ItemText(ps[0])| - 1;
            ListCut(ps, k) ==
            Behind([PairMeaning(ps[0])], if rest <= 0 || |ps| == 1 then NOTHING else ListCut(ps[1..], rest))
  {
    hide PairCut, ItemText, PairText, PairMeaning, Text;
    PairCutFacts(ps[0], k - |ps[0].before|);
  }

  /** Before the value of its first pair is closed a list tells of that pair at most. */
  lemma ListCutEnds(ps: seq<Item>, k: nat)
    requires ps != [] && k < |ps[0].before| + ClosedAt(ps[0])
    ensures var got, p := ListCut(ps, k).pairs, PairMeaning(ps[0]);
            got == [] || (|got| == 1 && IsPrefix(got[0].name, p.name) && IsPrefix(got[0].value, p.value))
  {
    hide PairCut, ItemText, PairText, Text, Meaning;
    ItemSize(ps[0]);
    PairCutFacts(ps[0], if k >= |ps[0].before| then k - |ps[0].before| else 0);
  }

  lemma TruncatedBehind(first: Pair, got: seq<Pair>, all: seq<Pair>)
    requires Truncated(got, all)
    ensures Truncated([first] + got, [first] + all)
  {
    var g, a := [first] + got, [first] + all;
    forall j | 0 <= j < |g| - 1 ensures g[j] == a[j] {
      if j > 0 {
        assert g[j] == got[j - 1] && a[j] == all[j - 1];
      }
    }
  }

  lemma {:induction false} ListCutTruncates(ps: seq<Item>, k: nat)
    requires ps != []
    ensures Truncated(ListCut(ps, k).pairs, ListMeaning(ps))
    decreases |ps|
  {
    hide PairCut, ItemText, PairText, Text, Meaning, ListCut;
    var p := ps[0];
    if k < |p.before| + ClosedAt(p) {
      ListCutEnds(ps, k);
    } else {
      ListCutUnfolds(ps, k);
      var rest := k - |ItemText(p)| - 1;
      var tail := if rest <= 0 || |ps| == 1 then NOTHING else ListCut(ps[1..], rest);
      if rest > 0 && |ps| > 1 {
        ListCutTruncates(ps[1..], rest);
      }
      assert ListMeaning(ps) == [PairMeaning(p)] + ListMeaning(ps[1..]);
      TruncatedBehind(PairMeaning(p), tail.pairs, ListMeaning(ps[1..]));
    }
  }

  lemma ItemSize(p: Item)
    ensures |ItemText(p)| == |p.before| + ClosedAt(p) + |p.end| + 1 + |p.after|
  {
  }

  lemma {:induction false} ListCutKeeps(ps: seq<Item>, k: nat, j: nat)
    requires j < |ps| && k >= ClosedIn(ps, j)
    ensures j < |ListCut(ps, k).pairs| && ListCut(ps, k).pairs[j] == PairMeaning(ps[j])
    decreases |ps|
  {
    hide PairCut, ItemText, PairText, PairMeaning, Text, ListCut;
    ItemSize(ps[0]);
    ListCutUnfolds(ps, k);
    if j > 0 {
      ClosedInSize(ps[1..], j - 1);
      ListCutKeeps(ps[1..], k - |ItemText(ps[0])| - 1, j - 1);
    }
  }

  lemma {:induction false} ListCutWhole(ps: seq<Item>, k: nat)
    requires ps != [] && k >= |ListText(ps)|
    ensures ListCut(ps, k) == Scanned(ListMeaning(ps), [])
    decreases |ps|
  {
    hide PairCut, ItemText, PairText, Text, Meaning, ListCut;
    var p := ps[0];
    ItemSize(p);
    ListCutUnfolds(ps, k);
    if |ps| == 1 {
      assert ListMeaning(ps) == [PairMeaning(p)];
    } else {
      ListTextSize(ps[1..]);
      ListCutWhole(ps[1..], k - |ItemText(p)| - 1);
      assert ListMeaning(ps) == [PairMeaning(p)] + ListMeaning(ps[1..]);
    }
  }

  lemma ListTextSize(ps: seq<Item>)
    requires ps != []
    ensures |ListText(ps)| > 0
  {
    ItemSize(ps[0]);
  }

  /** Truncation tolerance: whatever the document and wherever it is cut, scanHeaders returns its
      leading pairs, the last one possibly cut short in name and value, and loses no pair whose
      value was closed before the cut. */
  lemma {:induction false} TruncationTolerant(d: Doc, k: nat)
    requires DocOk(d) && k <= |DocText(d)|
    ensures var got := Scan(DocText(d)[..k]).pairs;
            && Truncated(got, ListMeaning(d.items))
            && (forall j :: 0 <= j < |d.items| && k >= |d.lead| + 1 + ClosedIn(d.items, j) ==>
                  j < |got| && got[j] == ListMeaning(d.items)[j])
  {
    hide Scan, ListCut, DocText, ClosedIn, PairMeaning;
    ScanCut(d, k);
    var left := k - |d.lead| - 1;
    if left > |d.items[0].before| {
      ListCutTruncates(d.items, left);
    }
    forall j | 0 <= j < |d.items| && left >= ClosedIn(d.items, j)
      ensures j < |DocCut(d, k).pairs| && DocCut(d, k).pairs[j] == ListMeaning(d.items)[j]
    {
      ClosedInSize(d.items, j);
      ListCutKeeps(d.items, left, j);
    }
  }

  lemma ClosedInSize(ps: seq<Item>, j: nat)
    requires j < |ps|
    ensures ClosedIn(ps, j) > |ps[0].before|
  {
    ItemSize(ps[0]);
  }

  lemma ListSize(ps: seq<Item>)
    requires ps != []
    ensures |ListText(ps)| > |ps[0].before|
  {
    ItemSize(ps[0]);
  }

  /** A whole document is read to its meaning. */
  lemma {:induction false} ScanWhole(d: Doc)
    requires DocOk(d)
    ensures Scan(DocText(d)) == Scanned(ListMeaning(d.items), [])
  {
    hide Scan, ListCut, ListText, Meaning;
    var t := DocText(d);
    assert t[..|t|] == t;
    ScanCut(d, |t|);
    ListSize(d.items);
    ListCutWhole(d.items, |t| - |d.lead| - 1);
  }

  // Every list has a document

  function HexDigit(v: nat): byte
    requires v < 16
  {
    if v < 10 then 0x30 + v else 0x41 + (v - 10)
  }

  /** A byte as an encoder may write it: as it stands, behind a backslash, or as a \u escape. */
  function EncodeByte(b: byte): Element {
    if b == QUOTE || b == BACKSLASH then Short(b)
    else if b < 0x20 then
      var digits: Bytes := [0x30, 0x30, HexDigit(b / 16), HexDigit(b % 16)];
      assert AllHex(digits);
      Unicode(digits)
    else Raw(b)
  }

  function Encode(s: Bytes): String {
    if s == [] then [] else [EncodeByte(s[0])] + Encode(s[1..])
  }

  lemma ControlRune(b: byte)
    requires b < 0x20
    ensures ElemMeaning(EncodeByte(b)) == [b]
  {
    var d := EncodeByte(b).digits;
    assert d[..3] == [0x30, 0x30, HexDigit(b / 16)] && d[..3][..2] == [0x30, 0x30] && d[..3][..2][..1] == [0x30];
    assert HexNumber([0x30]) == HexNumber([0x30][..0]) * 0x10 + 0;
    assert HexNumber(d[..3][..2]) == 0;
    assert HexNumber(d[..3]) == b / 16;
    assert HexNumber(d) == b;
  }

  lemma {:induction false} EncodeMeans(s: Bytes)
    ensures Meaning(Encode(s)) == s
  {
    if s != [] {
      var es := Encode(s);
      assert es[0] == EncodeByte(s[0]) && es[1..] == Encode(s[1..]);
      EncodeMeans(s[1..]);
      if s[0] < 0x20 {
        ControlRune(s[0]);
      }
      assert ElemMeaning(es[0]) == [s[0]];
    }
  }

  function EncodeList(ms: seq<Pair>): (d: Doc)
    ensures |d.items| == |ms|
  {
    Doc([], seq(|ms|, i requires 0 <= i < |ms| =>
                        Item([], [], Encode(ms[i].name), [], [], Encode(ms[i].value), [], [])), [])
  }

  /** Reading back what was written: every non-empty list of pairs survives the round trip. */
  lemma {:induction false} RoundTrip(ms: seq<Pair>)
    requires ms != []
    ensures DocOk(EncodeList(ms)) && Scan(DocText(EncodeList(ms))) == Scanned(ms, [])
  {
    hide Encode, Meaning, Scan;
    var d := EncodeList(ms);
    ScanWhole(d);
    forall i | 0 <= i < |ms| ensures ListMeaning(d.items)[i] == ms[i] {
      EncodeMeans(ms[i].name);
      EncodeMeans(ms[i].value);
    }
    assert ListMeaning(d.items) == ms;
  }
}
