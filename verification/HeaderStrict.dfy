/** The tolerant header reader beside encoding/json: what either makes of a whole document. */
module HeaderStrict {
  import opened Bytes
  import opened HeaderScan
  import opened HeaderDoc
  import opened HeaderCut
  import Utf8

  predicate IsHigh(e: Element) { e.Unicode? && 0xD800 <= HexNumber(e.digits) < 0xDC00 }

  predicate IsLow(e: Element) { e.Unicode? && 0xDC00 <= HexNumber(e.digits) < 0xE000 }

  /** The four bytes of the character two surrogate escapes stand for. */
  function Supplementary(high: Element, low: Element): Bytes
    requires IsHigh(high) && IsLow(low)
  {
    var v := 0x10000 + (HexNumber(high.digits) - 0xD800) * 0x400 + (HexNumber(low.digits) - 0xDC00);
    [0xF0 + v / 0x40000, 0x80 + v / 0x1000 % 0x40, 0x80 + v / 0x40 % 0x40, 0x80 + v % 0x40]
  }

  const REPLACEMENT: Bytes := [0xEF, 0xBF, 0xBD]

  /** The raw bytes at the front of a string. */
  function RawFront(es: String): (s: Bytes)
    ensures |s| <= |es| && forall i :: 0 <= i < |s| ==> es[i] == Raw(s[i])
  {
    if es == [] || !es[0].Raw? then [] else [es[0].b] + RawFront(es[1..])
  }

  /** What encoding/json makes of a string: two surrogate escapes in a row are one character, and a raw
      byte that begins no well-formed character becomes U+FFFD. */
  function Strict(es: String): Bytes {
    if es == [] then []
    else if es[0].Raw? then
      var n := Utf8.CharSize(RawFront(es));
      if n == 0 then REPLACEMENT + Strict(es[1..]) else RawFront(es)[..n] + Strict(es[n..])
    else if |es| > 1 && IsHigh(es[0]) && IsLow(es[1]) then Supplementary(es[0], es[1]) + Strict(es[2..])
    else ElemMeaning(es[0]) + Strict(es[1..])
  }

  function StrictPair(p: Item): Pair {
    Pair(Strict(p.name), Strict(p.value))
  }

  function StrictMeaning(ps: seq<Item>): (ms: seq<Pair>)
    ensures |ms| == |ps| && forall i :: 0 <= i < |ps| ==> ms[i] == StrictPair(ps[i])
  {
    seq(|ps|, i requires 0 <= i < |ps| => StrictPair(ps[i]))
  }

  predicate HasSurrogatePair(es: String) {
    exists i :: 0 <= i < |es| - 1 && IsHigh(es[i]) && IsLow(es[i + 1])
  }

  /** Every run of raw bytes is well-formed UTF-8. */
  predicate RunsValid(es: String)
    decreases |es|
  {
    if es == [] then true
    else if es[0].Raw? then Utf8.Valid(RawFront(es)) && RunsValid(es[|RawFront(es)|..])
    else RunsValid(es[1..])
  }

  predicate OneReading(es: String) {
    RunsValid(es) && !HasSurrogatePair(es)
  }

  lemma RawStep(es: String)
    requires RawFront(es) != []
    ensures RawFront(es) == [es[0].b] + RawFront(es[1..]) && Meaning(es) == [es[0].b] + Meaning(es[1..])
  {
  }

  lemma {:induction false} RawMeaning(es: String, n: nat)
    requires n <= |RawFront(es)|
    ensures Meaning(es) == RawFront(es)[..n] + Meaning(es[n..])
    ensures RawFront(es[n..]) == RawFront(es)[n..]
    decreases n
  {
    hide RawFront, Meaning;
    if n == 0 {
      assert es[0..] == es;
    } else {
      RawStep(es);
      RawMeaning(es[1..], n - 1);
      assert es[n..] == es[1..][n - 1..];
    }
  }

  lemma RunsSplit(es: String)
    ensures RunsValid(es) <==> Utf8.Valid(RawFront(es)) && RunsValid(es[|RawFront(es)|..])
  {
    hide Utf8.CharSize;
    assert es[0..] == es;
  }

  /** A character of raw bytes at the front changes nothing about the rest. */
  lemma CharBehind(es: String, n: nat)
    requires es != [] && es[0].Raw? && n == Utf8.CharSize(RawFront(es)) > 0
    ensures OneReading(es) <==> OneReading(es[n..])
  {
    hide Utf8.CharSize, RunsValid, HasSurrogatePair, RawFront;
    var f := RawFront(es);
    RawMeaning(es, n);
    RunsSplit(es);
    RunsSplit(es[n..]);
    assert es[n..][|f| - n..] == es[|f|..];
    PairBehind(es, n);
  }

  lemma PairBehind(es: String, n: nat)
    requires n <= |es| && forall i :: 0 <= i < n ==> i + 1 < |es| ==> !(IsHigh(es[i]) && IsLow(es[i + 1]))
    ensures HasSurrogatePair(es) <==> HasSurrogatePair(es[n..])
  {
    hide IsHigh, IsLow;
    var rest := es[n..];
    if HasSurrogatePair(es) {
      var i :| 0 <= i < |es| - 1 && IsHigh(es[i]) && IsLow(es[i + 1]);
      assert rest[i - n] == es[i] && rest[i - n + 1] == es[i + 1];
    }
    if HasSurrogatePair(rest) {
      var i :| 0 <= i < |rest| - 1 && IsHigh(rest[i]) && IsLow(rest[i + 1]);
      assert es[n + i] == rest[i] && es[n + i + 1] == rest[i + 1];
    }
  }

  /** An escape means no continuation byte at its front. */
  lemma EscapeHead(e: Element)
    requires !e.Raw?
    ensures ElemMeaning(e) != [] && !Utf8.IsTail(ElemMeaning(e)[0])
  {
    hide HexNumber;
  }

  lemma RawHead(es: String)
    requires es != [] && es[0].Raw?
    ensures RawFront(es) != [] && (Utf8.Valid(RawFront(es)) ==> Utf8.CharSize(RawFront(es)) > 0)
  {
  }

  /** Bytes that begin no character are not read as the replacement character. */
  lemma NotReplacement(es: String)
    requires es != [] && es[0].Raw? && Utf8.CharSize(RawFront(es)) == 0
    ensures !(REPLACEMENT <= Meaning(es))
  {
    var f := RawFront(es);
    var rest := es[|f|..];
    RawMeaning(es, |f|);
    hide ElemMeaning, Meaning, RawFront;
    RawHead(es);
    FrontEnds(es);
    MeaningHead(rest);
    NoCharNoReplacement(f, Meaning(rest));
  }

  lemma NoCharNoReplacement(f: Bytes, t: Bytes)
    requires f != [] && Utf8.CharSize(f) == 0 && (t != [] ==> !Utf8.IsTail(t[0]))
    ensures !(REPLACEMENT <= f + t)
  {
    var m := f + t;
    assert m[0] == f[0];
    assert |f| > 1 ==> m[1] == f[1];
    assert |f| > 2 ==> m[2] == f[2];
    assert t != [] ==> m[|f|] == t[0];
  }

  lemma {:induction false} FrontEnds(es: String)
    ensures |RawFront(es)| < |es| ==> !es[|RawFront(es)|].Raw?
  {
    if es != [] && es[0].Raw? {
      FrontEnds(es[1..]);
    }
  }

  lemma MeaningHead(es: String)
    requires es != [] ==> !es[0].Raw?
    ensures Meaning(es) != [] ==> !Utf8.IsTail(Meaning(es)[0])
  {
    hide ElemMeaning;
    if es != [] {
      EscapeHead(es[0]);
    }
  }

  lemma SurrogatesDiffer(high: Element, low: Element, a: Bytes, b: Bytes)
    requires IsHigh(high) && IsLow(low)
    ensures Supplementary(high, low) + a != ElemMeaning(high) + b
  {
    assert (Supplementary(high, low) + a)[0] >= 0xF0;
    assert (ElemMeaning(high) + b)[0] == 0xEF;
  }

  lemma SameFront(p: Bytes, a: Bytes, b: Bytes)
    ensures p + a == p + b <==> a == b
  {
    assert (p + a)[|p|..] == a && (p + b)[|p|..] == b;
  }

  /** The two readers make the same of a string exactly when its raw bytes are well-formed and it holds no
      two surrogate escapes that make one character. */
  lemma {:induction false} StrictIff(es: String)
    ensures Strict(es) == Meaning(es) <==> OneReading(es)
    decreases |es|
  {
    hide Utf8.CharSize, RawFront, ElemMeaning, HasSurrogatePair, IsHigh, IsLow, Supplementary;
    if es == [] {
      NoPairs(es);
    } else if es[0].Raw? {
      RawHead(es);
      var n := Utf8.CharSize(RawFront(es));
      if n == 0 {
        NotReplacement(es);
      } else {
        StrictIff(es[n..]);
        CharBehind(es, n);
        RawMeaning(es, n);
        SameFront(RawFront(es)[..n], Strict(es[n..]), Meaning(es[n..]));
      }
    } else if |es| > 1 && IsHigh(es[0]) && IsLow(es[1]) {
      SurrogatesDiffer(es[0], es[1], Strict(es[2..]), Meaning(es[1..]));
      FirstPair(es);
    } else {
      StrictIff(es[1..]);
      PairBehind(es, 1);
      SameFront(ElemMeaning(es[0]), Strict(es[1..]), Meaning(es[1..]));
    }
  }

  lemma NoPairs(es: String)
    requires es == []
    ensures !HasSurrogatePair(es)
  {
  }

  lemma FirstPair(es: String)
    requires |es| > 1 && IsHigh(es[0]) && IsLow(es[1])
    ensures HasSurrogatePair(es)
  {
    assert IsHigh(es[0]) && IsLow(es[0 + 1]);
  }

  /** The outcome of json.Unmarshal on the data. */
  datatype Unmarshalled = Refused | Rows(pairs: seq<Pair>)

  /** parseHeadersFragment. */
  function HeadersFragment(strict: Unmarshalled, data: Bytes): Scanned {
    match strict
    case Rows(pairs) => Scanned(pairs, [])
    case Refused => Scan(data)
  }

  predicate AllOneReading(ps: seq<Item>) {
    forall i :: 0 <= i < |ps| ==> OneReading(ps[i].name) && OneReading(ps[i].value)
  }

  /** On a whole document the tolerant reader agrees with the strict one exactly when the raw bytes of
      every string are well-formed UTF-8 and no string holds two surrogate escapes that make up one
      character. */
  lemma {:induction false} AgreesWithStrictIff(d: Doc)
    requires DocOk(d)
    ensures HeadersFragment(Refused, DocText(d)) == Scanned(ListMeaning(d.items), [])
    ensures HeadersFragment(Refused, DocText(d)) == HeadersFragment(Rows(StrictMeaning(d.items)), DocText(d))
            <==> AllOneReading(d.items)
  {
    hide Scan, Strict, Meaning, OneReading, DocText;
    var ps := d.items;
    ScanWhole(d);
    forall i | 0 <= i < |ps|
      ensures StrictPair(ps[i]) == PairMeaning(ps[i]) <==> OneReading(ps[i].name) && OneReading(ps[i].value)
    {
      StrictIff(ps[i].name);
      StrictIff(ps[i].value);
    }
    if StrictMeaning(ps) == ListMeaning(ps) {
      assert forall i :: 0 <= i < |ps| ==> StrictMeaning(ps)[i] == ListMeaning(ps)[i];
    }
  }

  function OneValue(value: String): Doc {
    Doc([], [Item([], [], [], [], [], value, [], [])], [])
  }

  const GRIN: String := [Unicode([0x64, 0x38, 0x33, 0x64]), Unicode([0x64, 0x65, 0x30, 0x30])]

  lemma GrinParts()
    ensures IsHigh(GRIN[0]) && IsLow(GRIN[1])
    ensures HexNumber(GRIN[0].digits) == 0xD83D && HexNumber(GRIN[1].digits) == 0xDE00
  {
    FourDigits(0x64, 0x38, 0x33, 0x64);
    FourDigits(0x64, 0x65, 0x30, 0x30);
  }

  lemma FourDigits(a: byte, b: byte, c: byte, d: byte)
    requires IsHex(a) && IsHex(b) && IsHex(c) && IsHex(d)
    ensures AllHex([a, b, c, d])
    ensures HexNumber([a, b, c, d]) ==
            HexValue(a) * 0x1000 + HexValue(b) * 0x100 + HexValue(c) * 0x10 + HexValue(d)
  {
    assert [a, b, c, d][..3] == [a, b, c] && [a, b, c][..2] == [a, b] && [a, b][..1] == [a] && [a][..0] == [];
    assert HexNumber([a]) == HexValue(a);
    assert HexNumber([a, b]) == HexNumber([a]) * 0x10 + HexValue(b);
    assert HexNumber([a, b, c]) == HexNumber([a, b]) * 0x10 + HexValue(c);
  }

  /** A value that is the escapes of one supplementary character: the strict reader makes it the four bytes
      of the character, the tolerant one two replacement characters. */
  lemma SurrogatePairDiffers()
    ensures DocOk(OneValue(GRIN))
    ensures StrictMeaning(OneValue(GRIN).items) == [Pair([], [0xF0, 0x9F, 0x98, 0x80])]
    ensures Scan(DocText(OneValue(GRIN))) == Scanned([Pair([], [0xEF, 0xBF, 0xBD, 0xEF, 0xBF, 0xBD])], [])
  {
    hide Scan, DocText;
    GrinParts();
    ScanWhole(OneValue(GRIN));
    assert GRIN[1..] == [GRIN[1]] && GRIN[1..][1..] == [] && GRIN[2..] == [];
    assert Meaning(GRIN[1..]) == REPLACEMENT;
    assert REPLACEMENT + REPLACEMENT == [0xEF, 0xBF, 0xBD, 0xEF, 0xBF, 0xBD];
    assert Strict(GRIN) == [0xF0, 0x9F, 0x98, 0x80];
  }

  /** A value that is the single byte FF: the strict reader replaces it, the tolerant one keeps it. */
  lemma RawByteDiffers()
    ensures DocOk(OneValue([Raw(0xFF)]))
    ensures StrictMeaning(OneValue([Raw(0xFF)]).items) == [Pair([], [0xEF, 0xBF, 0xBD])]
    ensures Scan(DocText(OneValue([Raw(0xFF)]))) == Scanned([Pair([], [0xFF])], [])
  {
    hide Scan, DocText;
    ScanWhole(OneValue([Raw(0xFF)]));
    var es: String := [Raw(0xFF)];
    assert es[1..] == [] && RawFront(es) == [0xFF];
    assert Strict(es) == REPLACEMENT && Meaning(es) == [0xFF];
  }

  // What an escape means

  /** The character is the hexadecimal digit of n, in either case. */
  predicate IsDigitOf(c: byte, n: nat) {
    if n < 10 then c == 0x30 + n else n < 16 && (c == 0x41 + n - 10 || c == 0x61 + n - 10)
  }

  lemma IsHexIff(c: byte)
    ensures IsHex(c) <==> exists n: nat :: n < 16 && IsDigitOf(c, n)
  {
    if IsHex(c) {
      assert IsDigitOf(c, HexValue(c));
    }
  }

  /** An escape of four digits means the character of that number in UTF-8, but half of a surrogate pair
      means the replacement character; the other escapes mean what section 7 of RFC 8259 says. */
  lemma EscapesMean(a: byte, b: byte, c: byte, d: byte, w: nat, x: nat, y: nat, z: nat)
    requires IsDigitOf(a, w) && IsDigitOf(b, x) && IsDigitOf(c, y) && IsDigitOf(d, z)
    ensures ElemOk(Unicode([a, b, c, d]))
    ensures var v := w * 0x1000 + x * 0x100 + y * 0x10 + z;
            && HexNumber([a, b, c, d]) == v
            && (0xD800 <= v < 0xE000 ==> ElemMeaning(Unicode([a, b, c, d])) == [0xEF, 0xBF, 0xBD])
            && (!(0xD800 <= v < 0xE000) ==> ElemMeaning(Unicode([a, b, c, d])) == Utf8.Encoded(v))
    ensures ElemMeaning(Short(0x22)) == [0x22] && ElemMeaning(Short(0x5C)) == [0x5C]
    ensures ElemMeaning(Short(0x2F)) == [0x2F] && ElemMeaning(Short(0x62)) == [0x08]
    ensures ElemMeaning(Short(0x66)) == [0x0C] && ElemMeaning(Short(0x6E)) == [0x0A]
    ensures ElemMeaning(Short(0x72)) == [0x0D] && ElemMeaning(Short(0x74)) == [0x09]
  {
    hide HexNumber, ElemMeaning, Utf8.Encoded, IsDigitOf, IsHex, HexValue, AllHex;
    DigitIs(a, w);
    DigitIs(b, x);
    DigitIs(c, y);
    DigitIs(d, z);
    FourDigits(a, b, c, d);
    NumberMeans(Unicode([a, b, c, d]));
    ShortMeans();
  }

  lemma DigitIs(c: byte, n: nat)
    requires IsDigitOf(c, n)
    ensures IsHex(c) && HexValue(c) == n && n < 16
  {
  }

  lemma NumberMeans(e: Element)
    requires e.Unicode? && HexNumber(e.digits) < 0x10000
    ensures var v := HexNumber(e.digits);
            && (0xD800 <= v < 0xE000 ==> ElemMeaning(e) == [0xEF, 0xBF, 0xBD])
            && (!(0xD800 <= v < 0xE000) ==> ElemMeaning(e) == Utf8.Encoded(v))
  {
    hide HexNumber;
  }

  lemma ShortMeans()
    ensures ElemMeaning(Short(0x22)) == [0x22] && ElemMeaning(Short(0x5C)) == [0x5C]
    ensures ElemMeaning(Short(0x2F)) == [0x2F] && ElemMeaning(Short(0x62)) == [0x08]
    ensures ElemMeaning(Short(0x66)) == [0x0C] && ElemMeaning(Short(0x6E)) == [0x0A]
    ensures ElemMeaning(Short(0x72)) == [0x0D] && ElemMeaning(Short(0x74)) == [0x09]
  {
  }

  /** Two escapes that are a surrogate pair make the character of RFC 8259, section 7. */
  lemma SupplementaryIs(high: Element, low: Element)
    requires IsHigh(high) && IsLow(low)
    ensures Supplementary(high, low) ==
            Utf8.Encoded(0x10000 + (HexNumber(high.digits) - 0xD800) * 0x400 + (HexNumber(low.digits) - 0xDC00))
  {
    hide HexNumber;
  }

  /** Every code point beyond the basic plane, written as its two escapes, is read by the strict reader as
      that one character, and by the tolerant one as two replacement characters. */
  lemma SurrogatesRead(v: nat, high: Element, low: Element)
    requires 0x10000 <= v < 0x110000 && high.Unicode? && low.Unicode?
    requires HexNumber(high.digits) == 0xD800 + (v - 0x10000) / 0x400
    requires HexNumber(low.digits) == 0xDC00 + (v - 0x10000) % 0x400
    ensures Strict([high, low]) == Utf8.Encoded(v)
    ensures Meaning([high, low]) == [0xEF, 0xBF, 0xBD, 0xEF, 0xBF, 0xBD]
  {
    hide HexNumber, Utf8.Encoded, Supplementary, ElemMeaning;
    SupplementaryIs(high, low);
    var es: String := [high, low];
    assert es[2..] == [] && es[1..] == [low] && [low][1..] == [];
    SurrogateMeans(high);
    SurrogateMeans(low);
    assert Meaning([low]) == ElemMeaning(low) + Meaning([]);
    assert Meaning(es) == ElemMeaning(high) + Meaning([low]);
  }

  lemma SurrogateMeans(e: Element)
    requires e.Unicode? && 0xD800 <= HexNumber(e.digits) < 0xE000
    ensures ElemMeaning(e) == [0xEF, 0xBF, 0xBD]
  {
    hide HexNumber;
  }
}
