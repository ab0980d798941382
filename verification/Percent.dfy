/** url.QueryUnescape, with the fallback of internal/httpapi/content.go: text with a broken escape is
    left as it is. One character stands for one byte. */
module Percent {
  import opened Lists
  import opened Strings

  /** Every percent sign is followed by two hexadecimal digits. */
  predicate Well(s: string) {
    s == "" ||
    if s[0] == '%' then |s| >= 3 && IsHex(s[1]) && IsHex(s[2]) && Well(s[3..]) else Well(s[1..])
  }

  function Decoded(s: string): string
    requires Well(s)
  {
    if s == "" then ""
    else if s[0] == '%' then [(16 * HexOf(s[1]) + HexOf(s[2])) as char] + Decoded(s[3..])
    else [if s[0] == '+' then ' ' else s[0]] + Decoded(s[1..])
  }

  /** unescape. */
  function Unescape(s: string): string {
    if Well(s) then Decoded(s) else s
  }

  predicate Plain(s: string) { '%' !in s && '+' !in s }

  lemma {:induction false} DecodedSize(s: string)
    requires Well(s)
    ensures |Decoded(s)| <= |s| && (Decoded(s) == "" <==> s == "")
    ensures Decoded(s) == s <==> Plain(s)
    decreases |s|
  {
    if s != "" {
      assert s == [s[0]] + s[1..];
      if s[0] == '%' {
        DecodedSize(s[3..]);
        assert |Decoded(s)| < |s|;
      } else {
        DecodedSize(s[1..]);
        assert Plain(s) <==> s[0] != '+' && Plain(s[1..]);
        assert Decoded(s)[0] == s[0] <==> s[0] != '+';
        assert Decoded(s)[1..] == Decoded(s[1..]);
      }
    }
  }

  lemma UnescapeSize(s: string)
    ensures |Unescape(s)| <= |s| && (Unescape(s) == "" <==> s == "")
  {
    if Well(s) {
      DecodedSize(s);
    }
  }

  /** What unescaping leaves alone. */
  predicate Unchanged(s: string) { !Well(s) || Plain(s) }

  lemma UnchangedIff(s: string)
    ensures Unescape(s) == s <==> Unchanged(s)
  {
    if Well(s) {
      DecodedSize(s);
    }
  }

  lemma ReadFront(s: string, n: nat)
    requires s != "" && n == (if s[0] == '%' then 3 else 1) && n <= |s|
    requires s[0] == '%' ==> IsHex(s[1]) && IsHex(s[2])
    ensures Well(s) <==> Well(s[n..])
    ensures Well(s[..n]) && (Well(s) ==> Decoded(s) == Decoded(s[..n]) + Decoded(s[n..]))
  {
    hide IsHex, HexOf;
    var front := s[..n];
    assert front[0] == s[0] && front[n..] == "" && Well("") && Decoded("") == "";
    if s[0] == '%' {
      assert front[1] == s[1] && front[2] == s[2];
      assert Decoded(front) == [(16 * HexOf(s[1]) + HexOf(s[2])) as char];
    } else {
      assert Decoded(front) == [if s[0] == '+' then ' ' else s[0]];
    }
  }

  lemma WellFront(s: string)
    ensures Well("") && Decoded("") == ""
    ensures Well(s) && s != "" && s[0] == '%' ==> |s| >= 3 && IsHex(s[1]) && IsHex(s[2])
  {
    hide IsHex, HexOf;
  }

  lemma {:induction false} WellJoin(v: string, h: string)
    requires Well(v)
    ensures Well(v + h) <==> Well(h)
    ensures Well(h) ==> Decoded(v + h) == Decoded(v) + Decoded(h)
    decreases |v|
  {
    hide IsHex, Well, Decoded;
    WellFront(v);
    if v == "" {
      assert v + h == h;
    } else {
      var n := if v[0] == '%' then 3 else 1;
      assert (v + h)[n..] == v[n..] + h && (v + h)[..n] == v[..n];
      ReadFront(v, n);
      ReadFront(v + h, n);
      WellJoin(v[n..], h);
    }
  }

  /** A cut through an escape leaves more text than there was. */
  lemma {:induction false} CutEscape(v: string, h: string)
    requires Well(v + h) && !Well(v)
    ensures Well(h) && |Decoded(v + h)| < |v| + |Decoded(h)|
    decreases |v|
  {
    var s := v + h;
    if v[0] == '%' && |v| < 3 {
      var m := 3 - |v|;
      assert s[3..] == h[m..];
      assert s[1] == (v + h)[1] && s[2] == (v + h)[2];
      HexFront(h, m);
    } else {
      var n := if v[0] == '%' then 3 else 1;
      assert s[n..] == v[n..] + h;
      assert n == 3 ==> s[1] == v[1] && s[2] == v[2];
      CutEscape(v[n..], h);
    }
  }

  /** Hexadecimal digits stand for themselves. */
  lemma HexFront(h: string, m: nat)
    requires 0 < m <= 2 && m <= |h| && IsHex(h[0]) && (m == 2 ==> IsHex(h[1])) && Well(h[m..])
    ensures Well(h) && |Decoded(h)| == m + |Decoded(h[m..])|
  {
    if m == 2 {
      assert h[1..][1..] == h[2..];
      assert Well(h[1..]) && |Decoded(h[1..])| == 1 + |Decoded(h[2..])|;
    }
  }

  /** Unescaping on either side of the cut gives what unescaping the whole gives: no escape is cut, and
      if one is broken somewhere, neither side is changed. */
  predicate Seamless(v: string, h: string) {
    if Well(v + h) then Well(v) else Unchanged(v) && Unchanged(h)
  }

  lemma SeamIff(v: string, h: string)
    ensures Unescape(v + h) == Unescape(v) + Unescape(h) <==> Seamless(v, h)
  {
    hide Well, Decoded;
    if Well(v) {
      WellJoin(v, h);
    }
    if Well(v + h) {
      if !Well(v) {
        CutEscape(v, h);
      }
    } else {
      UnchangedIff(v);
      UnchangedIff(h);
      UnescapeSize(v);
      UnescapeSize(h);
      JoinedEqual(Unescape(v), Unescape(h), v, h);
    }
  }

  /** No escape goes over an equals sign. */
  lemma {:induction false} WellSplit(a: string, b: string)
    requires Well(a + ['='] + b)
    ensures Well(a) && Well(b)
    decreases |a|
  {
    var s := a + ['='] + b;
    if a == "" {
      assert s[1..] == b;
    } else {
      assert a[0] == s[0];
      assert |a| < 3 ==> s[|a|] == '=' && !IsHex('=');
      var n := if a[0] == '%' then 3 else 1;
      assert n == 3 ==> s[1] == a[1] && s[2] == a[2];
      assert s[n..] == a[n..] + ['='] + b;
      WellSplit(a[n..], b);
    }
  }

  /** Behind an equals sign there is less than in the whole. */
  lemma ValueShorter(name: string, value: string)
    ensures |Unescape(value)| < |Unescape(name + ['='] + value)|
  {
    hide Well, Decoded;
    var s := name + ['='] + value;
    UnescapeSize(value);
    if Well(s) {
      WellSplit(name, value);
      EqualsSign(value);
      assert s == name + (['='] + value);
      WellJoin(name, ['='] + value);
    }
  }

  lemma EqualsSign(value: string)
    requires Well(value)
    ensures Well(['='] + value) && |Decoded(['='] + value)| == 1 + |Decoded(value)|
  {
    assert (['='] + value)[1..] == value;
  }

  // Texts as clients write them

  /** A character as it stands, a space as a plus sign, or any byte behind a percent sign with its digits in
      either case. */
  datatype Piece = Kept(c: char) | Space | Coded(c: char, high: char, low: char)

  predicate IsDigitOf(c: char, n: nat) {
    if n < 10 then c as int == '0' as int + n
    else n < 16 && (c as int == 'A' as int + n - 10 || c as int == 'a' as int + n - 10)
  }

  predicate PieceOk(p: Piece) {
    match p
    case Kept(c) => c != '%' && c != '+'
    case Space => true
    case Coded(c, high, low) => c as int < 256 && IsDigitOf(high, c as int / 16) && IsDigitOf(low, c as int % 16)
  }

  predicate PiecesOk(ps: seq<Piece>) {
    forall i :: 0 <= i < |ps| ==> PieceOk(ps[i])
  }

  function Written(ps: seq<Piece>): string {
    if ps == [] then ""
    else (match ps[0]
          case Kept(c) => [c]
          case Space => "+"
          case Coded(_, high, low) => ['%', high, low]) + Written(ps[1..])
  }

  function Meant(ps: seq<Piece>): (s: string)
    ensures |s| == |ps|
    ensures forall i :: 0 <= i < |ps| ==> s[i] == if ps[i].Space? then ' ' else ps[i].c
  {
    seq(|ps|, i requires 0 <= i < |ps| => if ps[i].Space? then ' ' else ps[i].c)
  }

  lemma HexDigits(c: char)
    ensures IsHex(c) <==> exists n: nat :: n < 16 && IsDigitOf(c, n)
    ensures IsHex(c) ==> IsDigitOf(c, HexOf(c))
  {
    if IsHex(c) {
      assert IsDigitOf(c, HexOf(c));
    }
  }

  lemma CodedReads(c: char, high: char, low: char)
    requires PieceOk(Coded(c, high, low))
    ensures IsHex(high) && IsHex(low) && (16 * HexOf(high) + HexOf(low)) as char == c
  {
  }

  lemma {:induction false} WrittenReads(ps: seq<Piece>)
    requires PiecesOk(ps)
    ensures Well(Written(ps)) && Decoded(Written(ps)) == Meant(ps)
  {
    hide IsHex, HexOf, Well, Decoded, Meant;
    WellFront("");
    if ps != [] {
      WrittenReads(ps[1..]);
      PieceReads(ps, Written(ps[1..]));
      MeantFront(ps);
    }
  }

  lemma MeantFront(ps: seq<Piece>)
    requires ps != []
    ensures Meant(ps) == [if ps[0].Space? then ' ' else ps[0].c] + Meant(ps[1..])
  {
  }

  lemma PieceReads(ps: seq<Piece>, more: string)
    requires ps != [] && PieceOk(ps[0]) && Written(ps[1..]) == more && Well(more)
    ensures Well(Written(ps))
    ensures Decoded(Written(ps)) == [if ps[0].Space? then ' ' else ps[0].c] + Decoded(more)
  {
    hide IsHex, HexOf;
    var s := Written(ps);
    if ps[0].Coded? {
      CodedReads(ps[0].c, ps[0].high, ps[0].low);
      assert s[1] == ps[0].high && s[2] == ps[0].low && s[3..] == more;
    } else {
      assert s[1..] == more;
    }
  }

  /** However a text is written it is read back; and one with a percent sign that no two digits follow is
      left as it is. */
  lemma UnescapeReads(ps: seq<Piece>, rest: string)
    requires PiecesOk(ps)
    ensures Unescape(Written(ps)) == Meant(ps)
    ensures |rest| < 2 || !IsHex(rest[0]) || !IsHex(rest[1]) ==>
              Unescape(Written(ps) + "%" + rest) == Written(ps) + "%" + rest
  {
    WrittenReads(ps);
    var broken := "%" + rest;
    assert |rest| >= 2 ==> broken[1] == rest[0] && broken[2] == rest[1];
    WellJoin(Written(ps), broken);
    assert Written(ps) + broken == Written(ps) + "%" + rest;
  }
}
