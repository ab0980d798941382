/** utf8Window of internal/httpapi/content_parse.go: the text a page of a body shows, cut back to
    the last whole character.  Well-formedness is section 4 of RFC 3629. */
module Utf8 {
  import opened Bytes

  predicate Between(b: byte, lo: nat, hi: nat) {
    lo <= b <= hi
  }

  predicate IsTail(b: byte) {
    Between(b, 0x80, 0xBF)
  }

  /** The length of the well-formed character at the front, 0 if there is none. */
  function CharSize(s: Bytes): (n: nat)
    ensures n <= |s| && n <= 4
  {
    if |s| >= 1 && s[0] <= 0x7F then 1
    else if |s| >= 2 && Between(s[0], 0xC2, 0xDF) && IsTail(s[1]) then 2
    else if |s| >= 3 && IsTail(s[2]) &&
            ((s[0] == 0xE0 && Between(s[1], 0xA0, 0xBF)) ||
             (Between(s[0], 0xE1, 0xEC) && IsTail(s[1])) ||
             (s[0] == 0xED && Between(s[1], 0x80, 0x9F)) ||
             (Between(s[0], 0xEE, 0xEF) && IsTail(s[1]))) then 3
    else if |s| >= 4 && IsTail(s[2]) && IsTail(s[3]) &&
            ((s[0] == 0xF0 && Between(s[1], 0x90, 0xBF)) ||
             (Between(s[0], 0xF1, 0xF3) && IsTail(s[1])) ||
             (s[0] == 0xF4 && Between(s[1], 0x80, 0x8F))) then 4
    else 0
  }

  /** utf8.Valid. */
  predicate Valid(s: Bytes)
    decreases |s|
  {
    s == [] || (CharSize(s) > 0 && Valid(s[CharSize(s)..]))
  }

  /** Where the bytes before `end` stop being continuation bytes. */
  function TrimTails(data: Bytes, end: nat): (e: nat)
    requires end <= |data|
    ensures e <= end
  {
    if end > 0 && IsTail(data[end - 1]) then TrimTails(data, end - 1) else end
  }

  function TrimChar(data: Bytes): (e: nat)
    ensures e <= |data|
  {
    var e := TrimTails(data, |data|);
    if e > 0 && data[e - 1] >= 0x80 then e - 1 else e
  }

  datatype Text = Binary | Shown(size: nat)

  /** How much of the data is shown as text. */
  function Window(data: Bytes): (t: Text)
    ensures t.Shown? ==> t.size <= |data|
  {
    if 0 in data then Binary
    else if Valid(data) then Shown(|data|)
    else
      var e := TrimChar(data);
      if e == 0 || !Valid(data[..e]) then Binary else Shown(e)
  }

  method Utf8Window(data: Bytes) returns (text: Bytes, n: nat, ok: bool)
    ensures ok <==> Window(data).Shown?
    ensures ok ==> n == Window(data).size && text == data[..n]
  {
    if 0 in data {
      return [], 0, false;
    }
    if Valid(data) {
      return data, |data|, true;
    }
    var end: nat := |data|;
    while end > 0 && IsTail(data[end - 1])
      invariant end <= |data| && TrimTails(data, end) == TrimTails(data, |data|)
    {
      end := end - 1;
    }
    if end > 0 && data[end - 1] >= 0x80 {
      end := end - 1;
    }
    if end == 0 || !Valid(data[..end]) {
      return [], 0, false;
    }
    return data[..end], end, true;
  }

  // Characters do not straddle

  lemma CharSizePrefix(a: Bytes, b: Bytes)
    requires CharSize(a) > 0
    ensures CharSize(a + b) == CharSize(a)
  {
    assert forall i :: 0 <= i < |a| ==> (a + b)[i] == a[i];
  }

  /** Behind its first byte a character has only continuation bytes; its first byte is none. */
  lemma CharShape(s: Bytes)
    requires CharSize(s) > 0
    ensures !IsTail(s[0])
    ensures CharSize(s) > 1 ==> s[0] >= 0x80
    ensures forall i :: 0 < i < CharSize(s) ==> IsTail(s[i])
  {
  }

  lemma {:induction false} ValidJoin(a: Bytes, b: Bytes)
    requires Valid(a)
    ensures Valid(a + b) <==> Valid(b)
    decreases |a|
  {
    if a == [] {
      assert a + b == b;
    } else {
      CharSizePrefix(a, b);
      var n := CharSize(a);
      assert (a + b)[n..] == a[n..] + b;
      ValidJoin(a[n..], b);
    }
  }

  /** The last character boundary at or before m. */
  function Boundary(s: Bytes, m: nat): (v: nat)
    requires m <= |s|
    ensures v <= m
    decreases |s|
  {
    if s == [] || CharSize(s) == 0 || m < CharSize(s) then 0
    else CharSize(s) + Boundary(s[CharSize(s)..], m - CharSize(s))
  }

  /** A whole character before the cut only shifts the boundary. */
  lemma BoundaryStep(s: Bytes, m: nat)
    requires Valid(s) && s != [] && CharSize(s) <= m <= |s|
    ensures var n := CharSize(s);
            && 0 < n && Valid(s[n..]) && Valid(s[..n])
            && Boundary(s, m) == n + Boundary(s[n..], m - n)
  {
    OneChar(s);
  }

  lemma BoundaryStays(s: Bytes, m: nat)
    requires Valid(s) && m <= |s| && (s == [] || m < CharSize(s))
    ensures Boundary(s, m) == 0 && Valid(s[..0])
  {
  }

  lemma SplitShift(s: Bytes, n: nat, v: nat)
    requires n + v <= |s|
    ensures s[..n + v] == s[..n] + s[n..][..v] && s[n + v..] == s[n..][v..]
  {
  }

  lemma {:induction false} BoundaryParts(s: Bytes, m: nat)
    requires Valid(s) && m <= |s|
    ensures var v := Boundary(s, m);
            Valid(s[..v]) && Valid(s[v..]) && (v == m || m - v < CharSize(s[v..]))
    decreases |s|
  {
    hide CharSize, Valid, Boundary;
    var n := CharSize(s);
    if s != [] && n <= m {
      BoundaryStep(s, m);
      var v := Boundary(s[n..], m - n);
      BoundaryParts(s[n..], m - n);
      SplitShift(s, n, v);
      ValidJoin(s[..n], s[n..][..v]);
    } else {
      BoundaryStays(s, m);
      assert s[0..] == s;
    }
  }

  lemma OneChar(s: Bytes)
    requires CharSize(s) > 0
    ensures Valid(s[..CharSize(s)])
  {
    var c := s[..CharSize(s)];
    assert CharSize(c) == CharSize(s);
    assert c[CharSize(c)..] == [];
  }

  /** A proper non-empty piece of one character is not well-formed. */
  lemma PieceInvalid(s: Bytes, k: nat)
    requires 0 < k < CharSize(s)
    ensures !Valid(s[..k])
  {
    assert CharSize(s[..k]) == 0;
  }

  /** What precedes a cut character is what utf8Window keeps. */
  lemma TrimFindsBoundary(s: Bytes, m: nat)
    requires Valid(s) && m <= |s| && Boundary(s, m) < m
    ensures TrimChar(s[..m]) == Boundary(s, m)
  {
    var v, data := Boundary(s, m), s[..m];
    BoundaryParts(s, m);
    CharShape(s[v..]);
    forall i | v < i < m ensures IsTail(data[i]) {
      assert data[i] == s[v..][i - v];
    }
    assert data[v] == s[v..][0];
    TrimStops(data, v, m);
  }

  lemma {:induction false} TrimStops(data: Bytes, v: nat, end: nat)
    requires v < end <= |data| && !IsTail(data[v])
    requires forall i :: v < i < end ==> IsTail(data[i])
    ensures TrimTails(data, end) == v + 1
    decreases end
  {
    if end > v + 1 {
      TrimStops(data, v, end - 1);
    }
  }

  /** A window at the front of NUL-free well-formed text shows the text up to the last character
      boundary; a window of at least four bytes, or reaching the end, shows something. */
  lemma WindowOfText(s: Bytes, m: nat)
    requires Valid(s) && 0 !in s && m <= |s|
    ensures Window(s[..m]) == if m == 0 || Boundary(s, m) > 0 then Shown(Boundary(s, m)) else Binary
    ensures m >= 4 || m == |s| ==> Window(s[..m]).Shown? && (m > 0 ==> Window(s[..m]).size > 0)
  {
    hide CharSize;
    var v, data := Boundary(s, m), s[..m];
    BoundaryParts(s, m);
    assert 0 !in data;
    if v == m {
      assert Valid(data);
    } else {
      assert data == s[..v] + s[v..][..m - v];
      PieceInvalid(s[v..], m - v);
      ValidJoin(s[..v], s[v..][..m - v]);
      TrimFindsBoundary(s, m);
      assert data[..v] == s[..v];
    }
  }

  /** Whatever the data, what is shown is well-formed, NUL-free and at the front of it. */
  lemma ShownIsText(data: Bytes)
    requires Window(data).Shown?
    ensures Valid(data[..Window(data).size]) && 0 !in data
  {
    assert data[..|data|] == data;
  }

  // Characters by their numbers

  predicate IsScalar(v: nat) {
    v < 0xD800 || 0xE000 <= v < 0x110000
  }

  /** Section 3 of RFC 3629. */
  function Encoded(v: nat): (s: Bytes)
    requires IsScalar(v)
    ensures 1 <= |s| <= 4
  {
    if v < 0x80 then [v]
    else if v < 0x800 then [0xC0 + v / 0x40, 0x80 + v % 0x40]
    else if v < 0x10000 then [0xE0 + v / 0x1000, 0x80 + v / 0x40 % 0x40, 0x80 + v % 0x40]
    else [0xF0 + v / 0x40000, 0x80 + v / 0x1000 % 0x40, 0x80 + v / 0x40 % 0x40, 0x80 + v % 0x40]
  }

  lemma ThreeParts(v: nat)
    requires 0x800 <= v < 0x10000 && IsScalar(v)
    ensures var a, b := 0xE0 + v / 0x1000, 0x80 + v / 0x40 % 0x40;
            0xE0 <= a <= 0xEF && (a == 0xE0 ==> b >= 0xA0) && (a == 0xED ==> b <= 0x9F)
  {
  }

  lemma FourParts(v: nat)
    requires 0x10000 <= v < 0x110000
    ensures var a, b := 0xF0 + v / 0x40000, 0x80 + v / 0x1000 % 0x40;
            0xF0 <= a <= 0xF4 && (a == 0xF0 ==> b >= 0x90) && (a == 0xF4 ==> b <= 0x8F)
  {
  }

  lemma EncodedIsChar(v: nat, rest: Bytes)
    requires IsScalar(v)
    ensures CharSize(Encoded(v) + rest) == |Encoded(v)|
  {
    hide CharSize;
    if v < 0x80 {
      OneIsChar(v, rest);
    } else if v < 0x800 {
      TwoAreChar(0xC0 + v / 0x40, 0x80 + v % 0x40, rest);
    } else if v < 0x10000 {
      ThreeParts(v);
      ThreeAreChar(0xE0 + v / 0x1000, 0x80 + v / 0x40 % 0x40, 0x80 + v % 0x40, rest);
    } else {
      FourParts(v);
      FourAreChar(0xF0 + v / 0x40000, 0x80 + v / 0x1000 % 0x40, 0x80 + v / 0x40 % 0x40, 0x80 + v % 0x40, rest);
    }
  }

  lemma OneIsChar(a: byte, rest: Bytes)
    requires a < 0x80
    ensures CharSize([a] + rest) == 1
  {
  }

  lemma TwoAreChar(a: byte, b: byte, rest: Bytes)
    requires 0xC2 <= a <= 0xDF && IsTail(b)
    ensures CharSize([a, b] + rest) == 2
  {
    var s := [a, b] + rest;
    assert s[0] == a && s[1] == b;
  }

  lemma ThreeAreChar(a: byte, b: byte, c: byte, rest: Bytes)
    requires 0xE0 <= a <= 0xEF && IsTail(b) && IsTail(c)
    requires (a == 0xE0 ==> b >= 0xA0) && (a == 0xED ==> b <= 0x9F)
    ensures CharSize([a, b, c] + rest) == 3
  {
    var s := [a, b, c] + rest;
    assert s[0] == a && s[1] == b && s[2] == c;
  }

  lemma FourAreChar(a: byte, b: byte, c: byte, d: byte, rest: Bytes)
    requires 0xF0 <= a <= 0xF4 && IsTail(b) && IsTail(c) && IsTail(d)
    requires (a == 0xF0 ==> b >= 0x90) && (a == 0xF4 ==> b <= 0x8F)
    ensures CharSize([a, b, c, d] + rest) == 4
  {
    var s := [a, b, c, d] + rest;
    assert s[0] == a && s[1] == b && s[2] == c && s[3] == d;
  }

  lemma TwoBytes(a: nat, b: nat)
    requires 0xC2 <= a <= 0xDF && 0x80 <= b <= 0xBF
    ensures var v := (a - 0xC0) * 0x40 + (b - 0x80); 0x80 <= v < 0x800 && Encoded(v) == [a, b]
  {
  }

  lemma ThreeBytes(a: nat, b: nat, c: nat)
    requires 0xE0 <= a <= 0xEF && 0x80 <= b <= 0xBF && 0x80 <= c <= 0xBF
    requires (a == 0xE0 ==> b >= 0xA0) && (a == 0xED ==> b <= 0x9F)
    ensures var v := (a - 0xE0) * 0x1000 + (b - 0x80) * 0x40 + (c - 0x80);
            0x800 <= v < 0x10000 && IsScalar(v) && Encoded(v) == [a, b, c]
  {
    var v := (a - 0xE0) * 0x1000 + (b - 0x80) * 0x40 + (c - 0x80);
    assert v / 0x40 == (a - 0xE0) * 0x40 + (b - 0x80);
  }

  lemma FourBytes(a: nat, b: nat, c: nat, d: nat)
    requires 0xF0 <= a <= 0xF4 && 0x80 <= b <= 0xBF && 0x80 <= c <= 0xBF && 0x80 <= d <= 0xBF
    requires (a == 0xF0 ==> b >= 0x90) && (a == 0xF4 ==> b <= 0x8F)
    ensures var v := (a - 0xF0) * 0x40000 + (b - 0x80) * 0x1000 + (c - 0x80) * 0x40 + (d - 0x80);
            0x10000 <= v < 0x110000 && Encoded(v) == [a, b, c, d]
  {
    var v := (a - 0xF0) * 0x40000 + (b - 0x80) * 0x1000 + (c - 0x80) * 0x40 + (d - 0x80);
    assert v / 0x40 == (a - 0xF0) * 0x1000 + (b - 0x80) * 0x40 + (c - 0x80);
    assert v / 0x1000 == (a - 0xF0) * 0x40 + (b - 0x80);
  }

  lemma CharIsEncoded(s: Bytes) returns (v: nat)
    requires CharSize(s) > 0
    ensures IsScalar(v) && Encoded(v) == s[..CharSize(s)]
  {
    hide Encoded;
    var n := CharSize(s);
    if n == 1 {
      v := s[0];
      OneByte(v);
    } else if n == 2 {
      TwoBytes(s[0], s[1]);
      v := (s[0] as int - 0xC0) * 0x40 + (s[1] as int - 0x80);
    } else if n == 3 {
      ThreeBytes(s[0], s[1], s[2]);
      v := (s[0] as int - 0xE0) * 0x1000 + (s[1] as int - 0x80) * 0x40 + (s[2] as int - 0x80);
    } else {
      FourBytes(s[0], s[1], s[2], s[3]);
      v := (s[0] as int - 0xF0) * 0x40000 + (s[1] as int - 0x80) * 0x1000 + (s[2] as int - 0x80) * 0x40
      + (s[3] as int - 0x80);
    }
  }

  lemma OneByte(v: nat)
    requires v < 0x80
    ensures Encoded(v) == [v]
  {
  }

  predicate AllScalar(vs: seq<nat>) {
    forall i :: 0 <= i < |vs| ==> IsScalar(vs[i])
  }

  function EncodedAll(vs: seq<nat>): Bytes
    requires AllScalar(vs)
  {
    if vs == [] then [] else Encoded(vs[0]) + EncodedAll(vs[1..])
  }

  lemma {:induction false} EncodedIsValid(vs: seq<nat>)
    requires AllScalar(vs)
    ensures Valid(EncodedAll(vs))
  {
    hide CharSize, Encoded;
    if vs != [] {
      EncodedIsValid(vs[1..]);
      EncodedIsChar(vs[0], EncodedAll(vs[1..]));
    }
  }

  /** Exactly the encodings of texts are well-formed. */
  lemma {:induction false} ValidIsEncoded(s: Bytes) returns (vs: seq<nat>)
    requires Valid(s)
    ensures AllScalar(vs) && EncodedAll(vs) == s
    decreases |s|
  {
    hide CharSize, Encoded;
    if s == [] {
      vs := [];
    } else {
      var n := CharSize(s);
      var v := CharIsEncoded(s);
      var more := ValidIsEncoded(s[n..]);
      vs := [v] + more;
      assert vs[1..] == more && s == s[..n] + s[n..];
    }
  }

  lemma ValidIff(s: Bytes)
    ensures Valid(s) <==> exists vs :: AllScalar(vs) && EncodedAll(vs) == s
  {
    if Valid(s) {
      var vs := ValidIsEncoded(s);
      assert AllScalar(vs) && EncodedAll(vs) == s;
    }
    if vs :| AllScalar(vs) && EncodedAll(vs) == s {
      EncodedIsValid(vs);
    }
  }
}
