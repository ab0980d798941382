/** The hand-written reader of a truncated JSON header list in internal/httpapi/content_parse.go:
    `scanHeaders`, `readPair`, `readJSONString`, `skipSpace` and `unescapeJSONFragment`.

    The functions say what is read from an index on; the methods are the program's loops and are
    proved to compute the functions. */
module HeaderScan {
  import opened Bytes

  const QUOTE: byte := 0x22
  const BACKSLASH: byte := 0x5C
  const SLASH: byte := 0x2F
  const COMMA: byte := 0x2C
  const OPEN: byte := 0x5B
  const CLOSE: byte := 0x5D
  const LETTER_B: byte := 0x62
  const LETTER_F: byte := 0x66
  const LETTER_N: byte := 0x6E
  const LETTER_R: byte := 0x72
  const LETTER_T: byte := 0x74
  const LETTER_U: byte := 0x75

  datatype Pair = Pair(name: Bytes, value: Bytes)

  predicate IsSpace(b: byte) {
    b == 0x20 || b == 0x09 || b == 0x0A || b == 0x0D
  }

  predicate IsHex(b: byte) {
    0x30 <= b <= 0x39 || 0x41 <= b <= 0x46 || 0x61 <= b <= 0x66
  }

  function HexValue(b: byte): nat
    requires IsHex(b)
  {
    if b <= 0x39 then b - 0x30 else if b <= 0x46 then b - 0x41 + 10 else b - 0x61 + 10
  }

  predicate AllHex(s: Bytes) {
    forall i :: 0 <= i < |s| ==> IsHex(s[i])
  }

  /** The value of up to four hexadecimal digits. */
  function HexNumber(s: Bytes): (v: nat)
    requires |s| <= 4 && AllHex(s)
    ensures v < [0x1, 0x10, 0x100, 0x1000, 0x10000][|s|]
  {
    if s == [] then 0 else HexNumber(s[..|s| - 1]) * 0x10 + HexValue(s[|s| - 1])
  }

  /** WriteRune of a 16-bit value: UTF-8, with U+FFFD in place of a surrogate half. */
  function Rune(v: nat): Bytes
    requires v < 0x10000
  {
    if v < 0x80 then [v]
    else if v < 0x800 then [0xC0 + v / 0x40, 0x80 + v % 0x40]
    else if 0xD800 <= v < 0xE000 then [0xEF, 0xBF, 0xBD]
    else [0xE0 + v / 0x1000, 0x80 + v / 0x40 % 0x40, 0x80 + v % 0x40]
  }

  /** What a backslash in front of a byte other than `u` stands for. */
  function Escaped(b: byte): byte {
    if b == LETTER_B then 0x08
    else if b == LETTER_F then 0x0C
    else if b == LETTER_N then 0x0A
    else if b == LETTER_R then 0x0D
    else if b == LETTER_T then 0x09
    else b
  }

  function Skip(data: Bytes, i: nat): (next: nat)
    requires i <= |data|
    ensures i <= next <= |data|
    decreases |data| - i
  {
    if i == |data| || !IsSpace(data[i]) then i else Skip(data, i + 1)
  }

  /** A string as far as it could be read: its text, where reading ended, whether it was closed. */
  datatype Str = Str(text: Bytes, next: nat, done: bool)

  function Push(text: Bytes, rest: Str): Str {
    rest.(text := text + rest.text)
  }

  /** What stands at one place in a string. */
  datatype Unit = Closing | Broken | Piece(text: Bytes, next: nat)

  function ReadUnit(data: Bytes, i: nat): (u: Unit)
    requires i < |data|
    ensures u.Piece? ==> i < u.next <= |data|
  {
    if data[i] == QUOTE then Closing
    else if data[i] != BACKSLASH then Piece([data[i]], i + 1)
    else if i + 1 >= |data| then Broken
    else if data[i + 1] != LETTER_U then Piece([Escaped(data[i + 1])], i + 2)
    else if i + 5 >= |data| then Broken
    else if AllHex(data[i + 2..i + 6]) then Piece(Rune(HexNumber(data[i + 2..i + 6])), i + 6)
    else Piece([LETTER_U], i + 2)
  }

  /** The rest of a string from behind its opening quote. */
  function ReadBody(data: Bytes, i: nat): (r: Str)
    requires i <= |data|
    ensures i <= r.next <= |data|
    ensures !r.done ==> r.next == |data|
    ensures r.done ==> i < r.next
    decreases |data| - i
  {
    if i == |data| then Str([], |data|, false)
    else
      match ReadUnit(data, i)
      case Closing => Str([], i + 1, true)
      case Broken => Str([], |data|, false)
      case Piece(text, next) => Push(text, ReadBody(data, next))
  }

  datatype StringRead = NoString | ReadStr(str: Str)

  function ReadString(data: Bytes, i: nat): (r: StringRead)
    requires i <= |data|
    ensures r.ReadStr? ==> i < r.str.next <= |data|
  {
    var k := Skip(data, i);
    if k == |data| || data[k] != QUOTE then NoString else ReadStr(ReadBody(data, k + 1))
  }

  /** Past white space and, if it comes next, one `mark`. */
  function Past(data: Bytes, i: nat, mark: byte): (next: nat)
    requires i <= |data|
    ensures i <= next <= |data|
  {
    var k := Skip(data, i);
    if k < |data| && data[k] == mark then k + 1 else k
  }

  datatype PairRead = NoPair | ReadPr(pair: Pair, next: nat, complete: bool)

  function ReadPair(data: Bytes, i: nat): (r: PairRead)
    requires i <= |data|
    ensures r.ReadPr? ==> i < r.next <= |data|
  {
    var k := Skip(data, i);
    if k == |data| || data[k] != OPEN then NoPair
    else
      match ReadString(data, k + 1)
      case NoString => NoPair
      case ReadStr(name) =>
        if !name.done then ReadPr(Pair(name.text, []), |data|, false)
        else
          match ReadString(data, Past(data, name.next, COMMA))
          case NoString => ReadPr(Pair(name.text, []), |data|, false)
          case ReadStr(value) =>
            if !value.done then ReadPr(Pair(name.text, value.text), |data|, false)
            else ReadPr(Pair(name.text, value.text), Past(data, value.next, CLOSE), true)
  }

  /** Pairs and, where reading stopped at something unreadable, that text. */
  datatype Scanned = Scanned(pairs: seq<Pair>, continuation: Bytes)

  const NOTHING := Scanned([], [])

  /** unescapeJSONFragment. */
  function Unescape(s: Bytes): Bytes {
    ReadBody(s, 0).text
  }

  /** One turn of the loop of scanHeaders: the end of reading, or the pairs read and where to go on. */
  datatype Turn = Stop(last: Scanned) | GoOn(pairs: seq<Pair>, next: nat)

  function ScanTurn(data: Bytes, i: nat): (t: Turn)
    requires i <= |data|
    ensures t.GoOn? ==> i < t.next <= |data|
  {
    var k := Skip(data, i);
    if k == |data| || data[k] == CLOSE then Stop(NOTHING)
    else if data[k] == COMMA then GoOn([], k + 1)
    else if data[k] == OPEN then
      match ReadPair(data, k)
      case NoPair => Stop(Scanned([], Unescape(data[k..])))
      case ReadPr(pair, next, complete) =>
        if complete then GoOn([pair], next) else Stop(Scanned([pair], []))
    else Stop(Scanned([], Unescape(data[k..])))
  }

  function Behind(pairs: seq<Pair>, rest: Scanned): Scanned {
    rest.(pairs := pairs + rest.pairs)
  }

  /** The loop of scanHeaders. */
  function ScanList(data: Bytes, i: nat): Scanned
    requires i <= |data|
    decreases |data| - i
  {
    match ScanTurn(data, i)
    case Stop(last) => last
    case GoOn(pairs, next) =>
      Behind(pairs, ScanList(data, next))
  }

  /** scanHeaders. */
  function Scan(data: Bytes): Scanned {
    var i := Skip(data, 0);
    if i == |data| then NOTHING
    else if data[i] == OPEN then
      var j := Skip(data, i + 1);
      ScanList(data, if j < |data| && data[j] == OPEN then j else i)
    else if data[i] == COMMA then ScanList(data, Skip(data, i + 1))
    else Scanned([], Unescape(data[i..]))
  }

  // The program's loops

  method SkipSpace(data: Bytes, start: nat) returns (i: nat)
    requires start <= |data|
    ensures i == Skip(data, start)
  {
    i := start;
    while i < |data|
      invariant start <= i <= |data|
      invariant Skip(data, i) == Skip(data, start)
    {
      if IsSpace(data[i]) {
        i := i + 1;
      } else {
        return;
      }
    }
  }

  lemma BodyStep(data: Bytes, i: nat, before: Bytes)
    requires i < |data|
    ensures var u := ReadUnit(data, i);
            Push(before, ReadBody(data, i)) ==
            match u
            case Closing => Str(before, i + 1, true)
            case Broken => Str(before, |data|, false)
            case Piece(text, next) => Push(before + text, ReadBody(data, next))
  {
    var u := ReadUnit(data, i);
    if u.Piece? {
      var rest := ReadBody(data, u.next);
      assert before + (u.text + rest.text) == before + u.text + rest.text;
    }
  }

  lemma UnitAfter(data: Bytes, i: nat)
    requires i + 1 < |data| && data[i] == BACKSLASH && (data[i + 1] == LETTER_U ==> i + 5 < |data|)
    ensures ReadUnit(data, i) ==
            if data[i + 1] != LETTER_U then Piece([Escaped(data[i + 1])], i + 2)
            else if AllHex(data[i + 2..i + 6]) then Piece(Rune(HexNumber(data[i + 2..i + 6])), i + 6)
            else Piece([Escaped(LETTER_U)], i + 2)
  {
    hide AllHex, Rune, HexNumber;
  }

  lemma BodyEnd(data: Bytes, before: Bytes)
    ensures Push(before, ReadBody(data, |data|)) == Str(before, |data|, false)
    ensures forall i :: 0 <= i <= |data| ==> Push([], ReadBody(data, i)) == ReadBody(data, i)
  {
  }

  method ReadJSONString(data: Bytes, start: nat) returns (text: Bytes, next: nat, complete: bool, ok: bool)
    requires start <= |data|
    ensures ok <==> ReadString(data, start).ReadStr?
    ensures ok ==> ReadString(data, start).str == Str(text, next, complete)
  {
    hide Rune, HexNumber, ReadBody, Escaped, Skip;
    text, complete, ok := [], false, false;
    var i := SkipSpace(data, start);
    next := i;
    if i >= |data| {
      return;
    }
    if data[i] != QUOTE {
      return;
    }
    i := i + 1;
    ok := true;
    ghost var whole := ReadBody(data, i);
    BodyEnd(data, []);
    while i < |data|
      invariant i <= |data|
      invariant Push(text, ReadBody(data, i)) == whole
    {
      BodyStep(data, i, text);
      ghost var at, unit := i, ReadUnit(data, i);
      var c := data[i];
      if c == QUOTE {
        return text, i + 1, true, true;
      }
      if c != BACKSLASH {
        text := text + [c];
        i := i + 1;
        continue;
      }
      if i + 1 >= |data| {
        return text, |data|, false, true;
      }
      i := i + 1;
      var piece := [Escaped(data[i])];
      if data[i] == LETTER_U {
        if i + 4 >= |data| {
          return text, |data|, false, true;
        }
        if AllHex(data[i + 1..i + 5]) {
          piece := Rune(HexNumber(data[i + 1..i + 5]));
          i := i + 4;
        }
      }
      text := text + piece;
      i := i + 1;
      assert unit == Piece(piece, i) by {
        UnitAfter(data, at);
      }
    }
    BodyEnd(data, text);
    return text, |data|, false, true;
  }

  method ReadPairAt(data: Bytes, start: nat) returns (p: Pair, next: nat, complete: bool, ok: bool)
    requires start <= |data|
    ensures ok <==> ReadPair(data, start).ReadPr?
    ensures ok ==> ReadPair(data, start) == ReadPr(p, next, complete)
  {
    p, complete, ok := Pair([], []), false, false;
    var i := SkipSpace(data, start);
    next := i;
    if i >= |data| || data[i] != OPEN {
      return;
    }
    i := i + 1;
    var name, afterName, nameDone, nameOK := ReadJSONString(data, i);
    if !nameOK {
      return;
    }
    p := p.(name := name);
    if !nameDone {
      return p, |data|, false, true;
    }
    i := SkipSpace(data, afterName);
    if i < |data| && data[i] == COMMA {
      i := i + 1;
    }
    var value, afterValue, valueDone, valueOK := ReadJSONString(data, i);
    if !valueOK {
      return p, |data|, false, true;
    }
    p := p.(value := value);
    if !valueDone {
      return p, |data|, false, true;
    }
    i := SkipSpace(data, afterValue);
    if i < |data| && data[i] == CLOSE {
      i := i + 1;
    }
    return p, i, true, true;
  }

  lemma ScanStep(data: Bytes, i: nat, before: seq<Pair>)
    requires i <= |data|
    ensures var turn := ScanTurn(data, i);
            Behind(before, ScanList(data, i)) ==
            (if turn.GoOn? then Behind(before + turn.pairs, ScanList(data, turn.next)) else Behind(before, turn.last))
  {
    var turn := ScanTurn(data, i);
    if turn.GoOn? {
      var rest := ScanList(data, turn.next);
      assert before + (turn.pairs + rest.pairs) == before + turn.pairs + rest.pairs;
    }
  }

  lemma ScanEnd(data: Bytes)
    ensures ScanList(data, |data|) == NOTHING
  {
  }

  lemma NothingBefore(s: Scanned)
    ensures Behind([], s) == s
  {
  }

  method ScanHeaders(data: Bytes) returns (pairs: seq<Pair>, continuation: Bytes)
    ensures Scanned(pairs, continuation) == Scan(data)
  {
    hide Skip, ReadPair, Unescape, ScanList;
    pairs, continuation := [], [];
    NothingBefore(NOTHING);
    var i := SkipSpace(data, 0);
    if i >= |data| {
      return;
    }
    if data[i] == OPEN {
      var j := SkipSpace(data, i + 1);
      if j < |data| && data[j] == OPEN {
        i := j;
      }
    } else if data[i] == COMMA {
      i := SkipSpace(data, i + 1);
    } else {
      return [], Unescape(data[i..]);
    }
    NothingBefore(ScanList(data, i));
    while i < |data|
      invariant i <= |data|
      invariant Behind(pairs, ScanList(data, i)) == Scan(data)
      decreases |data| - i
    {
      ScanStep(data, i, pairs);
      ghost var turn := ScanTurn(data, i);
      i := SkipSpace(data, i);
      if i >= |data| {
        return;
      }
      if data[i] == CLOSE {
        return;
      } else if data[i] == COMMA {
        i := i + 1;
        assert turn == GoOn([], i) && pairs + [] == pairs;
      } else if data[i] == OPEN {
        var item, next, complete, ok := ReadPairAt(data, i);
        if !ok {
          return pairs, Unescape(data[i..]);
        }
        pairs := pairs + [item];
        i := next;
        if !complete {
          return;
        }
        assert turn == GoOn([item], i);
      } else {
        return pairs, Unescape(data[i..]);
      }
    }
    ScanEnd(data);
  }
}
