/** A JSON object as internal/model/row.go prints it, member by member, and its reader: names are quoted
    as json.Marshal quotes them, values are raw JSON texts (sections 4 and 7 of RFC 8259). */
module JsonObject {
  import opened Strings

  datatype Member = Member(name: string, value: string)

  // Quoting

  function HexChar(v: nat): char
    requires v < 16
  {
    if v < 10 then '0' + v as char else 'a' + (v - 10) as char
  }

  function Unicode(v: nat): string
    requires v < 0x10000
  {
    ['\\', 'u', HexChar(v / 16 / 16 / 16), HexChar(v / 16 / 16 % 16), HexChar(v / 16 % 16), HexChar(v % 16)]
  }

  predicate NeedsUnicode(c: char) {
    c < ' ' || c in {'<', '>', '&', '\U{2028}', '\U{2029}'}
  }

  function QuoteChar(c: char): string {
    if c == '"' then "\\\""
    else if c == '\\' then "\\\\"
    else if c == '\U{08}' then "\\b"
    else if c == '\U{0C}' then "\\f"
    else if c == '\n' then "\\n"
    else if c == '\r' then "\\r"
    else if c == '\t' then "\\t"
    else if NeedsUnicode(c) then Unicode(c as int)
    else [c]
  }

  function QuoteChars(s: string): string {
    if s == "" then "" else QuoteChar(s[0]) + QuoteChars(s[1..])
  }

  /** json.Marshal of a string. */
  function Quote(s: string): string {
    "\"" + QuoteChars(s) + "\""
  }

  // Reading a string

  /** The number behind a backslash and `u`, at the front. */
  function ReadUnicode(t: string): Maybe<nat> {
    if |t| >= 6 && t[0] == '\\' && t[1] == 'u' && IsHex(t[2]) && IsHex(t[3]) && IsHex(t[4]) && IsHex(t[5])
    then Just(HexOf(t[2]) * 0x1000 + HexOf(t[3]) * 0x100 + HexOf(t[4]) * 16 + HexOf(t[5]))
    else Nothing
  }

  function Short(letter: char): Maybe<char> {
    if letter in {'"', '\\', '/'} then Just(letter)
    else if letter == 'b' then Just('\U{08}')
    else if letter == 'f' then Just('\U{0C}')
    else if letter == 'n' then Just('\n')
    else if letter == 'r' then Just('\r')
    else if letter == 't' then Just('\t')
    else Nothing
  }

  /** One character of a string, and how much text stands for it; half a surrogate pair is U+FFFD. */
  function ReadChar(t: string): (r: Maybe<(char, nat)>)
    ensures r.Just? ==> 0 < r.value.1 <= |t|
  {
    if t == "" || t[0] < ' ' || t[0] == '"' then Nothing
    else if t[0] != '\\' then Just((t[0], 1))
    else
      match ReadUnicode(t)
      case Just(v) =>
        if v < 0xD800 || v > 0xDFFF then Just((v as char, 6))
        else
          (match ReadUnicode(t[6..])
           case Just(w) =>
             if v < 0xDC00 && 0xDC00 <= w <= 0xDFFF
             then Just(((0x10000 + (v - 0xD800) * 0x400 + (w - 0xDC00)) as char, 12))
             else Just(('\U{FFFD}', 6))
           case Nothing => Just(('\U{FFFD}', 6)))
      case Nothing =>
        if |t| < 2 then Nothing
        else
          match Short(t[1])
          case Just(c) => Just((c, 2))
          case Nothing => Nothing
  }

  /** A string from behind its opening quote, and how much text it takes with the closing one. */
  function ReadQuoted(t: string): (r: Maybe<(string, nat)>)
    ensures r.Just? ==> 0 < r.value.1 <= |t|
    decreases |t|
  {
    if t == "" then Nothing
    else if t[0] == '"' then Just(("", 1))
    else
      match ReadChar(t)
      case Nothing => Nothing
      case Just((c, n)) =>
        match ReadQuoted(t[n..])
        case Nothing => Nothing
        case Just((s, m)) => Just(([c] + s, n + m))
  }

  lemma HexCharReads(v: nat)
    requires v < 16
    ensures IsHex(HexChar(v)) && HexOf(HexChar(v)) == v
  {
  }

  lemma UnicodeReads(v: nat, rest: string)
    requires v < 0x10000
    ensures ReadUnicode(Unicode(v) + rest) == Just(v)
  {
    HexCharReads(v / 16 / 16 / 16);
    HexCharReads(v / 16 / 16 % 16);
    HexCharReads(v / 16 % 16);
    HexCharReads(v % 16);
    hide HexChar, HexOf, IsHex;
    var t := Unicode(v) + rest;
    assert t[2] == HexChar(v / 16 / 16 / 16) && t[3] == HexChar(v / 16 / 16 % 16);
    assert t[4] == HexChar(v / 16 % 16) && t[5] == HexChar(v % 16);
  }

  lemma QuoteCharReads(c: char, rest: string)
    ensures QuoteChar(c) != "" && QuoteChar(c)[0] != '"'
    ensures ReadChar(QuoteChar(c) + rest) == Just((c, |QuoteChar(c)|))
  {
    hide ReadUnicode, Unicode;
    if NeedsUnicode(c) && c !in {'\U{08}', '\U{0C}', '\n', '\r', '\t'} {
      UnicodeReads(c as int, rest);
      UnicodeShape(c as int);
    } else if |QuoteChar(c)| == 2 {
      var t := QuoteChar(c) + rest;
      assert t[0] == '\\' && t[1] == QuoteChar(c)[1] && t[1] != 'u';
      NotUnicode(t);
    }
  }

  lemma UnicodeShape(v: nat)
    requires v < 0x10000
    ensures |Unicode(v)| == 6 && Unicode(v)[0] == '\\'
  {
  }

  lemma NotUnicode(t: string)
    requires |t| >= 2 && t[1] != 'u'
    ensures ReadUnicode(t) == Nothing
  {
  }

  /** What was quoted is read back. */
  lemma {:induction false} QuotedReads(s: string, rest: string)
    ensures ReadQuoted(QuoteChars(s) + ("\"" + rest)) == Just((s, |QuoteChars(s)| + 1))
  {
    hide QuoteChar, ReadChar;
    if s != "" {
      var q, more := QuoteChar(s[0]), QuoteChars(s[1..]) + ("\"" + rest);
      QuoteCharReads(s[0], more);
      QuotedReads(s[1..], rest);
      assert QuoteChars(s) + ("\"" + rest) == q + more;
      assert (q + more)[|q|..] == more && (q + more)[0] == q[0];
      assert [s[0]] + s[1..] == s;
    } else {
      assert QuoteChars(s) + ("\"" + rest) == "\"" + rest;
    }
  }

  // The end of a raw value

  /** How much of the text comes before the first comma or closing bracket that belongs to no bracket
      and no string opened in it. */
  function ValueEnd(t: string, depth: nat, inside: bool): (n: nat)
    ensures n <= |t|
    decreases |t|
  {
    if t == "" then 0
    else if inside && t[0] == '\\' && |t| > 1 then 2 + ValueEnd(t[2..], depth, true)
    else if inside then 1 + ValueEnd(t[1..], depth, t[0] != '"')
    else if t[0] in {'{', '['} then 1 + ValueEnd(t[1..], depth + 1, false)
    else if t[0] in {'}', ']'} then if depth == 0 then 0 else 1 + ValueEnd(t[1..], depth - 1, false)
    else if t[0] == ',' && depth == 0 then 0
    else 1 + ValueEnd(t[1..], depth, t[0] == '"')
  }

  /** The text closes what is open before it and what it opens, and goes no further. */
  predicate Closes(v: string, depth: nat, inside: bool)
    decreases |v|
  {
    if v == "" then depth == 0 && !inside
    else if inside && v[0] == '\\' then |v| > 1 && Closes(v[2..], depth, true)
    else if inside then Closes(v[1..], depth, v[0] != '"')
    else if v[0] in {'{', '['} then Closes(v[1..], depth + 1, false)
    else if v[0] in {'}', ']'} then depth > 0 && Closes(v[1..], depth - 1, false)
    else if v[0] == ',' && depth == 0 then false
    else Closes(v[1..], depth, v[0] == '"')
  }

  /** All that is used of a raw JSON value: its brackets and strings are closed, and no comma stands
      outside of them. */
  predicate IsValue(v: string) {
    v != "" && Closes(v, 0, false)
  }

  lemma {:induction false} ValueEnds(v: string, rest: string, depth: nat, inside: bool)
    requires Closes(v, depth, inside) && rest != "" && rest[0] in {',', '}'}
    ensures ValueEnd(v + rest, depth, inside) == |v|
    decreases |v|
  {
    if v == "" {
      assert v + rest == rest;
    } else if inside && v[0] == '\\' {
      assert (v + rest)[2..] == v[2..] + rest;
      ValueEnds(v[2..], rest, depth, true);
    } else {
      assert (v + rest)[1..] == v[1..] + rest;
      var d := if inside then depth else if v[0] in {'{', '['} then depth + 1
               else if v[0] in {'}', ']'} then depth - 1 else depth;
      ValueEnds(v[1..], rest, d, if inside then v[0] != '"' else v[0] == '"');
    }
  }

  /** json.Marshal writes no control character, nothing that HTML would read, and no line separator. */
  lemma {:induction false} QuotePlain(s: string)
    ensures forall c :: c in QuoteChars(s) ==> c >= ' ' && c !in {'<', '>', '&', '\U{2028}', '\U{2029}'}
  {
    hide QuoteChar;
    if s != "" {
      QuotePlain(s[1..]);
      CharPlain(s[0]);
    }
  }

  lemma CharPlain(c: char)
    ensures forall d :: d in QuoteChar(c) ==> d >= ' ' && d !in {'<', '>', '&', '\U{2028}', '\U{2029}'}
  {
    hide Unicode;
    if c < ' ' || c in {'<', '>', '&', '\U{2028}', '\U{2029}'} {
      UnicodePlain(c as int);
    }
  }

  lemma UnicodePlain(n: nat)
    requires n < 0x10000
    ensures forall d :: d in Unicode(n) ==> d >= ' ' && d !in {'<', '>', '&', '\U{2028}', '\U{2029}'}
  {
  }

  // Members

  function MemberText(m: Member): string {
    Quote(m.name) + ":" + m.value
  }

  function MembersText(ms: seq<Member>): string {
    if ms == [] then ""
    else MembersText(ms[..|ms| - 1]) + (if |ms| == 1 then "" else ",") + MemberText(ms[|ms| - 1])
  }

  /** The name of the member at the front, and where its value begins. */
  function MemberHead(t: string): (r: Maybe<(string, nat)>)
    ensures r.Just? ==> 2 <= r.value.1 <= |t|
  {
    if t == "" || t[0] != '"' then Nothing
    else
      match ReadQuoted(t[1..])
      case Nothing => Nothing
      case Just((name, n)) => if 1 + n >= |t| || t[1 + n] != ':' then Nothing else Just((name, 2 + n))
  }

  /** The members from behind the opening brace or a comma. */
  function SplitMembers(t: string): Maybe<seq<Member>>
    decreases |t|
  {
    match MemberHead(t)
    case Nothing => Nothing
    case Just((name, at)) =>
      var value := t[at..];
      var e := ValueEnd(value, 0, false);
      if e == 0 || e == |value| then Nothing
      else if value[e] == '}' then
        if e + 1 == |value| then Just([Member(name, value[..e])]) else Nothing
      else if value[e] == ',' then
        match SplitMembers(value[e + 1..])
        case Just(ms) => Just([Member(name, value[..e])] + ms)
        case Nothing => Nothing
      else Nothing
  }

  function SplitObject(t: string): Maybe<seq<Member>> {
    if t == "" || t[0] != '{' then Nothing
    else if t == "{}" then Just([])
    else SplitMembers(t[1..])
  }

  lemma MembersSnoc(ms: seq<Member>, m: Member)
    ensures MembersText(ms + [m]) == MembersText(ms) + (if ms == [] then "" else ",") + MemberText(m)
    ensures MembersText([]) == ""
  {
    hide MemberText;
    assert (ms + [m])[..|ms|] == ms;
  }

  lemma {:induction false} MembersCons(ms: seq<Member>)
    requires ms != []
    ensures MembersText(ms) == MemberText(ms[0]) + if |ms| == 1 then "" else "," + MembersText(ms[1..])
    decreases |ms|
  {
    hide MemberText, MembersText;
    var init, last := ms[..|ms| - 1], ms[|ms| - 1];
    assert ms == init + [last];
    MembersSnoc(init, last);
    if init != [] {
      MembersCons(init);
      MembersSnoc(init[1..], last);
      assert ms[1..] == init[1..] + [last];
    }
  }

  /** What the reader does at a member whose parts are known. */
  lemma SplitStep(t: string, name: string, at: nat, value: string, e: nat)
    requires MemberHead(t) == Just((name, at)) && t[at..] == value
    requires e == ValueEnd(value, 0, false) && 0 < e < |value|
    ensures value[e] == '}' ==> SplitMembers(t) == (if e + 1 == |value| then Just([Member(name, value[..e])])
                                                    else Nothing)
    ensures value[e] == ',' ==> SplitMembers(t) == (match SplitMembers(value[e + 1..])
                                                    case Just(ms) => Just([Member(name, value[..e])] + ms)
                                                    case Nothing => Nothing)
  {
    hide MemberHead, ValueEnd;
  }

  lemma MemberParts(m: Member, rest: string)
    requires IsValue(m.value) && rest != "" && rest[0] in {',', '}'}
    ensures var t, at, value := MemberText(m) + rest, |QuoteChars(m.name)| + 3, m.value + rest;
            && MemberHead(t) == Just((m.name, at)) && t[at..] == value
            && ValueEnd(value, 0, false) == |m.value| && 0 < |m.value|
  {
    hide QuoteChars, ReadQuoted, ValueEnd, Closes;
    var t, q, tail := MemberText(m) + rest, QuoteChars(m.name), ":" + m.value + rest;
    QuotedReads(m.name, tail);
    ValueEnds(m.value, rest, 0, false);
    assert t == "\"" + q + "\"" + tail;
    assert t[1..] == q + ("\"" + tail);
    assert t[|q| + 2..] == tail && tail[0] == ':' && tail[1..] == m.value + rest;
  }

  /** One member in front of a mark is read off. */
  lemma MemberReads(m: Member, mark: char, more: string)
    requires IsValue(m.value) && mark in {',', '}'}
    ensures SplitMembers(MemberText(m) + ([mark] + more)) ==
            if mark == '}' then (if more == "" then Just([m]) else Nothing)
            else match SplitMembers(more) case Just(ms) => Just([m] + ms) case Nothing => Nothing
  {
    hide QuoteChars, MemberHead, ValueEnd, Closes, SplitMembers, MemberText;
    var rest := [mark] + more;
    MemberParts(m, rest);
    var value := m.value + rest;
    SplitStep(MemberText(m) + rest, m.name, |QuoteChars(m.name)| + 3, value, |m.value|);
    assert value[..|m.value|] == m.value && value[|m.value|] == mark && value[|m.value| + 1..] == more;
  }

  /** What was printed is split into its members again. */
  lemma {:induction false} SplitInverts(ms: seq<Member>)
    requires ms != [] && forall i :: 0 <= i < |ms| ==> IsValue(ms[i].value)
    ensures SplitMembers(MembersText(ms) + "}") == Just(ms)
    decreases |ms|
  {
    hide MemberText, SplitMembers, MembersText, IsValue;
    MembersCons(ms);
    if |ms| == 1 {
      MemberReads(ms[0], '}', "");
      assert MembersText(ms) + "}" == MemberText(ms[0]) + (['}'] + "") && [ms[0]] == ms;
    } else {
      SplitInverts(ms[1..]);
      MemberReads(ms[0], ',', MembersText(ms[1..]) + "}");
      assert MembersText(ms) + "}" == MemberText(ms[0]) + ([','] + (MembersText(ms[1..]) + "}"));
      assert [ms[0]] + ms[1..] == ms;
    }
  }

  lemma ObjectInverts(ms: seq<Member>)
    requires ms != [] && forall i :: 0 <= i < |ms| ==> IsValue(ms[i].value)
    ensures SplitObject("{" + MembersText(ms) + "}") == Just(ms)
  {
    hide MemberText, SplitMembers, MembersText, IsValue;
    var t := "{" + MembersText(ms) + "}";
    SplitInverts(ms);
    assert t[1..] == MembersText(ms) + "}";
    MembersCons(ms);
    assert MembersText(ms) != "" by {
      Nonempty(ms[0]);
    }
    assert |t| > 2;
  }

  lemma Nonempty(m: Member)
    ensures MemberText(m) != ""
  {
  }

  /** What decoding the members into a Go map leaves: of equal names the last. */
  function MapOf(ms: seq<Member>): map<string, string> {
    if ms == [] then map[] else MapOf(ms[..|ms| - 1])[ms[|ms| - 1].name := ms[|ms| - 1].value]
  }
}
