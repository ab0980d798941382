/** Normalize of internal/query/query.go: a filter is normalised by the handler and again by the
    reader. One character stands for one byte of ASCII text. */
module Normalize {
  import opened Lists
  import opened Strings
  import opened IpRange
  import opened ReadSide
  import opened Sorting
  import opened FilterCompile

  // Lists of words

  predicate IsSeparator(c: char) { c in {',', ';', ' ', '\n', '\t'} }

  predicate IsWord(w: string) {
    w != "" && forall i :: 0 <= i < |w| ==> !IsSeparator(w[i])
  }

  function Word(s: string): (w: string)
    ensures w <= s && forall i :: 0 <= i < |w| ==> !IsSeparator(w[i])
    ensures |w| < |s| ==> IsSeparator(s[|w|])
  {
    if s == "" || IsSeparator(s[0]) then "" else [s[0]] + Word(s[1..])
  }

  /** strings.FieldsFunc: the words between separators. */
  function Fields(s: string): (ws: seq<string>)
    ensures forall i :: 0 <= i < |ws| ==> IsWord(ws[i])
    decreases |s|
  {
    if s == "" then []
    else if IsSeparator(s[0]) then Fields(s[1..])
    else [Word(s)] + Fields(s[|Word(s)|..])
  }

  lemma WordFields(w: string)
    requires IsWord(w)
    ensures Fields(w) == [w]
  {
    assert Word(w) == w;
  }

  function Words(raw: seq<string>): (ws: seq<string>)
    ensures forall i :: 0 <= i < |ws| ==> IsWord(ws[i])
  {
    if raw == [] then [] else Words(raw[..|raw| - 1]) + Fields(raw[|raw| - 1])
  }

  /** The canonical forms of the words that have one. */
  function Forms(ws: seq<string>, canon: string -> Maybe<string>): seq<string> {
    if ws == [] then []
    else
      Forms(ws[..|ws| - 1], canon) + match canon(ws[|ws| - 1]) case Just(s) => [s] case Nothing => []
  }

  /** The first `max` canonical forms, each once. */
  function Listed(raw: seq<string>, canon: string -> Maybe<string>, max: nat): seq<string> {
    Capped(Dedup(Forms(Words(raw), canon), Itself), max)
  }

  lemma FormsSnoc(ws: seq<string>, w: string, canon: string -> Maybe<string>)
    ensures Forms(ws + [w], canon)
            == match canon(w) case Just(s) => Forms(ws, canon) + [s] case Nothing => Forms(ws, canon)
  {
    assert (ws + [w])[..|ws|] == ws;
  }

  lemma WordsSnoc(raw: seq<string>, item: string)
    ensures Words(raw + [item]) == Words(raw) + Fields(item)
  {
    assert (raw + [item])[..|raw|] == raw;
  }

  lemma {:induction false} FormsPrefix(a: seq<string>, b: seq<string>, canon: string -> Maybe<string>)
    ensures Forms(a, canon) <= Forms(a + b, canon)
    decreases |b|
  {
    if b == [] {
      assert a + b == a;
    } else {
      FormsPrefix(a, b[..|b| - 1], canon);
      assert a + b == (a + b[..|b| - 1]) + [b[|b| - 1]];
      FormsSnoc(a + b[..|b| - 1], b[|b| - 1], canon);
    }
  }

  lemma {:induction false} DedupPrefix(a: seq<string>, b: seq<string>)
    ensures Dedup(a, Itself) <= Dedup(a + b, Itself)
    decreases |b|
  {
    hide Dedup;
    if b == [] {
      assert a + b == a;
    } else {
      DedupPrefix(a, b[..|b| - 1]);
      assert a + b == (a + b[..|b| - 1]) + [b[|b| - 1]];
      DedupSnoc(a + b[..|b| - 1], b[|b| - 1], Itself);
    }
  }

  lemma {:induction false} WordsPrefix(a: seq<string>, b: seq<string>)
    ensures Words(a) <= Words(a + b)
    decreases |b|
  {
    if b == [] {
      assert a + b == a;
    } else {
      WordsPrefix(a, b[..|b| - 1]);
      assert a + b == (a + b[..|b| - 1]) + [b[|b| - 1]];
      WordsSnoc(a + b[..|b| - 1], b[|b| - 1]);
    }
  }

  /** A list that is full after a part of the words is the list. */
  lemma FullIsListed(raw: seq<string>, i: nat, j: nat, canon: string -> Maybe<string>, max: nat)
    requires i < |raw| && j <= |Fields(raw[i])|
    requires |Dedup(Forms(Words(raw[..i]) + Fields(raw[i])[..j], canon), Itself)| == max
    ensures Listed(raw, canon, max) == Dedup(Forms(Words(raw[..i]) + Fields(raw[i])[..j], canon), Itself)
  {
    hide Words, Forms, Dedup, Fields;
    var some := Words(raw[..i]) + Fields(raw[i])[..j];
    WordsSnoc(raw[..i], raw[i]);
    assert raw[..i] + [raw[i]] == raw[..i + 1] && raw == raw[..i + 1] + raw[i + 1..];
    WordsPrefix(raw[..i + 1], raw[i + 1..]);
    assert Fields(raw[i]) == Fields(raw[i])[..j] + Fields(raw[i])[j..];
    assert Words(raw[..i + 1]) == some + Fields(raw[i])[j..];
    var all := Words(raw);
    assert all == some + all[|some|..];
    FormsPrefix(some, all[|some|..], canon);
    var x, y := Forms(some, canon), Forms(all, canon);
    assert y == x + y[|x|..];
    DedupPrefix(x, y[|x|..]);
  }

  /** The loops of ParseList and ParseCIDRs, which differ in the form and the cap. */
  method Parse(raw: seq<string>, canon: string -> Maybe<string>, max: nat) returns (out: seq<string>)
    requires max > 0
    ensures out == Listed(raw, canon, max)
  {
    hide Words, Forms, Dedup, Fields, Listed, KeysOf;
    out := [];
    var seen: set<string> := {};
    NoForms(canon);
    for i := 0 to |raw|
      invariant out == Dedup(Forms(Words(raw[..i]), canon), Itself) && |out| < max
      invariant seen == KeysOf(Forms(Words(raw[..i]), canon), Itself)
    {
      var parts := Fields(raw[i]);
      assert Words(raw[..i]) + parts[..0] == Words(raw[..i]);
      for j := 0 to |parts|
        invariant out == Dedup(Forms(Words(raw[..i]) + parts[..j], canon), Itself) && |out| < max
        invariant seen == KeysOf(Forms(Words(raw[..i]) + parts[..j], canon), Itself)
      {
        ghost var before := Words(raw[..i]) + parts[..j];
        assert Words(raw[..i]) + parts[..j + 1] == before + [parts[j]];
        FormsSnoc(before, parts[j], canon);
        var p := canon(parts[j]);
        if p.Nothing? {
          continue;
        }
        var s := p.value;
        KeysSnoc(Forms(before, canon), s, Itself);
        DedupSnoc(Forms(before, canon), s, Itself);
        if s in seen {
          continue;
        }
        seen := seen + {s};
        out := out + [s];
        if |out| >= max {
          FullIsListed(raw, i, j + 1, canon, max);
          return;
        }
      }
      assert raw[..i + 1] == raw[..i] + [raw[i]] && parts[..|parts|] == parts;
      WordsSnoc(raw[..i], raw[i]);
    }
    assert raw[..|raw|] == raw;
    Short(raw, canon, max);
  }

  lemma NoForms(canon: string -> Maybe<string>)
    ensures Dedup(Forms(Words([]), canon), Itself) == [] && KeysOf(Forms(Words([]), canon), Itself) == {}
  {
  }

  lemma Short(raw: seq<string>, canon: string -> Maybe<string>, max: nat)
    requires |Dedup(Forms(Words(raw), canon), Itself)| < max
    ensures Listed(raw, canon, max) == Dedup(Forms(Words(raw), canon), Itself)
  {
    hide Words, Forms, Dedup;
  }

  // A second pass changes nothing

  /** Canonical forms are words and their own forms. */
  ghost predicate Stable(canon: string -> Maybe<string>) {
    forall w :: IsWord(w) && canon(w).Just? ==> IsWord(canon(w).value) && canon(canon(w).value) == Just(canon(w).value)
  }

  ghost predicate Settled(xs: seq<string>, canon: string -> Maybe<string>) {
    forall i :: 0 <= i < |xs| ==> IsWord(xs[i]) && canon(xs[i]) == Just(xs[i])
  }

  lemma {:induction false} FormsSettled(ws: seq<string>, canon: string -> Maybe<string>)
    requires Stable(canon) && forall i :: 0 <= i < |ws| ==> IsWord(ws[i])
    ensures Settled(Forms(ws, canon), canon)
  {
    if ws != [] {
      FormsSettled(ws[..|ws| - 1], canon);
    }
  }

  lemma {:induction false} SettledStays(xs: seq<string>, canon: string -> Maybe<string>)
    requires Settled(xs, canon)
    ensures Words(xs) == xs && Forms(xs, canon) == xs
  {
    if xs != [] {
      var init, last := xs[..|xs| - 1], xs[|xs| - 1];
      SettledStays(init, canon);
      WordFields(last);
      assert xs == init + [last];
    }
  }

  lemma ListedSettles(raw: seq<string>, canon: string -> Maybe<string>, max: nat)
    requires Stable(canon)
    ensures var out := Listed(raw, canon, max); Settled(out, canon) && Distinct(out) && |out| <= max
  {
    hide Words, Forms, Dedup;
    var forms, out := Forms(Words(raw), canon), Listed(raw, canon, max);
    FormsSettled(Words(raw), canon);
    DedupKeeps(forms, Itself);
    DedupDistinct(forms);
    assert forall i :: 0 <= i < |out| ==> out[i] == Dedup(forms, Itself)[i] && out[i] in forms;
  }

  /** A list is left alone exactly when it is short enough and its items are distinct canonical words. */
  lemma ListedFixedIff(raw: seq<string>, canon: string -> Maybe<string>, max: nat)
    requires Stable(canon)
    ensures Listed(raw, canon, max) == raw <==> Settled(raw, canon) && Distinct(raw) && |raw| <= max
  {
    hide Words, Forms, Dedup, Stable;
    ListedSettles(raw, canon, max);
    if Settled(raw, canon) && Distinct(raw) && |raw| <= max {
      SettledStays(raw, canon);
      DistinctKept(raw);
    }
  }

  // Networks

  /** What is used of net/netip: the two parsers and the printer. */
  datatype Nets = Nets(parsePrefix: Parser, parseAddr: string -> Maybe<Address>, print_: Prefix -> string)

  function MaskedPrefix(p: Prefix): Prefix {
    match p
    case V4(a, n) => V4(Masked(a, n), n)
    case V6(a, n) => V6(Masked(a, n), n)
  }

  predicate Plainly(s: string) {
    IsWord(s) && forall i :: 0 <= i < |s| ==> !IsBlank(s[i])
  }

  /** A printed prefix is one word and parses back. */
  ghost predicate NetsOk(nets: Nets) {
    && ParserOk(nets.parsePrefix)
    && (forall s :: nets.parseAddr(s).Just? ==> |nets.parseAddr(s).value| in {4, 16})
    && (forall p :: PrefixOk(p) && MaskedPrefix(p) == p ==>
          nets.parsePrefix(nets.print_(p)) == Just(p) && Plainly(nets.print_(p)))
  }

  /** Unmap and Prefix: the whole address as a prefix. */
  function WholeAddress(a: Address): Prefix
    requires |a| in {4, 16}
  {
    if |a| == 4 then V4(a, 32) else if a[..12] == MAPPED then V4(a[12..], 32) else V6(a, 128)
  }

  /** parseCIDR. */
  function PrefixOf(nets: Nets, raw: string): Maybe<Prefix> {
    var t := Trim(raw);
    if t == "" then Nothing
    else
      match nets.parsePrefix(t)
      case Just(p) => Just(MaskedPrefix(p))
      case Nothing =>
        match nets.parseAddr(t)
        case Just(a) => if |a| in {4, 16} then Just(WholeAddress(a)) else Nothing
        case Nothing => Nothing
  }

  function NetForm(nets: Nets): string -> Maybe<string> {
    (w: string) => match PrefixOf(nets, w) case Just(p) => Just(nets.print_(p)) case Nothing => Nothing
  }

  lemma WholeMasked(a: Address)
    requires |a| == 4 || |a| == 16
    ensures Masked(a, 8 * |a|) == a
  {
    MaskedAll(a, 8 * |a|);
  }

  lemma {:induction false} MaskedAll(a: Address, n: int)
    requires n >= 8 * |a|
    ensures Masked(a, n) == a
  {
    if a != [] {
      MaskedAll(a[1..], n - 8);
      WholeByte(a[0], n);
    }
  }

  lemma PrefixIsMasked(nets: Nets, raw: string)
    requires NetsOk(nets) && PrefixOf(nets, raw).Just?
    ensures var p := PrefixOf(nets, raw).value; PrefixOk(p) && MaskedPrefix(p) == p
  {
    hide Masked, Trim, Plainly;
    var t := Trim(raw);
    match nets.parsePrefix(t) {
      case Just(p) =>
        MaskedTwice(p.addr, p.bits);
      case Nothing =>
        WholeMasked(WholeAddress(nets.parseAddr(t).value).addr);
    }
  }

  lemma NetFormStable(nets: Nets)
    requires NetsOk(nets)
    ensures Stable(NetForm(nets))
  {
    hide Masked, Trim, PrefixOk, PrefixOf;
    forall w | IsWord(w) && NetForm(nets)(w).Just?
      ensures IsWord(NetForm(nets)(w).value) && NetForm(nets)(NetForm(nets)(w).value) == NetForm(nets)(w)
    {
      PrefixIsMasked(nets, w);
      var p := PrefixOf(nets, w).value;
      PrintedAgain(nets, p);
    }
  }

  lemma PrintedAgain(nets: Nets, p: Prefix)
    requires NetsOk(nets) && PrefixOk(p) && MaskedPrefix(p) == p
    ensures PrefixOf(nets, nets.print_(p)) == Just(p)
  {
    hide Masked, Trim, MaskedPrefix;
    assert Plainly(nets.print_(p));
    TrimNoop(nets.print_(p));
  }

  lemma ListedParses(nets: Nets, raw: seq<string>, max: nat, i: nat)
    requires NetsOk(nets) && i < |Listed(raw, NetForm(nets), max)|
    ensures var s := Listed(raw, NetForm(nets), max)[i];
            exists w :: w in Words(raw) && PrefixOf(nets, w).Just? && nets.parsePrefix(s) == PrefixOf(nets, w)
  {
    hide Masked, Dedup, Words, Forms, PrefixOf, Plainly;
    var forms, s := Forms(Words(raw), NetForm(nets)), Listed(raw, NetForm(nets), max)[i];
    DedupKeeps(forms, Itself);
    FormsAre(Words(raw), NetForm(nets));
    assert s == Dedup(forms, Itself)[i] && s in forms;
    var w :| w in Words(raw) && NetForm(nets)(w) == Just(s);
    PrefixIsMasked(nets, w);
  }

  lemma WordIsListed(nets: Nets, raw: seq<string>, max: nat, w: string) returns (i: nat)
    requires NetsOk(nets) && w in Words(raw) && PrefixOf(nets, w).Just?
    requires |Dedup(Forms(Words(raw), NetForm(nets)), Itself)| <= max
    ensures i < |Listed(raw, NetForm(nets), max)|
    ensures nets.parsePrefix(Listed(raw, NetForm(nets), max)[i]) == PrefixOf(nets, w)
  {
    hide Masked, Dedup, Words, Forms, PrefixOf, Plainly;
    var forms, out := Forms(Words(raw), NetForm(nets)), Listed(raw, NetForm(nets), max);
    var s := nets.print_(PrefixOf(nets, w).value);
    PrefixIsMasked(nets, w);
    DedupKeeps(forms, Itself);
    FormsAre(Words(raw), NetForm(nets));
    assert NetForm(nets)(w) == Just(s) && s in forms;
    KeysAreNames(forms);
    KeysAreNames(out);
    assert s in KeysOf(out, Itself);
    i :| i < |out| && out[i] == s;
  }

  /** The networks of a normalised filter all parse, and unless the cap cut them they cover exactly the
      addresses of the networks the caller named; what names no network is dropped. */
  lemma NetworksMean(nets: Nets, raw: seq<string>, max: nat, x: Address)
    requires NetsOk(nets) && |x| == 16
    ensures var out := Listed(raw, NetForm(nets), max);
            && (forall i :: 0 <= i < |out| ==> nets.parsePrefix(out[i]).Just?)
            && (|Dedup(Forms(Words(raw), NetForm(nets)), Itself)| <= max && out != [] ==>
                (AddressSelected(out, nets.parsePrefix, x) <==>
                 exists w :: w in Words(raw) && Covers(nets, w, x)))
  {
    hide Listed, Words, InPrefix, PrefixOf, NetsOk, PrefixOk, Forms, Dedup, ParserOk;
    var out := Listed(raw, NetForm(nets), max);
    forall i | 0 <= i < |out|
      ensures exists w :: w in Words(raw) && PrefixOf(nets, w).Just? && nets.parsePrefix(out[i]) == PrefixOf(nets, w)
    {
      ListedParses(nets, raw, max, i);
    }
    if |Dedup(Forms(Words(raw), NetForm(nets)), Itself)| <= max && out != [] {
      assert nets.parsePrefix(out[0]).Just?;
      ParserIsOk(nets);
      if AddressSelected(out, nets.parsePrefix, x) {
        var i :| 0 <= i < |out| && nets.parsePrefix(out[i]).Just? && InPrefix(x, nets.parsePrefix(out[i]).value);
        var w :| w in Words(raw) && PrefixOf(nets, w).Just? && nets.parsePrefix(out[i]) == PrefixOf(nets, w);
        assert Covers(nets, w, x);
      }
      if w :| w in Words(raw) && Covers(nets, w, x) {
        var i := WordIsListed(nets, raw, max, w);
        assert nets.parsePrefix(out[i]).Just? && InPrefix(x, nets.parsePrefix(out[i]).value);
      }
    }
  }

  lemma ParserIsOk(nets: Nets)
    requires NetsOk(nets)
    ensures ParserOk(nets.parsePrefix)
  {
  }

  ghost predicate Covers(nets: Nets, w: string, x: Address)
    requires |x| == 16
  {
    PrefixOf(nets, w).Just? && PrefixOk(PrefixOf(nets, w).value) && InPrefix(x, PrefixOf(nets, w).value)
  }

  lemma {:induction false} FormsAre(ws: seq<string>, canon: string -> Maybe<string>)
    ensures forall s :: s in Forms(ws, canon) <==> exists w :: w in ws && canon(w) == Just(s)
  {
    if ws != [] {
      var init, last := ws[..|ws| - 1], ws[|ws| - 1];
      FormsAre(init, canon);
      assert ws == init + [last];
      assert forall w :: w in ws <==> w in init || w == last;
    }
  }

  // Lists of names and values

  const MAX_VARS := 16

  predicate VarNameChar(c: char) {
    'a' <= c <= 'z' || 'A' <= c <= 'Z' || '0' <= c <= '9' || c in {'_', '.', '-'}
  }

  predicate VarOk(v: Named) {
    v.name != "" && |v.name| <= 64 && forall i :: 0 <= i < |v.name| ==> VarNameChar(v.name[i])
  }

  predicate Printable(s: string) {
    forall i :: 0 <= i < |s| ==> s[i] >= ' ' && s[i] != '\U{7F}'
  }

  predicate NameOk(v: Named) {
    v.name != "" && |v.name| <= 128 && Printable(v.name)
  }

  function Renamed(vs: seq<Named>, fold: string -> string): seq<Named> {
    seq(|vs|, i requires 0 <= i < |vs| => Named(fold(vs[i].name), vs[i].value))
  }

  /** The first `max` entries with a good name, under the form of the name. */
  function Kept(vs: seq<Named>, ok: Named -> bool, fold: string -> string, max: nat): seq<Named> {
    Capped(Renamed(Filtered(vs, ok), fold), max)
  }

  /** The loops of normalizeVars and normalizeNames. */
  method Keep(vs: seq<Named>, ok: Named -> bool, fold: string -> string, max: nat) returns (out: seq<Named>)
    requires max > 0
    ensures out == Kept(vs, ok, fold, max)
  {
    hide Filtered;
    out := [];
    FilteredNone(ok);
    for i := 0 to |vs|
      invariant out == Renamed(Filtered(vs[..i], ok), fold) && |out| < max
    {
      var v := vs[i];
      assert vs[..i + 1] == vs[..i] + [v];
      FilteredSnoc(vs[..i], v, ok);
      if !ok(v) {
        continue;
      }
      out := out + [Named(fold(v.name), v.value)];
      if |out| >= max {
        FilteredPrefix(vs[..i + 1], vs[i + 1..], ok);
        assert vs == vs[..i + 1] + vs[i + 1..];
        break;
      }
    }
    assert vs[..|vs|] == vs;
  }

  ghost predicate NamesSettle(vs: seq<Named>, ok: Named -> bool, fold: string -> string) {
    forall i :: 0 <= i < |vs| ==> ok(vs[i]) && fold(vs[i].name) == vs[i].name
  }

  /** Entries are left alone exactly when they are few enough and their names are good and in their form. */
  lemma KeptFixedIff(vs: seq<Named>, ok: Named -> bool, fold: string -> string, max: nat)
    ensures Kept(vs, ok, fold, max) == vs <==> NamesSettle(vs, ok, fold) && |vs| <= max
  {
    hide Filtered;
    FilteredShorter(vs, ok);
    if NamesSettle(vs, ok, fold) && |vs| <= max {
      AllKept(vs, ok);
    }
    if Kept(vs, ok, fold, max) == vs {
      AllKept(vs, ok);
      forall i | 0 <= i < |vs| ensures fold(vs[i].name) == vs[i].name {
        assert Kept(vs, ok, fold, max)[i] == Named(fold(vs[i].name), vs[i].value);
      }
    }
  }

  lemma PlainNamesSettle(vs: seq<Named>, ok: Named -> bool, max: nat)
    ensures NamesSettle(Kept(vs, ok, Itself, max), ok, Itself)
  {
    FilteredMembers(vs, ok);
    var good := Filtered(vs, ok);
    forall i | 0 <= i < |good| ensures Renamed(good, Itself)[i] == good[i] && ok(good[i]) {
      assert good[i] in good && Itself(good[i].name) == good[i].name;
    }
  }

  predicate Ascii(s: string) {
    forall i :: 0 <= i < |s| ==> s[i] < '\U{80}'
  }

  /** strings.ToLower on ASCII text. */
  ghost predicate LowersAscii(fold: string -> string) {
    forall s :: Ascii(s) ==> fold(s) == Lower(s)
  }

  lemma AsciiLowerOk(v: Named)
    requires NameOk(v) && Ascii(v.name)
    ensures NameOk(Named(Lower(v.name), v.value)) && Ascii(Lower(v.name)) && Lower(Lower(v.name)) == Lower(v.name)
  {
  }

  /** Header names in ASCII settle. */
  lemma AsciiNamesSettle(vs: seq<Named>, fold: string -> string, max: nat)
    requires LowersAscii(fold) && forall i :: 0 <= i < |vs| ==> Ascii(vs[i].name)
    ensures NamesSettle(Kept(vs, NameOk, fold, max), NameOk, fold)
  {
    hide Lower, NameOk, Ascii;
    FilteredMembers(vs, NameOk);
    var good := Filtered(vs, NameOk);
    var out := Kept(vs, NameOk, fold, max);
    forall i | 0 <= i < |out| ensures NameOk(out[i]) && fold(out[i].name) == out[i].name {
      assert good[i] in good && NameOk(good[i]) && Ascii(good[i].name);
      AsciiLowerOk(good[i]);
    }
  }

  /** Of each entry the first pass keeps, the name must stay good and keep its form in lower case. */
  predicate Settles(v: Named, fold: string -> string) {
    NameOk(Named(fold(v.name), v.value)) && fold(fold(v.name)) == fold(v.name)
  }

  /** The first entries with a good name, which the first pass keeps. */
  function FirstGood(vs: seq<Named>, max: nat): seq<Named> {
    Capped(Filtered(vs, NameOk), max)
  }

  /** Whether the names a pass leaves settle can be told from the names it is given. */
  lemma KeptSettleIff(vs: seq<Named>, fold: string -> string, max: nat)
    ensures NamesSettle(Kept(vs, NameOk, fold, max), NameOk, fold)
            <==> forall i :: 0 <= i < |FirstGood(vs, max)| ==> Settles(FirstGood(vs, max)[i], fold)
  {
    hide Filtered, NameOk;
    var out, first := Kept(vs, NameOk, fold, max), FirstGood(vs, max);
    assert |out| == |first| && forall i :: 0 <= i < |first| ==> out[i] == Named(fold(first[i].name), first[i].value);
  }

  /** 64 times U+023A, two bytes each; its lower case, U+2C65, takes three. */
  const WIDE := Times64("\U{C8}\U{BA}")
  const WIDER := Times64("\U{E2}\U{B1}\U{A5}")

  function Double(s: string): (t: string)
    ensures |t| == 2 * |s| && forall c :: c in t <==> c in s
  {
    s + s
  }

  function Times64(s: string): (t: string)
    ensures |t| == 64 * |s| && forall c :: c in t <==> c in s
  {
    Double(Double(Double(Double(Double(Double(s))))))
  }

  lemma WideNames(value: string)
    ensures NameOk(Named(WIDE, value)) && |WIDER| == 192
  {
    assert forall i :: 0 <= i < |WIDE| ==> WIDE[i] in WIDE;
    assert forall c :: c in "\U{C8}\U{BA}" ==> c >= ' ' && c != '\U{7F}';
  }

  // The whole filter

  const NEVER := 0 // the zero time
  const DAY := 24 * 3600 * 1_000_000_000

  const VERDICTS := {"allow", "deny", "redirect", ""}
  const METHODS := {"GET", "POST", "PUT", "DELETE", "PATCH", "HEAD", "OPTIONS", "CONNECT", "TRACE", ""}
  const CODES := {"local_list", "local_rate", "inspector", "score",
                  "fail_timeout", "fail_absent", "fail_bus", "fail_body", ""}
  const PHASES := {"request", "response", "frame", "session", ""}

  function OneOfOrNone(s: string, known: set<string>): string {
    if s in known then s else ""
  }

  function Clamp(limit: int): int {
    if limit <= 0 then 50 else if limit > 200 then 200 else limit
  }

  function NormalMethod(raw: string): string {
    OneOfOrNone(Upper(Trim(raw)), METHODS)
  }

  predicate Letters(s: string) {
    forall i :: 0 <= i < |s| ==> 'a' <= s[i] <= 'z'
  }

  /** normalizeCountry. */
  function Country(raw: string): string {
    var code := Lower(Trim(raw));
    if |code| == 2 && Letters(code) then code else ""
  }

  function SessionText(raw: string): string {
    var s := Trim(raw);
    if |s| > 256 || !Printable(s) then "" else s
  }

  /** Normalize, when the clock reads `now`; `fold` is strings.ToLower. */
  function Normalized(f: Filter, now: int, fold: string -> string, nets: Nets): Filter {
    var until := if f.ray == "" && f.until == NEVER then now else f.until;
    f.(limit := Clamp(f.limit), offset := if f.offset < 0 then 0 else f.offset,
       verdict := OneOfOrNone(f.verdict, VERDICTS), method_ := NormalMethod(f.method_),
       code := OneOfOrNone(f.code, CODES), phase := OneOfOrNone(f.phase, PHASES), country := Country(f.country),
       cidrs := Listed(f.cidrs, NetForm(nets), 32),
       locationIDs := Listed(f.locationIDs, AnyWord, 64), serverNames := Listed(f.serverNames, AnyWord, 64),
       vars := Kept(f.vars, VarOk, Itself, MAX_VARS), headers := Kept(f.headers, NameOk, fold, MAX_VARS),
       params := Kept(f.params, NameOk, Itself, MAX_VARS),
       user := SessionText(f.user), sessionID := SessionText(f.sessionID), body := Capped(f.body, 256),
       until := until, from := if f.ray == "" && f.from == NEVER then until - DAY else f.from)
  }

  /** A filter whose words name no network, be they misspelt, has no networks after the pass, and is then the
      same as one that was given none: it is not narrowed to addresses at all. */
  lemma NoNetworkIff(f: Filter, now: int, fold: string -> string, nets: Nets)
    ensures Normalized(f, now, fold, nets).cidrs == [] <==>
            forall w :: w in Words(f.cidrs) ==> PrefixOf(nets, w).Nothing?
    ensures Normalized(f, now, fold, nets).cidrs == [] ==>
            Normalized(f, now, fold, nets) == Normalized(f.(cidrs := []), now, fold, nets)
  {
    hide Dedup, Words, Forms, PrefixOf, Kept, SessionText, Country, NormalMethod, OneOfOrNone, Clamp;
    var ws, canon := Words(f.cidrs), NetForm(nets);
    FormsAre(ws, canon);
    EmptyDedup(Forms(ws, canon));
    NothingListed(canon);
    if w :| w in ws && PrefixOf(nets, w).Just? {
      assert canon(w) == Just(nets.print_(PrefixOf(nets, w).value));
      assert canon(w).value in Forms(ws, canon);
    }
    if Forms(ws, canon) != [] {
      assert Forms(ws, canon)[0] in Forms(ws, canon);
    }
  }

  lemma EmptyDedup(ws: seq<string>)
    ensures Dedup(ws, Itself) == [] <==> ws == []
  {
    DedupKeeps(ws, Itself);
    if ws != [] {
      assert Itself(ws[0]) in KeysOf(Dedup(ws, Itself), Itself);
    }
  }

  lemma NothingListed(canon: string -> Maybe<string>)
    ensures Listed([], canon, 32) == []
  {
  }

  function AnyWord(w: string): Maybe<string> { Just(w) }

  method NormalPage(limit: int, offset: int) returns (l: int, o: int)
    ensures l == Clamp(limit) && o == if offset < 0 then 0 else offset
  {
    l, o := limit, offset;
    if l <= 0 {
      l := 50;
    }
    if l > 200 {
      l := 200;
    }
    if o < 0 {
      o := 0;
    }
  }

  method NormalSpan(ray: string, from: int, until: int, now: int) returns (first: int, last: int)
    ensures last == if ray == "" && until == NEVER then now else until
    ensures first == if ray == "" && from == NEVER then last - DAY else from
  {
    first, last := from, until;
    if ray == "" {
      if last == NEVER {
        last := now;
      }
      if first == NEVER {
        first := last - DAY;
      }
    }
  }

  /** printableName. */
  method PrintableName(name: string) returns (ok: bool)
    ensures ok <==> Printable(name)
  {
    for i := 0 to |name|
      invariant Printable(name[..i])
    {
      if name[i] < ' ' || name[i] == '\U{7F}' {
        return false;
      }
    }
    return true;
  }

  /** sessionText. */
  method TextOfSession(raw: string) returns (text: string)
    ensures text == SessionText(raw)
  {
    text := Trim(raw);
    if |text| > 256 {
      return "";
    }
    var printable := PrintableName(text);
    if !printable {
      return "";
    }
  }

  /** normalizeCountry. */
  method CountryCode(raw: string) returns (code: string)
    ensures code == Country(raw)
  {
    code := Lower(Trim(raw));
    if |code| != 2 {
      return "";
    }
    for i := 0 to |code|
      invariant code == Lower(Trim(raw)) && Letters(code[..i])
    {
      if code[i] < 'a' || code[i] > 'z' {
        return "";
      }
    }
  }

  /** The words that have a fixed set of values. */
  method NormalWords(f: Filter) returns (verdict: string, method_: string, code: string, phase: string)
    ensures verdict == OneOfOrNone(f.verdict, VERDICTS) && method_ == NormalMethod(f.method_)
    ensures code == OneOfOrNone(f.code, CODES) && phase == OneOfOrNone(f.phase, PHASES)
  {
    hide Trim, Upper;
    verdict, method_, code, phase := f.verdict, Upper(Trim(f.method_)), f.code, f.phase;
    if verdict !in VERDICTS {
      verdict := "";
    }
    if method_ !in METHODS {
      method_ := "";
    }
    if code !in CODES {
      code := "";
    }
    if phase !in PHASES {
      phase := "";
    }
  }

  method Normalize(f: Filter, now: int, fold: string -> string, nets: Nets) returns (g: Filter)
    ensures g == Normalized(f, now, fold, nets)
  {
    hide Listed, Kept, SessionText, Country, NormalMethod, OneOfOrNone, Clamp;
    var limit, offset := NormalPage(f.limit, f.offset);
    var from, until := NormalSpan(f.ray, f.from, f.until, now);
    var verdict, method_, code, phase := NormalWords(f);
    var country := CountryCode(f.country);
    var user := TextOfSession(f.user);
    var sessionID := TextOfSession(f.sessionID);
    var cidrs := Parse(f.cidrs, NetForm(nets), 32);
    var locationIDs := Parse(f.locationIDs, AnyWord, 64);
    var serverNames := Parse(f.serverNames, AnyWord, 64);
    var vars := Keep(f.vars, VarOk, Itself, MAX_VARS);
    var headers := Keep(f.headers, NameOk, fold, MAX_VARS);
    var params := Keep(f.params, NameOk, Itself, MAX_VARS);
    var body := f.body;
    if |body| > 256 {
      body := body[..256];
    }
    g := f.(limit := limit, offset := offset, verdict := verdict, method_ := method_, code := code,
            phase := phase, country := country,
            cidrs := cidrs, locationIDs := locationIDs, serverNames := serverNames,
            vars := vars, headers := headers, params := params,
            user := user, sessionID := sessionID, body := body,
            from := from, until := until);
  }

  // What a normalised filter is

  predicate Trimmed(s: string) {
    s == "" || (!IsBlank(s[0]) && !IsBlank(s[|s| - 1]))
  }

  predicate NormalTexts(f: Filter) {
    && f.verdict in VERDICTS && f.method_ in METHODS && f.code in CODES && f.phase in PHASES
    && (f.country == "" || (|f.country| == 2 && Letters(f.country)))
    && Trimmed(f.user) && |f.user| <= 256 && Printable(f.user)
    && Trimmed(f.sessionID) && |f.sessionID| <= 256 && Printable(f.sessionID)
    && |f.body| <= 256
  }

  predicate NormalNumbers(f: Filter) {
    && 0 < f.limit <= 200 && f.offset >= 0
    && (f.ray == "" ==> f.until != NEVER && (f.from != NEVER || f.until - DAY == NEVER))
  }

  ghost predicate NormalLists(f: Filter, fold: string -> string, nets: Nets) {
    && Settled(f.cidrs, NetForm(nets)) && Distinct(f.cidrs) && |f.cidrs| <= 32
    && Settled(f.locationIDs, AnyWord) && Distinct(f.locationIDs) && |f.locationIDs| <= 64
    && Settled(f.serverNames, AnyWord) && Distinct(f.serverNames) && |f.serverNames| <= 64
    && NamesSettle(f.vars, VarOk, Itself) && |f.vars| <= MAX_VARS
    && NamesSettle(f.headers, NameOk, fold) && |f.headers| <= MAX_VARS
    && NamesSettle(f.params, NameOk, Itself) && |f.params| <= MAX_VARS
  }

  lemma UpperTrimmed(s: string)
    requires forall i :: 0 <= i < |s| ==> 'A' <= s[i] <= 'Z'
    ensures Trim(s) == s && Upper(s) == s
  {
    hide Trim;
    TrimNoop(s);
  }

  lemma MethodsUpper(s: string)
    requires s in METHODS
    ensures forall i :: 0 <= i < |s| ==> 'A' <= s[i] <= 'Z'
  {
  }

  lemma MethodFixedIff(s: string)
    ensures NormalMethod(s) == s <==> s in METHODS
    ensures NormalMethod(s) in METHODS
  {
    hide Trim, Upper;
    if s in METHODS {
      MethodsUpper(s);
      UpperTrimmed(s);
    }
  }

  lemma CountryFixedIff(s: string)
    ensures Country(s) == s <==> s == "" || (|s| == 2 && Letters(s))
    ensures Country(s) == "" || (|Country(s)| == 2 && Letters(Country(s)))
  {
    hide Trim;
    if |s| == 2 && Letters(s) {
      TrimNoop(s);
    }
    TrimNoop("");
  }

  lemma SessionFixedIff(s: string)
    ensures SessionText(s) == s <==> Trimmed(s) && |s| <= 256 && Printable(s)
    ensures Trimmed(SessionText(s)) && |SessionText(s)| <= 256 && Printable(SessionText(s))
  {
    hide Trim;
    TrimEnds(s);
    if Trimmed(s) {
      TrimNoop(s);
    }
  }

  /** The pass leaves a filter alone exactly when it is normal. */
  lemma {:induction false} NormalizedFixedIff(f: Filter, now: int, fold: string -> string, nets: Nets)
    requires NetsOk(nets) && now != NEVER
    ensures Normalized(f, now, fold, nets) == f <==> NormalTexts(f) && NormalNumbers(f) && NormalLists(f, fold, nets)
  {
    hide Listed, Kept, Trim, SessionText, Country, NormalMethod, NetsOk, Stable, NamesSettle, Settled, Trimmed,
         Printable, Letters, Distinct;
    NetFormStable(nets);
    AnyWordStable();
    ListedFixedIff(f.cidrs, NetForm(nets), 32);
    ListedFixedIff(f.locationIDs, AnyWord, 64);
    ListedFixedIff(f.serverNames, AnyWord, 64);
    KeptFixedIff(f.vars, VarOk, Itself, MAX_VARS);
    KeptFixedIff(f.headers, NameOk, fold, MAX_VARS);
    KeptFixedIff(f.params, NameOk, Itself, MAX_VARS);
    MethodFixedIff(f.method_);
    CountryFixedIff(f.country);
    SessionFixedIff(f.user);
    SessionFixedIff(f.sessionID);
  }

  /** What comes out of the pass is normal, but for header names that lower case has spoilt. */
  lemma {:induction false} NormalizedIsNormal(f: Filter, now: int, fold: string -> string, nets: Nets)
    requires NetsOk(nets) && now != NEVER
    ensures var g := Normalized(f, now, fold, nets);
            && NormalTexts(g) && NormalNumbers(g)
            && (NormalLists(g, fold, nets) <==> NamesSettle(g.headers, NameOk, fold))
  {
    hide Listed, Kept, Trim, SessionText, Country, NormalMethod, NetsOk, Stable, NamesSettle, Settled, Trimmed,
         Printable, Letters, Distinct;
    NetFormStable(nets);
    AnyWordStable();
    ListedSettles(f.cidrs, NetForm(nets), 32);
    ListedSettles(f.locationIDs, AnyWord, 64);
    ListedSettles(f.serverNames, AnyWord, 64);
    PlainNamesSettle(f.vars, VarOk, MAX_VARS);
    PlainNamesSettle(f.params, NameOk, MAX_VARS);
    KeptFew(f.vars, VarOk, Itself, MAX_VARS);
    KeptFew(f.headers, NameOk, fold, MAX_VARS);
    KeptFew(f.params, NameOk, Itself, MAX_VARS);
    MethodFixedIff(f.method_);
    CountryFixedIff(f.country);
    SessionFixedIff(f.user);
    SessionFixedIff(f.sessionID);
  }

  lemma KeptFew(vs: seq<Named>, ok: Named -> bool, fold: string -> string, max: nat)
    ensures |Kept(vs, ok, fold, max)| <= max
  {
    hide Filtered;
  }

  /** Normalising again, at any later time, changes nothing exactly when each of the first sixteen good
      header names of the filter settles. */
  lemma {:induction false} NormalizeTwiceIff(f: Filter, now: int, later: int, fold: string -> string, nets: Nets)
    requires NetsOk(nets) && now != NEVER && later != NEVER
    ensures var g, first := Normalized(f, now, fold, nets), FirstGood(f.headers, MAX_VARS);
            Normalized(g, later, fold, nets) == g <==> forall i :: 0 <= i < |first| ==> Settles(first[i], fold)
  {
    hide Normalized, NormalTexts, NormalNumbers, NormalLists, NamesSettle, NetsOk, Settles, FirstGood;
    NormalizedIsNormal(f, now, fold, nets);
    NormalizedFixedIff(Normalized(f, now, fold, nets), later, fold, nets);
    KeptSettleIff(f.headers, fold, MAX_VARS);
    HeadersOf(f, now, fold, nets);
  }

  /** A filter by this one header asks for it after the first pass and for no header after the second,
      so that the reader selects more than the handler was asked for. */
  lemma GrownNameIsLost(f: Filter, now: int, later: int, fold: string -> string, nets: Nets, value: string)
    requires f.headers == [Named(WIDE, value)] && fold(WIDE) == WIDER
    ensures var g := Normalized(f, now, fold, nets);
            g.headers == [Named(WIDER, value)] && Normalized(g, later, fold, nets).headers == []
  {
    hide Normalized, Filtered, NameOk;
    var v, w := Named(WIDE, value), Named(WIDER, value);
    WideNames(value);
    TooLong(w);
    FilteredNone(NameOk);
    FilteredSnoc([], v, NameOk);
    FilteredSnoc([], w, NameOk);
    assert [] + [v] == [v] && [] + [w] == [w];
    HeadersOf(f, now, fold, nets);
    HeadersOf(Normalized(f, now, fold, nets), later, fold, nets);
  }

  lemma TooLong(v: Named)
    requires |v.name| > 128
    ensures !NameOk(v)
  {
  }

  lemma AnyWordStable()
    ensures Stable(AnyWord)
  {
  }

  /** With ASCII header names the handler's pass and the reader's are one. */
  lemma {:induction false} NormalizeTwice(f: Filter, now: int, later: int, fold: string -> string, nets: Nets)
    requires NetsOk(nets) && now != NEVER && later != NEVER && LowersAscii(fold)
    requires forall i :: 0 <= i < |f.headers| ==> Ascii(f.headers[i].name)
    ensures Normalized(Normalized(f, now, fold, nets), later, fold, nets) == Normalized(f, now, fold, nets)
  {
    hide Normalized, NamesSettle, NetsOk, LowersAscii, Ascii, Settles, FirstGood;
    NormalizeTwiceIff(f, now, later, fold, nets);
    AsciiNamesSettle(f.headers, fold, MAX_VARS);
    KeptSettleIff(f.headers, fold, MAX_VARS);
  }

  lemma HeadersOf(f: Filter, now: int, fold: string -> string, nets: Nets)
    ensures Normalized(f, now, fold, nets).headers == Kept(f.headers, NameOk, fold, MAX_VARS)
  {
  }
}
