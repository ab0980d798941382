/** What Normalize leaves of a filter, told field by field in plain words. */
module NormalTold {
  import opened Lists
  import opened Strings
  import opened ReadSide
  import opened Sorting
  import opened IpRange
  import opened FilterCompile
  import opened Normalize

  // Words of a list

  /** Text without a comma, a semicolon, a space, a line end or a tab. */
  predicate Unbroken(w: string) {
    forall i :: 0 <= i < |w| ==> w[i] !in {',', ';', ' ', '\n', '\t'}
  }

  lemma {:induction false} WordOfJoin(a: string, c: char, b: string)
    requires c in {',', ';', ' ', '\n', '\t'}
    ensures Word(a + [c] + b) == Word(a)
  {
    var s := a + [c] + b;
    if a != "" && !IsSeparator(a[0]) {
      assert s[0] == a[0] && s[1..] == a[1..] + [c] + b;
      WordOfJoin(a[1..], c, b);
    } else {
      assert s[0] == if a == "" then c else a[0];
    }
  }

  /** Each of the five separators parts words. */
  lemma {:induction false} FieldsJoin(a: string, c: char, b: string)
    requires c in {',', ';', ' ', '\n', '\t'}
    ensures Fields(a + [c] + b) == Fields(a) + Fields(b)
    decreases |a|
  {
    hide Word;
    var s := a + [c] + b;
    if a == "" {
      assert s[0] == c && s[1..] == b;
    } else {
      assert s[0] == a[0];
      if IsSeparator(a[0]) {
        assert s[1..] == a[1..] + [c] + b;
        FieldsJoin(a[1..], c, b);
      } else {
        WordOfJoin(a, c, b);
        WordStarts(a);
        var n := |Word(a)|;
        assert s[n..] == a[n..] + [c] + b;
        FieldsJoin(a[n..], c, b);
      }
    }
  }

  lemma WordStarts(a: string)
    requires a != "" && !IsSeparator(a[0])
    ensures 0 < |Word(a)| <= |a|
  {
  }

  /** And nothing else does. */
  lemma OneField(w: string)
    requires Unbroken(w)
    ensures Fields(w) == if w == "" then [] else [w]
  {
    if w != "" {
      WordFields(w);
    }
  }

  lemma {:induction false} WordsOf(raw: seq<string>, w: string)
    ensures w in Words(raw) <==> exists i :: 0 <= i < |raw| && w in Fields(raw[i])
  {
    hide Fields;
    if raw != [] {
      WordsOf(raw[..|raw| - 1], w);
      assert forall i :: 0 <= i < |raw| - 1 ==> raw[..|raw| - 1][i] == raw[i];
    }
  }

  /** A list of words holds words of the list given, each once, and all of them if they are not too many. */
  lemma {:induction false} WordsListed(raw: seq<string>, max: nat)
    ensures var out := Normalize.Listed(raw, AnyWord, max);
            && |out| <= max && Distinct(out)
            && (forall w :: w in out ==> w in Words(raw))
            && (|out| < max ==> forall w :: w in Words(raw) ==> w in out)
  {
    hide Dedup, Words, Forms;
    var words := Words(raw);
    AllForms(words);
    DedupKeeps(words, Itself);
    DedupDistinct(words);
    KeysAreNames(words);
    KeysAreNames(Dedup(words, Itself));
    forall w ensures w in Dedup(words, Itself) <==> w in words {
      assert w in words <==> w in KeysOf(words, Itself);
    }
  }

  lemma {:induction false} AllForms(ws: seq<string>)
    ensures Forms(ws, AnyWord) == ws
  {
    if ws != [] {
      AllForms(ws[..|ws| - 1]);
      assert ws == ws[..|ws| - 1] + [ws[|ws| - 1]];
    }
  }

  // Networks

  lemma MaskingKeeps(p: Prefix, x: Address)
    requires PrefixOk(p) && |x| == 16
    ensures PrefixOk(MaskedPrefix(p)) && (InPrefix(x, MaskedPrefix(p)) <==> InPrefix(x, p))
  {
    hide Masked, Agree;
    MaskedTwice(p.addr, p.bits);
    var y := if p.V4? then x[12..] else x;
    AgreeIsMasked(p.addr, y, p.bits);
    AgreeIsMasked(Masked(p.addr, p.bits), y, p.bits);
  }

  lemma WholeIsOne(a: Address, x: Address)
    requires |a| in {4, 16} && |x| == 16
    ensures InPrefix(x, WholeAddress(a)) <==>
            x == if |a| == 4 then [0, 0, 0, 0, 0, 0, 0, 0, 0, 0, 0xFF, 0xFF] + a else a
  {
    hide Agree, Bit;
    var p := WholeAddress(a);
    var y := if p.V4? then x[12..] else x;
    AllAgree(p.addr, y);
    assert x == x[..12] + x[12..] && (|a| == 16 ==> a == a[..12] + a[12..]);
  }

  lemma AllAgree(a: Address, y: Address)
    requires |a| == |y| && |a| in {4, 16}
    ensures Agree(a, y, 8 * |a|) <==> a == y
  {
    hide Masked;
    AgreeIsMasked(a, y, 8 * |a|);
    WholeMasked(a);
    WholeMasked(y);
  }

  /** A word covers the addresses of the network it names, or the one address it is; an IPv4 address is the
      mapped one. */
  lemma CoversTold(nets: Nets, w: string, x: Address)
    requires NetsOk(nets) && |x| == 16
    ensures var t := Trim(w);
            Covers(nets, w, x) <==>
            && t != ""
            && match nets.parsePrefix(t)
               case Just(p) => InPrefix(x, p)
               case Nothing =>
                 (match nets.parseAddr(t)
                  case Just(a) => x == (if |a| == 4 then [0, 0, 0, 0, 0, 0, 0, 0, 0, 0, 0xFF, 0xFF] + a else a)
                  case Nothing => false)
  {
    hide Trim, InPrefix, WholeAddress, MaskedPrefix, Plainly;
    var t := Trim(w);
    if t != "" {
      match nets.parsePrefix(t)
      case Just(p) => MaskingKeeps(p, x);
      case Nothing =>
        if nets.parseAddr(t).Just? {
          WholeOk(nets.parseAddr(t).value);
          WholeIsOne(nets.parseAddr(t).value, x);
        }
    }
  }

  lemma WholeOk(a: Address)
    requires |a| in {4, 16}
    ensures PrefixOk(WholeAddress(a))
  {
  }

  // Names and values

  /** A name a variable may have. */
  predicate VarName(name: string) {
    1 <= |name| <= 64 &&
    forall i :: 0 <= i < |name| ==>
      'a' <= name[i] <= 'z' || 'A' <= name[i] <= 'Z' || '0' <= name[i] <= '9' ||
      name[i] == '_' || name[i] == '.' || name[i] == '-'
  }

  /** Nothing below the space and no delete. */
  predicate Plain(s: string) {
    forall i :: 0 <= i < |s| ==> ' ' <= s[i] && s[i] != '\U{7F}'
  }

  predicate PlainName(name: string) {
    1 <= |name| <= 128 && Plain(name)
  }

  predicate HasVarName(v: Named) { VarName(v.name) }

  predicate HasPlainName(v: Named) { PlainName(v.name) }

  /** The first sixteen entries with a good name are kept, in order, under the form of the name. */
  lemma {:induction false} KeptTold(vs: seq<Named>, ok: Named -> bool, good: Named -> bool, fold: string -> string)
    returns (at: seq<nat>)
    requires forall v :: ok(v) <==> good(v)
    ensures PlacesOf(vs, good, at)
    ensures var out := Kept(vs, ok, fold, 16);
            && |out| == (if |at| < 16 then |at| else 16)
            && forall k :: 0 <= k < |out| ==>
                 at[k] < |vs| && out[k] == Named(fold(vs[at[k]].name), vs[at[k]].value)
  {
    hide Filtered, PlacesOf;
    at := FilteredPlaces(vs, ok);
    SamePlaces(vs, ok, good, at);
  }

  lemma SamePlaces<T(!new)>(xs: seq<T>, p: T -> bool, q: T -> bool, at: seq<nat>)
    requires PlacesOf(xs, p, at) && forall x :: p(x) <==> q(x)
    ensures PlacesOf(xs, q, at)
  {
  }

  /** What is kept of variables, headers and parameters. */
  lemma NamesTold(f: Filter, now: int, fold: string -> string, nets: Nets)
    returns (vars: seq<nat>, headers: seq<nat>, params: seq<nat>)
    ensures PlacesOf(f.vars, HasVarName, vars) && PlacesOf(f.headers, HasPlainName, headers)
    ensures PlacesOf(f.params, HasPlainName, params)
    ensures var g := Normalized(f, now, fold, nets);
            && |g.vars| == (if |vars| < 16 then |vars| else 16)
            && |g.headers| == (if |headers| < 16 then |headers| else 16)
            && |g.params| == (if |params| < 16 then |params| else 16)
            && (forall k :: 0 <= k < |g.vars| ==> vars[k] < |f.vars| && g.vars[k] == f.vars[vars[k]])
            && (forall k :: 0 <= k < |g.headers| ==>
                  && headers[k] < |f.headers|
                  && g.headers[k] == Named(fold(f.headers[headers[k]].name), f.headers[headers[k]].value))
            && (forall k :: 0 <= k < |g.params| ==> params[k] < |f.params| && g.params[k] == f.params[params[k]])
  {
    hide Normalize.Listed, Kept, SessionText, Country, NormalMethod, OneOfOrNone, Clamp, PlacesOf;
    vars := KeptTold(f.vars, VarOk, HasVarName, Itself);
    headers := KeptTold(f.headers, NameOk, HasPlainName, fold);
    params := KeptTold(f.params, NameOk, HasPlainName, Itself);
  }

  // Texts and numbers

  /** The texts are the same but for the case of letters. */
  predicate SameText(a: string, b: string) {
    |a| == |b| && forall i :: 0 <= i < |a| ==> SameLetter(a[i], b[i])
  }

  /** A method given in letters of any case, with blanks around it, is that method; anything else is none. */
  lemma MethodTold(raw: string, m: string)
    requires m in {"GET", "POST", "PUT", "DELETE", "PATCH", "HEAD", "OPTIONS", "CONNECT", "TRACE"}
    ensures NormalMethod(raw) == m <==> SameText(Trim(raw), m)
    ensures NormalMethod(raw) in {"GET", "POST", "PUT", "DELETE", "PATCH", "HEAD", "OPTIONS", "CONNECT", "TRACE", ""}
  {
    hide Trim;
    MethodsUpper(m);
    UpperIs(Trim(raw), m);
  }

  lemma UpperIs(s: string, m: string)
    requires forall i :: 0 <= i < |m| ==> 'A' <= m[i] <= 'Z'
    ensures Upper(s) == m <==> SameText(s, m)
  {
    forall i | 0 <= i < |s| && i < |m| ensures Upper(s)[i] == m[i] <==> SameLetter(s[i], m[i]) {
      assert Upper(s)[i] == UpperChar(s[i]);
    }
  }

  /** A country is two letters, kept in lower case; anything else is none. */
  lemma CountryTold(raw: string, c: string)
    requires |c| == 2 && 'a' <= c[0] <= 'z' && 'a' <= c[1] <= 'z'
    ensures Country(raw) == c <==> SameText(Trim(raw), c)
    ensures var k := Country(raw); k == "" || (|k| == 2 && 'a' <= k[0] <= 'z' && 'a' <= k[1] <= 'z')
  {
    hide Trim;
    var s := Trim(raw);
    forall i | 0 <= i < |s| && i < 2 ensures Lower(s)[i] == c[i] <==> SameLetter(s[i], c[i]) {
      assert Lower(s)[i] == LowerChar(s[i]);
    }
  }

  /** A user or a session is kept without the blanks around it, unless it is too long or holds a character
      that cannot be printed. */
  lemma SessionTold(raw: string)
    ensures SessionText(raw) == if |Trim(raw)| <= 256 && Plain(Trim(raw)) then Trim(raw) else ""
  {
    hide Trim;
  }

  /** The other fields, with their limits and what stands in for what is missing. */
  lemma FieldsTold(f: Filter, now: int, fold: string -> string, nets: Nets)
    ensures var g := Normalized(f, now, fold, nets);
            && g.limit == (if f.limit <= 0 then 50 else if f.limit >= 200 then 200 else f.limit)
            && g.offset == (if f.offset >= 0 then f.offset else 0)
            && g.verdict == (if f.verdict in {"allow", "deny", "redirect"} then f.verdict else "")
            && g.code == (if f.code in {"local_list", "local_rate", "inspector", "score", "fail_timeout",
                                        "fail_absent", "fail_bus", "fail_body"} then f.code else "")
            && g.phase == (if f.phase in {"request", "response", "frame", "session"} then f.phase else "")
            && g.method_ == NormalMethod(f.method_) && g.country == Country(f.country)
            && g.user == SessionText(f.user) && g.sessionID == SessionText(f.sessionID)
            && g.body <= f.body && |g.body| == (if |f.body| < 256 then |f.body| else 256)
            && g.host == f.host && g.uri == f.uri && g.ray == f.ray && g.node == f.node
            && g.inspector == f.inspector && g.marker == f.marker && g.asn == f.asn
            && g.status == f.status && g.hasStatus == f.hasStatus
            && g.frameDirection == f.frameDirection && g.frameSeq == f.frameSeq
            && (f.ray != "" ==> g.from == f.from && g.until == f.until)
            && (f.ray == "" ==>
                  && g.until == (if f.until == 0 then now else f.until)
                  && g.from == (if f.from == 0 then g.until - 86_400_000_000_000 else f.from))
            && |g.cidrs| <= 32 && |g.locationIDs| <= 64 && |g.serverNames| <= 64
  {
    hide Kept, SessionText, Country, NormalMethod, Dedup, Forms, Words;
  }
}
