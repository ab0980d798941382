/** Query strings read window by window (internal/httpapi/content.go, content_parse.go). A text is a
    Go string, so that one character here stands for one byte. */
module ArgsWindow {
  import opened Lists
  import opened Percent
  import opened Strings

  datatype Pair = Pair(name: string, value: string)

  datatype Fragment = Fragment(pairs: seq<Pair>, continuation: string)

  const AMP := '&'

  // strings.Cut and strings.Split

  function Before(s: string, c: char): string { s[..IndexOf(s, c)] }

  function After(s: string, c: char): string {
    if IndexOf(s, c) < |s| then s[IndexOf(s, c) + 1..] else ""
  }

  function Split(s: string): (parts: seq<string>)
    ensures parts != []
  {
    if AMP !in s then [s] else [Before(s, AMP)] + Split(After(s, AMP))
  }

  lemma CutJoin(a: string, c: char, b: string)
    requires c !in a
    ensures Before(a + [c] + b, c) == a && After(a + [c] + b, c) == b
    ensures Before(a, c) == a && After(a, c) == ""
  {
    IndexOfJoin(a, c, b);
  }

  lemma CutParts(s: string, c: char)
    requires c in s
    ensures s == Before(s, c) + [c] + After(s, c) && c !in Before(s, c)
  {
    var i :| 0 <= i < |s| && s[i] == c;
    assert IndexOf(s, c) <= i;
  }

  // parseArgs

  function PairOf(part: string, unescape: string -> string): Pair {
    Pair(unescape(Before(part, '=')), unescape(After(part, '=')))
  }

  function PairsOf(parts: seq<string>, unescape: string -> string): seq<Pair> {
    if parts == [] then []
    else
      var last := parts[|parts| - 1];
      PairsOf(parts[..|parts| - 1], unescape) + if last == "" then [] else [PairOf(last, unescape)]
  }

  function ArgsOf(raw: string, unescape: string -> string): seq<Pair> {
    PairsOf(Split(raw), unescape)
  }

  lemma PairsSnoc(parts: seq<string>, part: string, unescape: string -> string)
    ensures PairsOf(parts + [part], unescape)
            == if part == "" then PairsOf(parts, unescape) else PairsOf(parts, unescape) + [PairOf(part, unescape)]
  {
    assert (parts + [part])[..|parts|] == parts;
  }

  method ParseArgs(raw: string, unescape: string -> string) returns (out: seq<Pair>)
    ensures out == ArgsOf(raw, unescape)
  {
    hide Split, PairsOf;
    if raw == "" {
      NoArgs(unescape);
      return [];
    }
    var parts := Split(raw);
    out := [];
    NoParts(unescape);
    for i := 0 to |parts|
      invariant out == PairsOf(parts[..i], unescape)
    {
      assert parts[..i + 1] == parts[..i] + [parts[i]];
      PairsSnoc(parts[..i], parts[i], unescape);
      if parts[i] == "" {
        continue;
      }
      var name, value := Before(parts[i], '='), After(parts[i], '=');
      out := out + [Pair(unescape(name), unescape(value))];
    }
    assert parts[..|parts|] == parts;
  }

  lemma NoParts(unescape: string -> string)
    ensures PairsOf([], unescape) == []
  {
  }

  lemma NoArgs(unescape: string -> string)
    ensures ArgsOf("", unescape) == []
  {
    assert [""] == [] + [""];
    PairsSnoc([], "", unescape);
  }

  lemma OneArg(part: string, unescape: string -> string)
    requires AMP !in part
    ensures ArgsOf(part, unescape) == if part == "" then [] else [PairOf(part, unescape)]
  {
    hide PairOf;
    assert [part] == [] + [part];
    PairsSnoc([], part, unescape);
  }

  /** parseArgsFragment. */
  function FragmentOf(raw: string, offset: nat, unescape: string -> string): Fragment {
    if raw == "" then Fragment([], "")
    else if offset > 0 && raw[0] != AMP then
      var head, rest := Before(raw, AMP), After(raw, AMP);
      if AMP in raw && rest != "" then Fragment(ArgsOf(rest, unescape), unescape(head))
      else Fragment([], unescape(head))
    else Fragment(ArgsOf(raw, unescape), "")
  }

  // Splitting at an ampersand

  lemma SplitAt(head: string, rest: string)
    requires AMP !in head
    ensures Split(head + [AMP] + rest) == [head] + Split(rest)
    ensures Split(head) == [head]
  {
    var s := head + [AMP] + rest;
    assert s[|head|] == AMP;
    CutJoin(head, AMP, rest);
  }

  lemma {:induction false} SplitJoin(a: string, b: string)
    ensures Split(a + [AMP] + b) == Split(a) + Split(b)
    decreases |a|
  {
    hide Split, IndexOf;
    if AMP in a {
      CutParts(a, AMP);
      var head, rest := Before(a, AMP), After(a, AMP);
      assert a + [AMP] + b == head + [AMP] + (rest + [AMP] + b);
      SplitAt(head, rest + [AMP] + b);
      SplitAt(head, rest);
      SplitJoin(rest, b);
    } else {
      SplitAt(a, b);
    }
  }

  lemma {:induction false} PairsJoin(x: seq<string>, y: seq<string>, unescape: string -> string)
    ensures PairsOf(x + y, unescape) == PairsOf(x, unescape) + PairsOf(y, unescape)
    decreases |y|
  {
    hide PairOf, PairsOf;
    if y == [] {
      assert x + y == x;
      NoParts(unescape);
    } else {
      var init, last := y[..|y| - 1], y[|y| - 1];
      PairsJoin(x, init, unescape);
      assert x + y == (x + init) + [last] && y == init + [last];
      PairsSnoc(x + init, last, unescape);
      PairsSnoc(init, last, unescape);
    }
  }

  lemma ArgsJoin(a: string, b: string, unescape: string -> string)
    ensures ArgsOf(a + [AMP] + b, unescape) == ArgsOf(a, unescape) + ArgsOf(b, unescape)
  {
    hide Split, PairsOf;
    SplitJoin(a, b);
    PairsJoin(Split(a), Split(b), unescape);
  }

  // Windows

  /** What stands behind the last ampersand of a window, and what stands before it. */
  function Tail(s: string): (t: string)
    ensures AMP !in t && |t| <= |s| && s[|s| - |t|..] == t
    ensures |t| < |s| ==> s[|s| - |t| - 1] == AMP
  {
    if s == "" || s[|s| - 1] == AMP then ""
    else
      assert s == s[..|s| - 1] + [s[|s| - 1]];
      Tail(s[..|s| - 1]) + [s[|s| - 1]]
  }

  function Full(s: string): string {
    if |Tail(s)| == |s| then "" else s[..|s| - |Tail(s)| - 1]
  }

  /** The arguments of a window are those it completes and the one it may cut. */
  lemma TailSplits(s: string, more: string, unescape: string -> string)
    ensures ArgsOf(s + more, unescape) == ArgsOf(Full(s), unescape) + ArgsOf(Tail(s) + more, unescape)
  {
    hide Split, PairsOf;
    var full, tail := Full(s), Tail(s);
    if |tail| == |s| {
      NoArgs(unescape);
      assert s == tail;
    } else {
      assert s + more == full + [AMP] + (tail + more);
      ArgsJoin(full, tail + more, unescape);
    }
  }

  /** What a later window adds: its head ends the argument it starts in, the rest is its own. */
  lemma HeadSplits(tail: string, w: string, offset: nat, unescape: string -> string)
    requires w != "" && offset > 0
    ensures ArgsOf(tail + w, unescape)
            == ArgsOf(tail + Before(w, AMP), unescape) + FragmentOf(w, offset, unescape).pairs
    ensures FragmentOf(w, offset, unescape).continuation == if w[0] == AMP then "" else unescape(Before(w, AMP))
  {
    hide Split, PairsOf;
    NoArgs(unescape);
    if AMP in w {
      CutParts(w, AMP);
      var head, rest := Before(w, AMP), After(w, AMP);
      assert tail + w == (tail + head) + [AMP] + rest;
      ArgsJoin(tail + head, rest, unescape);
      if w[0] == AMP {
        assert head == "" && w == "" + [AMP] + rest;
        ArgsJoin("", rest, unescape);
      }
    } else {
      CutJoin(w, AMP, "");
      assert w[0] in w;
    }
  }

  /** For every cut: the arguments are those the first window completes, the one the cut falls in,
      and those the second window reports. */
  lemma {:induction false} TwoWindows(q: string, k: nat, unescape: string -> string)
    requires 0 < k < |q|
    ensures ArgsOf(q, unescape) == ArgsOf(Full(q[..k]), unescape) + ArgsOf(Tail(q[..k]) + Before(q[k..], AMP), unescape)
                                   + FragmentOf(q[k..], k, unescape).pairs
    ensures FragmentOf(q[..k], 0, unescape)
            == Fragment(ArgsOf(Full(q[..k]), unescape) + ArgsOf(Tail(q[..k]), unescape), "")
  {
    hide Split, PairsOf, FragmentOf, Tail, Full, ArgsOf, IndexOf;
    assert q == q[..k] + q[k..];
    TailSplits(q[..k], q[k..], unescape);
    HeadSplits(Tail(q[..k]), q[k..], k, unescape);
    FirstWindow(q[..k], unescape);
  }

  lemma FirstWindow(w: string, unescape: string -> string)
    ensures FragmentOf(w, 0, unescape) == Fragment(ArgsOf(Full(w), unescape) + ArgsOf(Tail(w), unescape), "")
  {
    hide Split, PairsOf, FragmentOf, Tail, Full, ArgsOf;
    assert w + "" == w && Tail(w) + "" == Tail(w);
    TailSplits(w, "", unescape);
    FirstFragment(w, unescape);
  }

  lemma FirstFragment(w: string, unescape: string -> string)
    ensures FragmentOf(w, 0, unescape) == Fragment(ArgsOf(w, unescape), "")
  {
    hide Split, PairsOf;
    NoArgs(unescape);
  }

  // Any number of windows

  /** The pairs settled so far and the raw text of the argument still open. */
  datatype Carry = Carry(done: seq<Pair>, open: string)

  function Feed(c: Carry, w: string, unescape: string -> string): Carry {
    if AMP !in w then Carry(c.done, c.open + w)
    else
      var rest := After(w, AMP);
      Carry(c.done + ArgsOf(c.open + Before(w, AMP), unescape) + ArgsOf(Full(rest), unescape), Tail(rest))
  }

  function Fed(windows: seq<string>, unescape: string -> string): Carry {
    if windows == [] then Carry([], "")
    else Feed(Fed(windows[..|windows| - 1], unescape), windows[|windows| - 1], unescape)
  }

  function Text(windows: seq<string>): string {
    if windows == [] then "" else Text(windows[..|windows| - 1]) + windows[|windows| - 1]
  }

  lemma WindowSplits(open: string, w: string, more: string, unescape: string -> string)
    requires AMP in w
    ensures ArgsOf(open + w + more, unescape)
            == ArgsOf(open + Before(w, AMP), unescape)
               + (ArgsOf(Full(After(w, AMP)), unescape) + ArgsOf(Tail(After(w, AMP)) + more, unescape))
  {
    hide Split, PairsOf, Tail, Full, ArgsOf;
    CutParts(w, AMP);
    var head, rest := Before(w, AMP), After(w, AMP);
    assert open + w + more == (open + head) + [AMP] + (rest + more);
    ArgsJoin(open + head, rest + more, unescape);
    TailSplits(rest, more, unescape);
  }

  lemma FeedKeeps(c: Carry, w: string, more: string, unescape: string -> string)
    ensures var d := Feed(c, w, unescape);
            d.done + ArgsOf(d.open + more, unescape) == c.done + ArgsOf(c.open + w + more, unescape)
  {
    hide Split, PairsOf, Tail, Full, ArgsOf, IndexOf;
    if AMP in w {
      WindowSplits(c.open, w, more, unescape);
      var head, rest := Before(w, AMP), After(w, AMP);
    }
  }

  /** However a query string is cut into windows, carrying the open argument over gives its arguments. */
  lemma {:induction false} WindowsStitch(windows: seq<string>, more: string, unescape: string -> string)
    ensures var c := Fed(windows, unescape);
            c.done + ArgsOf(c.open + more, unescape) == ArgsOf(Text(windows) + more, unescape)
    decreases |windows|
  {
    hide ArgsOf, Feed;
    if windows == [] {
      assert "" + more == more;
    } else {
      var init, w := windows[..|windows| - 1], windows[|windows| - 1];
      FeedKeeps(Fed(init, unescape), w, more, unescape);
      assert Fed(init, unescape).open + w + more == Fed(init, unescape).open + (w + more);
      WindowsStitch(init, w + more, unescape);
      assert Text(windows) + more == Text(init) + (w + more);
    }
  }

  // Joining the answers alone

  /** The continuation of a later answer extends the value of the last pair before it. */
  function Extended(pairs: seq<Pair>, continuation: string): seq<Pair> {
    if pairs == [] || continuation == "" then pairs
    else
      var last := pairs[|pairs| - 1];
      pairs[..|pairs| - 1] + [Pair(last.name, last.value + continuation)]
  }

  function Joined(one: Fragment, two: Fragment): seq<Pair> {
    Extended(one.pairs, two.continuation) + two.pairs
  }

  /** The cut falls on an ampersand that opens the second window, or inside a value. */
  predicate CleanCut(q: string, k: nat)
    requires 0 < k < |q|
  {
    q[k] == AMP || '=' in Tail(q[..k])
  }

  lemma ValueExtends(tail: string, head: string, unescape: string -> string)
    requires '=' in tail && AMP !in tail && AMP !in head
    requires unescape(After(tail, '=') + head) == unescape(After(tail, '=')) + unescape(head)
    ensures ArgsOf(tail + head, unescape) == Extended(ArgsOf(tail, unescape), unescape(head))
    ensures ArgsOf(tail, unescape) != []
  {
    hide Split, PairsOf, ArgsOf;
    CutParts(tail, '=');
    assert tail + head == Before(tail, '=') + ['='] + (After(tail, '=') + head);
    CutJoin(Before(tail, '='), '=', After(tail, '=') + head);
    OneArg(tail, unescape);
    OneArg(tail + head, unescape);
    assert unescape(After(tail, '=')) + "" == unescape(After(tail, '='));
  }

  lemma ExtendedJoin(x: seq<Pair>, y: seq<Pair>, c: string)
    requires y != []
    ensures Extended(x + y, c) == x + Extended(y, c)
  {
    assert (x + y)[..|x + y| - 1] == x + y[..|y| - 1];
  }

  /** The answers of two windows join to the arguments, if the cut is clean and splits no escape. */
  lemma AnswersJoin(q: string, k: nat, unescape: string -> string)
    requires 0 < k < |q| && CleanCut(q, k)
    requires var value, head := After(Tail(q[..k]), '='), Before(q[k..], AMP);
             q[k] != AMP ==> unescape(value + head) == unescape(value) + unescape(head)
    ensures Joined(FragmentOf(q[..k], 0, unescape), FragmentOf(q[k..], k, unescape)) == ArgsOf(q, unescape)
  {
    hide Split, PairsOf, FragmentOf, Tail, Full, ArgsOf;
    var tail, w := Tail(q[..k]), q[k..];
    var head := Before(w, AMP);
    TwoWindows(q, k, unescape);
    HeadSplits(tail, w, k, unescape);
    if q[k] == AMP {
      assert head == "" && tail + head == tail;
    } else {
      ValueExtends(tail, head, unescape);
      ExtendedJoin(ArgsOf(Full(q[..k]), unescape), ArgsOf(tail, unescape), unescape(head));
    }
  }

  lemma DirtyCut(x: seq<Pair>, one: Pair, both: Pair, head: string, y: seq<Pair>)
    requires Pair(one.name, one.value + head) != both && head != ""
    ensures Extended(x + [one], head) + y != x + [both] + y
  {
    ExtendedJoin(x, [one], head);
    assert (Extended(x + [one], head) + y)[|x|] != (x + [both] + y)[|x|];
  }

  // All text, with the percent-decoder of the library

  /** A name that is cut cannot be mended: neither the name nor the value of the joined pair is right. */
  lemma NameCutDiffers(tail: string, head: string)
    requires '=' !in tail && head != ""
    ensures var one, both := PairOf(tail, Unescape), PairOf(tail + head, Unescape);
            Pair(one.name, one.value + Unescape(head)) != both
  {
    hide Unescape, IndexOf;
    UnescapeSize("");
    UnescapeSize(head);
    CutJoin(tail, '=', "");
    if '=' in head {
      CutParts(head, '=');
      assert tail + head == (tail + Before(head, '=')) + ['='] + After(head, '=');
      CutJoin(tail + Before(head, '='), '=', After(head, '='));
      ValueShorter(Before(head, '='), After(head, '='));
    } else {
      CutJoin(tail + head, '=', "");
    }
  }

  /** For every text and every cut: the two answers join to the arguments exactly when the second window
      opens with an ampersand, or the cut falls into a value without a seam. */
  lemma {:induction false} AnswersJoinIff(q: string, k: nat)
    requires 0 < k < |q|
    ensures Joined(FragmentOf(q[..k], 0, Unescape), FragmentOf(q[k..], k, Unescape)) == ArgsOf(q, Unescape)
            <==> q[k] == AMP || ('=' in Tail(q[..k]) && Seamless(After(Tail(q[..k]), '='), Before(q[k..], AMP)))
  {
    hide Split, PairsOf, FragmentOf, Tail, Full, ArgsOf, IndexOf, Unescape, Seamless, PairOf;
    var full, tail, head := Full(q[..k]), Tail(q[..k]), Before(q[k..], AMP);
    SeamIff(After(tail, '='), head);
    if q[k] == AMP || ('=' in tail && Seamless(After(tail, '='), head)) {
      AnswersJoin(q, k, Unescape);
    } else {
      TwoWindows(q, k, Unescape);
      HeadSplits(tail, q[k..], k, Unescape);
      OneArg(tail, Unescape);
      OneArg(tail + head, Unescape);
      UnescapeSize(head);
      if tail != "" {
        PairCut(tail, head);
        DirtyCut(ArgsOf(full, Unescape), PairOf(tail, Unescape), PairOf(tail + head, Unescape), Unescape(head),
                 FragmentOf(q[k..], k, Unescape).pairs);
      }
    }
  }

  /** The pair that the cut falls in, joined from the answers, is wrong if the cut has a seam. */
  lemma PairCut(tail: string, head: string)
    requires head != "" && ('=' in tail ==> !Seamless(After(tail, '='), head))
    ensures var one, both := PairOf(tail, Unescape), PairOf(tail + head, Unescape);
            Pair(one.name, one.value + Unescape(head)) != both
  {
    hide Unescape, IndexOf, Seamless;
    if '=' in tail {
      CutParts(tail, '=');
      assert tail + head == Before(tail, '=') + ['='] + (After(tail, '=') + head);
      CutJoin(Before(tail, '='), '=', After(tail, '=') + head);
      SeamIff(After(tail, '='), head);
    } else {
      NameCutDiffers(tail, head);
    }
  }
  lemma PlainArg(name: string, value: string)
    requires Plain(name) && Plain(value) && AMP !in name && AMP !in value && '=' !in name
    ensures var part := name + "=" + value;
            ArgsOf(part, Unescape) == [Pair(name, value)] && Unescape(part) == part
  {
    hide Split, PairsOf, ArgsOf, IndexOf, Unescape;
    var part := name + "=" + value;
    OneArg(part, Unescape);
    CutJoin(name, '=', value);
    UnchangedIff(name);
    UnchangedIff(value);
    UnchangedIff(part);
  }

  /** A cut behind the ampersand: the first answer ends with a whole pair, the second hands its only pair out
      as a continuation, and joined they give one wrong pair for two. */
  lemma CutBehindAmpersand()
    ensures var q := "a=1&b=2";
            && FragmentOf(q[..4], 0, Unescape) == Fragment([Pair("a", "1")], "")
            && FragmentOf(q[4..], 4, Unescape) == Fragment([], "b=2")
            && Joined(FragmentOf(q[..4], 0, Unescape), FragmentOf(q[4..], 4, Unescape)) == [Pair("a", "1b=2")]
            && ArgsOf(q, Unescape) == [Pair("a", "1"), Pair("b", "2")]
  {
    hide Split, PairsOf, ArgsOf, IndexOf, Unescape;
    var q := "a=1&b=2";
    assert q[..4] == "a=1" + [AMP] + "" && q[4..] == "b=2" && q == "a=1" + [AMP] + "b=2";
    PlainArg("a", "1");
    PlainArg("b", "2");
    assert "a" + "=" + "1" == "a=1" && "b" + "=" + "2" == "b=2";
    NoArgs(Unescape);
    ArgsJoin("a=1", "", Unescape);
    ArgsJoin("a=1", "b=2", Unescape);
    CutJoin("b=2", AMP, "");
    assert [Pair("a", "1")][..0] == [] && "1" + "b=2" == "1b=2";
    assert Extended([Pair("a", "1")], "b=2") == [Pair("a", "1b=2")];
  }

  // Query strings as clients write them

  datatype Written = Written(name: seq<Piece>, value: seq<Piece>, sign: bool)

  /** Name and value hide the signs that part them; without an equals sign there is no value. */
  predicate WrittenOk(w: Written) {
    && PiecesOk(w.name) && PiecesOk(w.value)
    && (forall i :: 0 <= i < |w.name| && w.name[i].Kept? ==> w.name[i].c != '=' && w.name[i].c != '&')
    && (forall i :: 0 <= i < |w.value| && w.value[i].Kept? ==> w.value[i].c != '&')
    && (!w.sign ==> w.value == [] && w.name != [])
  }

  function PartText(w: Written): string {
    Percent.Written(w.name) + if w.sign then "=" + Percent.Written(w.value) else ""
  }

  function QueryText(ws: seq<Written>): string {
    if ws == [] then "" else if |ws| == 1 then PartText(ws[0]) else PartText(ws[0]) + "&" + QueryText(ws[1..])
  }

  function Meanings(ws: seq<Written>): seq<Pair> {
    seq(|ws|, i requires 0 <= i < |ws| => Pair(Meant(ws[i].name), Meant(ws[i].value)))
  }

  lemma {:induction false} SignHidden(ps: seq<Piece>, c: char)
    requires PiecesOk(ps) && c in {'=', '&'}
    requires forall i :: 0 <= i < |ps| && ps[i].Kept? ==> ps[i].c != c
    ensures c !in Percent.Written(ps)
  {
    if ps != [] {
      SignHidden(ps[1..], c);
    }
  }

  lemma NothingWritten(ps: seq<Piece>)
    ensures Percent.Written(ps) == "" <==> ps == []
    ensures ps == [] ==> Meant(ps) == ""
  {
  }

  lemma PartReads(w: Written)
    requires WrittenOk(w)
    ensures AMP !in PartText(w) && PartText(w) != ""
    ensures PairOf(PartText(w), Unescape) == Pair(Meant(w.name), Meant(w.value))
  {
    hide Unescape, IndexOf, PiecesOk, Percent.Written;
    var name, value := Percent.Written(w.name), Percent.Written(w.value);
    SignHidden(w.name, '=');
    SignHidden(w.name, '&');
    SignHidden(w.value, '&');
    UnescapeReads(w.name, "");
    UnescapeReads(w.value, "");
    NothingWritten(w.name);
    NothingWritten(w.value);
    CutJoin(name, '=', value);
    if w.sign {
      assert PartText(w) == name + ['='] + value;
    } else {
      assert PartText(w) == name;
    }
  }

  /** Every query string that is written of names and values, with any choice of escapes and with the equals
      signs behind names without a value left out, is read back to them, in order. */
  lemma {:induction false} QueryReads(ws: seq<Written>)
    requires forall i :: 0 <= i < |ws| ==> WrittenOk(ws[i])
    ensures ArgsOf(QueryText(ws), Unescape) == Meanings(ws)
  {
    hide Split, PairsOf, ArgsOf, PartText, Unescape, PairOf;
    if ws == [] {
      NoArgs(Unescape);
    } else {
      PartReads(ws[0]);
      OneArg(PartText(ws[0]), Unescape);
      QueryReads(ws[1..]);
      if |ws| > 1 {
        ArgsJoin(PartText(ws[0]), QueryText(ws[1..]), Unescape);
      }
      assert Meanings(ws) == [Pair(Meant(ws[0].name), Meant(ws[0].value))] + Meanings(ws[1..]);
    }
  }
}
