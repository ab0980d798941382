/** Paging through the text of a body: `content` and `decode` of internal/httpapi/content.go over
    the archived window, with a client that moves its offset by `Returned` while `Clipped` is set. */
module Paging {
  import opened Bytes
  import opened Strings
  import opened ObjectWindow
  import opened Utf8

  datatype Page = Page(available: bool, binary: bool, text: Bytes, returned: nat, clipped: bool)

  /** decode of a body, with what content has filled in before. */
  function Decode(c: Content): Page {
    if c.reason != "" then Page(false, false, [], |c.data|, c.clipped)
    else
      match Window(c.data)
      case Shown(n) => Page(true, false, c.data[..n], n, c.clipped)
      case Binary => Page(true, true, [], |c.data|, c.clipped)
  }

  const DEFAULT_CHUNK: int64 := 32768

  /** atoi: 0 for what is no number, the nearest 64-bit number for what is out of range. */
  function Atoi(s: string): int64 {
    var digits := if s != [] && s[0] in {'+', '-'} then s[1..] else s;
    if digits == [] || !AllDigits(digits) then 0
    else
      var v: int := Value(digits);
      if s[0] == '-' then (if v > TWO63 then -TWO63 else -v) else if v > INT64_MAX then INT64_MAX else v
  }

  /** windowOf, from the two query parameters; one that is not there is empty. */
  function WindowOf(offset: string, limit: string, max: int64): (w: (int64, int64))
    ensures w.0 >= 0
    ensures max > 0 ==> 0 < w.1 <= max
  {
    if offset == "" && limit == "" then (0, max)
    else
      var o, l := Atoi(offset), if Atoi(limit) <= 0 then DEFAULT_CHUNK else Atoi(limit);
      (if o < 0 then 0 else o, if max > 0 && l > max then max else l)
  }

  lemma AtoiDigits(s: string, n: nat)
    requires s != "" && AllDigits(s) && Value(s) == n
    ensures Atoi(s) == if n < TWO63 then n else TWO63 - 1
    ensures Atoi("-" + s) == if n <= TWO63 then -(n as int) else -TWO63
  {
    assert IsDigit(s[0]) && ("-" + s)[1..] == s;
  }

  /** The window for numbers as a client writes them: too large ones are cut to the largest, a negative
      offset is the beginning, a limit that is missing or not positive is 32768 bytes, and no limit exceeds
      the maximum. */
  lemma WindowOfNumbers(o: nat, l: nat, max: int64)
    requires 0 < max
    ensures var last := 0x7FFF_FFFF_FFFF_FFFF;
            var from, chunk := if o < last then o else last, if max < 32768 then max else 32768;
            && WindowOf(Decimal(o), Decimal(l), max) == (from, if l == 0 then chunk else if l < max then l else max)
            && WindowOf(Decimal(o), "", max) == (from, chunk)
            && WindowOf("-" + Decimal(o), "", max) == (0, chunk)
            && WindowOf("", Decimal(l), max) == (0, if l == 0 then chunk else if l < max then l else max)
            && WindowOf("", "-" + Decimal(l), max) == (0, chunk)
            && WindowOf("", "", max) == (0, max)
  {
    hide Atoi, Decimal;
    ValueOfDecimal(o);
    ValueOfDecimal(l);
    AtoiDigits(Decimal(o), o);
    AtoiDigits(Decimal(l), l);
    NoNumber("");
  }

  /** What is no number counts as zero. */
  lemma NoNumber(s: string)
    requires s == "" || (s[0] !in {'+', '-'} && exists i :: 0 <= i < |s| && !('0' <= s[i] <= '9'))
    ensures Atoi(s) == 0
  {
  }

  /** The settings one reading goes by. */
  datatype Reader = Reader(loc: Maybe<Locator>, enabled: bool, max: int64, limit: int64)

  function PageAt(r: Reader, offset: int64, reply: Reply): Page {
    Decode(FetchWindow(r.loc, r.enabled, r.max, reply, offset, r.limit))
  }

  /** The store answers correctly, and where it does not tell the total the locator does. */
  ghost predicate Answers(stored: Bytes, r: Reader, store: nat -> Reply)
    requires r.loc.Just? && 0 < r.max
  {
    var n := EffectiveLimit(r.limit, r.max);
    forall offset: nat :: offset <= |stored| ==>
      && Serves(stored, store(offset), offset, n)
      && (r.loc.value.size == |stored| || (r.loc.value.size == 0 && Tells(store(offset), n)))
  }

  /** A reading with a window of at least four bytes of an object whose end can be told. */
  ghost predicate Dependable(stored: Bytes, r: Reader, store: nat -> Reply) {
    && Addressable(r.loc, r.enabled) && 4 <= EffectiveLimit(r.limit, r.max) && 0 < r.max
    && |stored| + r.max + 1 < TWO63
    && Answers(stored, r, store)
  }

  /** The pages of a reading; the last one is not text, or shows no progress, or is not clipped. */
  function Pages(size: nat, r: Reader, store: nat -> Reply, offset: nat): (ps: seq<Page>)
    requires offset <= size < TWO63
    ensures ps != []
    decreases size - offset
  {
    var p := PageAt(r, offset, store(offset));
    if !p.available || p.binary || !p.clipped || p.returned == 0 || offset + p.returned > size then [p]
    else [p] + Pages(size, r, store, offset + p.returned)
  }

  predicate IsText(p: Page) {
    p.available && !p.binary
  }

  /** The reading came to its end: nothing but text, and the last page is not clipped. */
  predicate Complete(ps: seq<Page>) {
    ps != [] && !ps[|ps| - 1].clipped && forall i :: 0 <= i < |ps| ==> IsText(ps[i])
  }

  function Joined(ps: seq<Page>): Bytes {
    if ps == [] then [] else ps[0].text + Joined(ps[1..])
  }

  /** One page of a dependable store: the front of what is left, and whether there is more. */
  lemma PageData(stored: Bytes, r: Reader, store: nat -> Reply, offset: nat)
    requires Dependable(stored, r, store) && offset <= |stored|
    ensures var rest, n := stored[offset..], EffectiveLimit(r.limit, r.max);
            var m := if n < |rest| then n else |rest|;
            && PageAt(r, offset, store(offset)) == Decode(Content("", rest[..m], m < |rest|))
            && (m >= 4 || m == |rest|) && (m < |rest| <==> HasMore(stored, offset, n))
  {
    hide FetchWindow, RangeTotal;
    AnswersAgree(stored, r.loc, r.enabled, r.max, store(offset), offset, r.limit, EffectiveLimit(r.limit, r.max));
    var rest, n := stored[offset..], EffectiveLimit(r.limit, r.max);
    assert Slice(stored, offset, n) == rest[..if n < |rest| then n else |rest|];
  }

  /** What is shown of the front of NUL-free text. */
  lemma TextShown(rest: Bytes, m: nat)
    requires Valid(rest) && 0 !in rest && m <= |rest| && (m >= 4 || m == |rest|)
    ensures var t := Window(rest[..m]);
            && t.Shown? && t.size <= m && Valid(rest[..t.size]) && Valid(rest[t.size..])
            && (t.size == |rest| <==> m == |rest|) && (rest != [] ==> t.size > 0)
  {
    hide Window, Valid, Boundary;
    WindowOfText(rest, m);
    BoundaryParts(rest, m);
    if m == |rest| {
      WholeBoundary(rest);
    }
  }

  lemma SliceOf(stored: Bytes, offset: nat, m: nat, v: nat)
    requires offset + m <= |stored| && v <= m
    ensures stored[offset..][..m][..v] == stored[offset..offset + v] == stored[offset..][..v]
    ensures stored[offset..][v..] == stored[offset + v..]
    ensures stored[offset..] == stored[offset..offset + v] + stored[offset + v..]
  {
  }

  /** A page at a character boundary of NUL-free text is text, moves on, ends at a character
      boundary, and is clipped exactly when offset + returned is short of the size. */
  lemma TextPage(stored: Bytes, r: Reader, store: nat -> Reply, offset: nat)
    requires Dependable(stored, r, store) && offset <= |stored|
    requires Valid(stored[offset..]) && 0 !in stored[offset..]
    ensures var p := PageAt(r, offset, store(offset));
            && IsText(p)
            && offset + p.returned <= |stored|
            && p.text == stored[offset..offset + p.returned] && Valid(p.text)
            && Valid(stored[offset + p.returned..])
            && (p.clipped <==> offset + p.returned < |stored|)
            && (offset < |stored| ==> p.returned > 0)
  {
    hide PageAt, Window, Valid, Dependable;
    PageData(stored, r, store, offset);
    var rest, n := stored[offset..], EffectiveLimit(r.limit, r.max);
    var m := if n < |rest| then n else |rest|;
    TextShown(rest, m);
    SliceOf(stored, offset, m, Window(rest[..m]).size);
  }

  /** A page that is not text has no text, but tells how many bytes its window has, so that a client that
      moves on by them meets every byte of the object. */
  lemma BinaryPage(stored: Bytes, r: Reader, store: nat -> Reply, offset: nat)
    requires Dependable(stored, r, store) && offset <= |stored| && !IsText(PageAt(r, offset, store(offset)))
    ensures var p, n := PageAt(r, offset, store(offset)), EffectiveLimit(r.limit, r.max);
            && p.available && p.binary && p.text == []
            && p.returned == (if offset + n < |stored| then n else |stored| - offset)
            && (p.clipped <==> offset + p.returned < |stored|)
  {
    hide PageAt, Window, Answers;
    PageData(stored, r, store, offset);
  }

  lemma {:induction false} WholeBoundary(s: Bytes)
    requires Valid(s)
    ensures Boundary(s, |s|) == |s|
    decreases |s|
  {
    hide CharSize;
    if s != [] {
      WholeBoundary(s[CharSize(s)..]);
    }
  }

  /** The pages of a reading, one after the other. */
  lemma PagesUnfold(stored: Bytes, r: Reader, store: nat -> Reply, offset: nat)
    requires offset <= |stored| < TWO63
    ensures var p, ps := PageAt(r, offset, store(offset)), Pages(|stored|, r, store, offset);
            && ps[0] == p
            && (!IsText(p) || !p.clipped || p.returned == 0 || offset + p.returned > |stored| ==> ps == [p])
            && (IsText(p) && p.clipped && p.returned > 0 && offset + p.returned <= |stored| ==>
                  ps == [p] + Pages(|stored|, r, store, offset + p.returned))
  {
    hide PageAt;
  }

  lemma JoinedUnfold(p: Page, more: seq<Page>)
    ensures Joined([p] + more) == p.text + Joined(more) && Joined([p]) == p.text
    ensures more != [] ==> (Complete([p] + more) <==> IsText(p) && Complete(more))
    ensures Complete([p]) <==> IsText(p) && !p.clipped
  {
    hide IsText, Complete;
    assert ([p] + more)[1..] == more && [p][1..] == [];
    CompleteUnfold(p, more);
  }

  lemma CompleteUnfold(p: Page, more: seq<Page>)
    ensures more != [] ==> (Complete([p] + more) <==> IsText(p) && Complete(more))
    ensures Complete([p]) <==> IsText(p) && !p.clipped
  {
    hide IsText;
    var ps := [p] + more;
    if more != [] {
      assert ps[|ps| - 1] == more[|more| - 1] && ps[0] == p;
      if Complete(ps) {
        assert forall i :: 0 <= i < |more| ==> more[i] == ps[i + 1];
      }
    }
  }

  lemma NoneBehind(stored: Bytes, offset: nat, next: nat)
    requires offset <= next <= |stored| && 0 !in stored[offset..]
    ensures 0 !in stored[next..]
  {
    assert stored[next..] == stored[offset..][next - offset..];
  }

  lemma {:induction false} TextReads(stored: Bytes, r: Reader, store: nat -> Reply, offset: nat)
    requires Dependable(stored, r, store) && offset <= |stored|
    requires Valid(stored[offset..]) && 0 !in stored[offset..]
    ensures Complete(Pages(|stored|, r, store, offset))
    ensures Joined(Pages(|stored|, r, store, offset)) == stored[offset..]
    decreases |stored| - offset
  {
    hide PageAt, Valid, Answers, Pages, Joined, Complete, IsText;
    TextPage(stored, r, store, offset);
    PagesUnfold(stored, r, store, offset);
    var p := PageAt(r, offset, store(offset));
    var next := offset + p.returned;
    SliceOf(stored, offset, p.returned, p.returned);
    if p.clipped {
      NoneBehind(stored, offset, next);
      TextReads(stored, r, store, next);
      JoinedUnfold(p, Pages(|stored|, r, store, next));
    } else {
      assert stored[next..] == [];
      JoinedUnfold(p, []);
    }
  }

  /** What text pages show is at the front of what is left, well-formed and free of NULs; the flag is
      the one of the window. */
  lemma {:induction false} AnyPage(stored: Bytes, r: Reader, store: nat -> Reply, offset: nat)
    requires Dependable(stored, r, store) && offset <= |stored| && IsText(PageAt(r, offset, store(offset)))
    ensures var p := PageAt(r, offset, store(offset));
            && offset + p.returned <= |stored|
            && p.text == stored[offset..offset + p.returned] && Valid(p.text) && 0 !in p.text
            && (p.clipped <==> HasMore(stored, offset, EffectiveLimit(r.limit, r.max)))
            && (p.clipped ==> offset + p.returned < |stored|)
            && (!p.clipped ==> Window(stored[offset..]) == Shown(p.returned))
  {
    hide PageAt, Window, Valid, Dependable, HasMore;
    PageData(stored, r, store, offset);
    var rest, n := stored[offset..], EffectiveLimit(r.limit, r.max);
    var m := if n < |rest| then n else |rest|;
    ShownIsText(rest[..m]);
    var v := Window(rest[..m]).size;
    SliceOf(stored, offset, m, v);
    assert forall b :: b in rest[..m][..v] ==> b in rest[..m];
    if m == |rest| {
      assert rest[..m] == rest;
    }
  }

  /** A window that reaches the end and is shown is shown whole exactly if it is well-formed. */
  lemma ShownWholeIff(rest: Bytes)
    requires Window(rest).Shown?
    ensures Window(rest).size == |rest| <==> Valid(rest)
  {
    hide Window, Valid, Boundary;
    ShownIsText(rest);
    assert rest[..|rest|] == rest;
    if Valid(rest) {
      WindowOfText(rest, |rest|);
      WholeBoundary(rest);
    }
  }

  /** When the flag of a page of text tells the truth: exactly if the object goes on behind the window,
      or what is left is well-formed. */
  lemma {:induction false} FlagTellsIff(stored: Bytes, r: Reader, store: nat -> Reply, offset: nat)
    requires Dependable(stored, r, store) && offset <= |stored| && IsText(PageAt(r, offset, store(offset)))
    ensures var p := PageAt(r, offset, store(offset));
            (p.clipped <==> offset + p.returned < |stored|) <==>
            HasMore(stored, offset, EffectiveLimit(r.limit, r.max)) || Valid(stored[offset..])
  {
    hide PageAt, Window, Valid, Answers, HasMore;
    AnyPage(stored, r, store, offset);
    if !PageAt(r, offset, store(offset)).clipped {
      ShownWholeIff(stored[offset..]);
    }
  }

  /** A reading that comes to its end by pages of text has read a well-formed, NUL-free front of the
      object, and the whole of it exactly if the object is well-formed from where the reading began. */
  lemma {:induction false} ReadingTellsIff(stored: Bytes, r: Reader, store: nat -> Reply, offset: nat)
    requires Dependable(stored, r, store) && offset <= |stored|
    requires Complete(Pages(|stored|, r, store, offset))
    ensures var read := Joined(Pages(|stored|, r, store, offset));
            && read <= stored[offset..] && Valid(read) && 0 !in read
            && (read == stored[offset..] <==> Valid(stored[offset..]))
    decreases |stored| - offset
  {
    hide PageAt, Valid, Window, Answers, Pages, Joined, HasMore, Complete;
    PagesUnfold(stored, r, store, offset);
    var p := PageAt(r, offset, store(offset));
    FirstIsText(Pages(|stored|, r, store, offset));
    AnyPage(stored, r, store, offset);
    FlagTellsIff(stored, r, store, offset);
    SliceOf(stored, offset, p.returned, p.returned);
    var next := offset + p.returned;
    if p.clipped && p.returned > 0 {
      var more := Pages(|stored|, r, store, next);
      JoinedUnfold(p, more);
      ReadingTellsIff(stored, r, store, next);
      PageInFront(p.text, Joined(more), stored[next..]);
    } else {
      JoinedUnfold(p, []);
    }
  }

  lemma FirstIsText(ps: seq<Page>)
    requires Complete(ps)
    ensures IsText(ps[0])
  {
  }

  /** A page of text in front of what was read, and of what was left. */
  lemma PageInFront(text: Bytes, read: Bytes, rest: Bytes)
    requires Valid(text) && 0 !in text
    requires read <= rest && Valid(read) && 0 !in read && (read == rest <==> Valid(rest))
    ensures text + read <= text + rest && Valid(text + read) && 0 !in text + read
    ensures text + read == text + rest <==> Valid(text + rest)
  {
    hide Valid;
    ValidJoin(text, read);
    ValidJoin(text, rest);
    assert read == (text + read)[|text|..] && rest == (text + rest)[|text|..];
  }

  /** Text paging reconstructs the body, and only text can be read so: with a dependable store and
      windows of at least four bytes, reading page by page from the start ends with pages of text
      that add up to the body exactly when the body is NUL-free well-formed UTF-8. */
  lemma PagingReconstructsIff(stored: Bytes, r: Reader, store: nat -> Reply)
    requires Dependable(stored, r, store)
    ensures Complete(Pages(|stored|, r, store, 0)) && Joined(Pages(|stored|, r, store, 0)) == stored
            <==> Valid(stored) && 0 !in stored
  {
    hide Pages, Valid, Answers, Joined, Complete;
    assert stored[0..] == stored;
    if Valid(stored) && 0 !in stored {
      TextReads(stored, r, store, 0);
    }
    if Complete(Pages(|stored|, r, store, 0)) {
      ReadingTellsIff(stored, r, store, 0);
    }
  }

  const CUT: Bytes := [0x61, 0xE2, 0x82]

  lemma CutShown()
    ensures Window(CUT) == Shown(1)
  {
    assert CUT[1..] == [0xE2, 0x82] && CharSize(CUT[1..]) == 0 && CharSize(CUT) == 1 && !Valid(CUT);
    assert TrimTails(CUT, 3) == 2 && TrimChar(CUT) == 1;
    assert CUT[..1] == [0x61] && [0x61][1..] == [] && Valid(CUT[..1]);
  }

  /** For instance one letter and two of the three bytes of a character: the one page there is shows the
      letter and is not clipped. */
  lemma CutTailIsLost(loc: Locator)
    requires Addressable(Just(loc), true) && loc.size == 3
    ensures var r := Reader(Just(loc), true, 4, 4);
            var ps := Pages(3, r, o => Reply(200, CUT, ""), 0);
            Dependable(CUT, r, o => Reply(200, CUT, "")) && Complete(ps) && Joined(ps) == [0x61]
  {
    hide Window, PageAt, Pages, Joined, Complete;
    var r := Reader(Just(loc), true, 4, 4);
    var store := o => Reply(200, CUT, "");
    PageData(CUT, r, store, 0);
    assert CUT[0..] == CUT && CUT[..3] == CUT && CUT[..1] == [0x61];
    CutShown();
    PagesUnfold(CUT, r, store, 0);
    JoinedUnfold(PageAt(r, 0, store(0)), []);
  }
}
