/** A byte window of an archived object: `get`, `readFullWindow` and `rangeHasMore` of
    internal/store/s3.go and `FetchWindow` of internal/store/store.go.  Offsets and limits are
    64-bit and wrap around. */
module ObjectWindow {
  import opened Bytes
  import opened Strings

  const TWO63 := 0x8000_0000_0000_0000
  const TWO64 := 0x1_0000_0000_0000_0000

  function Wrap(x: int): (w: int)
    ensures -TWO63 <= w < TWO63
    ensures -TWO63 <= x < TWO63 ==> w == x
  {
    (x + TWO63) % TWO64 - TWO63
  }

  type int64 = x: int | -TWO63 <= x < TWO63

  datatype Reply = NoReply | Reply(status: nat, body: Bytes, contentRange: string)

  datatype Fetched = Got(data: Bytes, clipped: bool) | Gone | Failed

  /** io.ReadAll of an io.LimitReader. */
  function Limited(body: Bytes, n: int): (b: Bytes)
    ensures b <= body
  {
    if n <= 0 then [] else if n < |body| then body[..n] else body
  }

  /** readFullWindow: the window cut out of a whole object. */
  function FullWindow(body: Bytes, offset: int64, limit: int64): Fetched
    requires offset >= 0 && limit > 0
  {
    var buf := Limited(body, Wrap(offset + limit + 1));
    if offset >= |buf| then Got([], false)
    else
      var end := Wrap(offset + limit);
      Got(buf[offset..if end > |buf| then |buf| else end], |buf| > end)
  }

  /** The total of a Content-Range header, where it names one. */
  function RangeTotal(header: string): Maybe<nat> {
    var s := Trim(header);
    if |s| < 6 || Lower(s[..6]) != "bytes " then Nothing
    else
      var rest := Trim(s[6..]);
      var slash := IndexOf(rest, '/');
      if slash == |rest| || rest[slash + 1..] == "" || rest[slash + 1..] == "*" then Nothing
      else ParseNatural(rest[slash + 1..])
  }

  /** get, once the store has answered. */
  function Get(reply: Reply, offset: int64, limit: int64): Fetched {
    if limit <= 0 then Failed
    else
      var from := if offset < 0 then 0 else offset;
      match reply
      case NoReply => Failed
      case Reply(status, body, contentRange) =>
        if status == 404 then Gone
        else if status == 416 then Got([], false)
        else if status / 100 != 2 then Failed
        else if status == 200 then FullWindow(body, from, limit)
        else
          var data := Limited(body, Wrap(limit + 1));
          var cut := if |data| > limit then data[..limit] else data;
          var total := RangeTotal(contentRange);
          Got(cut, if total.Just? then Wrap(from + |cut|) < total.value else |data| > limit)
  }

  datatype Locator = Locator(unavailable: string, driver: string, key: string, expired: bool, size: int)

  datatype Content = Content(reason: string, data: Bytes, clipped: bool)

  function Refusal(reason: string): Content {
    Content(reason, [], false)
  }

  function EffectiveLimit(limit: int64, max: int64): int64 {
    if limit <= 0 || limit > max then max else limit
  }

  /** FetchWindow; `loc` is absent when the record has no locator, `enabled` says that a client and
      a bucket are configured. */
  function FetchWindow(loc: Maybe<Locator>, enabled: bool, max: int64, reply: Reply,
                       offset: int64, limit: int64): Content
  {
    if loc.Nothing? then Refusal("absent")
    else if loc.value.unavailable != "" then Refusal(loc.value.unavailable)
    else if loc.value.driver == "" || loc.value.key == "" then Refusal("discarded")
    else if loc.value.driver != "s3" then Refusal("driver_unsupported")
    else if loc.value.expired then Refusal("ttl_expired")
    else if !enabled then Refusal("store_disabled")
    else
      match Get(reply, offset, EffectiveLimit(limit, max))
      case Gone => Refusal("expired")
      case Failed => Refusal("store_error")
      case Got(data, clipped) =>
        Content("", data, clipped || (loc.value.size > 0 && Wrap(offset + |data|) < loc.value.size))
  }

  predicate Addressable(loc: Maybe<Locator>, enabled: bool) {
    loc.Just? && loc.value.unavailable == "" && loc.value.driver == "s3" && loc.value.key != "" &&
    !loc.value.expired && enabled
  }

  // How a store answers a range request

  function Slice(stored: Bytes, offset: nat, limit: nat): Bytes {
    var lo := if offset < |stored| then offset else |stored|;
    var hi := if offset + limit < |stored| then offset + limit else |stored|;
    stored[lo..hi]
  }

  predicate HasMore(stored: Bytes, offset: nat, limit: nat) {
    |stored| > offset + limit
  }

  /** A correct answer (sections 14.2, 14.4, 15.3.7 and 15.5.17 of RFC 9110): the whole object, a
      part that starts at the offset and covers the range, or a refusal past the end. */
  predicate Serves(stored: Bytes, reply: Reply, offset: nat, limit: nat) {
    reply.Reply? &&
    match reply.status
    case 200 => reply.body == stored
    case 206 =>
      offset < |stored| && Slice(stored, offset, limit) <= reply.body <= stored[offset..] &&
      (RangeTotal(reply.contentRange) == Nothing || RangeTotal(reply.contentRange) == Just(|stored|))
    case 416 => offset >= |stored|
    case _ => false
  }

  /** The answer shows where the object ends, or that it goes on: it is whole, a refusal, names the
      total, or holds more than was asked for. */
  predicate Tells(reply: Reply, limit: nat)
    requires reply.Reply?
  {
    reply.status != 206 || RangeTotal(reply.contentRange).Just? || |reply.body| > limit
  }

  lemma FullWindowSlice(stored: Bytes, offset: int64, limit: int64)
    requires 0 <= offset && 0 < limit && |stored| + limit + 1 < TWO63
    ensures FullWindow(stored, offset, limit) ==
            Got(Slice(stored, offset, limit), HasMore(stored, offset, limit))
  {
    if offset < |stored| {
      var buf := Limited(stored, offset + limit + 1);
      if offset + limit < |stored| {
        assert buf[offset..offset + limit] == stored[offset..offset + limit];
      }
    } else {
      assert |Limited(stored, Wrap(offset + limit + 1))| <= |stored|;
    }
  }

  /** The 200, 206 and 416 paths all yield the same slice, and the clipped flag is set exactly when
      the object goes on and the answer shows it. */
  lemma GetServes(stored: Bytes, reply: Reply, offset: int64, limit: int64)
    requires 0 <= offset && 0 < limit && |stored| + limit + 1 < TWO63
    requires Serves(stored, reply, offset, limit)
    ensures Get(reply, offset, limit) ==
            Got(Slice(stored, offset, limit), HasMore(stored, offset, limit) && Tells(reply, limit))
  {
    hide RangeTotal;
    var slice := Slice(stored, offset, limit);
    if reply.status == 200 {
      FullWindowSlice(stored, offset, limit);
    } else if reply.status == 206 {
      var data := Limited(reply.body, limit + 1);
      var cut := if |data| > limit then data[..limit] else data;
      assert |slice| == if offset + limit < |stored| then limit else |stored| - offset;
      assert cut == slice;
    }
  }

  /** What a reader of the store gets, and exactly when its clipped flag tells whether the object
      goes on behind the window: a locator size beyond the end of the object misleads, and an
      answer that does not tell can only be made up for by the locator size. */
  lemma WindowServes(stored: Bytes, loc: Maybe<Locator>, enabled: bool, max: int64, reply: Reply,
                     offset: int64, limit: int64, n: int64)
    requires Addressable(loc, enabled) && 0 < max && |stored| + max + 1 < TWO63 && 0 <= offset
    requires n == (if 0 < limit <= max then limit else max) && Serves(stored, reply, offset, n)
    ensures var c := FetchWindow(loc, enabled, max, reply, offset, limit);
            && c.reason == "" && c.data == Slice(stored, offset, n)
            && (c.clipped == HasMore(stored, offset, n) <==>
                  if HasMore(stored, offset, n) then Tells(reply, n) || loc.value.size > offset + n
                  else loc.value.size <= offset + |c.data|)
  {
    hide RangeTotal, Get;
    GetServes(stored, reply, offset, n);
  }

  /** With the size of the object in the locator, or with no size there and an answer that tells,
      every correct answer gives the one right content. */
  lemma AnswersAgree(stored: Bytes, loc: Maybe<Locator>, enabled: bool, max: int64, reply: Reply,
                     offset: int64, limit: int64, n: int64)
    requires Addressable(loc, enabled) && 0 < max && |stored| + max + 1 < TWO63 && 0 <= offset
    requires n == (if 0 < limit <= max then limit else max) && Serves(stored, reply, offset, n)
    requires loc.value.size == |stored| || (loc.value.size == 0 && Tells(reply, n))
    ensures FetchWindow(loc, enabled, max, reply, offset, limit) ==
            Content("", Slice(stored, offset, n), HasMore(stored, offset, n))
  {
    hide RangeTotal, Limited, Get;
    GetServes(stored, reply, offset, n);
  }

  /** Every other way a fetch can end: nothing is shown and nothing is clipped, and the reason tells the
      first thing that is wrong; a refused range is no failure, the object just ends before it. */
  lemma FetchRefuses(loc: Maybe<Locator>, enabled: bool, max: int64, reply: Reply, offset: int64, limit: int64)
    requires 0 < max
    ensures var c := FetchWindow(loc, enabled, max, reply, offset, limit);
            && (c.reason != "" ==> c.data == [] && !c.clipped)
            && (loc == Nothing ==> c.reason == "absent")
            && (loc.Just? ==>
                  var l := loc.value;
                  && (l.unavailable != "" ==> c.reason == l.unavailable)
                  && (l.unavailable == "" && (l.driver == "" || l.key == "") ==> c.reason == "discarded")
                  && (l.unavailable == "" && l.driver !in {"", "s3"} && l.key != "" ==>
                        c.reason == "driver_unsupported")
                  && (l.unavailable == "" && l.driver == "s3" && l.key != "" && l.expired ==>
                        c.reason == "ttl_expired")
                  && (l.unavailable == "" && l.driver == "s3" && l.key != "" && !l.expired && !enabled ==>
                        c.reason == "store_disabled")
                  && (l.unavailable == "" && l.driver == "s3" && l.key != "" && !l.expired && enabled ==>
                        && (reply == NoReply ==> c.reason == "store_error")
                        && (reply.Reply? && reply.status == 404 ==> c.reason == "expired")
                        && (reply.Reply? && reply.status == 416 ==> c.reason == "" && c.data == [])
                        && (reply.Reply? && reply.status !in {404, 416} && !(200 <= reply.status < 300) ==>
                              c.reason == "store_error")
                        && (reply.Reply? && 200 <= reply.status < 300 ==> c.reason == "")))
  {
    hide RangeTotal, Limited;
  }

  /** A negative offset asks for the beginning. */
  lemma NegativeOffset(reply: Reply, offset: int64, limit: int64)
    requires offset < 0
    ensures Get(reply, offset, limit) == Get(reply, 0, limit)
  {
    hide RangeTotal, Limited;
  }

  /** A Content-Range header as section 14.4 of RFC 9110 writes it is read back to its total. */
  lemma {:induction false} RangeTotalOf(first: nat, last: nat, total: nat)
    requires total <= INT64_MAX
    ensures RangeTotal("bytes " + (Decimal(first) + "-" + Decimal(last)) + "/" + Decimal(total)) == Just(total)
  {
    hide Trim, Decimal, ParseNatural, IndexOf;
    var span, end := Decimal(first) + "-" + Decimal(last), Decimal(total);
    var rest := span + "/" + end;
    var header := "bytes " + span + "/" + end;
    assert header == "bytes " + rest && header[6..] == rest && header[..6] == "bytes ";
    assert Lower(header[..6]) == "bytes ";
    TrimNoop(header);
    TrimNoop(rest);
    assert '/' !in Decimal(first) && '/' !in Decimal(last) by {
      assert forall c :: c in Decimal(first) ==> IsDigit(c);
      assert forall c :: c in Decimal(last) ==> IsDigit(c);
    }
    IndexOfJoin(span, '/', end);
    assert rest[|span| + 1..] == end;
    assert end != "*" by {
      assert IsDigit(end[0]);
    }
    ParseDecimal(total);
  }

  /** A header that leaves the total open tells none. */
  lemma {:induction false} UnknownTotal(first: nat, last: nat)
    ensures RangeTotal("bytes " + (Decimal(first) + "-" + Decimal(last)) + "/*") == Nothing
  {
    hide Trim, Decimal, ParseNatural, IndexOf;
    var span := Decimal(first) + "-" + Decimal(last);
    var rest := span + "/" + "*";
    var header := "bytes " + span + "/*";
    assert header == "bytes " + rest && header[6..] == rest && header[..6] == "bytes ";
    assert Lower(header[..6]) == "bytes ";
    TrimNoop(header);
    TrimNoop(rest);
    assert '/' !in Decimal(first) && '/' !in Decimal(last) by {
      assert forall c :: c in Decimal(first) ==> IsDigit(c);
      assert forall c :: c in Decimal(last) ==> IsDigit(c);
    }
    IndexOfJoin(span, '/', "*");
    assert rest[|span| + 1..] == "*";
  }
}
