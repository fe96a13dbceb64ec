/** When a cached answer's times to live are the seconds it has left, and when they are not. */
module DnsAgeing {
  import opened DnsCache
  import opened DnsMessages
  import opened Wrappers

  ghost predicate EveryTtl(m: MessageValue, t: int) {
    forall i :: 0 <= i < |All(m)| ==> All(m)[i].ttl == t
  }

  ghost predicate Uniform(m: MessageValue) {
    forall i, j :: 0 <= i < |All(m)| && 0 <= j < |All(m)| ==> All(m)[i].ttl == All(m)[j].ttl
  }

  /** The answer is negative, and the first SOA record of its authority section gives a positive time. */
  predicate Governs(m: MessageValue, i: int) {
    |m.answer| == 0 && FirstSoa(m.ns, i) && m.ns[i].ttl > 0 && m.ns[i].minimum > 0
  }

  /** A rewritten time to live is taken as it is. Without one a negative answer gets the smaller of its first SOA
      record's time to live and minimum if that is positive, and any other the least positive time among its records. */
  lemma TtlMeans(m: MessageValue, rewrite: Option<Word>)
    ensures var t := TimeToLive(m, rewrite);
      && (rewrite.Some? ==> t == rewrite.value)
      && (rewrite.None? ==>
            && (forall i :: Governs(m, i) ==> SmallerOf(t, m.ns[i]))
            && ((forall i :: !Governs(m, i)) ==> LeastPositive(All(m), t)))
  {
    NarrowedIsLeast(All(m));
    NegativeMeans(m.ns);
    if rewrite.None? && |m.answer| == 0 && Negative(m.ns).Some? && Negative(m.ns).value > 0 {
      var i :| FirstSoa(m.ns, i);
      assert Governs(m, i);
    }
  }

  lemma AllLessened(m: MessageValue, d: Word)
    ensures All(Lessened(m, d)) == Less(All(m), d)
  {
  }

  lemma AllRetimed(m: MessageValue, t: Word)
    ensures All(Retimed(m, t)) == WithTtl(All(m), t)
  {
  }

  lemma WrapBack(t: Word, origin: Word, left: nat)
    requires left < 0x1_0000_0000
    ensures Wrap(t - Wrap(origin - left)) == left <==> t == origin
  {
    WrapTwice(t, origin, left);
  }

  lemma WrapTwice(t: Word, origin: Word, left: nat)
    requires left < 0x1_0000_0000
    ensures Wrap(t - Wrap(origin - left)) == Wrap(t - origin + left)
  {
    if origin >= left {
      assert Wrap(origin - left) == origin - left;
    } else {
      assert Wrap(origin - left) == origin - left + 0x1_0000_0000;
    }
  }

  lemma LessBack(rs: seq<RecordValue>, less: seq<RecordValue>, origin: Word, left: nat)
    requires left < 0x1_0000_0000 && less == Less(rs, Wrap(origin - left))
    ensures (forall i :: 0 <= i < |less| ==> less[i].ttl == left)
      <==> (forall i :: 0 <= i < |rs| ==> rs[i].ttl == origin)
  {
    forall i | 0 <= i < |rs| ensures less[i].ttl == left <==> rs[i].ttl == origin {
      WrapBack(rs[i].ttl, origin, left);
    }
  }

  lemma UniformAtLeast(m: MessageValue)
    ensures Uniform(m) <==> EveryTtl(m, Narrowed(0, All(m)))
  {
    var all, t := All(m), Narrowed(0, All(m));
    NarrowedIsLeast(all);
    if t > 0 {
      var k :| 0 <= k < |all| && all[k].ttl == t;
    } else {
      forall i | 0 <= i < |all| ensures all[i].ttl == t { assert all[i].ttl > 0 ==> 0 < t; }
    }
  }

  lemma HitPositive(m: MessageValue, left: nat)
    requires left < 0x1_0000_0000 && Narrowed(0, All(m)) > 0
    ensures EveryTtl(Aged(m, left), left) <==> EveryTtl(m, Narrowed(0, All(m)))
  {
    HitLess(m, Narrowed(0, All(m)), left);
  }

  lemma HitLess(m: MessageValue, origin: Word, left: nat)
    requires left < 0x1_0000_0000
    ensures EveryTtl(Lessened(m, Wrap(origin - left)), left) <==> EveryTtl(m, origin)
  {
    AllLessened(m, Wrap(origin - left));
    LessBack(All(m), All(Lessened(m, Wrap(origin - left))), origin, left);
  }

  lemma HitZero(m: MessageValue, left: nat)
    requires left < 0x1_0000_0000 && Narrowed(0, All(m)) == 0
    ensures EveryTtl(Aged(m, left), left)
  {
    AllRetimed(m, Wrap(left));
  }

  /** Every time to live handed out is the seconds left exactly when the cached records carry one and the same. */
  lemma HitExact(m: MessageValue, left: nat)
    requires left < 0x1_0000_0000
    ensures EveryTtl(Aged(m, left), left) <==> Uniform(m)
  {
    UniformAtLeast(m);
    if Narrowed(0, All(m)) > 0 {
      HitPositive(m, left);
    } else {
      HitZero(m, left);
      NoneIsZero(m);
    }
  }

  lemma NoneIsZero(m: MessageValue)
    requires Narrowed(0, All(m)) == 0
    ensures EveryTtl(m, 0)
  {
    NarrowedIsLeast(All(m));
  }

  // ---- What the rewrite after storing leaves in the cache ----

  lemma {:induction false} EdnsRetimed(extra: seq<RecordValue>, t: Word)
    ensures EdnsRecord(WithTtl(extra, t)).Some? == EdnsRecord(extra).Some?
    ensures EdnsRecord(extra).Some? ==>
      && EdnsRecord(WithTtl(extra, t)).value.ttl == t
      && EdnsRecord(WithTtl(extra, t)).value.cls == EdnsRecord(extra).value.cls
  {
    if |extra| > 0 {
      assert WithTtl(extra, t)[..|extra| - 1] == WithTtl(extra[..|extra| - 1], t);
      EdnsRetimed(extra[..|extra| - 1], t);
    }
  }

  lemma {:induction false} NoOptTtl(rs: seq<RecordValue>, t: Word)
    ensures |NoOpt(WithTtl(rs, t))| == |NoOpt(rs)|
    ensures forall i :: 0 <= i < |NoOpt(WithTtl(rs, t))| ==> NoOpt(WithTtl(rs, t))[i].ttl == t
  {
    if |rs| > 0 {
      assert WithTtl(rs, t)[..|rs| - 1] == WithTtl(rs[..|rs| - 1], t);
      NoOptTtl(rs[..|rs| - 1], t);
    }
  }

  /** The EDNS record is replaced by a fresh one: the query had one, and bits 16 to 23 of the new time to live,
      read as the answer's EDNS version, are not all zero. */
  predicate Replaced(response: MessageValue, request: MessageValue, t: Word) {
    EdnsRecord(response.extra).Some? && EdnsRecord(request.extra).Some? && Version(t) > 0
  }

  /** The answer has no record besides EDNS ones. */
  predicate Bare(response: MessageValue) {
    |response.answer| == 0 && |response.ns| == 0 && |NoOpt(response.extra)| == 0
  }

  lemma FreshDiffers(t: Word, size: nat)
    requires Version(t) > 0
    ensures FreshOpt(size, Do(t)).ttl != t
  {
  }

  lemma SimpleVersion(request: MessageValue)
    requires Simple(request)
    ensures EdnsRecord(request.extra).Some? ==> Version(EdnsRecord(request.extra).value.ttl) == 0
  {
    if |request.extra| == 1 { assert request.extra[..0] == []; }
  }

  lemma FinishedTtl(response: MessageValue, request: MessageValue, t: Word, i: nat)
    requires i < |All(Finished(response, request, t))|
    requires !Replaced(response, request, t) || i < |All(Finished(response, request, t))| - 1
    requires Simple(request)
    ensures All(Finished(response, request, t))[i].ttl == t
  {
    var f := Finished(response, request, t);
    var a, n := |response.answer|, |response.ns|;
    EdnsRetimed(response.extra, t);
    NoOptTtl(response.extra, t);
    SimpleVersion(request);
    if i < a {
      assert All(f)[i] == f.answer[i];
    } else if i < a + n {
      assert All(f)[i] == f.ns[i - a];
    } else {
      assert All(f)[i] == f.extra[i - a - n];
    }
  }

  /** For every answer to a simple request: the cached records carry one time to live exactly unless the EDNS
      record was replaced and another record remains. */
  lemma FinishedUniform(response: MessageValue, request: MessageValue, t: Word)
    requires Simple(request)
    ensures Uniform(Finished(response, request, t)) <==> !Replaced(response, request, t) || Bare(response)
  {
    var f := Finished(response, request, t);
    var all := All(f);
    EdnsRetimed(response.extra, t);
    NoOptTtl(response.extra, t);
    SimpleVersion(request);
    forall i | 0 <= i < |all| && (!Replaced(response, request, t) || i < |all| - 1) ensures all[i].ttl == t {
      FinishedTtl(response, request, t, i);
    }
    if Replaced(response, request, t) {
      var got := EdnsRecord(WithTtl(response.extra, t)).value;
      FreshDiffers(t, got.cls);
      assert f.extra == NoOpt(WithTtl(response.extra, t)) + [FreshOpt(got.cls, Do(t))];
      assert all[|all| - 1] == FreshOpt(got.cls, Do(t));
      assert |all| == |response.answer| + |response.ns| + |NoOpt(response.extra)| + 1;
      if !Bare(response) { assert all[0].ttl != all[|all| - 1].ttl; }
    }
  }

  /** An answer stored with a positive time to live and loaded while live: the seconds left are within it, and
      every record shows just those, exactly unless the EDNS record was replaced and another record remains. */
  lemma CachedTtl(response: MessageValue, request: MessageValue, t: Word, stored: int, now: int)
    requires Simple(request) && stored <= now <= stored + t * SECOND
    ensures var left := SecondsLeft(stored + t * SECOND, now);
      && left <= t
      && (EveryTtl(Aged(Finished(response, request, t), left), left)
        <==> !Replaced(response, request, t) || Bare(response))
  {
    var left := SecondsLeft(stored + t * SECOND, now);
    WholeSeconds(stored + t * SECOND - now, t);
    HitExact(Finished(response, request, t), left);
    FinishedUniform(response, request, t);
  }

  lemma WholeSeconds(d: int, t: int)
    requires 0 <= d <= t * SECOND
    ensures d / SECOND <= t
  {
  }

  // ---- Two loads of one answer ----

  lemma WrapOrder(a: int, b: int)
    requires a <= b < a + 0x1_0000_0000
    ensures Wrap(a) <= Wrap(b) <==> a / 0x1_0000_0000 == b / 0x1_0000_0000
  {
  }

  /** Of two loads of one cached message the later one shows a record with no more than the earlier did, exactly
      unless the 32-bit subtraction wraps around for that record in between. */
  lemma LoadsShrink(m: MessageValue, left: nat, later: nat, i: nat)
    requires later <= left < 0x1_0000_0000 && i < |All(m)|
    ensures |All(Aged(m, left))| == |All(Aged(m, later))| == |All(m)|
    ensures var origin, t := Narrowed(0, All(m)), All(m)[i].ttl;
      All(Aged(m, later))[i].ttl <= All(Aged(m, left))[i].ttl
      <==> origin == 0 || (t - origin + later) / 0x1_0000_0000 == (t - origin + left) / 0x1_0000_0000
  {
    var origin, t := Narrowed(0, All(m)), All(m)[i].ttl;
    AgedAt(m, left, i);
    AgedAt(m, later, i);
    WrapOrder(t - origin + later, t - origin + left);
  }

  /** What a load with so many seconds left shows of one record. */
  lemma AgedAt(m: MessageValue, left: nat, i: nat)
    requires left < 0x1_0000_0000 && i < |All(m)|
    ensures |All(Aged(m, left))| == |All(m)|
    ensures All(Aged(m, left))[i].ttl ==
      if Narrowed(0, All(m)) > 0 then Wrap(All(m)[i].ttl - Narrowed(0, All(m)) + left) else left
  {
    var origin := Narrowed(0, All(m));
    if origin > 0 {
      LessenedAt(m, Wrap(origin - left), i);
      WrapTwice(All(m)[i].ttl, origin, left);
    } else {
      AllRetimed(m, Wrap(left));
    }
  }

  lemma LessenedAt(m: MessageValue, d: Word, i: nat)
    requires i < |All(m)|
    ensures |All(Lessened(m, d))| == |All(m)| && All(Lessened(m, d))[i].ttl == Wrap(All(m)[i].ttl - d)
  {
    AllLessened(m, d);
  }

  /** Two loads of a stored answer, one after the other while it is live: no record comes out with more the second
      time, unless the EDNS record was replaced and another record remains. */
  lemma NeverGrows(response: MessageValue, request: MessageValue, t: Word, stored: int, now: int, later: int, i: nat)
    requires Simple(request) && (!Replaced(response, request, t) || Bare(response))
    requires stored <= now <= later <= stored + t * SECOND && i < |All(Finished(response, request, t))|
    ensures var f, expires := Finished(response, request, t), stored + t * SECOND;
      var first, second := All(Aged(f, SecondsLeft(expires, now))), All(Aged(f, SecondsLeft(expires, later)));
      |first| == |second| == |All(f)| && second[i].ttl <= first[i].ttl
  {
    var f, expires := Finished(response, request, t), stored + t * SECOND;
    CachedTtl(response, request, t, stored, now);
    CachedTtl(response, request, t, stored, later);
    LessLeft(expires, now, later);
    LoadsShrink(f, SecondsLeft(expires, now), SecondsLeft(expires, later), i);
  }

  lemma LessLeft(expires: int, now: int, later: int)
    requires now <= later <= expires
    ensures SecondsLeft(expires, later) <= SecondsLeft(expires, now)
  {
  }

  // ---- A day-long answer ----

  function Address(ttl: Word): RecordValue { RecordValue(1, 1, ttl, 0, []) }

  function BareOpt(size: nat): RecordValue { RecordValue(OPT, size, 0, 0, []) }

  /** A query with a bare EDNS record, and an answer with one address and an EDNS record. */
  function DayRequest(): MessageValue { MessageValue(1, 0, [Question("a.", 1, 1)], [], [], [BareOpt(1232)]) }

  function DayResponse(ttl: Word): MessageValue {
    MessageValue(1, 0, [Question("a.", 1, 1)], [Address(ttl)], [], [BareOpt(1232)])
  }

  lemma DayParts(t: Word)
    requires Version(t) > 0
    ensures Finished(DayResponse(t), DayRequest(), t).answer == [Address(t)]
    ensures Finished(DayResponse(t), DayRequest(), t).ns == []
    ensures Finished(DayResponse(t), DayRequest(), t).extra == [FreshOpt(1232, Do(t))]
  {
    var extra := [BareOpt(1232).(ttl := t)];
    assert WithTtl([BareOpt(1232)], t) == extra;
    assert NoOpt(extra) == [] by { assert extra[..0] == []; }
  }

  lemma DayFinished(t: Word)
    requires Version(t) > 0
    ensures All(Finished(DayResponse(t), DayRequest(), t)) == [Address(t), FreshOpt(1232, Do(t))]
    ensures Narrowed(0, All(Finished(DayResponse(t), DayRequest(), t))) == if Do(t) then 32768 else t
    ensures Finished(DayResponse(t), DayRequest(), t).answer == [Address(t)]
    ensures Finished(DayResponse(t), DayRequest(), t).extra == [FreshOpt(1232, Do(t))]
  {
    DayParts(t);
    TwoNarrowed(Address(t), FreshOpt(1232, Do(t)));
  }

  lemma DayTimes(t: Word)
    ensures Simple(DayRequest()) && TimeToLive(DayResponse(t), None) == t
  {
    assert All(DayResponse(t)) == [Address(t), BareOpt(1232)];
    TwoNarrowed(Address(t), BareOpt(1232));
  }

  lemma TwoNarrowed(a: RecordValue, b: RecordValue)
    ensures Narrowed(0, [a, b]) == Narrower(Narrower(0, a), b)
  {
    assert [a, b][..1] == [a] && [a][..0] == [];
    assert Narrowed(0, [a][..0]) == 0;
    assert Narrowed(0, [a]) == Narrower(0, a);
    assert Narrowed(0, [a, b]) == Narrower(Narrowed(0, [a, b][..1]), [a, b][1]);
  }

  lemma OneAged(m: MessageValue, a: RecordValue, b: RecordValue, left: nat, less: Word)
    requires m.answer == [a] && m.extra == [b]
    requires Narrowed(0, All(m)) > 0 && Wrap(Narrowed(0, All(m)) - left) == less
    ensures Aged(m, left).answer == [a.(ttl := Wrap(a.ttl - less))]
    ensures Aged(m, left).extra == [b.(ttl := Wrap(b.ttl - less))]
  {
    assert Aged(m, left) == Lessened(m, less);
  }

  /** What such an answer is once stored, for the times to live around a day: the EDNS version they read as is not 0,
      so the record is replaced, and keeps the bit they read as. */
  lemma DayStored(t: Word, secure: bool)
    requires if secure then 98304 <= t < 131072 else 65536 <= t < 98304
    ensures var f := Finished(DayResponse(t), DayRequest(), t);
      && f.answer == [Address(t)] && f.extra == [FreshOpt(1232, secure)]
      && Narrowed(0, All(f)) == if secure then 32768 else t
  {
    assert Version(t) == 1 && Do(t) == secure;
    DayFinished(t);
  }

  /** One second later the EDNS record comes out with a time to live of 2^32 - 1. */
  lemma DayLongAnswerWraps(t: Word)
    requires 65536 <= t < 98304
    ensures Simple(DayRequest()) && TimeToLive(DayResponse(t), None) == t
    ensures var f := Aged(Finished(DayResponse(t), DayRequest(), t), t - 1);
      |f.extra| == 1 && f.extra[0].ttl == 0xFFFF_FFFF
  {
    DayTimes(t);
    DayStored(t, false);
    OneAged(Finished(DayResponse(t), DayRequest(), t), Address(t), FreshOpt(1232, false), t - 1, 1);
  }

  /** With the DNSSEC bit set in the stored time to live an address record comes out above what was stored. */
  lemma DayLongAnswerGrows(t: Word)
    requires 98304 <= t < 131072
    ensures Simple(DayRequest()) && TimeToLive(DayResponse(t), None) == t
    ensures var f := Aged(Finished(DayResponse(t), DayRequest(), t), t - 1);
      |f.answer| == 1 && f.answer[0].ttl == 2 * t - 32769 > t
  {
    DayTimes(t);
    DayStored(t, true);
    GrownTtl(t);
    OneAged(Finished(DayResponse(t), DayRequest(), t), Address(t), FreshOpt(1232, true), t - 1, 0x1_0000_8001 - t);
  }

  lemma GrownTtl(t: Word)
    requires 98304 <= t < 131072
    ensures Wrap(32768 - (t - 1)) == 0x1_0000_8001 - t && Wrap(t - (0x1_0000_8001 - t)) == 2 * t - 32769
  {
  }
}
