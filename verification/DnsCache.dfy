/** The life of an answer: one time to live on every record, stored, then changed once more, then aged on loading. */
module DnsCache {
  import opened DnsMessages
  import opened Wrappers

  const SECOND := 1_000_000_000

  function Wrap(x: int): Word {
    x % 0x1_0000_0000
  }

  function All(m: MessageValue): seq<RecordValue> {
    m.answer + m.ns + m.extra
  }

  // ---- The time to live of an answer ----

  /** One record more in the search for the least positive time to live. */
  function Narrower(t: Word, r: RecordValue): Word {
    if t == 0 || (r.ttl > 0 && r.ttl < t) then r.ttl else t
  }

  function Narrowed(t: Word, rs: seq<RecordValue>): Word {
    if |rs| == 0 then t else Narrower(Narrowed(t, rs[..|rs| - 1]), rs[|rs| - 1])
  }

  /** The least positive time to live among the records, 0 if there is none. */
  ghost predicate LeastPositive(rs: seq<RecordValue>, t: Word) {
    && (t > 0 ==> exists i :: 0 <= i < |rs| && rs[i].ttl == t)
    && (forall i :: 0 <= i < |rs| && rs[i].ttl > 0 ==> 0 < t <= rs[i].ttl)
  }

  lemma {:induction false} NarrowedIsLeast(rs: seq<RecordValue>)
    ensures LeastPositive(rs, Narrowed(0, rs))
  {
    if |rs| > 0 {
      var front := rs[..|rs| - 1];
      NarrowedIsLeast(front);
      var t, u := Narrowed(0, front), Narrowed(0, rs);
      if t > 0 {
        var i :| 0 <= i < |front| && front[i].ttl == t;
        assert rs[i].ttl == t;
      }
      assert u == t || u == rs[|rs| - 1].ttl;
      forall i | 0 <= i < |rs| && rs[i].ttl > 0 ensures 0 < u <= rs[i].ttl {
        if i < |front| { assert front[i].ttl > 0; }
      }
    }
  }

  lemma {:induction false} NarrowedConcat(t: Word, a: seq<RecordValue>, b: seq<RecordValue>)
    ensures Narrowed(t, a + b) == Narrowed(Narrowed(t, a), b)
  {
    if |b| == 0 {
      assert a + b == a;
    } else {
      assert (a + b)[..|a + b| - 1] == a + b[..|b| - 1];
      NarrowedConcat(t, a, b[..|b| - 1]);
    }
  }

  lemma NarrowedAll(m: MessageValue)
    ensures Narrowed(0, All(m)) == Narrowed(Narrowed(Narrowed(0, m.answer), m.ns), m.extra)
  {
    NarrowedConcat(0, m.answer, m.ns);
    NarrowedConcat(0, m.answer + m.ns, m.extra);
  }

  /** The first SOA record gives a negative answer's time to live: the smaller of its own and its minimum. */
  function Negative(ns: seq<RecordValue>): Option<Word> {
    if |ns| == 0 then None
    else if ns[0].rrtype == SOA then Some(if ns[0].ttl < ns[0].minimum then ns[0].ttl else ns[0].minimum)
    else Negative(ns[1..])
  }

  /** The first SOA record of a section: type 6 in section 3.2.2 of RFC 1035. */
  predicate FirstSoa(ns: seq<RecordValue>, i: int) {
    0 <= i < |ns| && ns[i].rrtype == 6 && forall j :: 0 <= j < i ==> ns[j].rrtype != 6
  }

  /** The smaller of the record's time to live and its minimum. */
  predicate SmallerOf(t: Word, r: RecordValue) {
    t <= r.ttl && t <= r.minimum && (t == r.ttl || t == r.minimum)
  }

  /** There is one exactly if the section has an SOA record, and it is the first one's: section 5 of RFC 2308. */
  lemma {:induction false} NegativeMeans(ns: seq<RecordValue>)
    ensures Negative(ns).Some? <==> exists i :: 0 <= i < |ns| && ns[i].rrtype == 6
    ensures Negative(ns).Some? <==> exists i :: FirstSoa(ns, i)
    ensures forall i :: FirstSoa(ns, i) ==> Negative(ns).Some? && SmallerOf(Negative(ns).value, ns[i])
  {
    if |ns| == 0 {
    } else if ns[0].rrtype == SOA {
      assert FirstSoa(ns, 0);
    } else {
      var rest := ns[1..];
      NegativeMeans(rest);
      forall i | FirstSoa(ns, i) ensures FirstSoa(rest, i - 1) {
        forall j | 0 <= j < i - 1 ensures rest[j].rrtype != 6 { assert rest[j] == ns[j + 1]; }
      }
      if exists i :: FirstSoa(rest, i) {
        var i :| FirstSoa(rest, i);
        assert ns[i + 1] == rest[i];
        assert FirstSoa(ns, i + 1);
      }
    }
  }

  function TimeToLive(m: MessageValue, rewrite: Option<Word>): Word {
    if rewrite.Some? then rewrite.value
    else if |m.answer| == 0 && Negative(m.ns).Some? && Negative(m.ns).value > 0 then Negative(m.ns).value
    else Narrowed(0, All(m))
  }

  method ExtractNegative(ns: seq<Record>) returns (t: Option<Word>)
    ensures t == Negative(Values(ns)) && (t.Some? <==> exists i :: 0 <= i < |ns| && ns[i].rrtype == 6)
    ensures forall i :: FirstSoa(Values(ns), i) ==> t.Some? && SmallerOf(t.value, Values(ns)[i])
  {
    var i := 0;
    ghost var vs := Values(ns);
    NegativeMeans(vs);
    assert forall i :: 0 <= i < |ns| ==> vs[i].rrtype == ns[i].rrtype;
    while i < |ns|
      invariant 0 <= i <= |ns| && Negative(vs) == Negative(vs[i..])
    {
      if ns[i].rrtype == SOA {
        var own, minimum := ns[i].ttl, ns[i].minimum;
        return Some(if own < minimum then own else minimum);
      }
      assert vs[i..][1..] == vs[i + 1..];
      i := i + 1;
    }
    return None;
  }

  method Narrow(rs: seq<Record>, from: Word) returns (t: Word)
    ensures t == Narrowed(from, Values(rs))
  {
    t := from;
    var i := 0;
    ghost var vs := Values(rs);
    while i < |rs|
      invariant 0 <= i <= |rs| && t == Narrowed(from, vs[..i])
    {
      assert vs[..i + 1][..i] == vs[..i];
      if t == 0 || (rs[i].ttl > 0 && rs[i].ttl < t) { t := rs[i].ttl; }
      i := i + 1;
    }
    assert vs[..i] == vs;
  }

  method LeastTtl(m: Message) returns (t: Word)
    ensures t == Narrowed(0, All(m.Value()))
  {
    t := Narrow(m.answer, 0);
    t := Narrow(m.ns, t);
    t := Narrow(m.extra, t);
    NarrowedAll(m.Value());
  }

  method ComputeTtl(m: Message, rewrite: Option<Word>) returns (t: Word)
    ensures t == TimeToLive(m.Value(), rewrite)
  {
    t := 0;
    if |m.answer| == 0 {
      var negative := ExtractNegative(m.ns);
      if negative.Some? { t := negative.value; }
    }
    if t == 0 { t := LeastTtl(m); }
    if rewrite.Some? { t := rewrite.value; }
  }

  // ---- Setting and ageing ----

  /** Every record of the message, and what else it has, is as in the other but for times to live. */
  predicate SameButTtl(m: MessageValue, n: MessageValue) {
    m == n.(answer := m.answer, ns := m.ns, extra := m.extra)
    && SameRecords(m.answer, n.answer) && SameRecords(m.ns, n.ns) && SameRecords(m.extra, n.extra)
  }

  predicate SameRecords(a: seq<RecordValue>, b: seq<RecordValue>) {
    |a| == |b| && forall i :: 0 <= i < |a| ==> a[i] == b[i].(ttl := a[i].ttl)
  }

  function WithTtl(rs: seq<RecordValue>, t: Word): (r: seq<RecordValue>)
    ensures |r| == |rs| && forall i :: 0 <= i < |rs| ==> r[i] == rs[i].(ttl := t)
  {
    seq(|rs|, i requires 0 <= i < |rs| => rs[i].(ttl := t))
  }

  function Less(rs: seq<RecordValue>, d: Word): (r: seq<RecordValue>)
    ensures |r| == |rs| && forall i :: 0 <= i < |rs| ==> r[i] == rs[i].(ttl := Wrap(rs[i].ttl - d))
  {
    seq(|rs|, i requires 0 <= i < |rs| => rs[i].(ttl := Wrap(rs[i].ttl - d)))
  }

  method SetTtls(rs: seq<Record>, t: Word)
    modifies rs
    ensures Values(rs) == WithTtl(old(Values(rs)), t)
    ensures forall r :: r in rs ==> r.ttl == t && r.cls == old(r.cls) && r.options == old(r.options)
  {
    var i := 0;
    while i < |rs|
      invariant 0 <= i <= |rs|
      invariant forall k :: 0 <= k < i ==> rs[k].ttl == t
      invariant forall r :: r in rs ==> r.cls == old(r.cls) && r.options == old(r.options)
    {
      assert rs[i] in rs;
      rs[i].ttl := t;
      i := i + 1;
    }
  }

  method Subtract(rs: seq<Record>, d: Word)
    requires Distinct(rs)
    modifies rs
    ensures Values(rs) == Less(old(Values(rs)), d)
  {
    var i := 0;
    while i < |rs|
      invariant 0 <= i <= |rs|
      invariant forall k :: 0 <= k < |rs| ==>
        rs[k].Value() == if k < i then old(rs[k].Value()).(ttl := Wrap(old(rs[k].ttl) - d)) else old(rs[k].Value())
    {
      rs[i].ttl := Wrap(rs[i].ttl - d);
      i := i + 1;
    }
  }

  function Retimed(m: MessageValue, t: Word): MessageValue {
    m.(answer := WithTtl(m.answer, t), ns := WithTtl(m.ns, t), extra := WithTtl(m.extra, t))
  }

  function Lessened(m: MessageValue, d: Word): MessageValue {
    m.(answer := Less(m.answer, d), ns := Less(m.ns, d), extra := Less(m.extra, d))
  }

  ghost function Records(m: Message): seq<Record>
    reads m
  {
    m.answer + m.ns + m.extra
  }

  lemma SplitAt(m: Message)
    ensures forall i :: 0 <= i < |m.answer| ==> Records(m)[i] == m.answer[i]
    ensures forall i :: 0 <= i < |m.ns| ==> Records(m)[|m.answer| + i] == m.ns[i]
    ensures forall i :: 0 <= i < |m.extra| ==> Records(m)[|m.answer| + |m.ns| + i] == m.extra[i]
  {
  }

  /** Every record gets one time to live. */
  method SetAll(m: Message, t: Word)
    modifies m.answer, m.ns, m.extra
    ensures m.Value() == Retimed(old(m.Value()), t)
  {
    SplitAt(m);
    SetTtls(m.answer + m.ns + m.extra, t);
    forall i | 0 <= i < |m.answer| ensures m.answer[i].Value() == old(m.answer[i].Value()).(ttl := t) {
      assert m.answer[i] in Records(m);
    }
    forall i | 0 <= i < |m.ns| ensures m.ns[i].Value() == old(m.ns[i].Value()).(ttl := t) {
      assert m.ns[i] in Records(m);
    }
    forall i | 0 <= i < |m.extra| ensures m.extra[i].Value() == old(m.extra[i].Value()).(ttl := t) {
      assert m.extra[i] in Records(m);
    }
  }

  lemma RecordsValue(m: Message)
    ensures Values(Records(m)) == m.Value().answer + m.Value().ns + m.Value().extra
  {
    ValuesConcat(m.answer, m.ns);
    ValuesConcat(m.answer + m.ns, m.extra);
  }

  lemma LessSplits(a: seq<RecordValue>, n: seq<RecordValue>, e: seq<RecordValue>,
                   a': seq<RecordValue>, n': seq<RecordValue>, e': seq<RecordValue>, d: Word)
    requires a' + n' + e' == Less(a + n + e, d) && |a| == |a'| && |n| == |n'| && |e| == |e'|
    ensures a' == Less(a, d) && n' == Less(n, d) && e' == Less(e, d)
  {
    var all, all' := a + n + e, a' + n' + e';
    forall i | 0 <= i < |a| ensures a'[i] == Less(a, d)[i] { assert all'[i] == Less(all, d)[i]; }
    forall i | 0 <= i < |n| ensures n'[i] == Less(n, d)[i] { assert all'[|a| + i] == Less(all, d)[|a| + i]; }
    forall i | 0 <= i < |e| ensures e'[i] == Less(e, d)[i] {
      assert all'[|a| + |n| + i] == Less(all, d)[|a| + |n| + i];
    }
  }

  /** Every record's time to live goes down by the same, in 32-bit arithmetic. */
  method LessenAll(m: Message, d: Word)
    requires Distinct(m.answer) && Distinct(m.ns) && Distinct(m.extra)
    requires Apart(m.answer, m.ns) && Apart(m.answer, m.extra) && Apart(m.ns, m.extra)
    modifies m.answer, m.ns, m.extra
    ensures m.Value() == Lessened(old(m.Value()), d)
  {
    DistinctConcat(m.answer, m.ns);
    assert Apart(m.answer + m.ns, m.extra);
    DistinctConcat(m.answer + m.ns, m.extra);
    RecordsValue(m);
    Subtract(m.answer + m.ns + m.extra, d);
    RecordsValue(m);
    LessSplits(old(m.Value()).answer, old(m.Value()).ns, old(m.Value()).extra,
               m.Value().answer, m.Value().ns, m.Value().extra, d);
  }

  // ---- The EDNS rewrite after storing ----

  /** The last OPT record, where a message's EDNS record is looked for. */
  function EdnsRecord(extra: seq<RecordValue>): Option<RecordValue> {
    if |extra| == 0 then None
    else if extra[|extra| - 1].rrtype == OPT then Some(extra[|extra| - 1])
    else EdnsRecord(extra[..|extra| - 1])
  }

  /** In an OPT record the time to live holds the version and, as its bit 15, the DNSSEC flag. */
  function Version(t: Word): nat { t / 65536 % 256 }

  predicate Do(t: Word) { t / 32768 % 2 == 1 }

  function NoOpt(rs: seq<RecordValue>): seq<RecordValue> {
    if |rs| == 0 then []
    else
      var front := NoOpt(rs[..|rs| - 1]);
      if rs[|rs| - 1].rrtype == OPT then front else front + [rs[|rs| - 1]]
  }

  function FreshOpt(size: nat, secure: bool): RecordValue {
    RecordValue(OPT, size, if secure then 32768 else 0, 0, [])
  }

  /** The additional records as the asker may see them: its own EDNS version at most. */
  function Negotiated(extra: seq<RecordValue>, asked: Option<RecordValue>): seq<RecordValue> {
    var got := EdnsRecord(extra);
    if got.Some? && (asked.None? || Version(asked.value.ttl) < Version(got.value.ttl)) then
      NoOpt(extra) + if asked.Some? then [FreshOpt(got.value.cls, Do(got.value.ttl))] else []
    else extra
  }

  /** The answer as handed out, and as it then stands in the cache: the same object. */
  function Finished(response: MessageValue, request: MessageValue, t: Word): MessageValue {
    HandedOut(Retimed(response, t), request.id, EdnsRecord(request.extra))
  }

  function HandedOut(r: MessageValue, id: nat, asked: Option<RecordValue>): MessageValue {
    r.(id := id, extra := Negotiated(r.extra, asked))
  }

  method FindEdns(extra: seq<Record>) returns (r: Option<Record>)
    ensures r.Some? <==> EdnsRecord(Values(extra)).Some?
    ensures r.Some? ==> r.value in extra && r.value.Value() == EdnsRecord(Values(extra)).value
  {
    var i := |extra| - 1;
    ghost var vs := Values(extra);
    assert vs[..|extra|] == vs;
    while i >= 0
      invariant -1 <= i < |extra| && EdnsRecord(vs) == EdnsRecord(vs[..i + 1])
    {
      if extra[i].rrtype == OPT { return Some(extra[i]); }
      assert vs[..i + 1][..i] == vs[..i];
      i := i - 1;
    }
    return None;
  }

  method DropOpt(rs: seq<Record>) returns (kept: seq<Record>)
    ensures Values(kept) == NoOpt(Values(rs)) && forall r :: r in kept ==> r in rs
  {
    kept := [];
    var i := 0;
    ghost var vs := Values(rs);
    while i < |rs|
      invariant 0 <= i <= |rs| && Values(kept) == NoOpt(vs[..i]) && forall r :: r in kept ==> r in rs
    {
      assert vs[..i + 1][..i] == vs[..i];
      if rs[i].rrtype != OPT {
        assert Values(kept + [rs[i]]) == Values(kept) + [rs[i].Value()];
        kept := kept + [rs[i]];
      }
      i := i + 1;
    }
    assert vs[..i] == vs;
  }

  /** The rewrite, on the message itself. */
  method Negotiate(response: Message, request: Message)
    requires response != request
    modifies response`extra
    ensures response.Value()
      == old(response.Value()).(extra := Negotiated(old(response.Value()).extra, EdnsRecord(request.Value().extra)))
  {
    ghost var answer, ns := Values(response.answer), Values(response.ns);
    var extra := NegotiatedRecords(response.extra, request.extra);
    response.extra := extra;
    assert Values(response.answer) == answer && Values(response.ns) == ns;
  }

  method NegotiatedRecords(extra: seq<Record>, theirs: seq<Record>) returns (kept: seq<Record>)
    ensures Values(kept) == Negotiated(Values(extra), EdnsRecord(Values(theirs)))
  {
    kept := extra;
    var asked := FindEdns(theirs);
    var got := FindEdns(extra);
    if got.Some? && (asked.None? || Version(asked.value.ttl) < Version(got.value.ttl)) {
      kept := DropOpt(extra);
      if asked.Some? { kept := AddOpt(kept, got.value.cls, Do(got.value.ttl)); }
    }
  }

  method AddOpt(rs: seq<Record>, size: nat, secure: bool) returns (all: seq<Record>)
    ensures Values(all) == Values(rs) + [FreshOpt(size, secure)]
  {
    var opt := new Record(FreshOpt(size, secure));
    all := rs + [opt];
    assert Values([opt]) == [FreshOpt(size, secure)];
    ValuesConcat(rs, [opt]);
  }

  // ---- The cache ----

  datatype Key = Key(question: Question, transport: Option<string>)

  datatype Entry = Entry(message: Message, expires: int)

  /** Whole seconds until an answer expires. */
  function SecondsLeft(expires: int, now: int): (s: nat)
    requires now <= expires
    ensures s * 1_000_000_000 <= expires - now < (s + 1) * 1_000_000_000
  {
    (expires - now) / SECOND
  }

  /** A cached answer as it is handed out with so many seconds left. */
  function Aged(m: MessageValue, left: nat): MessageValue {
    AgedFrom(m, Narrowed(0, All(m)), left)
  }

  function AgedFrom(m: MessageValue, origin: Word, left: nat): MessageValue {
    if origin > 0 then Lessened(m, Wrap(origin - left)) else Retimed(m, Wrap(left))
  }

  class Cache {
    var entries: map<Key, Entry>
    const keepForever: bool

    constructor (keepForever: bool)
      ensures entries == map[] && this.keepForever == keepForever
    {
      entries := map[];
      this.keepForever := keepForever;
    }

    method Store(key: Key, m: Message, t: Word, now: int)
      modifies this
      ensures entries == if t == 0 then old(entries) else old(entries)[key := Entry(m, now + t * SECOND)]
    {
      if t == 0 { return; }
      entries := entries[key := Entry(m, now + t * SECOND)];
    }

    /** A live answer comes back as a copy with its times to live brought down; the cached message stays as it is. */
    method Load(key: Key, now: int) returns (m: Option<Message>, left: nat)
      modifies this
      ensures m.Some? <==> key in old(entries) && (keepForever || now <= old(entries)[key].expires)
      ensures entries == if key in old(entries) && m.None? then old(entries) - {key} else old(entries)
      ensures m.Some? ==>
        var e := old(entries)[key];
        && fresh(m.value) && e.message.Value() == old(e.message.Value())
        && m.value.Value() == (if keepForever then old(e.message.Value())
                               else Aged(old(e.message.Value()), SecondsLeft(e.expires, now)))
    {
      left := 0;
      if key !in entries { return None, 0; }
      var entry := entries[key];
      if keepForever {
        var copy := entry.message.Copy();
        return Some(copy), 0;
      }
      if now > entry.expires {
        entries := entries - {key};
        return None, 0;
      }
      left := SecondsLeft(entry.expires, now);
      var copy := AgeCopy(entry.message, left);
      m := Some(copy);
    }
  }

  method AgeCopy(message: Message, left: nat) returns (copy: Message)
    ensures fresh(copy) && copy.Value() == Aged(old(message.Value()), left)
  {
    ghost var v := message.Value();
    var origin := LeastTtl(message);
    assert origin == Narrowed(0, All(v));
    copy := message.Copy();
    assert copy.Value() == v;
    Age(copy, origin, left);
  }

  method Age(copy: Message, origin: Word, left: nat)
    requires Distinct(copy.answer) && Distinct(copy.ns) && Distinct(copy.extra)
    requires Apart(copy.answer, copy.ns) && Apart(copy.answer, copy.extra) && Apart(copy.ns, copy.extra)
    modifies set r | r in copy.answer || r in copy.ns || r in copy.extra
    ensures copy.Value() == AgedFrom(old(copy.Value()), origin, left)
  {
    if origin > 0 {
      LessenAll(copy, Wrap(origin - left));
    } else {
      SetAll(copy, Wrap(left));
    }
  }

  /** The answer's records are not the query's. */
  ghost predicate OwnRecords(request: Message, response: Message)
    reads request, response
  {
    Apart(request.extra, response.answer) && Apart(request.extra, response.ns) && Apart(request.extra, response.extra)
  }

  /** The time to live goes onto every record, and the answer into the cache. */
  method Settle(cache: Cache, key: Key, cacheable: bool, request: Message, response: Message, t: Word, now: int)
    requires OwnRecords(request, response)
    modifies cache, response.answer, response.ns, response.extra
    ensures response.Value() == Retimed(old(response.Value()), t)
    ensures Values(request.extra) == old(Values(request.extra))
    ensures cache.entries ==
      if cacheable && t > 0 then old(cache.entries)[key := Entry(response, now + t * SECOND)]
      else old(cache.entries)
  {
    ghost var asked := Values(request.extra);
    SetAll(response, t);
    forall k | 0 <= k < |request.extra| ensures request.extra[k].Value() == asked[k] {
      assert request.extra[k] in request.extra;
    }
    if cacheable { cache.Store(key, response, t, now); }
  }

  method HandOut(response: Message, request: Message)
    requires response != request
    modifies response
    ensures response.Value() == HandedOut(old(response.Value()), request.id, EdnsRecord(old(Values(request.extra))))
  {
    response.id := request.id;
    Negotiate(response, request);
  }

  method FinishWith(cache: Cache, key: Key, cacheable: bool, request: Message, response: Message, t: Word, now: int)
    requires response != request && OwnRecords(request, response)
    modifies cache, response, response.answer, response.ns, response.extra
    ensures response.Value()
      == HandedOut(Retimed(old(response.Value()), t), old(request.id), EdnsRecord(old(Values(request.extra))))
    ensures cache.entries ==
      if cacheable && t > 0 then old(cache.entries)[key := Entry(response, now + t * SECOND)]
      else old(cache.entries)
  {
    ghost var got, asked := response.Value(), EdnsRecord(Values(request.extra));
    Settle(cache, key, cacheable, request, response, t, now);
    HandOut(response, request);
    assert response.Value() == HandedOut(Retimed(got, t), request.id, asked);
  }

  const SUCCESS := 0
  const NAME_ERROR := 3

  predicate Storable(rcode: nat) {
    rcode == SUCCESS || rcode == NAME_ERROR
  }

  /** The end of an exchange: the answer gets its time to live, is stored, and is then rewritten for the asker. Only a
      success and a name error are stored, codes 0 and 3 in section 4.1.1 of RFC 1035. */
  method Finish(cache: Cache, key: Key, usesCache: bool, request: Message, response: Message, rewrite: Option<Word>,
                now: int)
    returns (t: Word)
    requires response != request && OwnRecords(request, response)
    modifies cache, response, response.answer, response.ns, response.extra
    ensures t == TimeToLive(old(response.Value()), rewrite)
    ensures response.Value() == Finished(old(response.Value()), old(request.Value()), t)
    ensures cache.entries ==
      if usesCache && (old(response.rcode) == 0 || old(response.rcode) == 3) && t > 0 then
        old(cache.entries)[key := Entry(response, now + t * SECOND)]
      else old(cache.entries)
  {
    t := ComputeTtl(response, rewrite);
    FinishWith(cache, key, usesCache && Storable(response.rcode), request, response, t, now);
  }
}
