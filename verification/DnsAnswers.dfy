/** What an exchange leaves of an answer, and what loading changes of it, record by record. */
module DnsAnswers {
  import opened DnsAgeing
  import opened DnsCache
  import opened DnsMessages
  import opened Wrappers

  // ---- EDNS records ----

  /** The last OPT record of a section: type 41 in section 6.1.2 of RFC 6891. */
  predicate LastOpt(rs: seq<RecordValue>, k: int) {
    0 <= k < |rs| && rs[k].rrtype == 41 && forall j :: k < j < |rs| ==> rs[j].rrtype != 41
  }

  /** A message's EDNS record is its last OPT record. */
  lemma {:induction false} EdnsIsLast(rs: seq<RecordValue>)
    ensures EdnsRecord(rs).Some? <==> exists k :: LastOpt(rs, k)
    ensures forall k :: LastOpt(rs, k) ==> EdnsRecord(rs) == Some(rs[k])
  {
    if |rs| > 0 {
      var n := |rs| - 1;
      if rs[n].rrtype == OPT {
        assert LastOpt(rs, n);
      } else {
        EdnsIsLast(rs[..n]);
        forall k ensures LastOpt(rs, k) <==> LastOpt(rs[..n], k) { OptBefore(rs, k); }
        assert (exists k :: LastOpt(rs, k)) <==> (exists k :: LastOpt(rs[..n], k));
      }
    }
  }

  lemma OptBefore(rs: seq<RecordValue>, k: int)
    requires |rs| > 0 && rs[|rs| - 1].rrtype != OPT
    ensures LastOpt(rs, k) <==> LastOpt(rs[..|rs| - 1], k)
  {
    var front := rs[..|rs| - 1];
    if LastOpt(front, k) {
      forall j | k < j < |rs| ensures rs[j].rrtype != 41 { assert j < |front| ==> front[j].rrtype != 41; }
    }
  }

  /** The version and the flag are where section 6.1.3 of RFC 6891 packs them into the time to live. */
  lemma Packed(code: nat, version: nat, secure: bool, rest: nat)
    requires code < 0x100 && version < 0x100 && rest < 0x8000
    ensures var t := code * 0x100_0000 + version * 0x1_0000 + (if secure then 0x8000 else 0) + rest;
      t < 0x1_0000_0000 && Version(t) == version && Do(t) == secure
  {
    var low := (if secure then 0x8000 else 0) + rest;
    var t := code * 0x100_0000 + version * 0x1_0000 + low;
    assert t / 0x1_0000 == code * 0x100 + version;
    assert t / 0x8000 == 2 * (code * 0x100 + version) + if secure then 1 else 0;
  }

  /** What is left without OPT records: it is built up record by record, in order. */
  lemma {:induction false} NoOptConcat(a: seq<RecordValue>, b: seq<RecordValue>)
    ensures NoOpt(a + b) == NoOpt(a) + NoOpt(b)
    ensures |b| == 1 ==> NoOpt(b) == if b[0].rrtype == 41 then [] else b
    ensures |b| == 0 ==> NoOpt(b) == []
  {
    if |b| == 0 {
      assert a + b == a;
    } else {
      var front := b[..|b| - 1];
      assert (a + b)[..|a + b| - 1] == a + front;
      NoOptConcat(a, front);
      if |b| == 1 { assert front == []; }
    }
  }

  // ---- The answer as handed out and stored ----

  /** Every record has the time to live and is otherwise as it was. */
  predicate Timed(rs: seq<RecordValue>, was: seq<RecordValue>, t: Word) {
    |rs| == |was| && forall i :: 0 <= i < |rs| ==> rs[i] == was[i].(ttl := t)
  }

  /** It has the query's id and the answer's code, questions and records, each with the one time to live. */
  lemma FinishedMeans(response: MessageValue, request: MessageValue, t: Word)
    ensures var f := Finished(response, request, t);
      && f.id == request.id && f.rcode == response.rcode && f.questions == response.questions
      && Timed(f.answer, response.answer, t) && Timed(f.ns, response.ns, t)
  {
  }

  /** So are the additional records if there is no EDNS record among them, or the query's has no older version than the
      time to live now spells. */
  lemma ExtraKept(response: MessageValue, request: MessageValue, t: Word)
    requires (forall i :: 0 <= i < |response.extra| ==> response.extra[i].rrtype != 41)
      || exists j :: LastOpt(request.extra, j) && request.extra[j].ttl / 0x1_0000 % 0x100 >= t / 0x1_0000 % 0x100
    ensures Timed(Finished(response, request, t).extra, response.extra, t)
  {
    EdnsRetimed(response.extra, t);
    EdnsIsLast(response.extra);
    EdnsIsLast(request.extra);
  }

  /** Otherwise all EDNS records go, and if the query has one a fresh one comes last, of the answer's size and with the
      flag the time to live spells. */
  lemma ExtraRewritten(response: MessageValue, request: MessageValue, t: Word, k: int)
    requires LastOpt(response.extra, k)
    requires forall j :: LastOpt(request.extra, j) ==>
      request.extra[j].ttl / 0x1_0000 % 0x100 < t / 0x1_0000 % 0x100
    ensures var extra := Finished(response, request, t).extra;
      if exists j :: LastOpt(request.extra, j) then
        extra == NoOpt(WithTtl(response.extra, t))
          + [RecordValue(41, response.extra[k].cls, if t / 0x8000 % 2 == 1 then 0x8000 else 0, 0, [])]
      else extra == NoOpt(WithTtl(response.extra, t))
  {
    EdnsRetimed(response.extra, t);
    EdnsIsLast(response.extra);
    EdnsIsLast(request.extra);
    if exists j :: LastOpt(request.extra, j) {
      var j :| LastOpt(request.extra, j);
    }
  }

  // ---- The answer as loaded ----

  /** Loading changes times to live and nothing else: each goes down by what has passed of the least positive one, in
      32 bits, and if none is positive each is the seconds left. */
  lemma AgedMeans(m: MessageValue, left: nat, origin: Word)
    requires left < 0x1_0000_0000 && LeastPositive(All(m), origin)
    ensures SameButTtl(Aged(m, left), m)
    ensures forall i :: 0 <= i < |All(m)| ==>
      |All(Aged(m, left))| == |All(m)|
      && All(Aged(m, left))[i].ttl == if origin > 0 then (All(m)[i].ttl - origin + left) % 0x1_0000_0000 else left
  {
    NarrowedIsLeast(All(m));
    OneLeast(All(m), origin, Narrowed(0, All(m)));
    AgedSame(m, left);
    forall i | 0 <= i < |All(m)|
      ensures |All(Aged(m, left))| == |All(m)|
      ensures All(Aged(m, left))[i].ttl == if origin > 0 then (All(m)[i].ttl - origin + left) % 0x1_0000_0000 else left
    {
      AgedAt(m, left, i);
    }
  }

  lemma AgedSame(m: MessageValue, left: nat)
    ensures SameButTtl(Aged(m, left), m)
  {
  }

  lemma OneLeast(rs: seq<RecordValue>, a: Word, b: Word)
    requires LeastPositive(rs, a) && LeastPositive(rs, b)
    ensures a == b
  {
    if a > 0 {
      var i :| 0 <= i < |rs| && rs[i].ttl == a;
      assert 0 < b <= a;
    }
    if b > 0 {
      var j :| 0 <= j < |rs| && rs[j].ttl == b;
      assert 0 < a <= b;
    }
  }
}
