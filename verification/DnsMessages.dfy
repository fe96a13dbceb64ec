/** DNS messages: records are shared objects whose fields are changed in place. */
module DnsMessages {
  import opened Wrappers

  type Word = x: int | 0 <= x < 0x1_0000_0000

  const OPT := 41
  const SOA := 6

  /** The client-subnet option of RFC 7871, section 6. */
  datatype Subnet = Subnet(family: nat, netmask: nat, scope: nat, address: seq<nat>)

  datatype EdnsOption = SubnetOption(subnet: Subnet) | OtherOption(code: nat, data: seq<nat>)

  datatype Question = Question(name: string, qtype: nat, qclass: nat)

  /** A record by value. The header's class and time to live mean other things in an OPT record; the minimum
      is an SOA record's; the options are an OPT record's. */
  datatype RecordValue = RecordValue(rrtype: nat, cls: nat, ttl: Word, minimum: Word, options: seq<EdnsOption>)

  datatype MessageValue = MessageValue(id: nat, rcode: nat, questions: seq<Question>,
                                       answer: seq<RecordValue>, ns: seq<RecordValue>, extra: seq<RecordValue>)

  class Record {
    const rrtype: nat
    var cls: nat
    var ttl: Word
    const minimum: Word
    var options: seq<EdnsOption>

    constructor (v: RecordValue)
      ensures Value() == v
    {
      rrtype, cls, ttl, minimum, options := v.rrtype, v.cls, v.ttl, v.minimum, v.options;
    }

    function Value(): RecordValue
      reads this
    {
      RecordValue(rrtype, cls, ttl, minimum, options)
    }
  }

  ghost function Values(rs: seq<Record>): (vs: seq<RecordValue>)
    reads rs
    ensures |vs| == |rs| && forall i :: 0 <= i < |rs| ==> vs[i] == rs[i].Value()
  {
    seq(|rs|, i requires 0 <= i < |rs| reads rs => rs[i].Value())
  }

  class Message {
    var id: nat
    var rcode: nat
    var questions: seq<Question>
    var answer: seq<Record>
    var ns: seq<Record>
    var extra: seq<Record>

    constructor (id: nat, rcode: nat, questions: seq<Question>, answer: seq<Record>, ns: seq<Record>,
                 extra: seq<Record>)
      ensures this.id == id && this.rcode == rcode && this.questions == questions
      ensures this.answer == answer && this.ns == ns && this.extra == extra
    {
      this.id, this.rcode, this.questions := id, rcode, questions;
      this.answer, this.ns, this.extra := answer, ns, extra;
    }

    ghost function Value(): MessageValue
      reads this, answer, ns, extra
    {
      MessageValue(id, rcode, questions, Values(answer), Values(ns), Values(extra))
    }

    /** A copy that shares nothing with the original. */
    method Copy() returns (m: Message)
      ensures fresh(m) && forall r :: r in m.answer || r in m.ns || r in m.extra ==> fresh(r)
      ensures m.Value() == Value() && Distinct(m.answer) && Distinct(m.ns) && Distinct(m.extra)
      ensures Apart(m.answer, m.ns) && Apart(m.answer, m.extra) && Apart(m.ns, m.extra)
    {
      var a := CopyRecords(answer);
      var n := CopyRecords(ns);
      var e := CopyRecords(extra);
      m := new Message(id, rcode, questions, a, n, e);
      assert m.Value() == Value();
    }
  }

  ghost predicate Distinct(rs: seq<Record>) {
    forall i, j :: 0 <= i < j < |rs| ==> rs[i] != rs[j]
  }

  ghost predicate Apart(a: seq<Record>, b: seq<Record>) {
    forall r :: r in a ==> r !in b
  }

  lemma DistinctConcat(a: seq<Record>, b: seq<Record>)
    requires Distinct(a) && Distinct(b) && Apart(a, b)
    ensures Distinct(a + b)
  {
    forall i, j | 0 <= i < j < |a + b| ensures (a + b)[i] != (a + b)[j] {
      if i < |a| <= j { assert a[i] in a && b[j - |a|] in b; }
    }
  }

  lemma ValuesConcat(a: seq<Record>, b: seq<Record>)
    ensures Values(a + b) == Values(a) + Values(b)
  {
  }

  method CopyRecords(rs: seq<Record>) returns (c: seq<Record>)
    ensures Values(c) == Values(rs) && Distinct(c) && forall r :: r in c ==> fresh(r)
  {
    c := [];
    var i := 0;
    while i < |rs|
      invariant 0 <= i <= |rs| && |c| == i
      invariant (forall k :: 0 <= k < i ==> fresh(c[k]) && c[k].Value() == rs[k].Value()) && Distinct(c)
    {
      var r := new Record(rs[i].Value());
      c := c + [r];
      i := i + 1;
    }
  }

  /** Whether a query may share cached answers: one question, nothing in the authority section, and at most a
      bare OPT record with no options. */
  predicate Simple(m: MessageValue) {
    && |m.questions| == 1 && |m.ns| == 0
    && (|m.extra| == 0
        || (|m.extra| == 1 && m.extra[0].rrtype == OPT && m.extra[0].cls > 0 && m.extra[0].ttl == 0
          && |m.extra[0].options| == 0))
  }
}
