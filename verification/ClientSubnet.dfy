/** Writing a client subnet into a query, on a copy. */
module ClientSubnet {
  import opened DnsMessages
  import opened Wrappers

  /** An address prefix: four or sixteen address bytes and a length. */
  datatype Prefix = Prefix(four: bool, address: seq<nat>, bits: nat)

  predicate IsSubnet(o: EdnsOption) {
    o.SubnetOption?
  }

  function Carrying(was: Subnet, p: Prefix): Subnet {
    Subnet(if p.four then 1 else 2, p.bits, was.scope, p.address)
  }

  const BLANK := Subnet(0, 0, 0, [])

  // ---- Where the option goes ----

  /** The first subnet option of an option list. */
  function FirstIn(options: seq<EdnsOption>): (j: nat)
    ensures j <= |options| && (j < |options| ==> IsSubnet(options[j]))
    ensures forall k :: 0 <= k < j ==> !IsSubnet(options[k])
  {
    if |options| == 0 || IsSubnet(options[0]) then 0 else 1 + FirstIn(options[1..])
  }

  predicate HasSubnet(r: RecordValue) {
    r.rrtype == OPT && FirstIn(r.options) < |r.options|
  }

  /** The first OPT record with a subnet option, or the number of records. */
  function FirstRecord(extra: seq<RecordValue>): (i: nat)
    ensures i <= |extra| && (i < |extra| ==> HasSubnet(extra[i])) && forall k :: 0 <= k < i ==> !HasSubnet(extra[k])
  {
    if |extra| == 0 || HasSubnet(extra[0]) then 0 else 1 + FirstRecord(extra[1..])
  }

  /** The scan ends at the first subnet option; failing that at the last record if that is an OPT record;
      and otherwise nowhere, even if an earlier record is one. */
  datatype Place = Nowhere | AtEnd | At(record: nat, option: nat)

  function Find(extra: seq<RecordValue>): Place {
    var i := FirstRecord(extra);
    if i < |extra| then At(i, FirstIn(extra[i].options))
    else if |extra| > 0 && extra[|extra| - 1].rrtype == OPT then AtEnd
    else Nowhere
  }

  function NewOpt(p: Prefix): RecordValue {
    RecordValue(OPT, 0, 0, 0, [SubnetOption(Carrying(BLANK, p))])
  }

  function Rewritten(extra: seq<RecordValue>, p: Prefix): seq<RecordValue> {
    match Find(extra)
    case Nowhere => extra + [NewOpt(p)]
    case AtEnd =>
      var r := extra[|extra| - 1];
      extra[|extra| - 1 := r.(options := r.options + [SubnetOption(Carrying(BLANK, p))])]
    case At(i, j) =>
      var r := extra[i];
      extra[i := r.(options := r.options[j := SubnetOption(Carrying(r.options[j].subnet, p))])]
  }

  // ---- The operation ----

  method SetClientSubnet(message: Message, p: Prefix) returns (m: Message)
    ensures fresh(m) && m.Value() == message.Value().(extra := Rewritten(message.Value().extra, p))
    ensures message.Value() == old(message.Value())
  {
    m := SetIn(message, p, true);
  }

  /** With `clone`, an existing OPT record is not touched: the message is copied and the copy done again. */
  method SetIn(message: Message, p: Prefix, clone: bool) returns (m: Message)
    requires !clone ==>
      Distinct(message.extra) && Apart(message.answer, message.extra) && Apart(message.ns, message.extra)
    modifies if clone then {} else set r | r in message.extra
    ensures clone || Find(old(Values(message.extra))).Nowhere? ==> fresh(m)
    ensures !clone && !Find(old(Values(message.extra))).Nowhere? ==> m == message
    ensures m.Value() == old(message.Value()).(extra := Rewritten(old(message.Value()).extra, p))
    decreases clone
  {
    ghost var before, after := message.Value(), Rewritten(Values(message.extra), p);
    m := message;
    var at, found, option := Scan(message.extra);
    if at == None {
      m := AppendOpt(message, p);
      assert m.Value() == before.(extra := after);
    } else if clone {
      var copy := message.Copy();
      assert copy.Value() == before;
      m := SetIn(copy, p, false);
      assert m.Value() == before.(extra := after);
    } else {
      SetHere(message, p, at.value, found, option);
      assert m.Value() == before.(extra := after);
    }
  }

  /** The option written into the record and place the scan ended on. */
  method SetHere(message: Message, p: Prefix, r: Record, found: bool, option: nat)
    requires match Find(Values(message.extra))
      case Nowhere => false
      case AtEnd => r == message.extra[|message.extra| - 1] && !found
      case At(i, j) => r == message.extra[i] && found && option == j
    requires Distinct(message.extra) && Apart(message.answer, message.extra) && Apart(message.ns, message.extra)
    modifies r
    ensures message.Value() == old(message.Value()).(extra := Rewritten(old(message.Value()).extra, p))
  {
    ghost var i := if found then Find(Values(message.extra)).record else |message.extra| - 1;
    if !found {
      SetOptions(r, r.options + [SubnetOption(Carrying(BLANK, p))], message, i);
    } else {
      SetOptions(r, r.options[option := SubnetOption(Carrying(r.options[option].subnet, p))], message, i);
    }
  }

  /** A shallow copy of the message with a new OPT record at the end. */
  method AppendOpt(message: Message, p: Prefix) returns (m: Message)
    ensures fresh(m) && m.Value() == message.Value().(extra := Values(message.extra) + [NewOpt(p)])
  {
    var opt := new Record(NewOpt(p).(options := []));
    m := new Message(message.id, message.rcode, message.questions, message.answer, message.ns, message.extra + [opt]);
    opt.options := opt.options + [SubnetOption(Carrying(BLANK, p))];
    assert opt.Value() == NewOpt(p);
    assert Values(message.extra + [opt]) == Values(message.extra) + [NewOpt(p)] by {
      assert (message.extra + [opt])[..|message.extra|] == message.extra;
    }
  }

  /** One record's options replaced in place. */
  method SetOptions(r: Record, options: seq<EdnsOption>, ghost message: Message, ghost i: nat)
    requires i < |message.extra| && message.extra[i] == r && Distinct(message.extra)
    requires Apart(message.answer, message.extra) && Apart(message.ns, message.extra)
    modifies r
    ensures message.Value()
      == old(message.Value()).(extra := old(Values(message.extra))[i := old(r.Value()).(options := options)])
  {
    forall k | 0 <= k < |message.answer| ensures message.answer[k] != r { assert message.answer[k] in message.answer; }
    forall k | 0 <= k < |message.ns| ensures message.ns[k] != r { assert message.ns[k] in message.ns; }
    r.options := options;
    assert Values(message.answer) == old(Values(message.answer));
    assert Values(message.ns) == old(Values(message.ns));
    assert Values(message.extra) == old(Values(message.extra))[i := old(r.Value()).(options := options)];
  }

  /** The scan: the record and option it ends on. A record that is not OPT makes it forget an OPT record before. */
  method Scan(extra: seq<Record>) returns (at: Option<Record>, found: bool, option: nat)
    ensures match Find(Values(extra))
      case Nowhere => at == None && !found
      case AtEnd => at == Some(extra[|extra| - 1]) && !found
      case At(i, j) => at == Some(extra[i]) && found && option == j
  {
    at, found, option := None, false, 0;
    var i := 0;
    while i < |extra|
      invariant 0 <= i <= |extra| && !found
      invariant forall k :: 0 <= k < i ==> !HasSubnet(extra[k].Value())
      invariant at == if i > 0 && extra[i - 1].rrtype == OPT then Some(extra[i - 1]) else None
    {
      at := if extra[i].rrtype == OPT then Some(extra[i]) else None;
      if at.Some? {
        var j := 0;
        while j < |extra[i].options|
          invariant 0 <= j <= |extra[i].options|
          invariant forall k :: 0 <= k < j ==> !IsSubnet(extra[i].options[k])
        {
          if IsSubnet(extra[i].options[j]) {
            found, option := true, j;
            return;
          }
          j := j + 1;
        }
      }
      i := i + 1;
    }
  }

  // ---- What it gives ----

  /** The first subnet option of an OPT record is the prefix. */
  ghost predicate CarriedFirst(extra: seq<RecordValue>, p: Prefix) {
    exists i, j :: FirstOption(extra, i, j) && Is(extra[i].options[j], p)
  }

  predicate FirstOption(extra: seq<RecordValue>, i: int, j: int) {
    && 0 <= i < |extra| && 0 <= j < |extra[i].options| && extra[i].rrtype == 41 && extra[i].options[j].SubnetOption?
    && (forall l :: 0 <= l < j ==> !extra[i].options[l].SubnetOption?)
    && forall k, l :: 0 <= k < i && 0 <= l < |extra[k].options| && extra[k].rrtype == 41 ==>
         !extra[k].options[l].SubnetOption?
  }

  predicate Is(o: EdnsOption, p: Prefix) {
    o.SubnetOption? && o.subnet.family == (if p.four then 1 else 2)
    && o.subnet.netmask == p.bits && o.subnet.address == p.address
  }

  /** The first subnet option found carries the prefix: family, length and address. */
  lemma FirstCarries(extra: seq<RecordValue>, p: Prefix)
    ensures var after := Rewritten(extra, p);
      && Find(after).At? && CarriedFirst(after, p)
      && Is(after[Find(after).record].options[Find(after).option], p)
  {
    var after := Rewritten(extra, p);
    RewrittenAt(extra, p);
    FoundFirst(after);
  }

  lemma FoundFirst(extra: seq<RecordValue>)
    ensures Find(extra).At? ==> FirstOption(extra, Find(extra).record, Find(extra).option)
  {
    if Find(extra).At? {
      forall k, l | 0 <= k < Find(extra).record && 0 <= l < |extra[k].options| && extra[k].rrtype == 41
        ensures !extra[k].options[l].SubnetOption?
      {
        assert !HasSubnet(extra[k]);
      }
    }
  }

  /** Where the option is after the rewrite, and that everything else stays. */
  lemma RewrittenAt(extra: seq<RecordValue>, p: Prefix)
    ensures var after := Rewritten(extra, p);
      match Find(extra)
      case Nowhere => Find(after) == At(|extra|, 0) && |after| == |extra| + 1 && after[..|extra|] == extra
      case AtEnd => |after| == |extra| && Find(after) == At(|extra| - 1, |extra[|extra| - 1].options|)
      case At(i, j) => |after| == |extra| && Find(after) == At(i, j)
  {
    var after := Rewritten(extra, p);
    var i := FirstRecord(after);
    match Find(extra) {
      case Nowhere =>
        assert forall k :: 0 <= k < |extra| ==> after[k] == extra[k];
        assert HasSubnet(NewOpt(p));
      case AtEnd =>
        var n := |extra| - 1;
        assert forall k :: 0 <= k < n ==> after[k] == extra[k];
        assert after[n].options[|extra[n].options|] == SubnetOption(Carrying(BLANK, p));
      case At(k, j) =>
        assert forall l :: 0 <= l < k ==> after[l] == extra[l];
        assert IsSubnet(after[k].options[j]);
    }
  }

  /** Every record but the one the scan ended on stays, and of that one everything but the option: one it had keeps its
      place and scope, a new one comes last. A new record is an OPT record, type 41, with that option alone. */
  lemma OthersStay(extra: seq<RecordValue>, p: Prefix)
    ensures var after := Rewritten(extra, p);
      match Find(extra)
      case Nowhere =>
        && after[..|extra|] == extra && |after| == |extra| + 1
        && after[|extra|] == RecordValue(41, 0, 0, 0, after[|extra|].options)
        && |after[|extra|].options| == 1 && ScopeIs(after[|extra|].options[0], 0)
      case AtEnd =>
        var n := |extra| - 1;
        && |after| == |extra| && (forall k :: 0 <= k < n ==> after[k] == extra[k])
        && after[n] == extra[n].(options := after[n].options)
        && |after[n].options| == |extra[n].options| + 1
        && (forall l :: 0 <= l < |extra[n].options| ==> after[n].options[l] == extra[n].options[l])
        && ScopeIs(after[n].options[|extra[n].options|], 0)
      case At(i, j) =>
        && |after| == |extra| && (forall k :: 0 <= k < |extra| && k != i ==> after[k] == extra[k])
        && after[i] == extra[i].(options := after[i].options)
        && |after[i].options| == |extra[i].options|
        && (forall l :: 0 <= l < |extra[i].options| && l != j ==> after[i].options[l] == extra[i].options[l])
        && ScopeIs(after[i].options[j], extra[i].options[j].subnet.scope)
  {
  }

  predicate ScopeIs(o: EdnsOption, scope: nat) {
    o.SubnetOption? && o.subnet.scope == scope
  }

  /** The last prefix written wins. */
  lemma LastWins(extra: seq<RecordValue>, p: Prefix, q: Prefix)
    ensures Rewritten(Rewritten(extra, p), q) == Rewritten(extra, q)
  {
    RewrittenAt(extra, p);
    var once := Rewritten(extra, p);
    match Find(extra) {
      case Nowhere =>
        var n := |extra|;
        assert once[n] == NewOpt(p) && Carrying(Carrying(BLANK, p), q) == Carrying(BLANK, q);
        assert NewOpt(p).options[0 := SubnetOption(Carrying(BLANK, q))] == NewOpt(q).options;
        assert Rewritten(once, q) == once[n := NewOpt(q)];
      case AtEnd =>
        var n := |extra| - 1;
        assert Rewritten(once, q)[n].options == extra[n].options + [SubnetOption(Carrying(BLANK, q))];
      case At(i, j) =>
        assert Rewritten(once, q)[i].options == Rewritten(extra, q)[i].options;
    }
  }

  function OptCount(extra: seq<RecordValue>): nat {
    if |extra| == 0 then 0 else OptCount(extra[..|extra| - 1]) + if extra[|extra| - 1].rrtype == OPT then 1 else 0
  }

  lemma {:induction false} OptCountSame(a: seq<RecordValue>, b: seq<RecordValue>)
    requires |a| == |b| && forall k :: 0 <= k < |a| ==> a[k].rrtype == b[k].rrtype
    ensures OptCount(a) == OptCount(b)
  {
    if |a| > 0 { OptCountSame(a[..|a| - 1], b[..|b| - 1]); }
  }

  /** A message gains an OPT record exactly when no OPT record has a subnet option and its last record is not OPT:
      one with an OPT record before other records ends up with two, which section 6.1.1 of RFC 6891 forbids. */
  lemma SecondOpt(extra: seq<RecordValue>, p: Prefix)
    ensures OptCount(Rewritten(extra, p)) == OptCount(extra) + (if Find(extra).Nowhere? then 1 else 0)
    ensures Find(extra).Nowhere? <==>
      (forall k :: 0 <= k < |extra| ==> !HasSubnet(extra[k])) && (|extra| == 0 || extra[|extra| - 1].rrtype != OPT)
  {
    if Find(extra).Nowhere? {
      OneOptMore(extra, p);
    } else {
      SameTypes(extra, p);
      OptCountSame(extra, Rewritten(extra, p));
    }
  }

  lemma OneOptMore(extra: seq<RecordValue>, p: Prefix)
    ensures OptCount(extra + [NewOpt(p)]) == OptCount(extra) + 1
  {
    assert (extra + [NewOpt(p)])[..|extra|] == extra;
  }

  lemma SameTypes(extra: seq<RecordValue>, p: Prefix)
    requires !Find(extra).Nowhere?
    ensures |Rewritten(extra, p)| == |extra|
    ensures forall k :: 0 <= k < |extra| ==> Rewritten(extra, p)[k].rrtype == extra[k].rrtype
  {
  }

  // ---- Subnets and the cache ----

  /** The subnet a query is sent with: its own, else the configured one. */
  function Effective(own: Option<Prefix>, configured: Option<Prefix>): Option<Prefix> {
    if own.Some? then own else configured
  }

  /** The query as sent. */
  function Outgoing(m: MessageValue, own: Option<Prefix>, configured: Option<Prefix>): MessageValue {
    match Effective(own, configured)
    case None => m
    case Some(p) => m.(extra := Rewritten(m.extra, p))
  }

  /** It carries its own prefix if it has one, else the configured one, and is otherwise as it came. */
  lemma SentWith(m: MessageValue, own: Option<Prefix>, configured: Option<Prefix>)
    ensures var o := Outgoing(m, own, configured);
      && o == m.(extra := o.extra)
      && match own
         case Some(p) => CarriedFirst(o.extra, p)
         case None =>
           match configured
           case Some(p) => CarriedFirst(o.extra, p)
           case None => o == m
  {
    if own.Some? {
      FirstCarries(m.extra, own.value);
    } else if configured.Some? {
      FirstCarries(m.extra, configured.value);
    }
  }

  /** Whether the exchange looks in the cache, and may store in it. */
  predicate UsesCache(m: MessageValue, own: Option<Prefix>, configured: Option<Prefix>, cacheOff: bool,
                      cacheOffHere: bool) {
    Simple(Outgoing(m, own, configured)) && own.None? && !cacheOff && !cacheOffHere
  }

  /** The exchange uses the cache exactly if no subnet is sent, the cache is on, and the query as it came has one
      question, no authority records, and at most a bare EDNS record: of some size, version 0, no flag, no options. */
  lemma CacheUse(m: MessageValue, own: Option<Prefix>, configured: Option<Prefix>, cacheOff: bool, cacheOffHere: bool)
    ensures UsesCache(m, own, configured, cacheOff, cacheOffHere) <==>
      && own.None? && configured.None? && !cacheOff && !cacheOffHere
      && |m.questions| == 1 && m.ns == []
      && (m.extra == []
          || (|m.extra| == 1 && m.extra[0] == RecordValue(41, m.extra[0].cls, 0, m.extra[0].minimum, [])
            && m.extra[0].cls != 0))
  {
    if own.Some? || configured.Some? { TailoredNeverCached(m, own, configured, cacheOff, cacheOffHere); }
  }

  /** A rewritten message is never a simple request, so an answer tailored to a subnet is neither taken from
      the cache nor put into it. */
  lemma TailoredNeverCached(m: MessageValue, own: Option<Prefix>, configured: Option<Prefix>, cacheOff: bool,
                            cacheOffHere: bool)
    requires own.Some? || configured.Some?
    ensures !Simple(Outgoing(m, own, configured)) && !UsesCache(m, own, configured, cacheOff, cacheOffHere)
  {
    var p := Effective(own, configured).value;
    FirstCarries(m.extra, p);
    var extra := Rewritten(m.extra, p);
    assert |extra[Find(extra).record].options| > 0;
  }
}
