/** Prepared statements kept for reuse: at most 64, the least recently used leaving first. */
module StatementCache {
  import opened Wrappers

  type Statement = nat

  /** An entry of the insertion-ordered map, oldest first. */
  datatype Entry = Entry(sql: string, statement: Statement)

  const CAPACITY := 64

  // ---- Recency ----

  /** The position of a string, or the length if it is not there. */
  function IndexOf(s: seq<string>, k: string): (i: nat)
    ensures i <= |s| && (i < |s| ==> s[i] == k) && forall j :: 0 <= j < i ==> s[j] != k
  {
    if |s| == 0 || s[0] == k then 0 else 1 + IndexOf(s[1..], k)
  }

  function Without<T>(s: seq<T>, i: nat): seq<T> {
    if i < |s| then s[..i] + s[i + 1..] else s
  }

  /** The strings used, each once, in the order of their last use. */
  function Recent(history: seq<string>): seq<string> {
    if |history| == 0 then []
    else
      var before, k := Recent(history[..|history| - 1]), history[|history| - 1];
      Without(before, IndexOf(before, k)) + [k]
  }

  /** The 64 used last. */
  function Kept(s: seq<string>): seq<string> {
    if |s| <= CAPACITY then s else s[|s| - CAPACITY..]
  }

  predicate Distinct<T(==)>(s: seq<T>) {
    forall i, j :: 0 <= i < j < |s| ==> s[i] != s[j]
  }

  lemma {:induction false} RecentDistinct(history: seq<string>)
    ensures Distinct(Recent(history))
  {
    if |history| > 0 {
      RecentDistinct(history[..|history| - 1]);
      LastOnce(Recent(history[..|history| - 1]), history[|history| - 1]);
    }
  }

  lemma LastOnce(before: seq<string>, k: string)
    requires Distinct(before)
    ensures Distinct(Without(before, IndexOf(before, k)) + [k])
  {
    var i := IndexOf(before, k);
    forall j | 0 <= j < |Without(before, i)| ensures Without(before, i)[j] != k {
      if j >= i && i < |before| { assert before[i] == k && Without(before, i)[j] == before[j + 1]; }
    }
  }

  lemma RecentPush(history: seq<string>, k: string)
    ensures Recent(history + [k]) == Without(Recent(history), IndexOf(Recent(history), k)) + [k]
  {
    assert (history + [k])[..|history|] == history;
  }

  lemma IndexNone(s: seq<string>, k: string)
    requires forall j :: 0 <= j < |s| ==> s[j] != k
    ensures IndexOf(s, k) == |s|
  {
  }

  lemma IndexIs(s: seq<string>, k: string, i: nat)
    requires i < |s| && s[i] == k && Distinct(s)
    ensures IndexOf(s, k) == i
  {
  }

  /** Where a string is in a suffix. */
  lemma IndexInSuffix(s: seq<string>, n: nat, k: string)
    requires n <= |s| && Distinct(s)
    ensures var i := IndexOf(s, k);
      IndexOf(s[n..], k) == if i == |s| || i < n then |s| - n else i - n
  {
    var i := IndexOf(s, k);
    if i < |s| && i >= n {
      IndexIs(s[n..], k, i - n);
    } else {
      forall j | 0 <= j < |s| - n ensures s[n..][j] != k { assert s[n..][j] == s[n + j]; }
      IndexNone(s[n..], k);
    }
  }

  lemma SuffixWithout(s: seq<string>, n: nat, i: nat, k: string)
    requires n <= i < |s|
    ensures (Without(s, i) + [k])[n..] == Without(s[n..], i - n) + [k]
  {
    var a, b := Without(s, i) + [k], Without(s[n..], i - n) + [k];
    forall j | 0 <= j < |s| - n ensures a[n..][j] == b[j] {
      assert a[n..][j] == a[n + j];
    }
  }

  lemma SuffixBefore(s: seq<string>, n: nat, i: nat, k: string)
    requires i < n < |s|
    ensures (Without(s, i) + [k])[n..] == s[n..][1..] + [k]
  {
    var a, b := Without(s, i) + [k], s[n..][1..] + [k];
    forall j | 0 <= j < |s| - n ensures a[n..][j] == b[j] {
      assert a[n..][j] == a[n + j];
    }
  }

  lemma KeptPush(s: seq<string>, n: nat, k: string)
    requires n == if |s| <= CAPACITY then 0 else |s| - CAPACITY
    ensures Kept(s + [k]) == if |s[n..]| == CAPACITY then s[n..][1..] + [k] else s[n..] + [k]
  {
    if |s| >= CAPACITY { assert (s + [k])[n + 1..] == s[n..][1..] + [k]; }
  }

  lemma KeptStep(s: seq<string>, k: string)
    requires Distinct(s)
    ensures var i := IndexOf(Kept(s), k);
      Kept(Without(s, IndexOf(s, k)) + [k]) ==
        if i < |Kept(s)| then Without(Kept(s), i) + [k]
        else if |Kept(s)| == CAPACITY then Kept(s)[1..] + [k]
        else Kept(s) + [k]
  {
    var n := if |s| <= CAPACITY then 0 else |s| - CAPACITY;
    assert Kept(s) == s[n..];
    IndexInSuffix(s, n, k);
    if IndexOf(s, k) == |s| {
      KeptPush(s, n, k);
    } else {
      KeptMove(s, n, IndexOf(s, k), k);
    }
  }

  /** A string used before moves to the end; if it was among those kept, those before it move up, and if not, the
      first of them leaves. */
  lemma KeptMove(s: seq<string>, n: nat, i: nat, k: string)
    requires n == (if |s| <= CAPACITY then 0 else |s| - CAPACITY) && i < |s|
    ensures Kept(Without(s, i) + [k]) == if i < n then s[n..][1..] + [k] else Without(s[n..], i - n) + [k]
  {
    var moved := Without(s, i) + [k];
    assert Kept(moved) == moved[n..];
    if i < n {
      SuffixBefore(s, n, i, k);
    } else {
      SuffixWithout(s, n, i, k);
    }
  }

  /** A use moves a kept string to the end; a string not kept comes in at the end, and the oldest leaves if
      all places are taken. */
  lemma UseStep(history: seq<string>, k: string)
    ensures var kept := Kept(Recent(history));
      var i := IndexOf(kept, k);
      Kept(Recent(history + [k])) ==
        if i < |kept| then Without(kept, i) + [k]
        else if |kept| == CAPACITY then kept[1..] + [k]
        else kept + [k]
  {
    RecentDistinct(history);
    RecentPush(history, k);
    KeptStep(Recent(history), k);
  }

  lemma NewStep(history: seq<string>, keys: seq<string>, k: string)
    requires keys == Kept(Recent(history)) && IndexOf(keys, k) == |keys|
    ensures Kept(Recent(history + [k])) == (if |keys| == CAPACITY then keys[1..] else keys) + [k]
  {
    UseStep(history, k);
  }

  // ---- The cache ----

  function Keys(entries: seq<Entry>): (ks: seq<string>)
    ensures |ks| == |entries| && forall i :: 0 <= i < |entries| ==> ks[i] == entries[i].sql
  {
    seq(|entries|, i requires 0 <= i < |entries| => entries[i].sql)
  }

  predicate Holds(entries: seq<Entry>, s: Statement) {
    exists i :: 0 <= i < |entries| && entries[i].statement == s
  }

  lemma LastHolds(entries: seq<Entry>, s: Statement)
    requires |entries| > 0 && entries[|entries| - 1].statement == s
    ensures Holds(entries, s)
  {
  }

  predicate StatementsDistinct(entries: seq<Entry>) {
    forall i, j :: 0 <= i < j < |entries| ==> entries[i].statement != entries[j].statement
  }

  /** Every statement prepared is in the cache, or lent to a caller that must close it, or has been closed
      exactly once; and never two of these. */
  ghost predicate Conserved(entries: seq<Entry>, closes: seq<nat>, lent: set<Statement>) {
    && StatementsDistinct(entries)
    && (forall i :: 0 <= i < |entries| ==> entries[i].statement < |closes| && entries[i].statement !in lent)
    && (forall s :: s in lent ==> s < |closes|)
    && (forall s: nat :: s < |closes| ==> closes[s] == if Holds(entries, s) || s in lent then 0 else 1)
  }

  lemma MovedHolds(entries: seq<Entry>, i: nat, s: Statement)
    requires i < |entries|
    ensures Holds(Without(entries, i) + [entries[i]], s) <==> Holds(entries, s)
  {
    var moved, n := Without(entries, i) + [entries[i]], |entries|;
    if Holds(entries, s) {
      var j :| 0 <= j < n && entries[j].statement == s;
      assert moved[if j == i then n - 1 else if j < i then j else j - 1] == entries[j];
    }
    if Holds(moved, s) {
      var j :| 0 <= j < n && moved[j].statement == s;
      assert entries[if j == n - 1 then i else if j < i then j else j + 1] == moved[j];
    }
  }

  /** Where an entry of the reordered map was before. */
  function WasAt(n: nat, i: nat, j: nat): nat
    requires i < n && j < n
  {
    if j == n - 1 then i else if j < i then j else j + 1
  }

  lemma MovedAt(entries: seq<Entry>, i: nat, j: nat)
    requires i < |entries| && j < |entries|
    ensures WasAt(|entries|, i, j) < |entries|
    ensures (Without(entries, i) + [entries[i]])[j] == entries[WasAt(|entries|, i, j)]
  {
  }

  lemma MovedConserves(entries: seq<Entry>, closes: seq<nat>, lent: set<Statement>, i: nat)
    requires Conserved(entries, closes, lent) && i < |entries|
    ensures Conserved(Without(entries, i) + [entries[i]], closes, lent)
  {
    var moved := Without(entries, i) + [entries[i]];
    forall s: nat | s < |closes| ensures Holds(moved, s) == Holds(entries, s) { MovedHolds(entries, i, s); }
    forall j, k | 0 <= j < k < |moved| ensures moved[j].statement != moved[k].statement {
      MovedAt(entries, i, j);
      MovedAt(entries, i, k);
    }
    forall j | 0 <= j < |moved| ensures moved[j].statement < |closes| && moved[j].statement !in lent {
      MovedAt(entries, i, j);
    }
  }

  lemma MovedKeys(entries: seq<Entry>, i: nat)
    requires i < |entries|
    ensures Keys(Without(entries, i) + [entries[i]]) == Without(Keys(entries), i) + [entries[i].sql]
  {
    var moved, keys := Without(entries, i) + [entries[i]], Without(Keys(entries), i) + [entries[i].sql];
    forall j | 0 <= j < |moved| ensures Keys(moved)[j] == keys[j] { MovedAt(entries, i, j); }
  }

  lemma EvictedConserves(entries: seq<Entry>, closes: seq<nat>, lent: set<Statement>)
    requires Conserved(entries, closes, lent) && |entries| > 0
    ensures entries[0].statement < |closes|
    ensures Conserved(entries[1..], closes[entries[0].statement := closes[entries[0].statement] + 1], lent)
    ensures Keys(entries[1..]) == Keys(entries)[1..]
  {
    var first, rest := entries[0].statement, entries[1..];
    assert Holds(entries, first);
    forall s: nat | s < |closes| && s != first ensures Holds(rest, s) == Holds(entries, s) {
      if Holds(entries, s) {
        var j :| 0 <= j < |entries| && entries[j].statement == s;
        assert rest[j - 1].statement == s;
      }
    }
  }

  lemma AddedConserves(entries: seq<Entry>, closes: seq<nat>, lent: set<Statement>, sql: string)
    requires Conserved(entries, closes, lent)
    ensures Conserved(entries + [Entry(sql, |closes|)], closes + [0], lent)
    ensures Keys(entries + [Entry(sql, |closes|)]) == Keys(entries) + [sql]
  {
    var more := entries + [Entry(sql, |closes|)];
    assert more[|entries|].statement == |closes|;
    forall s: nat | s < |closes| ensures Holds(more, s) == Holds(entries, s) {
      if Holds(entries, s) {
        var j :| 0 <= j < |entries| && entries[j].statement == s;
        assert more[j].statement == s;
      }
    }
  }

  /** A new statement comes in while the oldest one leaves and is closed. */
  lemma ReplacedConserves(entries: seq<Entry>, closes: seq<nat>, lent: set<Statement>, sql: string)
    requires Conserved(entries, closes, lent) && |entries| > 0
    ensures entries[0].statement < |closes|
    ensures Conserved(entries[1..] + [Entry(sql, |closes|)],
                      (closes + [0])[entries[0].statement := (closes + [0])[entries[0].statement] + 1], lent)
    ensures Keys(entries[1..] + [Entry(sql, |closes|)]) == Keys(entries)[1..] + [sql]
  {
    EvictedConserves(entries, closes, lent);
    var first := entries[0].statement;
    var closed := closes[first := closes[first] + 1];
    AddedConserves(entries[1..], closed, lent, sql);
    assert closed + [0] == (closes + [0])[first := (closes + [0])[first] + 1];
  }

  /** Moving a hit to the end keeps the cache the texts used last, and its statement there and open. */
  lemma AgainKeeps(history: seq<string>, entries: seq<Entry>, closes: seq<nat>, lent: set<Statement>, sql: string,
                   i: nat)
    requires Keys(entries) == Kept(Recent(history)) && Conserved(entries, closes, lent)
    requires i == IndexOf(Keys(entries), sql) && i < |entries|
    ensures var moved := Without(entries, i) + [entries[i]];
      && Keys(moved) == Kept(Recent(history + [sql])) && Conserved(moved, closes, lent) && |moved| == |entries|
      && Holds(moved, entries[i].statement)
    ensures entries[i].statement < |closes| && closes[entries[i].statement] == 0
  {
    UseStep(history, sql);
    MovedKeys(entries, i);
    assert Keys(entries)[i] == sql;
    MovedConserves(entries, closes, lent, i);
    LastHolds(Without(entries, i) + [entries[i]], entries[i].statement);
    assert Holds(entries, entries[i].statement);
  }

  class Cache {
    var entries: seq<Entry>
    /** How often each statement prepared so far has been closed. */
    var closes: seq<nat>
    /** The uses that could be kept, in order. */
    ghost var history: seq<string>
    /** Statements in the hands of a caller that must close them. */
    ghost var lent: set<Statement>

    /** The cache is the 64 texts used last, oldest first, and no statement is lost or closed twice. */
    ghost predicate Valid()
      reads this
    {
      Keys(entries) == Kept(Recent(history)) && Conserved(entries, closes, lent)
    }

    constructor ()
      ensures Valid() && entries == [] && closes == [] && history == [] && lent == {}
    {
      entries, closes, history, lent := [], [], [], {};
    }

    method Close(s: Statement)
      requires s < |closes|
      modifies `closes
      ensures closes == old(closes)[s := old(closes)[s] + 1]
    {
      closes := closes[s := closes[s] + 1];
    }

    /** A statement for some text: the cached one, or a new one, kept unless it only explains.
        Preparing may fail. What is handed out is open. */
    method Get(sql: string, prepares: bool, explains: bool) returns (r: Option<Statement>, cached: bool)
      requires Valid()
      modifies this
      ensures Valid() && |entries| <= CAPACITY
      ensures var known := IndexOf(Keys(old(entries)), sql) < |old(entries)|;
        && (r.None? <==> !known && !prepares)
        && (cached <==> known || (prepares && !explains))
        && (known ==> r == Some(old(entries)[IndexOf(Keys(old(entries)), sql)].statement))
        && (!known && prepares ==> r == Some(|old(closes)|))
        && |closes| == |old(closes)| + (if !known && prepares then 1 else 0)
      ensures r.Some? ==> r.value < |closes| && closes[r.value] == 0
      ensures cached ==> Holds(entries, r.value)
      ensures history == if cached then old(history) + [sql] else old(history)
      ensures lent == if r.Some? && !cached then old(lent) + {r.value} else old(lent)
    {
      var i := Find(sql);
      if i < |entries| {
        var s := Again(sql, i);
        return Some(s), true;
      }
      if !prepares { return None, false; }
      var s := Prepare(sql, explains);
      return Some(s), !explains;
    }

    /** A new statement, kept unless it only explains. */
    method Prepare(sql: string, explains: bool) returns (s: Statement)
      requires Valid() && IndexOf(Keys(entries), sql) == |entries|
      modifies this
      ensures Valid() && s == |old(closes)| && |closes| == |old(closes)| + 1 && closes[s] == 0
      ensures !explains ==> Holds(entries, s)
      ensures history == if explains then old(history) else old(history) + [sql]
      ensures lent == if explains then old(lent) + {s} else old(lent)
    {
      if explains { s := Lend(); } else { s := Keep(sql); }
    }

    /** The position of a text in the map. */
    method Find(sql: string) returns (i: nat)
      ensures i == IndexOf(Keys(entries), sql)
    {
      i := 0;
      while i < |entries| && entries[i].sql != sql
        invariant i <= |entries| && forall j :: 0 <= j < i ==> entries[j].sql != sql
      {
        i := i + 1;
      }
      var k := IndexOf(Keys(entries), sql);
      assert k < |entries| ==> Keys(entries)[k] == sql;
      assert i < |entries| ==> Keys(entries)[i] == sql;
    }

    /** A cached statement is taken out and put back at the end. */
    method Again(sql: string, i: nat) returns (s: Statement)
      requires Valid() && i < |entries| && i == IndexOf(Keys(entries), sql)
      modifies `entries, `history
      ensures Valid() && s == old(entries)[i].statement && Holds(entries, s) && s < |closes| && closes[s] == 0
      ensures history == old(history) + [sql] && |entries| == |old(entries)|
    {
      AgainKeeps(history, entries, closes, lent, sql, i);
      s := entries[i].statement;
      entries := Without(entries, i) + [entries[i]];
      history := history + [sql];
    }

    /** A statement that is not kept. */
    method Lend() returns (s: Statement)
      requires Valid()
      modifies `closes, `lent
      ensures Valid() && s == |old(closes)| && closes == old(closes) + [0] && lent == old(lent) + {s}
    {
      s := |closes|;
      closes := closes + [0];
      lent := lent + {s};
      assert !Holds(entries, s);
    }

    /** A new statement is kept; if all places are taken the least recently used one is closed and leaves. */
    method Keep(sql: string) returns (s: Statement)
      requires Valid() && IndexOf(Keys(entries), sql) == |entries|
      modifies `entries, `history, `closes
      ensures Valid() && s == |old(closes)| && Holds(entries, s) && s < |closes| == |old(closes)| + 1 && closes[s] == 0
      ensures history == old(history) + [sql]
      ensures entries == (if |old(entries)| == CAPACITY then old(entries)[1..] else old(entries)) + [Entry(sql, s)]
      ensures closes == (if |old(entries)| == CAPACITY then (old(closes) + [0])[old(entries)[0].statement := 1]
                         else old(closes) + [0])
    {
      NewStep(history, Keys(entries), sql);
      s := |closes|;
      if |entries| == CAPACITY {
        Replace(sql);
      } else {
        Add(sql);
      }
      history := history + [sql];
    }

    method Add(sql: string)
      requires Conserved(entries, closes, lent)
      modifies `entries, `closes
      ensures Conserved(entries, closes, lent) && Keys(entries) == Keys(old(entries)) + [sql]
      ensures entries == old(entries) + [Entry(sql, |old(closes)|)] && closes == old(closes) + [0]
      ensures Holds(entries, |old(closes)|)
    {
      AddedConserves(entries, closes, lent, sql);
      LastHolds(entries + [Entry(sql, |closes|)], |closes|);
      entries, closes := entries + [Entry(sql, |closes|)], closes + [0];
    }

    method Replace(sql: string)
      requires Conserved(entries, closes, lent) && |entries| == CAPACITY
      modifies `entries, `closes
      ensures Conserved(entries, closes, lent) && Keys(entries) == Keys(old(entries))[1..] + [sql]
      ensures old(entries)[0].statement < |old(closes)|
      ensures |closes| == |old(closes)| + 1 && closes[|old(closes)|] == 0
      ensures entries == old(entries)[1..] + [Entry(sql, |old(closes)|)]
      ensures closes == (old(closes) + [0])[old(entries)[0].statement := 1]
      ensures Holds(entries, |old(closes)|)
    {
      ReplacedConserves(entries, closes, lent, sql);
      var s, oldest := |closes|, entries[0].statement;
      assert Holds(entries, oldest);
      closes := closes + [0];
      entries := entries[1..];
      Close(oldest);
      entries := entries + [Entry(sql, s)];
      LastHolds(entries, s);
    }

    /** Runs one statement. Without parameters it goes to the database as text; with them it is prepared, and one
        that was not kept is closed when done, whether or not running it failed. */
    method Run(sql: string, parameters: nat, prepares: bool, explains: bool)
      requires Valid() && lent == {}
      modifies this
      ensures Valid() && lent == {} && |entries| <= CAPACITY
      ensures parameters == 0 ==> entries == old(entries) && closes == old(closes) && history == old(history)
      ensures parameters > 0 ==>
        var known := IndexOf(Keys(old(entries)), sql) < |old(entries)|;
        && |closes| == |old(closes)| + (if !known && prepares then 1 else 0)
        && history == (if known || (prepares && !explains) then old(history) + [sql] else old(history))
    {
      if parameters == 0 { return; }
      var r, cached := Get(sql, prepares, explains);
      if r.Some? && !cached {
        Release(r.value);
      }
    }

    method Release(s: Statement)
      requires Valid() && s in lent
      modifies `closes, `lent
      ensures Valid() && lent == old(lent) - {s} && closes == old(closes)[s := 1]
    {
      assert !Holds(entries, s);
      Close(s);
      lent := lent - {s};
    }

    /** Shutting down closes every cached statement and empties the cache: with nothing lent, each statement
        ever prepared has then been closed exactly once. */
    method Dispose()
      requires Valid() && lent == {}
      modifies this
      ensures Valid() && entries == [] && |closes| == |old(closes)| && forall s :: 0 <= s < |closes| ==> closes[s] == 1
    {
      ghost var all := entries;
      var i := 0;
      while i < |entries|
        invariant 0 <= i <= |entries| && entries == all && lent == {} && |closes| == |old(closes)|
        invariant Conserved(all[i..], closes, lent)
      {
        EvictedConserves(all[i..], closes, lent);
        assert all[i..][1..] == all[i + 1..] && all[i..][0] == all[i];
        Close(entries[i].statement);
        i := i + 1;
      }
      assert all[i..] == [];
      entries := [];
      history := [];
    }
  }
}
