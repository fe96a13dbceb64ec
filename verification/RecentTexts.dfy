/** What it means to be among the texts used last, by their places in the history. */
module RecentTexts {
  import opened StatementCache

  /** The text was used there, and not since. */
  predicate LastUse(history: seq<string>, i: int, t: string) {
    0 <= i < |history| && history[i] == t && forall j :: i < j < |history| ==> history[j] != t
  }

  /** The texts used since. */
  function UsedSince(history: seq<string>, i: int): set<string>
    requires -1 <= i
  {
    set j | i < j < |history| :: history[j]
  }

  /** Where a text was used last, -1 if it was not. */
  function LastIndex(history: seq<string>, t: string): (i: int)
    ensures if i < 0 then t !in history else LastUse(history, i, t)
    ensures -1 <= i < |history|
  {
    if |history| == 0 then -1
    else if history[|history| - 1] == t then |history| - 1
    else LastIndex(history[..|history| - 1], t)
  }

  lemma OneLastUse(history: seq<string>, i: int, t: string)
    requires LastUse(history, i, t)
    ensures LastIndex(history, t) == i
  {
    assert t in history;
  }

  lemma {:induction false} RecentUsed(history: seq<string>, t: string)
    ensures t in Recent(history) <==> t in history
  {
    if |history| > 0 {
      var front, k := history[..|history| - 1], history[|history| - 1];
      RecentUsed(front, t);
      InLast(history, t);
      MovedSame(Recent(front), k, t);
    }
  }

  lemma InLast(history: seq<string>, t: string)
    requires |history| > 0
    ensures t in history <==> t in history[..|history| - 1] || t == history[|history| - 1]
  {
    assert history == history[..|history| - 1] + [history[|history| - 1]];
  }

  lemma MovedSame(s: seq<string>, k: string, t: string)
    ensures t in Without(s, IndexOf(s, k)) + [k] <==> t in s || t == k
  {
    var i := IndexOf(s, k);
    if t in s && t != k {
      var j :| 0 <= j < |s| && s[j] == t;
      assert Without(s, i)[if j < i then j else if i < |s| then j - 1 else j] == t;
    }
  }

  /** The strings in `Recent` come in the order of their last uses. */
  lemma {:induction false} RecentOrder(history: seq<string>, a: nat, b: nat)
    requires a < b < |Recent(history)|
    ensures LastIndex(history, Recent(history)[a]) < LastIndex(history, Recent(history)[b])
  {
    var front, k := history[..|history| - 1], history[|history| - 1];
    var before := Recent(front);
    var i := IndexOf(before, k);
    RecentDistinct(front);
    Passed(before, k, a);
    if b < |Recent(history)| - 1 {
      Passed(before, k, b);
      RecentOrder(front, if a < i then a else a + 1, if b < i then b else b + 1);
    }
  }

  /** Where the strings before the last one were. */
  lemma Passed(before: seq<string>, k: string, a: nat)
    requires Distinct(before) && a < |Without(before, IndexOf(before, k))|
    ensures var i := IndexOf(before, k);
      var b := if a < i then a else a + 1;
      b < |before| && (Without(before, i) + [k])[a] == before[b] != k
  {
    var i := IndexOf(before, k);
    var b := if a < i then a else a + 1;
    assert Without(before, i)[a] == before[b];
    if i < |before| { assert before[b] != before[i]; }
  }

  ghost predicate AmongLast(history: seq<string>, t: string, n: nat) {
    exists i :: LastUse(history, i, t) && |UsedSince(history, i)| < n
  }

  lemma SinceIsAfter(history: seq<string>, a: nat)
    requires a < |Recent(history)|
    ensures var i := LastIndex(history, Recent(history)[a]);
      |UsedSince(history, i)| == |Recent(history)| - 1 - a
  {
    var r := Recent(history);
    var i := LastIndex(history, r[a]);
    RecentDistinct(history);
    forall t ensures t in UsedSince(history, i) <==> t in r[a + 1..] {
      RecentUsed(history, t);
      UsedLater(history, i, t);
      if t in r {
        var b :| 0 <= b < |r| && r[b] == t;
        if b < a { RecentOrder(history, b, a); } else if b > a { RecentOrder(history, a, b); }
        assert b > a ==> r[a + 1..][b - a - 1] == t;
      }
    }
    DistinctCount(r[a + 1..], UsedSince(history, i));
  }

  lemma UsedLater(history: seq<string>, i: int, t: string)
    requires -1 <= i
    ensures t in UsedSince(history, i) <==> LastIndex(history, t) > i
  {
    var l := LastIndex(history, t);
    if t in UsedSince(history, i) {
      var j :| i < j < |history| && history[j] == t;
    }
  }

  lemma {:induction false} DistinctCount(s: seq<string>, all: set<string>)
    requires Distinct(s) && forall t :: t in all <==> t in s
    ensures |all| == |s|
  {
    if |s| == 0 {
      assert all == {};
    } else {
      var front, k := s[..|s| - 1], s[|s| - 1];
      assert s == front + [k];
      DistinctCount(front, all - {k});
    }
  }

  /** A text is kept exactly if it was used and fewer than 64 others have been used since. */
  lemma KeptMeans(history: seq<string>, t: string)
    ensures t in Kept(Recent(history)) <==> AmongLast(history, t, 64)
  {
    var r := Recent(history);
    RecentDistinct(history);
    RecentUsed(history, t);
    if t in r {
      var a :| 0 <= a < |r| && r[a] == t;
      SinceIsAfter(history, a);
      CountsSince(history, t);
      KeptFrom(r, a);
    }
  }

  /** So the cache has a statement for exactly those. */
  lemma CachedMeans(c: Cache, t: string)
    requires c.Valid()
    ensures (exists k :: 0 <= k < |c.entries| && c.entries[k].sql == t) <==> AmongLast(c.history, t, 64)
  {
    KeptMeans(c.history, t);
    assert t in Keys(c.entries) <==> exists k :: 0 <= k < |c.entries| && Keys(c.entries)[k] == t;
  }

  lemma CountsSince(history: seq<string>, t: string)
    requires t in history
    ensures AmongLast(history, t, 64) <==> |UsedSince(history, LastIndex(history, t))| < 64
  {
    forall i | LastUse(history, i, t) ensures i == LastIndex(history, t) { OneLastUse(history, i, t); }
  }

  lemma KeptFrom(r: seq<string>, a: nat)
    requires a < |r| && Distinct(r)
    ensures r[a] in Kept(r) <==> |r| - 1 - a < 64
  {
    if |r| - 1 - a < 64 { assert Kept(r)[a + |Kept(r)| - |r|] == r[a]; }
  }

  /** Those kept are the end of `Recent`, in its order. */
  lemma KeptAt(r: seq<string>, a: nat)
    requires a < |Kept(r)|
    ensures |Kept(r)| <= |r| && Kept(r)[a] == r[|r| - |Kept(r)| + a]
  {
  }
}
