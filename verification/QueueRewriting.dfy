/** Where a write joins the queue and what a deletion takes out of it, by positions. */
module QueueRewriting {
  import opened FileModel
  import opened WorkQueue
  import opened Wrappers

  // ---- Writes ----

  /** A write joins an earlier one to its file over writes to other files and their creations, and over nothing else. */
  predicate Joins<B>(q: seq<Item<B>>, name: string, i: int) {
    && 0 <= i < |q| && q[i].act.Write? && q[i].name == name
    && forall j :: i < j < |q| ==> q[j].name != name && (q[j].act.Write? || q[j].act.Create?)
  }

  lemma {:induction false} WriteJoins<B>(q: seq<Item<B>>, name: string, base: B, parts: seq<Part>, i: int)
    requires Joins(q, name, i)
    ensures QueueWrite(q, name, base, parts) == q[i := Item(name, Write(q[i].act.base, q[i].act.parts + parts))]
  {
    MergeAt(q, name, parts, i);
  }

  lemma {:induction false} MergeAt<B>(q: seq<Item<B>>, name: string, parts: seq<Part>, i: int)
    requires Joins(q, name, i)
    ensures MergeWrite(q, name, parts) == Some(q[i := Item(name, Write(q[i].act.base, q[i].act.parts + parts))])
  {
    var n := |q| - 1;
    var front, joined := q[..n], Item(name, Write(q[i].act.base, q[i].act.parts + parts));
    if i == n {
      assert q[i := joined] == front + [joined];
    } else {
      MergeAt(front, name, parts, i);
      assert q[i := joined] == front[i := joined] + [q[n]];
    }
  }

  /** With none to join it goes to the end, with the content it was made on. */
  lemma WriteAppends<B>(q: seq<Item<B>>, name: string, base: B, parts: seq<Part>)
    requires forall i :: !Joins(q, name, i)
    ensures QueueWrite(q, name, base, parts) == q + [Item(name, Write(base, parts))]
  {
    NoMerge(q, name, parts);
  }

  lemma {:induction false} NoMerge<B>(q: seq<Item<B>>, name: string, parts: seq<Part>)
    requires forall i :: !Joins(q, name, i)
    ensures MergeWrite(q, name, parts).None?
  {
    if |q| > 0 {
      var n := |q| - 1;
      assert !Joins(q, name, n);
      if q[n].name != name && (q[n].act.Write? || q[n].act.Create?) {
        forall i ensures !Joins(q[..n], name, i) {
          assert !Joins(q, name, i);
          if Joins(q[..n], name, i) { JoinsOn(q, name, i); }
        }
        NoMerge(q[..n], name, parts);
      }
    }
  }

  lemma JoinsOn<B>(q: seq<Item<B>>, name: string, i: int)
    requires |q| > 0 && q[|q| - 1].name != name && (q[|q| - 1].act.Write? || q[|q| - 1].act.Create?)
    requires Joins(q[..|q| - 1], name, i)
    ensures Joins(q, name, i)
  {
    var front := q[..|q| - 1];
    forall j | i < j < |q| ensures q[j].name != name && (q[j].act.Write? || q[j].act.Create?) {
      if j < |front| { assert front[j].name != name && (front[j].act.Write? || front[j].act.Create?); }
    }
  }

  // ---- Deletions ----

  /** Any truncation stops a deletion, and so do its file's own creation and deletion. */
  predicate Stopping<B>(item: Item<B>, name: string) {
    item.act.Truncate? || (item.name == name && (item.act.Create? || item.act.Delete?))
  }

  predicate LastStop<B>(q: seq<Item<B>>, name: string, i: int) {
    0 <= i < |q| && Stopping(q[i], name) && forall j :: i < j < |q| ==> !Stopping(q[j], name)
  }

  /** The queue without the writes to one file. */
  function WithoutWrites<B>(q: seq<Item<B>>, name: string): seq<Item<B>> {
    if |q| == 0 then []
    else
      var front, last := WithoutWrites(q[..|q| - 1], name), q[|q| - 1];
      if last.act.Write? && last.name == name then front else front + [last]
  }

  /** The writes to its file since the last stop go. If the stop is the file's creation that goes too and nothing is
      queued, if it is a deletion that one does, and if it is a truncation the deletion is queued. */
  lemma DeletionStopped<B>(q: seq<Item<B>>, name: string, i: int)
    requires LastStop(q, name, i)
    ensures var rest := WithoutWrites(q[i + 1..], name);
      QueueDelete(q, name) ==
        if q[i].act.Truncate? then q[..i + 1] + rest + [Item(name, Delete)]
        else if q[i].act.Delete? then q[..i + 1] + rest
        else q[..i] + rest
  {
    CancelAtStop(q, name, i);
  }

  lemma {:induction false} CancelAtStop<B>(q: seq<Item<B>>, name: string, i: int)
    requires LastStop(q, name, i)
    ensures var rest := WithoutWrites(q[i + 1..], name);
      CancelDelete(q, name) ==
        if q[i].act.Truncate? then (q[..i + 1] + rest, false)
        else if q[i].act.Delete? then (q[..i + 1] + rest, true)
        else (q[..i] + rest, true)
  {
    var n := |q| - 1;
    if i < n {
      var front, after := q[..n], WithoutWrites(q[i + 1..n], name);
      CancelAtStop(front, name, i);
      assert front[i + 1..] == q[i + 1..n] == q[i + 1..][..n - i - 1];
      assert front[..i + 1] == q[..i + 1] && front[..i] == q[..i];
      assert q[..i + 1] + after + [q[n]] == q[..i + 1] + (after + [q[n]]);
      assert q[..i] + after + [q[n]] == q[..i] + (after + [q[n]]);
    } else {
      var rest := WithoutWrites(q[i + 1..], name);
      assert q[i + 1..] == [] && rest == [];
      assert q[..i + 1] + rest == q && q[..i] + rest == q[..n];
    }
  }

  /** With no stop its file's writes go and the deletion is queued. */
  lemma DeletionUnstopped<B>(q: seq<Item<B>>, name: string)
    requires forall i :: 0 <= i < |q| ==> !Stopping(q[i], name)
    ensures QueueDelete(q, name) == WithoutWrites(q, name) + [Item(name, Delete)]
  {
    CancelAll(q, name);
  }

  lemma {:induction false} CancelAll<B>(q: seq<Item<B>>, name: string)
    requires forall i :: 0 <= i < |q| ==> !Stopping(q[i], name)
    ensures CancelDelete(q, name) == (WithoutWrites(q, name), false)
  {
    if |q| > 0 {
      assert !Stopping(q[|q| - 1], name);
      CancelAll(q[..|q| - 1], name);
    }
  }
}
