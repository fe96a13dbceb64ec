/** The file system that answers from memory and carries its changes to the database one at a time. */
module FileStore {
  import opened FileAgreement
  import opened FileDatabase
  import opened FileModel
  import opened FileViews
  import opened WorkQueue
  import WriteOverlay
  import opened Wrappers

  /** What a change does in its transaction: a write has turned its parts into blocks. */
  datatype Step = MakeFile | PutBlocks(blocks: map<nat, seq<Byte>>, size: nat) | CutTo(size: nat) | DropFile

  ghost predicate Carries(s: Step, c: Change) {
    match c
    case Create => s.MakeFile?
    case Write(base, parts) => s == PutBlocks(OverlayBlocks(base, parts), |Patched(base, parts)|)
    case Truncate(size) => s == CutTo(size)
    case Delete => s.DropFile?
  }

  /** The item under way: none; taken from the list, its timer still to go off; or at work on the database. */
  datatype Running = Idle | Taken(item: Item<array<Byte>>) | Prepared(name: string, step: Step)

  /** One file's two copies: equal but for the exposed positions, where memory has zeros. */
  ghost predicate Tracked(disk: Option<Durable>, busy: seq<Change>, waiting: seq<Change>, file: Option<seq<Byte>>,
                          exposed: set<nat>) {
    && Pending(disk, busy + waiting, file) && Mirrored(waiting, file)
    && AgreesBut(disk, busy + waiting, file, exposed)
  }

  class FileSystem {
    const db: Database
    const pending: PendingList<array<Byte>>
    var files: map<string, array<Byte>>
    var temporary: set<string>
    var running: Running

    /** The change at work on the database, with the bytes it was prepared from. */
    ghost var change: Change
    /** Every buffer a file, the item taken or a waiting write refers to. */
    ghost var buffers: set<array<Byte>>
    /** Files brought back in memory only, by a write or truncation through a handle that outlived them. */
    ghost var stray: set<string>
    /** The positions of a file that a write starting past its end or a truncation growing it has exposed, and no
        write to their block has made good and no truncation has cut off since. */
    ghost var exposed: map<string, set<nat>>

    ghost function Waiting(f: string): seq<Waiter>
      reads pending
    {
      Project(pending.items, f)
    }

    ghost function TakenBase(f: string): set<array<Byte>>
      reads this
    {
      if running.Taken? && running.item.name == f && running.item.act.Write? then {running.item.act.base} else {}
    }

    /** The change under way for a file: until its timer goes off a write still refers to its buffer. */
    ghost function Busy(f: string): seq<Change>
      reads this, TakenBase(f)
    {
      match running
      case Idle => []
      case Taken(item) => if item.name == f then [ViewAct(item.act)] else []
      case Prepared(name, _) => if name == f then [change] else []
    }

    /** The buffers the changes of a file refer to. */
    ghost function Refs(f: string): set<array<Byte>>
      reads this, pending
    {
      TakenBase(f) + Bases(Waiting(f))
    }

    ghost function Exposed(f: string): set<nat>
      reads this
    {
      if f in exposed then exposed[f] else {}
    }

    ghost predicate Kept(f: string)
      reads this
    {
      f in files && f !in temporary && f !in stray
    }

    /** The bytes of a file that outlives the session. */
    ghost function Persistent(f: string): Option<seq<Byte>>
      reads this, if f in files then {files[f]} else {}
    {
      if Kept(f) then Some(files[f][..]) else None
    }

    /** Buffers are not shared between files, nor between a file and queued writes, except a file's own. */
    ghost predicate Separate()
      reads this, pending
    {
      && (forall f :: f in files ==> files[f] in buffers)
      && (forall f, g :: f in files && g in files && f != g ==> files[f] != files[g])
      && (forall f :: Refs(f) <= buffers)
      && (forall f, g :: g in files && (f != g || g in temporary) ==> files[g] !in Refs(f))
    }

    ghost predicate FileOk(f: string)
      reads this, pending, db, buffers
    {
      && Refs(f) <= buffers
      && (f in files ==> files[f] in buffers)
      && Tracked(db.Disk(f), Busy(f), View(Waiting(f)), Persistent(f), Exposed(f))
    }

    ghost predicate Sound()
      reads this, pending, db, buffers
    {
      && Separate() && temporary <= files.Keys && stray <= files.Keys && temporary !! stray
      && (forall f :: FileOk(f))
      && (running.Prepared? ==> Carries(running.step, change))
    }

    /** Nothing waits while nothing is under way. */
    ghost predicate Valid()
      reads this, pending, db, buffers
    {
      Sound() && (running.Idle? ==> pending.items == [])
    }

    /** The queue `q` after the item under way `was`, with the oldest item taken if none was. */
    ghost predicate Started(was: Running, q: seq<Item<array<Byte>>>)
      reads this, pending
    {
      if was.Idle? && q != [] then running == Taken(q[0]) && pending.items == q[1..]
      else running == was && pending.items == q
    }

    /** Starting up: every file in the database is read back into a buffer of its own. */
    constructor (db: Database)
      requires db.Whole()
      ensures this.db == db && fresh(pending) && fresh(buffers) && Valid()
      ensures files.Keys == db.files.Keys && forall f :: f in files ==> files[f][..] == db.files[f].Content()
      ensures temporary == {} && running.Idle? && stray == {} && exposed == map[]
    {
      var loaded, arrays := LoadFiles(db);
      pending := new PendingList();
      this.db, files, temporary, running := db, loaded, {}, Idle;
      change, buffers, stray, exposed := Act.Create, arrays, {}, map[];
      new;
      forall f ensures FileOk(f) {
        LoadedAgrees(db.Disk(f), Persistent(f));
      }
    }

    // ---- What a change to one file leaves alone ----

    twostate lemma Untouched(f: string)
      requires old(FileOk(f)) && old(buffers) <= buffers
      requires Waiting(f) == old(Waiting(f)) && Refs(f) <= old(Refs(f))
      requires Busy(f) == old(Busy(f)) && db.Disk(f) == old(db.Disk(f))
      requires Kept(f) == old(Kept(f)) && (Kept(f) ==> files[f] == old(files[f]) && unchanged(files[f]))
      requires f in files ==> files[f] in buffers
      requires forall a :: a in Bases(Waiting(f)) ==> unchanged(a)
      requires Exposed(f) == old(Exposed(f))
      ensures FileOk(f)
    {
      assert View(Waiting(f)) == old(View(Waiting(f)));
    }

    /** What the store has on a file, its bytes aside, is as it was. */
    twostate predicate Same(f: string)
      reads this, pending
    {
      && Waiting(f) == old(Waiting(f))
      && (f in files <==> f in old(files)) && (f in files ==> files[f] == old(files[f]))
      && (f in temporary <==> f in old(temporary)) && (f in stray <==> f in old(stray))
      && Exposed(f) == old(Exposed(f))
    }

    /** A change that concerns one name may replace its buffer with a new one, and its waiting writes
        may refer to the buffer it had. */
    twostate predicate Framed(name: string)
      reads this, pending, db
    {
      && old(buffers) <= buffers && unchanged(db) && running == old(running) && change == old(change)
      && (forall f :: f != name ==> Same(f))
      && (name in temporary || name in stray ==> name in files) && !(name in temporary && name in stray)
      && (name in files ==> files[name] in buffers)
      && (name in files ==> files[name] !in old(buffers) || (name in old(files) && files[name] == old(files[name])))
    }

    twostate predicate BasesFramed(name: string)
      reads this, pending
    {
      && Refs(name) <= buffers
      && (name in temporary ==> name in files && files[name] !in Refs(name))
      && forall a :: a in Refs(name) ==>
           a in old(Refs(name)) || a !in old(buffers) || (name in old(files) && a == old(files[name]))
    }

    /** Buffers stay separate. */
    twostate lemma Apart(name: string)
      requires old(Separate()) && Framed(name) && BasesFramed(name)
      ensures Separate()
    {
      forall f | f != name ensures Same(f) && Refs(f) == old(Refs(f)) {
        assert Same(f);
      }
      forall f, g | f in files && g in files && f != g ensures files[f] != files[g] {
        assert f != name ==> Same(f);
        assert g != name ==> Same(g);
      }
      forall f, g | g in files && (f != g || g in temporary) ensures files[g] !in Refs(f) {
        assert f != name ==> Same(f);
        assert g != name ==> Same(g);
      }
      forall f ensures Refs(f) <= buffers {
        assert f != name ==> Same(f);
      }
      forall f | f in files ensures files[f] in buffers {
        assert f != name ==> Same(f);
      }
    }

    /** Every other file's two copies stay as they were. */
    twostate lemma Others(name: string)
      requires old(Sound()) && Framed(name)
      requires forall a :: a in old(buffers) && !(name in old(files) && a == old(files[name])) ==> unchanged(a)
      ensures forall f :: f != name ==> FileOk(f)
    {
      forall f | f != name ensures FileOk(f) {
        Other((name, f));
      }
    }

    twostate lemma Other(pair: (string, string))
      requires old(Sound()) && Framed(pair.0) && pair.1 != pair.0
      requires forall a :: a in old(buffers) && !(pair.0 in old(files) && a == old(files[pair.0])) ==> unchanged(a)
      ensures FileOk(pair.1)
    {
      var name, f := pair.0, pair.1;
      assert old(FileOk(f)) && Same(f);
      assert name in old(files) ==> old(files[name]) !in old(Refs(f));
      assert Busy(f) == old(Busy(f));
      Untouched(f);
    }

    /** So the store is sound again once the file concerned is in order. */
    twostate lemma Settled(name: string)
      requires old(Sound()) && Framed(name) && BasesFramed(name) && FileOk(name)
      requires forall a :: a in old(buffers) && !(name in old(files) && a == old(files[name])) ==> unchanged(a)
      ensures Sound()
    {
      Others(name);
      Apart(name);
      forall f | f in temporary || f in stray ensures f in files && !(f in temporary && f in stray) {
        assert f != name ==> Same(f);
      }
    }

    /** A change to a temporary file concerns its buffer alone. */
    twostate lemma TemporarySound(name: string)
      requires old(Sound()) && name in temporary && name in files && (name in old(files) ==> name in old(temporary))
      requires files == old(files)[name := files[name]] && buffers == old(buffers) + {files[name]}
      requires files[name] !in old(buffers) || (name in old(files) && files[name] == old(files[name]))
      requires temporary == old(temporary) + {name} && stray == old(stray) && exposed == old(exposed)
      requires unchanged(db) && unchanged(pending) && running == old(running) && change == old(change)
      requires forall a :: a in old(buffers) && !(name in old(files) && a == old(files[name])) ==> unchanged(a)
      ensures Sound()
    {
      assert old(FileOk(name));
      assert name in old(files) ==> old(files[name]) !in Refs(name);
      assert forall f :: f != name ==> Same(f);
      TemporaryOk(name);
      Settled(name);
    }

    twostate lemma TemporaryOk(name: string)
      requires old(FileOk(name)) && name in temporary && name in files
      requires name in old(files) ==> name in old(temporary)
      requires old(buffers) <= buffers && files[name] in buffers && exposed == old(exposed)
      requires unchanged(db) && unchanged(pending) && running == old(running) && change == old(change)
      requires forall a :: a in Refs(name) ==> unchanged(a)
      ensures FileOk(name)
    {
      assert forall a :: a in TakenBase(name) || a in Bases(Waiting(name)) ==> a in Refs(name);
      assert Busy(name) == old(Busy(name)) by {
        assert running.Taken? && running.item.name == name && running.item.act.Write? ==>
            running.item.act.base in TakenBase(name);
      }
      Untouched(name);
    }

    // ---- The queue moves on ----

    /** Taking the oldest change keeps it, and its buffer, as they are. */
    twostate lemma TakenOk(f: string)
      requires old(FileOk(f)) && old(running.Idle?) && running.Taken? && old(buffers) <= buffers
      requires Split(running.item, old(Waiting(f)), Waiting(f), f)
      requires db.Disk(f) == old(db.Disk(f)) && Persistent(f) == old(Persistent(f))
      requires f in files ==> files[f] in buffers
      requires forall a :: a in old(buffers) ==> unchanged(a)
      requires Exposed(f) == old(Exposed(f))
      ensures Refs(f) <= old(Refs(f)) && FileOk(f)
    {
      if f == running.item.name {
        ViewCons(running.item.act, Waiting(f));
        assert View([running.item.act] + Waiting(f)) == old(View(Waiting(f)));
        TakenKeeps(db.Disk(f), old(View(Waiting(f))), ViewAct(running.item.act), View(Waiting(f)), Persistent(f),
                   Exposed(f));
      } else {
        assert View(Waiting(f)) == old(View(Waiting(f)));
      }
    }

    /** Takes the oldest waiting change if none is under way, and sets a timer for it. */
    method Start()
      requires Sound()
      modifies `running, pending
      ensures Valid() && Started(old(running), old(pending.items))
    {
      if !running.Idle? || |pending.items| == 0 { return; }
      ghost var was := pending.items;
      forall f ensures Split(was[0], Waiting(f), Project(was[1..], f), f) {
        FirstSplit(was, f);
      }
      var item := pending.TakeFirst();
      running := Taken(item);
      forall f ensures Refs(f) <= old(Refs(f)) && FileOk(f) {
        assert old(FileOk(f)) && old(Split(was[0], Waiting(f), Project(was[1..], f), f));
        TakenOk(f);
      }
    }

    /** The timer goes off: the change is prepared from the bytes its buffer holds now. */
    method Fire()
      requires Valid() && running.Taken?
      modifies `running, `change
      ensures Valid() && running.Prepared? && running.name == old(running.item.name)
      ensures change == old(ViewAct(running.item.act))
    {
      var item := running.item;
      ghost var c := ViewAct(item.act);
      var step := Prepare(item.act);
      running, change := Prepared(item.name, step), c;
      forall f ensures Refs(f) <= old(Refs(f)) && FileOk(f) {
        assert old(FileOk(f));
        Fired(f);
      }
    }

    /** Preparing a change keeps what is under way as it is. */
    twostate lemma Fired(f: string)
      requires old(FileOk(f)) && old(running.Taken?) && unchanged(pending) && unchanged(db)
      requires running.Prepared? && running.name == old(running.item.name) && change == old(ViewAct(running.item.act))
      requires files == old(files) && temporary == old(temporary) && stray == old(stray)
      requires exposed == old(exposed) && buffers == old(buffers)
      requires forall a :: a in old(buffers) ==> unchanged(a)
      ensures Refs(f) <= old(Refs(f)) && FileOk(f)
    {
      assert old(f in files ==> files[f] in buffers) && old(Refs(f) <= buffers);
      FiredBusy(f);
      Untouched(f);
    }

    twostate lemma FiredBusy(f: string)
      requires old(running.Taken?) && running.Prepared?
      requires running.name == old(running.item.name) && change == old(ViewAct(running.item.act))
      ensures Busy(f) == old(Busy(f)) && TakenBase(f) == {}
    {
    }

    /** A file in the database once the change at work is carried out. */
    ghost function Committed(f: string): Option<Durable>
      reads this, db
    {
      if running.Prepared? && running.name == f then Exec(change, db.Disk(f)) else db.Disk(f)
    }

    /** Carrying out the change under way. */
    twostate lemma Carried(f: string)
      requires old(FileOk(f) && running.Prepared?) && running.Idle? && old(buffers) <= buffers
      requires Waiting(f) == old(Waiting(f)) && db.Disk(f) == old(Committed(f))
      requires Persistent(f) == old(Persistent(f)) && (f in files ==> files[f] in buffers)
      requires forall a :: a in old(buffers) ==> unchanged(a)
      requires Exposed(f) == old(Exposed(f))
      ensures FileOk(f)
    {
      var waiting := View(Waiting(f));
      assert waiting == old(View(Waiting(f)));
      if old(running.name) == f {
        CarriedKeeps(old(db.Disk(f)), old(change), waiting, Persistent(f), Exposed(f));
      }
    }

    /** The transaction of the change at work commits, and the next change is taken. */
    method Finish()
      requires Valid() && running.Prepared?
      modifies db, `running, pending
      ensures Valid() && forall f :: db.Disk(f) == old(Committed(f))
      ensures Started(Idle, old(pending.items))
    {
      Commit();
      Start();
    }

    method Commit()
      requires Sound() && running.Prepared?
      modifies db, `running
      ensures Sound() && running.Idle? && forall f :: db.Disk(f) == old(Committed(f))
    {
      var name, step := running.name, running.step;
      CarryOut(db, name, step, change);
      running := Idle;
      assert forall f :: db.Disk(f) == old(Committed(f));
      forall f ensures Refs(f) <= old(Refs(f)) && FileOk(f) {
        assert old(FileOk(f));
        Carried(f);
      }
    }

    /** With no new work the queue drains. */
    method Drain()
      requires Valid()
      modifies db, `running, `change, pending
      ensures Valid() && running.Idle?
    {
      while !running.Idle?
        invariant Valid()
        decreases |pending.items|, if running.Idle? then 0 else if running.Prepared? then 1 else 2
      {
        if running.Taken? { Fire(); } else { Finish(); }
      }
    }

    // ---- Deleting ----

    twostate lemma Deleted(f: string)
      requires old(FileOk(f)) && old(buffers) <= buffers && f !in files
      requires running == old(running) && change == old(change) && db.Disk(f) == old(db.Disk(f))
      requires || DeleteQueued(old(Waiting(f)), Waiting(f))
               || (old(Persistent(f)).None? && Waiting(f) == old(Waiting(f)))
      requires forall a :: a in old(buffers) ==> unchanged(a)
      ensures Refs(f) <= old(Refs(f)) && FileOk(f)
    {
      var ops := old(Waiting(f));
      assert View(ops) == old(View(Waiting(f))) && Busy(f) == old(Busy(f));
      if Waiting(f) != ops || old(Persistent(f)).Some? {
        ViewDeleted(ops, Waiting(f));
        DeleteKeeps(db.Disk(f), Busy(f), View(ops), View(Waiting(f)), old(Persistent(f)));
      }
    }

    /** Deleting a file, which may be absent; only a temporary one goes without the database hearing of it. */
    method Delete(name: string)
      requires Valid()
      modifies this, pending
      ensures Valid() && files == old(files) - {name} && temporary == old(temporary) - {name}
      ensures buffers == old(buffers) && stray == old(stray) - {name} && exposed == old(exposed)[name := {}]
      ensures change == old(change)
      ensures Started(old(running), if name in old(temporary) then old(pending.items)
                                    else QueueDelete(old(pending.items), name))
    {
      var known := name !in temporary;
      Forget(name, known);
      if known { Start(); }
    }

    method Forget(name: string, known: bool)
      requires Valid() && known == (name !in temporary)
      modifies this, pending
      ensures Sound() && files == old(files) - {name} && temporary == old(temporary) - {name}
      ensures buffers == old(buffers) && stray == old(stray) - {name} && exposed == old(exposed)[name := {}]
      ensures running == old(running) && change == old(change)
      ensures pending.items == if known then QueueDelete(old(pending.items), name) else old(pending.items)
    {
      files, temporary := files - {name}, temporary - {name};
      stray, exposed := stray - {name}, exposed[name := {}];
      if known { pending.AddDelete(name); }
      Forgotten(name);
    }

    twostate lemma Forgotten(name: string)
      requires old(Sound()) && files == old(files) - {name} && temporary == old(temporary) - {name}
      requires stray == old(stray) - {name} && exposed == old(exposed)[name := {}] && buffers == old(buffers)
      requires unchanged(db) && running == old(running) && change == old(change)
      requires pending.items ==
        if name in old(temporary) then old(pending.items) else QueueDelete(old(pending.items), name)
      requires forall a :: a in old(buffers) ==> unchanged(a)
      ensures Sound()
    {
      if name !in old(temporary) { DeleteProjection(old(pending.items), name, name); }
      forall f | f != name ensures Same(f) {
        if name !in old(temporary) { DeleteProjection(old(pending.items), name, f); }
      }
      assert old(FileOk(name));
      Deleted(name);
      Settled(name);
    }

    // ---- Opening ----

    twostate lemma Opened(f: string)
      requires old(FileOk(f)) && old(buffers) <= buffers && f !in old(files)
      requires Kept(f) && files[f] in buffers && files[f].Length == 0 && Exposed(f) == {}
      requires running == old(running) && change == old(change) && db.Disk(f) == old(db.Disk(f))
      requires Waiting(f) == old(Waiting(f)) + [Act.Create]
      requires forall a :: a in old(buffers) ==> unchanged(a)
      ensures Refs(f) <= old(Refs(f)) && FileOk(f)
    {
      var ops := old(Waiting(f));
      assert View(ops) == old(View(Waiting(f))) && Busy(f) == old(Busy(f));
      ViewPush(ops, Act.Create);
      assert files[f][..] == [] && old(Persistent(f)) == None;
      TrackedCreate(db.Disk(f), Busy(f), View(ops), old(Exposed(f)));
    }

    /** A file given a new buffer and one more waiting change. */
    twostate predicate Appended(name: string)
      reads this, pending, db
    {
      && name in files && files == old(files)[name := files[name]]
      && name !in temporary && temporary == old(temporary)
      && files[name] !in old(buffers) && buffers == old(buffers) + {files[name]}
      && unchanged(db) && running == old(running) && change == old(change)
      && |pending.items| > 0 && pending.items == old(pending.items) + [pending.items[|pending.items| - 1]]
      && pending.items[|pending.items| - 1].name == name && !pending.items[|pending.items| - 1].act.Write?
    }

    twostate lemma AppendedFramed(name: string)
      requires old(Sound()) && Appended(name)
      requires stray == old(stray) || stray == old(stray) + {name}
      requires forall f :: f != name ==> Exposed(f) == old(Exposed(f))
      ensures Framed(name) && Waiting(name) == old(Waiting(name)) + [pending.items[|pending.items| - 1].act]
      ensures Refs(name) <= old(Refs(name)) ==> BasesFramed(name)
    {
      var item := pending.items[|pending.items| - 1];
      ProjectPush(old(pending.items), item, name);
      forall f | f != name ensures Same(f) { ProjectPush(old(pending.items), item, f); }
    }

    twostate lemma OpenedSound(name: string)
      requires forall a :: a in old(buffers) ==> unchanged(a)
      requires old(Sound()) && Appended(name) && pending.items[|pending.items| - 1].act.Create?
      requires name !in old(files) && files[name].Length == 0 && stray == old(stray)
      requires exposed == old(exposed)[name := {}]
      ensures Sound()
    {
      AppendedFramed(name);
      assert old(FileOk(name));
      Opened(name);
      Settled(name);
    }

    /** Opens a file, creating it if asked to; a file to be deleted on close is kept from the database. */
    method Open(name: string, create: bool, deleteOnClose: bool) returns (ok: bool)
      requires Valid()
      modifies this, pending
      ensures Valid() && ok == (name in old(files) || create)
      ensures fresh(buffers - old(buffers)) && old(buffers) <= buffers
      ensures name in old(files) || !create ==>
        && files == old(files) && temporary == old(temporary) && exposed == old(exposed)
        && running == old(running) && pending.items == old(pending.items)
      ensures name !in old(files) && create ==>
        && name in files && files == old(files)[name := files[name]] && files[name][..] == []
        && temporary == (if deleteOnClose then old(temporary) + {name} else old(temporary))
        && exposed == (if deleteOnClose then old(exposed) else old(exposed)[name := {}])
        && Started(old(running), if deleteOnClose then old(pending.items)
                                 else old(pending.items) + [Item(name, Act.Create)])
      ensures stray == old(stray) && change == old(change)
    {
      ok := name in files || create;
      if name !in files && create {
        var empty := new Byte[0];
        if deleteOnClose {
          AddTemporary(name, empty);
        } else {
          AddFile(name, empty);
          Start();
        }
      }
    }

    method AddTemporary(name: string, empty: array<Byte>)
      requires Valid() && name !in files && empty !in buffers
      modifies this
      ensures Valid() && files == old(files)[name := empty] && buffers == old(buffers) + {empty}
      ensures temporary == old(temporary) + {name} && exposed == old(exposed) && stray == old(stray)
      ensures running == old(running) && change == old(change)
    {
      files, buffers, temporary := files[name := empty], buffers + {empty}, temporary + {name};
      TemporarySound(name);
    }

    method AddFile(name: string, empty: array<Byte>)
      requires Valid() && name !in files && empty !in buffers && empty.Length == 0
      modifies this, pending
      ensures Sound() && files == old(files)[name := empty] && buffers == old(buffers) + {empty}
      ensures temporary == old(temporary) && exposed == old(exposed)[name := {}] && stray == old(stray)
      ensures running == old(running) && change == old(change)
      ensures pending.items == old(pending.items) + [Item(name, Act.Create)]
    {
      files, buffers, exposed := files[name := empty], buffers + {empty}, exposed[name := {}];
      pending.Append(Item(name, Act.Create));
      OpenedSound(name);
    }

    // ---- Truncating ----

    /** The bytes under a name, none if there is no such file. */
    ghost function Bytes(name: string): seq<Byte>
      reads this, if name in files then {files[name]} else {}
    {
      if name in files then files[name][..] else []
    }

    twostate lemma Shortened(f: string)
      requires old(FileOk(f)) && old(buffers) <= buffers && f in files && files[f] in buffers
      requires running == old(running) && change == old(change) && db.Disk(f) == old(db.Disk(f))
      requires Waiting(f) == old(Waiting(f)) + [Act.Truncate(files[f].Length)]
      requires files[f][..] == Resized(old(Bytes(f)), files[f].Length)
      requires forall a :: a in old(buffers) ==> unchanged(a)
      requires Kept(f) == old(Kept(f))
      requires Exposed(f) == Recut(old(Exposed(f)), |old(Bytes(f))|, files[f].Length)
      ensures Refs(f) <= old(Refs(f)) && FileOk(f)
    {
      var ops, size := old(Waiting(f)), files[f].Length;
      assert View(ops) == old(View(Waiting(f))) && Busy(f) == old(Busy(f));
      ViewPush(ops, Act.Truncate(size));
      if Kept(f) {
        TrackedTruncate(db.Disk(f), Busy(f), View(ops), old(Bytes(f)), size, old(Exposed(f)));
      } else {
        StrayPush(db.Disk(f), Busy(f), View(ops), Act.Truncate(size));
      }
    }

    twostate lemma ShortenedSound(name: string)
      requires forall a :: a in old(buffers) ==> unchanged(a)
      requires old(Sound()) && Appended(name)
      requires pending.items[|pending.items| - 1].act == Act.Truncate(files[name].Length)
      requires files[name][..] == Resized(old(Bytes(name)), files[name].Length)
      requires stray == if name in old(files) then old(stray) else old(stray) + {name}
      requires exposed == old(exposed)[name := Recut(old(Exposed(name)), |old(Bytes(name))|, files[name].Length)]
      ensures Sound()
    {
      AppendedFramed(name);
      assert old(FileOk(name));
      Shortened(name);
      Settled(name);
    }

    /** Truncation moves the file's first bytes to a new buffer of the given size, zero past them; under a name
        that is absent it brings a file of zeros into memory, and the queued truncation will fail. */
    method Truncate(name: string, size: nat)
      requires Valid()
      modifies this, pending
      ensures Valid() && fresh(buffers - old(buffers)) && old(buffers) <= buffers
      ensures name in files && files == old(files)[name := files[name]]
      ensures files[name][..] == Resized(old(Bytes(name)), size)
      ensures temporary == old(temporary) && change == old(change)
      ensures stray == if name in old(files) then old(stray) else old(stray) + {name}
      ensures exposed == if name in temporary then old(exposed)
                         else old(exposed)[name := Recut(old(Exposed(name)), |old(Bytes(name))|, size)]
      ensures Started(old(running), if name in temporary then old(pending.items)
                                    else old(pending.items) + [Item(name, Act.Truncate(size))])
    {
      var p: array<Byte>;
      if name in files { p := Cut(files[name], size); } else { p := Zeros(size); }
      if name in temporary {
        ReplaceTemporary(name, p);
      } else {
        Replace(name, p);
        Start();
      }
    }

    method ReplaceTemporary(name: string, p: array<Byte>)
      requires Valid() && p !in buffers && name in temporary
      modifies this
      ensures Valid() && files == old(files)[name := p] && buffers == old(buffers) + {p}
      ensures temporary == old(temporary) && stray == old(stray) && exposed == old(exposed)
      ensures running == old(running) && change == old(change)
    {
      files, buffers := files[name := p], buffers + {p};
      TemporarySound(name);
    }

    /** The truncated file takes the name, and the truncation joins the queue. */
    method Replace(name: string, p: array<Byte>)
      requires Valid() && p !in buffers && p[..] == Resized(Bytes(name), p.Length) && name !in temporary
      modifies this, pending
      ensures Sound() && files == old(files)[name := p] && buffers == old(buffers) + {p}
      ensures temporary == old(temporary) && running == old(running) && change == old(change)
      ensures stray == if name in old(files) then old(stray) else old(stray) + {name}
      ensures exposed == old(exposed)[name := Recut(old(Exposed(name)), |old(Bytes(name))|, p.Length)]
      ensures pending.items == old(pending.items) + [Item(name, Act.Truncate(p.Length))]
    {
      stray := if name in files then stray else stray + {name};
      exposed := exposed[name := Recut(Exposed(name), |Bytes(name)|, p.Length)];
      files, buffers := files[name := p], buffers + {p};
      pending.Append(Item(name, Act.Truncate(p.Length)));
      ShortenedSound(name);
    }

    // ---- Writing ----

    /** What the change under way and the waiting ones carry, after a write in place to one buffer. */
    twostate lemma Rebases(new item: Item<array<Byte>>)
      requires item.act.Write? && |item.act.parts| == 1
      requires var f := item.name; running == old(running) && change == old(change) && old(Refs(f) <= buffers)
      requires forall a :: a in old(buffers) && a != item.act.base ==> unchanged(a)
      requires item.act.base in old(buffers) ==>
        Overwritten(old(item.act.base[..]), item.act.base[..], item.act.parts[0])
      requires var f := item.name; WriteQueued(old(Waiting(f)), Waiting(f), item.act.base, item.act.parts)
      ensures var f := item.name;
        Queues(old(Busy(f)), Busy(f), old(View(Waiting(f))), View(old(Waiting(f))), View(Waiting(f)),
               item.act.base[..], item.act.parts[0])
    {
      var f, w := item.name, item.act.parts[0];
      var ops, was := old(Waiting(f)), old(View(Waiting(f)));
      assert item.act.parts == [w];
      ViewWritten(ops, Waiting(f), item.act.base, [w]);
      forall i | 0 <= i < |ops| ensures RebasedChange(was[i], View(ops)[i], w) {
        if ops[i].Write? { assert ops[i].base in Bases(ops); }
      }
      if running.Taken? && running.item.name == f && running.item.act.Write? {
        assert running.item.act.base in old(buffers);
      }
    }

    /** A write to a file: its waiting write refers to the buffer the file had, which holds what it held or,
        if the write was done in place, what the file now holds. */
    twostate lemma Written(item: Item<array<Byte>>)
      requires old(FileOk(item.name)) && old(buffers) <= buffers && item.act.Write? && |item.act.parts| == 1
      requires running == old(running) && change == old(change) && db.Disk(item.name) == old(db.Disk(item.name))
      requires WriteQueued(old(Waiting(item.name)), Waiting(item.name), item.act.base, item.act.parts)
      requires Refs(item.name) <= buffers && (item.name in files ==> files[item.name] in buffers)
      requires Kept(item.name) == old(Kept(item.name))
      requires item.name in old(files) && item.name in files && item.act.base == old(files[item.name])
      requires files[item.name][..] == Splice(old(Bytes(item.name)), item.act.parts[0])
      requires || item.act.base[..] == old(item.act.base[..])
               || item.act.base[..] == Splice(old(item.act.base[..]), item.act.parts[0])
      requires |item.act.base[..]| == |old(item.act.base[..])|
      requires forall a :: a in old(buffers) && a != item.act.base ==> unchanged(a)
      requires Exposed(item.name) == Uncovered(old(Exposed(item.name)), |old(Bytes(item.name))|, item.act.parts[0])
      ensures FileOk(item.name)
    {
      var f, w := item.name, item.act.parts[0];
      Rebases(item);
      SpliceAgain(old(Bytes(f)), w);
      PatchedOne(item.act.base[..], w);
      assert Persistent(f) == Spliced(old(Persistent(f)), w);
      TrackedWrite(db.Disk(f), old(Busy(f)), Busy(f), old(View(Waiting(f))), View(old(Waiting(f))), View(Waiting(f)),
                   old(Persistent(f)), item.act.base[..], w, old(Exposed(f)));
    }

    /** A write through a handle that outlived its file. */
    twostate lemma WrittenAbsent(new item: Item<array<Byte>>)
      requires var f := item.name; old(FileOk(f)) && old(buffers) <= buffers && item.act.Write? && |item.act.parts| == 1
      requires running == old(running) && change == old(change) && (var f := item.name; db.Disk(f) == old(db.Disk(f)))
      requires var f := item.name; WriteQueued(old(Waiting(f)), Waiting(f), item.act.base, item.act.parts)
      requires Refs(item.name) <= buffers && (item.name in files ==> files[item.name] in buffers)
      requires var f := item.name; !Kept(f) && !old(Kept(f)) && item.act.base !in old(buffers)
      requires forall a :: a in old(buffers) ==> unchanged(a)
      ensures FileOk(item.name)
    {
      var f, w := item.name, item.act.parts[0];
      Rebases(item);
      TrackedWrite(db.Disk(f), old(Busy(f)), Busy(f), old(View(Waiting(f))), View(old(Waiting(f))), View(Waiting(f)),
                   None, item.act.base[..], w, old(Exposed(f)));
    }

    /** Queuing a write that carries `item.act.base`: the names and buffers it leaves in place. */
    twostate predicate Queued(new item: Item<array<Byte>>)
      reads this, pending, db
      requires item.act.Write?
    {
      var f, base := item.name, item.act.base;
      && old(buffers) <= buffers && base in buffers
      && unchanged(db) && running == old(running) && change == old(change)
      && pending.items == QueueWrite(old(pending.items), f, base, item.act.parts)
      && files == (if f in files then old(files)[f := files[f]] else old(files))
      && (f in files ==> files[f] in buffers && (files[f] == base || files[f] !in old(buffers)))
      && temporary == old(temporary) && f !in temporary
      && stray == (if f in old(files) || f !in files then old(stray) else old(stray) + {f})
      && (base !in old(buffers) || (f in old(files) && base == old(files[f])))
    }

    twostate lemma QueuedFramed(new item: Item<array<Byte>>)
      requires item.act.Write? && old(Sound()) && Queued(item)
      requires item.name !in old(files) ==> item.name !in files || files[item.name] !in old(buffers)
      requires forall f :: f != item.name ==> Exposed(f) == old(Exposed(f))
      ensures Framed(item.name) && BasesFramed(item.name)
      ensures var f := item.name; WriteQueued(old(Waiting(f)), Waiting(f), item.act.base, item.act.parts)
    {
      var name, r, parts := item.name, item.act.base, item.act.parts;
      WriteProjection(old(pending.items), name, r, parts, name);
      forall f | f != name ensures Same(f) { WriteProjection(old(pending.items), name, r, parts, f); }
      QueuedBases(item);
    }

    twostate lemma QueuedBases(new item: Item<array<Byte>>)
      requires item.act.Write? && Queued(item) && (var f := item.name; old(Refs(f) <= buffers))
      requires var f := item.name; WriteQueued(old(Waiting(f)), Waiting(f), item.act.base, item.act.parts)
      ensures BasesFramed(item.name)
    {
      var name := item.name;
      ViewWritten(old(Waiting(name)), Waiting(name), item.act.base, item.act.parts);
    }

    twostate lemma WrittenSound(item: Item<array<Byte>>)
      requires item.act.Write? && |item.act.parts| == 1 && old(Sound()) && Queued(item)
      requires item.name in old(files) && item.name in files && item.act.base == old(files[item.name])
      requires files[item.name][..] == Splice(old(Bytes(item.name)), item.act.parts[0])
      requires || item.act.base[..] == old(item.act.base[..])
               || item.act.base[..] == Splice(old(item.act.base[..]), item.act.parts[0])
      requires forall a :: a in old(buffers) && a != item.act.base ==> unchanged(a)
      requires exposed ==
        old(exposed)[item.name := Uncovered(old(Exposed(item.name)), |old(Bytes(item.name))|, item.act.parts[0])]
      ensures Sound()
    {
      QueuedFramed(item);
      assert old(FileOk(item.name));
      Written(item);
      Settled(item.name);
    }

    twostate lemma StraySound(new item: Item<array<Byte>>)
      requires item.act.Write? && |item.act.parts| == 1 && old(Sound()) && Queued(item)
      requires item.name !in old(files) && (item.name in files ==> files[item.name] !in old(buffers))
      requires forall a :: a in old(buffers) ==> unchanged(a)
      requires forall f :: f != item.name ==> Exposed(f) == old(Exposed(f))
      requires item.act.base !in old(buffers)
      ensures Sound()
    {
      var f := item.name;
      QueuedFramed(item);
      assert old(FileOk(f));
      WrittenAbsent(item);
      Settled(f);
    }

    /** Writing: the memory copy is done first, and the queued write refers to the buffer the file had before.
        Under a name that is absent a write of at least one byte brings a file into memory, and fails in the
        database. */
    method Write(name: string, w: Part)
      requires Valid()
      modifies this, pending, if name in files then {files[name]} else {}
      ensures Valid() && fresh(buffers - old(buffers)) && old(buffers) <= buffers
      ensures Bytes(name) == Splice(old(Bytes(name)), w)
      ensures files.Keys == if name in old(files) || w.End() > 0 then old(files.Keys) + {name} else old(files.Keys)
      ensures name in old(files) && w.End() <= |old(Bytes(name))| ==> files == old(files)
      ensures forall f :: f in old(files) && f != name ==> files[f] == old(files[f]) && Bytes(f) == old(Bytes(f))
      ensures temporary == old(temporary) && change == old(change)
      ensures stray == if name in old(files) || w.End() == 0 then old(stray) else old(stray) + {name}
      ensures exposed == if name in temporary then old(exposed)
                         else old(exposed)[name := Uncovered(old(Exposed(name)), |old(Bytes(name))|, w)]
      ensures name in old(files) ==>
        Started(old(running), if name in temporary then old(pending.items)
                              else QueueWrite(old(pending.items), name, old(files[name]), [w]))
    {
      if name in temporary { WriteTemporary(name, w); } else { WriteKept(name, w); }
    }

    method WriteKept(name: string, w: Part)
      requires Valid() && name !in temporary
      modifies this, pending, if name in files then {files[name]} else {}
      ensures Valid() && fresh(buffers - old(buffers)) && old(buffers) <= buffers
      ensures Bytes(name) == Splice(old(Bytes(name)), w)
      ensures if name in old(files) || w.End() > 0 then name in files && files == old(files)[name := files[name]]
              else files == old(files)
      ensures name in old(files) && w.End() <= |old(Bytes(name))| ==> files == old(files)
      ensures temporary == old(temporary) && change == old(change)
      ensures stray == if name in old(files) || w.End() == 0 then old(stray) else old(stray) + {name}
      ensures exposed == old(exposed)[name := Uncovered(old(Exposed(name)), |old(Bytes(name))|, w)]
      ensures name in old(files) ==>
        Started(old(running), QueueWrite(old(pending.items), name, old(files[name]), [w]))
    {
      if name in files { WriteFile(name, w); } else { WriteAbsent(name, w); }
      Start();
    }

    method WriteTemporary(name: string, w: Part)
      requires Valid() && name in temporary
      modifies this, files[name]
      ensures Valid() && fresh(buffers - old(buffers)) && old(buffers) <= buffers
      ensures name in files && files == old(files)[name := files[name]]
      ensures files[name][..] == Splice(old(Bytes(name)), w)
      ensures if w.End() <= |old(Bytes(name))| then files[name] == old(files[name]) else fresh(files[name])
      ensures temporary == old(temporary) && stray == old(stray) && exposed == old(exposed)
      ensures running == old(running) && change == old(change)
    {
      var p := Poke(files[name], w);
      files, buffers := files[name := p], buffers + {p};
      TemporarySound(name);
    }

    method WriteFile(name: string, w: Part)
      requires Valid() && name in files && name !in temporary
      modifies this, pending, files[name]
      ensures Sound() && fresh(buffers - old(buffers)) && old(buffers) <= buffers
      ensures name in files && files == old(files)[name := files[name]]
      ensures files[name][..] == Splice(old(Bytes(name)), w)
      ensures if w.End() <= |old(Bytes(name))| then files[name] == old(files[name]) else fresh(files[name])
      ensures temporary == old(temporary) && stray == old(stray) && running == old(running) && change == old(change)
      ensures exposed == old(exposed)[name := Uncovered(old(Exposed(name)), |old(Bytes(name))|, w)]
      ensures pending.items == QueueWrite(old(pending.items), name, old(files[name]), [w])
    {
      var r := files[name];
      exposed := exposed[name := Uncovered(Exposed(name), r.Length, w)];
      var p := Poke(r, w);
      files, buffers := files[name := p], buffers + {p};
      pending.AddWrite(name, r, [w]);
      WrittenSound(Item(name, Act.Write(r, [w])));
    }

    /** A handle may outlive its file; a write through it brings the name back in memory, and the queued write
        will find no file. */
    method WriteAbsent(name: string, w: Part)
      requires Valid() && name !in files
      modifies this, pending
      ensures Sound() && fresh(buffers - old(buffers)) && old(buffers) <= buffers
      ensures if w.End() > 0 then name in files && files == old(files)[name := files[name]] && fresh(files[name])
              else files == old(files)
      ensures Bytes(name) == Splice([], w)
      ensures temporary == old(temporary) && running == old(running) && change == old(change)
      ensures stray == if w.End() > 0 then old(stray) + {name} else old(stray)
      ensures exposed == old(exposed)[name := Uncovered(old(Exposed(name)), 0, w)]
    {
      var r, p := NewBuffers(w);
      Adopt(name, w, r, p);
    }

    /** The file in memory, and the write that starts from an empty buffer in the queue. */
    method Adopt(name: string, w: Part, r: array<Byte>, p: array<Byte>)
      requires Valid() && name !in files && r !in buffers && p !in buffers
      modifies this, pending
      ensures Sound() && buffers == old(buffers) + {r, p}
      ensures files == if w.End() > 0 then old(files)[name := p] else old(files)
      ensures temporary == old(temporary) && running == old(running) && change == old(change)
      ensures stray == if w.End() > 0 then old(stray) + {name} else old(stray)
      ensures exposed == old(exposed)[name := Uncovered(old(Exposed(name)), 0, w)]
    {
      files := if w.End() > 0 then files[name := p] else files;
      stray, buffers := if w.End() > 0 then stray + {name} else stray, buffers + {r, p};
      exposed := exposed[name := Uncovered(Exposed(name), 0, w)];
      pending.AddWrite(name, r, [w]);
      StraySound(Item(name, Act.Write(r, [w])));
    }
  }

  method Zeros(size: nat) returns (p: array<Byte>)
    ensures fresh(p) && p[..] == Resized([], size)
  {
    p := new Byte[size](_ => 0);
  }

  method Cut(q: array<Byte>, size: nat) returns (p: array<Byte>)
    ensures fresh(p) && p[..] == Resized(q[..], size)
  {
    p := Zeros(size);
    forall j | 0 <= j < size && j < q.Length {
      p[j] := q[j];
    }
  }

  /** A write into a buffer: in place if it fits, else into a longer copy. */
  method Poke(m: array<Byte>, w: Part) returns (p: array<Byte>)
    modifies m
    ensures p[..] == Splice(old(m[..]), w)
    ensures if w.End() <= m.Length then p == m else fresh(p) && m[..] == old(m[..])
  {
    var s := w.End();
    if s <= m.Length {
      p := m;
    } else {
      p := Zeros(s);
      forall j | 0 <= j < m.Length {
        p[j] := m[j];
      }
    }
    forall j | w.offset <= j < s {
      p[j] := w.bytes[j - w.offset];
    }
    assert p[..] == Splice(old(m[..]), w);
  }

  /** The buffers of a write to a name that has none: the empty one it starts from and the one it leaves. */
  method NewBuffers(w: Part) returns (r: array<Byte>, p: array<Byte>)
    ensures fresh(r) && fresh(p) && p[..] == Splice([], w)
  {
    r := Zeros(0);
    assert r[..] == [];
    p := Poke(r, w);
  }

  /** The work a change starts with when its timer goes off: a write is cut into blocks. */
  method Prepare(act: Waiter) returns (step: Step)
    ensures Carries(step, ViewAct(act))
  {
    match act {
      case Create => step := MakeFile;
      case Delete => step := DropFile;
      case Truncate(size) => step := CutTo(size);
      case Write(base, parts) =>
        var overlay := new WriteOverlay.Overlay(base);
        overlay.ApplyAll(parts);
        step := PutBlocks(overlay.blocks, overlay.size);
    }
  }

  /** One transaction; on a missing file it fails and changes nothing. */
  method CarryOut(db: Database, name: string, step: Step, ghost c: Change)
    requires Carries(step, c)
    modifies db
    ensures db.Disk(name) == Exec(c, old(db.Disk(name)))
    ensures forall f :: f != name ==> db.Disk(f) == old(db.Disk(f))
  {
    var ok: bool;
    match step {
      case MakeFile => ok := db.Create(name);
      case PutBlocks(blocks, size) => ok := db.Put(name, blocks, size);
      case CutTo(size) => ok := db.Resize(name, size);
      case DropFile => ok := db.Remove(name);
    }
  }

  /** Files read back, each into a buffer of its own. */
  ghost predicate ReadInto(db: Database, files: map<string, array<Byte>>, arrays: set<array<Byte>>)
    reads db, arrays
  {
    && (forall f :: f in files ==> f in db.files && files[f] in arrays && files[f][..] == db.files[f].Content())
    && (forall f, g :: f in files && g in files && f != g ==> files[f] != files[g])
  }

  lemma OneMoreRead(db: Database, files: map<string, array<Byte>>, arrays: set<array<Byte>>, f: string, a: array<Byte>)
    requires ReadInto(db, files, arrays) && a !in arrays && f in db.files && a[..] == db.files[f].Content()
    ensures ReadInto(db, files[f := a], arrays + {a})
  {
  }

  method LoadFiles(db: Database) returns (files: map<string, array<Byte>>, ghost arrays: set<array<Byte>>)
    requires db.Whole()
    ensures files.Keys == db.files.Keys && fresh(arrays) && ReadInto(db, files, arrays)
  {
    files, arrays := map[], {};
    var names := db.files.Keys;
    while names != {}
      invariant names <= db.files.Keys && files.Keys == db.files.Keys - names
      invariant fresh(arrays) && ReadInto(db, files, arrays)
      decreases |names|
    {
      var f :| f in names;
      var a := db.ReadBack(f);
      OneMoreRead(db, files, arrays, f, a);
      files, arrays, names := files[f := a], arrays + {a}, names - {f};
    }
  }

  lemma TakenKeeps(disk: Option<Durable>, was: seq<Change>, c: Change, rest: seq<Change>, file: Option<seq<Byte>>,
                   exposed: set<nat>)
    requires was == [c] + rest && Tracked(disk, [], was, file, exposed)
    ensures Tracked(disk, [c], rest, file, exposed)
  {
    assert [] + was == [c] + rest;
    if |rest| > 0 { assert was[|was| - 1] == rest[|rest| - 1]; }
  }

  lemma CarriedKeeps(disk: Option<Durable>, c: Change, rest: seq<Change>, file: Option<seq<Byte>>,
                     exposed: set<nat>)
    requires Tracked(disk, [c], rest, file, exposed)
    ensures Tracked(Exec(c, disk), [], rest, file, exposed)
  {
    assert [] + rest == rest;
    CommitKeeps(disk, c, rest, file);
  }

  /** The file after a write, if it is kept at all. */
  function Spliced(file: Option<seq<Byte>>, w: Part): Option<seq<Byte>> {
    match file
    case None => None
    case Some(m) => Some(Splice(m, w))
  }

  lemma TrackedWrite(disk: Option<Durable>, busy: seq<Change>, busy': seq<Change>,
                     waiting: seq<Change>, carried: seq<Change>, waiting': seq<Change>,
                     file: Option<seq<Byte>>, base: seq<Byte>, w: Part, exposed: set<nat>)
    requires Tracked(disk, busy, waiting, file, exposed)
    requires Queues(busy, busy', waiting, carried, waiting', base, w)
    requires file.Some? ==> |base| == |file.value| && Patched(base, [w]) == Splice(file.value, w)
    ensures file.Some? ==>
      Tracked(disk, busy', waiting', Spliced(file, w), Uncovered(exposed, |file.value|, w))
    ensures file.None? ==> forall e :: Tracked(disk, busy', waiting', None, e)
  {
    match file
    case None => StrayWriteKeeps(disk, busy, busy', waiting, carried, waiting', base, w);
    case Some(m) =>
      WriteShows(disk, busy, busy', waiting, carried, waiting', m, base, w);
      WriteExposes(Flush(disk, busy + waiting).value, Flush(disk, busy' + waiting').value, m, w,
                   LastTouched(waiting'), exposed);
  }

  lemma TrackedCreate(disk: Option<Durable>, busy: seq<Change>, waiting: seq<Change>, exposed: set<nat>)
    requires Tracked(disk, busy, waiting, None, exposed)
    ensures Tracked(disk, busy, waiting + [Act.Create], Some([]), {})
  {
    CreateKeeps(disk, busy, waiting);
  }

  lemma TrackedTruncate(disk: Option<Durable>, busy: seq<Change>, waiting: seq<Change>, m: seq<Byte>, size: nat,
                        exposed: set<nat>)
    requires Tracked(disk, busy, waiting, Some(m), exposed)
    ensures Tracked(disk, busy, waiting + [Act.Truncate(size)], Some(Resized(m, size)), Recut(exposed, |m|, size))
  {
    TruncateKeeps(disk, busy, waiting, m, size);
    TruncateExposes(Flush(disk, busy + waiting).value, Flush(disk, busy + (waiting + [Act.Truncate(size)])).value, m,
                    size, exposed);
  }

  lemma LoadedAgrees(disk: Option<Durable>, file: Option<seq<Byte>>)
    requires disk.Some? ==> disk.value.Valid()
    requires file == if disk.Some? then Some(disk.value.Content()) else None
    ensures Tracked(disk, [], [], file, {})
  {
    var none: seq<Change> := [];
    assert none + none == none;
  }

  // ---- Once the queue has drained ----

  /** The database holds exactly the files that are neither temporary nor were brought back by a write or
      truncation that found them gone, each with its length. Reading one back gives the bytes in memory but for
      exposed positions, where memory has zeros, so exactly those bytes if and only if these read as zeros. */
  lemma Drained(fs: FileSystem)
    requires fs.Valid() && fs.running.Idle?
    ensures forall f :: f in fs.db.files <==> f in fs.files && f !in fs.temporary && f !in fs.stray
    ensures forall f :: f in fs.db.files ==> f in fs.files && fs.db.files[f].Valid()
    ensures forall f :: f in fs.db.files ==> ReadsBack(fs.db.files[f].Content(), fs.files[f][..], fs.Exposed(f))
  {
    forall f
      ensures f in fs.db.files <==> f in fs.files && f !in fs.temporary && f !in fs.stray
      ensures f in fs.db.files ==>
        && f in fs.files && fs.db.files[f].Valid()
        && ReadsBack(fs.db.files[f].Content(), fs.files[f][..], fs.Exposed(f))
    {
      assert fs.FileOk(f) && fs.Waiting(f) == [] && fs.Busy(f) == [];
      DrainedFile(fs.db.Disk(f), fs.Persistent(f), fs.Exposed(f));
    }
  }

  /** What is read back, against what memory has. */
  ghost predicate ReadsBack(read: seq<Byte>, file: seq<Byte>, exposed: set<nat>) {
    && |read| == |file|
    && (forall p :: 0 <= p < |file| && p !in exposed ==> read[p] == file[p])
    && (forall p :: p in exposed ==> p < |file| && file[p] == 0)
    && (read == file <==> forall p :: p in exposed ==> p < |read| && read[p] == 0)
  }

  lemma DrainedFile(disk: Option<Durable>, file: Option<seq<Byte>>, exposed: set<nat>)
    requires Tracked(disk, [], [], file, exposed)
    ensures disk.Some? == file.Some?
    ensures disk.Some? ==> disk.value.Valid() && ReadsBack(disk.value.Content(), file.value, exposed)
  {
    var none: seq<Change> := [];
    assert none + none == none;
    if disk.Some? { SameBytes(disk.value.Content(), file.value, exposed); }
  }

  lemma SameBytes(read: seq<Byte>, file: seq<Byte>, exposed: set<nat>)
    requires |read| == |file| && forall p :: 0 <= p < |file| && p !in exposed ==> read[p] == file[p]
    requires forall p :: p in exposed ==> p < |file| && file[p] == 0
    ensures ReadsBack(read, file, exposed)
  {
    if forall p :: p in exposed ==> p < |read| && read[p] == 0 {
      assert forall p :: 0 <= p < |file| ==> read[p] == file[p];
    }
  }

  /** A restart after draining finds every file that outlives the session, and no other, as memory had it but for
      exposed positions. */
  method Restart(fs: FileSystem) returns (again: FileSystem)
    requires fs.Valid()
    modifies fs.db, fs`running, fs`change, fs.pending
    ensures again.Valid() && again.db == fs.db
    ensures forall f :: f in again.files <==> f in fs.files && f !in fs.temporary && f !in fs.stray
    ensures forall f :: f in again.files ==> ReadsBack(again.files[f][..], fs.files[f][..], fs.Exposed(f))
  {
    fs.Drain();
    Drained(fs);
    again := new FileSystem(fs.db);
  }

  // ---- Two runs ----

  /** A write through a handle that outlived its file: memory has the file, the drained database does not. */
  method BroughtBack() returns (fs: FileSystem)
    ensures fs.Valid() && fs.running.Idle?
    ensures "a" in fs.files && fs.files["a"][..] == [7] && "a" !in fs.temporary && "a" !in fs.db.files
  {
    fs := WriteAfterDelete();
    fs.Drain();
    Drained(fs);
  }

  method WriteAfterDelete() returns (fs: FileSystem)
    ensures fresh(fs) && fresh(fs.pending) && fresh(fs.db) && fs.Valid()
    ensures "a" in fs.files && fs.files["a"][..] == [7] && "a" !in fs.temporary && "a" in fs.stray
  {
    fs := OpenedAndDeleted();
    fs.Write("a", Part(0, [7]));
    assert fs.Bytes("a") == [7];
  }

  method OpenedAndDeleted() returns (fs: FileSystem)
    ensures fresh(fs) && fresh(fs.pending) && fresh(fs.db) && fs.Valid() && fs.files == map[] && fs.temporary == {}
  {
    var db := new Database(map[]);
    fs := new FileSystem(db);
    var ok := fs.Open("a", true, false);
    fs.Delete("a");
  }

  /** Two writes in place to a file at rest, before any timer goes off: the transaction of the first one already
      puts bytes of the second one into the blocks it touches. */
  method Burst(fs: FileSystem, f: string, v: Part, w: Part)
    requires fs.Valid() && fs.running.Idle? && fs.Kept(f)
    requires v.End() <= |fs.Bytes(f)| && w.End() <= |fs.Bytes(f)|
    modifies fs, fs.pending, fs.db, fs.files[f]
    ensures fs.Valid() && fs.Bytes(f) == Splice(Splice(old(fs.Bytes(f)), v), w)
    ensures f in fs.db.files
    ensures forall p :: 0 <= p < |fs.Bytes(f)| && KeyOf(p) in KeysOf(v) ==>
      fs.db.files[f].Raw(p) == Splice(fs.Bytes(f), v)[p]
  {
    Drained(fs);
    WriteTwice(fs, f, v, w);
    ghost var base, disk := fs.Bytes(f), fs.db.Disk(f).value;
    FireAndFinish(fs, f, v, base);
    FirstBlocks(base, v, disk);
  }

  method WriteTwice(fs: FileSystem, f: string, v: Part, w: Part)
    requires fs.Valid() && fs.running.Idle? && fs.Kept(f)
    requires v.End() <= |fs.Bytes(f)| && w.End() <= |fs.Bytes(f)|
    modifies fs, fs.pending, fs.files[f]
    ensures fs.Valid() && fs.Kept(f) && fs.Bytes(f) == Splice(Splice(old(fs.Bytes(f)), v), w)
    ensures fs.running == Taken(Item(f, Act.Write(fs.files[f], [v])))
  {
    fs.Write(f, v);
    fs.Write(f, w);
  }

  method FireAndFinish(fs: FileSystem, f: string, v: Part, ghost base: seq<Byte>)
    requires fs.Valid() && fs.Kept(f) && fs.Bytes(f) == base
    requires fs.running == Taken(Item(f, Act.Write(fs.files[f], [v])))
    modifies fs.db, fs`running, fs`change, fs.pending
    ensures fs.Valid() && fs.db.Disk(f) == Exec(Act.Write(base, [v]), old(fs.db.Disk(f)))
  {
    fs.Fire();
    fs.Finish();
  }

  lemma FirstBlocks(base: seq<Byte>, v: Part, d: Durable)
    requires v.End() <= |base|
    ensures forall p :: 0 <= p < |base| && KeyOf(p) in KeysOf(v) ==>
      Exec(Act.Write(base, [v]), Some(d)).value.Raw(p) == Splice(base, v)[p]
  {
    var parts := [v];
    assert parts[..0] == [];
    PatchedOne(base, v);
    assert TouchedKeys(parts) == KeysOf(v);
    forall p | 0 <= p < |base| && KeyOf(p) in KeysOf(v)
      ensures Exec(Act.Write(base, parts), Some(d)).value.Raw(p) == Splice(base, v)[p]
    {
      WriteRaw(base, parts, d, p);
    }
  }
}
