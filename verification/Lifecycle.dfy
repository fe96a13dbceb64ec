/** Starting, reloading, closing and failing the service: callers interleave, and a reload gives its lock up twice. */
module Lifecycle {
  import opened Wrappers

  datatype Status = Idle | Starting | Started | Stopping | Fatal

  type Caller = nat
  type Instance = nat

  datatype Outcome = Succeeded | Failed | Rejected

  /** Where a caller stands: names ending in `Locked` hold the lock. */
  datatype Place =
    | WantsStart
    | StartLocked
    | ClosingOld
    | WantsRelock
    | ReplaceLocked
    | CreateLocked
    | RunningStart(made: Instance)
    | WantsVerdict(made: Instance, ok: bool)
    | VerdictLocked(made: Instance, ok: bool)
    | WantsClose
    | CloseLocked
    | ShutLocked
    | WantsError
    | ErrorLocked
    | Returned(outcome: Outcome)

  datatype Service = Service(lock: Option<Caller>, status: Status, instance: Option<Instance>,
                             places: map<Caller, Place>, made: nat)

  predicate Wants(p: Place) {
    p.WantsStart? || p.WantsRelock? || p.WantsVerdict? || p.WantsClose? || p.WantsError?
  }

  function Entered(p: Place): Place
    requires Wants(p)
  {
    match p
    case WantsStart => StartLocked
    case WantsRelock => ReplaceLocked
    case WantsVerdict(made, ok) => VerdictLocked(made, ok)
    case WantsClose => CloseLocked
    case WantsError => ErrorLocked
  }

  /** The caller unlocks and goes on at `p`. */
  function Unlock(s: Service, c: Caller, p: Place): Service {
    s.(lock := None, places := s.places[c := p])
  }

  /** The next step of one caller; `ok` says how creating, starting or closing an instance went.
      A caller that waits for the lock stays where it is. */
  function Step(s: Service, c: Caller, ok: bool): Service {
    if c !in s.places then s
    else
      match s.places[c]
      case Returned(_) => s
      case StartLocked =>
        if s.status.Stopping? || s.status.Fatal? then Unlock(s, c, Returned(Rejected))
        else if s.instance.Some? then Unlock(s.(status := Stopping), c, ClosingOld)
        else s.(places := s.places[c := ReplaceLocked])
      case ClosingOld => s.(places := s.places[c := WantsRelock])
      case ReplaceLocked => s.(status := Starting, places := s.places[c := CreateLocked])
      case CreateLocked =>
        if ok then Unlock(s.(instance := Some(s.made), made := s.made + 1), c, RunningStart(s.made))
        else Unlock(s.(status := Fatal), c, Returned(Failed))
      case RunningStart(i) => s.(places := s.places[c := WantsVerdict(i, ok)])
      case VerdictLocked(_, good) =>
        if !s.status.Starting? then Unlock(s, c, Returned(Succeeded))
        else if !good then Unlock(s.(status := Fatal), c, Returned(Failed))
        else Unlock(s.(status := Started), c, Returned(Succeeded))
      case CloseLocked =>
        if s.status.Starting? || s.status.Started? then s.(status := Stopping, places := s.places[c := ShutLocked])
        else Unlock(s, c, Returned(Rejected))
      case ShutLocked =>
        if s.instance.Some? && !ok then Unlock(s.(status := Fatal), c, Returned(Failed))
        else Unlock(s.(instance := None, status := Idle), c, Returned(Succeeded))
      case ErrorLocked => Unlock(s.(status := Fatal), c, Returned(Succeeded))
      case _ => if s.lock.None? then s.(lock := Some(c), places := s.places[c := Entered(s.places[c])]) else s
  }

  datatype Move = Move(caller: Caller, ok: bool)

  function After(s: Service, run: seq<Move>): Service {
    if |run| == 0 then s
    else Step(After(s, run[..|run| - 1]), run[|run| - 1].caller, run[|run| - 1].ok)
  }

  /** A fresh service and callers about to start, close or report an error. */
  predicate Fresh(s: Service) {
    && s.lock.None? && s.status.Idle? && s.instance.None?
    && forall c :: c in s.places ==> s.places[c].WantsStart? || s.places[c].WantsClose? || s.places[c].WantsError?
  }

  // ---- What every step keeps ----

  predicate Locked(p: Place) {
    p.StartLocked? || p.ReplaceLocked? || p.CreateLocked? || p.VerdictLocked? || p.CloseLocked? || p.ShutLocked?
      || p.ErrorLocked?
  }

  /** The unlocked stretch of a reload while the old instance is closed. */
  predicate InWindow(p: Place) {
    p.ClosingOld? || p.WantsRelock?
  }

  /** The lock has been taken and nothing changed yet. */
  predicate Looking(p: Place) {
    p.StartLocked? || p.VerdictLocked? || p.CloseLocked? || p.ErrorLocked?
  }

  predicate Consistent(status: Status, instance: Option<Instance>) {
    && (status.Starting? || status.Started? || status.Stopping? ==> instance.Some?)
    && (status.Idle? ==> instance.None?)
  }

  /** Nobody is in the middle of a change. */
  predicate Calm(s: Service) {
    s.lock.None? || (s.lock.value in s.places && Looking(s.places[s.lock.value]))
  }

  predicate Safe(s: Service) {
    && (forall c :: c in s.places ==> (Locked(s.places[c]) <==> s.lock == Some(c)))
    && (s.lock.Some? ==> s.lock.value in s.places)
    && (Calm(s) ==> Consistent(s.status, s.instance))
    && (s.lock.Some? && s.places[s.lock.value].ShutLocked? ==> s.status.Stopping? && s.instance.Some?)
    && (s.lock.Some? && s.places[s.lock.value].ReplaceLocked? ==> !s.status.Starting? && !s.status.Started?)
    && (s.lock.Some? && s.places[s.lock.value].CreateLocked? ==> s.status.Starting?)
    && (forall c :: c in s.places && InWindow(s.places[c]) ==> Calm(s) && (s.status.Stopping? || s.status.Fatal?))
    && (forall c, d :: c in s.places && d in s.places && InWindow(s.places[c]) && InWindow(s.places[d]) ==> c == d)
  }

  lemma StepSafe(s: Service, c: Caller, ok: bool)
    requires Safe(s)
    ensures Safe(Step(s, c, ok))
  {
    if c in s.places {
      if Looking(s.places[c]) {
        LookSafe(s, c, ok);
      } else if Locked(s.places[c]) {
        ChangeSafe(s, c, ok);
      } else if Wants(s.places[c]) {
        EnterSafe(s, c, ok);
      } else {
        FreeSafe(s, c, ok);
      }
    }
  }

  lemma LookSafe(s: Service, c: Caller, ok: bool)
    requires Safe(s) && c in s.places && Looking(s.places[c])
    ensures Safe(Step(s, c, ok))
  {
    match s.places[c]
    case StartLocked => StartSafe(s, c, ok);
    case CloseLocked => CloseSafe(s, c, ok);
    case _ => TellSafe(s, c, ok);
  }

  lemma StartSafe(s: Service, c: Caller, ok: bool)
    requires Safe(s) && c in s.places && s.places[c].StartLocked?
    ensures Safe(Step(s, c, ok))
  {
  }

  lemma CloseSafe(s: Service, c: Caller, ok: bool)
    requires Safe(s) && c in s.places && s.places[c].CloseLocked?
    ensures Safe(Step(s, c, ok))
  {
  }

  lemma TellSafe(s: Service, c: Caller, ok: bool)
    requires Safe(s) && c in s.places && (s.places[c].VerdictLocked? || s.places[c].ErrorLocked?)
    ensures Safe(Step(s, c, ok))
  {
  }

  lemma ChangeSafe(s: Service, c: Caller, ok: bool)
    requires Safe(s) && c in s.places && Locked(s.places[c]) && !Looking(s.places[c])
    ensures Safe(Step(s, c, ok))
  {
  }

  lemma EnterSafe(s: Service, c: Caller, ok: bool)
    requires Safe(s) && c in s.places && Wants(s.places[c])
    ensures Safe(Step(s, c, ok))
  {
    if s.lock.None? {
      var t := Step(s, c, ok);
      assert forall d :: d in t.places && d != c ==> t.places[d] == s.places[d];
      if s.places[c].WantsRelock? { RelockSafe(s, c, ok); }
    }
  }

  /** A reload that comes back from its window: nobody else was in one. */
  lemma RelockSafe(s: Service, c: Caller, ok: bool)
    requires Safe(s) && s.lock.None? && c in s.places && s.places[c].WantsRelock?
    ensures Safe(Step(s, c, ok))
  {
    var t := Step(s, c, ok);
    forall d | d in t.places ensures !InWindow(t.places[d]) {
      assert d != c ==> t.places[d] == s.places[d];
    }
  }

  lemma FreeSafe(s: Service, c: Caller, ok: bool)
    requires Safe(s) && c in s.places && !Locked(s.places[c]) && !Wants(s.places[c])
    ensures Safe(Step(s, c, ok))
  {
    var t := Step(s, c, ok);
    assert forall d :: d in t.places ==> (InWindow(t.places[d]) <==> InWindow(s.places[d]));
  }

  /** Over every interleaving of starts, reloads, closes and errors. */
  lemma {:induction false} RunsSafe(s: Service, run: seq<Move>)
    requires Fresh(s)
    ensures Safe(After(s, run))
  {
    if |run| > 0 {
      RunsSafe(s, run[..|run| - 1]);
      StepSafe(After(s, run[..|run| - 1]), run[|run| - 1].caller, run[|run| - 1].ok);
    }
  }

  /** Whenever the lock is free a reader that sees STARTING, STARTED or STOPPING can use the instance,
      and IDLE means there is none. */
  lemma ReadersSafe(s: Service, run: seq<Move>)
    requires Fresh(s) && After(s, run).lock.None?
    ensures Consistent(After(s, run).status, After(s, run).instance)
  {
    RunsSafe(s, run);
  }

  // ---- Readers that take the lock twice ----

  /** A close that takes the instance away. */
  predicate TakesAway(s: Service, m: Move) {
    m.caller in s.places && s.places[m.caller].ShutLocked? && (s.instance.None? || m.ok)
  }

  predicate Creates(s: Service, m: Move) {
    m.caller in s.places && s.places[m.caller].CreateLocked? && m.ok
  }

  /** In the run a close succeeded, and no start has created an instance since. */
  predicate ClosedLast(s: Service, run: seq<Move>) {
    |run| > 0 &&
    var front, m := run[..|run| - 1], run[|run| - 1];
    TakesAway(After(s, front), m) || (!Creates(After(s, front), m) && ClosedLast(s, front))
  }

  lemma {:induction false} GoneWhenClosed(s: Service, run: seq<Move>)
    requires s.instance.Some?
    ensures After(s, run).instance.None? <==> ClosedLast(s, run)
  {
    if |run| > 0 {
      GoneWhenClosed(s, run[..|run| - 1]);
      InstanceStep(After(s, run[..|run| - 1]), run[|run| - 1]);
    }
  }

  lemma InstanceStep(s: Service, m: Move)
    ensures var t := Step(s, m.caller, m.ok);
      t.instance.None? <==> TakesAway(s, m) || (!Creates(s, m) && s.instance.None?)
  {
  }

  /** A reader that sees STARTED, gives the lock up and takes it again to use the instance finds none exactly
      when a close has succeeded in between and no start has created another instance since. */
  lemma SecondRead(s: Service, before: seq<Move>, between: seq<Move>)
    requires Fresh(s) && After(s, before).lock.None? && After(s, before).status.Started?
    ensures After(s, before + between).instance.None? <==> ClosedLast(After(s, before), between)
  {
    ReadersSafe(s, before);
    AfterConcat(s, before, between);
    GoneWhenClosed(After(s, before), between);
  }

  /** Such a run: a start comes up, the reader sees STARTED, a close takes the instance away, and the reader uses it. */
  lemma NilRead()
    ensures var s := Service(None, Idle, None, map[0 := WantsStart, 1 := WantsClose], 0);
      var before := [Move(0, true), Move(0, true), Move(0, true), Move(0, true)]
                    + [Move(0, true), Move(0, true), Move(0, true)];
      var between := [Move(1, true), Move(1, true)] + [Move(1, true)];
      && Fresh(s) && After(s, before).lock.None? && After(s, before).status.Started?
      && After(s, before + between).lock.None? && After(s, before + between).instance.None?
  {
    var s := Service(None, Idle, None, map[0 := WantsStart, 1 := WantsClose], 0);
    var a := [Move(0, true), Move(0, true), Move(0, true), Move(0, true)];
    var b := [Move(0, true), Move(0, true), Move(0, true)];
    var d, e := [Move(1, true), Move(1, true)], [Move(1, true)];
    ComesUp();
    AfterFour(s, Move(0, true), Move(0, true), Move(0, true), Move(0, true));
    AfterTwo(After(s, a), Move(0, true), Move(0, true));
    AfterOne(After(After(s, a), [Move(0, true), Move(0, true)]), Move(0, true));
    AfterConcat(After(s, a), [Move(0, true), Move(0, true)], [Move(0, true)]);
    assert [Move(0, true), Move(0, true)] + [Move(0, true)] == b;
    AfterConcat(s, a, b);
    GoesDown();
    AfterTwo(After(s, a + b), Move(1, true), Move(1, true));
    AfterOne(After(After(s, a + b), d), Move(1, true));
    AfterConcat(After(s, a + b), d, e);
    AfterConcat(s, a + b, d + e);
  }

  function Up(): Service {
    Service(None, Started, Some(0), map[0 := Returned(Succeeded), 1 := WantsClose], 1)
  }

  lemma ComesUp()
    ensures var s := Service(None, Idle, None, map[0 := WantsStart, 1 := WantsClose], 0);
      var t := Step(Step(Step(Step(s, 0, true), 0, true), 0, true), 0, true);
      Step(Step(Step(t, 0, true), 0, true), 0, true) == Up()
  {
    Creating();
    Verdict();
  }

  lemma Creating()
    ensures var s := Service(None, Idle, None, map[0 := WantsStart, 1 := WantsClose], 0);
      Step(Step(Step(Step(s, 0, true), 0, true), 0, true), 0, true)
      == Service(None, Starting, Some(0), map[0 := RunningStart(0), 1 := WantsClose], 1)
  {
    var s := Service(None, Idle, None, map[0 := WantsStart, 1 := WantsClose], 0);
    var s2 := Step(Step(s, 0, true), 0, true);
    assert s2 == Service(Some(0), Idle, None, map[0 := ReplaceLocked, 1 := WantsClose], 0);
    assert Step(Step(s2, 0, true), 0, true).places == map[0 := RunningStart(0), 1 := WantsClose];
  }

  lemma Verdict()
    ensures Step(Step(Step(Service(None, Starting, Some(0), map[0 := RunningStart(0), 1 := WantsClose], 1),
                           0, true), 0, true), 0, true) == Up()
  {
    var s := Service(None, Starting, Some(0), map[0 := RunningStart(0), 1 := WantsClose], 1);
    var s2 := Step(Step(s, 0, true), 0, true);
    assert s2 == Service(Some(0), Starting, Some(0), map[0 := VerdictLocked(0, true), 1 := WantsClose], 1);
    assert Step(s2, 0, true).places == Up().places;
  }

  lemma GoesDown()
    ensures var t := Step(Step(Step(Up(), 1, true), 1, true), 1, true); t.lock.None? && t.instance.None?
  {
    var s := Step(Up(), 1, true);
    assert s.places[1] == CloseLocked;
    assert Step(s, 1, true).places[1] == ShutLocked;
  }

  // ---- Callers and the lock ----

  /** At most one caller is in the unlocked close window of a reload, and while it is there every start and
      close is turned away. */
  lemma OneWindow(s: Service, run: seq<Move>, c: Caller, d: Caller, ok: bool)
    requires Fresh(s)
    requires var t := After(s, run); c in t.places && d in t.places && c != d && InWindow(t.places[c])
    ensures var t := After(s, run);
      && !InWindow(t.places[d])
      && (t.places[d].StartLocked? || t.places[d].CloseLocked? ==> Step(t, d, ok).places[d] == Returned(Rejected))
  {
    RunsSafe(s, run);
  }

  /** Every return leaves the lock free. */
  lemma ReturnsFree(s: Service, run: seq<Move>, c: Caller, ok: bool)
    requires Fresh(s)
    requires var t := After(s, run);
      c in t.places && !t.places[c].Returned? && Step(t, c, ok).places[c].Returned?
    ensures After(s, run).lock == Some(c) && Step(After(s, run), c, ok).lock.None?
  {
    RunsSafe(s, run);
  }

  /** A caller that holds the lock gives it up within three of its own steps, whatever becomes of its instance. */
  lemma LockReleased(s: Service, run: seq<Move>, c: Caller, a: bool, b: bool, d: bool)
    requires Fresh(s) && After(s, run).lock == Some(c)
    ensures var t := After(s, run);
      || Step(t, c, a).lock.None?
      || Step(Step(t, c, a), c, b).lock.None?
      || Step(Step(Step(t, c, a), c, b), c, d).lock.None?
  {
    RunsSafe(s, run);
  }

  // ---- The end of the line ----

  /** FATAL, with no reload in its window and nobody in the middle of a change. */
  predicate Stuck(s: Service) {
    s.status.Fatal? && Calm(s) && forall c :: c in s.places ==> !InWindow(s.places[c])
  }

  /** From there no caller ever starts, replaces or closes an instance again. */
  lemma {:induction false} StuckForever(s: Service, run: seq<Move>)
    requires Safe(s) && Stuck(s)
    ensures Safe(After(s, run)) && Stuck(After(s, run)) && After(s, run).instance == s.instance
  {
    if |run| > 0 {
      var front := run[..|run| - 1];
      StuckForever(s, front);
      StepSafe(After(s, front), run[|run| - 1].caller, run[|run| - 1].ok);
      StuckStep(After(s, front), run[|run| - 1].caller, run[|run| - 1].ok);
    }
  }

  lemma StuckStep(s: Service, c: Caller, ok: bool)
    requires Safe(s) && Stuck(s)
    ensures Stuck(Step(s, c, ok)) && Step(s, c, ok).instance == s.instance
  {
  }

  /** FATAL is left in one way only: by a reload that was closing the old instance when the error was
      reported, and that goes on regardless. */
  lemma FatalLeft(s: Service, c: Caller, ok: bool)
    requires Safe(s) && s.status.Fatal?
    ensures Step(s, c, ok).status.Fatal? <==> !(c in s.places && s.places[c].ReplaceLocked?)
  {
  }

  // ---- Whose verdict ----

  /** A starter that finds STARTING when its instance has come up, or failed to, announces STARTED or FATAL. */
  predicate Announces(s: Service, c: Caller) {
    c in s.places && s.places[c].VerdictLocked? && s.status.Starting?
  }

  /** The announcement is about the instance the service has. */
  predicate Own(s: Service, c: Caller)
    requires Announces(s, c)
  {
    s.instance == Some(s.places[c].made)
  }

  function TwoStarts(): Service {
    Service(None, Idle, None, map[0 := WantsStart, 1 := WantsStart], 0)
  }

  /** The first caller up to the point where its instance is starting, then the second through a whole reload. */
  function Overtaken(): Service {
    Service(None, Starting, Some(1), map[0 := RunningStart(0), 1 := RunningStart(1)], 2)
  }

  lemma Overtake()
    ensures After(TwoStarts(), [Move(0, true), Move(0, true), Move(0, true), Move(0, true),
                                Move(1, true), Move(1, true), Move(1, true), Move(1, true), Move(1, true),
                                Move(1, true)])
         == Overtaken()
  {
    var s := TwoStarts();
    var s1 := Step(s, 0, true);
    var s2 := Step(s1, 0, true);
    var s3 := Step(s2, 0, true);
    var s4 := Step(s3, 0, true);
    assert s4 == Service(None, Starting, Some(0), map[0 := RunningStart(0), 1 := WantsStart], 1);
    var s5 := Step(s4, 1, true);
    var s6 := Step(s5, 1, true);
    var s7 := Step(s6, 1, true);
    var s8 := Step(s7, 1, true);
    assert s8 == Service(Some(1), Stopping, Some(0), map[0 := RunningStart(0), 1 := ReplaceLocked], 1);
    var s9 := Step(s8, 1, true);
    var s10 := Step(s9, 1, true);
    assert s10 == Overtaken();
    AfterFour(s, Move(0, true), Move(0, true), Move(0, true), Move(0, true));
    AfterFour(s4, Move(1, true), Move(1, true), Move(1, true), Move(1, true));
    AfterTwo(s8, Move(1, true), Move(1, true));
    var a := [Move(0, true), Move(0, true), Move(0, true), Move(0, true)];
    var b := [Move(1, true), Move(1, true), Move(1, true), Move(1, true)];
    var d := [Move(1, true), Move(1, true)];
    AfterConcat(s, a, b);
    AfterConcat(s, a + b, d);
    assert a + b + d == [Move(0, true), Move(0, true), Move(0, true), Move(0, true),
                         Move(1, true), Move(1, true), Move(1, true), Move(1, true), Move(1, true), Move(1, true)];
  }

  lemma {:induction false} AfterConcat(s: Service, a: seq<Move>, b: seq<Move>)
    ensures After(s, a + b) == After(After(s, a), b)
  {
    if |b| == 0 {
      assert a + b == a;
    } else {
      assert (a + b)[..|a + b| - 1] == a + b[..|b| - 1];
      AfterConcat(s, a, b[..|b| - 1]);
    }
  }

  lemma AfterOne(s: Service, m: Move)
    ensures After(s, [m]) == Step(s, m.caller, m.ok)
  {
    assert [m][..0] == [];
  }

  lemma AfterTwo(s: Service, m: Move, n: Move)
    ensures After(s, [m, n]) == Step(Step(s, m.caller, m.ok), n.caller, n.ok)
  {
    AfterOne(s, m);
    AfterOne(After(s, [m]), n);
    AfterConcat(s, [m], [n]);
    assert [m] + [n] == [m, n];
  }

  lemma AfterFour(s: Service, m: Move, n: Move, o: Move, p: Move)
    ensures After(s, [m, n, o, p])
         == Step(Step(Step(Step(s, m.caller, m.ok), n.caller, n.ok), o.caller, o.ok), p.caller, p.ok)
  {
    AfterTwo(s, m, n);
    AfterTwo(After(s, [m, n]), o, p);
    AfterConcat(s, [m, n], [o, p]);
    assert [m, n] + [o, p] == [m, n, o, p];
  }

  /** The overtaken starter's instance was closed under it, so its start fails; it finds the other reload's
      STARTING and reports FATAL for it. The other's instance comes up all the same, and stays: with both
      callers returned the service is stuck with a running instance nobody can stop. */
  lemma ForeignVerdict()
    ensures var s := Overtaken();
      var lost := Step(Step(s, 0, false), 0, true);
      && Announces(lost, 0) && !Own(lost, 0)
      && var ended := Step(Step(Step(Step(lost, 0, true), 1, true), 1, true), 1, true);
         && ended.places == map[0 := Returned(Failed), 1 := Returned(Succeeded)]
         && ended.status.Fatal? && ended.instance == Some(1) && Safe(ended) && Stuck(ended)
  {
    FirstLoses();
    FirstReports();
    SecondComesUp();
    EndsStuck();
  }

  function Losing(): Service {
    Service(Some(0), Starting, Some(1), map[0 := VerdictLocked(0, false), 1 := RunningStart(1)], 2)
  }

  function Reporting(): Service {
    Service(None, Fatal, Some(1), map[0 := Returned(Failed), 1 := RunningStart(1)], 2)
  }

  function Ended(): Service {
    Service(None, Fatal, Some(1), map[0 := Returned(Failed), 1 := Returned(Succeeded)], 2)
  }

  lemma FirstLoses()
    ensures Step(Step(Overtaken(), 0, false), 0, true) == Losing()
  {
    var s := Step(Overtaken(), 0, false);
    assert s.places == map[0 := WantsVerdict(0, false), 1 := RunningStart(1)];
    assert Step(s, 0, true).places == Losing().places;
  }

  lemma FirstReports()
    ensures Step(Losing(), 0, true) == Reporting() && Announces(Losing(), 0) && !Own(Losing(), 0)
  {
    assert Step(Losing(), 0, true).places == Reporting().places;
  }

  lemma SecondComesUp()
    ensures Step(Step(Step(Reporting(), 1, true), 1, true), 1, true) == Ended()
  {
    var s := Step(Reporting(), 1, true);
    assert s.places == map[0 := Returned(Failed), 1 := WantsVerdict(1, true)];
    var t := Step(s, 1, true);
    assert t == Service(Some(1), Fatal, Some(1), map[0 := Returned(Failed), 1 := VerdictLocked(1, true)], 2);
    assert Step(t, 1, true).places == Ended().places;
  }

  lemma EndsStuck()
    ensures Safe(Ended()) && Stuck(Ended())
  {
    assert forall c :: c in Ended().places ==> Ended().places[c].Returned?;
  }

  /** The service's instance, if any, is the last one created. */
  predicate Latest(s: Service) {
    s.instance.Some? ==> s.instance.value + 1 == s.made
  }

  lemma {:induction false} RunsLatest(s: Service, run: seq<Move>)
    requires Fresh(s)
    ensures Latest(After(s, run))
  {
    if |run| > 0 {
      RunsLatest(s, run[..|run| - 1]);
      StepLatest(After(s, run[..|run| - 1]), run[|run| - 1].caller, run[|run| - 1].ok);
    }
  }

  lemma StepLatest(s: Service, c: Caller, ok: bool)
    requires Latest(s)
    ensures Latest(Step(s, c, ok))
  {
  }

  /** On every run a starter's verdict is about its own instance exactly when no start has created one since. */
  lemma VerdictOwn(s: Service, run: seq<Move>, c: Caller)
    requires Fresh(s) && Announces(After(s, run), c)
    ensures Own(After(s, run), c) <==> After(s, run).places[c].made + 1 == After(s, run).made
  {
    RunsSafe(s, run);
    RunsLatest(s, run);
  }
}
