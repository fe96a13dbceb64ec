/** What callers that start or close the service are told, and what they leave behind, on every run. */
module Outcomes {
  import opened Lifecycle
  import opened Wrappers

  /** What became of one caller: the status it found when it first held the lock, whether its instance was created and
      came up, the status it found at its verdict, and whether the instance it shut closed. */
  datatype Story = Story(found: Option<Status>, created: Option<bool>, up: Option<bool>, verdict: Option<Status>,
                         shut: Option<bool>)

  const UNTOLD := Story(None, None, None, None, None)

  /** A caller's story, from its moves in the run. */
  function StoryOf(s: Service, run: seq<Move>, c: Caller): Story {
    if |run| == 0 then UNTOLD
    else
      var front, m := run[..|run| - 1], run[|run| - 1];
      var before, t := StoryOf(s, front, c), After(s, front);
      if m.caller != c || c !in t.places then before
      else
        match t.places[c]
        case StartLocked => before.(found := Some(t.status))
        case CloseLocked => before.(found := Some(t.status))
        case CreateLocked => before.(created := Some(m.ok))
        case RunningStart(_) => before.(up := Some(m.ok))
        case VerdictLocked(_, _) => before.(verdict := Some(t.status))
        case ShutLocked => before.(shut := Some(m.ok))
        case _ => before
  }

  predicate Halted(status: Option<Status>) {
    status == Some(Stopping) || status == Some(Fatal)
  }

  predicate Live(status: Option<Status>) {
    status == Some(Starting) || status == Some(Started)
  }

  /** A start is turned away exactly if it finds STOPPING or FATAL. It succeeds exactly if its instance was created
      and, at its verdict, has come up or the status is no longer STARTING; otherwise it fails. */
  predicate StartTold(h: Story, o: Outcome) {
    match o
    case Rejected => Halted(h.found) && h.created.None?
    case Succeeded => h.created == Some(true) && h.verdict.Some? && (h.up == Some(true) || h.verdict != Some(Starting))
    case Failed =>
      h.created == Some(false) || (h.created == Some(true) && h.up == Some(false) && h.verdict == Some(Starting))
  }

  /** A close is turned away exactly unless it finds STARTING or STARTED, and then tells how the closing went. */
  predicate CloseTold(h: Story, o: Outcome) {
    match o
    case Rejected => h.found.Some? && !Live(h.found) && h.shut.None?
    case Succeeded => Live(h.found) && h.shut == Some(true)
    case Failed => Live(h.found) && h.shut == Some(false)
  }

  /** How far a start has come, by its story. */
  predicate StartSoFar(h: Story, p: Place) {
    match p
    case WantsStart => h == UNTOLD
    case StartLocked => h == UNTOLD
    case ClosingOld => Going(h)
    case WantsRelock => Going(h)
    case ReplaceLocked => Going(h)
    case CreateLocked => Going(h)
    case RunningStart(_) => h == Story(h.found, Some(true), None, None, None)
    case WantsVerdict(_, ok) => h == Story(h.found, Some(true), Some(ok), None, None)
    case VerdictLocked(_, ok) => h == Story(h.found, Some(true), Some(ok), None, None)
    case Returned(o) => StartTold(h, o)
    case _ => false
  }

  predicate Going(h: Story) {
    h == Story(h.found, None, None, None, None) && h.found.Some? && !Halted(h.found)
  }

  predicate CloseSoFar(h: Story, p: Place) {
    match p
    case WantsClose => h == UNTOLD
    case CloseLocked => h == UNTOLD
    case ShutLocked => h == Story(h.found, None, None, None, None) && Live(h.found)
    case Returned(o) => CloseTold(h, o)
    case _ => false
  }

  lemma StoryPush(s: Service, run: seq<Move>, c: Caller)
    requires |run| > 0 && c in After(s, run[..|run| - 1]).places
    ensures var front, m := run[..|run| - 1], run[|run| - 1];
      var t, h := After(s, front), StoryOf(s, front, c);
      StoryOf(s, run, c) ==
        if m.caller != c then h
        else match t.places[c]
             case StartLocked => h.(found := Some(t.status))
             case CloseLocked => h.(found := Some(t.status))
             case CreateLocked => h.(created := Some(m.ok))
             case RunningStart(_) => h.(up := Some(m.ok))
             case VerdictLocked(_, _) => h.(verdict := Some(t.status))
             case ShutLocked => h.(shut := Some(m.ok))
             case _ => h
  {
  }

  /** On every run a start that has returned was told what its story says. */
  lemma {:induction false} StartOutcome(s: Service, run: seq<Move>, c: Caller)
    requires Fresh(s) && c in s.places && s.places[c].WantsStart?
    ensures c in After(s, run).places && StartSoFar(StoryOf(s, run, c), After(s, run).places[c])
  {
    if |run| > 0 {
      var front, m := run[..|run| - 1], run[|run| - 1];
      StartOutcome(s, front, c);
      RunsSafe(s, front);
      StoryPush(s, run, c);
      if m.caller != c { OthersStay(After(s, front), m, c); }
    }
  }

  lemma OthersStay(s: Service, m: Move, c: Caller)
    requires m.caller != c && c in s.places
    ensures c in Step(s, m.caller, m.ok).places && Step(s, m.caller, m.ok).places[c] == s.places[c]
  {
  }

  /** And so was a close. */
  lemma {:induction false} CloseOutcome(s: Service, run: seq<Move>, c: Caller)
    requires Fresh(s) && c in s.places && s.places[c].WantsClose?
    ensures c in After(s, run).places && CloseSoFar(StoryOf(s, run, c), After(s, run).places[c])
  {
    if |run| > 0 {
      var front, m := run[..|run| - 1], run[|run| - 1];
      CloseOutcome(s, front, c);
      RunsSafe(s, front);
      StoryPush(s, run, c);
      if m.caller != c { OthersStay(After(s, front), m, c); }
    }
  }

  /** What a return leaves behind. A rejection leaves everything; a failure leaves FATAL and the instance as it was; a
      successful start its instance, and STARTED unless the status was no longer STARTING; a successful close IDLE and
      no instance; a reported error FATAL. */
  lemma ReturnLeaves(s: Service, run: seq<Move>, c: Caller, ok: bool)
    requires Fresh(s) && c in s.places
    requires var t := After(s, run); c in t.places && !t.places[c].Returned? && Step(t, c, ok).places[c].Returned?
    ensures var t := After(s, run);
      var u := Step(t, c, ok);
      match u.places[c].outcome
      case Rejected => u.status == t.status && u.instance == t.instance
      case Failed => u.status == Fatal && u.instance == t.instance
      case Succeeded =>
        if s.places[c].WantsStart? then
          u.instance == t.instance && u.status == if t.status == Starting then Started else t.status
        else if s.places[c].WantsClose? then u.status == Idle && u.instance == None
        else u.status == Fatal && u.instance == t.instance
  {
    RunsSafe(s, run);
    if s.places[c].WantsStart? {
      StartOutcome(s, run, c);
    } else if s.places[c].WantsClose? {
      CloseOutcome(s, run, c);
    } else {
      ErrorOnly(s, run, c);
    }
  }

  lemma {:induction false} ErrorOnly(s: Service, run: seq<Move>, c: Caller)
    requires Fresh(s) && c in s.places && s.places[c].WantsError?
    ensures var t := After(s, run);
      c in t.places && (t.places[c].WantsError? || t.places[c].ErrorLocked? || t.places[c] == Returned(Succeeded))
  {
    if |run| > 0 {
      var front, m := run[..|run| - 1], run[|run| - 1];
      ErrorOnly(s, front, c);
      if m.caller != c { OthersStay(After(s, front), m, c); }
    }
  }

  /** The diagram of the status, over every run: which follows which, and what an instance is created and given up
      under. */
  lemma Diagram(s: Service, run: seq<Move>, m: Move)
    requires Fresh(s)
    ensures var t := After(s, run);
      var u := Step(t, m.caller, m.ok);
      && (u.status != t.status ==>
            match u.status
            case Starting => t.status != Started && u.instance == t.instance
            case Started => t.status == Starting && u.instance == t.instance
            case Stopping => (t.status == Starting || t.status == Started) && u.instance == t.instance != None
            case Idle => t.status == Stopping && u.instance.None?
            case Fatal => u.instance == t.instance)
      && (u.instance != t.instance ==>
            || (u.instance == Some(t.made) && t.status == Starting == u.status)
            || (u.instance == None && t.status == Stopping && u.status == Idle))
  {
    RunsSafe(s, run);
  }
}
