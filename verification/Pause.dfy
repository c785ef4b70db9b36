/**
  The global pause: its in-memory state, the flag of the disk watch, and the pause file
  that survives a restart. Each event is one atomic step of the engine.
*/
module Pause {
  import opened TorrentSession
  import opened Wrappers

  datatype PauseReason = Manual | DiskMissing

  /** `until` is `None` for a pause that lasts until it is lifted. */
  datatype PauseState = PauseState(since: int, until: Option<int>, reason: PauseReason)

  datatype DiskAction = Nothing | PauseForDisk | ResumeFromDisk

  /** What the disk watch should do, given the disk and the current pause. */
  function DiskActionFor(diskOk: bool, reason: Option<PauseReason>): DiskAction
  {
    match (diskOk, reason)
    case (false, None) => PauseForDisk
    case (true, Some(DiskMissing)) => ResumeFromDisk
    case _ => Nothing
  }

  function ReasonOf(p: Option<PauseState>): Option<PauseReason>
  {
    if p.Some? then Some(p.value.reason) else None
  }

  predicate Expired(p: PauseState, now: int)
  {
    p.until.Some? && p.until.value <= now
  }

  /** The pause found at startup; an unreadable or expired one is ignored. */
  function LoadPause(file: Option<PauseState>, readable: bool, now: int): Option<PauseState>
  {
    if readable && file.Some? && !Expired(file.value, now) then file else None
  }

  datatype Core = Core(pause: Option<PauseState>, diskMissing: bool, file: Option<PauseState>)

  const NANOS: nat := 1_000_000_000
  const LONGEST: nat := 30 * 86_400 * NANOS

  /** The duration check, on a duration in nanoseconds. */
  predicate DurationAccepted(duration: nat, indefinite: bool)
  {
    indefinite || (duration != 0 && duration <= LONGEST)
  }

  function NewPause(c: Core, now: int, duration: nat, indefinite: bool): PauseState
  {
    PauseState(if c.pause.Some? then c.pause.value.since else now,
               if indefinite then None else Some(now + duration / NANOS), Manual)
  }

  predicate PauseAccepted(c: Core, duration: nat, indefinite: bool, storeOk: bool)
  {
    DurationAccepted(duration, indefinite) && (c.diskMissing || storeOk)
  }

  /** Pausing by hand: the file first, unless the disk is gone, then the memory. */
  function PauseAll(c: Core, now: int, duration: nat, indefinite: bool, storeOk: bool): Core
  {
    if !PauseAccepted(c, duration, indefinite, storeOk) then c
    else
      var st := NewPause(c, now, duration, indefinite);
      c.(pause := Some(st), file := if c.diskMissing then c.file else Some(st))
  }

  /** Lifting: the memory first, then the file, whose removal may fail unnoticed. */
  function Lift(c: Core, removeOk: bool): Core
  {
    if c.pause.None? then c
    else c.(pause := None, file := if removeOk then None else c.file)
  }

  /** Resuming is refused while the disk is missing. */
  function ResumeAll(c: Core, removeOk: bool): Core
  {
    if c.diskMissing then c else Lift(c, removeOk)
  }

  function PauseForMissingDisk(c: Core, now: int): Core
  {
    if c.pause.Some? then c else c.(pause := Some(PauseState(now, None, DiskMissing)))
  }

  /** The periodic check: the disk watch, then the expiry of a timed pause. */
  function CheckPause(c: Core, now: int, diskOk: bool, removeOk: bool): Core
  {
    var seen := c.(diskMissing := !diskOk);
    match DiskActionFor(diskOk, ReasonOf(c.pause))
    case PauseForDisk => PauseForMissingDisk(seen, now)
    case ResumeFromDisk => ResumeAll(seen, removeOk)
    case Nothing =>
      if seen.pause.Some? && diskOk && Expired(seen.pause.value, now) then ResumeAll(seen, removeOk)
      else seen
  }

  function Restart(c: Core, now: int, readable: bool): Core
  {
    Core(LoadPause(c.file, readable, now), false, c.file)
  }

  /**
    What an accepted call asks for: an end, unless indefinite, as many whole seconds from now
    as the duration has, and the start of the pause it extends, if any.
  */
  lemma NewPauseExactly(c: Core, now: int, seconds: nat, rest: nat, indefinite: bool)
    requires rest < 1_000_000_000
    ensures var p := NewPause(c, now, seconds * 1_000_000_000 + rest, indefinite);
            && p.reason == Manual
            && p.until == (if indefinite then None else Some(now + seconds))
            && p.since == (if c.pause.Some? then c.pause.value.since else now)
  {
    WholeSeconds(seconds, rest);
  }

  lemma WholeSeconds(seconds: nat, rest: nat)
    requires rest < NANOS
    ensures (seconds * NANOS + rest) / NANOS == seconds
  {
  }

  /** Thirty days is the longest timed pause, and the shortest is a nanosecond. */
  lemma ThirtyDaysAtMost(c: Core)
    ensures PauseAccepted(c, 2_592_000_000_000_000, false, true) && PauseAccepted(c, 1, false, true)
    ensures !PauseAccepted(c, 2_592_000_000_000_001, false, true) && !PauseAccepted(c, 0, false, true)
    ensures PauseAccepted(c, 0, true, true)
  {
  }

  /**
    After a check the flag says what the disk was, and without the disk there is a pause, the
    old one if there was one.
  */
  lemma CheckSeesDisk(c: Core, now: int, diskOk: bool, removeOk: bool)
    ensures var c' := CheckPause(c, now, diskOk, removeOk);
            && (c'.diskMissing <==> !diskOk)
            && (!diskOk && c.pause.Some? ==> c'.pause == c.pause)
            && (!diskOk && c.pause.None? ==> c'.pause == Some(PauseState(now, None, DiskMissing)))
            && (diskOk && c.pause.None? ==> c'.pause.None?)
            && (c'.pause.Some? ==> c'.file == c.file)
            && (c.pause.Some? && c'.pause.None? ==> c'.file == if removeOk then None else c.file)
  {
  }

  // ---- runs ---------------------------------------------------------------------------

  datatype Event =
    | PauseCall(at: int, duration: nat, indefinite: bool, storeOk: bool)
    | ResumeCall(at: int, removeOk: bool)
    | Check(at: int, diskOk: bool, removeOk: bool)
    | Boot(at: int, readable: bool)

  function Step(c: Core, e: Event): Core
  {
    match e
    case PauseCall(at, duration, indefinite, storeOk) => PauseAll(c, at, duration, indefinite, storeOk)
    case ResumeCall(at, removeOk) => ResumeAll(c, removeOk)
    case Check(at, diskOk, removeOk) => CheckPause(c, at, diskOk, removeOk)
    case Boot(at, readable) => Restart(c, at, readable)
  }

  function Run(c: Core, events: seq<Event>): Core
  {
    if events == [] then c else Step(Run(c, events[..|events| - 1]), events[|events| - 1])
  }

  /** The clock never goes back. */
  ghost predicate Timely(start: int, events: seq<Event>)
  {
    forall i :: 0 <= i < |events| ==>
      start <= events[i].at && forall j :: 0 <= j < i ==> events[j].at <= events[i].at
  }

  function LastAt(start: int, events: seq<Event>): int
  {
    if events == [] then start else events[|events| - 1].at
  }

  /** The removal or read of the pause file in this step does not fail. */
  predicate FileWorks(e: Event)
  {
    match e
    case PauseCall(_, _, _, _) => true
    case ResumeCall(_, removeOk) => removeOk
    case Check(_, _, removeOk) => removeOk
    case Boot(_, readable) => readable
  }

  /**
    What every run keeps: a missing disk means paused, a pause made by the disk watch has
    no end time, and the file never holds one.
  */
  predicate Sound(c: Core)
  {
    && (c.diskMissing ==> c.pause.Some?)
    && (c.pause.Some? && c.pause.value.reason == DiskMissing ==> c.pause.value.until.None?)
    && (c.file.Some? ==> c.file.value.reason == Manual)
  }

  lemma {:induction false} RunSound(c: Core, events: seq<Event>)
    requires Sound(c)
    ensures Sound(Run(c, events))
  {
    if events != [] {
      RunSound(c, events[..|events| - 1]);
    }
  }

  /** The file holds no live pause that the engine has forgotten. */
  predicate FileKnown(c: Core, now: int)
  {
    c.file.Some? && !Expired(c.file.value, now) ==> c.pause.Some?
  }

  /** As long as file removals and reads work, a live pause on file is always in force. */
  lemma {:induction false} RunFileKnown(c: Core, start: int, events: seq<Event>)
    requires FileKnown(c, start) && Timely(start, events) && forall e :: e in events ==> FileWorks(e)
    ensures FileKnown(Run(c, events), LastAt(start, events))
  {
    if events != [] {
      var init, last := events[..|events| - 1], events[|events| - 1];
      RunFileKnown(c, start, init);
      assert last in events && forall e :: e in init ==> e in events;
      assert LastAt(start, init) <= last.at;
    }
  }

  /** A pause ends only in these steps, and never while the disk is missing. */
  lemma PauseEndsExactly(c: Core, e: Event)
    requires Sound(c) && c.pause.Some?
    ensures Step(c, e).pause.None? <==>
      match e
      case PauseCall(_, _, _, _) => false
      case ResumeCall(_, _) => !c.diskMissing
      case Check(at, diskOk, _) => diskOk && (c.pause.value.reason == DiskMissing || Expired(c.pause.value, at))
      case Boot(at, readable) => !readable || c.file.None? || Expired(c.file.value, at)
    ensures Step(c, e).pause.None? ==> !Step(c, e).diskMissing
  {
  }

  /** The step at `i` is the disk watch pausing with exactly `p`, and `p` stayed in force ever since. */
  ghost predicate DiskPauseSince(c: Core, events: seq<Event>, i: nat, p: PauseState)
  {
    && i < |events|
    && events[i].Check? && !events[i].diskOk
    && Run(c, events[..i]).pause.None?
    && p == PauseState(events[i].at, None, DiskMissing)
    && forall j :: i < j <= |events| ==> Run(c, events[..j]).pause == Some(p)
  }

  /** A pause of the disk watch in force was created by it, by a check that found no pause. */
  lemma {:induction false} DiskPauseOrigin(c: Core, events: seq<Event>) returns (i: nat)
    requires Sound(c) && ReasonOf(c.pause) != Some(DiskMissing)
    requires ReasonOf(Run(c, events).pause) == Some(DiskMissing)
    ensures DiskPauseSince(c, events, i, Run(c, events).pause.value)
  {
    var n := |events| - 1;
    var init := events[..n];
    RunSound(c, init);
    var before := Run(c, init);
    assert events[..|events|] == events;
    if ReasonOf(before.pause) == Some(DiskMissing) {
      i := DiskPauseOrigin(c, init);
      forall j | i < j <= |events| ensures Run(c, events[..j]).pause == Some(before.pause.value) {
        if j <= n {
          assert init[..j] == events[..j];
        }
      }
      assert init[..i] == events[..i];
    } else {
      i := n;
    }
  }

  /**
    Whatever the disk watch lifts before its end time, it had put there itself: any other
    pause outlives every check.
  */
  lemma DiskWatchLiftsOnlyItsOwn(c: Core, events: seq<Event>, check: Event) returns (i: nat)
    requires Sound(c) && ReasonOf(c.pause) != Some(DiskMissing)
    requires Run(c, events).pause.Some? && check.Check?
    requires Step(Run(c, events), check).pause.None?
    requires !Expired(Run(c, events).pause.value, check.at)
    ensures DiskPauseSince(c, events, i, Run(c, events).pause.value)
  {
    RunSound(c, events);
    i := DiskPauseOrigin(c, events);
  }

  // ---- a pause survives ----------------------------------------------------------------

  /** No pause or resume call was accepted along the run. */
  ghost predicate Undisturbed(c: Core, events: seq<Event>)
  {
    forall i :: 0 <= i < |events| ==>
      var at := Run(c, events[..i]);
      match events[i]
      case PauseCall(_, duration, indefinite, storeOk) => !PauseAccepted(at, duration, indefinite, storeOk)
      case ResumeCall(_, _) => at.diskMissing
      case Check(_, _, _) => true
      case Boot(_, readable) => readable
  }

  /**
    A manual pause that reached the file stays in force, unchanged, through any number of
    restarts, disk losses and checks, until its end time or an accepted pause or resume.
  */
  lemma {:induction false} FiledPauseSurvives(c: Core, p: PauseState, start: int, events: seq<Event>)
    requires p.reason == Manual && c.pause == Some(p) && c.file == Some(p)
    requires Timely(start, events) && Undisturbed(c, events)
    requires !Expired(p, LastAt(start, events))
    ensures Run(c, events).pause == Some(p) && Run(c, events).file == Some(p)
  {
    if events != [] {
      var init, last := events[..|events| - 1], events[|events| - 1];
      assert forall i :: 0 <= i < |init| ==> init[..i] == events[..i];
      assert LastAt(start, init) <= last.at;
      FiledPauseSurvives(c, p, start, init);
    }
  }

  /** A call accepted with the disk present puts the same pause in memory and on file. */
  lemma AcceptedPauseIsFiled(c: Core, now: int, duration: nat, indefinite: bool, storeOk: bool)
    requires PauseAccepted(c, duration, indefinite, storeOk) && !c.diskMissing
    ensures var c' := PauseAll(c, now, duration, indefinite, storeOk);
            && c'.pause == Some(NewPause(c, now, duration, indefinite)) && c'.file == c'.pause
            && c'.pause.value.reason == Manual
  {
  }

  /**
    So an acknowledged pause, made with the disk present, is in force unchanged until its end
    time or an accepted call, through any number of restarts, disk losses and checks.
  */
  lemma AcceptedPauseSurvives(c: Core, now: int, duration: nat, indefinite: bool, storeOk: bool, events: seq<Event>)
    requires PauseAccepted(c, duration, indefinite, storeOk) && !c.diskMissing
    requires Timely(now, events) && Undisturbed(PauseAll(c, now, duration, indefinite, storeOk), events)
    requires !Expired(NewPause(c, now, duration, indefinite), LastAt(now, events))
    ensures Run(PauseAll(c, now, duration, indefinite, storeOk), events).pause
         == Some(NewPause(c, now, duration, indefinite))
  {
    AcceptedPauseIsFiled(c, now, duration, indefinite, storeOk);
    var c', p := PauseAll(c, now, duration, indefinite, storeOk), NewPause(c, now, duration, indefinite);
    FiledPauseSurvives(c', p, now, events);
  }

  /** Without restarts a manual pause needs no file: no pattern of disk losses and returns ends it. */
  lemma {:induction false} ManualPauseOutlivesDisk(c: Core, p: PauseState, start: int, checks: seq<Event>)
    requires p.reason == Manual && c.pause == Some(p)
    requires Timely(start, checks) && forall e :: e in checks ==> e.Check?
    requires !Expired(p, LastAt(start, checks))
    ensures Run(c, checks).pause == Some(p)
  {
    if checks != [] {
      var init, last := checks[..|checks| - 1], checks[|checks| - 1];
      assert last in checks && forall e :: e in init ==> e in checks;
      assert LastAt(start, init) <= last.at;
      ManualPauseOutlivesDisk(c, p, start, init);
    }
  }

  /** Pausing again, by hand, changes the end and keeps the start. */
  lemma {:induction false} ExtendingKeepsSince(c: Core, calls: seq<Event>)
    requires c.pause.Some? && forall e :: e in calls ==> e.PauseCall? || (e.Check? && !e.diskOk)
    ensures Run(c, calls).pause.Some? && Run(c, calls).pause.value.since == c.pause.value.since
  {
    if calls != [] {
      var init, last := calls[..|calls| - 1], calls[|calls| - 1];
      assert last in calls && forall e :: e in init ==> e in calls;
      ExtendingKeepsSince(c, init);
    }
  }

  // ---- where the promises stop -----------------------------------------------------------

  /**
    An accepted manual pause is in force again right after a restart exactly when it has not
    ended at once, and the disk was present when it was made or the file already held that
    very pause.
  */
  lemma RestartKeepsPauseIff(c: Core, now: int, duration: nat, indefinite: bool, storeOk: bool)
    requires PauseAccepted(c, duration, indefinite, storeOk)
    ensures var c' := PauseAll(c, now, duration, indefinite, storeOk);
            Restart(c', now, true).pause == c'.pause
            <==> (indefinite || duration >= NANOS)
                 && (!c.diskMissing || c.file == Some(NewPause(c, now, duration, indefinite)))
  {
    assert duration / NANOS >= 1 <==> duration >= NANOS;
  }

  /**
    A pause made while the disk was missing is not written later either: once the disk is back,
    a restart forgets it.
  */
  lemma PauseMadeWithoutDiskIsLost()
    ensures var c := Core(Some(PauseState(0, None, DiskMissing)), true, None);
            var paused := Run(c, [PauseCall(1, 0, true, true), Check(2, true, true), Check(3, true, true)]);
            && paused.pause == Some(PauseState(0, None, Manual))
            && Restart(paused, 4, true).pause == None
  {
    var c := Core(Some(PauseState(0, None, DiskMissing)), true, None);
    var e1, e2, e3 := PauseCall(1, 0, true, true), Check(2, true, true), Check(3, true, true);
    assert [e1, e2, e3][..2] == [e1, e2] && [e1, e2][..1] == [e1] && [e1][..0] == [];
    assert Run(c, [e1]) == Step(c, e1);
    assert Run(c, [e1, e2]) == Step(Step(c, e1), e2);
  }

  /** A lifted pause comes back with a restart exactly when its file could not be removed and has not expired. */
  lemma ResumeSticksIff(c: Core, removeOk: bool, now: int)
    requires !c.diskMissing && c.pause.Some?
    ensures Restart(ResumeAll(c, removeOk), now, true).pause.None?
            <==> removeOk || c.file.None? || Expired(c.file.value, now)
  {
  }

  /** A pause that was lifted, and whose file could not be removed, is back after a restart. */
  lemma LiftedPauseReturns()
    ensures var p := Some(PauseState(0, None, Manual));
            var lifted := ResumeAll(Core(p, false, p), false);
            lifted.pause == None && Restart(lifted, 1, true).pause == p
  {
  }

  /** An accepted timed pause lasts any time at all exactly when it is at least a second long. */
  lemma TimedPauseLastsIff(c: Core, now: int, duration: nat, storeOk: bool, readable: bool)
    requires PauseAccepted(c, duration, false, storeOk) && !c.diskMissing && readable
    ensures var c' := PauseAll(c, now, duration, false, storeOk);
            && (CheckPause(c', now, true, true).pause == c'.pause <==> duration >= NANOS)
            && (Restart(c', now, readable).pause == c'.pause <==> duration >= NANOS)
  {
    assert duration / NANOS >= 1 <==> duration >= NANOS;
  }

  /** A pause of half a second is accepted and is over by the next check, at the same second. */
  lemma HalfSecondPauseEndsAtOnce()
    ensures var c := Core(None, false, None);
            && PauseAccepted(c, NANOS / 2, false, true)
            && PauseAll(c, 0, NANOS / 2, false, true).pause == Some(PauseState(0, Some(0), Manual))
            && CheckPause(PauseAll(c, 0, NANOS / 2, false, true), 0, true, true).pause == None
  {
    TimedPauseLastsIff(Core(None, false, None), 0, NANOS / 2, true, true);
  }

  // ---- enforcement -------------------------------------------------------------------------

  /** Pausing every loaded torrent; `ok` says which session calls succeed. */
  function ApplyPause(s: Session, ok: string -> bool): Session
  {
    map h | h in s :: if ok(h) then s[h].(paused := true) else s[h]
  }

  function NewlyPaused(s: Session, ok: string -> bool): set<string>
  {
    set h | h in s && !s[h].paused && ok(h)
  }

  /** If every pause call succeeds, nothing is left running, and a second pass finds nothing to do. */
  lemma ApplyPauseConverges(s: Session, ok: string -> bool, ok': string -> bool)
    ensures AllPaused(ApplyPause(s, ok)) <==> forall h :: h in s && !s[h].paused ==> ok(h)
    ensures AllPaused(s) ==> ApplyPause(s, ok') == s && NewlyPaused(s, ok') == {}
    ensures ApplyPause(ApplyPause(s, ok), ok) == ApplyPause(s, ok) && NewlyPaused(ApplyPause(s, ok), ok) == {}
  {
    var s' := ApplyPause(s, ok);
    if AllPaused(s') {
      forall h | h in s && !s[h].paused ensures ok(h) {
        assert h in s' && s'[h].paused;
      }
    }
  }
}
