/**
  The pause file on its way to the disk: a temporary file is written, synced and renamed
  over the real one. `survivors` lists what a power cut may leave behind; a process crash
  leaves what the running kernel shows.
*/
module PauseFile {
  import opened Pause
  import opened Wrappers

  datatype Content = Absent | Whole(state: PauseState) | Torn

  datatype Disk = Disk(main: Content, survivors: set<Content>, tmp: Content, tmpSynced: bool)

  datatype FileOp = WriteTmp(state: PauseState) | SyncTmp | RenameTmp | Unlink

  function Apply(d: Disk, op: FileOp): Disk
  {
    match op
    case WriteTmp(st) => d.(tmp := Whole(st), tmpSynced := false)
    case SyncTmp => d.(tmpSynced := true)
    case RenameTmp =>
      d.(main := d.tmp,
         survivors := d.survivors + {d.tmp} + (if d.tmpSynced then {} else {Torn}),
         tmp := Absent, tmpSynced := false)
    case Unlink => d.(main := Absent, survivors := d.survivors + {Absent})
  }

  function ApplyAll(d: Disk, ops: seq<FileOp>): Disk
  {
    if ops == [] then d else Apply(ApplyAll(d, ops[..|ops| - 1]), ops[|ops| - 1])
  }

  /** The operations of one store. */
  function StoreOps(st: Option<PauseState>): seq<FileOp>
  {
    if st.Some? then [WriteTmp(st.value), SyncTmp, RenameTmp] else [Unlink]
  }

  function ContentOf(st: Option<PauseState>): Content
  {
    if st.Some? then Whole(st.value) else Absent
  }

  /** What a reader makes of the file; a torn one does not parse. */
  function ReadBack(c: Content): Option<PauseState>
  {
    if c.Whole? then Some(c.state) else None
  }

  ghost predicate Intact(d: Disk)
  {
    d.main in d.survivors && Torn !in d.survivors
  }

  /**
    Wherever a store is interrupted, the file holds the old pause or the new one, and so does
    the disk after a power cut.
  */
  lemma InterruptedStore(d: Disk, st: Option<PauseState>, k: nat)
    requires Intact(d) && k <= |StoreOps(st)|
    ensures var d' := ApplyAll(d, StoreOps(st)[..k]);
            && Intact(d')
            && d'.main == (if k < |StoreOps(st)| then d.main else ContentOf(st))
            && d'.survivors == (if k < |StoreOps(st)| then d.survivors else d.survivors + {ContentOf(st)})
  {
    var ops := StoreOps(st);
    assert ApplyAll(d, ops[..0]) == d;
    assert forall i :: 0 < i <= |ops| ==> ops[..i][..i - 1] == ops[..i - 1];
    assert ApplyAll(d, ops[..1]) == Apply(d, ops[0]);
    if st.Some? {
      assert ApplyAll(d, ops[..2]) == Apply(Apply(d, ops[0]), ops[1]);
      assert ApplyAll(d, ops[..3]) == Apply(Apply(Apply(d, ops[0]), ops[1]), ops[2]);
    }
  }

  /** A process crash in the middle of a pause or resume: the next start finds the old pause or the new one. */
  lemma CrashThenLoad(d: Disk, st: Option<PauseState>, k: nat, now: int)
    requires Intact(d) && k <= |StoreOps(st)|
    ensures var d' := ApplyAll(d, StoreOps(st)[..k]);
            LoadPause(ReadBack(d'.main), true, now)
            == LoadPause(if k < |StoreOps(st)| then ReadBack(d.main) else st, true, now)
  {
    InterruptedStore(d, st, k);
  }

  /**
    Seen from the engine, a crash after any number of a pause's or resume's file operations
    restarts as if the call had never begun, or as if it had been completed.
  */
  lemma CrashIsAtomic(c: Core, d: Disk, now: int, duration: nat, indefinite: bool, k: nat, later: int)
    requires Intact(d) && ReadBack(d.main) == c.file && !c.diskMissing && DurationAccepted(duration, indefinite)
    ensures var ops := StoreOps(Some(NewPause(c, now, duration, indefinite)));
            k <= |ops| ==>
              var left := c.(file := ReadBack(ApplyAll(d, ops[..k]).main));
              Restart(left, later, true)
              == Restart(if k < |ops| then c else PauseAll(c, now, duration, indefinite, true), later, true)
    ensures c.pause.Some? && k <= |StoreOps(None)| ==>
              var left := c.(pause := None, file := ReadBack(ApplyAll(d, StoreOps(None)[..k]).main));
              Restart(left, later, true) == Restart(if k == 0 then c else ResumeAll(c, true), later, true)
  {
    var st := Some(NewPause(c, now, duration, indefinite));
    if k <= |StoreOps(st)| {
      InterruptedStore(d, st, k);
    }
    if k <= |StoreOps(None)| {
      InterruptedStore(d, None, k);
    }
  }

  // ---- runs with crashes ------------------------------------------------------------------

  /** Stores cut short after `done` operations, write-back by the kernel, and power cuts. */
  datatype DiskEvent =
    | Store(target: Option<PauseState>, done: nat)
    | WriteBack
    | PowerCut(left: Content)

  ghost predicate Possible(d: Disk, e: DiskEvent)
  {
    match e
    case Store(st, done) => done <= |StoreOps(st)|
    case WriteBack => true
    case PowerCut(left) => left in d.survivors
  }

  function DiskStep(d: Disk, e: DiskEvent): Disk
  {
    match e
    case Store(st, done) => if done <= |StoreOps(st)| then ApplyAll(d, StoreOps(st)[..done]) else d
    case WriteBack => d.(survivors := {d.main})
    case PowerCut(left) => Disk(left, {left}, Absent, false)
  }

  function DiskRun(d: Disk, events: seq<DiskEvent>): Disk
  {
    if events == [] then d else DiskStep(DiskRun(d, events[..|events| - 1]), events[|events| - 1])
  }

  ghost predicate PossibleRun(d: Disk, events: seq<DiskEvent>)
  {
    forall i :: 0 <= i < |events| ==> Possible(DiskRun(d, events[..i]), events[i])
  }

  /**
    Over any run of stores interrupted anywhere and power cuts at any moment, the file is
    never torn, and it only ever holds what it held at first or what some store wrote.
  */
  lemma {:induction false} NeverTorn(d: Disk, events: seq<DiskEvent>)
    requires Intact(d) && PossibleRun(d, events)
    ensures var d' := DiskRun(d, events);
            && Intact(d')
            && forall c :: c in d'.survivors ==>
                 c in d.survivors || exists e :: e in events && e.Store? && c == ContentOf(e.target)
  {
    if events != [] {
      var n := |events| - 1;
      var init, last := events[..n], events[n];
      assert forall i :: 0 <= i < n ==> init[..i] == events[..i] && init[i] == events[i];
      NeverTorn(d, init);
      var before := DiskRun(d, init);
      assert Possible(before, last);
      if last.Store? {
        InterruptedStore(before, last.target, last.done);
      }
      forall c | c in DiskRun(d, events).survivors
        ensures c in d.survivors || exists e :: e in events && e.Store? && c == ContentOf(e.target)
      {
        if c in before.survivors {
          if c !in d.survivors {
            var e :| e in init && e.Store? && c == ContentOf(e.target);
            assert e in events;
          }
        } else {
          assert last in events;
        }
      }
    }
  }

  /**
    The directory itself is not synced: right after an acknowledged store, a power cut can
    still bring back any earlier content, unless that content was the same.
  */
  lemma AcknowledgedStoreMayRevert(d: Disk, st: Option<PauseState>)
    requires Intact(d)
    ensures var d' := ApplyAll(d, StoreOps(st));
            (forall left :: left in d'.survivors ==> left == ContentOf(st)) <==> d.survivors == {ContentOf(st)}
  {
    var ops := StoreOps(st);
    InterruptedStore(d, st, |ops|);
    assert ops[..|ops|] == ops;
    var d' := ApplyAll(d, ops);
    if forall left :: left in d'.survivors ==> left == ContentOf(st) {
      forall c | c in d.survivors ensures c == ContentOf(st) {
        assert c in d'.survivors;
      }
      assert d.main in d.survivors;
    }
  }

  /** A first pause, stored and acknowledged, can be gone after a power cut. */
  lemma AcknowledgedPauseGone(st: PauseState)
    ensures var empty := Disk(Absent, {Absent}, Absent, false);
            var stored := ApplyAll(empty, StoreOps(Some(st)));
            && Intact(empty) && stored.main == Whole(st) && Absent in stored.survivors
            && ReadBack(DiskStep(stored, PowerCut(Absent)).main) == None
  {
    var empty, ops := Disk(Absent, {Absent}, Absent, false), StoreOps(Some(st));
    InterruptedStore(empty, Some(st), |ops|);
    assert ops[..|ops|] == ops;
  }
}
