/**
  What a task of the interleaved machine does when nothing else runs: exactly what the engine's
  operation of the same name does in one piece. So the small steps lose nothing of the whole.
*/
module Alone {
  import opened CatalogStore
  import opened Eviction
  import opened Interleave
  import opened Pause
  import opened Planner
  import opened Queue
  import Reload
  import opened TorrentEngine
  import opened TorrentSession
  import opened Wrappers

  /** An environment in which the session's answer is `ok`. */
  function Answer(ok: bool): Env
  {
    QuietEnv(0, true).(ok := ok)
  }

  /** Every move is a step of this task. */
  ghost predicate OnlyTask(moves: seq<Move>, id: nat)
  {
    forall i :: 0 <= i < |moves| ==> moves[i].Advance? && moves[i].id == id
  }

  lemma OneMove(cfg: Config, s: State, m: Move)
    ensures RunMoves(cfg, s, [m]) == Next(cfg, s, m)
  {
    RunSnoc(cfg, s, [], m);
    assert [] + [m] == [m];
  }

  lemma FirstMove(cfg: Config, s: State, m: Move, rest: seq<Move>)
    ensures RunMoves(cfg, s, [m] + rest) == RunMoves(cfg, Next(cfg, s, m), rest)
  {
    OneMove(cfg, s, m);
    RunAppend(cfg, s, [m], rest);
  }

  // ---- evicting --------------------------------------------------------------------------------

  /** The task stands in its eviction loop at `pc`, an add's or a sweep's. */
  predicate InLoop(t: Task, pc: EvictPc)
  {
    t == Sweep(pc) || (t.Add? && t.add == AddMakingRoom(pc))
  }

  function AtPc(t: Task, pc: EvictPc): Task
    requires t.Sweep? || t.Add?
  {
    if t.Sweep? then Sweep(pc) else Add(t.req, AddMakingRoom(pc))
  }

  lemma LoopStep(cfg: Config, s: State, id: nat, pc: EvictPc, ok: bool)
    requires id in s.tasks && InLoop(s.tasks[id], pc) && pc.victims != []
    ensures var r := EvictStep(s.tables, s.session, pc, ok);
            var s' := s.(tables := r.tables, session := r.session);
            Next(cfg, s, Advance(id, Answer(ok)))
            == if r.next.None? then Finish(s', id) else Goto(s', id, AtPc(s.tasks[id], r.next.value))
  {
  }

  /** The state with this much evicted and the loop at `pc`. */
  function Evicted(s: State, id: nat, w: World, pc: EvictPc): State
    requires id in s.tasks && (s.tasks[id].Sweep? || s.tasks[id].Add?)
  {
    s.(tables := w.tables, session := w.session, tasks := s.tasks[id := AtPc(s.tasks[id], pc)])
  }

  lemma EvictedAgain(s: State, id: nat, w: World, pc: EvictPc, w': World, pc': EvictPc)
    requires id in s.tasks && (s.tasks[id].Sweep? || s.tasks[id].Add?)
    ensures Evicted(Evicted(s, id, w, pc), id, w', pc') == Evicted(s, id, w', pc')
    ensures Finish(Evicted(s, id, w, pc), id) == Finish(s.(tables := w.tables, session := w.session), id)
  {
    var t := AtPc(s.tasks[id], pc);
    assert s.tasks[id := t][id := AtPc(t, pc')] == s.tasks[id := AtPc(s.tasks[id], pc')];
    assert s.tasks[id := t] - {id} == s.tasks - {id};
  }

  /** The three steps of one victim come to one eviction. */
  lemma OneVictim(cfg: Config, s: State, id: nat, v: seq<string>, ok: bool) returns (moves: seq<Move>)
    requires id in s.tasks && InLoop(s.tasks[id], Pick(v)) && v != []
    ensures OnlyTask(moves, id)
    ensures var next := EvictOne(World(s.tables, s.session), v[0], ok);
            RunMoves(cfg, s, moves) == if next.None? then Finish(s, id) else Evicted(s, id, next.value, Pick(v[1..]))
  {
    var m := Advance(id, Answer(ok));
    var w := World(s.tables, s.session);
    var row := TorrentByHash(s.tables.torrents, v[0]);
    LoopStep(cfg, s, id, Pick(v), ok);
    var s1 := Evicted(s, id, w, DeleteTorrent(v, row));
    assert Next(cfg, s, m) == s1;
    LoopStep(cfg, s1, id, DeleteTorrent(v, row), ok);
    if v[0] in s.session && !ok {
      EvictedAgain(s, id, w, DeleteTorrent(v, row), w, Pick(v));
      TwoMoves(cfg, s, m, m);
      moves := [m, m];
    } else {
      var w2 := World(s.tables, s.session - {v[0]});
      EvictedAgain(s, id, w, DeleteTorrent(v, row), w2, DeleteRows(v, row));
      var s2 := Evicted(s, id, w2, DeleteRows(v, row));
      LoopStep(cfg, s2, id, DeleteRows(v, row), ok);
      var w3 := EvictOne(w, v[0], ok).value;
      EvictedAgain(s, id, w2, DeleteRows(v, row), w3, Pick(v[1..]));
      TwoMoves(cfg, s, m, m);
      RunSnoc(cfg, s, [m, m], m);
      moves := [m, m] + [m];
    }
  }

  /** The loop alone carries its whole plan out, up to the first failure. */
  lemma {:induction false} EvictionAlone(cfg: Config, s: State, id: nat, v: seq<string>, deleteOk: string -> bool)
    returns (moves: seq<Move>)
    requires id in s.tasks && InLoop(s.tasks[id], Pick(v))
    ensures OnlyTask(moves, id)
    ensures var done := EvictAll(World(s.tables, s.session), v, deleteOk);
            RunMoves(cfg, s, moves)
            == if done.ok then Evicted(s, id, done.world, Pick([]))
               else Finish(s.(tables := done.world.tables, session := done.world.session), id)
    decreases |v|
  {
    if v == [] {
      moves := [];
      assert s.tasks[id := AtPc(s.tasks[id], Pick([]))] == s.tasks;
    } else {
      moves := OneVictim(cfg, s, id, v, deleteOk(v[0]));
      var next := EvictOne(World(s.tables, s.session), v[0], deleteOk(v[0]));
      if next.Some? {
        var s1 := Evicted(s, id, next.value, Pick(v[1..]));
        var rest := EvictionAlone(cfg, s1, id, v[1..], deleteOk);
        var done := EvictAll(next.value, v[1..], deleteOk);
        EvictedAgain(s, id, next.value, Pick(v[1..]), done.world, Pick([]));
        EvictedFails(s, id, next.value, Pick(v[1..]), done.world);
        RunAppend(cfg, s, moves, rest);
        moves := moves + rest;
      } else {
        assert s.(tables := s.tables, session := s.session) == s;
      }
    }
  }

  lemma EvictedFails(s: State, id: nat, w: World, pc: EvictPc, w': World)
    requires id in s.tasks && (s.tasks[id].Sweep? || s.tasks[id].Add?)
    ensures Finish(Evicted(s, id, w, pc).(tables := w'.tables, session := w'.session), id)
         == Finish(s.(tables := w'.tables, session := w'.session), id)
  {
    assert s.tasks[id := AtPc(s.tasks[id], pc)] - {id} == s.tasks - {id};
  }

  // ---- balancing -------------------------------------------------------------------------------

  lemma SettleByAnswer(s: Session, h: string, slot: nat, max: Option<nat>, keepSeeding: bool, ok: string -> bool)
    requires h in s
    ensures Settle(s, h, slot, max, keepSeeding, _ => ok(h)) == Settle(s, h, slot, max, keepSeeding, ok)
  {
  }

  lemma FinishTwice(s: State, id: nat, session: Session, t: Task, session': Session)
    requires id in s.tasks
    ensures Finish(Goto(s.(session := session), id, t).(session := session'), id) == Finish(s.(session := session'), id)
  {
    assert s.tasks[id := t] - {id} == s.tasks - {id};
  }

  /** A balancing pass alone is the whole pass. */
  lemma {:induction false} BalanceAlone(cfg: Config, s: State, id: nat, order: seq<string>, slot: nat,
                                        ok: string -> bool)
    returns (moves: seq<Move>)
    requires id in s.tasks && s.tasks[id] == Balancing(order, slot)
    ensures OnlyTask(moves, id)
    ensures RunMoves(cfg, s, moves)
         == Finish(s.(session := BalanceFrom(order, s.session, slot, cfg.maxActive, cfg.keepSeeding, ok).session), id)
    decreases |order|
  {
    if order == [] {
      var m := Advance(id, Answer(true));
      OneMove(cfg, s, m);
      assert s.(session := s.session) == s;
      moves := [m];
    } else {
      var h := order[0];
      var m := Advance(id, Answer(ok(h)));
      var slot', session := slot, s.session;
      if h in s.session && !s.session[h].error {
        slot' := SlotAfter(s.session, h, slot);
        session := Settle(s.session, h, slot', cfg.maxActive, cfg.keepSeeding, ok);
        SettleByAnswer(s.session, h, slot', cfg.maxActive, cfg.keepSeeding, ok);
      }
      var t := Balancing(order[1..], slot');
      var s1 := Goto(s.(session := session), id, t);
      BalanceStepAlone(cfg, s, id, order, slot, ok);
      assert Next(cfg, s, m) == s1;
      var rest := BalanceAlone(cfg, s1, id, order[1..], slot', ok);
      FirstMove(cfg, s, m, rest);
      var last := BalanceFrom(order[1..], session, slot', cfg.maxActive, cfg.keepSeeding, ok).session;
      FinishTwice(s, id, session, t, last);
      moves := [m] + rest;
    }
  }

  lemma BalanceStepAlone(cfg: Config, s: State, id: nat, order: seq<string>, slot: nat, ok: string -> bool)
    requires id in s.tasks && s.tasks[id] == Balancing(order, slot) && order != []
    ensures var h := order[0];
            var s' := Next(cfg, s, Advance(id, Answer(ok(h))));
            if h !in s.session || s.session[h].error then
              s' == Goto(s.(session := s.session), id, Balancing(order[1..], slot))
            else
              var slot' := SlotAfter(s.session, h, slot);
              s' == Goto(s.(session := Settle(s.session, h, slot', cfg.maxActive, cfg.keepSeeding, ok)), id,
                         Balancing(order[1..], slot'))
  {
    var h := order[0];
    if h in s.session && !s.session[h].error {
      var slot' := SlotAfter(s.session, h, slot);
      var env := Answer(ok(h));
      assert Settle(s.session, h, slot', cfg.maxActive, cfg.keepSeeding, _ => env.ok)
          == Settle(s.session, h, slot', cfg.maxActive, cfg.keepSeeding, ok);
    }
  }

  // ---- pausing ---------------------------------------------------------------------------------

  /** The session with those of these torrents paused whose calls succeed. */
  function PausedAmong(s: Session, todo: set<string>, ok: string -> bool): Session
  {
    map h | h in s :: if h in todo && ok(h) then s[h].(paused := true) else s[h]
  }

  lemma PassStepAlone(cfg: Config, s: State, id: nat, todo: set<string>, h: string, ok: bool)
    requires id in s.tasks && s.tasks[id] == Applying(todo) && h in todo
    ensures var session := if h in s.session && ok then SetPaused(s.session, h, true) else s.session;
            Next(cfg, s, Advance(id, Answer(ok).(hash := h))) == Goto(s.(session := session), id, Applying(todo - {h}))
  {
    assert PauseTask(s.tasks[id]);
  }

  lemma PausedOneMore(s: Session, todo: set<string>, h: string, ok: string -> bool)
    requires h in todo
    ensures var session := if h in s && ok(h) then SetPaused(s, h, true) else s;
            PausedAmong(session, todo - {h}, ok) == PausedAmong(s, todo, ok)
  {
  }

  /** A pass alone pauses what it lists. */
  lemma {:induction false} PassAlone(cfg: Config, s: State, id: nat, todo: set<string>, ok: string -> bool)
    returns (moves: seq<Move>)
    requires id in s.tasks && s.tasks[id] == Applying(todo)
    ensures OnlyTask(moves, id)
    ensures RunMoves(cfg, s, moves) == Finish(s.(session := PausedAmong(s.session, todo, ok)), id)
    decreases todo
  {
    if todo == {} {
      var m := Advance(id, Answer(true));
      assert PauseTask(s.tasks[id]);
      OneMove(cfg, s, m);
      assert PausedAmong(s.session, todo, ok) == s.session;
      assert s.(session := s.session) == s;
      moves := [m];
    } else {
      var h :| h in todo;
      var m := Advance(id, Answer(ok(h)).(hash := h));
      var session := if h in s.session && ok(h) then SetPaused(s.session, h, true) else s.session;
      PassStepAlone(cfg, s, id, todo, h, ok(h));
      var s1 := Goto(s.(session := session), id, Applying(todo - {h}));
      var rest := PassAlone(cfg, s1, id, todo - {h}, ok);
      FirstMove(cfg, s, m, rest);
      PausedOneMore(s.session, todo, h, ok);
      FinishTwice(s, id, session, Applying(todo - {h}), PausedAmong(s.session, todo, ok));
      moves := [m] + rest;
    }
  }

  /** Over all loaded torrents it is the engine's own. */
  lemma WholePass(s: Session, ok: string -> bool)
    ensures PausedAmong(s, s.Keys, ok) == ApplyPause(s, ok)
  {
  }

  lemma GoOn(cfg: Config, s: State, id: nat, m: Move, s1: State, rest: seq<Move>)
    requires Next(cfg, s, m) == s1
    ensures RunMoves(cfg, s, [m] + rest) == RunMoves(cfg, s1, rest)
  {
    FirstMove(cfg, s, m, rest);
  }

  /** Pausing by hand, alone, sets the engine's pause and pauses what the engine pauses. */
  lemma PauseAlone(cfg: Config, s: State, id: nat, duration: nat, indefinite: bool, now: int, storeOk: bool,
                   ok: string -> bool) returns (moves: seq<Move>)
    requires id in s.tasks && s.tasks[id] == PauseWaiting(duration, indefinite) && s.lock.None?
    ensures OnlyTask(moves, id)
    ensures var accepted := PauseAccepted(s.core, duration, indefinite, storeOk);
            RunMoves(cfg, s, moves)
            == s.(core := PauseAll(s.core, now, duration, indefinite, storeOk), tasks := s.tasks - {id},
                  session := if accepted then ApplyPause(s.session, ok) else s.session)
  {
    var m1, m2 := Advance(id, Answer(true)), Advance(id, Answer(storeOk).(now := now));
    var setting := PauseSetting(duration, indefinite);
    var s1 := s.(lock := Some(id), tasks := s.tasks[id := setting]);
    assert PauseTask(s.tasks[id]) && Next(cfg, s, m1) == s1;
    TaskAgain(s.tasks, id, setting, Applying(s.session.Keys));
    if PauseAccepted(s.core, duration, indefinite, storeOk) {
      var core := PauseAll(s.core, now, duration, indefinite, storeOk);
      var s2 := s1.(core := core, tasks := s.tasks[id := Applying(s.session.Keys)]);
      assert PauseTask(s1.tasks[id]) && Next(cfg, s1, m2) == s2;
      TwoMoves(cfg, s, m1, m2);
      var rest := PassAlone(cfg, s2, id, s.session.Keys, ok);
      WholePass(s.session, ok);
      TaskAgain(s.tasks, id, Applying(s.session.Keys), SweepStart);
      RunAppend(cfg, s, [m1, m2], rest);
      moves := [m1, m2] + rest;
    } else {
      assert PauseTask(s1.tasks[id]) && Next(cfg, s1, m2) == Finish(s1, id);
      TwoMoves(cfg, s, m1, m2);
      moves := [m1, m2];
    }
  }

  /** The balancing pass of a task that is about to begin it, the engine not being paused. */
  lemma BalanceBegun(cfg: Config, s: State, id: nat, ok: string -> bool) returns (moves: seq<Move>)
    requires id in s.tasks && s.tasks[id] == BalanceStart && s.core.pause.None?
    ensures OnlyTask(moves, id)
    ensures RunMoves(cfg, s, moves)
         == Finish(s.(session := Balance(QueueOrder(s.tables.torrents), s.session, cfg.maxActive, cfg.keepSeeding,
                                         ok).session), id)
  {
    var m := Advance(id, Answer(true));
    var t := Balancing(QueueOrder(s.tables.torrents), 0);
    var s1 := Goto(s, id, t);
    assert Next(cfg, s, m) == s1;
    var rest := BalanceAlone(cfg, s1, id, QueueOrder(s.tables.torrents), 0, ok);
    FirstMove(cfg, s, m, rest);
    var last := Balance(QueueOrder(s.tables.torrents), s.session, cfg.maxActive, cfg.keepSeeding, ok).session;
    FinishTwice(s, id, s.session, t, last);
    assert s.(session := s.session) == s;
    moves := [m] + rest;
  }

  /** Resuming alone: refused without the disk, and otherwise the pause goes and the queue restarts. */
  lemma ResumeAlone(cfg: Config, s: State, id: nat, removeOk: bool, ok: string -> bool) returns (moves: seq<Move>)
    requires id in s.tasks && s.tasks[id] == ResumeStart && s.lock.None?
    ensures OnlyTask(moves, id)
    ensures var balanced := Balance(QueueOrder(s.tables.torrents), s.session, cfg.maxActive, cfg.keepSeeding, ok);
            RunMoves(cfg, s, moves)
            == s.(core := ResumeAll(s.core, removeOk), tasks := s.tasks - {id},
                  session := if s.core.diskMissing || s.core.pause.None? then s.session else balanced.session)
  {
    var m, lift := Advance(id, Answer(true)), Advance(id, Answer(removeOk));
    assert PauseTask(s.tasks[id]);
    if s.core.diskMissing {
      OneMove(cfg, s, m);
      moves := [m];
    } else {
      var s1 := Goto(s, id, ResumeWaiting);
      var s2 := s.(lock := Some(id), tasks := s.tasks[id := Lifting]);
      assert Next(cfg, s, m) == s1;
      TaskAgain(s.tasks, id, ResumeWaiting, Lifting);
      assert PauseTask(s1.tasks[id]) && Next(cfg, s1, m) == s2;
      TwoMoves(cfg, s, m, m);
      TaskAgain(s.tasks, id, Lifting, BalanceStart);
      RunSnoc(cfg, s, [m, m], lift);
      moves := [m, m] + [lift];
      assert PauseTask(s2.tasks[id]);
      if s.core.pause.None? {
        assert Next(cfg, s2, lift) == Finish(s2, id);
      } else {
        var s3 := s2.(core := Lift(s.core, removeOk), tasks := s.tasks[id := BalanceStart]);
        assert Next(cfg, s2, lift) == s3;
        var rest := BalanceBegun(cfg, s3, id, ok);
        RunAppend(cfg, s, moves, rest);
        moves := moves + rest;
        TaskAgain(s.tasks, id, BalanceStart, SweepStart);
      }
    }
  }

  // ---- the periodic check ----------------------------------------------------------------------

  /** The disk watch's pause, alone, when nothing is paused. */
  lemma DiskPauseAlone(cfg: Config, s: State, id: nat, now: int, ok: string -> bool) returns (moves: seq<Move>)
    requires id in s.tasks && s.tasks[id] == DiskWaiting && s.lock.None? && s.core.pause.None?
    ensures OnlyTask(moves, id)
    ensures RunMoves(cfg, s, moves)
         == s.(core := PauseForMissingDisk(s.core, now), session := ApplyPause(s.session, ok), tasks := s.tasks - {id})
  {
    var m1, m2 := Advance(id, Answer(true)), Advance(id, Answer(true).(now := now));
    var s1 := s.(lock := Some(id), tasks := s.tasks[id := DiskSetting]);
    assert PauseTask(s.tasks[id]) && Next(cfg, s, m1) == s1;
    TaskAgain(s.tasks, id, DiskSetting, Applying(s.session.Keys));
    var s2 := s1.(core := PauseForMissingDisk(s.core, now), tasks := s.tasks[id := Applying(s.session.Keys)]);
    assert PauseTask(s1.tasks[id]) && Next(cfg, s1, m2) == s2;
    TwoMoves(cfg, s, m1, m2);
    var rest := PassAlone(cfg, s2, id, s.session.Keys, ok);
    WholePass(s.session, ok);
    TaskAgain(s.tasks, id, Applying(s.session.Keys), SweepStart);
    RunAppend(cfg, s, [m1, m2], rest);
    moves := [m1, m2] + rest;
  }

  /** What a check leaves: the pause as it should be, and everything paused or the queue balanced. */
  function Checked(cfg: Config, s: State, id: nat, now: int, diskOk: bool, removeOk: bool, ok: string -> bool): State
  {
    var core := CheckPause(s.core, now, diskOk, removeOk);
    s.(core := core, tasks := s.tasks - {id},
       session := if core.pause.Some? then ApplyPause(s.session, ok)
                  else Balance(QueueOrder(s.tables.torrents), s.session, cfg.maxActive, cfg.keepSeeding, ok).session)
  }

  /** A check alone does what the engine's check does. */
  lemma CheckAlone(cfg: Config, s: State, id: nat, now: int, diskOk: bool, removeOk: bool, ok: string -> bool)
    returns (moves: seq<Move>)
    requires id in s.tasks && s.tasks[id] == CheckStart && s.lock.None?
    ensures OnlyTask(moves, id)
    ensures RunMoves(cfg, s, moves) == Checked(cfg, s, id, now, diskOk, removeOk, ok)
  {
    var m := Advance(id, Answer(true).(now := now, diskOk := diskOk));
    var seen := s.(core := s.core.(diskMissing := !diskOk));
    assert PauseTask(s.tasks[id]);
    match DiskActionFor(diskOk, ReasonOf(s.core.pause)) {
      case PauseForDisk =>
        var s1 := Goto(seen, id, DiskWaiting);
        assert Next(cfg, s, m) == s1;
        var rest := DiskPauseAlone(cfg, s1, id, now, ok);
        TaskAgain(s.tasks, id, DiskWaiting, SweepStart);
        GoOn(cfg, s, id, m, s1, rest);
        moves := [m] + rest;
      case ResumeFromDisk =>
        var s1 := Goto(seen, id, ResumeStart);
        assert Next(cfg, s, m) == s1;
        var rest := ResumeAlone(cfg, s1, id, removeOk, ok);
        TaskAgain(s.tasks, id, ResumeStart, SweepStart);
        GoOn(cfg, s, id, m, s1, rest);
        moves := [m] + rest;
      case Nothing =>
        var s1 := Goto(seen, id, CheckExpiry(diskOk));
        assert Next(cfg, s, m) == s1;
        var rest := ExpiryAlone(cfg, s1, id, now, diskOk, removeOk, ok);
        TaskAgain(s.tasks, id, CheckExpiry(diskOk), SweepStart);
        GoOn(cfg, s, id, m, s1, rest);
        moves := [m] + rest;
    }
  }

  /** The rest of a check once the disk watch has nothing to do. */
  lemma ExpiryAlone(cfg: Config, s: State, id: nat, now: int, diskOk: bool, removeOk: bool, ok: string -> bool)
    returns (moves: seq<Move>)
    requires id in s.tasks && s.tasks[id] == CheckExpiry(diskOk) && s.lock.None? && s.core.diskMissing == !diskOk
    requires DiskActionFor(diskOk, ReasonOf(s.core.pause)) == Nothing
    ensures OnlyTask(moves, id)
    ensures RunMoves(cfg, s, moves) == Checked(cfg, s, id, now, diskOk, removeOk, ok)
  {
    var m := Advance(id, Answer(true).(now := now));
    assert PauseTask(s.tasks[id]);
    assert s.core.(diskMissing := !diskOk) == s.core;
    if s.core.pause.None? {
      var s1 := Goto(s, id, BalanceStart);
      assert Next(cfg, s, m) == s1;
      var rest := BalanceBegun(cfg, s1, id, ok);
      TaskAgain(s.tasks, id, BalanceStart, SweepStart);
      GoOn(cfg, s, id, m, s1, rest);
      moves := [m] + rest;
    } else if diskOk && Expired(s.core.pause.value, now) {
      var s1 := Goto(s, id, ResumeStart);
      assert Next(cfg, s, m) == s1;
      var rest := ResumeAlone(cfg, s1, id, removeOk, ok);
      TaskAgain(s.tasks, id, ResumeStart, SweepStart);
      GoOn(cfg, s, id, m, s1, rest);
      moves := [m] + rest;
    } else {
      var s1 := Goto(s, id, Applying(s.session.Keys));
      assert Next(cfg, s, m) == s1;
      var rest := PassAlone(cfg, s1, id, s.session.Keys, ok);
      WholePass(s.session, ok);
      TaskAgain(s.tasks, id, Applying(s.session.Keys), SweepStart);
      GoOn(cfg, s, id, m, s1, rest);
      moves := [m] + rest;
    }
  }

  // ---- sweeping, removing, finishing and reloading ---------------------------------------------

  /** A sweep alone: nothing without the disk or a plan, and otherwise the plan carried out. */
  lemma SweepAlone(cfg: Config, s: State, id: nat, now: int, diskFree: nat, deleteOk: string -> bool)
    returns (moves: seq<Move>)
    requires id in s.tasks && s.tasks[id] == SweepStart && s.lock != Some(id)
    ensures OnlyTask(moves, id)
    ensures var plan := SpacePlan(cfg.space, s.tables, now, diskFree, 0);
            var w := World(s.tables, s.session);
            var w' := if s.core.diskMissing || plan.Err? then w
                      else EvictAll(w, Keys(plan.value.evict), deleteOk).world;
            RunMoves(cfg, s, moves) == s.(tables := w'.tables, session := w'.session, tasks := s.tasks - {id})
  {
    var env := Answer(true).(now := now, diskFree := diskFree, movies := s.tables.movies);
    var m := Advance(id, env);
    var plan := SpacePlan(cfg.space, s.tables, now, diskFree, 0);
    assert Tables(s.tables.movies, s.tables.torrents) == s.tables;
    if s.core.diskMissing || plan.Err? {
      OneMove(cfg, s, m);
      moves := [m];
    } else {
      var v := Keys(plan.value.evict);
      var s1 := Goto(s, id, Sweep(Pick(v)));
      assert Next(cfg, s, m) == s1;
      var rest := EvictionAlone(cfg, s1, id, v, deleteOk);
      GoOn(cfg, s, id, m, s1, rest);
      moves := [m] + rest;
      var done := EvictAll(World(s.tables, s.session), v, deleteOk);
      TaskAgain(s.tasks, id, Sweep(Pick(v)), Sweep(Pick([])));
      if done.ok {
        var last := Advance(id, Answer(true));
        RunSnoc(cfg, s, moves, last);
        moves := moves + [last];
        TaskAgain(s.tasks, id, Sweep(Pick([])), SweepStart);
      }
    }
  }

  /** Removing a movie alone is the engine's removal. */
  lemma RemoveAlone(cfg: Config, s: State, id: nat, movie: string, deleteOk: bool) returns (moves: seq<Move>)
    requires id in s.tasks && s.tasks[id] == RemoveStart(movie) && s.lock != Some(id)
    ensures OnlyTask(moves, id)
    ensures var w := RemoveMovie(World(s.tables, s.session), movie, deleteOk);
            RunMoves(cfg, s, moves)
            == if w.None? then s.(tasks := s.tasks - {id})
               else s.(tables := w.value.tables, session := w.value.session, tasks := s.tasks - {id})
  {
    var m := Advance(id, Answer(deleteOk));
    var t := TorrentForMovie(s.tables.torrents, movie);
    if t.None? {
      var s1 := Goto(s, id, RemoveRows(movie));
      assert Next(cfg, s, m) == s1;
      TaskAgain(s.tasks, id, RemoveRows(movie), SweepStart);
      TwoMoves(cfg, s, m, m);
      moves := [m, m];
    } else {
      var h := t.value.infoHash;
      var s1 := Goto(s, id, RemoveTorrent(movie, h));
      assert Next(cfg, s, m) == s1;
      TaskAgain(s.tasks, id, RemoveTorrent(movie, h), RemoveRows(movie));
      TwoMoves(cfg, s, m, m);
      if h in s.session && !deleteOk {
        assert Next(cfg, s1, m) == Finish(s1, id);
        moves := [m, m];
      } else {
        var s2 := Goto(s.(session := s.session - {h}), id, RemoveRows(movie));
        assert Next(cfg, s1, m) == s2;
        TaskAgain(s.tasks, id, RemoveRows(movie), SweepStart);
        RunSnoc(cfg, s, [m, m], m);
        moves := [m, m] + [m];
      }
    }
  }

  /** A completion alone marks the row, stops the torrent unless it seeds, and balances. */
  lemma CompletionAlone(cfg: Config, s: State, id: nat, h: string, now: int, pauseOk: bool, ok: string -> bool)
    returns (moves: seq<Move>)
    requires id in s.tasks && s.tasks[id] == CompletionStart(h) && s.lock != Some(id)
    requires h in s.session && s.session[h].finished && s.core.pause.None?
    ensures OnlyTask(moves, id)
    ensures var stopped := if pauseOk then Complete(s.session, h, cfg.keepSeeding) else s.session;
            var tables := MarkComplete(s.tables, h, now);
            RunMoves(cfg, s, moves)
            == s.(tables := tables, tasks := s.tasks - {id},
                  session := Balance(QueueOrder(tables.torrents), stopped, cfg.maxActive, cfg.keepSeeding, ok).session)
  {
    var m := Advance(id, Answer(pauseOk).(now := now));
    var stopped := if pauseOk then Complete(s.session, h, cfg.keepSeeding) else s.session;
    assert s.session[h := s.session[h]] == s.session;
    var s1 := Goto(s.(session := stopped, tables := MarkComplete(s.tables, h, now)), id, BalanceStart);
    assert Next(cfg, s, m) == s1;
    var rest := BalanceBegun(cfg, s1, id, ok);
    TaskAgain(s.tasks, id, BalanceStart, SweepStart);
    GoOn(cfg, s, id, m, s1, rest);
    moves := [m] + rest;
  }

  // ---- adding ----------------------------------------------------------------------------------

  /** What an add reads and is answered: the movies as they are, the free space, and the torrent it starts. */
  function AddEnv(s: State, now: int, diskFree: nat, t: Torrent): Env
  {
    QuietEnv(now, true).(diskFree := diskFree, movies := s.tables.movies, torrent := t)
  }

  function AddAt(s: State, id: nat, req: Request, pc: AddPc): State
  {
    s.(lock := Some(id), tasks := s.tasks[id := Add(req, pc)])
  }

  lemma AddBegins(cfg: Config, s: State, id: nat, req: Request, env: Env, v: seq<string>) returns (moves: seq<Move>)
    requires id in s.tasks && s.tasks[id] == Add(req, AddWaiting) && s.lock.None? && s.core.pause.None?
    requires env.ok && env.movies == s.tables.movies
    requires var plan := SpacePlan(cfg.space, s.tables, env.now, env.diskFree, req.row.sizeBytes);
             plan.Ok? && v == Keys(plan.value.evict)
    ensures OnlyTask(moves, id) && RunMoves(cfg, s, moves) == AddAt(s, id, req, AddMakingRoom(Pick(v)))
  {
    var m := Advance(id, env);
    assert Next(cfg, s, m) == AddAt(s, id, req, AddChecking);
    AddAtNext(s, id, req, AddChecking, AddResolving);
    AddAtNext(s, id, req, AddResolving, AddMakingRoom(Pick(v)));
    assert Tables(s.tables.movies, s.tables.torrents) == s.tables;
    TwoMoves(cfg, s, m, m);
    RunSnoc(cfg, s, [m, m], m);
    moves := [m, m] + [m];
  }

  lemma AddAtNext(s: State, id: nat, req: Request, pc: AddPc, pc': AddPc)
    ensures Goto(AddAt(s, id, req, pc), id, Add(req, pc')) == AddAt(s, id, req, pc')
  {
    assert s.tasks[id := Add(req, pc)][id := Add(req, pc')] == s.tasks[id := Add(req, pc')];
  }

  /** The add once it has made room: it starts the torrent, records the movie and the row, and is done. */
  lemma AddEnds(cfg: Config, s: State, id: nat, req: Request, env: Env) returns (moves: seq<Move>)
    requires id in s.tasks && s.tasks[id] == Add(req, AddMakingRoom(Pick([]))) && s.lock == Some(id)
    requires s.core.pause.None? && env.ok && req.row.infoHash !in s.session
    ensures OnlyTask(moves, id)
    ensures var t := env.torrent.(paused := QueueIsFull(s.session, cfg.maxActive));
            RunMoves(cfg, s, moves)
            == s.(tables := InsertTorrent(UpsertMovie(s.tables, req.row.imdbId, req.movie), req.row).value,
                  session := s.session[req.row.infoHash := t], lock := None, tasks := s.tasks - {id})
  {
    var m := Advance(id, env);
    var full := QueueIsFull(s.session, cfg.maxActive);
    var session := s.session[req.row.infoHash := env.torrent.(paused := full)];
    var tables := UpsertMovie(s.tables, req.row.imdbId, req.movie);
    var s1 := Goto(s, id, Add(req, AddStarting(full)));
    var s2 := s.(session := session, tasks := s.tasks[id := Add(req, AddRecordingMovie)]);
    var s3 := s2.(tables := tables, tasks := s.tasks[id := Add(req, AddRecordingTorrent)]);
    assert Next(cfg, s, m) == s1;
    TaskAgain(s.tasks, id, Add(req, AddStarting(full)), Add(req, AddRecordingMovie));
    assert Next(cfg, s1, m) == s2;
    TaskAgain(s.tasks, id, Add(req, AddRecordingMovie), Add(req, AddRecordingTorrent));
    assert Next(cfg, s2, m) == s3;
    TaskAgain(s.tasks, id, Add(req, AddRecordingTorrent), SweepStart);
    TwoMoves(cfg, s, m, m);
    TwoMoves(cfg, s2, m, m);
    RunAppend(cfg, s, [m, m], [m, m]);
    moves := [m, m] + [m, m];
  }

  lemma TaskAgain(tasks: map<nat, Task>, id: nat, a: Task, b: Task)
    ensures tasks[id := a][id := b] == tasks[id := b] && tasks[id := a] - {id} == tasks - {id}
  {
  }

  /** An add alone, from the moment it waits for the lock, leaves the world that the engine's add leaves. */
  lemma AddAlone(cfg: Config, s: State, id: nat, req: AddRequest, now: int, diskFree: nat, deleteOk: string -> bool,
                 t: Torrent) returns (moves: seq<Move>)
    requires id in s.tasks && s.tasks[id] == Add(Request(req.movie, req.row), AddWaiting)
    requires s.lock.None? && s.core.pause.None? && req.row.infoHash !in s.session
    requires SpacePlan(cfg.space, s.tables, now, diskFree, req.row.sizeBytes).Ok?
    requires var v := Keys(SpacePlan(cfg.space, s.tables, now, diskFree, req.row.sizeBytes).value.evict);
             EvictAll(World(s.tables, s.session), v, deleteOk).ok
    ensures OnlyTask(moves, id)
    ensures var v := Keys(SpacePlan(cfg.space, s.tables, now, diskFree, req.row.sizeBytes).value.evict);
            var w := Added(EvictAll(World(s.tables, s.session), v, deleteOk).world, req, t, cfg.maxActive);
            RunMoves(cfg, s, moves) == s.(tables := w.tables, session := w.session, tasks := s.tasks - {id})
  {
    var r := Request(req.movie, req.row);
    var env := AddEnv(s, now, diskFree, t.(trackers := AddedTrackers(req)));
    var v := Keys(SpacePlan(cfg.space, s.tables, now, diskFree, req.row.sizeBytes).value.evict);
    moves := AddBegins(cfg, s, id, r, env, v);
    var s1 := AddAt(s, id, r, AddMakingRoom(Pick(v)));
    var more := EvictionAlone(cfg, s1, id, v, deleteOk);
    RunAppend(cfg, s, moves, more);
    moves := moves + more;
    var done := EvictAll(World(s.tables, s.session), v, deleteOk).world;
    EvictionRemoves(World(s.tables, s.session), v, deleteOk);
    var s2 := Evicted(s1, id, done, Pick([]));
    TaskAgain(s.tasks, id, Add(r, AddMakingRoom(Pick(v))), Add(r, AddMakingRoom(Pick([]))));
    var last := AddEnds(cfg, s2, id, r, env);
    RunAppend(cfg, s, moves, last);
    moves := moves + last;
    TaskAgain(s.tasks, id, Add(r, AddMakingRoom(Pick([]))), SweepStart);
  }

  lemma {:induction false} EvictionRemoves(w: World, v: seq<string>, deleteOk: string -> bool)
    ensures EvictAll(w, v, deleteOk).world.session.Keys <= w.session.Keys
    decreases |v|
  {
    if v != [] {
      var next := EvictOne(w, v[0], deleteOk(v[0]));
      if next.Some? {
        EvictionRemoves(next.value, v[1..], deleteOk);
      }
    }
  }

  // ---- limits and reloads ------------------------------------------------------------------------

  /** No piece arrives while the torrent is reloaded. */
  predicate NoneArrive(r: Reload.ReloadEnv)
  {
    r.arrived == {} && r.late == {}
  }

  /** Whether the torrent is added again, and the torrent that comes back. */
  predicate AddedBack(r: Reload.ReloadEnv)
  {
    r.addOk && (r.mapRead ==> r.writeOk)
  }

  function Back(t: Torrent, private: bool, public: seq<string>, r: Reload.ReloadEnv): Torrent
  {
    var haves := if r.mapRead then t.haves else r.rechecked;
    Torrent(t.paused, t.finished, false, t.progress, haves, Reload.TrackersFor(private, public))
  }

  lemma ReloadSteps(session: Session, h: string, saved: map<string, set<nat>>, private: bool,
                    public: seq<string>, r: Reload.ReloadEnv)
    requires h in session && NoneArrive(r)
    ensures var done := Reload.ReloadOne(Reload.Loaded(session, saved), h, private, public, r).loaded.session;
            done == if !r.sourceOk || !r.deleteOk then SetPaused(session, h, session[h].paused || r.pauseOk)
                    else if AddedBack(r) then (session - {h})[h := Back(session[h], private, public, r)]
                    else session - {h}
  {
    var t := session[h];
    assert t.haves + {} == t.haves;
    assert Reload.BeforeDelete(t, r) == t.(paused := t.paused || r.pauseOk);
    assert Reload.FinalHaves(t, r) == t.haves;
  }

  /** A reload alone is the engine's reload, whichever of its steps fails. */
  lemma ReloadAlone(cfg: Config, s: State, id: nat, h: string, saved: map<string, set<nat>>, private: bool,
                    public: seq<string>, r: Reload.ReloadEnv) returns (moves: seq<Move>)
    requires id in s.tasks && s.tasks[id] == ReloadStart(h) && NoneArrive(r)
    ensures OnlyTask(moves, id)
    ensures var done := Reload.ReloadOne(Reload.Loaded(s.session, saved), h, private, public, r);
            RunMoves(cfg, s, moves) == Finish(s.(session := done.loaded.session), id)
  {
    var pause := Advance(id, Answer(r.pauseOk));
    if h !in s.session {
      OneMove(cfg, s, pause);
      return [pause];
    }
    ReloadSteps(s.session, h, saved, private, public, r);
    var deleted := r.sourceOk && r.deleteOk;
    moves := DeleteSteps(cfg, s, id, h, r.pauseOk, deleted);
    if deleted {
      var wasPaused := s.session[h].paused;
      var s2 := Goto(s.(session := s.session - {h}), id, ReloadAdd(h, wasPaused));
      var back := Answer(AddedBack(r)).(torrent := Back(s.session[h], private, public, r));
      LastStep(cfg, s2, id, h, wasPaused, back);
      RunSnoc(cfg, s, moves, Advance(id, back));
      moves := moves + [Advance(id, back)];
      TaskAgain(s.tasks, id, ReloadAdd(h, wasPaused), SweepStart);
    }
  }

  /** A reload's first steps: the torrent is paused, and then it is deleted or the task gives up. */
  lemma DeleteSteps(cfg: Config, s: State, id: nat, h: string, pauseOk: bool, deleted: bool)
    returns (moves: seq<Move>)
    requires id in s.tasks && s.tasks[id] == ReloadStart(h) && h in s.session
    ensures OnlyTask(moves, id)
    ensures var wasPaused := s.session[h].paused;
            RunMoves(cfg, s, moves)
            == if deleted then Goto(s.(session := s.session - {h}), id, ReloadAdd(h, wasPaused))
               else Finish(s.(session := SetPaused(s.session, h, wasPaused || pauseOk)), id)
  {
    var pause, delete := Advance(id, Answer(pauseOk)), Advance(id, Answer(deleted));
    var wasPaused := s.session[h].paused;
    var s1 := Goto(s.(session := SetPaused(s.session, h, wasPaused || pauseOk)), id, ReloadDelete(h, wasPaused));
    assert Next(cfg, s, pause) == s1;
    TaskAgain(s.tasks, id, ReloadDelete(h, wasPaused), ReloadAdd(h, wasPaused));
    assert s1.session - {h} == s.session - {h};
    TwoMoves(cfg, s, pause, delete);
    moves := [pause, delete];
  }

  lemma LastStep(cfg: Config, s: State, id: nat, h: string, wasPaused: bool, env: Env)
    requires id in s.tasks && s.tasks[id] == ReloadAdd(h, wasPaused) && h !in s.session
    requires env.torrent.paused == wasPaused
    ensures Next(cfg, s, Advance(id, env))
         == Finish(if env.ok then s.(session := s.session[h := env.torrent]) else s, id)
  {
  }

  /** Changing limits alone: the torrent's rows have the new limits, and it is reloaded. */
  lemma LimitsAlone(cfg: Config, s: State, id: nat, h: string, limit: Option<nat>, saved: map<string, set<nat>>,
                    private: bool, public: seq<string>, r: Reload.ReloadEnv) returns (moves: seq<Move>)
    requires id in s.tasks && s.tasks[id] == LimitsWaiting(h) && s.lock.None? && NoneArrive(r)
    ensures OnlyTask(moves, id)
    ensures var done := Reload.ReloadOne(Reload.Loaded(s.session, saved), h, private, public, r);
            var s' := RunMoves(cfg, s, moves);
            && LimitsSet(s.tables.torrents, s'.tables.torrents, h, limit, limit, limit)
            && s' == s.(tables := s.tables.(torrents := s'.tables.torrents), session := done.loaded.session,
                        tasks := s.tasks - {id})
  {
    var start := LimitsWritten(cfg, s, id, h, limit);
    var s2 := RunMoves(cfg, s, start);
    var rest := ReloadAlone(cfg, s2, id, h, saved, private, public, r);
    RunAppend(cfg, s, start, rest);
    moves := start + rest;
    TaskAgain(s.tasks, id, ReloadStart(h), SweepStart);
    SetLimitsRows(s.tables, h, limit, limit, limit);
  }

  lemma LimitsWritten(cfg: Config, s: State, id: nat, h: string, limit: Option<nat>) returns (moves: seq<Move>)
    requires id in s.tasks && s.tasks[id] == LimitsWaiting(h) && s.lock.None?
    ensures OnlyTask(moves, id)
    ensures RunMoves(cfg, s, moves)
         == s.(tables := SetLimits(s.tables, h, limit, limit, limit), lock := Some(id),
               tasks := s.tasks[id := ReloadStart(h)])
  {
    var m := Advance(id, Answer(true).(limit := limit));
    var s1 := s.(lock := Some(id), tasks := s.tasks[id := LimitsSetting(h)]);
    assert Next(cfg, s, m) == s1;
    TaskAgain(s.tasks, id, LimitsSetting(h), ReloadStart(h));
    TwoMoves(cfg, s, m, m);
    moves := [m, m];
  }

  // ---- a movie in use ----------------------------------------------------------------------------

  /** Once a movie is used, no plan made within the grace window names one of its torrents. */
  lemma UsedMovieStays(cfg: Config, s: State, movie: string, ts: int, now: int, diskFree: nat, incoming: nat,
                       row: TorrentRow)
    requires Consistent(s.tables) && row in s.tables.torrents && row.imdbId == movie
    requires now < ts + cfg.space.grace
    requires SpacePlan(cfg.space, Next(cfg, s, TouchMovie(movie, ts)).tables, now, diskFree, incoming).Ok?
    ensures var plan := SpacePlan(cfg.space, Next(cfg, s, TouchMovie(movie, ts)).tables, now, diskFree, incoming);
            row.infoHash !in Keys(plan.value.evict)
  {
    var t := Next(cfg, s, TouchMovie(movie, ts)).tables;
    if IsVictim(SpacePlan(cfg.space, t, now, diskFree, incoming).value.evict, row) {
      LeastRecentlyUsedGo(cfg.space, t, now, diskFree, incoming, row);
      assert false;
    }
  }
}
