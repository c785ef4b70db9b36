/**
  What enforcement achieves while everything else goes on: a pass over the session pauses
  whatever runs, and nothing comes loose afterwards, as long as the pause lasts.
*/
module Enforcement {
  import opened Interleave
  import opened Pause
  import opened Queue
  import opened TorrentSession
  import opened Wrappers

  /** A task begun before the pause that can still set a torrent running. */
  predicate IsStale(t: Task)
  {
    t.Balancing? || (t.ReloadDelete? && !t.wasPaused) || (t.ReloadAdd? && !t.wasPaused)
  }

  ghost predicate NothingStale(s: State)
  {
    forall id :: id in s.tasks ==> !IsStale(s.tasks[id])
  }

  /** The pass of task `id` has still to visit every torrent that runs. */
  ghost predicate PassCovers(s: State, id: nat)
  {
    && s.core.pause.Some? && NothingStale(s)
    && forall h :: IsRunning(s.session, h) ==> id in s.tasks && s.tasks[id].Applying? && h in s.tasks[id].todo
  }

  /** The machine is not restarted and the step does not end the pause. */
  ghost predicate PauseGoesOn(cfg: Config, s: State, m: Move)
  {
    !m.Reboot? && Next(cfg, s, m).core.pause.Some?
  }

  /** The pass is not cut short, its session calls succeed, and no reload begins on a torrent that still runs. */
  ghost predicate PassUndisturbed(s: State, m: Move, id: nat)
  {
    && m != Cancel(id)
    && (m.Advance? && m.id == id ==> m.env.ok)
    && (m.Advance? && m.id in s.tasks && s.tasks[m.id].ReloadStart? ==> !IsRunning(s.session, s.tasks[m.id].hash))
  }

  /** The other tasks are untouched. */
  ghost predicate OthersSame(s: State, s': State, id: nat)
  {
    forall i :: i != id ==> (i in s'.tasks <==> i in s.tasks) && (i in s.tasks ==> s'.tasks[i] == s.tasks[i])
  }

  ghost predicate OwnNotStale(s': State, id: nat)
  {
    id in s'.tasks ==> !IsStale(s'.tasks[id])
  }

  lemma AddStepTasks(cfg: Config, s: State, id: nat, req: Request, pc: AddPc, env: Env)
    requires id in s.tasks && s.tasks[id] == Add(req, pc)
    ensures var s' := AddStep(cfg, s, id, req, pc, env); OthersSame(s, s', id) && OwnNotStale(s', id)
  {
  }

  lemma PauseStepTasks(s: State, id: nat, task: Task, env: Env)
    requires id in s.tasks && s.tasks[id] == task && PauseTask(task)
    ensures var s' := PauseStep(s, id, task, env); OthersSame(s, s', id) && OwnNotStale(s', id)
  {
  }

  lemma SweepStepTasks(cfg: Config, s: State, id: nat, task: Task, env: Env)
    requires id in s.tasks && s.tasks[id] == task && (task.SweepStart? || task.Sweep?)
    ensures var s' := SweepStep(cfg, s, id, task, env); OthersSame(s, s', id) && OwnNotStale(s', id)
  {
  }

  /** Under a pause, a task of this kind turns stale only where a reload begins on a torrent that runs. */
  lemma SessionStepTasks(cfg: Config, s: State, id: nat, task: Task, env: Env)
    requires id in s.tasks && s.tasks[id] == task && SessionTask(task)
    ensures var s' := SessionStep(cfg, s, id, task, env);
            OthersSame(s, s', id)
            && (s.core.pause.Some? && !IsStale(task) && (task.ReloadStart? ==> !IsRunning(s.session, task.hash))
                ==> OwnNotStale(s', id))
  {
  }

  lemma StepTasks(cfg: Config, s: State, id: nat, env: Env)
    requires id in s.tasks
    ensures var s' := AdvanceStep(cfg, s, id, env);
            var task := s.tasks[id];
            OthersSame(s, s', id)
            && (s.core.pause.Some? && !IsStale(task) && (task.ReloadStart? ==> !IsRunning(s.session, task.hash))
                ==> OwnNotStale(s', id))
  {
    var task := s.tasks[id];
    if task.Add? {
      AddStepTasks(cfg, s, id, task.req, task.add, env);
    } else if task.RemoveStart? || task.RemoveTorrent? || task.RemoveRows? {
    } else if task.SweepStart? || task.Sweep? {
      SweepStepTasks(cfg, s, id, task, env);
    } else if PauseTask(task) {
      PauseStepTasks(s, id, task, env);
    } else {
      SessionStepTasks(cfg, s, id, task, env);
    }
  }

  lemma StaleNeverBegins(cfg: Config, s: State, m: Move)
    requires s.core.pause.Some? && NothingStale(s)
    requires m.Advance? && m.id in s.tasks && s.tasks[m.id].ReloadStart? ==> !IsRunning(s.session, s.tasks[m.id].hash)
    ensures NothingStale(Next(cfg, s, m))
  {
    if m.Advance? && m.id in s.tasks {
      StepTasks(cfg, s, m.id, m.env);
    }
  }

  /** Only the pass itself changes what it has still to visit, and it pauses what it visits. */
  lemma PassAdvances(cfg: Config, s: State, env: Env, id: nat)
    requires PassCovers(s, id) && id in s.tasks && s.tasks[id].Applying? && env.ok
    ensures PassCovers(AdvanceStep(cfg, s, id, env), id)
  {
    var s' := AdvanceStep(cfg, s, id, env);
    forall i | i in s'.tasks ensures !IsStale(s'.tasks[i]) {
    }
    forall h | IsRunning(s'.session, h) ensures id in s'.tasks && s'.tasks[id].Applying? && h in s'.tasks[id].todo {
      assert IsRunning(s.session, h);
    }
  }

  lemma OthersKeepTask(cfg: Config, s: State, m: Move, id: nat)
    requires id in s.tasks && m != Cancel(id) && !m.Reboot? && !(m.Advance? && m.id == id)
    ensures var s' := Next(cfg, s, m); id in s'.tasks && s'.tasks[id] == s.tasks[id]
  {
    if m.Advance? && m.id in s.tasks {
      StepTasks(cfg, s, m.id, m.env);
    }
  }

  lemma PassCoversKept(cfg: Config, s: State, m: Move, id: nat, bound: nat)
    requires Inv(cfg, s, bound) && PassCovers(s, id) && PauseGoesOn(cfg, s, m) && PassUndisturbed(s, m, id)
    ensures PassCovers(Next(cfg, s, m), id)
  {
    var s' := Next(cfg, s, m);
    if m.Advance? && m.id == id && id in s.tasks && s.tasks[id].Applying? {
      PassAdvances(cfg, s, m.env, id);
    } else {
      StaleNeverBegins(cfg, s, m);
      forall h | IsRunning(s'.session, h) ensures id in s'.tasks && s'.tasks[id].Applying? && h in s'.tasks[id].todo {
        NothingComesLoose(cfg, s, m, h, bound);
        OthersKeepTask(cfg, s, m, id);
      }
    }
  }

  lemma NothingComesLoose(cfg: Config, s: State, m: Move, h: string, bound: nat)
    requires Inv(cfg, s, bound) && s.core.pause.Some? && NothingStale(s) && !m.Reboot?
    requires IsRunning(Next(cfg, s, m).session, h)
    ensures IsRunning(s.session, h)
  {
    if !IsRunning(s.session, h) {
      LooseOnlyByStaleTask(cfg, s, m, h, bound);
    }
  }

  // ---- whole runs ------------------------------------------------------------------------------

  ghost predicate PauseGoesOnThroughout(cfg: Config, s: State, moves: seq<Move>)
  {
    forall i :: 0 <= i < |moves| ==> PauseGoesOn(cfg, RunMoves(cfg, s, moves[..i]), moves[i])
  }

  ghost predicate PassUndisturbedThroughout(cfg: Config, s: State, moves: seq<Move>, id: nat)
  {
    forall i :: 0 <= i < |moves| ==> PassUndisturbed(RunMoves(cfg, s, moves[..i]), moves[i], id)
  }

  lemma {:induction false} PassCoversRun(cfg: Config, s: State, moves: seq<Move>, id: nat, bound: nat)
    requires Inv(cfg, s, bound) && PassCovers(s, id)
    requires PauseGoesOnThroughout(cfg, s, moves) && PassUndisturbedThroughout(cfg, s, moves, id)
    ensures PassCovers(RunMoves(cfg, s, moves), id)
  {
    if moves != [] {
      var n := |moves| - 1;
      var init := moves[..n];
      assert forall i :: 0 <= i < n ==> init[..i] == moves[..i] && init[i] == moves[i];
      PassCoversRun(cfg, s, init, id, bound);
      RunKeeps(cfg, s, init, bound);
      PassCoversKept(cfg, RunMoves(cfg, s, init), moves[n], id, bound);
    }
  }

  /** A check that finds the pause still in force begins a pass over every loaded torrent. */
  lemma CheckBeginsPass(cfg: Config, s: State, id: nat, env: Env)
    requires id in s.tasks && s.tasks[id].CheckExpiry? && s.core.pause.Some?
    requires !(s.tasks[id].diskOk && Expired(s.core.pause.value, env.now))
    ensures var s' := Next(cfg, s, Advance(id, env));
            s'.core == s.core && s'.session == s.session
            && id in s'.tasks && s'.tasks[id] == Applying(s'.session.Keys)
            && (NothingStale(s) ==> NothingStale(s'))
  {
    StepTasks(cfg, s, id, env);
  }

  lemma PassBegins(s: State, id: nat)
    requires s.core.pause.Some? && NothingStale(s) && id in s.tasks && s.tasks[id] == Applying(s.session.Keys)
    ensures PassCovers(s, id)
  {
  }

  lemma PassEnds(s: State, id: nat)
    requires PassCovers(s, id) && id !in s.tasks
    ensures AllPaused(s.session) && NothingStale(s)
  {
    forall h | h in s.session ensures s.session[h].paused {
      assert !IsRunning(s.session, h);
    }
  }

  /**
    A pass over the whole session that begins during a pause, once nothing stale is left,
    leaves every torrent paused when it ends, whatever else happens in between.
  */
  lemma PassPausesEverything(cfg: Config, s: State, moves: seq<Move>, id: nat, bound: nat)
    requires Inv(cfg, s, bound) && s.core.pause.Some? && NothingStale(s)
    requires id in s.tasks && s.tasks[id] == Applying(s.session.Keys)
    requires PauseGoesOnThroughout(cfg, s, moves) && PassUndisturbedThroughout(cfg, s, moves, id)
    requires id !in RunMoves(cfg, s, moves).tasks
    ensures AllPaused(RunMoves(cfg, s, moves).session) && NothingStale(RunMoves(cfg, s, moves))
  {
    PassBegins(s, id);
    PassCoversRun(cfg, s, moves, id, bound);
    PassEnds(RunMoves(cfg, s, moves), id);
  }

  /**
    So a check that still finds the pause in force, with nothing stale left, ends with every
    torrent paused, whatever runs between its steps.
  */
  lemma CheckPausesEverything(cfg: Config, s: State, id: nat, env: Env, rest: seq<Move>, bound: nat)
    requires Inv(cfg, s, bound) && s.core.pause.Some? && NothingStale(s)
    requires id in s.tasks && s.tasks[id].CheckExpiry?
    requires !(s.tasks[id].diskOk && Expired(s.core.pause.value, env.now))
    requires var s' := Next(cfg, s, Advance(id, env));
             && PauseGoesOnThroughout(cfg, s', rest) && PassUndisturbedThroughout(cfg, s', rest, id)
             && id !in RunMoves(cfg, s', rest).tasks
    ensures AllPaused(RunMoves(cfg, Next(cfg, s, Advance(id, env)), rest).session)
  {
    CheckBeginsPass(cfg, s, id, env);
    NextKeeps(cfg, s, Advance(id, env), bound);
    PassPausesEverything(cfg, Next(cfg, s, Advance(id, env)), rest, id, bound);
  }

  // ---- with anything going on --------------------------------------------------------------------

  /** Some step of the run set the torrent running. */
  ghost predicate CameLoose(cfg: Config, s: State, moves: seq<Move>, h: string)
  {
    exists i :: 0 <= i < |moves| && Loosens(cfg, RunMoves(cfg, s, moves[..i]), moves[i], h)
  }

  /** The pass is not cut short, and its session calls succeed. */
  ghost predicate PassGoesThrough(moves: seq<Move>, id: nat)
  {
    forall i :: 0 <= i < |moves| ==>
      moves[i] != Cancel(id) && (moves[i].Advance? && moves[i].id == id ==> moves[i].env.ok)
  }

  ghost predicate ToVisit(s: State, id: nat, h: string)
  {
    id in s.tasks && s.tasks[id].Applying? && h in s.tasks[id].todo
  }

  /** A torrent still to be visited is visited, and paused, or stays to be visited. */
  lemma VisitedIsPaused(cfg: Config, s: State, m: Move, id: nat, h: string)
    requires ToVisit(s, id, h) && m != Cancel(id) && !m.Reboot? && (m.Advance? && m.id == id ==> m.env.ok)
    ensures IsRunning(Next(cfg, s, m).session, h) ==> ToVisit(Next(cfg, s, m), id, h)
  {
    if !(m.Advance? && m.id == id) {
      OthersKeepTask(cfg, s, m, id);
    }
  }

  lemma CameLooseLater(cfg: Config, s: State, moves: seq<Move>, n: nat, h: string)
    requires n <= |moves| && CameLoose(cfg, s, moves[..n], h)
    ensures CameLoose(cfg, s, moves, h)
  {
    var init := moves[..n];
    var i :| 0 <= i < n && Loosens(cfg, RunMoves(cfg, s, init[..i]), init[i], h);
    assert init[..i] == moves[..i] && init[i] == moves[i];
  }

  /** Whatever runs after a step is still to be visited, came loose in it, or ran before without being so. */
  lemma StepLeavesOnlyLoosened(cfg: Config, s: State, m: Move, id: nat, bound: nat, h: string)
    requires Inv(cfg, s, bound) && s.core.pause.Some? && IsRunning(Next(cfg, s, m).session, h)
    requires m != Cancel(id) && !m.Reboot? && (m.Advance? && m.id == id ==> m.env.ok)
    ensures ToVisit(Next(cfg, s, m), id, h) || Loosens(cfg, s, m, h) || (IsRunning(s.session, h) && !ToVisit(s, id, h))
  {
    if !IsRunning(s.session, h) {
      LooseOnlyByStaleTask(cfg, s, m, h, bound);
    } else if ToVisit(s, id, h) {
      VisitedIsPaused(cfg, s, m, id, h);
    }
  }

  lemma CameLooseLast(cfg: Config, s: State, moves: seq<Move>, h: string)
    requires moves != [] && Loosens(cfg, RunMoves(cfg, s, moves[..|moves| - 1]), moves[|moves| - 1], h)
    ensures CameLoose(cfg, s, moves, h)
  {
  }

  lemma InitGoesOn(cfg: Config, s: State, moves: seq<Move>, id: nat)
    requires moves != [] && PauseGoesOnThroughout(cfg, s, moves) && PassGoesThrough(moves, id)
    ensures PauseGoesOnThroughout(cfg, s, moves[..|moves| - 1]) && PassGoesThrough(moves[..|moves| - 1], id)
  {
    var init := moves[..|moves| - 1];
    assert forall i :: 0 <= i < |init| ==> init[..i] == moves[..i] && init[i] == moves[i];
  }

  /** At any time during a pass, whatever runs has still to be visited or came loose since it began. */
  lemma {:induction false} PassLeavesOnlyLoosened(cfg: Config, s: State, moves: seq<Move>, id: nat, bound: nat,
                                                  h: string)
    requires Inv(cfg, s, bound) && s.core.pause.Some? && id in s.tasks && s.tasks[id] == Applying(s.session.Keys)
    requires PauseGoesOnThroughout(cfg, s, moves) && PassGoesThrough(moves, id)
    requires IsRunning(RunMoves(cfg, s, moves).session, h)
    ensures ToVisit(RunMoves(cfg, s, moves), id, h) || CameLoose(cfg, s, moves, h)
  {
    if moves != [] {
      var n := |moves| - 1;
      var mid := RunMoves(cfg, s, moves[..n]);
      RunKeeps(cfg, s, moves[..n], bound);
      PausedThroughout(cfg, s, moves);
      StepLeavesOnlyLoosened(cfg, mid, moves[n], id, bound, h);
      if Loosens(cfg, mid, moves[n], h) {
        CameLooseLast(cfg, s, moves, h);
      } else if !ToVisit(Next(cfg, mid, moves[n]), id, h) {
        InitGoesOn(cfg, s, moves, id);
        PassLeavesOnlyLoosened(cfg, s, moves[..n], id, bound, h);
        CameLooseLater(cfg, s, moves, n, h);
      }
    }
  }

  lemma PausedThroughout(cfg: Config, s: State, moves: seq<Move>)
    requires s.core.pause.Some? && moves != [] && PauseGoesOnThroughout(cfg, s, moves)
    ensures RunMoves(cfg, s, moves[..|moves| - 1]).core.pause.Some? && !moves[|moves| - 1].Reboot?
  {
    var n := |moves| - 1;
    assert PauseGoesOn(cfg, RunMoves(cfg, s, moves[..n]), moves[n]);
    if n > 0 {
      assert PauseGoesOn(cfg, RunMoves(cfg, s, moves[..n - 1]), moves[n - 1]);
      assert moves[..n][..n - 1] == moves[..n - 1];
    }
  }

  /**
    A complete pass leaves every torrent paused if and only if none that came loose while it
    went on is running at its end.
  */
  lemma PassPausesEverythingIff(cfg: Config, s: State, moves: seq<Move>, id: nat, bound: nat)
    requires Inv(cfg, s, bound) && s.core.pause.Some? && id in s.tasks && s.tasks[id] == Applying(s.session.Keys)
    requires PauseGoesOnThroughout(cfg, s, moves) && PassGoesThrough(moves, id)
    requires id !in RunMoves(cfg, s, moves).tasks
    ensures AllPaused(RunMoves(cfg, s, moves).session)
       <==> forall h :: CameLoose(cfg, s, moves, h) ==> !IsRunning(RunMoves(cfg, s, moves).session, h)
  {
    var s' := RunMoves(cfg, s, moves);
    if forall h :: CameLoose(cfg, s, moves, h) ==> !IsRunning(s'.session, h) {
      forall h | h in s'.session ensures s'.session[h].paused {
        if IsRunning(s'.session, h) {
          PassLeavesOnlyLoosened(cfg, s, moves, id, bound, h);
        }
      }
    }
  }

  // ---- until the pause is lifted -------------------------------------------------------------------

  /** And nothing comes loose again until the pause is lifted, with no condition on the tasks at all. */
  lemma {:induction false} PausedStaysPaused(cfg: Config, s: State, moves: seq<Move>, bound: nat)
    requires Inv(cfg, s, bound) && s.core.pause.Some? && NothingStale(s) && AllPaused(s.session)
    requires PauseGoesOnThroughout(cfg, s, moves)
    ensures var s' := RunMoves(cfg, s, moves);
            s'.core.pause.Some? && NothingStale(s') && AllPaused(s'.session)
  {
    if moves != [] {
      var n := |moves| - 1;
      var init := moves[..n];
      assert forall i :: 0 <= i < n ==> init[..i] == moves[..i] && init[i] == moves[i];
      PausedStaysPaused(cfg, s, init, bound);
      RunKeeps(cfg, s, init, bound);
      var mid := RunMoves(cfg, s, init);
      StaleNeverBegins(cfg, mid, moves[n]);
      forall h | h in Next(cfg, mid, moves[n]).session ensures Next(cfg, mid, moves[n]).session[h].paused {
        if IsRunning(Next(cfg, mid, moves[n]).session, h) {
          NothingComesLoose(cfg, mid, moves[n], h, bound);
        }
      }
    }
  }
}
