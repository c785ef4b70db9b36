/**
  The bound on running downloads while everything interleaves. An add looks at the queue before
  it waits for the session, and a reload gives its slot up while the torrent is out of the
  session, so the bound can be passed; here it is said exactly by which steps.
*/
module Slots {
  import opened CatalogStore
  import opened Eviction
  import opened Interleave
  import opened Ordering
  import opened Pause
  import opened Planner
  import opened Queue
  import opened TorrentSession
  import opened Wrappers

  /** The step makes the torrent, inactive so far, a running unfinished one. */
  predicate Starts(cfg: Config, s: State, m: Move, h: string)
  {
    match m
    case Reboot(_, _, session) => IsActive(session, h)
    case Progress(hash, torrent) => hash == h && h in s.session && !s.session[h].paused && !torrent.finished
    case Advance(id, env) =>
      id in s.tasks && env.ok &&
      (match s.tasks[id]
       case Add(req, AddStarting(paused)) =>
         req.row.infoHash == h && h !in s.session && !paused && !env.torrent.finished
       case ReloadAdd(hash, wasPaused) =>
         hash == h && h !in s.session && !wasPaused && !env.torrent.finished
       case Balancing(order, slot) =>
         && order != [] && order[0] == h && IsWaiting(s.session, h)
         && WantRunning(s.session[h], SlotAfter(s.session, h, slot), cfg.maxActive, cfg.keepSeeding)
       case _ => false)
    case _ => false
  }

  lemma AddStarts(cfg: Config, s: State, id: nat, env: Env, h: string)
    requires id in s.tasks && s.tasks[id].Add? && !IsActive(s.session, h)
    ensures IsActive(AdvanceStep(cfg, s, id, env).session, h) <==> Starts(cfg, s, Advance(id, env), h)
  {
  }

  lemma BalancingStarts(cfg: Config, s: State, id: nat, env: Env, h: string)
    requires id in s.tasks && s.tasks[id].Balancing? && !IsActive(s.session, h)
    ensures IsActive(AdvanceStep(cfg, s, id, env).session, h) <==> Starts(cfg, s, Advance(id, env), h)
  {
  }

  lemma ReloadStarts(cfg: Config, s: State, id: nat, env: Env, h: string)
    requires id in s.tasks && s.tasks[id].ReloadAdd? && !IsActive(s.session, h)
    ensures IsActive(AdvanceStep(cfg, s, id, env).session, h) <==> Starts(cfg, s, Advance(id, env), h)
  {
  }

  lemma OthersStartNothing(cfg: Config, s: State, id: nat, env: Env, h: string)
    requires id in s.tasks && !s.tasks[id].Add? && !s.tasks[id].Balancing? && !s.tasks[id].ReloadAdd?
    requires !IsActive(s.session, h)
    ensures !IsActive(AdvanceStep(cfg, s, id, env).session, h)
  {
  }

  /** A torrent becomes active exactly in such a step. */
  lemma BecomesActiveIff(cfg: Config, s: State, m: Move, h: string)
    requires !IsActive(s.session, h)
    ensures IsActive(Next(cfg, s, m).session, h) <==> Starts(cfg, s, m, h)
  {
    if m.Advance? && m.id in s.tasks {
      var task := s.tasks[m.id];
      if task.Add? {
        AddStarts(cfg, s, m.id, m.env, h);
      } else if task.Balancing? {
        BalancingStarts(cfg, s, m.id, m.env, h);
      } else if task.ReloadAdd? {
        ReloadStarts(cfg, s, m.id, m.env, h);
      } else {
        OthersStartNothing(cfg, s, m.id, m.env, h);
      }
    }
  }

  /** It touches no other torrent. */
  lemma StartTouchesOne(cfg: Config, s: State, m: Move, h: string, x: string)
    requires !m.Reboot? && Starts(cfg, s, m, h) && x != h
    ensures var s' := Next(cfg, s, m).session; (x in s' <==> x in s.session) && (x in s' ==> s'[x] == s.session[x])
  {
  }

  // ---- the bound -------------------------------------------------------------------------------

  predicate WithinMax(s: State, max: nat)
  {
    |ActiveSet(s.session)| <= max
  }

  /** The step takes the engine from within the bound to beyond it. */
  ghost predicate Overfills(cfg: Config, s: State, m: Move, max: nat)
  {
    if m.Reboot? then |ActiveSet(m.session)| > max
    else |ActiveSet(s.session)| == max && exists h :: !IsActive(s.session, h) && Starts(cfg, s, m, h)
  }

  lemma OneMoreActive(cfg: Config, s: State, m: Move, h: string)
    requires !m.Reboot? && !IsActive(s.session, h) && Starts(cfg, s, m, h)
    ensures ActiveSet(Next(cfg, s, m).session) == ActiveSet(s.session) + {h}
  {
    BecomesActiveIff(cfg, s, m, h);
    forall x | x != h ensures x in ActiveSet(Next(cfg, s, m).session) <==> x in ActiveSet(s.session) {
      StartTouchesOne(cfg, s, m, h, x);
    }
  }

  ghost predicate StartsNothing(cfg: Config, s: State, m: Move)
  {
    forall h :: !IsActive(s.session, h) ==> !Starts(cfg, s, m, h)
  }

  lemma NotStarted(cfg: Config, s: State, m: Move, h: string)
    requires StartsNothing(cfg, s, m) && IsActive(Next(cfg, s, m).session, h)
    ensures IsActive(s.session, h)
  {
    if !IsActive(s.session, h) {
      BecomesActiveIff(cfg, s, m, h);
    }
  }

  lemma FewerActive(before: Session, after: Session)
    requires forall h :: IsActive(after, h) ==> IsActive(before, h)
    ensures |ActiveSet(after)| <= |ActiveSet(before)|
  {
    assert ActiveSet(before) == ActiveSet(after) + (ActiveSet(before) - ActiveSet(after));
  }

  lemma NoneMoreActive(cfg: Config, s: State, m: Move)
    requires StartsNothing(cfg, s, m)
    ensures |ActiveSet(Next(cfg, s, m).session)| <= |ActiveSet(s.session)|
  {
    forall h | IsActive(Next(cfg, s, m).session, h) ensures IsActive(s.session, h) {
      NotStarted(cfg, s, m, h);
    }
    FewerActive(s.session, Next(cfg, s, m).session);
  }

  /** From within the bound a step leaves it exactly where it starts a torrent with every slot taken. */
  lemma LeavesBoundIff(cfg: Config, s: State, m: Move, max: nat)
    requires WithinMax(s, max)
    ensures !WithinMax(Next(cfg, s, m), max) <==> Overfills(cfg, s, m, max)
  {
    if !m.Reboot? {
      if h :| !IsActive(s.session, h) && Starts(cfg, s, m, h) {
        OneMoreActive(cfg, s, m, h);
      } else {
        NoneMoreActive(cfg, s, m);
      }
    }
  }

  lemma OneMoreHolds(cfg: Config, s: State, moves: seq<Move>, max: nat, n: nat)
    requires n < |moves| && WithinMax(RunMoves(cfg, s, moves[..n]), max)
    ensures WithinMax(RunMoves(cfg, s, moves[..n + 1]), max)
       <==> !Overfills(cfg, RunMoves(cfg, s, moves[..n]), moves[n], max)
  {
    assert moves[..n + 1][..n] == moves[..n];
    LeavesBoundIff(cfg, RunMoves(cfg, s, moves[..n]), moves[n], max);
  }

  /** Over any interleaving the bound holds throughout if and only if it holds at first and no step overfills. */
  lemma BoundHoldsIff(cfg: Config, s: State, moves: seq<Move>, max: nat)
    ensures (forall i: nat :: i <= |moves| ==> WithinMax(RunMoves(cfg, s, moves[..i]), max))
       <==> && WithinMax(s, max)
            && forall i: nat :: i < |moves| ==> !Overfills(cfg, RunMoves(cfg, s, moves[..i]), moves[i], max)
  {
    ghost var holds := (i: nat) => i <= |moves| && WithinMax(RunMoves(cfg, s, moves[..i]), max);
    ghost var fits := (i: nat) => i < |moves| && !Overfills(cfg, RunMoves(cfg, s, moves[..i]), moves[i], max);
    forall i: nat | i < |moves| && holds(i) ensures holds(i + 1) <==> fits(i) {
      OneMoreHolds(cfg, s, moves, max, i);
    }
    HoldsThroughoutIff(holds, fits, |moves|);
    assert RunMoves(cfg, s, moves[..0]) == s;
    assert forall i: nat :: i <= |moves| ==> (holds(i) <==> WithinMax(RunMoves(cfg, s, moves[..i]), max));
    assert forall i: nat :: i < |moves| ==>
             (fits(i) <==> !Overfills(cfg, RunMoves(cfg, s, moves[..i]), moves[i], max));
  }

  // ---- an add with a stale look at the queue ---------------------------------------------------

  const ONE_AT_A_TIME := Config(Settings(10, 0, 0), Some(1), false)
  const ADDED := Request(Movie("b", 0, 0), TorrentRow("b", "tt2", "magnet:?", 1, 0, 0, false, None, None, None, None))

  function RoomyEnv(): Env
  {
    QuietEnv(0, true).(diskFree := 100)
  }

  /** The queued torrent, the add at some point, and, if any, a balancing pass. */
  function Adding(lock: Option<nat>, add: AddPc): State
  {
    OneQueued().(lock := lock, tasks := map[0 := Add(ADDED, add)])
  }

  lemma NothingToEvict()
    ensures var plan := SpacePlan(ONE_AT_A_TIME.space, Tables(map[], [ROW]), 0, 100, 1);
            plan.Ok? && plan.value.evict == []
  {
    assert [ROW][1..] == [] && Size([ROW]) == 1;
  }

  lemma NoneRuns()
    ensures ActiveSet(OneQueued().session) == {} && !QueueIsFull(OneQueued().session, Some(1))
  {
  }

  /** Each step of the add up to where it has looked at the queue. */
  lemma AddGetsReady() returns (moves: seq<Move>)
    ensures RunMoves(ONE_AT_A_TIME, OneQueued(), moves) == Adding(Some(0), AddStarting(false))
  {
    var cfg, s, go := ONE_AT_A_TIME, OneQueued(), Advance(0, RoomyEnv());
    var begin := Spawn(0, Add(ADDED, AddWaiting));
    assert Next(cfg, s, begin) == Adding(None, AddWaiting);
    moves := [begin];
    RunSnoc(cfg, s, [], begin);
    AddSteps();
    RunSnoc(cfg, s, moves, go); moves := moves + [go];
    RunSnoc(cfg, s, moves, go); moves := moves + [go];
    RunSnoc(cfg, s, moves, go); moves := moves + [go];
    RunSnoc(cfg, s, moves, go); moves := moves + [go];
  }

  lemma AddSteps()
    ensures var go := Advance(0, RoomyEnv());
            && Next(ONE_AT_A_TIME, Adding(None, AddWaiting), go) == Adding(Some(0), AddChecking)
            && Next(ONE_AT_A_TIME, Adding(Some(0), AddChecking), go) == Adding(Some(0), AddResolving)
            && Next(ONE_AT_A_TIME, Adding(Some(0), AddResolving), go) == Adding(Some(0), AddMakingRoom(Pick([])))
            && Next(ONE_AT_A_TIME, Adding(Some(0), AddMakingRoom(Pick([]))), go) == Adding(Some(0), AddStarting(false))
  {
    NothingToEvict();
    NoneRuns();
    assert forall a, b :: map[0 := Add(ADDED, a)][0 := Add(ADDED, b)] == map[0 := Add(ADDED, b)];
  }

  const RUNNING := QUEUED.(paused := false)
  const B_RUNNING := Torrent(false, false, false, 0, {}, None)

  /** The add has looked; the balancing pass of task 1 stands at `t`. */
  function Racing(session: Session, t: Task): State
  {
    OneQueued().(lock := Some(0), session := session, tasks := map[0 := Add(ADDED, AddStarting(false)), 1 := t])
  }

  lemma SecondTask(a: Task, b: Task, c: Task)
    ensures map[0 := a][1 := b] == map[0 := a, 1 := b]
    ensures map[0 := a, 1 := b][1 := c] == map[0 := a, 1 := c]
  {
  }

  /** A balancing pass begins and lists the queue. */
  lemma RaceBegins()
    ensures var cfg, queued := ONE_AT_A_TIME, map["a" := QUEUED];
            && Next(cfg, Adding(Some(0), AddStarting(false)), Spawn(1, BalanceStart)) == Racing(queued, BalanceStart)
            && Next(cfg, Racing(queued, BalanceStart), Advance(1, RoomyEnv())) == Racing(queued, Balancing(["a"], 0))
  {
    OneQueuedOrder();
    SecondTask(Add(ADDED, AddStarting(false)), BalanceStart, Balancing(["a"], 0));
  }

  /** It starts the queued torrent. */
  lemma RaceGoesOn()
    ensures Next(ONE_AT_A_TIME, Racing(map["a" := QUEUED], Balancing(["a"], 0)), Advance(1, RoomyEnv()))
         == Racing(map["a" := RUNNING], Balancing([], 1))
  {
    assert ["a"][1..] == [];
    SecondTask(Add(ADDED, AddStarting(false)), Balancing(["a"], 0), Balancing([], 1));
    assert map["a" := QUEUED]["a" := RUNNING] == map["a" := RUNNING];
  }

  /** The add goes on as it had decided. */
  lemma RaceEnds()
    ensures Next(ONE_AT_A_TIME, Racing(map["a" := RUNNING], Balancing([], 1)), Advance(0, RoomyEnv())).session
         == map["a" := RUNNING, "b" := B_RUNNING]
  {
    assert map["a" := RUNNING]["b" := B_RUNNING] == map["a" := RUNNING, "b" := B_RUNNING];
  }

  lemma TwoRun(session: Session, a: Torrent, b: Torrent)
    requires session == map["a" := a, "b" := b] && !a.paused && !a.finished && !b.paused && !b.finished
    ensures |ActiveSet(session)| == 2
  {
    assert ActiveSet(session) == {"a", "b"};
  }

  /**
    With one slot and one queued torrent: an add looks at the queue, a balancing pass takes
    the free slot, and the add goes on. Two torrents run.
  */
  lemma StaleAddOverfills() returns (moves: seq<Move>)
    ensures Interleave.Start(ONE_AT_A_TIME, OneQueued()) && WithinMax(OneQueued(), 1)
    ensures |ActiveSet(RunMoves(ONE_AT_A_TIME, OneQueued(), moves).session)| == 2
  {
    var cfg, s, step := ONE_AT_A_TIME, OneQueued(), Advance(1, RoomyEnv());
    NoneRuns();
    moves := AddGetsReady();
    RaceBegins();
    RaceGoesOn();
    RaceEnds();
    RunSnoc(cfg, s, moves, Spawn(1, BalanceStart)); moves := moves + [Spawn(1, BalanceStart)];
    RunSnoc(cfg, s, moves, step); moves := moves + [step];
    RunSnoc(cfg, s, moves, step); moves := moves + [step];
    RunSnoc(cfg, s, moves, Advance(0, RoomyEnv())); moves := moves + [Advance(0, RoomyEnv())];
    TwoRun(RunMoves(cfg, s, moves).session, RUNNING, B_RUNNING);
  }

  // ---- a reload that has given its slot up -----------------------------------------------------

  /** One torrent runs, another waits for its slot. */
  function OneRuns(session: Session, tasks: map<nat, Task>): State
  {
    State(Tables(map["tt1" := Movie("a", 0, 0), "tt2" := ADDED.movie], [ROW, ADDED.row]), session,
          Core(None, false, None), None, tasks)
  }

  lemma TwoOrdered()
    ensures QueueOrder([ROW, ADDED.row]) == ["a", "b"]
  {
    var rows := [ROW, ADDED.row];
    assert rows[1..] == [ADDED.row] && [ADDED.row][1..] == [];
    assert SortByRank([ADDED.row], RowRank) == [ADDED.row];
    assert StringLess("a", "b") && !StringLess("b", "a");
    assert SortByRank(rows, RowRank) == rows;
  }

  const WAITING := QUEUED

  lemma FirstTask(a: Task, b: Task)
    ensures map[0 := a][0 := b] == map[0 := b]
  {
  }

  const BACK := ReloadAdd("a", false)

  /** The reload begins and pauses its torrent. */
  lemma ReloadBegins()
    ensures var both, held := map["a" := RUNNING, "b" := WAITING], map["a" := QUEUED, "b" := WAITING];
            && Next(ONE_AT_A_TIME, OneRuns(both, map[]), Spawn(0, ReloadStart("a")))
               == OneRuns(both, map[0 := ReloadStart("a")])
            && Next(ONE_AT_A_TIME, OneRuns(both, map[0 := ReloadStart("a")]), Advance(0, RoomyEnv()))
               == OneRuns(held, map[0 := ReloadDelete("a", false)])
  {
    FirstTask(ReloadStart("a"), ReloadDelete("a", false));
    assert map["a" := RUNNING, "b" := WAITING]["a" := QUEUED] == map["a" := QUEUED, "b" := WAITING];
  }

  /** It deletes it; a balancing pass begins. */
  lemma ReloadDeletes()
    ensures var held, gone := map["a" := QUEUED, "b" := WAITING], map["b" := WAITING];
            && Next(ONE_AT_A_TIME, OneRuns(held, map[0 := ReloadDelete("a", false)]), Advance(0, RoomyEnv()))
               == OneRuns(gone, map[0 := BACK])
            && Next(ONE_AT_A_TIME, OneRuns(gone, map[0 := BACK]), Spawn(1, BalanceStart))
               == OneRuns(gone, map[0 := BACK, 1 := BalanceStart])
  {
    FirstTask(ReloadDelete("a", false), BACK);
    SecondTask(BACK, BalanceStart, BalanceStart);
    assert map["a" := QUEUED, "b" := WAITING] - {"a"} == map["b" := WAITING];
  }

  /** The pass lists the queue and finds the first torrent gone. */
  lemma PassSkips()
    ensures var gone, pass := map["b" := WAITING], Balancing(["a", "b"], 0);
            && Next(ONE_AT_A_TIME, OneRuns(gone, map[0 := BACK, 1 := BalanceStart]), Advance(1, RoomyEnv()))
               == OneRuns(gone, map[0 := BACK, 1 := pass])
            && Next(ONE_AT_A_TIME, OneRuns(gone, map[0 := BACK, 1 := pass]), Advance(1, RoomyEnv()))
               == OneRuns(gone, map[0 := BACK, 1 := Balancing(["b"], 0)])
  {
    TwoOrdered();
    assert ["a", "b"][1..] == ["b"];
    SecondTask(BACK, BalanceStart, Balancing(["a", "b"], 0));
    SecondTask(BACK, Balancing(["a", "b"], 0), Balancing(["b"], 0));
  }

  /** It starts the second one. */
  lemma PassStarts()
    ensures Next(ONE_AT_A_TIME, OneRuns(map["b" := WAITING], map[0 := BACK, 1 := Balancing(["b"], 0)]),
                 Advance(1, RoomyEnv()))
         == OneRuns(map["b" := RUNNING], map[0 := BACK, 1 := Balancing([], 1)])
  {
    assert ["b"][1..] == [];
    SecondTask(BACK, Balancing(["b"], 0), Balancing([], 1));
    assert map["b" := WAITING]["b" := RUNNING] == map["b" := RUNNING];
  }

  /** The reload adds the first one back. */
  lemma ReloadEnds()
    ensures Next(ONE_AT_A_TIME, OneRuns(map["b" := RUNNING], map[0 := BACK, 1 := Balancing([], 1)]),
                 Advance(0, RoomyEnv())).session
         == map["a" := RUNNING, "b" := RUNNING]
  {
    assert map["b" := RUNNING]["a" := RUNNING] == map["a" := RUNNING, "b" := RUNNING];
  }

  lemma OneRunsAtStart(s: State)
    requires s == OneRuns(map["a" := RUNNING, "b" := WAITING], map[])
    ensures Interleave.Start(ONE_AT_A_TIME, s) && WithinMax(s, 1)
  {
    assert ActiveSet(s.session) == {"a"};
    var rows := s.tables.torrents;
    assert rows == [ROW, ADDED.row] && rows[1..] == [ADDED.row] && [ADDED.row][1..] == [];
    assert Size([ADDED.row]) == 1;
    assert Size(rows) == 2;
  }

  /**
    With one slot: a reload takes its torrent out, a balancing pass starts the next one, and
    the reload adds it back.
  */
  lemma ReloadOverfills() returns (s: State, moves: seq<Move>)
    ensures Interleave.Start(ONE_AT_A_TIME, s) && WithinMax(s, 1)
    ensures |ActiveSet(RunMoves(ONE_AT_A_TIME, s, moves).session)| == 2
  {
    var cfg, go, step := ONE_AT_A_TIME, Advance(0, RoomyEnv()), Advance(1, RoomyEnv());
    s := OneRuns(map["a" := RUNNING, "b" := WAITING], map[]);
    OneRunsAtStart(s);
    ReloadBegins();
    ReloadDeletes();
    PassSkips();
    PassStarts();
    ReloadEnds();
    var first, second := Spawn(0, ReloadStart("a")), Spawn(1, BalanceStart);
    moves := [];
    RunSnoc(cfg, s, moves, first); moves := moves + [first];
    RunSnoc(cfg, s, moves, go); moves := moves + [go];
    RunSnoc(cfg, s, moves, go); moves := moves + [go];
    RunSnoc(cfg, s, moves, second); moves := moves + [second];
    RunSnoc(cfg, s, moves, step); moves := moves + [step];
    RunSnoc(cfg, s, moves, step); moves := moves + [step];
    RunSnoc(cfg, s, moves, step); moves := moves + [step];
    RunSnoc(cfg, s, moves, go); moves := moves + [go];
    TwoRun(RunMoves(cfg, s, moves).session, RUNNING, RUNNING);
  }
}
