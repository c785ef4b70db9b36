/**
  The engine under concurrency. Every request and every background loop is a task that
  runs up to its next await; any task may run next. Adding, pausing and lifting a pause
  hold the add lock; sweeps, removals, stall evictions, balancing and re-announcing do not.
*/
module Interleave {
  import opened CatalogStore
  import opened Eviction
  import opened Pause
  import opened Planner
  import opened Ordering
  import opened Queue
  import opened TorrentSession
  import opened Wrappers

  /** What an add has resolved by the time it makes room. */
  datatype Request = Request(movie: Movie, row: TorrentRow)

  /** Where an eviction loop stands; `row` is what it read for its first victim. */
  datatype EvictPc =
    | Pick(victims: seq<string>)
    | DeleteTorrent(victims: seq<string>, row: Option<TorrentRow>)
    | DeleteRows(victims: seq<string>, row: Option<TorrentRow>)

  datatype AddPc =
    | AddWaiting
    | AddChecking
    | AddResolving
    | AddMakingRoom(evict: EvictPc)
    | AddStarting(paused: bool)
    | AddRecordingMovie
    | AddRecordingTorrent

  datatype Task =
    | Add(req: Request, add: AddPc)
    | RemoveStart(id: string)
    | RemoveTorrent(id: string, hash: string)
    | RemoveRows(id: string)
    | SweepStart
    | Sweep(evict: EvictPc)
    | PauseWaiting(duration: nat, indefinite: bool)
    | PauseSetting(duration: nat, indefinite: bool)
    | Applying(todo: set<string>)
    | ResumeStart
    | ResumeWaiting
    | Lifting
    | DiskWaiting
    | DiskSetting
    | CheckStart
    | CheckExpiry(diskOk: bool)
    | BalanceStart
    | Balancing(order: seq<string>, slot: nat)
    | LimitsWaiting(hash: string)
    | LimitsSetting(hash: string)
    | ReloadStart(hash: string)
    | ReloadDelete(hash: string, wasPaused: bool)
    | ReloadAdd(hash: string, wasPaused: bool)
    | CompletionStart(hash: string)

  /** What the outside world supplies to one step. */
  datatype Env = Env(
    ok: bool, now: int, diskFree: nat, diskOk: bool, movies: map<string, Movie>,
    hash: string, limit: Option<nat>, torrent: Torrent)

  datatype Config = Config(space: Settings, maxActive: Option<nat>, keepSeeding: bool)

  datatype State = State(
    tables: Tables, session: Session, core: Core, lock: Option<nat>, tasks: map<nat, Task>)

  datatype Move =
    | Spawn(id: nat, task: Task)
    | Advance(id: nat, env: Env)
    | Cancel(id: nat)
    | TouchMovie(movie: string, ts: int)
    | Progress(hash: string, torrent: Torrent)
    | Reboot(now: int, readable: bool, session: Session)

  // ---- steps --------------------------------------------------------------------------

  /** The task ends; a lock it holds is released. */
  function Finish(s: State, id: nat): State
  {
    s.(tasks := s.tasks - {id}, lock := if s.lock == Some(id) then None else s.lock)
  }

  function Goto(s: State, id: nat, t: Task): State
  {
    s.(tasks := s.tasks[id := t])
  }

  /** Takes the lock and goes on, or keeps waiting. */
  function Acquire(s: State, id: nat, t: Task): State
  {
    if s.lock.None? then Goto(s.(lock := Some(id)), id, t) else s
  }

  datatype EvictResult = EvictResult(tables: Tables, session: Session, next: Option<EvictPc>)

  /** One step of an eviction loop with victims left. */
  function EvictStep(tables: Tables, session: Session, pc: EvictPc, ok: bool): EvictResult
    requires pc.victims != []
  {
    match pc
    case Pick(v) => EvictResult(tables, session, Some(DeleteTorrent(v, TorrentByHash(tables.torrents, v[0]))))
    case DeleteTorrent(v, row) =>
      if v[0] in session && !ok then EvictResult(tables, session, None)
      else EvictResult(tables, session - {v[0]}, Some(DeleteRows(v, row)))
    case DeleteRows(v, row) =>
      EvictResult(if row.Some? then DeleteMovie(tables, row.value.imdbId) else tables, session, Some(Pick(v[1..])))
  }

  ghost function AddStep(cfg: Config, s: State, id: nat, req: Request, pc: AddPc, env: Env): State
  {
    match pc
    case AddWaiting => Acquire(s, id, Add(req, AddChecking))
    case AddChecking => if s.core.pause.Some? then Finish(s, id) else Goto(s, id, Add(req, AddResolving))
    case AddResolving =>
      // The movies table was read a moment before the torrents table.
      var plan := SpacePlan(cfg.space, Tables(env.movies, s.tables.torrents), env.now, env.diskFree, req.row.sizeBytes);
      if !env.ok || plan.Err? then Finish(s, id)
      else Goto(s, id, Add(req, AddMakingRoom(Pick(Keys(plan.value.evict)))))
    case AddMakingRoom(evict) =>
      if evict.victims == [] then
        Goto(s, id, Add(req, AddStarting(s.core.pause.Some? || QueueIsFull(s.session, cfg.maxActive))))
      else
        var r := EvictStep(s.tables, s.session, evict, env.ok);
        var s' := s.(tables := r.tables, session := r.session);
        if r.next.None? then Finish(s', id) else Goto(s', id, Add(req, AddMakingRoom(r.next.value)))
    case AddStarting(paused) =>
      if !env.ok then Finish(s, id)
      else
        var h := req.row.infoHash;
        var session := if h in s.session then s.session else s.session[h := env.torrent.(paused := paused)];
        Goto(s.(session := session), id, Add(req, AddRecordingMovie))
    case AddRecordingMovie =>
      Goto(s.(tables := UpsertMovie(s.tables, req.row.imdbId, req.movie)), id, Add(req, AddRecordingTorrent))
    case AddRecordingTorrent =>
      var t := InsertTorrent(s.tables, req.row);
      Finish(if t.Some? then s.(tables := t.value) else s, id)
  }

  function RemoveStep(s: State, id: nat, task: Task, env: Env): State
    requires task.RemoveStart? || task.RemoveTorrent? || task.RemoveRows?
  {
    match task
    case RemoveStart(movie) =>
      var t := TorrentForMovie(s.tables.torrents, movie);
      Goto(s, id, if t.Some? then RemoveTorrent(movie, t.value.infoHash) else RemoveRows(movie))
    case RemoveTorrent(movie, hash) =>
      if hash in s.session && !env.ok then Finish(s, id)
      else Goto(s.(session := s.session - {hash}), id, RemoveRows(movie))
    case RemoveRows(movie) => Finish(s.(tables := DeleteMovie(s.tables, movie)), id)
  }

  ghost function SweepStep(cfg: Config, s: State, id: nat, task: Task, env: Env): State
    requires task.SweepStart? || task.Sweep?
  {
    if task.SweepStart? then
      var plan := SpacePlan(cfg.space, Tables(env.movies, s.tables.torrents), env.now, env.diskFree, 0);
      if s.core.diskMissing || plan.Err? then Finish(s, id) else Goto(s, id, Sweep(Pick(Keys(plan.value.evict))))
    else if task.evict.victims == [] then Finish(s, id)
    else
      var r := EvictStep(s.tables, s.session, task.evict, env.ok);
      var s' := s.(tables := r.tables, session := r.session);
      if r.next.None? then Finish(s', id) else Goto(s', id, Sweep(r.next.value))
  }

  predicate PauseTask(task: Task)
  {
    task.PauseWaiting? || task.PauseSetting? || task.Applying? || task.ResumeStart? || task.ResumeWaiting?
    || task.Lifting? || task.DiskWaiting? || task.DiskSetting? || task.CheckStart? || task.CheckExpiry?
  }

  function PauseStep(s: State, id: nat, task: Task, env: Env): State
    requires PauseTask(task)
  {
    match task
    case PauseWaiting(duration, indefinite) => Acquire(s, id, PauseSetting(duration, indefinite))
    case PauseSetting(duration, indefinite) =>
      if !PauseAccepted(s.core, duration, indefinite, env.ok) then Finish(s, id)
      else Goto(s.(core := PauseAll(s.core, env.now, duration, indefinite, env.ok)), id, Applying(s.session.Keys))
    case Applying(todo) =>
      // The handles were listed when the pass began; they are visited in no particular order.
      var h := env.hash;
      if todo == {} then Finish(s, id)
      else if h !in todo then s
      else
        var session := if h in s.session && env.ok then SetPaused(s.session, h, true) else s.session;
        Goto(s.(session := session), id, Applying(todo - {h}))
    case ResumeStart => if s.core.diskMissing then Finish(s, id) else Goto(s, id, ResumeWaiting)
    case ResumeWaiting => Acquire(s, id, Lifting)
    case Lifting =>
      if s.core.pause.None? then Finish(s, id) else Goto(s.(core := Lift(s.core, env.ok)), id, BalanceStart)
    case DiskWaiting => Acquire(s, id, DiskSetting)
    case DiskSetting =>
      if s.core.pause.Some? then Finish(s, id)
      else Goto(s.(core := PauseForMissingDisk(s.core, env.now)), id, Applying(s.session.Keys))
    case CheckStart =>
      var s' := s.(core := s.core.(diskMissing := !env.diskOk));
      match DiskActionFor(env.diskOk, ReasonOf(s.core.pause)) {
        case PauseForDisk => Goto(s', id, DiskWaiting)
        case ResumeFromDisk => Goto(s', id, ResumeStart)
        case Nothing => Goto(s', id, CheckExpiry(env.diskOk))
      }
    case CheckExpiry(diskOk) =>
      if s.core.pause.None? then Goto(s, id, BalanceStart)
      else if diskOk && Expired(s.core.pause.value, env.now) then Goto(s, id, ResumeStart)
      else Goto(s, id, Applying(s.session.Keys))
  }

  predicate SessionTask(t: Task)
  {
    t.BalanceStart? || t.Balancing? || t.LimitsWaiting? || t.LimitsSetting?
    || t.ReloadStart? || t.ReloadDelete? || t.ReloadAdd? || t.CompletionStart?
  }

  /** Balancing, limits, reloads and completions: these change the session and never the pause. */
  function SessionStep(cfg: Config, s: State, id: nat, task: Task, env: Env): State
    requires SessionTask(task)
  {
    match task
    case BalanceStart =>
      if s.core.pause.Some? then Finish(s, id) else Goto(s, id, Balancing(QueueOrder(s.tables.torrents), 0))
    case Balancing(order, slot) =>
      if order == [] then Finish(s, id)
      else
        var h := order[0];
        if h !in s.session || s.session[h].error then Goto(s, id, Balancing(order[1..], slot))
        else
          var slot' := SlotAfter(s.session, h, slot);
          Goto(s.(session := Settle(s.session, h, slot', cfg.maxActive, cfg.keepSeeding, _ => env.ok)), id,
               Balancing(order[1..], slot'))
    case LimitsWaiting(hash) => Acquire(s, id, LimitsSetting(hash))
    case LimitsSetting(hash) =>
      Goto(s.(tables := SetLimits(s.tables, hash, env.limit, env.limit, env.limit)), id, ReloadStart(hash))
    case ReloadStart(hash) =>
      if hash !in s.session then Finish(s, id)
      else Goto(s.(session := SetPaused(s.session, hash, s.session[hash].paused || env.ok)), id,
                ReloadDelete(hash, s.session[hash].paused))
    case ReloadDelete(hash, wasPaused) =>
      if !env.ok then Finish(s, id) else Goto(s.(session := s.session - {hash}), id, ReloadAdd(hash, wasPaused))
    case ReloadAdd(hash, wasPaused) =>
      var back := env.ok && hash !in s.session;
      Finish(if back then s.(session := s.session[hash := env.torrent.(paused := wasPaused)]) else s, id)
    case CompletionStart(hash) =>
      var stops := hash in s.session && env.ok && !cfg.keepSeeding;
      var session := if stops then SetPaused(s.session, hash, true) else s.session;
      Goto(s.(session := session, tables := MarkComplete(s.tables, hash, env.now)), id, BalanceStart)
  }

  ghost function AdvanceStep(cfg: Config, s: State, id: nat, env: Env): State
    requires id in s.tasks
  {
    var task := s.tasks[id];
    if task.Add? then AddStep(cfg, s, id, task.req, task.add, env)
    else if task.RemoveStart? || task.RemoveTorrent? || task.RemoveRows? then RemoveStep(s, id, task, env)
    else if task.SweepStart? || task.Sweep? then SweepStep(cfg, s, id, task, env)
    else if PauseTask(task) then PauseStep(s, id, task, env)
    else SessionStep(cfg, s, id, task, env)
  }

  /** Where a task may begin. A stall eviction is an eviction loop over any list of hashes. */
  predicate Initial(t: Task)
  {
    match t
    case Add(_, AddWaiting) => true
    case Sweep(Pick(_)) => true
    case RemoveStart(_) | SweepStart | PauseWaiting(_, _) | ResumeStart | CheckStart | BalanceStart => true
    case LimitsWaiting(_) | ReloadStart(_) | CompletionStart(_) => true
    case _ => false
  }

  /** One move; a move that is not possible changes nothing. */
  ghost function Next(cfg: Config, s: State, m: Move): State
  {
    match m
    case Spawn(id, task) => if id in s.tasks || !Initial(task) then s else Goto(s, id, task)
    case Advance(id, env) => if id in s.tasks then AdvanceStep(cfg, s, id, env) else s
    case Cancel(id) => if id in s.tasks then Finish(s, id) else s
    case TouchMovie(movie, ts) => s.(tables := Touch(s.tables, movie, ts))
    case Progress(hash, torrent) =>
      if hash in s.session then s.(session := s.session[hash := torrent.(paused := s.session[hash].paused)]) else s
    case Reboot(now, readable, session) =>
      State(s.tables, session, Restart(s.core, now, readable), None, map[])
  }

  ghost function RunMoves(cfg: Config, s: State, moves: seq<Move>): State
  {
    if moves == [] then s else Next(cfg, RunMoves(cfg, s, moves[..|moves| - 1]), moves[|moves| - 1])
  }

  // ---- the invariant ----------------------------------------------------------------------

  /** Tasks at these points hold the add lock. */
  predicate NeedsLock(t: Task)
  {
    (t.Add? && !t.add.AddWaiting?) || t.PauseSetting? || t.Lifting? || t.DiskSetting? || t.LimitsSetting?
  }

  /** An add that has passed its pause check. */
  predicate PastCheck(t: Task)
  {
    t.Add? && !t.add.AddWaiting? && !t.add.AddChecking?
  }

  /** What the loop read about its first victim still tells which movie to delete. */
  ghost predicate RowKnown(rows: seq<TorrentRow>, pc: EvictPc)
  {
    pc.Pick? ||
    (&& pc.victims != []
     && forall r :: r in rows && r.infoHash == pc.victims[0] ==> pc.row.Some? && pc.row.value.imdbId == r.imdbId)
  }

  /** Once its remaining victims are gone, the add fits. */
  ghost predicate HasRoom(budget: nat, rows: seq<TorrentRow>, t: Task)
  {
    !t.Add? ||
    match t.add
    case AddMakingRoom(evict) =>
      RowKnown(rows, evict) && SizeOutside(rows, evict.victims) + t.req.row.sizeBytes <= budget
    case AddStarting(_) | AddRecordingMovie | AddRecordingTorrent => Size(rows) + t.req.row.sizeBytes <= budget
    case _ => true
  }

  ghost predicate TaskOk(cfg: Config, s: State, id: nat)
    requires id in s.tasks
  {
    && (NeedsLock(s.tasks[id]) ==> s.lock == Some(id))
    && (PastCheck(s.tasks[id]) ==> s.core.pause.None?)
    && HasRoom(cfg.space.budget, s.tables.torrents, s.tasks[id])
  }

  /** `bound` is an upper bound on the library that no 64-bit sum of the planner overflows. */
  ghost predicate Inv(cfg: Config, s: State, bound: nat)
  {
    && Consistent(s.tables)
    && Size(s.tables.torrents) <= bound
    && cfg.space.budget <= bound
    && bound + cfg.space.budget < TWO64
    && (s.lock.Some? ==> s.lock.value in s.tasks)
    && forall id :: id in s.tasks ==> TaskOk(cfg, s, id)
  }

  /** `t'` has no row that `t` did not have, as far as sizes and movies are concerned. */
  ghost predicate Shrinks(t: Tables, t': Tables)
  {
    && Consistent(t')
    && Size(t'.torrents) <= Size(t.torrents)
    && (forall p :: SizeOutside(t'.torrents, p) <= SizeOutside(t.torrents, p))
    && forall r' :: r' in t'.torrents ==>
         exists r :: r in t.torrents && r.infoHash == r'.infoHash && r.imdbId == r'.imdbId
  }

  lemma ShrinksSame(t: Tables)
    requires Consistent(t)
    ensures Shrinks(t, t)
  {
  }

  lemma ShrinksDelete(t: Tables, id: string)
    requires Consistent(t)
    ensures Shrinks(t, DeleteMovie(t, id))
  {
    DeleteMovieConsistent(t, id);
    forall p ensures SizeOutside(DeleteMovie(t, id).torrents, p) <= SizeOutside(t.torrents, p) {
      SizeOutsideShrinks(t.torrents, {id}, p);
    }
    SizeOutsideShrinks(t.torrents, {id}, []);
    SizeOutsideNone(t.torrents);
    SizeOutsideNone(DeleteMovie(t, id).torrents);
  }

  /** The same rows but for columns the budget does not look at. */
  ghost predicate SameShape(t: Tables, t': Tables)
  {
    && t'.movies == t.movies
    && |t'.torrents| == |t.torrents|
    && forall i :: 0 <= i < |t.torrents| ==>
         && t'.torrents[i].infoHash == t.torrents[i].infoHash
         && t'.torrents[i].imdbId == t.torrents[i].imdbId
         && t'.torrents[i].sizeBytes == t.torrents[i].sizeBytes
  }

  lemma ShrinksSameShape(t: Tables, t': Tables)
    requires Consistent(t) && SameShape(t, t')
    ensures Shrinks(t, t')
  {
    forall p ensures SizeOutside(t'.torrents, p) <= SizeOutside(t.torrents, p) {
      SizeSameRows(t.torrents, t'.torrents, p);
    }
    SizeSameRows(t.torrents, t'.torrents, []);
    forall r' | r' in t'.torrents
      ensures r'.imdbId in t'.movies
      ensures exists r :: r in t.torrents && r.infoHash == r'.infoHash && r.imdbId == r'.imdbId
    {
      var i :| 0 <= i < |t'.torrents| && t'.torrents[i] == r';
      assert t.torrents[i] in t.torrents;
    }
  }

  /** Fewer rows leave an add as much room as it had. */
  lemma RoomKept(budget: nat, t: Tables, t': Tables, task: Task)
    requires Shrinks(t, t') && HasRoom(budget, t.torrents, task)
    ensures HasRoom(budget, t'.torrents, task)
  {
  }

  // ---- eviction steps -----------------------------------------------------------------------

  lemma EvictStepShrinks(t: Tables, session: Session, pc: EvictPc, ok: bool)
    requires Consistent(t) && pc.victims != []
    ensures Shrinks(t, EvictStep(t, session, pc, ok).tables)
  {
    ShrinksSame(t);
    if pc.DeleteRows? && pc.row.Some? {
      ShrinksDelete(t, pc.row.value.imdbId);
    }
  }

  /** The loop of the lock holder works off its plan: what is left of it still makes room. */
  lemma EvictStepMakesRoom(t: Tables, session: Session, pc: EvictPc, ok: bool, size: nat, budget: nat)
    requires Consistent(t) && pc.victims != [] && RowKnown(t.torrents, pc)
    requires SizeOutside(t.torrents, pc.victims) + size <= budget
    ensures var r := EvictStep(t, session, pc, ok);
            r.next.Some? ==>
              && RowKnown(r.tables.torrents, r.next.value)
              && SizeOutside(r.tables.torrents, r.next.value.victims) + size <= budget
  {
    match pc {
      case Pick(v) =>
        forall r | r in t.torrents && r.infoHash == v[0]
          ensures TorrentByHash(t.torrents, v[0]).Some? && TorrentByHash(t.torrents, v[0]).value.imdbId == r.imdbId
        {
          SameRow(t.torrents, r, TorrentByHash(t.torrents, v[0]).value);
        }
      case DeleteTorrent(v, row) =>
      case DeleteRows(v, row) =>
        var t' := EvictStep(t, session, pc, ok).tables;
        EvictStepShrinks(t, session, pc, ok);
        assert forall r :: r in t'.torrents ==> r.infoHash != v[0];
        SizeOutsideAbsent(t'.torrents, v);
    }
  }

  // ---- every move keeps the invariant ---------------------------------------------------------

  /** What a step of task `id` leaves the other tasks to rely on. */
  ghost predicate Harmless(s: State, s': State, id: nat)
  {
    && Shrinks(s.tables, s'.tables)
    && s'.core.pause == s.core.pause
    && (s'.lock == s.lock || (s.lock.None? && s'.lock == Some(id)) || (s.lock == Some(id) && s'.lock.None?))
    && s'.tasks - {id} == s.tasks - {id}
    && (s'.lock == Some(id) ==> id in s'.tasks)
  }

  lemma HarmlessKeeps(cfg: Config, s: State, s': State, id: nat, bound: nat)
    requires Inv(cfg, s, bound) && Harmless(s, s', id)
    requires id in s'.tasks ==> TaskOk(cfg, s', id)
    ensures Inv(cfg, s', bound)
  {
    forall i | i in s'.tasks ensures TaskOk(cfg, s', i) {
      if i != id {
        assert i in s'.tasks - {id};
        assert i in s.tasks && s.tasks[i] == s'.tasks[i];
        RoomKept(cfg.space.budget, s.tables, s'.tables, s.tasks[i]);
      }
    }
    if s'.lock.Some? && s'.lock.value != id {
      assert s.lock.value in s.tasks - {id};
    }
  }

  /** A step of the lock holder, which alone may change the pause or add rows. */
  lemma HolderKeeps(cfg: Config, s: State, s': State, id: nat, bound: nat)
    requires Inv(cfg, s, bound) && s.lock == Some(id)
    requires Consistent(s'.tables) && Size(s'.tables.torrents) <= bound
    requires s'.tasks - {id} == s.tasks - {id}
    requires s'.lock.None? || (s'.lock == Some(id) && id in s'.tasks)
    requires id in s'.tasks ==> TaskOk(cfg, s', id)
    ensures Inv(cfg, s', bound)
  {
    forall i | i in s'.tasks ensures TaskOk(cfg, s', i) {
      if i != id {
        assert i in s'.tasks - {id};
        assert i in s.tasks && s.tasks[i] == s'.tasks[i];
        assert TaskOk(cfg, s, i);
      }
    }
  }

  /** The task's own step left the lock and the other tasks alone. */
  ghost predicate SameTasks(s: State, s1: State)
  {
    s1.tasks == s.tasks && s1.lock == s.lock
  }

  lemma GotoKeeps(cfg: Config, s: State, s1: State, id: nat, t: Task, bound: nat)
    requires Inv(cfg, s, bound) && SameTasks(s, s1) && id in s.tasks
    requires Shrinks(s.tables, s1.tables) && s1.core.pause == s.core.pause
    requires NeedsLock(t) ==> s.lock == Some(id)
    requires PastCheck(t) ==> s.core.pause.None?
    requires HasRoom(cfg.space.budget, s1.tables.torrents, t)
    ensures Inv(cfg, Goto(s1, id, t), bound) && Harmless(s, Goto(s1, id, t), id)
  {
    HarmlessKeeps(cfg, s, Goto(s1, id, t), id, bound);
  }

  lemma FinishKeeps(cfg: Config, s: State, s1: State, id: nat, bound: nat)
    requires Inv(cfg, s, bound) && SameTasks(s, s1) && id in s.tasks
    requires Shrinks(s.tables, s1.tables) && s1.core.pause == s.core.pause
    ensures Inv(cfg, Finish(s1, id), bound) && Harmless(s, Finish(s1, id), id)
  {
    HarmlessKeeps(cfg, s, Finish(s1, id), id, bound);
  }

  lemma AcquireKeeps(cfg: Config, s: State, id: nat, t: Task, bound: nat)
    requires Inv(cfg, s, bound) && id in s.tasks
    requires !PastCheck(t) && HasRoom(cfg.space.budget, s.tables.torrents, t)
    ensures Inv(cfg, Acquire(s, id, t), bound) && Harmless(s, Acquire(s, id, t), id)
  {
    ShrinksSame(s.tables);
    if s.lock.None? {
      HarmlessKeeps(cfg, s, Acquire(s, id, t), id, bound);
    }
  }

  lemma AddKeeps(cfg: Config, s: State, id: nat, env: Env, bound: nat)
    requires Inv(cfg, s, bound) && id in s.tasks && s.tasks[id].Add?
    ensures Inv(cfg, AddStep(cfg, s, id, s.tasks[id].req, s.tasks[id].add, env), bound)
  {
    var req, pc := s.tasks[id].req, s.tasks[id].add;
    assert TaskOk(cfg, s, id);
    ShrinksSame(s.tables);
    if pc.AddWaiting? {
      AcquireKeeps(cfg, s, id, Add(req, AddChecking), bound);
    } else if pc.AddChecking? {
      FinishKeeps(cfg, s, s, id, bound);
      if s.core.pause.None? {
        GotoKeeps(cfg, s, s, id, Add(req, AddResolving), bound);
      }
    } else if pc.AddResolving? {
      AddResolvingKeeps(cfg, s, id, env, bound);
    } else if pc.AddMakingRoom? {
      AddMakingRoomKeeps(cfg, s, id, env, bound);
    } else if pc.AddStarting? {
      AddStartingKeeps(cfg, s, id, env, bound);
    } else {
      AddRecordingKeeps(cfg, s, id, env, bound);
    }
  }

  lemma AddResolvingKeeps(cfg: Config, s: State, id: nat, env: Env, bound: nat)
    requires Inv(cfg, s, bound) && id in s.tasks && s.tasks[id].Add? && s.tasks[id].add.AddResolving?
    ensures Inv(cfg, AddStep(cfg, s, id, s.tasks[id].req, AddResolving, env), bound)
  {
    var req := s.tasks[id].req;
    assert TaskOk(cfg, s, id);
    ShrinksSame(s.tables);
    var t := Tables(env.movies, s.tables.torrents);
    var plan := SpacePlan(cfg.space, t, env.now, env.diskFree, req.row.sizeBytes);
    FinishKeeps(cfg, s, s, id, bound);
    if plan.Ok? {
      assert req.row.sizeBytes <= cfg.space.budget;
      SpacePlanSuffices(cfg.space, t, env.now, env.diskFree, req.row.sizeBytes);
      GotoKeeps(cfg, s, s, id, Add(req, AddMakingRoom(Pick(Keys(plan.value.evict)))), bound);
    }
  }

  lemma AddMakingRoomKeeps(cfg: Config, s: State, id: nat, env: Env, bound: nat)
    requires Inv(cfg, s, bound) && id in s.tasks && s.tasks[id].Add? && s.tasks[id].add.AddMakingRoom?
    ensures Inv(cfg, AddStep(cfg, s, id, s.tasks[id].req, s.tasks[id].add, env), bound)
  {
    var req, evict := s.tasks[id].req, s.tasks[id].add.evict;
    assert TaskOk(cfg, s, id);
    ShrinksSame(s.tables);
    if evict.victims == [] {
      SizeOutsideNone(s.tables.torrents);
      var paused := s.core.pause.Some? || QueueIsFull(s.session, cfg.maxActive);
      GotoKeeps(cfg, s, s, id, Add(req, AddStarting(paused)), bound);
    } else {
      var r := EvictStep(s.tables, s.session, evict, env.ok);
      var s1 := s.(tables := r.tables, session := r.session);
      EvictStepShrinks(s.tables, s.session, evict, env.ok);
      EvictStepMakesRoom(s.tables, s.session, evict, env.ok, req.row.sizeBytes, cfg.space.budget);
      if r.next.None? {
        FinishKeeps(cfg, s, s1, id, bound);
      } else {
        GotoKeeps(cfg, s, s1, id, Add(req, AddMakingRoom(r.next.value)), bound);
      }
    }
  }

  lemma AddStartingKeeps(cfg: Config, s: State, id: nat, env: Env, bound: nat)
    requires Inv(cfg, s, bound) && id in s.tasks && s.tasks[id].Add? && s.tasks[id].add.AddStarting?
    ensures Inv(cfg, AddStep(cfg, s, id, s.tasks[id].req, s.tasks[id].add, env), bound)
  {
    var req, paused := s.tasks[id].req, s.tasks[id].add.paused;
    assert TaskOk(cfg, s, id);
    ShrinksSame(s.tables);
    if env.ok {
      var h := req.row.infoHash;
      var session := if h in s.session then s.session else s.session[h := env.torrent.(paused := paused)];
      GotoKeeps(cfg, s, s.(session := session), id, Add(req, AddRecordingMovie), bound);
    } else {
      FinishKeeps(cfg, s, s, id, bound);
    }
  }

  lemma AddRecordingKeeps(cfg: Config, s: State, id: nat, env: Env, bound: nat)
    requires Inv(cfg, s, bound) && id in s.tasks && s.tasks[id].Add?
    requires s.tasks[id].add.AddRecordingMovie? || s.tasks[id].add.AddRecordingTorrent?
    ensures Inv(cfg, AddStep(cfg, s, id, s.tasks[id].req, s.tasks[id].add, env), bound)
  {
    var req := s.tasks[id].req;
    var s' := AddStep(cfg, s, id, req, s.tasks[id].add, env);
    assert TaskOk(cfg, s, id);
    if s.tasks[id].add.AddRecordingTorrent? && InsertTorrent(s.tables, req.row).Some? {
      AddInserts(s.tables, req.row);
    }
    HolderKeeps(cfg, s, s', id, bound);
  }

  lemma AddInserts(t: Tables, row: TorrentRow)
    requires Consistent(t) && InsertTorrent(t, row).Some?
    ensures var t' := InsertTorrent(t, row).value;
            Consistent(t') && Size(t'.torrents) <= Size(t.torrents) + row.sizeBytes
  {
    InsertTorrentConsistent(t, row);
    var kept := WithoutHash(t.torrents, row.infoHash);
    SizeWithoutHash(t.torrents, row.infoHash);
    SizeAppend(kept, [row.(completedAt := None)]);
  }

  lemma RemoveKeeps(cfg: Config, s: State, id: nat, env: Env, bound: nat)
    requires Inv(cfg, s, bound) && id in s.tasks
    requires var t := s.tasks[id]; t.RemoveStart? || t.RemoveTorrent? || t.RemoveRows?
    ensures var s' := RemoveStep(s, id, s.tasks[id], env);
            Inv(cfg, s', bound) && Harmless(s, s', id)
  {
    var task := s.tasks[id];
    var s' := RemoveStep(s, id, task, env);
    ShrinksSame(s.tables);
    if task.RemoveRows? {
      ShrinksDelete(s.tables, task.id);
      FinishKeeps(cfg, s, s.(tables := DeleteMovie(s.tables, task.id)), id, bound);
    } else {
      HarmlessKeeps(cfg, s, s', id, bound);
    }
  }

  lemma SweepKeeps(cfg: Config, s: State, id: nat, env: Env, bound: nat)
    requires Inv(cfg, s, bound) && id in s.tasks && (s.tasks[id].SweepStart? || s.tasks[id].Sweep?)
    ensures var s' := SweepStep(cfg, s, id, s.tasks[id], env);
            Inv(cfg, s', bound) && Harmless(s, s', id)
  {
    ShrinksSame(s.tables);
    FinishKeeps(cfg, s, s, id, bound);
    if s.tasks[id].SweepStart? {
      var plan := SpacePlan(cfg.space, Tables(env.movies, s.tables.torrents), env.now, env.diskFree, 0);
      if plan.Ok? {
        GotoKeeps(cfg, s, s, id, Sweep(Pick(Keys(plan.value.evict))), bound);
      }
    } else if s.tasks[id].evict.victims != [] {
      SweepEvictionKeeps(cfg, s, id, s.tasks[id].evict, env, bound);
    }
  }

  lemma SweepEvictionKeeps(cfg: Config, s: State, id: nat, evict: EvictPc, env: Env, bound: nat)
    requires Inv(cfg, s, bound) && id in s.tasks && evict.victims != []
    ensures var s' := SweepStep(cfg, s, id, Sweep(evict), env);
            Inv(cfg, s', bound) && Harmless(s, s', id)
  {
    EvictStepShrinks(s.tables, s.session, evict, env.ok);
    var r := EvictStep(s.tables, s.session, evict, env.ok);
    var s1 := s.(tables := r.tables, session := r.session);
    if r.next.None? {
      FinishKeeps(cfg, s, s1, id, bound);
    } else {
      GotoKeeps(cfg, s, s1, id, Sweep(r.next.value), bound);
    }
  }

  /** A session that changes alone concerns no other task. */
  lemma GotoSessionKeeps(cfg: Config, s: State, session: Session, id: nat, t: Task, bound: nat)
    requires Inv(cfg, s, bound) && id in s.tasks && !NeedsLock(t)
    ensures var s' := Goto(s.(session := session), id, t);
            Inv(cfg, s', bound) && Harmless(s, s', id)
  {
    ShrinksSame(s.tables);
    GotoKeeps(cfg, s, s.(session := session), id, t, bound);
  }

  lemma FinishSessionKeeps(cfg: Config, s: State, session: Session, id: nat, bound: nat)
    requires Inv(cfg, s, bound) && id in s.tasks
    ensures var s' := Finish(s.(session := session), id);
            Inv(cfg, s', bound) && Harmless(s, s', id)
  {
    ShrinksSame(s.tables);
    FinishKeeps(cfg, s, s.(session := session), id, bound);
  }

  /** The three places that set or lift the pause hold the lock and leave the tables alone. */
  lemma SettingKeeps(cfg: Config, s: State, id: nat, env: Env, bound: nat)
    requires Inv(cfg, s, bound) && id in s.tasks
    requires s.tasks[id].PauseSetting? || s.tasks[id].Lifting? || s.tasks[id].DiskSetting?
    ensures var s' := PauseStep(s, id, s.tasks[id], env);
            Inv(cfg, s', bound) && s.lock == Some(id) && s'.tables == s.tables
  {
    assert TaskOk(cfg, s, id);
    HolderKeeps(cfg, s, PauseStep(s, id, s.tasks[id], env), id, bound);
  }

  /** Every other step of a pause task leaves the pause as it is. */
  lemma PauseKeeps(cfg: Config, s: State, id: nat, env: Env, bound: nat)
    requires Inv(cfg, s, bound) && id in s.tasks && PauseTask(s.tasks[id]) && !NeedsLock(s.tasks[id])
    ensures var s' := PauseStep(s, id, s.tasks[id], env);
            Inv(cfg, s', bound) && Harmless(s, s', id)
  {
    var task := s.tasks[id];
    FinishSessionKeeps(cfg, s, s.session, id, bound);
    ShrinksSame(s.tables);
    if task.PauseWaiting? {
      AcquireKeeps(cfg, s, id, PauseSetting(task.duration, task.indefinite), bound);
    } else if task.ResumeWaiting? {
      AcquireKeeps(cfg, s, id, Lifting, bound);
    } else if task.DiskWaiting? {
      AcquireKeeps(cfg, s, id, DiskSetting, bound);
    } else if task.Applying? {
      var h := env.hash;
      if h in task.todo {
        GotoSessionKeeps(cfg, s, if h in s.session && env.ok then SetPaused(s.session, h, true) else s.session, id,
                         Applying(task.todo - {h}), bound);
      }
    } else if task.ResumeStart? {
      GotoSessionKeeps(cfg, s, s.session, id, ResumeWaiting, bound);
    } else {
      CheckKeeps(cfg, s, id, env, bound);
    }
  }

  lemma CheckKeeps(cfg: Config, s: State, id: nat, env: Env, bound: nat)
    requires Inv(cfg, s, bound) && id in s.tasks && (s.tasks[id].CheckStart? || s.tasks[id].CheckExpiry?)
    ensures var s' := PauseStep(s, id, s.tasks[id], env);
            Inv(cfg, s', bound) && Harmless(s, s', id)
  {
    if s.tasks[id].CheckStart? {
      FlagKeeps(cfg, s, id, env, bound);
    } else if s.core.pause.None? {
      GotoSessionKeeps(cfg, s, s.session, id, BalanceStart, bound);
    } else if s.tasks[id].diskOk && Expired(s.core.pause.value, env.now) {
      GotoSessionKeeps(cfg, s, s.session, id, ResumeStart, bound);
    } else {
      GotoSessionKeeps(cfg, s, s.session, id, Applying(s.session.Keys), bound);
    }
  }

  lemma FlagKeeps(cfg: Config, s: State, id: nat, env: Env, bound: nat)
    requires Inv(cfg, s, bound) && id in s.tasks && s.tasks[id].CheckStart?
    ensures var s' := PauseStep(s, id, s.tasks[id], env);
            Inv(cfg, s', bound) && Harmless(s, s', id)
  {
    ShrinksSame(s.tables);
    var s1 := s.(core := s.core.(diskMissing := !env.diskOk));
    var next := match DiskActionFor(env.diskOk, ReasonOf(s.core.pause))
                case PauseForDisk => DiskWaiting
                case ResumeFromDisk => ResumeStart
                case Nothing => CheckExpiry(env.diskOk);
    GotoKeeps(cfg, s, s1, id, next, bound);
  }

  lemma SessionKeeps(cfg: Config, s: State, id: nat, env: Env, bound: nat)
    requires Inv(cfg, s, bound) && id in s.tasks && SessionTask(s.tasks[id])
    ensures var s' := SessionStep(cfg, s, id, s.tasks[id], env);
            Inv(cfg, s', bound) && Harmless(s, s', id)
  {
    var task := s.tasks[id];
    assert TaskOk(cfg, s, id);
    if task.LimitsWaiting? {
      AcquireKeeps(cfg, s, id, LimitsSetting(task.hash), bound);
    } else if task.LimitsSetting? {
      var t' := SetLimits(s.tables, task.hash, env.limit, env.limit, env.limit);
      ShrinksSameShape(s.tables, t');
      GotoKeeps(cfg, s, s.(tables := t'), id, ReloadStart(task.hash), bound);
    } else if task.CompletionStart? {
      var t' := MarkComplete(s.tables, task.hash, env.now);
      ShrinksSameShape(s.tables, t');
      var h := task.hash;
      var session := if h in s.session && env.ok && !cfg.keepSeeding then SetPaused(s.session, h, true) else s.session;
      GotoKeeps(cfg, s, s.(session := session, tables := t'), id, BalanceStart, bound);
    } else if task.BalanceStart? || task.Balancing? {
      BalancingKeeps(cfg, s, id, env, bound);
    } else {
      ReloadKeeps(cfg, s, id, env, bound);
    }
  }

  lemma BalancingKeeps(cfg: Config, s: State, id: nat, env: Env, bound: nat)
    requires Inv(cfg, s, bound) && id in s.tasks && (s.tasks[id].BalanceStart? || s.tasks[id].Balancing?)
    ensures var s' := SessionStep(cfg, s, id, s.tasks[id], env);
            Inv(cfg, s', bound) && Harmless(s, s', id)
  {
    var task := s.tasks[id];
    FinishSessionKeeps(cfg, s, s.session, id, bound);
    if task.BalanceStart? {
      GotoSessionKeeps(cfg, s, s.session, id, Balancing(QueueOrder(s.tables.torrents), 0), bound);
    } else if task.order != [] {
      var h := task.order[0];
      if h !in s.session || s.session[h].error {
        GotoSessionKeeps(cfg, s, s.session, id, Balancing(task.order[1..], task.slot), bound);
      } else {
        var slot' := SlotAfter(s.session, h, task.slot);
        GotoSessionKeeps(cfg, s, Settle(s.session, h, slot', cfg.maxActive, cfg.keepSeeding, _ => env.ok), id,
                         Balancing(task.order[1..], slot'), bound);
      }
    }
  }

  lemma ReloadKeeps(cfg: Config, s: State, id: nat, env: Env, bound: nat)
    requires Inv(cfg, s, bound) && id in s.tasks
    requires s.tasks[id].ReloadStart? || s.tasks[id].ReloadDelete? || s.tasks[id].ReloadAdd?
    ensures var s' := SessionStep(cfg, s, id, s.tasks[id], env);
            Inv(cfg, s', bound) && Harmless(s, s', id)
  {
    var task := s.tasks[id];
    var h := task.hash;
    FinishSessionKeeps(cfg, s, s.session, id, bound);
    if task.ReloadStart? {
      if h in s.session {
        var was := s.session[h].paused;
        GotoSessionKeeps(cfg, s, SetPaused(s.session, h, was || env.ok), id, ReloadDelete(h, was), bound);
      }
    } else if task.ReloadDelete? {
      GotoSessionKeeps(cfg, s, s.session - {h}, id, ReloadAdd(h, task.wasPaused), bound);
    } else {
      FinishSessionKeeps(cfg, s, s.session[h := env.torrent.(paused := task.wasPaused)], id, bound);
    }
  }

  /** A step either leaves pause and rows to the others, or is taken by the lock holder. */
  lemma AdvanceKeeps(cfg: Config, s: State, id: nat, env: Env, bound: nat)
    requires Inv(cfg, s, bound) && id in s.tasks
    ensures Inv(cfg, AdvanceStep(cfg, s, id, env), bound)
    ensures Harmless(s, AdvanceStep(cfg, s, id, env), id) || s.lock == Some(id) || s.tasks[id].Add?
  {
    var t := s.tasks[id];
    if t.Add? {
      AddKeeps(cfg, s, id, env, bound);
    } else if t.RemoveStart? || t.RemoveTorrent? || t.RemoveRows? {
      RemoveKeeps(cfg, s, id, env, bound);
    } else if t.SweepStart? || t.Sweep? {
      SweepKeeps(cfg, s, id, env, bound);
    } else if PauseTask(t) {
      if NeedsLock(t) {
        SettingKeeps(cfg, s, id, env, bound);
      } else {
        PauseKeeps(cfg, s, id, env, bound);
      }
    } else {
      SessionKeeps(cfg, s, id, env, bound);
    }
  }

  /** Every move keeps the invariant. */
  lemma NextKeeps(cfg: Config, s: State, m: Move, bound: nat)
    requires Inv(cfg, s, bound)
    ensures Inv(cfg, Next(cfg, s, m), bound)
  {
    match m {
      case Spawn(id, task) =>
        if id !in s.tasks && Initial(task) {
          var s' := Goto(s, id, task);
          forall i | i in s'.tasks ensures TaskOk(cfg, s', i) {
            if i != id { assert TaskOk(cfg, s, i); }
          }
        }
      case Advance(id, env) => if id in s.tasks { AdvanceKeeps(cfg, s, id, env, bound); }
      case Cancel(id) => if id in s.tasks { FinishSessionKeeps(cfg, s, s.session, id, bound); }
      case TouchMovie(movie, ts) =>
        forall i | i in s.tasks ensures TaskOk(cfg, Next(cfg, s, m), i) { assert TaskOk(cfg, s, i); }
      case Progress(hash, torrent) =>
        forall i | i in s.tasks ensures TaskOk(cfg, Next(cfg, s, m), i) { assert TaskOk(cfg, s, i); }
      case Reboot(now, readable, session) =>
    }
  }

  lemma {:induction false} RunKeeps(cfg: Config, s: State, moves: seq<Move>, bound: nat)
    requires Inv(cfg, s, bound)
    ensures Inv(cfg, RunMoves(cfg, s, moves), bound)
  {
    if moves != [] {
      RunKeeps(cfg, s, moves[..|moves| - 1], bound);
      NextKeeps(cfg, RunMoves(cfg, s, moves[..|moves| - 1]), moves[|moves| - 1], bound);
    }
  }

  // ---- budget safety ----------------------------------------------------------------------------

  /** Before the engine does anything: consistent tables, no tasks, sums far from overflowing. */
  ghost predicate Start(cfg: Config, s: State)
  {
    && Consistent(s.tables) && s.tasks == map[] && s.lock.None?
    && Max(Size(s.tables.torrents), cfg.space.budget) + cfg.space.budget < TWO64
  }

  lemma StartInv(cfg: Config, s: State)
    requires Start(cfg, s)
    ensures Inv(cfg, s, Max(Size(s.tables.torrents), cfg.space.budget))
  {
  }

  /** In every interleaving the catalog never exceeds the larger of the budget and what it started from. */
  lemma BudgetSafety(cfg: Config, s: State, moves: seq<Move>)
    requires Start(cfg, s)
    ensures Size(RunMoves(cfg, s, moves).tables.torrents) <= Max(Size(s.tables.torrents), cfg.space.budget)
  {
    StartInv(cfg, s);
    RunKeeps(cfg, s, moves, Max(Size(s.tables.torrents), cfg.space.budget));
  }

  /** Once the catalog is within the budget, whatever is still in flight, it stays there. */
  lemma WithinBudgetStays(cfg: Config, s: State, before: seq<Move>, after: seq<Move>)
    requires Start(cfg, s)
    requires Size(RunMoves(cfg, s, before).tables.torrents) <= cfg.space.budget
    ensures Size(RunMoves(cfg, RunMoves(cfg, s, before), after).tables.torrents) <= cfg.space.budget
  {
    StartInv(cfg, s);
    RunKeeps(cfg, s, before, Max(Size(s.tables.torrents), cfg.space.budget));
    var mid := RunMoves(cfg, s, before);
    assert Inv(cfg, mid, cfg.space.budget);
    RunKeeps(cfg, mid, after, cfg.space.budget);
  }

  /** Only the holder of the add lock inserts, and its insertion ends within the budget. */
  lemma GrowthIsAnAdd(cfg: Config, s: State, m: Move, bound: nat)
    requires Inv(cfg, s, bound)
    requires Size(Next(cfg, s, m).tables.torrents) > Size(s.tables.torrents)
    ensures m.Advance? && s.lock == Some(m.id) && m.id in s.tasks
    ensures s.tasks[m.id].Add? && s.tasks[m.id].add.AddRecordingTorrent?
    ensures Size(Next(cfg, s, m).tables.torrents) <= cfg.space.budget
  {
    if m.Advance? && m.id in s.tasks {
      var t := s.tasks[m.id];
      assert TaskOk(cfg, s, m.id);
      if t.Add? {
        AddGrowth(cfg, s, m.id, m.env, bound);
      } else {
        NonAddShrinks(cfg, s, m.id, m.env, bound);
      }
    }
  }

  lemma AddGrowth(cfg: Config, s: State, id: nat, env: Env, bound: nat)
    requires Inv(cfg, s, bound) && id in s.tasks && s.tasks[id].Add?
    ensures var s' := AdvanceStep(cfg, s, id, env);
            Size(s'.tables.torrents) <= Size(s.tables.torrents)
            || (s.tasks[id].add.AddRecordingTorrent? && Size(s'.tables.torrents) <= cfg.space.budget)
  {
    var req, pc := s.tasks[id].req, s.tasks[id].add;
    assert TaskOk(cfg, s, id);
    if pc.AddMakingRoom? && pc.evict.victims != [] {
      EvictStepShrinks(s.tables, s.session, pc.evict, env.ok);
    } else if pc.AddRecordingTorrent? && InsertTorrent(s.tables, req.row).Some? {
      AddInserts(s.tables, req.row);
    }
  }

  lemma NonAddShrinks(cfg: Config, s: State, id: nat, env: Env, bound: nat)
    requires Inv(cfg, s, bound) && id in s.tasks && !s.tasks[id].Add?
    ensures Size(AdvanceStep(cfg, s, id, env).tables.torrents) <= Size(s.tables.torrents)
  {
    var t := s.tasks[id];
    if t.RemoveStart? || t.RemoveTorrent? || t.RemoveRows? {
      RemoveKeeps(cfg, s, id, env, bound);
    } else if t.SweepStart? || t.Sweep? {
      SweepKeeps(cfg, s, id, env, bound);
    } else if PauseTask(t) {
      if NeedsLock(t) {
        SettingKeeps(cfg, s, id, env, bound);
      } else {
        PauseKeeps(cfg, s, id, env, bound);
      }
    } else {
      SessionKeeps(cfg, s, id, env, bound);
    }
  }

  // ---- the pause and the lock ---------------------------------------------------------------------

  /** Outside a restart the pause changes only in a step of the lock holder. */
  lemma PauseChangesUnderLock(cfg: Config, s: State, m: Move, bound: nat)
    requires Inv(cfg, s, bound) && Next(cfg, s, m).core.pause != s.core.pause
    ensures m.Reboot? || (m.Advance? && s.lock == Some(m.id))
    ensures m.Advance? ==> m.id in s.tasks && NeedsLock(s.tasks[m.id]) && PauseTask(s.tasks[m.id])
  {
    if m.Advance? && m.id in s.tasks {
      var t := s.tasks[m.id];
      assert TaskOk(cfg, s, m.id);
      if t.RemoveStart? || t.RemoveTorrent? || t.RemoveRows? {
        RemoveKeeps(cfg, s, m.id, m.env, bound);
      } else if t.SweepStart? || t.Sweep? {
        SweepKeeps(cfg, s, m.id, m.env, bound);
      } else if PauseTask(t) {
        if !NeedsLock(t) {
          PauseKeeps(cfg, s, m.id, m.env, bound);
        }
      } else if SessionTask(t) {
        SessionKeeps(cfg, s, m.id, m.env, bound);
      }
    }
  }

  /** An add that passed its pause check stays unpaused, in every interleaving, for as long as it runs. */
  lemma AddsRunUnpaused(cfg: Config, s: State, moves: seq<Move>, id: nat)
    requires Start(cfg, s)
    requires var s' := RunMoves(cfg, s, moves); id in s'.tasks && PastCheck(s'.tasks[id])
    ensures var s' := RunMoves(cfg, s, moves); s'.core.pause.None? && s'.lock == Some(id)
  {
    StartInv(cfg, s);
    RunKeeps(cfg, s, moves, Max(Size(s.tables.torrents), cfg.space.budget));
    assert TaskOk(cfg, RunMoves(cfg, s, moves), id);
  }

  predicate IsRunning(s: Session, h: string)
  {
    h in s && !s[h].paused
  }

  /** The step unpauses the torrent: a balancing pass, or the add of a reload, already under way, or a reboot. */
  predicate Loosens(cfg: Config, s: State, m: Move, h: string)
  {
    match m
    case Reboot(_, _, session) => IsRunning(session, h)
    case Advance(id, env) =>
      id in s.tasks && env.ok &&
      (match s.tasks[id]
       case Balancing(order, slot) =>
         && order != [] && order[0] == h && h in s.session && !s.session[h].error
         && WantRunning(s.session[h], SlotAfter(s.session, h, slot), cfg.maxActive, cfg.keepSeeding)
       case ReloadAdd(hash, wasPaused) => hash == h && h !in s.session && !wasPaused
       case _ => false)
    case _ => false
  }

  /** During a pause, a torrent comes loose exactly in such a step. */
  lemma LooseOnlyByStaleTask(cfg: Config, s: State, m: Move, h: string, bound: nat)
    requires Inv(cfg, s, bound) && s.core.pause.Some? && !IsRunning(s.session, h)
    ensures IsRunning(Next(cfg, s, m).session, h) <==> Loosens(cfg, s, m, h)
  {
    if m.Advance? && m.id in s.tasks {
      var task := s.tasks[m.id];
      assert TaskOk(cfg, s, m.id);
      if task.Balancing? {
        BalancingLoosens(cfg, s, m.id, m.env, h);
      } else if task.ReloadAdd? {
        ReloadLoosens(cfg, s, m.id, m.env, h);
      } else {
        OthersLoosenNothing(cfg, s, m.id, m.env, h);
      }
    }
  }

  lemma BalancingLoosens(cfg: Config, s: State, id: nat, env: Env, h: string)
    requires id in s.tasks && s.tasks[id].Balancing? && !IsRunning(s.session, h)
    ensures IsRunning(AdvanceStep(cfg, s, id, env).session, h) <==> Loosens(cfg, s, Advance(id, env), h)
  {
  }

  lemma ReloadLoosens(cfg: Config, s: State, id: nat, env: Env, h: string)
    requires id in s.tasks && s.tasks[id].ReloadAdd? && !IsRunning(s.session, h)
    ensures IsRunning(AdvanceStep(cfg, s, id, env).session, h) <==> Loosens(cfg, s, Advance(id, env), h)
  {
  }

  lemma OthersLoosenNothing(cfg: Config, s: State, id: nat, env: Env, h: string)
    requires id in s.tasks && !s.tasks[id].Balancing? && !s.tasks[id].ReloadAdd? && !IsRunning(s.session, h)
    requires s.core.pause.Some? && !PastCheck(s.tasks[id])
    ensures !IsRunning(AdvanceStep(cfg, s, id, env).session, h)
  {
  }

  // ---- two races that the lock does not exclude -------------------------------------------------

  lemma RunSnoc(cfg: Config, s: State, moves: seq<Move>, m: Move)
    ensures RunMoves(cfg, s, moves + [m]) == Next(cfg, RunMoves(cfg, s, moves), m)
  {
    assert (moves + [m])[..|moves|] == moves;
  }

  lemma {:induction false} RunAppend(cfg: Config, s: State, a: seq<Move>, b: seq<Move>)
    ensures RunMoves(cfg, s, a + b) == RunMoves(cfg, RunMoves(cfg, s, a), b)
  {
    if b == [] {
      assert a + b == a;
    } else {
      var init, last := b[..|b| - 1], b[|b| - 1];
      RunAppend(cfg, s, a, init);
      assert (a + b)[..|a + b| - 1] == a + init;
    }
  }

  function QuietEnv(now: int, diskOk: bool): Env
  {
    Env(true, now, 0, diskOk, map[], "a", None, Torrent(true, false, false, 0, {}, None))
  }

  const QUEUED := Torrent(true, false, false, 0, {}, None)
  const ROW := TorrentRow("a", "tt1", "magnet:?", 1, 0, 0, false, None, None, None, None)

  /** One paused download in an unpaused engine. */
  function OneQueued(): State
  {
    State(Tables(map["tt1" := Movie("a", 0, 0)], [ROW]), map["a" := QUEUED], Core(None, false, None), None, map[])
  }

  const UNLIMITED := Config(Settings(10, 0, 0), None, false)

  lemma OneQueuedOrder()
    ensures QueueOrder([ROW]) == ["a"]
  {
    assert [ROW][1..] == [];
    assert SortByRank([ROW], RowRank) == [ROW];
  }

  lemma TwoMoves(cfg: Config, s: State, m1: Move, m2: Move)
    ensures RunMoves(cfg, s, [m1, m2]) == Next(cfg, Next(cfg, s, m1), m2)
  {
    RunSnoc(cfg, s, [], m1);
    RunSnoc(cfg, s, [m1], m2);
    assert [] + [m1] == [m1] && [m1] + [m2] == [m1, m2];
  }

  /** A balancing pass begins. */
  lemma BalanceBegins(s: State) returns (moves: seq<Move>)
    requires s == OneQueued()
    ensures RunMoves(UNLIMITED, s, moves) == s.(tasks := map[0 := BALANCING])
  {
    var m1, m2 := Spawn(0, BalanceStart), Advance(0, QuietEnv(0, true));
    moves := [m1, m2];
    TwoMoves(UNLIMITED, s, m1, m2);
    OneQueuedOrder();
    assert Next(UNLIMITED, s, m1) == s.(tasks := map[0 := BalanceStart]);
    assert map[0 := BalanceStart][0 := BALANCING] == map[0 := BALANCING];
  }

  /** A pause takes the lock. */
  lemma PauseBegins(s: State) returns (moves: seq<Move>)
    requires s.lock.None? && s.tasks == map[0 := BALANCING]
    ensures RunMoves(UNLIMITED, s, moves)
         == s.(lock := Some(1), tasks := map[0 := BALANCING, 1 := PauseSetting(0, true)])
  {
    var m1, m2 := Spawn(1, PauseWaiting(0, true)), Advance(1, QuietEnv(0, true));
    moves := [m1, m2];
    TwoMoves(UNLIMITED, s, m1, m2);
    assert Next(UNLIMITED, s, m1) == s.(tasks := map[0 := BALANCING, 1 := PauseWaiting(0, true)]);
    assert map[0 := BALANCING, 1 := PauseWaiting(0, true)][1 := PauseSetting(0, true)]
        == map[0 := BALANCING, 1 := PauseSetting(0, true)];
  }

  const HELD := Core(Some(PauseState(0, None, Manual)), false, Some(PauseState(0, None, Manual)))

  const BALANCING := Balancing(["a"], 0)

  lemma PauseIsSet(s: State, m: Move)
    requires s == OneQueued().(lock := Some(1), tasks := map[0 := BALANCING, 1 := PauseSetting(0, true)])
    requires m == Advance(1, QuietEnv(0, true))
    ensures Next(UNLIMITED, s, m) == s.(core := HELD, tasks := map[0 := BALANCING, 1 := Applying({"a"})])
  {
    assert PauseTask(s.tasks[1]) && PauseAccepted(s.core, 0, true, true);
    assert PauseAll(s.core, 0, 0, true, true) == HELD;
    assert s.session.Keys == {"a"};
    assert s.tasks[1 := Applying({"a"})] == map[0 := BALANCING, 1 := Applying({"a"})];
  }

  lemma PauseIsApplied(s: State, m: Move)
    requires s == OneQueued().(core := HELD, lock := Some(1), tasks := map[0 := BALANCING, 1 := Applying({"a"})])
    requires m == Advance(1, QuietEnv(0, true))
    ensures Next(UNLIMITED, s, m) == s.(tasks := map[0 := BALANCING, 1 := Applying({})])
  {
    assert PauseTask(s.tasks[1]);
    assert SetPaused(s.session, "a", true) == s.session;
    assert {"a"} - {"a"} == {};
    assert s.tasks[1 := Applying({})] == map[0 := BALANCING, 1 := Applying({})];
  }

  lemma PauseIsDone(s: State, m: Move)
    requires s.lock == Some(1) && s.tasks == map[0 := BALANCING, 1 := Applying({})]
    requires m == Advance(1, QuietEnv(0, true))
    ensures Next(UNLIMITED, s, m) == s.(lock := None, tasks := map[0 := BALANCING])
  {
    assert PauseTask(s.tasks[1]);
    assert s.tasks - {1} == map[0 := BALANCING];
  }

  /** The pause is set, applied to every torrent, and done. */
  lemma PauseCompletes(s: State) returns (moves: seq<Move>)
    requires s == OneQueued().(lock := Some(1), tasks := map[0 := BALANCING, 1 := PauseSetting(0, true)])
    ensures RunMoves(UNLIMITED, s, moves) == OneQueued().(core := HELD, tasks := map[0 := BALANCING])
  {
    var m := Advance(1, QuietEnv(0, true));
    PauseIsSet(s, m);
    var s1 := Next(UNLIMITED, s, m);
    PauseIsApplied(s1, m);
    var s2 := Next(UNLIMITED, s1, m);
    PauseIsDone(s2, m);
    TwoMoves(UNLIMITED, s, m, m);
    RunSnoc(UNLIMITED, s, [m, m], m);
    moves := [m, m] + [m];
  }

  lemma StalePassStarts(s: State) returns (moves: seq<Move>)
    requires s == OneQueued().(core := HELD, tasks := map[0 := BALANCING])
    ensures var s' := RunMoves(UNLIMITED, s, moves);
            s'.core.pause.Some? && s'.lock.None? && IsRunning(s'.session, "a")
  {
    var m := Advance(0, QuietEnv(0, true));
    moves := [];
    RunSnoc(UNLIMITED, s, moves, m); moves := moves + [m];
  }

  /** A balancing pass that began before a pause can leave a torrent running during it, with the lock free. */
  lemma LooseTorrentHappens() returns (moves: seq<Move>)
    ensures Start(UNLIMITED, OneQueued())
    ensures var s' := RunMoves(UNLIMITED, OneQueued(), moves);
            s'.core.pause.Some? && s'.lock.None? && IsRunning(s'.session, "a")
  {
    moves := BalanceBegins(OneQueued());
    var next := PauseBegins(RunMoves(UNLIMITED, OneQueued(), moves));
    RunAppend(UNLIMITED, OneQueued(), moves, next);
    moves := moves + next;
    next := PauseCompletes(RunMoves(UNLIMITED, OneQueued(), moves));
    RunAppend(UNLIMITED, OneQueued(), moves, next);
    moves := moves + next;
    next := StalePassStarts(RunMoves(UNLIMITED, OneQueued(), moves));
    RunAppend(UNLIMITED, OneQueued(), moves, next);
    moves := moves + next;
  }

  const PAUSED := Core(Some(PauseState(0, None, Manual)), false, None)

  lemma ResumeWaits(s: State) returns (moves: seq<Move>)
    requires s == OneQueued().(core := PAUSED)
    ensures RunMoves(UNLIMITED, s, moves) == s.(tasks := map[0 := ResumeWaiting])
  {
    var m1, m2 := Spawn(0, ResumeStart), Advance(0, QuietEnv(1, false));
    moves := [m1, m2];
    TwoMoves(UNLIMITED, s, m1, m2);
    assert Next(UNLIMITED, s, m1) == s.(tasks := map[0 := ResumeStart]);
    assert map[0 := ResumeStart][0 := ResumeWaiting] == map[0 := ResumeWaiting];
  }

  lemma CheckFindsDiskGone(s: State) returns (moves: seq<Move>)
    requires s == OneQueued().(core := PAUSED, tasks := map[0 := ResumeWaiting])
    ensures RunMoves(UNLIMITED, s, moves)
         == s.(core := PAUSED.(diskMissing := true), tasks := map[0 := ResumeWaiting, 1 := CheckExpiry(false)])
  {
    var m1, m2 := Spawn(1, CheckStart), Advance(1, QuietEnv(1, false));
    moves := [m1, m2];
    TwoMoves(UNLIMITED, s, m1, m2);
    assert Next(UNLIMITED, s, m1) == s.(tasks := map[0 := ResumeWaiting, 1 := CheckStart]);
    assert map[0 := ResumeWaiting, 1 := CheckStart][1 := CheckExpiry(false)]
        == map[0 := ResumeWaiting, 1 := CheckExpiry(false)];
  }

  lemma WaitingResumeLifts(s: State) returns (moves: seq<Move>)
    requires s.lock.None? && 0 in s.tasks && s.tasks[0] == ResumeWaiting && s.core == PAUSED.(diskMissing := true)
    ensures var s' := RunMoves(UNLIMITED, s, moves);
            s'.core.diskMissing && s'.core.pause.None?
  {
    var m := Advance(0, QuietEnv(1, false));
    moves := [m, m];
    TwoMoves(UNLIMITED, s, m, m);
    assert Next(UNLIMITED, s, m) == s.(lock := Some(0), tasks := s.tasks[0 := Lifting]);
  }

  /**
    Resuming looks at the disk before it waits for the lock, so a disk lost in between does
    not stop it: the pause is lifted while the disk is known to be missing.
  */
  lemma ResumeOvertakenByDiskLoss() returns (s: State, moves: seq<Move>)
    ensures Start(UNLIMITED, s) && Sound(s.core) && s.core.pause.Some?
    ensures var s' := RunMoves(UNLIMITED, s, moves);
            s'.core.diskMissing && s'.core.pause.None?
  {
    s := OneQueued().(core := PAUSED);
    moves := ResumeWaits(s);
    var next := CheckFindsDiskGone(RunMoves(UNLIMITED, s, moves));
    RunAppend(UNLIMITED, s, moves, next);
    moves := moves + next;
    next := WaitingResumeLifts(RunMoves(UNLIMITED, s, moves));
    RunAppend(UNLIMITED, s, moves, next);
    moves := moves + next;
  }

  /** That race is the only way: a pause ends with the disk missing exactly where a waiting resume lifts it then. */
  lemma LiftedWithoutDiskOnlyByResume(cfg: Config, s: State, m: Move, bound: nat)
    requires Inv(cfg, s, bound) && s.core.pause.Some?
    ensures Next(cfg, s, m).core.pause.None? && Next(cfg, s, m).core.diskMissing
       <==> m.Advance? && m.id in s.tasks && s.tasks[m.id].Lifting? && s.core.diskMissing
  {
    if Next(cfg, s, m).core.pause.None? {
      PauseChangesUnderLock(cfg, s, m, bound);
    }
  }
}
