/**
  The engine: one object that owns the session, the pause and the stall map, and drives the
  catalog. Every method is tied to the function that says what it does to the state.
*/
module TorrentEngine {
  import opened CatalogStore
  import opened Eviction
  import opened Pause
  import opened Planner
  import opened Queue
  import opened Reload
  import opened Stall
  import opened TorrentSession
  import opened Wrappers

  datatype Fault = Conflict | Invalid | NotFound | NoSpace(error: PlanError) | Failed

  /** A movie to add, once its torrent has been resolved. */
  datatype AddRequest = AddRequest(movie: Movie, row: TorrentRow, fromMagnet: bool, public: seq<string>)

  /** The trackers a torrent is added with: none of the public ones if it is private. */
  function AddedTrackers(req: AddRequest): Option<seq<string>>
  {
    if req.row.private || req.public == [] then None else Some(req.public)
  }

  /** What one sweep sees of a row's torrent. */
  function SightOfRow(t: Tables, s: Session, row: TorrentRow, now: int, grace: nat): Sight
  {
    if row.infoHash !in s then Unloaded
    else if s[row.infoHash].finished || s[row.infoHash].paused then Idle
    else Downloading(s[row.infoHash].progress,
                     IsProtected(if row.imdbId in t.movies then t.movies[row.imdbId].lastUsedAt else 0, now, grace))
  }

  function View(t: Tables, s: Session, now: int, grace: nat): Sweep
  {
    Sweep(now, map h | h in Hashes(t.torrents) :: SightOfHash(t, s, h, now, grace))
  }

  function SightOfHash(t: Tables, s: Session, h: string, now: int, grace: nat): Sight
  {
    var row := TorrentByHash(t.torrents, h);
    if row.Some? then SightOfRow(t, s, row.value, now, grace) else Unloaded
  }

  /** The map after one row of a sweep. */
  function MarkRow(seen: map<string, Mark>, h: string, sight: Option<Sight>, now: int): map<string, Mark>
  {
    match MarkStep(Get(seen, h), sight, now)
    case None => seen - {h}
    case Some(m) => seen[h := m]
  }

  /** The map after the rows of a sweep, one after the other. */
  function ScanFold(seen: map<string, Mark>, w: Sweep, hashes: seq<string>): map<string, Mark>
  {
    if hashes == [] then seen
    else
      var n := |hashes| - 1;
      MarkRow(ScanFold(seen, w, hashes[..n]), hashes[n], SightOf(w, hashes[n]), w.now)
  }

  /** The stalled torrents, in table order. */
  function StalledList(seen: map<string, Mark>, w: Sweep, hashes: seq<string>, timeout: nat): seq<string>
  {
    if hashes == [] then []
    else
      var n := |hashes| - 1;
      StalledList(seen, w, hashes[..n], timeout)
      + if IsStalled(Get(seen, hashes[n]), SightOf(w, hashes[n]), w.now, timeout) then [hashes[n]] else []
  }

  lemma SightOfTableRow(t: Tables, s: Session, row: TorrentRow, now: int, grace: nat)
    requires UniqueHashes(t.torrents) && row in t.torrents
    ensures SightOf(View(t, s, now, grace), row.infoHash) == Some(SightOfRow(t, s, row, now, grace))
  {
    var found := TorrentByHash(t.torrents, row.infoHash);
    SameRow(t.torrents, row, found.value);
    var i :| 0 <= i < |t.torrents| && t.torrents[i] == row;
    assert Hashes(t.torrents)[i] == row.infoHash;
  }

  lemma AllSightsOfTable(t: Tables, s: Session, now: int, grace: nat)
    requires UniqueHashes(t.torrents)
    ensures forall i :: 0 <= i < |t.torrents| ==>
              var row := t.torrents[i];
              SightOf(View(t, s, now, grace), row.infoHash) == Some(SightOfRow(t, s, row, now, grace))
  {
    forall i | 0 <= i < |t.torrents|
      ensures var row := t.torrents[i];
              SightOf(View(t, s, now, grace), row.infoHash) == Some(SightOfRow(t, s, row, now, grace))
    {
      SightOfTableRow(t, s, t.torrents[i], now, grace);
    }
  }

  /**
    The row's download is loaded, neither paused nor finished, has no more bytes than were
    recorded at least the timeout ago, and its movie was last used before the grace window.
  */
  predicate IsStuck(t: Tables, s: Session, seen: map<string, Mark>, now: int, grace: nat, timeout: nat, row: TorrentRow)
  {
    var h := row.infoHash;
    && h in s && !s[h].paused && !s[h].finished
    && h in seen && s[h].progress <= seen[h].bytes && seen[h].at + timeout <= now
    && row.imdbId in t.movies && t.movies[row.imdbId].lastUsedAt + grace <= now
  }

  lemma {:induction false} ListedMembers(seen: map<string, Mark>, w: Sweep, hashes: seq<string>, timeout: nat,
                                         h: string)
    ensures h in StalledList(seen, w, hashes, timeout)
       <==> h in hashes && IsStalled(Get(seen, h), SightOf(w, h), w.now, timeout)
  {
    if hashes != [] {
      var n := |hashes| - 1;
      ListedMembers(seen, w, hashes[..n], timeout, h);
      assert hashes == hashes[..n] + [hashes[n]];
    }
  }

  lemma StuckIsStalled(t: Tables, s: Session, seen: map<string, Mark>, now: int, grace: nat, timeout: nat,
                       row: TorrentRow)
    requires Consistent(t) && row in t.torrents
    ensures IsStalled(Get(seen, row.infoHash), Some(SightOfRow(t, s, row, now, grace)), now, timeout)
       <==> IsStuck(t, s, seen, now, grace, timeout, row)
  {
  }

  /** A sweep lists a hash if and only if it is that of a row whose download is stuck. */
  lemma ListedIff(t: Tables, s: Session, seen: map<string, Mark>, now: int, grace: nat, timeout: nat, h: string)
    requires Consistent(t)
    ensures h in StalledList(seen, View(t, s, now, grace), Hashes(t.torrents), timeout)
       <==> exists row :: row in t.torrents && row.infoHash == h && IsStuck(t, s, seen, now, grace, timeout, row)
  {
    var w := View(t, s, now, grace);
    ListedMembers(seen, w, Hashes(t.torrents), timeout, h);
    if h in Hashes(t.torrents) {
      var i :| 0 <= i < |t.torrents| && Hashes(t.torrents)[i] == h;
      var row := t.torrents[i];
      assert row in t.torrents;
      SightOfTableRow(t, s, row, now, grace);
      StuckIsStalled(t, s, seen, now, grace, timeout, row);
      forall x | x in t.torrents && x.infoHash == h ensures x == row {
        SameRow(t.torrents, x, row);
      }
    }
  }

  /** The list holds exactly the hashes of the rows whose downloads are stuck. */
  ghost predicate ListsStuck(t: Tables, s: Session, seen: map<string, Mark>, now: int, grace: nat, timeout: nat,
                             list: seq<string>)
  {
    forall h :: h in list <==>
      exists row :: row in t.torrents && row.infoHash == h && IsStuck(t, s, seen, now, grace, timeout, row)
  }

  lemma StuckAreListed(t: Tables, s: Session, seen: map<string, Mark>, now: int, grace: nat, timeout: nat)
    requires Consistent(t)
    ensures var list := StalledList(seen, View(t, s, now, grace), Hashes(t.torrents), timeout);
            ListsStuck(t, s, seen, now, grace, timeout, list)
  {
    var list := StalledList(seen, View(t, s, now, grace), Hashes(t.torrents), timeout);
    forall h
      ensures h in list <==>
        exists row :: row in t.torrents && row.infoHash == h && IsStuck(t, s, seen, now, grace, timeout, row)
    {
      ListedIff(t, s, seen, now, grace, timeout, h);
    }
  }

  /** What a sweep leaves recorded for a row. */
  function RecordAfter(s: Session, seen: map<string, Mark>, now: int, h: string): Option<Mark>
  {
    if h !in s then Get(seen, h)
    else if s[h].paused || s[h].finished then None
    else if h in seen && s[h].progress <= seen[h].bytes then Some(seen[h])
    else Some(Mark(s[h].progress, now))
  }

  /**
    Only rows keep a record: an unloaded one its own, a paused or finished one none, and a new
    high is recorded.
  */
  lemma SweepRecords(t: Tables, s: Session, seen: map<string, Mark>, now: int, grace: nat, h: string)
    requires Consistent(t)
    ensures Get(SeenAfter(seen, View(t, s, now, grace)), h)
         == if exists row :: row in t.torrents && row.infoHash == h then RecordAfter(s, seen, now, h) else None
  {
    var w := View(t, s, now, grace);
    SeenAfterEntry(seen, w, h);
    if row :| row in t.torrents && row.infoHash == h {
      SightOfTableRow(t, s, row, now, grace);
    } else {
      assert h !in Hashes(t.torrents);
    }
  }

  lemma ViewSights(t: Tables, s: Session, now: int, grace: nat)
    ensures forall h :: h in View(t, s, now, grace).sights <==> h in Hashes(t.torrents)
  {
  }

  /** Why an add is turned away before any room is made for it. */
  function Refusal(w: World, pause: Option<PauseState>, req: AddRequest): Option<Fault>
  {
    var existing := TorrentForMovie(w.tables.torrents, req.row.imdbId);
    var loaded := existing.Some? && existing.value.infoHash in w.session;
    if pause.Some? || loaded || req.row.infoHash in w.session then Some(Conflict)
    else if req.row.private && req.fromMagnet then Some(Invalid)
    else None
  }

  /** The torrent as an add starts it. */
  function StartedTorrent(w: World, req: AddRequest, t: Torrent, max: Option<nat>): Torrent
  {
    t.(paused := QueueIsFull(w.session, max), trackers := AddedTrackers(req))
  }

  /** The torrent in the session and its movie and row in the catalog. */
  function Added(w: World, req: AddRequest, t: Torrent, max: Option<nat>): World
  {
    var row := req.row;
    var tables := UpsertMovie(w.tables, row.imdbId, req.movie);
    Eviction.World(Tables(tables.movies, WithoutHash(tables.torrents, row.infoHash) + [row.(completedAt := None)]),
                   w.session[row.infoHash := StartedTorrent(w, req, t, max)])
  }

  /** The piece maps on disk once some torrents have left the session: theirs are gone. */
  ghost function MapsLeft(saved: map<string, set<nat>>, before: Session, after: Session): map<string, set<nat>>
  {
    map h | h in saved && !(h in before && h !in after) :: saved[h]
  }

  class Engine {
    const catalog: Catalog
    const cfg: Settings
    const maxActive: Option<nat>
    const keepSeeding: bool
    const defaultPause: nat
    const stallTimeout: nat

    var session: Session
    var saved: map<string, set<nat>>
    var pause: Option<PauseState>
    var diskMissing: bool
    var pauseFile: Option<PauseState>
    var progressSeen: map<string, Mark>

    ghost predicate Valid()
      reads this, catalog
    {
      catalog.Valid()
    }

    ghost function World(): World
      reads this, catalog
    {
      Eviction.World(catalog.Contents(), session)
    }

    ghost function Core(): Core
      reads this
    {
      Pause.Core(pause, diskMissing, pauseFile)
    }

    /** Starting up: the session is reconciled with the catalog, and a pause on file is applied. */
    constructor (catalog: Catalog, cfg: Settings, maxActive: Option<nat>, keepSeeding: bool, defaultPause: nat,
                 stallTimeout: nat, restored: Session, saved: map<string, set<nat>>, file: Option<PauseState>,
                 readable: bool, now: int, public: seq<string>, env: BootEnv, ok: string -> bool)
      requires catalog.Valid()
      ensures Valid() && this.catalog == catalog && progressSeen == map[]
      ensures Core() == Pause.Core(LoadPause(file, readable, now), false, file)
      ensures var s := Reconciled(restored, catalog.torrents, pause.Some?, public, env);
              session == if pause.Some? then ApplyPause(s, ok) else s
    {
      this.catalog, this.cfg, this.maxActive, this.keepSeeding := catalog, cfg, maxActive, keepSeeding;
      this.defaultPause, this.stallTimeout := defaultPause, stallTimeout;
      this.session, this.saved, this.pauseFile := restored, saved, file;
      this.pause, this.diskMissing, this.progressSeen := LoadPause(file, readable, now), false, map[];
      new;
      ReconcileSession(public, env);
      if pause.Some? {
        var n := PauseEverything(ok);
      }
    }

    // ---- eviction ---------------------------------------------------------------------------

    method Evict(hash: string, deleteOk: bool) returns (ok: bool)
      requires Valid()
      modifies this`session, this`saved, catalog
      ensures Valid() && ok == EvictOne(old(World()), hash, deleteOk).Some?
      ensures World() == if ok then EvictOne(old(World()), hash, deleteOk).value else old(World())
      ensures saved == MapsLeft(old(saved), old(session), session)
    {
      var row := TorrentByHash(catalog.torrents, hash);
      if hash in session {
        if !deleteOk {
          return false;
        }
        session, saved := session - {hash}, saved - {hash};
      } else {
        assert session - {hash} == session;
      }
      if row.Some? {
        var found := catalog.Delete(row.value.imdbId);
      }
      return true;
    }

    /** The loop of a sweep or of making room: one after the other, up to the first failure. */
    method EvictEach(hashes: seq<string>, deleteOk: string -> bool) returns (ok: bool)
      requires Valid()
      modifies this`session, this`saved, catalog
      ensures Valid()
      ensures var done := EvictAll(old(World()), hashes, deleteOk); World() == done.world && ok == done.ok
      ensures saved == MapsLeft(old(saved), old(session), session) && session.Keys <= old(session).Keys
    {
      ghost var before := World();
      assert hashes[0..] == hashes;
      for i := 0 to |hashes|
        invariant Valid()
        invariant EvictAll(before, hashes, deleteOk) == EvictAll(World(), hashes[i..], deleteOk)
        invariant saved == MapsLeft(old(saved), before.session, session) && session.Keys <= before.session.Keys
      {
        assert hashes[i..][0] == hashes[i] && hashes[i..][1..] == hashes[i + 1..];
        ok := Evict(hashes[i], deleteOk(hashes[i]));
        if !ok {
          return false;
        }
      }
      return true;
    }

    /** Evict until `incoming` more bytes fit the budget and, counting every victim as freed, the free-space floor. */
    method EnsureSpace(incoming: nat, now: int, diskFree: nat, deleteOk: string -> bool)
      returns (r: Result<seq<Candidate>, Fault>)
      requires Valid()
      modifies this`session, this`saved, catalog
      ensures Valid()
      ensures var plan := SpacePlan(cfg, old(catalog.Contents()), now, diskFree, incoming);
              if plan.Err? then r == Err(NoSpace(plan.error)) && World() == old(World())
              else
                var done := EvictAll(old(World()), Keys(plan.value.evict), deleteOk);
                && World() == done.world
                && r == if done.ok then Ok(plan.value.evict) else Err(Failed)
      ensures r.Ok? && NoOverflow(cfg, old(catalog.Contents()), incoming) ==>
                && Size(catalog.torrents) + incoming <= cfg.budget
                && incoming + cfg.minFree <= Total(r.value) + diskFree
                && (incoming + cfg.minFree <= DeletedBytes(old(session), session, r.value) + diskFree
                    <==> LeftBytes(old(session), r.value) <= Total(r.value) + diskFree - (incoming + cfg.minFree))
                && forall row :: row in old(catalog.torrents) && ProtectedRow(cfg, old(catalog.Contents()), now, row)
                     ==> row in catalog.torrents
      ensures saved == MapsLeft(old(saved), old(session), session) && session.Keys <= old(session).Keys
    {
      ghost var before := World();
      var cands, used := catalog.Candidates(now, cfg.grace);
      var plan := MakePlan(cands, used, incoming, cfg.budget, ExtraNeeded(incoming, cfg.minFree, diskFree));
      if plan.Err? {
        return Err(NoSpace(plan.error));
      }
      var ok := EvictEach(Keys(plan.value.evict), deleteOk);
      if !ok {
        return Err(Failed);
      }
      if NoOverflow(cfg, before.tables, incoming) {
        MakingRoomIsSafe(cfg, before, now, diskFree, incoming, deleteOk);
        FloorMetIff(cfg, before, now, diskFree, incoming, deleteOk);
      }
      return Ok(plan.value.evict);
    }

    method Remove(id: string, deleteOk: bool) returns (r: Option<bool>)
      requires Valid()
      modifies this`session, this`saved, catalog
      ensures Valid() && r.Some? == RemoveMovie(old(World()), id, deleteOk).Some?
      ensures World() == if r.Some? then RemoveMovie(old(World()), id, deleteOk).value else old(World())
      ensures r.Some? ==> (r.value <==> id in old(catalog.movies))
      ensures saved == MapsLeft(old(saved), old(session), session)
    {
      var t := TorrentForMovie(catalog.torrents, id);
      if t.None? {
        var found := catalog.Delete(id);
        return Some(found);
      }
      if t.value.infoHash in session {
        if !deleteOk {
          return None;
        }
        session, saved := session - {t.value.infoHash}, saved - {t.value.infoHash};
      } else {
        assert session - {t.value.infoHash} == session;
      }
      var found := catalog.Delete(id);
      assert id in old(catalog.movies);
      return Some(true);
    }

    // ---- adding -----------------------------------------------------------------------------

    /**
      Adding a resolved movie, alone on the engine. A refusal before room is made changes
      nothing, one after it leaves what was evicted evicted; success stays within the budget,
      and the download starts paused exactly when the queue was full.
    */
    method AddMovie(req: AddRequest, now: int, diskFree: nat, deleteOk: string -> bool, addOk: bool, torrent: Torrent)
      returns (r: Result<(), Fault>)
      requires Valid()
      modifies this`session, this`saved, catalog
      ensures Valid()
      ensures Refusal(old(World()), old(pause), req).Some? ==>
                r == Err(Refusal(old(World()), old(pause), req).value) && World() == old(World())
      ensures Refusal(old(World()), old(pause), req).None? ==>
                var plan := SpacePlan(cfg, old(catalog.Contents()), now, diskFree, req.row.sizeBytes);
                if plan.Err? then r == Err(NoSpace(plan.error)) && World() == old(World())
                else
                  var done := EvictAll(old(World()), Keys(plan.value.evict), deleteOk);
                  if done.ok && addOk then r == Ok(()) && World() == Added(done.world, req, torrent, maxActive)
                  else r == Err(Failed) && World() == done.world
      ensures r.Ok? && NoOverflow(cfg, old(catalog.Contents()), req.row.sizeBytes) ==>
                Size(catalog.torrents) <= cfg.budget
      ensures saved == MapsLeft(old(saved), old(session), session)
    {
      if pause.Some? {
        return Err(Conflict);
      }
      var row, h := req.row, req.row.infoHash;
      var existing := TorrentForMovie(catalog.torrents, row.imdbId);
      if existing.Some? && existing.value.infoHash in session {
        return Err(Conflict);
      }
      if h in session {
        return Err(Conflict);
      }
      if row.private && req.fromMagnet {
        return Err(Invalid);
      }
      var made := EnsureSpace(row.sizeBytes, now, diskFree, deleteOk);
      if made.Err? {
        return Err(made.error);
      }
      if !addOk {
        return Err(Failed);
      }
      MapsLeftAdded(old(saved), old(session), session, h, StartedTorrent(World(), req, torrent, maxActive));
      StartAndRecord(req, torrent);
      return Ok(());
    }

    /** The download starts, paused when the queue is full, and is recorded. */
    method StartAndRecord(req: AddRequest, torrent: Torrent)
      requires Valid() && pause.None?
      modifies this`session, catalog
      ensures Valid() && World() == Added(old(World()), req, torrent, maxActive)
      ensures Size(catalog.torrents) <= old(Size(catalog.torrents)) + req.row.sizeBytes
    {
      var row := req.row;
      var paused := pause.Some? || QueueIsFull(session, maxActive);
      session := session[row.infoHash := torrent.(paused := paused, trackers := AddedTrackers(req))];
      catalog.Upsert(row.imdbId, req.movie);
      ghost var t := catalog.Contents();
      var inserted := catalog.Insert(row);
      assert inserted;
      Inserted(t, row);
    }

    // ---- the pause --------------------------------------------------------------------------

    /** The session's own pause and unpause calls. */
    method SwitchTorrent(h: string, paused: bool, ok: bool)
      requires h in session
      modifies this`session
      ensures session == if ok then SetPaused(old(session), h, paused) else old(session)
    {
      if ok {
        session := SetPaused(session, h, paused);
      }
    }

    /** The loaded torrents, in no particular order. */
    method Handles() returns (hs: seq<string>)
      ensures Distinct(hs) && forall h :: h in hs <==> h in session
    {
      hs := [];
      var todo := session.Keys;
      while todo != {}
        invariant Distinct(hs) && todo <= session.Keys
        invariant forall h :: h in hs <==> h in session && h !in todo
        decreases todo
      {
        var h :| h in todo;
        todo := todo - {h};
        hs := hs + [h];
      }
    }

    /** Pause every loaded torrent that is not paused yet. */
    method PauseEverything(ok: string -> bool) returns (n: nat)
      modifies this`session
      ensures session == ApplyPause(old(session), ok)
      ensures n == |NewlyPaused(old(session), ok)|
    {
      n := 0;
      ghost var before := session;
      var handles := Handles();
      assert handles[..0] == [];
      PausedOnNone(before, ok);
      for i := 0 to |handles|
        invariant session == PausedOn(before, handles[..i], ok) && n == PausedCount(before, handles[..i], ok)
      {
        var h := handles[i];
        PausedOnStep(before, handles[..i], h, ok);
        assert handles[..i + 1] == handles[..i] + [h];
        if !session[h].paused {
          SwitchTorrent(h, true, ok(h));
          if ok(h) {
            n := n + 1;
          }
        }
      }
      assert handles[..|handles|] == handles;
      PausedOnAll(before, handles, ok);
    }

    method PauseByHand(now: int, duration: Option<nat>, indefinite: bool, storeOk: bool, ok: string -> bool)
      returns (r: Result<PauseState, Fault>)
      modifies this`session, this`pause, this`pauseFile
      ensures var d := if duration.Some? then duration.value else defaultPause;
              && Core() == PauseAll(old(Core()), now, d, indefinite, storeOk)
              && (r.Ok? <==> PauseAccepted(old(Core()), d, indefinite, storeOk))
              && (r.Ok? ==> pause == Some(r.value) && r.value == NewPause(old(Core()), now, d, indefinite))
      ensures session == if r.Ok? then ApplyPause(old(session), ok) else old(session)
    {
      var d := if duration.Some? then duration.value else defaultPause;
      if !indefinite && (d == 0 || d > LONGEST) {
        return Err(Invalid);
      }
      var since := if pause.Some? then pause.value.since else now;
      var st := PauseState(since, if indefinite then None else Some(now + d / NANOS), Manual);
      if !diskMissing {
        if !storeOk {
          return Err(Failed);
        }
        pauseFile := Some(st);
      }
      pause := Some(st);
      var n := PauseEverything(ok);
      return Ok(st);
    }

    /** Lift the pause and restart through the queue. */
    method Resume(removeOk: bool, ok: string -> bool) returns (r: Result<nat, Fault>)
      requires Valid()
      modifies this`session, this`pause, this`pauseFile
      ensures Core() == ResumeAll(old(Core()), removeOk)
      ensures r.Err? <==> old(diskMissing)
      ensures if old(diskMissing) || old(pause).None? then session == old(session) && (r.Ok? ==> r.value == 0)
              else
                var b := Balance(QueueOrder(catalog.torrents), old(session), maxActive, keepSeeding, ok);
                session == b.session && r == Ok(b.started)
    {
      if diskMissing {
        return Err(Conflict);
      }
      if pause.None? {
        return Ok(0);
      }
      pause := None;
      if removeOk {
        pauseFile := None;
      }
      var n := BalanceQueue(ok);
      return Ok(n);
    }

    method PauseForDisk(now: int, ok: string -> bool)
      modifies this`session, this`pause
      ensures Core() == PauseForMissingDisk(old(Core()), now)
      ensures session == if old(pause).Some? then old(session) else ApplyPause(old(session), ok)
    {
      if pause.Some? {
        return;
      }
      pause := Some(PauseState(now, None, DiskMissing));
      var n := PauseEverything(ok);
    }

    /**
      The periodic check. Whenever it leaves the engine paused, and the session's pause calls
      succeed, no torrent is left running; otherwise it leaves the queue balanced.
    */
    method Check(now: int, diskOk: bool, removeOk: bool, ok: string -> bool)
      requires Valid()
      modifies this`session, this`pause, this`pauseFile, this`diskMissing
      ensures Core() == CheckPause(old(Core()), now, diskOk, removeOk)
      ensures session == if pause.Some? then ApplyPause(old(session), ok)
                         else Balance(QueueOrder(catalog.torrents), old(session), maxActive, keepSeeding, ok).session
      ensures pause.Some? && AllOk(ok) ==> AllPaused(session)
    {
      diskMissing := !diskOk;
      match DiskActionFor(diskOk, ReasonOf(pause)) {
        case PauseForDisk =>
          PauseForDisk(now, ok);
          return;
        case ResumeFromDisk =>
          var r := Resume(removeOk, ok);
          return;
        case Nothing =>
      }
      if pause.None? {
        var n := BalanceQueue(ok);
      } else if diskOk && pause.value.until.Some? && now >= pause.value.until.value {
        var r := Resume(removeOk, ok);
      } else {
        var n := PauseEverything(ok);
      }
    }

    // ---- the queue --------------------------------------------------------------------------

    /** Run at most `maxActive` unfinished torrents, oldest first. Does nothing while paused. */
    method BalanceQueue(ok: string -> bool) returns (started: nat)
      requires Valid()
      modifies this`session
      ensures var b := Balance(QueueOrder(catalog.torrents), old(session), maxActive, keepSeeding, ok);
              if pause.Some? then session == old(session) && started == 0
              else session == b.session && started == b.started
    {
      started := 0;
      if pause.Some? {
        return;
      }
      var order := QueueOrder(catalog.torrents);
      var slot := 0;
      ghost var before := session;
      assert order[0..] == order;
      for i := 0 to |order|
        invariant var b := Balance(order, before, maxActive, keepSeeding, ok);
                  var rest := BalanceFrom(order[i..], session, slot, maxActive, keepSeeding, ok);
                  b.session == rest.session && b.started == started + rest.started
      {
        var h := order[i];
        assert order[i..][0] == h && order[i..][1..] == order[i + 1..];
        if h !in session || session[h].error {
          continue;
        }
        var wantRunning := keepSeeding;
        if !session[h].finished {
          slot := slot + 1;
          wantRunning := Fits(slot, maxActive);
        }
        if wantRunning && session[h].paused {
          if ok(h) {
            session := SetPaused(session, h, false);
            started := started + 1;
          }
        } else if !wantRunning && !session[h].paused && !session[h].finished {
          if ok(h) {
            session := SetPaused(session, h, true);
          }
        }
      }
    }

    /**
      A download has finished: its row is marked, it stops unless seeding goes on, and the
      slot it held goes to the next in the queue.
    */
    method FinishDownload(h: string, now: int, markOk: bool, pauseOk: bool, ok: string -> bool)
      requires Valid() && h in session && session[h].finished
      modifies this`session, catalog
      ensures Valid()
      ensures var before := old(catalog.Contents());
              catalog.Contents() == if markOk then MarkComplete(before, h, now) else before
      ensures var stopped := if pauseOk then Complete(old(session), h, keepSeeding) else old(session);
              session == if pause.Some? then stopped
                         else Balance(QueueOrder(catalog.torrents), stopped, maxActive, keepSeeding, ok).session
    {
      if markOk {
        catalog.CompleteTorrent(h, now);
      }
      assert session[h := session[h]] == session;
      if !keepSeeding && !session[h].paused {
        SwitchTorrent(h, true, pauseOk);
      }
      var n := BalanceQueue(ok);
    }

    // ---- stalled downloads --------------------------------------------------------------------

    /** One row of a sweep: update the row's entry, and tell whether its download has stalled. */
    method ScanRow(row: TorrentRow, now: int, ghost sight: Sight) returns (stalls: bool)
      requires stallTimeout > 0 && sight == SightOfRow(catalog.Contents(), session, row, now, cfg.grace)
      modifies this`progressSeen
      ensures progressSeen == MarkRow(old(progressSeen), row.infoHash, Some(sight), now)
      ensures stalls == IsStalled(Get(old(progressSeen), row.infoHash), Some(sight), now, stallTimeout)
    {
      var h := row.infoHash;
      if h !in session {
        assert h !in progressSeen ==> progressSeen - {h} == progressSeen;
        assert h in progressSeen ==> progressSeen[h := progressSeen[h]] == progressSeen;
        return false;
      }
      if session[h].finished || session[h].paused {
        progressSeen := progressSeen - {h};
        return false;
      }
      var p := session[h].progress;
      if h !in progressSeen {
        progressSeen := progressSeen[h := Mark(p, now)];
      }
      if p > progressSeen[h].bytes {
        progressSeen := progressSeen[h := Mark(p, now)];
        return false;
      }
      assert progressSeen[h := progressSeen[h]] == progressSeen;
      var lastUsed := if row.imdbId in catalog.movies then catalog.movies[row.imdbId].lastUsedAt else 0;
      return now - progressSeen[h].at >= stallTimeout && !IsProtected(lastUsed, now, cfg.grace);
    }

    /** What `w` says of these rows is what the session and the catalog show. */
    ghost predicate Sees(w: Sweep, rows: seq<TorrentRow>)
      reads this, catalog
    {
      forall i :: 0 <= i < |rows| ==>
        SightOf(w, rows[i].infoHash) == Some(SightOfRow(catalog.Contents(), session, rows[i], w.now, cfg.grace))
    }

    /** The sweep's pass over the rows; `w` is what it sees of them. */
    method ScanRows(rows: seq<TorrentRow>, now: int, ghost w: Sweep) returns (stalled: seq<string>)
      requires stallTimeout > 0 && UniqueHashes(rows) && w.now == now
      requires Sees(w, rows)
      modifies this`progressSeen
      ensures progressSeen == ScanFold(old(progressSeen), w, Hashes(rows))
      ensures stalled == StalledList(old(progressSeen), w, Hashes(rows), stallTimeout)
    {
      stalled := [];
      ghost var before := progressSeen;
      ghost var hashes := Hashes(rows);
      for i := 0 to |rows|
        invariant Sees(w, rows)
        invariant progressSeen == ScanFold(before, w, hashes[..i])
        invariant stalled == StalledList(before, w, hashes[..i], stallTimeout)
      {
        var row := rows[i];
        assert hashes[i] == row.infoHash && hashes[..i + 1][..i] == hashes[..i];
        ScanFoldEntry(before, w, hashes[..i], row.infoHash);
        var stalls := ScanRow(row, now, SightOf(w, row.infoHash).value);
        if stalls {
          stalled := stalled + [row.infoHash];
        }
      }
      assert hashes[..|rows|] == hashes;
    }

    /** One sweep: forget the hashes without a row, update the map, and list what has stalled. */
    method ScanStalled(now: int) returns (stalled: seq<string>)
      requires Valid()
      modifies this`progressSeen
      ensures var w := View(catalog.Contents(), session, now, cfg.grace);
              if stallTimeout == 0 then stalled == [] && progressSeen == old(progressSeen)
              else
                && progressSeen == SeenAfter(old(progressSeen), w)
                && stalled == StalledList(old(progressSeen), w, Hashes(catalog.torrents), stallTimeout)
      ensures stallTimeout > 0 ==>
                ListsStuck(catalog.Contents(), session, old(progressSeen), now, cfg.grace, stallTimeout, stalled)
    {
      if stallTimeout == 0 {
        return [];
      }
      ghost var before := progressSeen;
      ghost var w := View(catalog.Contents(), session, now, cfg.grace);
      var rows := catalog.torrents;
      progressSeen := map h | h in progressSeen && h in Hashes(rows) :: progressSeen[h];
      ghost var retained := progressSeen;
      AllSightsOfTable(catalog.Contents(), session, now, cfg.grace);
      stalled := ScanRows(rows, now, w);
      ViewSights(catalog.Contents(), session, now, cfg.grace);
      StalledListSame(before, retained, w, Hashes(rows), stallTimeout);
      FoldIsSeenAfter(before, retained, w, Hashes(rows));
      StuckAreListed(catalog.Contents(), session, before, now, cfg.grace, stallTimeout);
    }

    /** Evict what has stalled. */
    method EvictStalled(now: int, deleteOk: string -> bool) returns (r: Result<seq<string>, Fault>)
      requires Valid()
      modifies this`progressSeen, this`session, this`saved, catalog
      ensures Valid()
      ensures var w := View(old(catalog.Contents()), old(session), now, cfg.grace);
              var list := if stallTimeout == 0 then [] else
                StalledList(old(progressSeen), w, Hashes(old(catalog.torrents)), stallTimeout);
              var done := EvictAll(old(World()), list, deleteOk);
              World() == done.world && r == if done.ok then Ok(list) else Err(Failed)
      ensures saved == MapsLeft(old(saved), old(session), session) && session.Keys <= old(session).Keys
    {
      ghost var before := World();
      var list := ScanStalled(now);
      assert World() == before;
      var ok := EvictEach(list, deleteOk);
      return if ok then Ok(list) else Err(Failed);
    }

    // ---- reloading ------------------------------------------------------------------------------

    /** Restart one torrent with fresh options, carrying its piece map across. */
    method ReloadTorrent(row: TorrentRow, public: seq<string>, env: ReloadEnv) returns (ok: bool)
      modifies this`session, this`saved
      ensures var r := ReloadOne(Loaded(old(session), old(saved)), row.infoHash, row.private, public, env);
              Loaded(session, saved) == r.loaded && ok == r.ok
    {
      var h := row.infoHash;
      if h !in session {
        return true;
      }
      ghost var l := Loaded(session, saved);
      var wasPaused := session[h].paused;
      var t := session[h];
      if !wasPaused {
        t := t.(paused := env.pauseOk, haves := t.haves + env.arrived);
      }
      var pieces := if env.mapRead then Some(t.haves) else None;
      if !t.paused {
        t := t.(haves := t.haves + env.late);
      }
      session := session[h := t];
      assert t == BeforeDelete(l.session[h], env).(haves := FinalHaves(l.session[h], env));
      if !env.sourceOk || !env.deleteOk {
        return false;
      }
      UpdateThenRemove(l.session, h, t);
      session, saved := session - {h}, saved - {h};
      if pieces.Some? {
        if !env.writeOk {
          return false;
        }
        saved := saved[h := pieces.value];
      }
      if !env.addOk {
        return false;
      }
      var haves := if h in saved then saved[h] else env.rechecked;
      var trackers := TrackersFor(row.private, public);
      session := session[h := Torrent(wasPaused, t.finished, false, t.progress, haves, trackers)];
      return true;
    }

    /** Restart the torrents that are still downloading so that they pick up new trackers. */
    method ReannounceActive(private: string -> bool, public: seq<string>, env: string -> ReloadEnv) returns (n: nat,
                            ok: bool)
      modifies this`session, this`saved
      ensures var r := if pause.Some? then Reannounced(Loaded(old(session), old(saved)), 0, true)
                       else Reannounce(Loaded(old(session), old(saved)), catalog.torrents, private, public, env);
              Loaded(session, saved) == r.loaded && n == r.n && ok == r.ok
    {
      n, ok := 0, true;
      if pause.Some? {
        return;
      }
      ghost var l := Loaded(session, saved);
      var rows := catalog.torrents;
      for i := 0 to |rows|
        invariant ok && Reannounced(Loaded(session, saved), n, ok) == Reannounce(l, rows[..i], private, public, env)
      {
        ReannounceNext(l, rows, i, private, public, env);
        var h := rows[i].infoHash;
        if !Active(session, h, private) {
          continue;
        }
        ok := ReloadTorrent(rows[i], public, env(h));
        if !ok {
          ReannounceStops(l, rows, i + 1, private, public, env);
          return;
        }
        n := n + 1;
      }
      assert rows[..|rows|] == rows;
    }

    /** Change a movie's limits in its row, then reload it with them. */
    method SetMovieLimits(id: string, download: Option<nat>, upload: Option<nat>, peers: Option<nat>,
                          public: seq<string>, env: ReloadEnv) returns (r: Result<(), Fault>)
      requires Valid()
      modifies this`session, this`saved, catalog
      ensures old(diskMissing) ==> r == Err(Conflict) && World() == old(World()) && saved == old(saved)
      ensures !old(diskMissing) ==>
                var t := TorrentForMovie(old(catalog.torrents), id);
                if t.None? then r == Err(NotFound) && World() == old(World()) && saved == old(saved)
                else
                  var h := t.value.infoHash;
                  var done := ReloadOne(Loaded(old(session), old(saved)), h, t.value.private, public, env);
                  && catalog.Contents() == SetLimits(old(catalog.Contents()), h, download, upload, peers)
                  && Loaded(session, saved) == done.loaded
                  && r == if done.ok then Ok(()) else Err(Failed)
    {
      if diskMissing {
        return Err(Conflict);
      }
      var t := TorrentForMovie(catalog.torrents, id);
      if t.None? {
        return Err(NotFound);
      }
      var h := t.value.infoHash;
      catalog.LimitTorrent(h, download, upload, peers);
      var row := t.value.(downloadLimit := download, uploadLimit := upload, peerLimit := peers);
      var ok := ReloadTorrent(row, public, env);
      return if ok then Ok(()) else Err(Failed);
    }

    /** Delete what the catalog does not know. */
    method DropOrphans(env: BootEnv)
      modifies this`session, this`saved
      ensures session == KeepKnown(old(session), catalog.torrents, env)
      ensures saved == MapsLeft(old(saved), old(session), session)
    {
      ghost var before := session;
      var rows := catalog.torrents;
      var todo := session.Keys;
      while todo != {}
        invariant todo <= before.Keys
        invariant session == map h | h in before && (h in todo || h in Hashes(rows) || !env.deleteOk(h)) :: before[h]
        invariant saved == MapsLeft(old(saved), before, session)
        decreases todo
      {
        var h :| h in todo;
        todo := todo - {h};
        if h !in Hashes(rows) && env.deleteOk(h) {
          session, saved := session - {h}, saved - {h};
        }
      }
    }

    /** Make the session and the catalog agree after a restart. */
    method ReconcileSession(public: seq<string>, env: BootEnv)
      modifies this`session, this`saved
      ensures session == Reconciled(old(session), catalog.torrents, pause.Some?, public, env)
      ensures saved == MapsLeft(old(saved), old(session), session)
    {
      var inSession := session;
      var rows := catalog.torrents;
      DropOrphans(env);
      ghost var kept := session;
      for i := 0 to |rows|
        invariant session == AddMissing(kept, inSession, rows[..i], pause.Some?, public, env)
        invariant saved == MapsLeft(old(saved), inSession, kept)
      {
        var row := rows[i];
        assert rows[..i + 1][..i] == rows[..i];
        if row.infoHash !in inSession && env.sourceOk(row.infoHash) && env.addOk(row.infoHash) {
          session := session[row.infoHash := ReAdded(row, pause.Some?, public, env)];
        }
      }
      assert rows[..|rows|] == rows;
      AddMissingKeys(kept, inSession, rows, pause.Some?, public, env);
      MapsLeftSame(old(saved), inSession, kept, session);
    }
  }

  lemma MapsLeftSame(saved: map<string, set<nat>>, before: Session, a: Session, b: Session)
    requires forall h :: h in before ==> (h in a <==> h in b)
    ensures MapsLeft(saved, before, a) == MapsLeft(saved, before, b)
  {
  }

  /** Adding a torrent that was not there before touches no piece map. */
  lemma MapsLeftAdded(saved: map<string, set<nat>>, before: Session, after: Session, h: string, t: Torrent)
    requires h !in before
    ensures MapsLeft(saved, before, after[h := t]) == MapsLeft(saved, before, after)
  {
  }

  /** An add keeps private rows free of public trackers; so does any eviction, and an empty engine starts so. */
  lemma AddStaysPrivate(w: World, req: AddRequest, t: Torrent, max: Option<nat>)
    requires PrivateSafe(w.session, w.tables.torrents)
    ensures var w' := Added(w, req, t, max); PrivateSafe(w'.session, w'.tables.torrents)
  {
    var w' := Added(w, req, t, max);
    forall r | r in w'.tables.torrents && r.private && r.infoHash in w'.session
      ensures w'.session[r.infoHash].trackers.None?
    {
      if r != req.row.(completedAt := None) {
        assert r in w.tables.torrents && r.infoHash != req.row.infoHash;
      }
    }
  }

  /**
    An add is turned away as a conflict exactly when the engine is paused, the torrent is
    loaded, or the movie's newest torrent is; as invalid exactly when it is otherwise
    acceptable but a private torrent from a magnet link.
  */
  lemma RefusalIff(w: World, pause: Option<PauseState>, req: AddRequest)
    ensures var newest := TorrentForMovie(w.tables.torrents, req.row.imdbId);
            var conflict := pause.Some? || req.row.infoHash in w.session
                            || (newest.Some? && newest.value.infoHash in w.session);
            && (Refusal(w, pause, req) == Some(Conflict) <==> conflict)
            && (Refusal(w, pause, req) == Some(Invalid) <==> !conflict && req.row.private && req.fromMagnet)
            && (Refusal(w, pause, req) == None <==> !conflict && !(req.row.private && req.fromMagnet))
  {
  }

  /** Every movie owns at most one torrent. */
  ghost predicate OneEach(rows: seq<TorrentRow>)
  {
    forall a, b :: a in rows && b in rows && a.imdbId == b.imdbId ==> a == b
  }

  /**
    Where movies own one torrent each, an add goes on exactly if the engine is not paused,
    neither the torrent nor any of its movie is loaded, and it is no private torrent from a
    magnet link.
  */
  lemma AddGoesOnIff(w: World, pause: Option<PauseState>, req: AddRequest)
    requires OneEach(w.tables.torrents)
    ensures Refusal(w, pause, req) == None
       <==> && pause.None? && req.row.infoHash !in w.session && !(req.row.private && req.fromMagnet)
            && forall r :: r in w.tables.torrents && r.imdbId == req.row.imdbId ==> r.infoHash !in w.session
  {
    RefusalIff(w, pause, req);
  }

  /**
    An accepted add, in the tables' and the session's own terms: the torrent is loaded,
    paused exactly when as many others are active as the maximum allows, with the public
    trackers exactly if it is public and there are any; the movie has the new data and the
    time it was first added; the row is there, not yet complete; nothing else changes.
  */
  lemma AddedExactly(w: World, req: AddRequest, t: Torrent, max: Option<nat>)
    ensures var w' := Added(w, req, t, max);
            var h, id := req.row.infoHash, req.row.imdbId;
            && w'.session.Keys == w.session.Keys + {h}
            && (forall x :: x in w.session && x != h ==> w'.session[x] == w.session[x])
            && (w'.session[h].paused <==> max.Some? && max.value <= |ActiveSet(w.session)|)
            && w'.session[h].trackers == (if req.row.private || req.public == [] then None else Some(req.public))
            && w'.session[h].finished == t.finished && w'.session[h].haves == t.haves
            && w'.tables.movies.Keys == w.tables.movies.Keys + {id}
            && w'.tables.movies[id].title == req.movie.title
            && w'.tables.movies[id].lastUsedAt == req.movie.lastUsedAt
            && w'.tables.movies[id].addedAt
               == (if id in w.tables.movies then w.tables.movies[id].addedAt else req.movie.addedAt)
            && (forall x :: x in w.tables.movies && x != id ==> w'.tables.movies[x] == w.tables.movies[x])
            && (forall r :: r in w'.tables.torrents <==>
                  r == req.row.(completedAt := None) || (r in w.tables.torrents && r.infoHash != h))
  {
  }

  lemma {:induction false} EvictionStaysPrivate(w: World, hashes: seq<string>, deleteOk: string -> bool)
    requires PrivateSafe(w.session, w.tables.torrents)
    ensures var w' := EvictAll(w, hashes, deleteOk).world; PrivateSafe(w'.session, w'.tables.torrents)
    decreases |hashes|
  {
    if hashes != [] {
      var next := EvictOne(w, hashes[0], deleteOk(hashes[0]));
      if next.Some? {
        EvictionStaysPrivate(next.value, hashes[1..], deleteOk);
      }
    }
  }

  lemma Inserted(t: Tables, row: TorrentRow)
    requires InsertTorrent(t, row).Some?
    ensures var t' := InsertTorrent(t, row).value;
            row.(completedAt := None) in t'.torrents && Size(t'.torrents) <= Size(t.torrents) + row.sizeBytes
  {
    var kept := WithoutHash(t.torrents, row.infoHash);
    SizeWithoutHash(t.torrents, row.infoHash);
    SizeAppend(kept, [row.(completedAt := None)]);
  }

  lemma {:induction false} ScanFoldEntry(seen: map<string, Mark>, w: Sweep, hashes: seq<string>, h: string)
    requires Distinct(hashes)
    ensures Get(ScanFold(seen, w, hashes), h)
         == (if h in hashes then MarkStep(Get(seen, h), SightOf(w, h), w.now) else Get(seen, h))
  {
    if hashes != [] {
      var n := |hashes| - 1;
      ScanFoldEntry(seen, w, hashes[..n], h);
      assert hashes == hashes[..n] + [hashes[n]];
      assert hashes[n] !in hashes[..n];
    }
  }

  /** The session once the torrents of `done` have been visited. */
  ghost function PausedOn(s: Session, done: seq<string>, ok: string -> bool): Session
  {
    map h | h in s :: if h in done && ok(h) then s[h].(paused := true) else s[h]
  }

  ghost function PausedCount(s: Session, done: seq<string>, ok: string -> bool): nat
  {
    if done == [] then 0
    else
      var h := done[|done| - 1];
      PausedCount(s, done[..|done| - 1], ok) + if h in s && !s[h].paused && ok(h) then 1 else 0
  }

  lemma PausedOnNone(s: Session, ok: string -> bool)
    ensures PausedOn(s, [], ok) == s
  {
  }

  lemma PausedOnStep(s: Session, done: seq<string>, h: string, ok: string -> bool)
    requires h in s && h !in done
    ensures var p := PausedOn(s, done, ok);
            && h in p && p[h] == s[h]
            && PausedOn(s, done + [h], ok) == (if s[h].paused || !ok(h) then p else SetPaused(p, h, true))
    ensures PausedCount(s, done + [h], ok) == PausedCount(s, done, ok) + if s[h].paused || !ok(h) then 0 else 1
  {
    assert (done + [h])[..|done|] == done;
    assert s[h].paused ==> s[h].(paused := true) == s[h];
  }

  lemma {:induction false} PausedCountIs(s: Session, done: seq<string>, ok: string -> bool)
    requires Distinct(done)
    ensures PausedCount(s, done, ok) == |set h | h in done && h in s && !s[h].paused && ok(h)|
  {
    var ofHashes := (d: seq<string>) => set h | h in d && h in s && !s[h].paused && ok(h);
    if done == [] {
      assert ofHashes(done) == {};
    } else {
      var h, init := done[|done| - 1], done[..|done| - 1];
      PausedCountIs(s, init, ok);
      assert done == init + [h];
      if h in s && !s[h].paused && ok(h) {
        assert ofHashes(done) == ofHashes(init) + {h};
      } else {
        assert ofHashes(done) == ofHashes(init);
      }
    }
  }

  lemma PausedOnAll(s: Session, handles: seq<string>, ok: string -> bool)
    requires Distinct(handles) && forall h :: h in handles <==> h in s
    ensures PausedOn(s, handles, ok) == ApplyPause(s, ok)
    ensures PausedCount(s, handles, ok) == |NewlyPaused(s, ok)|
  {
    PausedCountIs(s, handles, ok);
    assert NewlyPaused(s, ok) == set h | h in handles && h in s && !s[h].paused && ok(h);
  }

  lemma UpdateThenRemove<V>(m: map<string, V>, h: string, v: V)
    ensures m[h := v] - {h} == m - {h}
  {
  }

  /** Only the entries of listed hashes matter. */
  lemma {:induction false} StalledListSame(a: map<string, Mark>, b: map<string, Mark>, w: Sweep, hashes: seq<string>,
                                           timeout: nat)
    requires forall h :: h in hashes ==> Get(a, h) == Get(b, h)
    ensures StalledList(a, w, hashes, timeout) == StalledList(b, w, hashes, timeout)
  {
    if hashes != [] {
      var n := |hashes| - 1;
      assert hashes[n] in hashes && forall h :: h in hashes[..n] ==> h in hashes;
      StalledListSame(a, b, w, hashes[..n], timeout);
    }
  }

  /** Row by row, the sweep arrives at the map that the whole view determines. */
  lemma FoldIsSeenAfter(before: map<string, Mark>, retained: map<string, Mark>, w: Sweep, hashes: seq<string>)
    requires Distinct(hashes) && retained.Keys <= HashSet(hashes)
    requires forall h :: h in hashes ==> Get(retained, h) == Get(before, h)
    requires forall h :: h in w.sights <==> h in hashes
    ensures ScanFold(retained, w, hashes) == SeenAfter(before, w)
  {
    var after, expected := ScanFold(retained, w, hashes), SeenAfter(before, w);
    forall h ensures Get(after, h) == Get(expected, h) {
      ScanFoldEntry(retained, w, hashes, h);
      SeenAfterEntry(before, w, h);
    }
    SameEntries(after, expected);
  }

  lemma SameEntries(a: map<string, Mark>, b: map<string, Mark>)
    requires forall h :: Get(a, h) == Get(b, h)
    ensures a == b
  {
    assert forall h :: h in a <==> Get(a, h).Some?;
    assert forall h :: h in b <==> Get(b, h).Some?;
    forall h | h in a ensures a[h] == b[h] {
      assert Get(a, h) == Get(b, h);
    }
  }
}
