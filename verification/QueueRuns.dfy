/**
  The bound on running downloads over whole runs of the engine's operations, one after the
  other: adds, evictions, completions, pauses, balancing passes and restarts, in any order,
  each as one step. What their interleaving does to the bound is the subject of `Slots`.
*/
module QueueRuns {
  import opened CatalogStore
  import opened Eviction
  import opened Pause
  import opened Queue
  import opened Reload
  import opened TorrentEngine
  import opened TorrentSession
  import opened Wrappers

  /**
    What happens to the session. `Leave` is an eviction or removal, `Change` a torrent's own
    progress or its reload, after which it may be unfinished again, `Pass` a balancing pass
    over these rows, as every check, resume and completion makes one, and `Boot` a restart
    that loads this session.
  */
  datatype QueueEvent =
    | Start(h: string, t: Torrent)
    | Leave(hashes: set<string>)
    | Change(h: string, t: Torrent)
    | Finish(h: string)
    | PauseLoaded
    | Pass(rows: seq<TorrentRow>)
    | Boot(restored: Session, rows: seq<TorrentRow>, paused: bool, env: BootEnv)

  datatype QueueConfig = QueueConfig(max: nat, keepSeeding: bool)

  /** One event, with session calls that succeed. */
  function QueueStep(cfg: QueueConfig, s: Session, e: QueueEvent): Session
  {
    match e
    case Start(h, t) => if h in s then s else s[h := t.(paused := QueueIsFull(s, Some(cfg.max)))]
    case Leave(hashes) => s - hashes
    case Change(h, t) =>
      if h in s then s[h := t.(paused := s[h].paused)] else s
    case Finish(h) => if h in s then Complete(s, h, cfg.keepSeeding) else s
    case PauseLoaded => ApplyPause(s, _ => true)
    case Pass(rows) => Balance(QueueOrder(rows), s, Some(cfg.max), cfg.keepSeeding, _ => true).session
    case Boot(restored, rows, paused, env) => Reconciled(restored, rows, paused, [], env)
  }

  function QueueRun(cfg: QueueConfig, s: Session, events: seq<QueueEvent>): Session
  {
    if events == [] then s else QueueStep(cfg, QueueRun(cfg, s, events[..|events| - 1]), events[|events| - 1])
  }

  predicate Within(cfg: QueueConfig, s: Session)
  {
    |ActiveSet(s)| <= cfg.max
  }

  /**
    The events that can break the bound, and when they do not: a running torrent turns
    unfinished, if a slot is free; a pass, if the torrents first in line leave room for those
    it does not govern; a restart, if what it keeps and what it adds fit together.
  */
  ghost predicate Fitting(cfg: QueueConfig, s: Session, e: QueueEvent)
  {
    match e
    case Change(h, t) =>
      h in s && !s[h].paused && s[h].finished && !t.finished ==> |ActiveSet(s)| < cfg.max
    case Pass(rows) => |Take(WaitingList(QueueOrder(rows), s), cfg.max)| + |Ungoverned(s, rows)| <= cfg.max
    case Boot(restored, rows, paused, env) =>
      |ActiveSet(KeepKnown(restored, rows, env))| + (if paused then 0 else |AddedUnfinished(restored, rows, env)|)
      <= cfg.max
    case _ => true
  }

  ghost predicate TableRows(e: QueueEvent)
  {
    e.Pass? || e.Boot? ==> UniqueHashes(e.rows)
  }

  lemma SubsetSize(a: set<string>, b: set<string>)
    requires a <= b
    ensures |a| <= |b|
  {
    assert b == a + (b - a);
  }

  lemma ChangeWithinIff(cfg: QueueConfig, s: Session, h: string, t: Torrent)
    requires Within(cfg, s)
    ensures Within(cfg, QueueStep(cfg, s, Change(h, t))) <==> Fitting(cfg, s, Change(h, t))
  {
    var s' := QueueStep(cfg, s, Change(h, t));
    if h in s && !s[h].paused && s[h].finished && !t.finished {
      assert ActiveSet(s') == ActiveSet(s) + {h} && h !in ActiveSet(s);
    } else {
      SubsetSize(ActiveSet(s'), ActiveSet(s));
    }
  }

  lemma StepWithinIff(cfg: QueueConfig, s: Session, e: QueueEvent)
    requires Within(cfg, s) && TableRows(e)
    ensures Within(cfg, QueueStep(cfg, s, e)) <==> Fitting(cfg, s, e)
  {
    var s' := QueueStep(cfg, s, e);
    match e {
      case Start(h, t) =>
        if h !in s {
          AddKeepsBound(s, h, t.(paused := QueueIsFull(s, Some(cfg.max))), cfg.max);
        }
      case Leave(_) => SubsetSize(ActiveSet(s'), ActiveSet(s));
      case Change(h, t) => ChangeWithinIff(cfg, s, h, t);
      case Finish(_) => SubsetSize(ActiveSet(s'), ActiveSet(s));
      case PauseLoaded => SubsetSize(ActiveSet(s'), ActiveSet(s));
      case Pass(rows) => ActiveCountAfterBalance(rows, s, cfg.max, cfg.keepSeeding, _ => true);
      case Boot(restored, rows, paused, env) => ReconcileActive(restored, rows, paused, [], env);
    }
  }

  lemma WithinNext(cfg: QueueConfig, s: Session, events: seq<QueueEvent>, n: nat)
    requires n < |events| && TableRows(events[n]) && Within(cfg, QueueRun(cfg, s, events[..n]))
    ensures Within(cfg, QueueRun(cfg, s, events[..n + 1])) <==> Fitting(cfg, QueueRun(cfg, s, events[..n]), events[n])
  {
    assert events[..n + 1][..n] == events[..n];
    StepWithinIff(cfg, QueueRun(cfg, s, events[..n]), events[n]);
  }

  /**
    Over any run of such operations the bound holds throughout if and only if it holds at the
    start and every one of them fits.
  */
  lemma BoundThroughoutIff(cfg: QueueConfig, s: Session, events: seq<QueueEvent>)
    requires forall i :: 0 <= i < |events| ==> TableRows(events[i])
    ensures (forall i: nat :: i <= |events| ==> Within(cfg, QueueRun(cfg, s, events[..i])))
       <==> Within(cfg, s) && forall i: nat :: i < |events| ==> Fitting(cfg, QueueRun(cfg, s, events[..i]), events[i])
  {
    ghost var holds := (i: nat) => i <= |events| && Within(cfg, QueueRun(cfg, s, events[..i]));
    ghost var fits := (i: nat) => i < |events| && Fitting(cfg, QueueRun(cfg, s, events[..i]), events[i]);
    forall i: nat | i < |events| && holds(i) ensures holds(i + 1) <==> fits(i) {
      WithinNext(cfg, s, events, i);
    }
    HoldsThroughoutIff(holds, fits, |events|);
    assert QueueRun(cfg, s, events[..0]) == s;
    assert forall i: nat :: i <= |events| ==> (holds(i) <==> Within(cfg, QueueRun(cfg, s, events[..i])));
    assert forall i: nat :: i < |events| ==> (fits(i) <==> Fitting(cfg, QueueRun(cfg, s, events[..i]), events[i]));
  }

  /** While every running torrent is a healthy row, each pass fits. */
  lemma GovernedPassFits(cfg: QueueConfig, s: Session, rows: seq<TorrentRow>)
    requires Ungoverned(s, rows) == {}
    ensures Fitting(cfg, s, Pass(rows))
  {
  }

  /** Nothing but passes over healthy rows, and none of them a restart or a return to unfinished. */
  ghost predicate Governed(s: Session, e: QueueEvent)
  {
    && !e.Boot? && (e.Pass? ==> UniqueHashes(e.rows) && Ungoverned(s, e.rows) == {})
    && (e.Change? && e.h in s && s[e.h].finished ==> e.t.finished)
  }

  /** Between restarts the bound holds as long as every running torrent is a healthy row when a pass is made. */
  lemma GovernedRunStaysWithin(cfg: QueueConfig, s: Session, events: seq<QueueEvent>)
    requires Within(cfg, s)
    requires forall i :: 0 <= i < |events| ==> Governed(QueueRun(cfg, s, events[..i]), events[i])
    ensures Within(cfg, QueueRun(cfg, s, events))
  {
    forall i | 0 <= i < |events|
      ensures TableRows(events[i]) && Fitting(cfg, QueueRun(cfg, s, events[..i]), events[i])
    {
      var at := QueueRun(cfg, s, events[..i]);
      assert Governed(at, events[i]);
      if events[i].Pass? {
        GovernedPassFits(cfg, at, events[i].rows);
      }
    }
    BoundThroughoutIff(cfg, s, events);
    assert events[..|events|] == events;
  }

  // ---- the engine's operations as events -----------------------------------------------------

  /** An accepted add is one start of the queue's runs. */
  lemma AddedIsStart(w: World, req: AddRequest, t: Torrent, cfg: QueueConfig)
    requires req.row.infoHash !in w.session
    ensures Added(w, req, t, Some(cfg.max)).session
         == QueueStep(cfg, w.session, Start(req.row.infoHash, t.(trackers := AddedTrackers(req))))
  {
  }

  /** An add with all the evictions it makes first, nothing else going on, keeps the bound. */
  lemma AddOperationStaysWithin(w: World, hashes: seq<string>, deleteOk: string -> bool, req: AddRequest, t: Torrent,
                                cfg: QueueConfig)
    requires Within(cfg, w.session) && req.row.infoHash !in w.session
    ensures Within(cfg, Added(EvictAll(w, hashes, deleteOk).world, req, t, Some(cfg.max)).session)
  {
    var made := EvictAll(w, hashes, deleteOk).world;
    EvictionIsLeave(w, hashes, deleteOk, cfg);
    StepWithinIff(cfg, w.session, Leave(w.session.Keys - made.session.Keys));
    AddedIsStart(made, req, t, cfg);
    StepWithinIff(cfg, made.session, Start(req.row.infoHash, t.(trackers := AddedTrackers(req))));
  }

  /** Any eviction, complete or cut short, is some torrents leaving. */
  lemma {:induction false} EvictionIsLeave(w: World, hashes: seq<string>, deleteOk: string -> bool, cfg: QueueConfig)
    ensures var s' := EvictAll(w, hashes, deleteOk).world.session;
            s'.Keys <= w.session.Keys && s' == QueueStep(cfg, w.session, Leave(w.session.Keys - s'.Keys))
    decreases |hashes|
  {
    var s' := EvictAll(w, hashes, deleteOk).world.session;
    if hashes != [] {
      var next := EvictOne(w, hashes[0], deleteOk(hashes[0]));
      if next.Some? {
        EvictionIsLeave(next.value, hashes[1..], deleteOk, cfg);
      }
    }
    assert s' == w.session - (w.session.Keys - s'.Keys);
  }
}
