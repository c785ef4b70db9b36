/**
  Deleting a torrent from the session and adding it again, either to change its options or
  to make the session agree with the catalog after a restart.
*/
module Reload {
  import opened CatalogStore
  import opened Eviction
  import opened Queue
  import opened TorrentSession
  import opened Wrappers

  /** The session and the piece maps it keeps on disk. */
  datatype Loaded = Loaded(session: Session, saved: map<string, set<nat>>)

  /**
    What happens during one reload: which calls succeed, the pieces that arrive before the
    map is read and, if the torrent could not be paused, after; and what a full re-check
    of the file would find.
  */
  datatype ReloadEnv = ReloadEnv(
    pauseOk: bool, arrived: set<nat>, mapRead: bool, late: set<nat>, sourceOk: bool, deleteOk: bool,
    writeOk: bool, addOk: bool, rechecked: set<nat>)

  /** Public trackers, unless the row is private. */
  function TrackersFor(private: bool, public: seq<string>): Option<seq<string>>
  {
    if private then None else Some(public)
  }

  /** The torrent when its piece map is read. */
  function BeforeDelete(t: Torrent, env: ReloadEnv): Torrent
  {
    t.(paused := t.paused || env.pauseOk, haves := if t.paused then t.haves else t.haves + env.arrived)
  }

  /** The pieces the torrent has when it is deleted. */
  function FinalHaves(t: Torrent, env: ReloadEnv): set<nat>
  {
    var b := BeforeDelete(t, env);
    if b.paused then b.haves else b.haves + env.late
  }

  datatype ReloadResult = ReloadResult(loaded: Loaded, ok: bool)

  /** Pause, read the map, delete (which discards the saved map), write the map back, add. */
  function ReloadOne(l: Loaded, h: string, private: bool, public: seq<string>, env: ReloadEnv): ReloadResult
  {
    if h !in l.session then ReloadResult(l, true)
    else
      var t := l.session[h];
      var b := BeforeDelete(t, env);
      if !env.sourceOk || !env.deleteOk then
        ReloadResult(l.(session := l.session[h := b.(haves := FinalHaves(t, env))]), false)
      else
        var session, saved := l.session - {h}, l.saved - {h};
        if env.mapRead && !env.writeOk then ReloadResult(Loaded(session, saved), false)
        else
          var saved' := if env.mapRead then saved[h := b.haves] else saved;
          if !env.addOk then ReloadResult(Loaded(session, saved'), false)
          else
            var haves := if h in saved' then saved'[h] else env.rechecked;
            var again := Torrent(t.paused, t.finished, false, t.progress, haves, TrackersFor(private, public));
            ReloadResult(Loaded(session[h := again], saved'), true)
  }

  /**
    A reload that succeeds keeps the paused flag and touches no other torrent; the piece set
    comes back exactly when the map read from memory was final, or, without a map, when the
    re-check finds the same pieces.
  */
  lemma ReloadPreserves(l: Loaded, h: string, private: bool, public: seq<string>, env: ReloadEnv)
    requires h in l.session && ReloadOne(l, h, private, public, env).ok
    ensures var l' := ReloadOne(l, h, private, public, env).loaded;
            && l'.session.Keys == l.session.Keys
            && l'.session - {h} == l.session - {h} && l'.saved - {h} == l.saved - {h}
            && l'.session[h].paused == l.session[h].paused
            && l'.session[h].finished == l.session[h].finished && l'.session[h].progress == l.session[h].progress
            && l'.session[h].trackers == (if private then None else Some(public))
            && (l'.session[h].haves == FinalHaves(l.session[h], env) <==>
                if env.mapRead then l.session[h].paused || env.pauseOk || env.late <= l.session[h].haves + env.arrived
                else env.rechecked == FinalHaves(l.session[h], env))
  {
    var t := l.session[h];
    var l' := ReloadOne(l, h, private, public, env).loaded;
    assert l'.session - {h} == l.session - {h};
    assert l'.saved - {h} == l.saved - {h};
    if env.mapRead && !t.paused && !env.pauseOk {
      var b := BeforeDelete(t, env).haves;
      assert b + env.late == b <==> env.late <= b;
    }
  }

  /** A paused torrent whose map can be read comes back as it was, whatever was saved on disk. */
  lemma PausedReloadIsExact(l: Loaded, h: string, private: bool, public: seq<string>, env: ReloadEnv)
    requires h in l.session && l.session[h].paused && env.mapRead
    requires ReloadOne(l, h, private, public, env).ok
    ensures var l' := ReloadOne(l, h, private, public, env).loaded;
            && l'.session[h].haves == l.session[h].haves && l'.session[h].paused
            && h in l'.saved && l'.saved[h] == l.session[h].haves
            && forall stale :: ReloadOne(l.(saved := stale), h, private, public, env).loaded.session == l'.session
  {
    forall stale: map<string, set<nat>>
      ensures ReloadOne(l.(saved := stale), h, private, public, env).loaded.session
           == ReloadOne(l, h, private, public, env).loaded.session
    {
    }
  }

  /**
    A failed reload loses the torrent from the session exactly when the deletion had gone
    through; one that stays is left paused if pausing it worked.
  */
  lemma FailedReloadLoses(l: Loaded, h: string, private: bool, public: seq<string>, env: ReloadEnv)
    requires h in l.session && !ReloadOne(l, h, private, public, env).ok
    ensures h !in ReloadOne(l, h, private, public, env).loaded.session <==> env.sourceOk && env.deleteOk
    ensures var s' := ReloadOne(l, h, private, public, env).loaded.session;
            s' - {h} == l.session - {h} && (h in s' ==> s'[h].paused == (l.session[h].paused || env.pauseOk))
  {
    var l' := ReloadOne(l, h, private, public, env).loaded;
    assert l'.session - {h} == l.session - {h};
  }

  // ---- re-announcing -------------------------------------------------------------------------

  /** Torrents that are re-announced: public, still downloading, not paused. */
  predicate Active(s: Session, h: string, private: string -> bool)
  {
    h in s && !private(h) && !s[h].finished && !s[h].paused
  }

  datatype Reannounced = Reannounced(loaded: Loaded, n: nat, ok: bool)

  /** Row by row; the first failing reload ends the pass. `private` is what the torrents' metadata says. */
  function Reannounce(l: Loaded, rows: seq<TorrentRow>, private: string -> bool, public: seq<string>,
                      env: string -> ReloadEnv): Reannounced
    decreases |rows|
  {
    if rows == [] then Reannounced(l, 0, true)
    else
      var row := rows[|rows| - 1];
      var h := row.infoHash;
      var before := Reannounce(l, rows[..|rows| - 1], private, public, env);
      if !before.ok || !Active(before.loaded.session, h, private) then before
      else
        var r := ReloadOne(before.loaded, h, row.private, public, env(h));
        Reannounced(r.loaded, before.n + if r.ok then 1 else 0, r.ok)
  }

  /** What the next row adds to the pass. */
  lemma ReannounceNext(l: Loaded, rows: seq<TorrentRow>, i: nat, private: string -> bool, public: seq<string>,
                       env: string -> ReloadEnv)
    requires i < |rows|
    ensures var before := Reannounce(l, rows[..i], private, public, env);
            var h := rows[i].infoHash;
            var r := ReloadOne(before.loaded, h, rows[i].private, public, env(h));
            Reannounce(l, rows[..i + 1], private, public, env)
            == if !before.ok || !Active(before.loaded.session, h, private) then before
               else Reannounced(r.loaded, before.n + if r.ok then 1 else 0, r.ok)
  {
    assert rows[..i + 1][..i] == rows[..i];
  }

  /** Once a reload has failed, the rows after it are not reached. */
  lemma {:induction false} ReannounceStops(l: Loaded, rows: seq<TorrentRow>, i: nat, private: string -> bool,
                                           public: seq<string>, env: string -> ReloadEnv)
    requires i <= |rows| && !Reannounce(l, rows[..i], private, public, env).ok
    ensures Reannounce(l, rows, private, public, env) == Reannounce(l, rows[..i], private, public, env)
    decreases |rows|
  {
    if i == |rows| {
      assert rows[..i] == rows;
    } else {
      assert rows[..|rows| - 1][..i] == rows[..i];
      ReannounceStops(l, rows[..|rows| - 1], i, private, public, env);
    }
  }

  /** The hashes of the rows whose torrents are active. */
  function ActiveOf(s: Session, rows: seq<TorrentRow>, private: string -> bool): set<string>
  {
    set h | h in Hashes(rows) && Active(s, h, private)
  }

  lemma ActiveOfSnoc(s: Session, rows: seq<TorrentRow>, private: string -> bool)
    requires rows != [] && UniqueHashes(rows)
    ensures var h, before := rows[|rows| - 1].infoHash, ActiveOf(s, rows[..|rows| - 1], private);
            && ActiveOf(s, rows, private) == (if Active(s, h, private) then before + {h} else before)
            && |ActiveOf(s, rows, private)| == |before| + (if Active(s, h, private) then 1 else 0)
  {
    HashesSnoc(rows);
  }

  /** A reload changes no torrent but its own. */
  lemma ReloadFrame(l: Loaded, h: string, private: bool, public: seq<string>, env: ReloadEnv, x: string)
    requires x != h
    ensures var s' := ReloadOne(l, h, private, public, env).loaded.session;
            (x in s' <==> x in l.session) && (x in s' ==> s'[x] == l.session[x])
  {
  }

  /** Only torrents that were active when the pass began are touched. */
  lemma {:induction false} ReannounceFrame(l: Loaded, rows: seq<TorrentRow>, private: string -> bool,
                                           public: seq<string>, env: string -> ReloadEnv, x: string)
    requires UniqueHashes(rows) && x !in ActiveOf(l.session, rows, private)
    ensures var s' := Reannounce(l, rows, private, public, env).loaded.session;
            (x in s' <==> x in l.session) && (x in s' ==> s'[x] == l.session[x])
    decreases |rows|
  {
    if rows != [] {
      var row, init := rows[|rows| - 1], rows[..|rows| - 1];
      ActiveOfSnoc(l.session, rows, private);
      ReannounceFrame(l, init, private, public, env, x);
      HashesSnoc(rows);
      ReannounceFrame(l, init, private, public, env, row.infoHash);
      var before := Reannounce(l, init, private, public, env);
      if x != row.infoHash {
        ReloadFrame(before.loaded, row.infoHash, row.private, public, env(row.infoHash), x);
      }
    }
  }

  /** What a re-announced torrent keeps: its flag, and its final pieces when it could be paused and read. */
  ghost predicate Carried(before: Torrent, after: Torrent, env: ReloadEnv)
  {
    && after.paused == before.paused
    && (env.mapRead && env.pauseOk ==> after.haves == FinalHaves(before, env))
  }

  /**
    A re-announce that succeeds reloads exactly the active torrents, once each; every one of
    them keeps its paused flag and its final pieces, and every other torrent is untouched.
  */
  lemma {:induction false} ReannounceExact(l: Loaded, rows: seq<TorrentRow>, private: string -> bool,
                                           public: seq<string>, env: string -> ReloadEnv)
    requires UniqueHashes(rows) && Reannounce(l, rows, private, public, env).ok
    ensures var r := Reannounce(l, rows, private, public, env);
            var active := ActiveOf(l.session, rows, private);
            && r.n == |active|
            && r.loaded.session.Keys == l.session.Keys
            && (forall h :: h in active ==> Carried(l.session[h], r.loaded.session[h], env(h)))
            && (forall h :: h in l.session && h !in active ==> r.loaded.session[h] == l.session[h])
    decreases |rows|
  {
    var r := Reannounce(l, rows, private, public, env);
    if rows != [] {
      var row, init := rows[|rows| - 1], rows[..|rows| - 1];
      var h := row.infoHash;
      var before := Reannounce(l, init, private, public, env);
      ReannounceExact(l, init, private, public, env);
      ActiveOfSnoc(l.session, rows, private);
      HashesSnoc(rows);
      ReannounceFrame(l, init, private, public, env, h);
      if Active(l.session, h, private) {
        ReloadPreserves(before.loaded, h, row.private, public, env(h));
        forall x | x != h ensures x in r.loaded.session <==> x in before.loaded.session
        {
          ReloadFrame(before.loaded, h, row.private, public, env(h), x);
        }
        forall x | x != h && x in before.loaded.session ensures r.loaded.session[x] == before.loaded.session[x]
        {
          ReloadFrame(before.loaded, h, row.private, public, env(h), x);
        }
      }
    }
  }

  /**
    What a re-announce that succeeds is for: a row's torrent that is loaded, public, neither
    finished nor paused gets the current trackers, unless the row is private; any other row's
    torrent is as it was.
  */
  lemma {:induction false} ReannounceUpdates(l: Loaded, rows: seq<TorrentRow>, private: string -> bool,
                                             public: seq<string>, env: string -> ReloadEnv, r: TorrentRow)
    requires UniqueHashes(rows) && r in rows && r.infoHash in l.session
    requires Reannounce(l, rows, private, public, env).ok
    ensures var h := r.infoHash;
            var t, s' := l.session[h], Reannounce(l, rows, private, public, env).loaded.session;
            && h in s'
            && if private(h) || t.finished || t.paused then s'[h] == t
               else s'[h].trackers == if r.private then None else Some(public)
    decreases |rows|
  {
    var row, init := rows[|rows| - 1], rows[..|rows| - 1];
    var h := r.infoHash;
    assert rows == init + [row];
    var before := Reannounce(l, init, private, public, env);
    if r == row {
      HashesSnoc(rows);
      ReannounceFrame(l, init, private, public, env, h);
      if Active(l.session, h, private) {
        ReloadPreserves(before.loaded, h, row.private, public, env(h));
      }
    } else {
      ReannounceUpdates(l, init, private, public, env, r);
      assert row.infoHash != h by {
        var i :| 0 <= i < |init| && init[i] == r;
      }
      ReloadFrame(before.loaded, row.infoHash, row.private, public, env(row.infoHash), h);
    }
  }

  // ---- reconciling after a restart -----------------------------------------------------------

  /** Which of the calls for each hash succeed, and the state a torrent loads in. */
  datatype BootEnv = BootEnv(
    deleteOk: string -> bool, sourceOk: string -> bool, addOk: string -> bool, loads: string -> Torrent)

  function ReAdded(row: TorrentRow, paused: bool, public: seq<string>, env: BootEnv): Torrent
  {
    env.loads(row.infoHash).(paused := paused, trackers := TrackersFor(row.private, public))
  }

  /** Orphans go unless their deletion fails. */
  function KeepKnown(s: Session, rows: seq<TorrentRow>, env: BootEnv): Session
  {
    map h | h in s && (h in Hashes(rows) || !env.deleteOk(h)) :: s[h]
  }

  /** Rows the session did not have when it started are added, in table order. */
  function AddMissing(s: Session, before: Session, rows: seq<TorrentRow>, paused: bool, public: seq<string>,
                      env: BootEnv): Session
    decreases |rows|
  {
    if rows == [] then s
    else
      var row, init := rows[|rows| - 1], rows[..|rows| - 1];
      var s' := AddMissing(s, before, init, paused, public, env);
      if row.infoHash in before || !env.sourceOk(row.infoHash) || !env.addOk(row.infoHash) then s'
      else s'[row.infoHash := ReAdded(row, paused, public, env)]
  }

  function Reconciled(s: Session, rows: seq<TorrentRow>, paused: bool, public: seq<string>, env: BootEnv): Session
  {
    AddMissing(KeepKnown(s, rows, env), s, rows, paused, public, env)
  }

  lemma HashesSnoc(rows: seq<TorrentRow>)
    requires rows != []
    ensures Hashes(rows) == Hashes(rows[..|rows| - 1]) + [rows[|rows| - 1].infoHash]
    ensures UniqueHashes(rows) ==> rows[|rows| - 1].infoHash !in Hashes(rows[..|rows| - 1])
  {
  }

  lemma {:induction false} AddMissingKeys(s: Session, before: Session, rows: seq<TorrentRow>, paused: bool,
                                          public: seq<string>, env: BootEnv)
    ensures var s' := AddMissing(s, before, rows, paused, public, env);
            forall h :: h in s' <==> h in s || (h in Hashes(rows) && h !in before && env.sourceOk(h) && env.addOk(h))
  {
    if rows != [] {
      AddMissingKeys(s, before, rows[..|rows| - 1], paused, public, env);
      HashesSnoc(rows);
    }
  }

  lemma {:induction false} AddMissingFrame(s: Session, before: Session, rows: seq<TorrentRow>, paused: bool,
                                           public: seq<string>, env: BootEnv)
    ensures var s' := AddMissing(s, before, rows, paused, public, env);
            forall h :: h in s && (h !in Hashes(rows) || h in before) ==> h in s' && s'[h] == s[h]
  {
    if rows != [] {
      AddMissingFrame(s, before, rows[..|rows| - 1], paused, public, env);
      HashesSnoc(rows);
    }
  }

  lemma {:induction false} AddMissingAdds(s: Session, before: Session, rows: seq<TorrentRow>, paused: bool,
                                          public: seq<string>, env: BootEnv, r: TorrentRow)
    requires UniqueHashes(rows) && r in rows
    requires r.infoHash !in before && env.sourceOk(r.infoHash) && env.addOk(r.infoHash)
    ensures var s' := AddMissing(s, before, rows, paused, public, env);
            r.infoHash in s' && s'[r.infoHash] == ReAdded(r, paused, public, env)
  {
    var row, init := rows[|rows| - 1], rows[..|rows| - 1];
    assert rows == init + [row];
    if r != row {
      assert r in init;
      var i :| 0 <= i < |init| && init[i] == r;
      assert rows[i].infoHash != row.infoHash;
      AddMissingAdds(s, before, init, paused, public, env, r);
    }
  }

  lemma AddMissingExact(s: Session, before: Session, rows: seq<TorrentRow>, paused: bool, public: seq<string>,
                        env: BootEnv)
    requires UniqueHashes(rows)
    ensures var s' := AddMissing(s, before, rows, paused, public, env);
            && (forall h ::
                  h in s' <==> h in s || (h in Hashes(rows) && h !in before && env.sourceOk(h) && env.addOk(h)))
            && (forall r :: r in rows && r.infoHash !in before && env.sourceOk(r.infoHash) && env.addOk(r.infoHash)
                  ==> s'[r.infoHash] == ReAdded(r, paused, public, env))
            && (forall h :: h in s && (h !in Hashes(rows) || h in before) ==> s'[h] == s[h])
  {
    var s' := AddMissing(s, before, rows, paused, public, env);
    AddMissingKeys(s, before, rows, paused, public, env);
    AddMissingFrame(s, before, rows, paused, public, env);
    forall r | r in rows && r.infoHash !in before && env.sourceOk(r.infoHash) && env.addOk(r.infoHash)
      ensures r.infoHash in s' && s'[r.infoHash] == ReAdded(r, paused, public, env)
    {
      AddMissingAdds(s, before, rows, paused, public, env, r);
    }
  }

  /**
    After reconciling, the session holds exactly the catalog's torrents, but for the hashes
    whose own deletion, source or add failed; a torrent it kept is untouched, and one it
    added starts paused exactly when the engine is.
  */
  lemma ReconcileAgrees(s: Session, rows: seq<TorrentRow>, paused: bool, public: seq<string>, env: BootEnv)
    requires UniqueHashes(rows)
    ensures var s' := Reconciled(s, rows, paused, public, env);
            var known := HashSet(Hashes(rows));
            && s'.Keys == known - (set h | h in known && h !in s && !(env.sourceOk(h) && env.addOk(h)))
                          + (set h | h in s && h !in known && !env.deleteOk(h))
            && (forall h :: h in s && h in s' ==> s'[h] == s[h])
            && (forall h :: h in s' && h !in s ==> s'[h].paused == paused)
            && (forall r :: r in rows && r.infoHash in s' && r.infoHash !in s ==>
                  s'[r.infoHash].trackers == if r.private then None else Some(public))
  {
    var kept := KeepKnown(s, rows, env);
    AddMissingExact(kept, s, rows, paused, public, env);
    var s' := Reconciled(s, rows, paused, public, env);
    forall h | h in s' && h !in s ensures s'[h].paused == paused {
      assert h in Hashes(rows);
      var i :| 0 <= i < |rows| && Hashes(rows)[i] == h;
      assert rows[i] in rows;
    }
  }

  /** When nothing failed the first time, a second pass changes nothing, whatever would fail now. */
  lemma ReconcileIdempotent(s: Session, rows: seq<TorrentRow>, paused: bool, public: seq<string>, env: BootEnv,
                            env': BootEnv)
    requires UniqueHashes(rows)
    requires forall h :: env.deleteOk(h) && env.sourceOk(h) && env.addOk(h)
    ensures var s' := Reconciled(s, rows, paused, public, env);
            Reconciled(s', rows, paused, public, env') == s'
  {
    ReconcileAgrees(s, rows, paused, public, env);
    var s' := Reconciled(s, rows, paused, public, env);
    assert KeepKnown(s', rows, env') == s';
    AddMissingExact(s', s', rows, paused, public, env');
    var s'' := Reconciled(s', rows, paused, public, env');
    assert s''.Keys == s'.Keys;
  }

  /** No torrent of a private row has public trackers. */
  ghost predicate PrivateSafe(s: Session, rows: seq<TorrentRow>)
  {
    forall r :: r in rows && r.private && r.infoHash in s ==> s[r.infoHash].trackers.None?
  }

  lemma ReloadStaysPrivate(l: Loaded, rows: seq<TorrentRow>, row: TorrentRow, public: seq<string>, env: ReloadEnv)
    requires UniqueHashes(rows) && PrivateSafe(l.session, rows) && row in rows
    ensures PrivateSafe(ReloadOne(l, row.infoHash, row.private, public, env).loaded.session, rows)
  {
    var s' := ReloadOne(l, row.infoHash, row.private, public, env).loaded.session;
    forall r | r in rows && r.private && r.infoHash in s' ensures s'[r.infoHash].trackers.None? {
      if r.infoHash == row.infoHash {
        SameRow(rows, r, row);
      }
    }
  }

  /** A pass over some of the rows, whatever the torrents' own metadata says. */
  lemma {:induction false} ReannounceStaysPrivate(
    l: Loaded, all: seq<TorrentRow>, rows: seq<TorrentRow>, private: string -> bool, public: seq<string>,
    env: string -> ReloadEnv)
    requires UniqueHashes(all) && PrivateSafe(l.session, all) && forall r :: r in rows ==> r in all
    ensures PrivateSafe(Reannounce(l, rows, private, public, env).loaded.session, all)
    decreases |rows|
  {
    if rows != [] {
      var row, init := rows[|rows| - 1], rows[..|rows| - 1];
      assert row in rows && forall r :: r in init ==> r in rows;
      ReannounceStaysPrivate(l, all, init, private, public, env);
      var before := Reannounce(l, init, private, public, env);
      ReloadStaysPrivate(before.loaded, all, row, public, env(row.infoHash));
    }
  }

  /** Neither a reload, nor a re-announce, nor a reconcile ever gives a private row the public trackers. */
  lemma PrivateStaysPrivate(l: Loaded, rows: seq<TorrentRow>, row: TorrentRow, paused: bool, public: seq<string>,
                            env: string -> ReloadEnv, private: string -> bool, boot: BootEnv)
    requires UniqueHashes(rows) && PrivateSafe(l.session, rows) && row in rows
    ensures PrivateSafe(ReloadOne(l, row.infoHash, row.private, public, env(row.infoHash)).loaded.session, rows)
    ensures PrivateSafe(Reannounce(l, rows, private, public, env).loaded.session, rows)
    ensures PrivateSafe(Reconciled(l.session, rows, paused, public, boot), rows)
  {
    ReloadStaysPrivate(l, rows, row, public, env(row.infoHash));
    ReannounceStaysPrivate(l, rows, rows, private, public, env);
    ReconcileAgrees(l.session, rows, paused, public, boot);
  }

  // ---- the queue after a restart -------------------------------------------------------------

  /** The rows' torrents that a reconcile adds and that are not finished when they load. */
  function AddedUnfinished(s: Session, rows: seq<TorrentRow>, env: BootEnv): set<string>
  {
    set h | h in Hashes(rows) && h !in s && env.sourceOk(h) && env.addOk(h) && !env.loads(h).finished
  }

  /** Reconciling starts every torrent it adds while the engine is not paused, whatever the queue holds. */
  lemma ReconcileActive(s: Session, rows: seq<TorrentRow>, paused: bool, public: seq<string>, env: BootEnv)
    requires UniqueHashes(rows)
    ensures ActiveSet(Reconciled(s, rows, paused, public, env))
         == ActiveSet(KeepKnown(s, rows, env)) + (if paused then {} else AddedUnfinished(s, rows, env))
    ensures |ActiveSet(Reconciled(s, rows, paused, public, env))|
         == |ActiveSet(KeepKnown(s, rows, env))| + (if paused then 0 else |AddedUnfinished(s, rows, env)|)
  {
    var kept := KeepKnown(s, rows, env);
    var s' := Reconciled(s, rows, paused, public, env);
    AddMissingExact(kept, s, rows, paused, public, env);
    var added := if paused then {} else AddedUnfinished(s, rows, env);
    forall h ensures h in ActiveSet(s') <==> h in ActiveSet(kept) || h in added {
      if h in s' && h !in kept {
        var i :| 0 <= i < |rows| && Hashes(rows)[i] == h;
        assert rows[i] in rows && s'[h] == ReAdded(rows[i], paused, public, env);
      }
    }
    assert ActiveSet(s') == ActiveSet(kept) + added && ActiveSet(kept) !! added;
  }

  /** Two rows that the session has lost both start at once, whatever the maximum is. */
  lemma RestartStartsBoth(a: TorrentRow, b: TorrentRow, public: seq<string>, env: BootEnv)
    requires a.infoHash != b.infoHash
    requires forall h :: env.sourceOk(h) && env.addOk(h) && !env.loads(h).finished
    ensures |ActiveSet(Reconciled(map[], [a, b], false, public, env))| == 2
  {
    ReconcileActive(map[], [a, b], false, public, env);
    BothAdded(a, b, env);
    assert KeepKnown(map[], [a, b], env) == map[] && ActiveSet(map[]) == {};
  }

  lemma BothAdded(a: TorrentRow, b: TorrentRow, env: BootEnv)
    requires a.infoHash != b.infoHash
    requires forall h :: env.sourceOk(h) && env.addOk(h) && !env.loads(h).finished
    ensures AddedUnfinished(map[], [a, b], env) == {a.infoHash, b.infoHash}
    ensures |AddedUnfinished(map[], [a, b], env)| == 2
  {
    assert Hashes([a, b]) == [a.infoHash, b.infoHash];
  }
}
