/**
  How a movie comes to own two loaded torrents, and what is then left behind when it goes: a
  reload that fails half way, a second add, and a restart that brings the first torrent back.
  The same failed reload makes an eviction that frees nothing.
*/
module Orphans {
  import opened CatalogStore
  import opened Eviction
  import opened Ordering
  import opened Pause
  import opened Planner
  import opened Queue
  import opened Reload
  import opened TorrentEngine
  import opened TorrentSession
  import opened Wrappers

  const MOVIE := Movie("m", 0, 0)
  const FIRST := TorrentRow("a", "tt1", "magnet:?", 1, 0, 0, false, None, None, None, None)
  const SECOND := TorrentRow("b", "tt1", "magnet:?", 1, 0, 1, false, None, None, None, None)
  const FRESH := Torrent(false, false, false, 0, {}, None)

  const EMPTY := World(Tables(map[], []), map[])
  const ADD_FIRST := AddRequest(MOVIE, FIRST, true, [])
  const ADD_SECOND := AddRequest(MOVIE, SECOND, true, [])

  /** The delete goes through, the add after it does not. */
  const ADD_FAILS := ReloadEnv(true, {}, false, {}, true, true, true, false, {})

  function AllWorks(): BootEnv
  {
    BootEnv(h => true, h => true, h => true, h => FRESH)
  }

  function Reloaded(w: World): World
  {
    w.(session := ReloadOne(Loaded(w.session, map[]), "a", false, [], ADD_FAILS).loaded.session)
  }

  function Rebooted(w: World): World
  {
    w.(session := Reconciled(w.session, w.tables.torrents, false, [], AllWorks()))
  }

  function OneLoaded(): World { Added(EMPTY, ADD_FIRST, FRESH, None) }

  function NoneLoaded(): World { Reloaded(OneLoaded()) }

  function OtherLoaded(): World { Added(NoneLoaded(), ADD_SECOND, FRESH, None) }

  function BothLoaded(): World { Rebooted(OtherLoaded()) }

  lemma FirstAdd()
    ensures Refusal(EMPTY, None, ADD_FIRST) == None
    ensures OneLoaded() == World(Tables(map["tt1" := MOVIE], [FIRST]), map["a" := FRESH])
  {
    assert WithoutHash([], "a") == [];
  }

  lemma FailedReload()
    ensures !ReloadOne(Loaded(OneLoaded().session, map[]), "a", false, [], ADD_FAILS).ok
    ensures NoneLoaded() == World(Tables(map["tt1" := MOVIE], [FIRST]), map[])
  {
    FirstAdd();
    FailedReloadLoses(Loaded(OneLoaded().session, map[]), "a", false, [], ADD_FAILS);
    assert map["a" := FRESH] - {"a"} == map[];
  }

  lemma SecondAdd()
    ensures Refusal(NoneLoaded(), None, ADD_SECOND) == None
    ensures OtherLoaded() == World(Tables(map["tt1" := MOVIE], [FIRST, SECOND]), map["b" := FRESH])
  {
    FailedReload();
    assert [FIRST][1..] == [];
    assert WithoutHash([FIRST], "b") == [FIRST];
  }

  /** The first torrent, as the restart loads it. */
  const AGAIN := FRESH.(trackers := Some([]))

  lemma Restart()
    ensures BothLoaded() == World(Tables(map["tt1" := MOVIE], [FIRST, SECOND]), map["a" := AGAIN, "b" := FRESH])
  {
    SecondAdd();
    var rows := [FIRST, SECOND];
    var s := map["b" := FRESH];
    assert Hashes(rows) == ["a", "b"];
    assert KeepKnown(s, rows, AllWorks()) == s;
    assert rows[..1] == [FIRST] && [FIRST][..0] == [];
    assert AddMissing(s, s, [FIRST], false, [], AllWorks()) == s["a" := AGAIN];
    assert AddMissing(s, s, rows, false, [], AllWorks()) == s["a" := AGAIN];
    assert s["a" := AGAIN] == map["a" := AGAIN, "b" := FRESH];
  }

  const ROOMY := Settings(10, 0, 0)

  /** Neither add evicts anything. */
  lemma NothingEvicted(t: Tables)
    requires Size(t.torrents) <= 1
    ensures var plan := SpacePlan(ROOMY, t, 0, 100, 1); plan.Ok? && plan.value.evict == []
  {
  }

  lemma SecondIsNewest()
    ensures TorrentForMovie([FIRST, SECOND], "tt1") == Some(SECOND)
    ensures TorrentByHash([FIRST, SECOND], "b") == Some(SECOND)
    ensures WithoutMovies([FIRST, SECOND], {"tt1"}) == []
  {
    assert [FIRST, SECOND][1..] == [SECOND] && [SECOND][1..] == [];
    assert TorrentForMovie([SECOND], "tt1") == Some(SECOND);
    assert TorrentByHash([SECOND], "b") == Some(SECOND);
    assert WithoutMovies([SECOND], {"tt1"}) == [];
  }

  /** What removing the movie, or evicting its newer torrent, leaves. */
  const LEFT := World(Tables(map[], []), map["a" := AGAIN])

  lemma OlderIsLeft()
    ensures RemoveMovie(BothLoaded(), "tt1", true) == Some(LEFT) && EvictOne(BothLoaded(), "b", true) == Some(LEFT)
    ensures !NoOrphans(LEFT)
  {
    Restart();
    SecondIsNewest();
    assert map["a" := AGAIN, "b" := FRESH] - {"b"} == map["a" := AGAIN];
    assert map["tt1" := MOVIE] - {"tt1"} == map[];
    assert "a" in LEFT.session;
  }

  lemma EvictsOne(w: World, h: string, deleteOk: string -> bool, w': World)
    requires EvictOne(w, h, deleteOk(h)) == Some(w')
    ensures EvictAll(w, [h], deleteOk) == Outcome(w', true)
  {
    assert [h][1..] == [];
    assert EvictAll(w', [], deleteOk) == Outcome(w', true);
  }

  lemma NoOrphansBefore()
    ensures NoOrphans(OneLoaded()) && NoOrphans(NoneLoaded()) && NoOrphans(OtherLoaded()) && NoOrphans(BothLoaded())
  {
    FirstAdd();
    FailedReload();
    SecondAdd();
    Restart();
    assert FIRST in [FIRST] && FIRST in [FIRST, SECOND] && SECOND in [FIRST, SECOND];
  }

  /** Both adds are accepted, and neither has to evict anything. */
  lemma AddsGoThrough()
    ensures Refusal(EMPTY, None, ADD_FIRST) == None && Refusal(NoneLoaded(), None, ADD_SECOND) == None
    ensures var plan := SpacePlan(ROOMY, EMPTY.tables, 0, 100, 1); plan.Ok? && plan.value.evict == []
    ensures var plan := SpacePlan(ROOMY, NoneLoaded().tables, 0, 100, 1); plan.Ok? && plan.value.evict == []
  {
    FirstAdd();
    FailedReload();
    SecondAdd();
    assert [FIRST][1..] == [] && Size([FIRST]) == 1;
    NothingEvicted(EMPTY.tables);
    NothingEvicted(NoneLoaded().tables);
  }

  /**
    Two accepted adds of one movie, a failed reload between them and a restart after them:
    every state so far has a row for each download, yet removing the movie, or evicting its
    newer torrent, leaves the older download without one.
  */
  lemma OrphanHappens()
    ensures Refusal(EMPTY, None, ADD_FIRST) == None && Refusal(NoneLoaded(), None, ADD_SECOND) == None
    ensures var plan := SpacePlan(ROOMY, EMPTY.tables, 0, 100, 1); plan.Ok? && plan.value.evict == []
    ensures var plan := SpacePlan(ROOMY, NoneLoaded().tables, 0, 100, 1); plan.Ok? && plan.value.evict == []
    ensures NoOrphans(OneLoaded()) && NoOrphans(NoneLoaded()) && NoOrphans(OtherLoaded()) && NoOrphans(BothLoaded())
    ensures RemoveMovie(BothLoaded(), "tt1", true).Some? && !NoOrphans(RemoveMovie(BothLoaded(), "tt1", true).value)
    ensures EvictAll(BothLoaded(), ["b"], h => true).ok && !NoOrphans(EvictAll(BothLoaded(), ["b"], h => true).world)
  {
    AddsGoThrough();
    NoOrphansBefore();
    OlderIsLeft();
    EvictsOne(BothLoaded(), "b", h => true, LEFT);
  }

  // ---- a victim that is not loaded -------------------------------------------------------------

  const ONE_FREE := Settings(10, 1, 0)

  const VICTIM := Candidate("a", 1, 0, false)

  lemma OneRanked(c: Candidate)
    requires !c.protected
    ensures Ranking([c]) == [c]
  {
    assert [c][1..] == [] && Eligible([c]) == [c];
    assert SortByRank([c], CandidateRank) == [c];
  }

  /** With one unprotected candidate of one byte and one byte needed, that is the plan. */
  lemma OnePlanned(c: Candidate)
    requires !c.protected && c.size == 1
    ensures PlanOf([c], 1, 0, 10, 1) == Ok(Plan([c], 1, 0))
  {
    OneRanked(c);
    assert [c][..0] == [] && [c][..1] == [c] && Total([c]) == 1;
    assert Cover([c], 1, 0) == Cover([c], 1, 1) == 1;
  }

  lemma PlansTheUnloaded()
    ensures SpacePlan(ONE_FREE, NoneLoaded().tables, 100, 0, 0) == Ok(Plan([VICTIM], 1, 0))
  {
    FailedReload();
    OnePlanned(VICTIM);
    assert [FIRST][1..] == [] && Size([FIRST]) == 1;
    assert CandidatesOf(map["tt1" := MOVIE], [FIRST], 100, 0) == [VICTIM];
  }

  /** After a failed reload the row's torrent is planned for, evicted without failure, and no byte is deleted. */
  lemma FloorMissed()
    ensures SpacePlan(ONE_FREE, NoneLoaded().tables, 100, 0, 0) == Ok(Plan([VICTIM], 1, 0))
    ensures EvictAll(NoneLoaded(), ["a"], h => true).ok
    ensures DeletedBytes(NoneLoaded().session, EvictAll(NoneLoaded(), ["a"], h => true).world.session, [VICTIM]) == 0
  {
    PlansTheUnloaded();
    FailedReload();
    var left := EvictOne(NoneLoaded(), "a", true).value;
    EvictsOne(NoneLoaded(), "a", h => true, left);
    assert [VICTIM][..0] == [];
  }
}
