/**
  Executing an eviction plan against the session and the catalog. Deleting a movie takes
  all of its torrent rows with it, so one eviction can remove more than it planned.
*/
module Eviction {
  import opened CatalogStore
  import opened Ordering
  import opened Planner
  import opened TorrentSession
  import opened Wrappers

  datatype World = World(tables: Tables, session: Session)

  /** One eviction; `None` when the session refuses to delete the torrent. */
  function EvictOne(w: World, hash: string, deleteOk: bool): Option<World>
  {
    var row := TorrentByHash(w.tables.torrents, hash);
    if hash in w.session && !deleteOk then None
    else Some(World(
      if row.Some? then DeleteMovie(w.tables, row.value.imdbId) else w.tables,
      w.session - {hash}))
  }

  datatype Outcome = Outcome(world: World, ok: bool)

  /** The plan's victims one after the other, stopping at the first failure. */
  function EvictAll(w: World, hashes: seq<string>, deleteOk: string -> bool): Outcome
    decreases |hashes|
  {
    if hashes == [] then Outcome(w, true)
    else
      var next := EvictOne(w, hashes[0], deleteOk(hashes[0]));
      if next.None? then Outcome(w, false) else EvictAll(next.value, hashes[1..], deleteOk)
  }

  /** The movies the listed torrents belong to. */
  function MoviesOf(rows: seq<TorrentRow>, hashes: seq<string>): set<string>
  {
    set r | r in rows && r.infoHash in hashes :: r.imdbId
  }

  function HashSet(hashes: seq<string>): set<string>
  {
    set h | h in hashes
  }

  /** `w'` is `w` without the listed torrents' movies, rows and downloads. */
  ghost predicate Removed(w: World, w': World, hashes: seq<string>)
  {
    var gone := MoviesOf(w.tables.torrents, hashes);
    && w'.tables == Tables(w.tables.movies - gone, WithoutMovies(w.tables.torrents, gone))
    && w'.session == w.session - HashSet(hashes)
  }

  lemma EvictOneConsistent(w: World, hash: string, deleteOk: bool)
    requires Consistent(w.tables) && EvictOne(w, hash, deleteOk).Some?
    ensures Consistent(EvictOne(w, hash, deleteOk).value.tables)
  {
    var row := TorrentByHash(w.tables.torrents, hash);
    if row.Some? {
      DeleteMovieConsistent(w.tables, row.value.imdbId);
    }
  }

  lemma SameRow(rows: seq<TorrentRow>, a: TorrentRow, b: TorrentRow)
    requires UniqueHashes(rows) && a in rows && b in rows && a.infoHash == b.infoHash
    ensures a == b
  {
    var i :| 0 <= i < |rows| && rows[i] == a;
    var j :| 0 <= j < |rows| && rows[j] == b;
  }

  /** One eviction removes exactly the rows of the movie the torrent belongs to. */
  lemma EvictOneExact(w: World, hash: string, deleteOk: bool)
    requires Consistent(w.tables) && EvictOne(w, hash, deleteOk).Some?
    ensures Removed(w, EvictOne(w, hash, deleteOk).value, [hash])
  {
    assert HashSet([hash]) == {hash};
    var rows := w.tables.torrents;
    var row := TorrentByHash(rows, hash);
    var gone := MoviesOf(rows, [hash]);
    if row.Some? {
      assert row.value.infoHash in [hash];
      forall r | r in rows && r.infoHash in [hash] ensures r == row.value {
        SameRow(rows, r, row.value);
      }
      assert gone == {row.value.imdbId};
    } else {
      assert gone == {};
      WithoutNoMovies(rows);
      assert w.tables.movies - {} == w.tables.movies;
    }
  }

  lemma MoviesOfStep(rows: seq<TorrentRow>, hash: string, rest: seq<string>)
    ensures var gone := MoviesOf(rows, [hash]);
            gone + MoviesOf(WithoutMovies(rows, gone), rest) == MoviesOf(rows, [hash] + rest)
  {
    var gone := MoviesOf(rows, [hash]);
    var all := MoviesOf(rows, [hash] + rest);
    forall id | id in all ensures id in gone + MoviesOf(WithoutMovies(rows, gone), rest) {
      var r :| r in rows && r.infoHash in [hash] + rest && r.imdbId == id;
      if id !in gone {
        assert r.infoHash != hash;
        assert r in WithoutMovies(rows, gone);
      }
    }
  }

  lemma RemovedNothing(w: World)
    ensures Removed(w, w, [])
  {
    assert MoviesOf(w.tables.torrents, []) == {} && HashSet([]) == {};
    WithoutNoMovies(w.tables.torrents);
    assert w.tables.movies - {} == w.tables.movies && w.session - {} == w.session;
  }

  lemma RemovedCompose(w: World, mid: World, w': World, h: string, rest: seq<string>)
    requires Removed(w, mid, [h]) && Removed(mid, w', rest)
    ensures Removed(w, w', [h] + rest)
  {
    var gone := MoviesOf(w.tables.torrents, [h]);
    var later := MoviesOf(mid.tables.torrents, rest);
    MoviesOfStep(w.tables.torrents, h, rest);
    WithoutMoviesTwice(w.tables.torrents, gone, later);
    assert w.tables.movies - gone - later == w.tables.movies - (gone + later);
    assert HashSet([h] + rest) == HashSet([h]) + HashSet(rest);
    assert w.session - HashSet([h]) - HashSet(rest) == w.session - HashSet([h] + rest);
  }

  /** Without failures the whole plan removes exactly its victims' movies and all their rows. */
  lemma {:induction false} EvictAllExact(w: World, hashes: seq<string>, deleteOk: string -> bool)
    requires Consistent(w.tables) && EvictAll(w, hashes, deleteOk).ok
    ensures Consistent(EvictAll(w, hashes, deleteOk).world.tables)
    ensures Removed(w, EvictAll(w, hashes, deleteOk).world, hashes)
    decreases |hashes|
  {
    if hashes == [] {
      RemovedNothing(w);
    } else {
      var h := hashes[0];
      var next := EvictOne(w, h, deleteOk(h)).value;
      EvictOneExact(w, h, deleteOk(h));
      EvictOneConsistent(w, h, deleteOk(h));
      EvictAllExact(next, hashes[1..], deleteOk);
      RemovedCompose(w, next, EvictAll(w, hashes, deleteOk).world, h, hashes[1..]);
      assert [h] + hashes[1..] == hashes;
    }
  }

  /** A failure leaves a state that some shorter plan would have produced. */
  lemma {:induction false} EvictAllFailure(w: World, hashes: seq<string>, deleteOk: string -> bool) returns (k: nat)
    requires !EvictAll(w, hashes, deleteOk).ok
    ensures k < |hashes| && !deleteOk(hashes[k])
    ensures EvictAll(w, hashes[..k], deleteOk) == Outcome(EvictAll(w, hashes, deleteOk).world, true)
    decreases |hashes|
  {
    var next := EvictOne(w, hashes[0], deleteOk(hashes[0]));
    if next.None? {
      k := 0;
    } else {
      var j := EvictAllFailure(next.value, hashes[1..], deleteOk);
      k := j + 1;
      assert hashes[..k][1..] == hashes[1..][..j];
    }
  }

  // ---- the contract of making room -------------------------------------------------------

  datatype Settings = Settings(budget: nat, minFree: nat, grace: nat)

  /** The plan the engine makes from the tables it just read. */
  function SpacePlan(cfg: Settings, t: Tables, now: int, diskFree: nat, incoming: nat): Result<Plan, PlanError>
  {
    PlanOf(CandidatesOf(t.movies, t.torrents, now, cfg.grace), Size(t.torrents) % TWO64, incoming, cfg.budget,
           ExtraNeeded(incoming, cfg.minFree, diskFree))
  }

  /** No 64-bit sum that the plan depends on overflows. */
  predicate NoOverflow(cfg: Settings, t: Tables, incoming: nat)
  {
    && Size(t.torrents) + incoming < TWO64
    && incoming + cfg.minFree < TWO64
  }

  /** A torrent last used inside the grace window, in the tables as they were read. */
  predicate ProtectedRow(cfg: Settings, t: Tables, now: int, r: TorrentRow)
  {
    IsProtected(LastUsed(t.movies, r), now, cfg.grace)
  }

  /** An unprotected candidate made from one of the rows. */
  ghost predicate FairVictim(cfg: Settings, t: Tables, now: int, c: Candidate)
  {
    !c.protected && exists r :: r in t.torrents && c == CandidateOf(t.movies, r, now, cfg.grace)
  }

  lemma VictimsFair(cfg: Settings, t: Tables, now: int, diskFree: nat, incoming: nat)
    requires SpacePlan(cfg, t, now, diskFree, incoming).Ok?
    ensures var v := SpacePlan(cfg, t, now, diskFree, incoming).value.evict;
            forall c :: c in v ==> c in CandidatesOf(t.movies, t.torrents, now, cfg.grace) && FairVictim(cfg, t, now, c)
  {
    var cs := CandidatesOf(t.movies, t.torrents, now, cfg.grace);
    var v := SpacePlan(cfg, t, now, diskFree, incoming).value.evict;
    RankingHolds(cs);
    assert v <= Ranking(cs);
    forall c | c in v ensures c in cs && FairVictim(cfg, t, now, c) {
      assert c in Ranking(cs);
      var i :| 0 <= i < |cs| && cs[i] == c;
      assert t.torrents[i] in t.torrents;
    }
  }

  lemma SharesAdd(cfg: Settings, t: Tables, now: int, diskFree: nat, incoming: nat)
    requires UniqueHashes(t.torrents) && SpacePlan(cfg, t, now, diskFree, incoming).Ok?
    ensures var v := SpacePlan(cfg, t, now, diskFree, incoming).value.evict;
            SizeOutside(t.torrents, Keys(v)) + Total(v) == Size(t.torrents)
  {
    var cs := CandidatesOf(t.movies, t.torrents, now, cfg.grace);
    var used, extra := Size(t.torrents) % TWO64, ExtraNeeded(incoming, cfg.minFree, diskFree);
    CandidatesUnique(t.movies, t.torrents, now, cfg.grace);
    VictimsUnique(cs, used, incoming, cfg.budget, extra);
    VictimsFair(cfg, t, now, diskFree, incoming);
    VictimsShare(t.movies, t.torrents, now, cfg.grace, SpacePlan(cfg, t, now, diskFree, incoming).value.evict);
  }

  lemma NeedCovers(cfg: Settings, size: nat, incoming: nat, diskFree: nat, freed: nat, outside: nat)
    requires size + incoming < TWO64 && outside + freed == size
    requires Need(size % TWO64, incoming, cfg.budget, ExtraNeeded(incoming, cfg.minFree, diskFree)) <= freed
    ensures outside + incoming <= cfg.budget
    ensures incoming + cfg.minFree < TWO64 ==> incoming + cfg.minFree <= freed + diskFree
  {
  }

  /** The plan frees its share: rows outside it, and the incoming torrent, fit the budget and the disk. */
  lemma SpacePlanSuffices(cfg: Settings, t: Tables, now: int, diskFree: nat, incoming: nat)
    requires UniqueHashes(t.torrents) && Size(t.torrents) + incoming < TWO64
    requires SpacePlan(cfg, t, now, diskFree, incoming).Ok?
    ensures var v := SpacePlan(cfg, t, now, diskFree, incoming).value.evict;
            && SizeOutside(t.torrents, Keys(v)) + incoming <= cfg.budget
            && SizeOutside(t.torrents, Keys(v)) + Total(v) == Size(t.torrents)
            && (incoming + cfg.minFree < TWO64 ==> incoming + cfg.minFree <= Total(v) + diskFree)
  {
    var cs := CandidatesOf(t.movies, t.torrents, now, cfg.grace);
    var used, extra := Size(t.torrents) % TWO64, ExtraNeeded(incoming, cfg.minFree, diskFree);
    var v := SpacePlan(cfg, t, now, diskFree, incoming).value.evict;
    CandidatesTotal(t.movies, t.torrents, now, cfg.grace);
    EligibleTotal(cs);
    PlanExact(cs, used, incoming, cfg.budget, extra);
    SharesAdd(cfg, t, now, diskFree, incoming);
    NeedCovers(cfg, Size(t.torrents), incoming, diskFree, Total(v), SizeOutside(t.torrents, Keys(v)));
  }

  /** A row whose movie is evicted shares that movie's last-used time with the victim. */
  lemma VictimMoviesUnprotected(cfg: Settings, t: Tables, now: int, v: seq<Candidate>, r: TorrentRow)
    requires Consistent(t) && r in t.torrents && r.imdbId in MoviesOf(t.torrents, Keys(v))
    requires forall c :: c in v ==> FairVictim(cfg, t, now, c)
    ensures !ProtectedRow(cfg, t, now, r)
  {
    var x :| x in t.torrents && x.infoHash in Keys(v) && x.imdbId == r.imdbId;
    var i :| 0 <= i < |v| && Keys(v)[i] == x.infoHash;
    assert v[i] in v;
    var y :| y in t.torrents && v[i] == CandidateOf(t.movies, y, now, cfg.grace);
    SameRow(t.torrents, x, y);
  }

  lemma {:induction false} RemovedShare(rows: seq<TorrentRow>, hashes: seq<string>, ids: set<string>)
    requires forall r :: r in rows && r.infoHash in hashes ==> r.imdbId in ids
    ensures Size(WithoutMovies(rows, ids)) <= SizeOutside(rows, hashes)
  {
    if rows != [] {
      assert rows[0] in rows;
      RemovedShare(rows[1..], hashes, ids);
      if rows[0].imdbId !in ids {
        assert WithoutMovies(rows, ids)[1..] == WithoutMovies(rows[1..], ids);
      }
    }
  }

  /**
    A plan carried out without failures leaves the library and the incoming torrent within
    the budget, counts as many bytes as the filesystem floor asks for, and removes no row that was
    protected when the tables were read, however many rows a movie owns.
  */
  lemma MakingRoomIsSafe(cfg: Settings, w: World, now: int, diskFree: nat, incoming: nat, deleteOk: string -> bool)
    requires Consistent(w.tables) && NoOverflow(cfg, w.tables, incoming)
    requires SpacePlan(cfg, w.tables, now, diskFree, incoming).Ok?
    requires EvictAll(w, Keys(SpacePlan(cfg, w.tables, now, diskFree, incoming).value.evict), deleteOk).ok
    ensures var v := SpacePlan(cfg, w.tables, now, diskFree, incoming).value.evict;
            var w' := EvictAll(w, Keys(v), deleteOk).world;
            && Consistent(w'.tables)
            && Size(w'.tables.torrents) + incoming <= cfg.budget
            && incoming + cfg.minFree <= Total(v) + diskFree
            && Size(w'.tables.torrents) + Total(v) <= Size(w.tables.torrents)
            && (forall r :: r in w.tables.torrents && ProtectedRow(cfg, w.tables, now, r) ==> r in w'.tables.torrents)
            && (forall r :: r in w'.tables.torrents ==> r in w.tables.torrents)
  {
    var t := w.tables;
    var v := SpacePlan(cfg, t, now, diskFree, incoming).value.evict;
    SpacePlanSuffices(cfg, t, now, diskFree, incoming);
    VictimsFair(cfg, t, now, diskFree, incoming);
    EvictAllExact(w, Keys(v), deleteOk);
    var gone := MoviesOf(t.torrents, Keys(v));
    RemovedShare(t.torrents, Keys(v), gone);
    forall r | r in t.torrents && ProtectedRow(cfg, t, now, r) ensures r.imdbId !in gone {
      if r.imdbId in gone {
        VictimMoviesUnprotected(cfg, t, now, v, r);
      }
    }
  }

  // ---- the plan, told on the rows -----------------------------------------------------------

  /** When the row's movie was last used. */
  function UsedAt(t: Tables, r: TorrentRow): int
    requires r.imdbId in t.movies
  {
    t.movies[r.imdbId].lastUsedAt
  }

  /** The planned rows. */
  predicate IsVictim(v: seq<Candidate>, r: TorrentRow)
  {
    r.infoHash in Keys(v)
  }

  lemma KeyPosition(v: seq<Candidate>, h: string) returns (i: nat)
    requires h in Keys(v)
    ensures i < |v| && v[i].key == h
  {
    i :| 0 <= i < |v| && Keys(v)[i] == h;
  }

  /** The candidate of a row of the table. */
  lemma CandidateAt(t: Tables, now: int, grace: nat, r: TorrentRow) returns (c: Candidate)
    requires Consistent(t) && r in t.torrents
    ensures c in CandidatesOf(t.movies, t.torrents, now, grace)
    ensures c == Candidate(r.infoHash, r.sizeBytes, UsedAt(t, r), now < UsedAt(t, r) + grace)
  {
    CandidatesShow(t, now, grace);
    var i :| 0 <= i < |t.torrents| && t.torrents[i] == r;
    c := CandidatesOf(t.movies, t.torrents, now, grace)[i];
  }

  lemma CandidateByKey(t: Tables, now: int, grace: nat, c: Candidate, r: TorrentRow)
    requires Consistent(t) && r in t.torrents && c in CandidatesOf(t.movies, t.torrents, now, grace)
    requires c.key == r.infoHash
    ensures c == Candidate(r.infoHash, r.sizeBytes, UsedAt(t, r), now < UsedAt(t, r) + grace)
  {
    CandidatesShow(t, now, grace);
    var cs := CandidatesOf(t.movies, t.torrents, now, grace);
    var i :| 0 <= i < |cs| && cs[i] == c;
    assert t.torrents[i] in t.torrents;
    SameRow(t.torrents, t.torrents[i], r);
  }

  /**
    Least recently used first: a planned row's movie was used before that of any row that is
    kept although it could go, or at the same time, and then its hash is smaller; and it was
    used longer ago than the grace window.
  */
  lemma LeastRecentlyUsedGo(cfg: Settings, t: Tables, now: int, diskFree: nat, incoming: nat, gone: TorrentRow)
    requires Consistent(t) && SpacePlan(cfg, t, now, diskFree, incoming).Ok?
    requires gone in t.torrents && IsVictim(SpacePlan(cfg, t, now, diskFree, incoming).value.evict, gone)
    ensures UsedAt(t, gone) + cfg.grace <= now
    ensures var v := SpacePlan(cfg, t, now, diskFree, incoming).value.evict;
            forall kept :: kept in t.torrents && !IsVictim(v, kept) && UsedAt(t, kept) + cfg.grace <= now ==>
              UsedAt(t, gone) < UsedAt(t, kept)
              || (UsedAt(t, gone) == UsedAt(t, kept) && StringLess(gone.infoHash, kept.infoHash))
  {
    var cs := CandidatesOf(t.movies, t.torrents, now, cfg.grace);
    var used, extra := Size(t.torrents) % TWO64, ExtraNeeded(incoming, cfg.minFree, diskFree);
    var v := SpacePlan(cfg, t, now, diskFree, incoming).value.evict;
    VictimsFair(cfg, t, now, diskFree, incoming);
    var i := KeyPosition(v, gone.infoHash);
    assert v[i] in v;
    CandidateByKey(t, now, cfg.grace, v[i], gone);
    forall kept | kept in t.torrents && !IsVictim(v, kept) && UsedAt(t, kept) + cfg.grace <= now
      ensures UsedAt(t, gone) < UsedAt(t, kept)
              || (UsedAt(t, gone) == UsedAt(t, kept) && StringLess(gone.infoHash, kept.infoHash))
    {
      var c := CandidateAt(t, now, cfg.grace, kept);
      KeysHold(v);
      PlanTakesOldestFirst(cs, used, incoming, cfg.budget, extra, v[i], c);
      StringLessTotal(gone.infoHash, kept.infoHash);
    }
  }

  /** The bytes of the rows that may go. */
  function FreeableBytes(t: Tables, rows: seq<TorrentRow>, now: int, grace: nat): nat
    requires forall r :: r in rows ==> r.imdbId in t.movies
  {
    if rows == [] then 0
    else
      var last, init := rows[|rows| - 1], rows[..|rows| - 1];
      assert last in rows && forall r :: r in init ==> r in rows;
      FreeableBytes(t, init, now, grace) + if UsedAt(t, last) + grace <= now then last.sizeBytes else 0
  }

  lemma EligibleSnoc(cs: seq<Candidate>, c: Candidate)
    ensures Total(Eligible(cs + [c])) == Total(Eligible(cs)) + if c.protected then 0 else c.size
  {
    EligibleAppend(cs, c);
    if !c.protected {
      TotalAppend(Eligible(cs), [c]);
      assert Total([c]) == c.size;
    } else {
      assert Eligible(cs) + [] == Eligible(cs);
    }
  }

  lemma {:induction false} EligibleAppend(cs: seq<Candidate>, c: Candidate)
    ensures Eligible(cs + [c]) == Eligible(cs) + if c.protected then [] else [c]
  {
    if cs == [] {
      assert cs + [c] == [c] && [c][1..] == [];
    } else {
      EligibleAppend(cs[1..], c);
      assert (cs + [c])[1..] == cs[1..] + [c];
    }
  }

  lemma {:induction false} FreeableIsEligible(t: Tables, rows: seq<TorrentRow>, now: int, grace: nat)
    requires forall r :: r in rows ==> r.imdbId in t.movies
    ensures FreeableBytes(t, rows, now, grace) == Total(Eligible(CandidatesOf(t.movies, rows, now, grace)))
  {
    if rows != [] {
      var last, init := rows[|rows| - 1], rows[..|rows| - 1];
      assert last in rows && forall r :: r in init ==> r in rows;
      FreeableIsEligible(t, init, now, grace);
      var cs := CandidatesOf(t.movies, init, now, grace);
      EligibleSnoc(cs, CandidateOf(t.movies, last, now, grace));
      assert CandidatesOf(t.movies, rows, now, grace) == cs + [CandidateOf(t.movies, last, now, grace)];
    }
  }

  /** How far the library with the incoming torrent is over the budget, and the disk under its floor. */
  function OverBudget(cfg: Settings, t: Tables, incoming: nat): int { Size(t.torrents) + incoming - cfg.budget }

  function UnderFloor(cfg: Settings, incoming: nat, diskFree: nat): int { incoming + cfg.minFree - diskFree }

  /**
    Room can be made exactly when the torrent fits the budget and the rows that may go cover
    both shortages, the larger of the two; nothing goes that is not needed for one of them;
    and a refusal says what is missing of the larger one.
  */
  lemma SpacePlanExact(cfg: Settings, t: Tables, now: int, diskFree: nat, incoming: nat)
    requires Consistent(t) && NoOverflow(cfg, t, incoming)
    ensures var r := SpacePlan(cfg, t, now, diskFree, incoming);
            var freeable := FreeableBytes(t, t.torrents, now, cfg.grace);
            var over, under := OverBudget(cfg, t, incoming), UnderFloor(cfg, incoming, diskFree);
            && (r.Ok? <==> incoming <= cfg.budget && over <= freeable && under <= freeable)
            && (r.Ok? ==>
                  var v := r.value.evict;
                  && over <= Total(v) && under <= Total(v)
                  && (v != [] ==> Total(v[..|v| - 1]) < over || Total(v[..|v| - 1]) < under))
            && (r.Err? ==>
                  if incoming > cfg.budget then r.error == LargerThanBudget(incoming, cfg.budget)
                  else r.error == NotEnoughSpace((if over < under then under else over) - freeable, freeable))
  {
    var cs := CandidatesOf(t.movies, t.torrents, now, cfg.grace);
    var used, extra := Size(t.torrents) % TWO64, ExtraNeeded(incoming, cfg.minFree, diskFree);
    FreeableIsEligible(t, t.torrents, now, cfg.grace);
    CandidatesTotal(t.movies, t.torrents, now, cfg.grace);
    EligibleTotal(cs);
    PlanExact(cs, used, incoming, cfg.budget, extra);
    NeedIs(cfg, t, incoming, diskFree);
  }

  lemma NeedIs(cfg: Settings, t: Tables, incoming: nat, diskFree: nat)
    requires NoOverflow(cfg, t, incoming)
    ensures var over, under := OverBudget(cfg, t, incoming), UnderFloor(cfg, incoming, diskFree);
            var extra := ExtraNeeded(incoming, cfg.minFree, diskFree);
            var need := Need(Size(t.torrents) % TWO64, incoming, cfg.budget, extra);
            && over <= need && under <= need && (need == 0 || need == over || need == under)
  {
  }

  // ---- what the session really deletes -----------------------------------------------------

  /** The bytes of the victims whose files go: those the session had and has no longer. */
  function DeletedBytes(before: Session, after: Session, v: seq<Candidate>): nat
  {
    if v == [] then 0
    else
      var c, init := v[|v| - 1], v[..|v| - 1];
      DeletedBytes(before, after, init) + if c.key in before && c.key !in after then c.size else 0
  }

  /** The bytes of the victims that were not in the session; their files stay. */
  function LeftBytes(s: Session, v: seq<Candidate>): nat
  {
    if v == [] then 0
    else LeftBytes(s, v[..|v| - 1]) + if v[|v| - 1].key in s then 0 else v[|v| - 1].size
  }

  lemma {:induction false} DeletedAndLeft(s: Session, hashes: set<string>, v: seq<Candidate>)
    requires forall c :: c in v ==> c.key in hashes
    ensures DeletedBytes(s, s - hashes, v) + LeftBytes(s, v) == Total(v)
  {
    if v != [] {
      var c, init := v[|v| - 1], v[..|v| - 1];
      assert c in v && forall x :: x in init ==> x in v;
      DeletedAndLeft(s, hashes, init);
    }
  }

  lemma {:induction false} LeftNothingIff(s: Session, v: seq<Candidate>)
    ensures LeftBytes(s, v) == 0 <==> forall c :: c in v && c.key !in s ==> c.size == 0
  {
    if v != [] {
      var c, init := v[|v| - 1], v[..|v| - 1];
      LeftNothingIff(s, init);
      assert v == init + [c];
    }
  }

  /**
    Carrying out a plan deletes the bytes it had counted exactly when every victim that was
    not loaded has none; and the free-space floor is met exactly when the victims that were
    not loaded take no more than the plan had to spare.
  */
  lemma FloorMetIff(cfg: Settings, w: World, now: int, diskFree: nat, incoming: nat, deleteOk: string -> bool)
    requires Consistent(w.tables) && NoOverflow(cfg, w.tables, incoming)
    requires SpacePlan(cfg, w.tables, now, diskFree, incoming).Ok?
    requires EvictAll(w, Keys(SpacePlan(cfg, w.tables, now, diskFree, incoming).value.evict), deleteOk).ok
    ensures var v := SpacePlan(cfg, w.tables, now, diskFree, incoming).value.evict;
            var w' := EvictAll(w, Keys(v), deleteOk).world;
            var deleted := DeletedBytes(w.session, w'.session, v);
            && deleted + LeftBytes(w.session, v) == Total(v)
            && (deleted == Total(v) <==> forall c :: c in v && c.key !in w.session ==> c.size == 0)
            && incoming + cfg.minFree <= Total(v) + diskFree
            && (incoming + cfg.minFree <= deleted + diskFree
                <==> LeftBytes(w.session, v) <= Total(v) + diskFree - (incoming + cfg.minFree))
  {
    var v := SpacePlan(cfg, w.tables, now, diskFree, incoming).value.evict;
    SpacePlanSuffices(cfg, w.tables, now, diskFree, incoming);
    EvictAllExact(w, Keys(v), deleteOk);
    KeysHold(v);
    DeletedAndLeft(w.session, HashSet(Keys(v)), v);
    LeftNothingIff(w.session, v);
  }

  lemma KeysHold(v: seq<Candidate>)
    ensures forall c :: c in v ==> c.key in HashSet(Keys(v))
  {
    forall c | c in v ensures c.key in HashSet(Keys(v)) {
      var i :| 0 <= i < |v| && v[i] == c;
      assert Keys(v)[i] == c.key;
    }
  }

  // ---- orphans -----------------------------------------------------------------------------

  ghost predicate HasRow(rows: seq<TorrentRow>, h: string)
  {
    exists r :: r in rows && r.infoHash == h
  }

  /** Every loaded torrent has a row. */
  ghost predicate NoOrphans(w: World)
  {
    forall h :: h in w.session ==> HasRow(w.tables.torrents, h)
  }

  lemma RowGone(rows: seq<TorrentRow>, ids: set<string>, r: TorrentRow)
    requires UniqueHashes(rows) && r in rows
    ensures HasRow(WithoutMovies(rows, ids), r.infoHash) <==> r.imdbId !in ids
  {
    if HasRow(WithoutMovies(rows, ids), r.infoHash) {
      var x :| x in WithoutMovies(rows, ids) && x.infoHash == r.infoHash;
      SameRow(rows, x, r);
    } else {
      assert r !in WithoutMovies(rows, ids);
    }
  }

  /**
    Dropping some movies' rows and some downloads leaves no orphan exactly when every download
    that lost its row went too.
  */
  lemma OrphansExact(w: World, w': World, ids: set<string>, hashes: set<string>)
    requires UniqueHashes(w.tables.torrents) && NoOrphans(w)
    requires w'.tables.torrents == WithoutMovies(w.tables.torrents, ids) && w'.session == w.session - hashes
    ensures NoOrphans(w') <==>
            forall r :: r in w.tables.torrents && r.imdbId in ids && r.infoHash in w.session ==> r.infoHash in hashes
  {
    var rows := w.tables.torrents;
    if NoOrphans(w') {
      forall r | r in rows && r.imdbId in ids && r.infoHash in w.session ensures r.infoHash in hashes {
        RowGone(rows, ids, r);
        assert r.infoHash !in w'.session;
      }
    }
    if forall r :: r in rows && r.imdbId in ids && r.infoHash in w.session ==> r.infoHash in hashes {
      forall h | h in w'.session ensures HasRow(w'.tables.torrents, h) {
        assert HasRow(rows, h);
        var r :| r in rows && r.infoHash == h;
        RowGone(rows, ids, r);
      }
    }
  }

  /**
    The plan leaves a loaded torrent without a row exactly when a victim's movie owns a
    loaded torrent that is not itself a victim: its row goes, its download stays.
  */
  lemma EvictionOrphans(w: World, hashes: seq<string>, deleteOk: string -> bool)
    requires Consistent(w.tables) && NoOrphans(w) && EvictAll(w, hashes, deleteOk).ok
    ensures NoOrphans(EvictAll(w, hashes, deleteOk).world)
       <==> forall r :: r in w.tables.torrents && r.imdbId in MoviesOf(w.tables.torrents, hashes) ==>
              r.infoHash in w.session ==> r.infoHash in hashes
  {
    EvictAllExact(w, hashes, deleteOk);
    OrphansExact(w, EvictAll(w, hashes, deleteOk).world, MoviesOf(w.tables.torrents, hashes), HashSet(hashes));
  }

  // ---- removing a movie ---------------------------------------------------------------------

  /** Removing a movie deletes only its newest torrent from the session. */
  function RemoveMovie(w: World, id: string, deleteOk: bool): Option<World>
  {
    var t := TorrentForMovie(w.tables.torrents, id);
    if t.None? then Some(w.(tables := DeleteMovie(w.tables, id)))
    else if t.value.infoHash in w.session && !deleteOk then None
    else Some(World(DeleteMovie(w.tables, id), w.session - {t.value.infoHash}))
  }

  /** A removal that starts without orphans ends without exactly when no older torrent of the movie is loaded. */
  lemma RemovalOrphans(w: World, id: string, deleteOk: bool)
    requires Consistent(w.tables) && NoOrphans(w) && RemoveMovie(w, id, deleteOk).Some?
    ensures var w' := RemoveMovie(w, id, deleteOk).value;
            && Consistent(w'.tables)
            && (forall r :: r in w'.tables.torrents <==> r in w.tables.torrents && r.imdbId != id)
            && (NoOrphans(w') <==>
                forall r :: r in w.tables.torrents && r.imdbId == id && r.infoHash in w.session
                        ==> r.infoHash == TorrentForMovie(w.tables.torrents, id).value.infoHash)
  {
    var newest := TorrentForMovie(w.tables.torrents, id);
    DeleteMovieConsistent(w.tables, id);
    assert w.session - {} == w.session;
    OrphansExact(w, RemoveMovie(w, id, deleteOk).value, {id}, if newest.Some? then {newest.value.infoHash} else {});
  }
}
