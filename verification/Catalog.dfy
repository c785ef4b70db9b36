/**
  The library's two tables and the queries the engine runs on them. `Tables` is the
  content of the database; the functions on it say what each statement does, and the
  class keeps the tables as fields that its methods reassign.
*/
module CatalogStore {
  import opened Planner
  import opened Wrappers

  datatype Movie = Movie(title: string, addedAt: int, lastUsedAt: int)

  datatype TorrentRow = TorrentRow(
    infoHash: string, imdbId: string, source: string, sizeBytes: nat, videoFileIdx: nat,
    addedAt: int, private: bool, downloadLimit: Option<nat>, uploadLimit: Option<nat>,
    peerLimit: Option<nat>, completedAt: Option<int>)

  /** Torrent rows are kept in the order the table returns them. */
  datatype Tables = Tables(movies: map<string, Movie>, torrents: seq<TorrentRow>)

  ghost predicate UniqueHashes(rows: seq<TorrentRow>)
  {
    forall i, j :: 0 <= i < j < |rows| ==> rows[i].infoHash != rows[j].infoHash
  }

  /** The primary key of the torrents table and its reference into the movies table. */
  ghost predicate Consistent(t: Tables)
  {
    && UniqueHashes(t.torrents)
    && forall r :: r in t.torrents ==> r.imdbId in t.movies
  }

  function Size(rows: seq<TorrentRow>): nat
  {
    if rows == [] then 0 else rows[0].sizeBytes + Size(rows[1..])
  }

  /** The bytes of the rows whose hash is not listed. */
  function SizeOutside(rows: seq<TorrentRow>, hashes: seq<string>): nat
  {
    if rows == [] then 0
    else (if rows[0].infoHash in hashes then 0 else rows[0].sizeBytes) + SizeOutside(rows[1..], hashes)
  }

  /** The rows that belong to none of these movies. */
  function WithoutMovies(rows: seq<TorrentRow>, ids: set<string>): (r: seq<TorrentRow>)
    ensures forall x :: x in r <==> x in rows && x.imdbId !in ids
  {
    if rows == [] then []
    else
      assert rows == [rows[0]] + rows[1..];
      if rows[0].imdbId in ids then WithoutMovies(rows[1..], ids) else [rows[0]] + WithoutMovies(rows[1..], ids)
  }

  function WithoutHash(rows: seq<TorrentRow>, hash: string): (r: seq<TorrentRow>)
    ensures forall x :: x in r <==> x in rows && x.infoHash != hash
  {
    if rows == [] then []
    else
      assert rows == [rows[0]] + rows[1..];
      if rows[0].infoHash == hash then WithoutHash(rows[1..], hash) else [rows[0]] + WithoutHash(rows[1..], hash)
  }

  // ---- statements ---------------------------------------------------------------

  /** Insert a movie, or refresh it and keep the time it was first added. */
  function UpsertMovie(t: Tables, id: string, m: Movie): Tables
  {
    t.(movies := t.movies[id := if id in t.movies then m.(addedAt := t.movies[id].addedAt) else m])
  }

  /** Delete a movie; its torrent rows go with it. */
  function DeleteMovie(t: Tables, id: string): Tables
  {
    Tables(t.movies - {id}, WithoutMovies(t.torrents, {id}))
  }

  /** Insert or replace a torrent row; a row without its movie is refused. */
  function InsertTorrent(t: Tables, row: TorrentRow): Option<Tables>
  {
    if row.imdbId !in t.movies then None
    else Some(t.(torrents := WithoutHash(t.torrents, row.infoHash) + [row.(completedAt := None)]))
  }

  function Touch(t: Tables, id: string, ts: int): Tables
  {
    if id in t.movies then t.(movies := t.movies[id := t.movies[id].(lastUsedAt := ts)]) else t
  }

  function MapRows(rows: seq<TorrentRow>, f: TorrentRow -> TorrentRow): (r: seq<TorrentRow>)
    ensures |r| == |rows| && forall i :: 0 <= i < |rows| ==> r[i] == f(rows[i])
  {
    seq(|rows|, i requires 0 <= i < |rows| => f(rows[i]))
  }

  function SetLimits(t: Tables, hash: string, download: Option<nat>, upload: Option<nat>, peers: Option<nat>): Tables
  {
    t.(torrents := MapRows(t.torrents, (r: TorrentRow) =>
      if r.infoHash == hash then r.(downloadLimit := download, uploadLimit := upload, peerLimit := peers) else r))
  }

  function MarkComplete(t: Tables, hash: string, ts: int): Tables
  {
    t.(torrents := MapRows(t.torrents, (r: TorrentRow) =>
      if r.infoHash == hash then r.(completedAt := Some(ts)) else r))
  }

  function Limits(r: TorrentRow): (Option<nat>, Option<nat>, Option<nat>)
  {
    (r.downloadLimit, r.uploadLimit, r.peerLimit)
  }

  /** The same row, but for its three limits. */
  predicate SameButLimits(a: TorrentRow, b: TorrentRow)
  {
    b == a.(downloadLimit := b.downloadLimit, uploadLimit := b.uploadLimit, peerLimit := b.peerLimit)
  }

  /** The same rows in the same order, but for their three limits. */
  ghost predicate OnlyLimitsDiffer(a: seq<TorrentRow>, b: seq<TorrentRow>)
  {
    |a| == |b| && forall i :: 0 <= i < |a| ==> SameButLimits(a[i], b[i])
  }

  /** The same rows in the same order, but for their completion times. */
  ghost predicate OnlyCompletionDiffers(a: seq<TorrentRow>, b: seq<TorrentRow>)
  {
    |a| == |b| && forall i :: 0 <= i < |a| ==> b[i] == a[i].(completedAt := b[i].completedAt)
  }

  /** The row with the hash has these limits; every other row, and every other column, is as before. */
  ghost predicate LimitsSet(a: seq<TorrentRow>, b: seq<TorrentRow>, hash: string, download: Option<nat>,
                            upload: Option<nat>, peers: Option<nat>)
  {
    && OnlyLimitsDiffer(a, b)
    && forall i :: 0 <= i < |b| ==>
         if b[i].infoHash == hash then Limits(b[i]) == (download, upload, peers) else b[i] == a[i]
  }

  function TorrentByHash(rows: seq<TorrentRow>, hash: string): (r: Option<TorrentRow>)
    ensures r.Some? ==> r.value in rows && r.value.infoHash == hash
    ensures r.None? ==> forall x :: x in rows ==> x.infoHash != hash
  {
    if rows == [] then None
    else
      assert rows == [rows[0]] + rows[1..];
      if rows[0].infoHash == hash then Some(rows[0]) else TorrentByHash(rows[1..], hash)
  }

  /** The movie's most recently added torrent. */
  function TorrentForMovie(rows: seq<TorrentRow>, id: string): (r: Option<TorrentRow>)
    ensures r.Some? ==> r.value in rows && r.value.imdbId == id
    ensures r.Some? ==> forall x :: x in rows && x.imdbId == id ==> x.addedAt <= r.value.addedAt
    ensures r.None? ==> forall x :: x in rows ==> x.imdbId != id
  {
    if rows == [] then None
    else
      assert rows == [rows[0]] + rows[1..];
      var rest := TorrentForMovie(rows[1..], id);
      if rows[0].imdbId != id then rest
      else if rest.Some? && rest.value.addedAt > rows[0].addedAt then rest
      else Some(rows[0])
  }

  // ---- what the statements keep ---------------------------------------------------

  lemma {:induction false} WithoutMoviesUnique(rows: seq<TorrentRow>, ids: set<string>)
    requires UniqueHashes(rows)
    ensures UniqueHashes(WithoutMovies(rows, ids))
  {
    if rows != [] {
      WithoutMoviesUnique(rows[1..], ids);
      var rest := WithoutMovies(rows[1..], ids);
      forall j | 0 <= j < |rest| ensures rest[j].infoHash != rows[0].infoHash {
        assert rest[j] in rest;
      }
    }
  }

  lemma {:induction false} WithoutHashUnique(rows: seq<TorrentRow>, hash: string)
    requires UniqueHashes(rows)
    ensures UniqueHashes(WithoutHash(rows, hash))
  {
    if rows != [] {
      WithoutHashUnique(rows[1..], hash);
      var rest := WithoutHash(rows[1..], hash);
      forall j | 0 <= j < |rest| ensures rest[j].infoHash != rows[0].infoHash {
        assert rest[j] in rest;
      }
    }
  }

  lemma DeleteMovieConsistent(t: Tables, id: string)
    requires Consistent(t)
    ensures Consistent(DeleteMovie(t, id))
  {
    WithoutMoviesUnique(t.torrents, {id});
  }

  lemma InsertTorrentConsistent(t: Tables, row: TorrentRow)
    requires Consistent(t) && InsertTorrent(t, row).Some?
    ensures Consistent(InsertTorrent(t, row).value)
  {
    WithoutHashUnique(t.torrents, row.infoHash);
    var kept := WithoutHash(t.torrents, row.infoHash);
    forall i | 0 <= i < |kept| ensures kept[i].infoHash != row.infoHash {
      assert kept[i] in kept;
    }
  }

  lemma {:induction false} WithoutMoviesTwice(rows: seq<TorrentRow>, a: set<string>, b: set<string>)
    ensures WithoutMovies(WithoutMovies(rows, a), b) == WithoutMovies(rows, a + b)
  {
    if rows != [] {
      WithoutMoviesTwice(rows[1..], a, b);
      if rows[0].imdbId !in a {
        var kept := WithoutMovies(rows[1..], a);
        assert WithoutMovies(rows, a) == [rows[0]] + kept;
        assert ([rows[0]] + kept)[1..] == kept;
      }
    }
  }

  lemma {:induction false} WithoutNoMovies(rows: seq<TorrentRow>)
    ensures WithoutMovies(rows, {}) == rows
  {
    if rows != [] {
      WithoutNoMovies(rows[1..]);
    }
  }

  // ---- sizes ----------------------------------------------------------------------

  lemma {:induction false} SizeOutsideNone(rows: seq<TorrentRow>)
    ensures SizeOutside(rows, []) == Size(rows)
  {
    if rows != [] {
      SizeOutsideNone(rows[1..]);
    }
  }

  lemma {:induction false} SizeAppend(a: seq<TorrentRow>, b: seq<TorrentRow>)
    ensures Size(a + b) == Size(a) + Size(b)
  {
    if a == [] {
      assert a + b == b;
    } else {
      SizeAppend(a[1..], b);
      assert (a + b)[1..] == a[1..] + b;
    }
  }

  lemma {:induction false} SizeOutsideShrinks(rows: seq<TorrentRow>, ids: set<string>, hashes: seq<string>)
    ensures SizeOutside(WithoutMovies(rows, ids), hashes) <= SizeOutside(rows, hashes)
  {
    if rows != [] {
      SizeOutsideShrinks(rows[1..], ids, hashes);
      if rows[0].imdbId !in ids {
        assert WithoutMovies(rows, ids)[1..] == WithoutMovies(rows[1..], ids);
      }
    }
  }

  lemma {:induction false} SizeWithoutHash(rows: seq<TorrentRow>, hash: string)
    ensures Size(WithoutHash(rows, hash)) <= Size(rows)
  {
    if rows != [] {
      SizeWithoutHash(rows[1..], hash);
      if rows[0].infoHash != hash {
        assert WithoutHash(rows, hash)[1..] == WithoutHash(rows[1..], hash);
      }
    }
  }

  /** A hash no row has can be dropped from the list. */
  lemma {:induction false} SizeOutsideAbsent(rows: seq<TorrentRow>, hashes: seq<string>)
    requires hashes != [] && forall r :: r in rows ==> r.infoHash != hashes[0]
    ensures SizeOutside(rows, hashes) == SizeOutside(rows, hashes[1..])
  {
    if rows != [] {
      assert rows[0] in rows;
      assert hashes == [hashes[0]] + hashes[1..];
      SizeOutsideAbsent(rows[1..], hashes);
    }
  }

  /** Listing one more row's hash takes exactly that row's bytes out of the sum. */
  lemma {:induction false} SizeOutsideOneMore(rows: seq<TorrentRow>, hashes: seq<string>, row: TorrentRow)
    requires UniqueHashes(rows) && row in rows && row.infoHash !in hashes
    ensures SizeOutside(rows, hashes) == SizeOutside(rows, hashes + [row.infoHash]) + row.sizeBytes
  {
    if rows[0] == row {
      forall r | r in rows[1..] ensures r.infoHash != row.infoHash {
        var i :| 0 <= i < |rows[1..]| && rows[1..][i] == r;
        assert rows[i + 1] == r;
      }
      SizeOutsideExtra(rows[1..], hashes, row.infoHash);
    } else {
      assert rows == [rows[0]] + rows[1..];
      assert row in rows[1..];
      var i :| 0 <= i < |rows[1..]| && rows[1..][i] == row;
      assert rows[i + 1] == row;
      SizeOutsideOneMore(rows[1..], hashes, row);
    }
  }

  lemma {:induction false} SizeOutsideExtra(rows: seq<TorrentRow>, hashes: seq<string>, hash: string)
    requires forall r :: r in rows ==> r.infoHash != hash
    ensures SizeOutside(rows, hashes) == SizeOutside(rows, hashes + [hash])
  {
    if rows != [] {
      assert rows[0] in rows;
      SizeOutsideExtra(rows[1..], hashes, hash);
    }
  }

  lemma {:induction false} SizeSameRows(a: seq<TorrentRow>, b: seq<TorrentRow>, hashes: seq<string>)
    requires |a| == |b|
    requires forall i :: 0 <= i < |a| ==> a[i].infoHash == b[i].infoHash && a[i].sizeBytes == b[i].sizeBytes
    ensures Size(a) == Size(b) && SizeOutside(a, hashes) == SizeOutside(b, hashes)
  {
    if a != [] {
      SizeSameRows(a[1..], b[1..], hashes);
    }
  }

  // ---- the planner's view of the tables --------------------------------------------

  /** Used within the grace window. */
  predicate IsProtected(lastUsedAt: int, now: int, grace: nat)
  {
    now - lastUsedAt < grace
  }

  function LastUsed(movies: map<string, Movie>, row: TorrentRow): int
  {
    if row.imdbId in movies then movies[row.imdbId].lastUsedAt else row.addedAt
  }

  function CandidateOf(movies: map<string, Movie>, row: TorrentRow, now: int, grace: nat): Candidate
  {
    var last := LastUsed(movies, row);
    Candidate(row.infoHash, row.sizeBytes, last, IsProtected(last, now, grace))
  }

  function CandidatesOf(movies: map<string, Movie>, rows: seq<TorrentRow>, now: int, grace: nat): (r: seq<Candidate>)
    ensures |r| == |rows|
    ensures forall i :: 0 <= i < |rows| ==> r[i] == CandidateOf(movies, rows[i], now, grace)
  {
    seq(|rows|, i requires 0 <= i < |rows| => CandidateOf(movies, rows[i], now, grace))
  }

  /** The shortage on the filesystem, on top of the budget rule. */
  function ExtraNeeded(incoming: nat, minFree: nat, diskFree: nat): nat
  {
    SaturatingSub(Add64(incoming, minFree), diskFree)
  }

  /** The same row in every column that eviction, the queue and removals look at. */
  predicate RowSameForDecisions(a: TorrentRow, b: TorrentRow)
  {
    && b.infoHash == a.infoHash && b.imdbId == a.imdbId
    && b.sizeBytes == a.sizeBytes && b.addedAt == a.addedAt && b.private == a.private
  }

  ghost predicate SameForDecisions(a: seq<TorrentRow>, b: seq<TorrentRow>)
  {
    |a| == |b| && forall i :: 0 <= i < |a| ==> RowSameForDecisions(a[i], b[i])
  }

  /** A replace takes out the row with the same hash and puts the new one last, not yet complete. */
  lemma InsertExactly(t: Tables, row: TorrentRow)
    requires row.imdbId in t.movies
    ensures var t' := InsertTorrent(t, row).value;
            && t'.movies == t.movies && |t'.torrents| > 0
            && t'.torrents[|t'.torrents| - 1] == row.(completedAt := None)
            && (forall r :: r in t'.torrents <==>
                  r == row.(completedAt := None) || (r in t.torrents && r.infoHash != row.infoHash))
    ensures InsertTorrent(t, row).Some?
  {
  }

  lemma {:induction false} NewestSame(a: seq<TorrentRow>, b: seq<TorrentRow>, id: string)
    requires SameForDecisions(a, b)
    ensures var x, y := TorrentForMovie(a, id), TorrentForMovie(b, id);
            (x.None? <==> y.None?)
            && (x.Some? ==> x.value.infoHash == y.value.infoHash && x.value.addedAt == y.value.addedAt)
  {
    if a != [] {
      NewestSame(a[1..], b[1..], id);
    }
  }

  /** Such rows are the same candidates for eviction, of the same total size, with the same newest torrents. */
  lemma SameDecisions(movies: map<string, Movie>, a: seq<TorrentRow>, b: seq<TorrentRow>, now: int, grace: nat)
    requires SameForDecisions(a, b) && Consistent(Tables(movies, a))
    ensures Consistent(Tables(movies, b)) && Size(b) == Size(a)
    ensures CandidatesOf(movies, b, now, grace) == CandidatesOf(movies, a, now, grace)
    ensures forall id :: TorrentForMovie(b, id).Some? == TorrentForMovie(a, id).Some?
    ensures forall id :: TorrentForMovie(a, id).Some? ==>
              TorrentForMovie(b, id).value.infoHash == TorrentForMovie(a, id).value.infoHash
  {
    SizeSameRows(a, b, []);
    forall id
      ensures TorrentForMovie(b, id).Some? == TorrentForMovie(a, id).Some?
      ensures TorrentForMovie(a, id).Some? ==>
                TorrentForMovie(b, id).value.infoHash == TorrentForMovie(a, id).value.infoHash
    {
      NewestSame(a, b, id);
    }
    forall r | r in b ensures r.imdbId in movies {
      var i :| 0 <= i < |b| && b[i] == r;
      assert a[i] in a;
    }
  }

  lemma SetLimitsRows(t: Tables, hash: string, download: Option<nat>, upload: Option<nat>, peers: Option<nat>)
    ensures LimitsSet(t.torrents, SetLimits(t, hash, download, upload, peers).torrents, hash, download, upload, peers)
    ensures Consistent(t) ==> Consistent(SetLimits(t, hash, download, upload, peers))
  {
    var t' := SetLimits(t, hash, download, upload, peers);
    forall i | 0 <= i < |t.torrents| ensures SameButLimits(t.torrents[i], t'.torrents[i]) {
    }
    if Consistent(t) {
      SameConsistent(t, t');
    }
  }

  lemma SameConsistent(t: Tables, t': Tables)
    requires Consistent(t) && t'.movies == t.movies && SameForDecisions(t.torrents, t'.torrents)
    ensures Consistent(t')
  {
    forall r | r in t'.torrents ensures r.imdbId in t.movies {
      var i :| 0 <= i < |t'.torrents| && t'.torrents[i] == r;
      assert t.torrents[i] in t.torrents;
    }
  }

  /** New limits reach only the row with that hash, and change nothing that is decided from the tables. */
  lemma LimitsChangeNoDecision(t: Tables, hash: string, download: Option<nat>, upload: Option<nat>, peers: Option<nat>,
                               now: int, grace: nat)
    requires Consistent(t)
    ensures var t' := SetLimits(t, hash, download, upload, peers);
            && Consistent(t') && t'.movies == t.movies
            && LimitsSet(t.torrents, t'.torrents, hash, download, upload, peers)
            && SameForDecisions(t.torrents, t'.torrents)
            && Size(t'.torrents) == Size(t.torrents)
            && CandidatesOf(t'.movies, t'.torrents, now, grace) == CandidatesOf(t.movies, t.torrents, now, grace)
  {
    SetLimitsRows(t, hash, download, upload, peers);
    SameDecisions(t.movies, t.torrents, SetLimits(t, hash, download, upload, peers).torrents, now, grace);
  }

  /** A completion marks only the row with that hash, and changes nothing that is decided from the tables. */
  lemma CompletionChangesNoDecision(t: Tables, hash: string, ts: int, now: int, grace: nat)
    requires Consistent(t)
    ensures var t' := MarkComplete(t, hash, ts);
            && Consistent(t') && t'.movies == t.movies
            && SameForDecisions(t.torrents, t'.torrents) && OnlyCompletionDiffers(t.torrents, t'.torrents)
            && (forall r :: r in t.torrents && r.infoHash != hash ==> r in t'.torrents)
            && Size(t'.torrents) == Size(t.torrents)
            && CandidatesOf(t'.movies, t'.torrents, now, grace) == CandidatesOf(t.movies, t.torrents, now, grace)
  {
    var t' := MarkComplete(t, hash, ts);
    SameDecisions(t.movies, t.torrents, t'.torrents, now, grace);
    forall r | r in t.torrents && r.infoHash != hash ensures r in t'.torrents {
      var i :| 0 <= i < |t.torrents| && t.torrents[i] == r;
      assert t'.torrents[i] == r;
    }
  }

  /** A movie used now has all of its torrents protected for the grace window; no other candidate changes. */
  lemma TouchProtects(t: Tables, id: string, ts: int, now: int, grace: nat)
    requires id in t.movies
    ensures var before, after := CandidatesOf(t.movies, t.torrents, now, grace),
                                 CandidatesOf(Touch(t, id, ts).movies, Touch(t, id, ts).torrents, now, grace);
            && |after| == |before|
            && forall i :: 0 <= i < |after| ==>
                 && after[i].key == before[i].key && after[i].size == before[i].size
                 && (if t.torrents[i].imdbId == id then after[i].protected <==> now < ts + grace
                     else after[i] == before[i])
  {
  }

  function UpsertAll(t: Tables, id: string, ms: seq<Movie>): Tables
  {
    if ms == [] then t else UpsertMovie(UpsertAll(t, id, ms[..|ms| - 1]), id, ms[|ms| - 1])
  }

  /** However often a movie is added again, it keeps its first time of adding and has its latest data. */
  lemma {:induction false} UpsertsKeepFirstAdded(t: Tables, id: string, ms: seq<Movie>)
    requires ms != []
    ensures var t' := UpsertAll(t, id, ms);
            && t'.torrents == t.torrents && t'.movies.Keys == t.movies.Keys + {id}
            && t'.movies[id]
               == ms[|ms| - 1].(addedAt := if id in t.movies then t.movies[id].addedAt else ms[0].addedAt)
            && (forall x :: x in t.movies && x != id ==> t'.movies[x] == t.movies[x])
            && (Consistent(t) ==> Consistent(t'))
  {
    var init := ms[..|ms| - 1];
    if init == [] {
      assert UpsertAll(t, id, init) == t;
    } else {
      UpsertsKeepFirstAdded(t, id, init);
    }
  }

  /**
    What a row is to the planner, in the tables' own terms: its hash, its size, and when its
    movie was last used, protected for as long as the grace window lasts from then.
  */
  lemma CandidatesShow(t: Tables, now: int, grace: nat)
    requires Consistent(t)
    ensures var cs := CandidatesOf(t.movies, t.torrents, now, grace);
            && |cs| == |t.torrents|
            && forall i :: 0 <= i < |cs| ==>
                 var row := t.torrents[i];
                 && cs[i].key == row.infoHash && cs[i].size == row.sizeBytes
                 && cs[i].lastUsedAt == t.movies[row.imdbId].lastUsedAt
                 && (cs[i].protected <==> now < t.movies[row.imdbId].lastUsedAt + grace)
  {
    forall i | 0 <= i < |t.torrents| ensures t.torrents[i].imdbId in t.movies {
      assert t.torrents[i] in t.torrents;
    }
  }

  /** A row whose movie is gone counts by the time it was added. */
  lemma WithoutMovieByAdded(row: TorrentRow, movies: map<string, Movie>, now: int, grace: nat)
    requires row.imdbId !in movies
    ensures CandidateOf(movies, row, now, grace)
         == Candidate(row.infoHash, row.sizeBytes, row.addedAt, now < row.addedAt + grace)
  {
  }

  lemma {:induction false} CandidatesTotal(movies: map<string, Movie>, rows: seq<TorrentRow>, now: int, grace: nat)
    ensures Total(CandidatesOf(movies, rows, now, grace)) == Size(rows)
  {
    var cs := CandidatesOf(movies, rows, now, grace);
    if rows != [] {
      var last := |rows| - 1;
      CandidatesTotal(movies, rows[..last], now, grace);
      assert cs[..last] == CandidatesOf(movies, rows[..last], now, grace);
      assert rows == rows[..last] + [rows[last]];
      SizeAppend(rows[..last], [rows[last]]);
      assert Size([rows[last]]) == rows[last].sizeBytes;
    }
  }

  lemma CandidatesUnique(movies: map<string, Movie>, rows: seq<TorrentRow>, now: int, grace: nat)
    requires UniqueHashes(rows)
    ensures UniqueKeys(CandidatesOf(movies, rows, now, grace))
  {
  }

  function Keys(cs: seq<Candidate>): (r: seq<string>)
    ensures |r| == |cs| && forall i :: 0 <= i < |cs| ==> r[i] == cs[i].key
  {
    seq(|cs|, i requires 0 <= i < |cs| => cs[i].key)
  }

  /** Distinct victims taken from the rows account for exactly their share of the total. */
  lemma {:induction false} VictimsShare(movies: map<string, Movie>, rows: seq<TorrentRow>, now: int, grace: nat,
                                        v: seq<Candidate>)
    requires UniqueHashes(rows) && UniqueKeys(v)
    requires forall c :: c in v ==> c in CandidatesOf(movies, rows, now, grace)
    ensures SizeOutside(rows, Keys(v)) + Total(v) == Size(rows)
  {
    if v == [] {
      assert Keys(v) == [];
      SizeOutsideNone(rows);
    } else {
      var cs := CandidatesOf(movies, rows, now, grace);
      var last := |v| - 1;
      assert v[last] in v;
      forall c | c in v[..last] ensures c in cs { assert c in v; }
      VictimsShare(movies, rows, now, grace, v[..last]);
      var i :| 0 <= i < |cs| && cs[i] == v[last];
      assert rows[i] in rows;
      assert Keys(v) == Keys(v[..last]) + [rows[i].infoHash];
      SizeOutsideOneMore(rows, Keys(v[..last]), rows[i]);
    }
  }

  /** The database connection: one owner of both tables. */
  class Catalog {
    var movies: map<string, Movie>
    var torrents: seq<TorrentRow>

    ghost predicate Valid()
      reads this
    {
      Consistent(Contents())
    }

    ghost function Contents(): Tables
      reads this
    {
      Tables(movies, torrents)
    }

    constructor ()
      ensures Valid() && Contents() == Tables(map[], [])
    {
      movies, torrents := map[], [];
    }

    method Upsert(id: string, m: Movie)
      requires Valid()
      modifies this`movies
      ensures Valid() && movies.Keys == old(movies.Keys) + {id}
      ensures movies[id].title == m.title && movies[id].lastUsedAt == m.lastUsedAt
      ensures movies[id].addedAt == if id in old(movies) then old(movies)[id].addedAt else m.addedAt
      ensures forall x :: x in old(movies) && x != id ==> movies[x] == old(movies)[x]
      ensures Contents() == UpsertMovie(old(Contents()), id, m)
    {
      var added := if id in movies then movies[id].addedAt else m.addedAt;
      movies := movies[id := m.(addedAt := added)];
    }

    method Delete(id: string) returns (found: bool)
      requires Valid()
      modifies this
      ensures Valid() && Contents() == DeleteMovie(old(Contents()), id)
      ensures found <==> id in old(movies)
    {
      DeleteMovieConsistent(Contents(), id);
      found := id in movies;
      movies := movies - {id};
      torrents := WithoutMovies(torrents, {id});
    }

    method Insert(row: TorrentRow) returns (ok: bool)
      requires Valid()
      modifies this
      ensures Valid() && ok == InsertTorrent(old(Contents()), row).Some?
      ensures Contents() == if ok then InsertTorrent(old(Contents()), row).value else old(Contents())
    {
      ok := row.imdbId in movies;
      if ok {
        InsertTorrentConsistent(Contents(), row);
        torrents := WithoutHash(torrents, row.infoHash) + [row.(completedAt := None)];
      }
    }

    method TouchMovie(id: string, ts: int)
      requires Valid()
      modifies this`movies
      ensures Valid() && movies.Keys == old(movies.Keys)
      ensures id in movies ==> movies[id] == old(movies)[id].(lastUsedAt := ts)
      ensures forall x :: x in movies && x != id ==> movies[x] == old(movies)[x]
      ensures Contents() == Touch(old(Contents()), id, ts)
    {
      if id in movies {
        movies := movies[id := movies[id].(lastUsedAt := ts)];
      }
    }

    method LimitTorrent(hash: string, download: Option<nat>, upload: Option<nat>, peers: Option<nat>)
      requires Valid()
      modifies this`torrents
      ensures Valid() && LimitsSet(old(torrents), torrents, hash, download, upload, peers)
      ensures Contents() == SetLimits(old(Contents()), hash, download, upload, peers)
    {
      torrents := seq(|torrents|, i requires 0 <= i < |torrents| reads this =>
        if torrents[i].infoHash != hash then torrents[i]
        else torrents[i].(downloadLimit := download, uploadLimit := upload, peerLimit := peers));
      SetLimitsRows(old(Contents()), hash, download, upload, peers);
      assert torrents == SetLimits(old(Contents()), hash, download, upload, peers).torrents;
    }

    method CompleteTorrent(hash: string, ts: int)
      requires Valid()
      modifies this`torrents
      ensures Valid() && OnlyCompletionDiffers(old(torrents), torrents)
      ensures forall i :: 0 <= i < |torrents| ==>
                if torrents[i].infoHash == hash
                then torrents[i].completedAt == Some(ts)
                else torrents[i] == old(torrents)[i]
      ensures Contents() == MarkComplete(old(Contents()), hash, ts)
    {
      torrents := seq(|torrents|, i requires 0 <= i < |torrents| reads this =>
        if torrents[i].infoHash != hash then torrents[i] else torrents[i].(completedAt := Some(ts)));
    }

    /** Every torrent as an eviction candidate, and the bytes they occupy. */
    method Candidates(now: int, grace: nat) returns (out: seq<Candidate>, used: nat)
      ensures out == CandidatesOf(movies, torrents, now, grace)
      ensures used == Size(torrents) % TWO64
    {
      used, out := 0, [];
      for i := 0 to |torrents|
        invariant |out| == i
        invariant forall j :: 0 <= j < i ==> out[j] == CandidateOf(movies, torrents[j], now, grace)
        invariant used == Freed(out)
      {
        var t := torrents[i];
        used := Add64(used, t.sizeBytes);
        var last := if t.imdbId in movies then movies[t.imdbId].lastUsedAt else t.addedAt;
        out := out + [Candidate(t.infoHash, t.sizeBytes, last, IsProtected(last, now, grace))];
        assert out[..i + 1] == out;
        FreedSnoc(out, i);
      }
      assert out == CandidatesOf(movies, torrents, now, grace);
      CandidatesTotal(movies, torrents, now, grace);
    }
  }
}
