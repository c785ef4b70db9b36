/**
  Stall detection. A map remembers, for each hash, the most bytes seen and when; every
  sweep updates it. Here the map's entry is tied to the whole history of observations.
*/
module Stall {
  import opened Wrappers

  /** What one sweep sees of a torrent that has a row. */
  datatype Sight =
    | Unloaded
    | Idle
    | Downloading(progress: nat, protected: bool)

  /** One sweep: the time, and what it sees of every row. */
  datatype Sweep = Sweep(now: int, sights: map<string, Sight>)

  datatype Mark = Mark(bytes: nat, at: int)

  /** How one sweep changes a hash's entry; a hash without a row loses it. */
  function MarkStep(prev: Option<Mark>, sight: Option<Sight>, now: int): Option<Mark>
  {
    match sight
    case None => None
    case Some(Unloaded) => prev
    case Some(Idle) => None
    case Some(Downloading(p, _)) => if prev.None? || p > prev.value.bytes then Some(Mark(p, now)) else prev
  }

  predicate IsStalled(prev: Option<Mark>, sight: Option<Sight>, now: int, timeout: nat)
  {
    && sight.Some? && sight.value.Downloading? && prev.Some?
    && sight.value.progress <= prev.value.bytes
    && now - prev.value.at >= timeout
    && !sight.value.protected
  }

  function Get<V>(m: map<string, V>, h: string): Option<V>
  {
    if h in m then Some(m[h]) else None
  }

  function SightOf(w: Sweep, h: string): Option<Sight>
  {
    Get(w.sights, h)
  }

  /** The map after a sweep over these rows. */
  function SeenAfter(seen: map<string, Mark>, w: Sweep): map<string, Mark>
  {
    map h | h in w.sights && MarkStep(Get(seen, h), SightOf(w, h), w.now).Some? ::
      MarkStep(Get(seen, h), SightOf(w, h), w.now).value
  }

  function SeenAll(hist: seq<Sweep>): map<string, Mark>
  {
    if hist == [] then map[] else SeenAfter(SeenAll(hist[..|hist| - 1]), hist[|hist| - 1])
  }

  lemma SeenAfterEntry(seen: map<string, Mark>, w: Sweep, h: string)
    ensures Get(SeenAfter(seen, w), h) == MarkStep(Get(seen, h), SightOf(w, h), w.now)
  {
  }

  // ---- the entry and the history ----------------------------------------------------------

  /** The sweep forgets the hash: it has no row, or it is paused or finished. */
  predicate Resets(w: Sweep, h: string)
  {
    SightOf(w, h).None? || SightOf(w, h).value.Idle?
  }

  predicate Downloads(w: Sweep, h: string)
  {
    SightOf(w, h).Some? && SightOf(w, h).value.Downloading?
  }

  function ProgressIn(w: Sweep, h: string): nat
    requires Downloads(w, h)
  {
    SightOf(w, h).value.progress
  }

  /** Watching began at sweep `r`: nothing reset the hash since, and the sweep before did. */
  ghost predicate WatchedSince(hist: seq<Sweep>, h: string, r: nat)
  {
    && r <= |hist|
    && (r == 0 || Resets(hist[r - 1], h))
    && forall j :: r <= j < |hist| ==> !Resets(hist[j], h)
  }

  /** `m` is the most progress seen since sweep `r`, and sweep `t` was the first to see it. */
  ghost predicate HighWater(hist: seq<Sweep>, h: string, m: Mark, r: nat, t: nat)
  {
    && WatchedSince(hist, h, r)
    && r <= t < |hist| && Downloads(hist[t], h)
    && m == Mark(ProgressIn(hist[t], h), hist[t].now)
    && (forall j :: r <= j < |hist| && Downloads(hist[j], h) ==> ProgressIn(hist[j], h) <= m.bytes)
    && (forall j :: r <= j < t && Downloads(hist[j], h) ==> ProgressIn(hist[j], h) < m.bytes)
  }

  lemma WatchUnique(hist: seq<Sweep>, h: string, r: nat, r': nat)
    requires WatchedSince(hist, h, r) && WatchedSince(hist, h, r')
    ensures r == r'
  {
  }

  lemma {:induction false} WatchExists(hist: seq<Sweep>, h: string) returns (r: nat)
    ensures WatchedSince(hist, h, r)
  {
    if hist == [] {
      r := 0;
    } else if Resets(hist[|hist| - 1], h) {
      r := |hist|;
    } else {
      r := WatchExists(hist[..|hist| - 1], h);
    }
  }

  lemma HighWaterKept(hist: seq<Sweep>, w: Sweep, h: string, m: Mark, r: nat, t: nat)
    requires HighWater(hist, h, m, r, t) && !Resets(w, h)
    requires Downloads(w, h) ==> ProgressIn(w, h) <= m.bytes
    ensures HighWater(hist + [w], h, m, r, t)
  {
    assert forall j :: 0 <= j < |hist| ==> (hist + [w])[j] == hist[j];
  }

  lemma HighWaterRaised(hist: seq<Sweep>, w: Sweep, h: string, r: nat)
    requires WatchedSince(hist, h, r) && Downloads(w, h)
    requires forall j :: r <= j < |hist| && Downloads(hist[j], h) ==> ProgressIn(hist[j], h) < ProgressIn(w, h)
    ensures HighWater(hist + [w], h, Mark(ProgressIn(w, h), w.now), r, |hist|)
  {
    assert forall j :: 0 <= j < |hist| ==> (hist + [w])[j] == hist[j];
  }

  /** An entry of the map summarises the history since the hash was last forgotten. */
  lemma {:induction false} EntrySummarises(hist: seq<Sweep>, h: string) returns (r: nat, t: nat)
    ensures WatchedSince(hist, h, r)
    ensures h in SeenAll(hist) ==> HighWater(hist, h, SeenAll(hist)[h], r, t)
    ensures h !in SeenAll(hist) ==> forall j :: r <= j < |hist| ==> !Downloads(hist[j], h)
  {
    if hist == [] {
      r, t := 0, 0;
    } else {
      var n := |hist| - 1;
      var init, last := hist[..n], hist[n];
      assert hist == init + [last];
      r, t := EntrySummarises(init, h);
      SeenAfterEntry(SeenAll(init), last, h);
      if Resets(last, h) {
        r, t := n + 1, 0;
      } else if Downloads(last, h) && (h !in SeenAll(init) || ProgressIn(last, h) > SeenAll(init)[h].bytes) {
        t := n;
        HighWaterRaised(init, last, h, r);
      } else if h in SeenAll(init) {
        HighWaterKept(init, last, h, SeenAll(init)[h], r, t);
      }
    }
  }

  /** Conversely, any such summary of the history is the entry. */
  lemma SummaryIsEntry(hist: seq<Sweep>, h: string, m: Mark, r: nat, t: nat)
    requires HighWater(hist, h, m, r, t)
    ensures h in SeenAll(hist) && SeenAll(hist)[h] == m
  {
    var r', t' := EntrySummarises(hist, h);
    WatchUnique(hist, h, r, r');
    assert h in SeenAll(hist);
    var m' := SeenAll(hist)[h];
    assert m'.bytes == m.bytes;
    assert t == t';
  }

  /**
    A torrent is evicted as stalled exactly when this sweep sees it downloading outside the
    grace window, and the most progress seen since it was last forgotten is no less than it
    has now and was first seen at least the timeout ago.
  */
  lemma StalledExactly(hist: seq<Sweep>, w: Sweep, h: string, timeout: nat)
    ensures IsStalled(Get(SeenAll(hist), h), SightOf(w, h), w.now, timeout)
       <==> (&& Downloads(w, h) && !SightOf(w, h).value.protected
             && exists m, r, t :: HighWater(hist, h, m, r, t) && ProgressIn(w, h) <= m.bytes && w.now - m.at >= timeout)
  {
    var r, t := EntrySummarises(hist, h);
    if Downloads(w, h) {
      if exists m, r, t :: HighWater(hist, h, m, r, t) && ProgressIn(w, h) <= m.bytes && w.now - m.at >= timeout {
        var m', r', t' :| HighWater(hist, h, m', r', t') && ProgressIn(w, h) <= m'.bytes && w.now - m'.at >= timeout;
        SummaryIsEntry(hist, h, m', r', t');
      }
    }
  }

  // ---- what this means for a download -------------------------------------------------------

  ghost predicate Timely(hist: seq<Sweep>)
  {
    forall i, j :: 0 <= i <= j < |hist| ==> hist[i].now <= hist[j].now
  }

  /** From sweep `i` on, every sweep that finds the torrent loaded sees it downloading, always with progress `p`. */
  ghost predicate ConstantSince(hist: seq<Sweep>, h: string, i: nat, p: nat)
  {
    && i < |hist| && Downloads(hist[i], h)
    && forall j :: i <= j < |hist| ==> !Resets(hist[j], h) && (Downloads(hist[j], h) ==> ProgressIn(hist[j], h) == p)
  }

  /** Constant progress over sweeps spanning the timeout leads to eviction once unprotected. */
  lemma ConstantProgressIsEvicted(hist: seq<Sweep>, w: Sweep, h: string, i: nat, p: nat, timeout: nat)
    requires Timely(hist) && ConstantSince(hist, h, i, p)
    requires Downloads(w, h) && ProgressIn(w, h) == p && !SightOf(w, h).value.protected
    requires w.now - hist[i].now >= timeout
    ensures IsStalled(Get(SeenAll(hist), h), SightOf(w, h), w.now, timeout)
  {
    var r, t := EntrySummarises(hist, h);
    assert r == 0 || Resets(hist[r - 1], h);
    assert r <= i;
    assert h in SeenAll(hist);
    assert ProgressIn(hist[i], h) <= SeenAll(hist)[h].bytes;
    assert t >= i ==> ProgressIn(hist[t], h) == p;
    assert t <= i;
  }

  /** The progress the sweeps observe never goes down from sweep `r` on. */
  ghost predicate NeverDrops(hist: seq<Sweep>, h: string, r: nat)
  {
    forall i, j :: r <= i <= j < |hist| && Downloads(hist[i], h) && Downloads(hist[j], h)
      ==> ProgressIn(hist[i], h) <= ProgressIn(hist[j], h)
  }

  /**
    A torrent found stalled has, since the mark that condemns it, been neither paused nor
    finished nor without a row; and it has really stood still since then exactly when its
    observed progress never went down.
  */
  lemma StalledStoodStillIff(hist: seq<Sweep>, w: Sweep, h: string, timeout: nat) returns (r: nat, t: nat)
    requires IsStalled(Get(SeenAll(hist), h), SightOf(w, h), w.now, timeout)
    ensures h in SeenAll(hist) && HighWater(hist, h, SeenAll(hist)[h], r, t)
    ensures w.now - hist[t].now >= timeout && forall j :: t <= j < |hist| ==> !Resets(hist[j], h)
    ensures (forall j :: t <= j < |hist| && Downloads(hist[j], h) ==> ProgressIn(hist[j], h) == ProgressIn(w, h))
       <==> NeverDrops(hist + [w], h, t)
  {
    r, t := EntrySummarises(hist, h);
    var all := hist + [w];
    assert all[|hist|] == w && forall j :: 0 <= j < |hist| ==> all[j] == hist[j];
    if NeverDrops(all, h, t) {
      forall j | t <= j < |hist| && Downloads(hist[j], h) ensures ProgressIn(hist[j], h) == ProgressIn(w, h) {
        assert ProgressIn(all[t], h) <= ProgressIn(all[j], h) <= ProgressIn(all[|hist|], h);
      }
    }
  }

  /**
    Progress that falls back, as after an eviction and a new add, is not seen as progress until
    it passes the old mark.
  */
  lemma StalledWhileProgressing()
    ensures var hist := [Sweep(0, map["a" := Downloading(100, false)]), Sweep(5, map["a" := Downloading(10, false)])];
            var w := Sweep(10, map["a" := Downloading(90, false)]);
            IsStalled(Get(SeenAll(hist), "a"), SightOf(w, "a"), w.now, 10)
  {
    var w0, w1 := Sweep(0, map["a" := Downloading(100, false)]), Sweep(5, map["a" := Downloading(10, false)]);
    assert [w0, w1][..1] == [w0] && [w0][..0] == [];
    SeenAfterEntry(map[], w0, "a");
    SeenAfterEntry(SeenAll([w0]), w1, "a");
    assert SeenAll([w0]) == SeenAfter(map[], w0);
    assert SeenAll([w0, w1]) == SeenAfter(SeenAll([w0]), w1);
  }
}
