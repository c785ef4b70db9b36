/**
  The torrent session as the engine sees it, and the download queue: at most `max`
  unfinished torrents run, oldest first.
*/
module TorrentSession {
  import opened Wrappers

  /** One loaded torrent: its flags, the bytes it reports, its in-memory piece set, its trackers. */
  datatype Torrent = Torrent(
    paused: bool, finished: bool, error: bool, progress: nat, haves: set<nat>, trackers: Option<seq<string>>)

  type Session = map<string, Torrent>

  ghost predicate AllPaused(s: Session)
  {
    forall h :: h in s ==> s[h].paused
  }
}

module Queue {
  import opened CatalogStore
  import opened Ordering
  import opened TorrentSession
  import opened Wrappers

  function RowRank(r: TorrentRow): Rank
  {
    Rank(r.addedAt, r.infoHash)
  }

  function Hashes(rows: seq<TorrentRow>): (r: seq<string>)
    ensures |r| == |rows| && forall i :: 0 <= i < |rows| ==> r[i] == rows[i].infoHash
  {
    seq(|rows|, i requires 0 <= i < |rows| => rows[i].infoHash)
  }

  /** The hashes of the rows, oldest first. */
  function QueueOrder(rows: seq<TorrentRow>): seq<string>
  {
    Hashes(SortByRank(rows, RowRank))
  }

  ghost predicate Distinct(order: seq<string>)
  {
    forall i, j :: 0 <= i < j < |order| ==> order[i] != order[j]
  }

  /** Loaded, healthy and unfinished: such a torrent takes a slot. */
  predicate IsWaiting(s: Session, h: string)
  {
    h in s && !s[h].error && !s[h].finished
  }

  predicate IsActive(s: Session, h: string)
  {
    h in s && !s[h].paused && !s[h].finished
  }

  /** The torrents that take a slot, in queue order. */
  function WaitingList(order: seq<string>, s: Session): seq<string>
  {
    if order == [] then []
    else if IsWaiting(s, order[0]) then [order[0]] + WaitingList(order[1..], s)
    else WaitingList(order[1..], s)
  }

  /** The torrents that take a slot and are running, in queue order. */
  function RunningList(order: seq<string>, s: Session): seq<string>
  {
    if order == [] then []
    else if IsWaiting(s, order[0]) && !s[order[0]].paused then [order[0]] + RunningList(order[1..], s)
    else RunningList(order[1..], s)
  }

  function Take(xs: seq<string>, n: int): seq<string>
  {
    if n <= 0 then [] else if n < |xs| then xs[..n] else xs
  }

  function Drop(xs: seq<string>, n: nat): seq<string>
  {
    if n < |xs| then xs[n..] else []
  }

  predicate Fits(slot: nat, max: Option<nat>)
  {
    max.None? || slot <= max.value
  }

  lemma {:induction false} InsertSame(x: TorrentRow, y: TorrentRow, a: seq<TorrentRow>, b: seq<TorrentRow>)
    requires RowSameForDecisions(x, y) && SameForDecisions(a, b)
    ensures SameForDecisions(Insert(x, a, RowRank), Insert(y, b, RowRank))
  {
    if a != [] {
      assert RowSameForDecisions(a[0], b[0]);
      if Before(RowRank(a[0]), RowRank(x)) {
        InsertSame(x, y, a[1..], b[1..]);
      }
    }
  }

  lemma {:induction false} SortSame(a: seq<TorrentRow>, b: seq<TorrentRow>)
    requires SameForDecisions(a, b)
    ensures SameForDecisions(SortByRank(a, RowRank), SortByRank(b, RowRank))
  {
    if a != [] {
      SortSame(a[1..], b[1..]);
      InsertSame(a[0], b[0], SortByRank(a[1..], RowRank), SortByRank(b[1..], RowRank));
    }
  }

  /** New limits and completion times leave the order of the queue as it is. */
  lemma OrderSame(a: seq<TorrentRow>, b: seq<TorrentRow>)
    requires SameForDecisions(a, b)
    ensures QueueOrder(a) == QueueOrder(b)
  {
    SortSame(a, b);
  }

  // ---- one balancing pass ----------------------------------------------------------

  function SetPaused(s: Session, h: string, paused: bool): Session
    requires h in s
  {
    s[h := s[h].(paused := paused)]
  }

  /** Whether the torrent is to run, when `slot` counts the slots taken up to and including it. */
  predicate WantRunning(t: Torrent, slot: nat, max: Option<nat>, keepSeeding: bool)
  {
    if t.finished then keepSeeding else Fits(slot, max)
  }

  /** What the pass does to one torrent; `ok` says which session calls succeed. */
  function Settle(s: Session, h: string, slot: nat, max: Option<nat>, keepSeeding: bool, ok: string -> bool): Session
    requires h in s
  {
    var want := WantRunning(s[h], slot, max, keepSeeding);
    if want && s[h].paused && ok(h) then SetPaused(s, h, false)
    else if !want && !s[h].paused && !s[h].finished && ok(h) then SetPaused(s, h, true)
    else s
  }

  function SlotAfter(s: Session, h: string, slot: nat): nat
  {
    if IsWaiting(s, h) then slot + 1 else slot
  }

  datatype Balanced = Balanced(session: Session, started: nat)

  function BalanceFrom(order: seq<string>, s: Session, slot: nat, max: Option<nat>, keepSeeding: bool,
                       ok: string -> bool): Balanced
  {
    if order == [] then Balanced(s, 0)
    else
      var h := order[0];
      if h !in s || s[h].error then BalanceFrom(order[1..], s, slot, max, keepSeeding, ok)
      else
        var slot' := SlotAfter(s, h, slot);
        var s' := Settle(s, h, slot', max, keepSeeding, ok);
        var rest := BalanceFrom(order[1..], s', slot', max, keepSeeding, ok);
        rest.(started := rest.started + if s[h].paused && !s'[h].paused then 1 else 0)
  }

  function Balance(order: seq<string>, s: Session, max: Option<nat>, keepSeeding: bool, ok: string -> bool): Balanced
  {
    BalanceFrom(order, s, 0, max, keepSeeding, ok)
  }

  ghost predicate AllOk(ok: string -> bool)
  {
    forall h :: ok(h)
  }

  /** The same torrents, differing at most in their paused bits. */
  ghost predicate SameButPaused(s: Session, s': Session)
  {
    && s'.Keys == s.Keys
    && forall h :: h in s ==> s'[h] == s[h].(paused := s'[h].paused)
  }

  /** A pass over `order` may have led from `s` to `s'`. */
  ghost predicate Framed(order: seq<string>, s: Session, s': Session, keepSeeding: bool)
  {
    && SameButPaused(s, s')
    && (forall h :: h in s && (h !in order || s[h].error) ==> s'[h] == s[h])
    && (keepSeeding || forall h :: h in s && s[h].finished ==> s'[h] == s[h])
  }

  lemma SettleFrame(s: Session, h: string, slot: nat, max: Option<nat>, keepSeeding: bool, ok: string -> bool)
    requires h in s && !s[h].error
    ensures Framed([h], s, Settle(s, h, slot, max, keepSeeding, ok), keepSeeding)
  {
  }

  lemma FramedCompose(a: seq<string>, b: seq<string>, s: Session, mid: Session, s': Session, keepSeeding: bool)
    requires Framed(a, s, mid, keepSeeding) && Framed(b, mid, s', keepSeeding)
    ensures Framed(a + b, s, s', keepSeeding)
  {
    forall h | h in s && (h !in a + b || s[h].error) ensures s'[h] == s[h] {
      assert mid[h] == s[h];
    }
  }

  lemma {:induction false} BalanceFrame(order: seq<string>, s: Session, slot: nat, max: Option<nat>,
                                        keepSeeding: bool, ok: string -> bool)
    ensures Framed(order, s, BalanceFrom(order, s, slot, max, keepSeeding, ok).session, keepSeeding)
  {
    if order != [] {
      var h, tail := order[0], order[1..];
      assert order == [h] + tail;
      var s' := BalanceFrom(order, s, slot, max, keepSeeding, ok).session;
      if h !in s || s[h].error {
        BalanceFrame(tail, s, slot, max, keepSeeding, ok);
        FramedCompose([h], tail, s, s, s', keepSeeding);
      } else {
        var slot' := SlotAfter(s, h, slot);
        var mid := Settle(s, h, slot', max, keepSeeding, ok);
        SettleFrame(s, h, slot', max, keepSeeding, ok);
        BalanceFrame(tail, mid, slot', max, keepSeeding, ok);
        FramedCompose([h], tail, s, mid, s', keepSeeding);
      }
    }
  }

  lemma {:induction false} WaitingSame(order: seq<string>, s: Session, s': Session)
    requires SameButPaused(s, s')
    ensures WaitingList(order, s) == WaitingList(order, s')
  {
    if order != [] {
      WaitingSame(order[1..], s, s');
    }
  }

  lemma {:induction false} RunningSame(order: seq<string>, s: Session, s': Session)
    requires forall h :: h in order ==> (h in s <==> h in s') && (h in s ==> s[h] == s'[h])
    ensures RunningList(order, s) == RunningList(order, s')
  {
    if order != [] {
      assert order[0] in order;
      RunningSame(order[1..], s, s');
    }
  }

  lemma TailDistinct(order: seq<string>)
    requires order != [] && Distinct(order)
    ensures Distinct(order[1..]) && order[0] !in order[1..]
  {
  }

  /** The first torrents in line, when `slot` slots are already taken. */
  function First(w: seq<string>, slot: nat, max: Option<nat>): seq<string>
  {
    if max.None? then w else Take(w, max.value - slot)
  }

  lemma FirstCons(h: string, w: seq<string>, slot: nat, max: Option<nat>)
    ensures First([h] + w, slot, max) == if Fits(slot + 1, max) then [h] + First(w, slot + 1, max) else []
  {
    if max.Some? && max.value > slot {
      var n := max.value - slot;
      if n < 1 + |w| {
        assert ([h] + w)[..n] == [h] + w[..n - 1];
      }
    }
  }

  lemma FirstFull(w: seq<string>, slot: nat, max: Option<nat>)
    requires !Fits(slot, max)
    ensures First(w, slot, max) == []
  {
  }

  /** With no session failures the torrents left running are the first ones in line. */
  lemma {:induction false} BalanceRunsFirst(order: seq<string>, s: Session, slot: nat, max: Option<nat>,
                                            keepSeeding: bool, ok: string -> bool)
    requires Distinct(order) && AllOk(ok)
    ensures RunningList(order, BalanceFrom(order, s, slot, max, keepSeeding, ok).session)
            == First(WaitingList(order, s), slot, max)
    decreases |order|, 1
  {
    if order != [] {
      TailDistinct(order);
      var h := order[0];
      var tail := order[1..];
      if h !in s || s[h].error {
        BalanceFrame(tail, s, slot, max, keepSeeding, ok);
        BalanceRunsFirst(tail, s, slot, max, keepSeeding, ok);
      } else {
        BalanceRunsFirstLoaded(order, s, slot, max, keepSeeding, ok);
      }
    }
  }

  lemma {:induction false} BalanceRunsFirstLoaded(order: seq<string>, s: Session, slot: nat, max: Option<nat>,
                                                  keepSeeding: bool, ok: string -> bool)
    requires Distinct(order) && AllOk(ok) && order != [] && order[0] in s && !s[order[0]].error
    ensures RunningList(order, BalanceFrom(order, s, slot, max, keepSeeding, ok).session)
            == First(WaitingList(order, s), slot, max)
    decreases |order|, 0
  {
    TailDistinct(order);
    var h := order[0];
    var tail := order[1..];
    var slot' := SlotAfter(s, h, slot);
    var s' := Settle(s, h, slot', max, keepSeeding, ok);
    var last := BalanceFrom(tail, s', slot', max, keepSeeding, ok).session;
    BalanceRunsFirst(tail, s', slot', max, keepSeeding, ok);
    BalanceFrame(tail, s', slot', max, keepSeeding, ok);
    SettleFrame(s, h, slot', max, keepSeeding, ok);
    WaitingSame(tail, s, s');
    assert last[h] == s'[h];
    FirstCons(h, WaitingList(tail, s), slot, max);
    if !Fits(slot + 1, max) {
      FirstFull(WaitingList(tail, s), slot + 1, max);
    }
  }

  /**
    After a balancing pass without failures, the running unfinished torrents are exactly
    the oldest `max` of the loaded, healthy, unfinished rows by (added_at, info_hash).
  */
  lemma BalanceExact(rows: seq<TorrentRow>, s: Session, max: Option<nat>, keepSeeding: bool, ok: string -> bool)
    requires UniqueHashes(rows) && AllOk(ok)
    ensures var order := QueueOrder(rows);
            var w := WaitingList(order, s);
            && RunningList(order, Balance(order, s, max, keepSeeding, ok).session)
               == First(w, 0, max)
            && SameButPaused(s, Balance(order, s, max, keepSeeding, ok).session)
            && Ordered(SortByRank(rows, RowRank), RowRank)
            && (forall h :: h in w <==> IsWaiting(s, h) && exists r :: r in rows && r.infoHash == h)
  {
    var order := QueueOrder(rows);
    OrderDistinct(rows);
    BalanceRunsFirst(order, s, 0, max, keepSeeding, ok);
    BalanceFrame(order, s, 0, max, keepSeeding, ok);
    WaitingMembers(order, s);
    OrderMembers(rows);
  }

  /** The waiting list keeps the order. */
  lemma {:induction false} WaitingInOrder(order: seq<string>, s: Session, i: nat, j: nat) returns (p: nat, q: nat)
    requires i < j < |WaitingList(order, s)|
    ensures p < q < |order| && order[p] == WaitingList(order, s)[i] && order[q] == WaitingList(order, s)[j]
  {
    var tail := order[1..];
    if !IsWaiting(s, order[0]) {
      p, q := WaitingInOrder(tail, s, i, j);
      p, q := p + 1, q + 1;
    } else if i > 0 {
      p, q := WaitingInOrder(tail, s, i - 1, j - 1);
      p, q := p + 1, q + 1;
    } else {
      q := WaitingAt(tail, s, j - 1);
      p, q := 0, q + 1;
    }
  }

  lemma {:induction false} WaitingAt(order: seq<string>, s: Session, j: nat) returns (q: nat)
    requires j < |WaitingList(order, s)|
    ensures q < |order| && order[q] == WaitingList(order, s)[j]
  {
    if !IsWaiting(s, order[0]) {
      q := WaitingAt(order[1..], s, j);
      q := q + 1;
    } else if j == 0 {
      q := 0;
    } else {
      q := WaitingAt(order[1..], s, j - 1);
      q := q + 1;
    }
  }

  /** What stands earlier in the queue was added earlier, or at the same time under a smaller hash. */
  lemma EarlierIsOlder(rows: seq<TorrentRow>, a: TorrentRow, b: TorrentRow, p: nat, q: nat)
    requires UniqueHashes(rows) && a in rows && b in rows
    requires p < q < |QueueOrder(rows)| && QueueOrder(rows)[p] == a.infoHash && QueueOrder(rows)[q] == b.infoHash
    ensures a.addedAt < b.addedAt || (a.addedAt == b.addedAt && StringLess(a.infoHash, b.infoHash))
  {
    var sorted := SortByRank(rows, RowRank);
    SortSorts(rows, RowRank);
    OrderDistinct(rows);
    SameHash(rows, sorted[p], a);
    SameHash(rows, sorted[q], b);
    StringLessTotal(a.infoHash, b.infoHash);
  }

  lemma SameHash(rows: seq<TorrentRow>, x: TorrentRow, y: TorrentRow)
    requires UniqueHashes(rows) && x in rows && y in rows && x.infoHash == y.infoHash
    ensures x == y
  {
  }

  /** A torrent that runs while another waits is the older one. */
  lemma RunnerIsOlder(rows: seq<TorrentRow>, s: Session, max: Option<nat>, keepSeeding: bool, ok: string -> bool,
                      a: TorrentRow, b: TorrentRow)
    requires UniqueHashes(rows) && AllOk(ok) && a in rows && b in rows
    requires Ready(s, a) && Ready(s, b)
    requires var s' := Balance(QueueOrder(rows), s, max, keepSeeding, ok).session; IsHeld(s', a) && Runs(s', b)
    ensures b.addedAt < a.addedAt || (b.addedAt == a.addedAt && StringLess(b.infoHash, a.infoHash))
  {
    var order := QueueOrder(rows);
    var w := WaitingList(order, s);
    OrderMembers(rows);
    OrderDistinct(rows);
    WaitingMembers(order, s);
    RunningInLine(rows, s, max, keepSeeding, ok, a, b);
    assert b.infoHash in w && a.infoHash in w;
    var i :| 0 <= i < |w| && w[i] == b.infoHash;
    var j :| 0 <= j < |w| && w[j] == a.infoHash;
    FirstIsPrefix(w, max);
    PrefixBefore(w, |First(w, 0, max)|, i, j);
    var p, q := WaitingInOrder(order, s, i, j);
    EarlierIsOlder(rows, b, a, p, q);
  }

  lemma RunningInLine(rows: seq<TorrentRow>, s: Session, max: Option<nat>, keepSeeding: bool, ok: string -> bool,
                      a: TorrentRow, b: TorrentRow)
    requires UniqueHashes(rows) && AllOk(ok) && a in rows && b in rows && Ready(s, a) && Ready(s, b)
    requires var s' := Balance(QueueOrder(rows), s, max, keepSeeding, ok).session; IsHeld(s', a) && Runs(s', b)
    ensures var first := First(WaitingList(QueueOrder(rows), s), 0, max);
            b.infoHash in first && a.infoHash !in first
  {
    var order := QueueOrder(rows);
    BalanceExact(rows, s, max, keepSeeding, ok);
    RunningMembers(order, Balance(order, s, max, keepSeeding, ok).session);
    OrderMembers(rows);
  }

  lemma FirstIsPrefix(w: seq<string>, max: Option<nat>)
    ensures First(w, 0, max) <= w
  {
  }

  /** In a list without repeats, what is in a prefix stands before what is not. */
  lemma PrefixBefore(w: seq<string>, n: nat, i: nat, j: nat)
    requires Distinct(w) && n <= |w| && i < |w| && j < |w| && w[i] in w[..n] && w[j] !in w[..n]
    ensures i < j
  {
    assert forall k :: 0 <= k < n ==> w[k] == w[..n][k];
  }

  /** Of two torrents that could run, one that does was added before one that does not, or has the smaller hash. */
  ghost predicate OldestFirst(rows: seq<TorrentRow>, s: Session, s': Session)
  {
    forall a, b :: a in rows && b in rows && Ready(s, a) && Ready(s, b) && IsHeld(s', a) && Runs(s', b) ==>
      b.addedAt < a.addedAt || (b.addedAt == a.addedAt && StringLess(b.infoHash, a.infoHash))
  }

  /** At most `max` run, and exactly so many if any is held back. */
  ghost predicate FullIfHeld(rows: seq<TorrentRow>, s: Session, s': Session, max: Option<nat>)
  {
    && (max.Some? ==> |RunningOf(rows, s, s')| <= max.value)
    && ((exists a :: a in rows && Ready(s, a) && IsHeld(s', a)) ==> max.Some? && |RunningOf(rows, s, s')| == max.value)
  }

  /** Finished, healthy torrents of the rows are started exactly if they are to seed, and never stopped. */
  ghost predicate FinishedSettled(rows: seq<TorrentRow>, s: Session, s': Session, keepSeeding: bool)
  {
    forall r :: r in rows && r.infoHash in s && !s[r.infoHash].error && s[r.infoHash].finished ==>
      r.infoHash in s' && s'[r.infoHash] == s[r.infoHash].(paused := s[r.infoHash].paused && !keepSeeding)
  }

  /** Torrents in error or without a row stay as they were. */
  ghost predicate OthersKept(rows: seq<TorrentRow>, s: Session, s': Session)
  {
    && s'.Keys == s.Keys
    && forall h :: h in s && (s[h].error || forall r :: r in rows ==> r.infoHash != h) ==> s'[h] == s[h]
  }

  /** A balancing pass without failures, told on the rows. */
  lemma OldestRun(rows: seq<TorrentRow>, s: Session, max: Option<nat>, keepSeeding: bool, ok: string -> bool)
    requires UniqueHashes(rows) && AllOk(ok)
    ensures var s' := Balance(QueueOrder(rows), s, max, keepSeeding, ok).session;
            && OldestFirst(rows, s, s') && FullIfHeld(rows, s, s', max)
            && FinishedSettled(rows, s, s', keepSeeding) && OthersKept(rows, s, s')
  {
    RunsOldestFirst(rows, s, max, keepSeeding, ok);
    RunsFull(rows, s, max, keepSeeding, ok);
    SettlesFinished(rows, s, max, keepSeeding, ok);
    KeepsOthers(rows, s, max, keepSeeding, ok);
  }

  lemma RunsOldestFirst(rows: seq<TorrentRow>, s: Session, max: Option<nat>, keepSeeding: bool, ok: string -> bool)
    requires UniqueHashes(rows) && AllOk(ok)
    ensures OldestFirst(rows, s, Balance(QueueOrder(rows), s, max, keepSeeding, ok).session)
  {
    var s' := Balance(QueueOrder(rows), s, max, keepSeeding, ok).session;
    forall a, b | a in rows && b in rows && Ready(s, a) && Ready(s, b) && IsHeld(s', a) && Runs(s', b)
      ensures b.addedAt < a.addedAt || (b.addedAt == a.addedAt && StringLess(b.infoHash, a.infoHash))
    {
      RunnerIsOlder(rows, s, max, keepSeeding, ok, a, b);
    }
  }

  lemma RunsFull(rows: seq<TorrentRow>, s: Session, max: Option<nat>, keepSeeding: bool, ok: string -> bool)
    requires UniqueHashes(rows) && AllOk(ok)
    ensures FullIfHeld(rows, s, Balance(QueueOrder(rows), s, max, keepSeeding, ok).session, max)
  {
    var s' := Balance(QueueOrder(rows), s, max, keepSeeding, ok).session;
    RunningAreFirst(rows, s, max, keepSeeding, ok);
    SetOfSeq(First(WaitingList(QueueOrder(rows), s), 0, max));
    if a :| a in rows && Ready(s, a) && IsHeld(s', a) {
      MaxRun(rows, s, max, keepSeeding, ok, a);
    }
  }

  lemma SettlesFinished(rows: seq<TorrentRow>, s: Session, max: Option<nat>, keepSeeding: bool, ok: string -> bool)
    requires UniqueHashes(rows) && AllOk(ok)
    ensures FinishedSettled(rows, s, Balance(QueueOrder(rows), s, max, keepSeeding, ok).session, keepSeeding)
  {
    var order := QueueOrder(rows);
    OrderDistinct(rows);
    OrderMembers(rows);
    forall r | r in rows && r.infoHash in s && !s[r.infoHash].error && s[r.infoHash].finished
      ensures var s' := Balance(order, s, max, keepSeeding, ok).session;
              r.infoHash in s' && s'[r.infoHash] == s[r.infoHash].(paused := s[r.infoHash].paused && !keepSeeding)
    {
      FinishedSeeds(order, s, 0, max, keepSeeding, ok, r.infoHash);
    }
  }

  lemma KeepsOthers(rows: seq<TorrentRow>, s: Session, max: Option<nat>, keepSeeding: bool, ok: string -> bool)
    requires UniqueHashes(rows) && AllOk(ok)
    ensures OthersKept(rows, s, Balance(QueueOrder(rows), s, max, keepSeeding, ok).session)
  {
    OrderDistinct(rows);
    OrderMembers(rows);
    BalanceFrame(QueueOrder(rows), s, 0, max, keepSeeding, ok);
  }

  /** The row's torrent is loaded, healthy and unfinished. */
  predicate Ready(s: Session, r: TorrentRow)
  {
    r.infoHash in s && !s[r.infoHash].error && !s[r.infoHash].finished
  }

  predicate IsHeld(s: Session, r: TorrentRow)
  {
    r.infoHash in s && s[r.infoHash].paused
  }

  predicate Runs(s: Session, r: TorrentRow)
  {
    r.infoHash in s && !s[r.infoHash].paused
  }

  /** The torrents of the rows that could run and do. */
  function RunningOf(rows: seq<TorrentRow>, before: Session, after: Session): set<string>
  {
    set r | r in rows && Ready(before, r) && Runs(after, r) :: r.infoHash
  }

  /** They are the first in line. */
  lemma RunningAreFirst(rows: seq<TorrentRow>, s: Session, max: Option<nat>, keepSeeding: bool, ok: string -> bool)
    requires UniqueHashes(rows) && AllOk(ok)
    ensures var order := QueueOrder(rows);
            RunningOf(rows, s, Balance(order, s, max, keepSeeding, ok).session)
            == set h | h in First(WaitingList(order, s), 0, max)
  {
    var order := QueueOrder(rows);
    var s' := Balance(order, s, max, keepSeeding, ok).session;
    var first := First(WaitingList(order, s), 0, max);
    BalanceExact(rows, s, max, keepSeeding, ok);
    RunningMembers(order, s');
    OrderMembers(rows);
    forall h ensures h in RunningOf(rows, s, s') <==> h in first {
      assert h in first <==> h in order && IsWaiting(s', h) && !s'[h].paused;
      if h in first {
        var r :| r in rows && r.infoHash == h;
        assert Ready(s, r) && Runs(s', r);
      }
    }
  }

  lemma HeldMeansFull(w: seq<string>, max: Option<nat>, h: string)
    requires Distinct(w) && h in w && h !in First(w, 0, max)
    ensures max.Some? && |set x | x in First(w, 0, max)| == max.value
  {
    FirstIsPrefix(w, max);
    DistinctSize(First(w, 0, max));
  }

  lemma MaxRun(rows: seq<TorrentRow>, s: Session, max: Option<nat>, keepSeeding: bool, ok: string -> bool,
               a: TorrentRow)
    requires UniqueHashes(rows) && AllOk(ok) && a in rows && Ready(s, a)
    requires IsHeld(Balance(QueueOrder(rows), s, max, keepSeeding, ok).session, a)
    ensures max.Some?
    ensures |RunningOf(rows, s, Balance(QueueOrder(rows), s, max, keepSeeding, ok).session)| == max.value
  {
    var order := QueueOrder(rows);
    var s' := Balance(order, s, max, keepSeeding, ok).session;
    RunningAreFirst(rows, s, max, keepSeeding, ok);
    OrderMembers(rows);
    OrderDistinct(rows);
    WaitingMembers(order, s);
    assert a.infoHash !in RunningOf(rows, s, s');
    HeldMeansFull(WaitingList(order, s), max, a.infoHash);
  }

  /** The torrents that a pass has set running. */
  function NewlyStarted(before: Session, after: Session): set<string>
  {
    set h | h in before && h in after && before[h].paused && !after[h].paused
  }

  /** The count of a pass is that of the torrents it has set running. */
  lemma {:induction false} StartedCount(order: seq<string>, s: Session, slot: nat, max: Option<nat>,
                                        keepSeeding: bool, ok: string -> bool)
    requires Distinct(order)
    ensures var b := BalanceFrom(order, s, slot, max, keepSeeding, ok);
            b.started == |NewlyStarted(s, b.session)|
  {
    if order == [] {
      assert NewlyStarted(s, s) == {};
    } else {
      TailDistinct(order);
      var x, tail := order[0], order[1..];
      if x !in s || s[x].error {
        StartedCount(tail, s, slot, max, keepSeeding, ok);
      } else {
        var slot' := SlotAfter(s, x, slot);
        var s1 := Settle(s, x, slot', max, keepSeeding, ok);
        var last := BalanceFrom(tail, s1, slot', max, keepSeeding, ok).session;
        StartedCount(tail, s1, slot', max, keepSeeding, ok);
        BalanceFrame(tail, s1, slot', max, keepSeeding, ok);
        SettleFrame(s, x, slot', max, keepSeeding, ok);
        OneStart(s, s1, last, x);
      }
    }
  }

  lemma OneStart(s: Session, s1: Session, last: Session, x: string)
    requires s1.Keys == s.Keys && last.Keys == s.Keys && x in s && last[x] == s1[x]
    requires forall h :: h in s && h != x ==> s1[h] == s[h]
    ensures |NewlyStarted(s, last)| == |NewlyStarted(s1, last)| + if s[x].paused && !s1[x].paused then 1 else 0
  {
    if s[x].paused && !s1[x].paused {
      assert NewlyStarted(s, last) == NewlyStarted(s1, last) + {x} && x !in NewlyStarted(s1, last);
    } else {
      assert NewlyStarted(s, last) == NewlyStarted(s1, last);
    }
  }

  /** A finished, healthy torrent of the order runs afterwards if it is to seed, and is left alone otherwise. */
  lemma {:induction false} FinishedSeeds(order: seq<string>, s: Session, slot: nat, max: Option<nat>,
                                         keepSeeding: bool, ok: string -> bool, h: string)
    requires Distinct(order) && AllOk(ok) && h in order && h in s && !s[h].error && s[h].finished
    ensures var s' := BalanceFrom(order, s, slot, max, keepSeeding, ok).session;
            h in s' && s'[h] == s[h].(paused := s[h].paused && !keepSeeding)
  {
    var x, tail := order[0], order[1..];
    TailDistinct(order);
    if x !in s || s[x].error {
      assert h in tail;
      FinishedSeeds(tail, s, slot, max, keepSeeding, ok, h);
    } else {
      var slot' := SlotAfter(s, x, slot);
      var s1 := Settle(s, x, slot', max, keepSeeding, ok);
      SettleFrame(s, x, slot', max, keepSeeding, ok);
      if h == x {
        BalanceFrame(tail, s1, slot', max, keepSeeding, ok);
      } else {
        assert h in tail;
        FinishedSeeds(tail, s1, slot', max, keepSeeding, ok, h);
      }
    }
  }

  lemma {:induction false} WaitingMembers(order: seq<string>, s: Session)
    ensures forall h :: h in WaitingList(order, s) <==> h in order && IsWaiting(s, h)
    ensures Distinct(order) ==> Distinct(WaitingList(order, s))
  {
    if order != [] {
      WaitingMembers(order[1..], s);
      assert order == [order[0]] + order[1..];
      if Distinct(order) {
        TailDistinct(order);
      }
    }
  }

  lemma OrderMembers(rows: seq<TorrentRow>)
    ensures forall h :: h in QueueOrder(rows) <==> exists r :: r in rows && r.infoHash == h
    ensures Ordered(SortByRank(rows, RowRank), RowRank)
  {
    SortSorts(rows, RowRank);
    var sorted := SortByRank(rows, RowRank);
    var order := QueueOrder(rows);
    forall h | h in order ensures exists r :: r in rows && r.infoHash == h {
      var i :| 0 <= i < |order| && order[i] == h;
      assert sorted[i] in sorted;
    }
    forall r | r in rows ensures r.infoHash in order {
      assert r in sorted;
      var i :| 0 <= i < |sorted| && sorted[i] == r;
      assert order[i] == r.infoHash;
    }
  }

  lemma {:induction false} HashesInserted(x: TorrentRow, xs: seq<TorrentRow>)
    requires Distinct(Hashes(xs)) && x.infoHash !in Hashes(xs)
    ensures Distinct(Hashes(Insert(x, xs, RowRank)))
    ensures forall h :: h in Hashes(Insert(x, xs, RowRank)) <==> h == x.infoHash || h in Hashes(xs)
  {
    var ys := Insert(x, xs, RowRank);
    if xs == [] || !Before(RowRank(xs[0]), RowRank(x)) {
      assert Hashes(ys) == [x.infoHash] + Hashes(xs);
    } else {
      assert Hashes(xs) == [xs[0].infoHash] + Hashes(xs[1..]);
      TailDistinct(Hashes(xs));
      assert Hashes(xs)[1..] == Hashes(xs[1..]);
      HashesInserted(x, xs[1..]);
      assert Hashes(ys) == [xs[0].infoHash] + Hashes(Insert(x, xs[1..], RowRank));
    }
  }

  lemma {:induction false} OrderDistinct(rows: seq<TorrentRow>)
    requires UniqueHashes(rows)
    ensures Distinct(QueueOrder(rows))
    ensures forall h :: h in QueueOrder(rows) <==> h in Hashes(rows)
  {
    if rows != [] {
      OrderDistinct(rows[1..]);
      assert Hashes(rows) == [rows[0].infoHash] + Hashes(rows[1..]);
      HashesInserted(rows[0], SortByRank(rows[1..], RowRank));
    }
  }

  // ---- a second pass does nothing ----------------------------------------------------

  /** Every torrent in line already is as the pass would leave it. */
  predicate IsSettled(order: seq<string>, s: Session, slot: nat, max: Option<nat>, keepSeeding: bool)
  {
    order == [] ||
    var h := order[0];
    if h !in s || s[h].error then IsSettled(order[1..], s, slot, max, keepSeeding)
    else
      var slot' := SlotAfter(s, h, slot);
      var want := WantRunning(s[h], slot', max, keepSeeding);
      && (want ==> !s[h].paused)
      && (!want ==> s[h].paused || s[h].finished)
      && IsSettled(order[1..], s, slot', max, keepSeeding)
  }

  lemma {:induction false} SettledStays(order: seq<string>, s: Session, slot: nat, max: Option<nat>,
                                        keepSeeding: bool, ok: string -> bool)
    requires IsSettled(order, s, slot, max, keepSeeding)
    ensures BalanceFrom(order, s, slot, max, keepSeeding, ok) == Balanced(s, 0)
  {
    if order != [] {
      var h := order[0];
      if h !in s || s[h].error {
        SettledStays(order[1..], s, slot, max, keepSeeding, ok);
      } else {
        SettledStays(order[1..], s, SlotAfter(s, h, slot), max, keepSeeding, ok);
      }
    }
  }

  lemma {:induction false} BalanceSettles(order: seq<string>, s: Session, slot: nat, max: Option<nat>,
                                          keepSeeding: bool, ok: string -> bool)
    requires Distinct(order) && AllOk(ok)
    ensures IsSettled(order, BalanceFrom(order, s, slot, max, keepSeeding, ok).session, slot, max, keepSeeding)
  {
    if order != [] {
      TailDistinct(order);
      var h := order[0];
      var tail := order[1..];
      if h !in s || s[h].error {
        BalanceFrame(tail, s, slot, max, keepSeeding, ok);
        BalanceSettles(tail, s, slot, max, keepSeeding, ok);
      } else {
        var slot' := SlotAfter(s, h, slot);
        var s' := Settle(s, h, slot', max, keepSeeding, ok);
        BalanceFrame(tail, s', slot', max, keepSeeding, ok);
        BalanceSettles(tail, s', slot', max, keepSeeding, ok);
      }
    }
  }

  /** A second pass starts nothing and pauses nothing, whatever its session calls would return. */
  lemma BalanceIdempotent(order: seq<string>, s: Session, max: Option<nat>, keepSeeding: bool, ok: string -> bool,
                          ok': string -> bool)
    requires Distinct(order) && AllOk(ok)
    ensures var b := Balance(order, s, max, keepSeeding, ok);
            Balance(order, b.session, max, keepSeeding, ok') == Balanced(b.session, 0)
  {
    BalanceSettles(order, s, 0, max, keepSeeding, ok);
    SettledStays(order, Balance(order, s, max, keepSeeding, ok).session, 0, max, keepSeeding, ok');
  }

  // ---- the bound --------------------------------------------------------------------

  function ActiveSet(s: Session): set<string>
  {
    set h | h in s && IsActive(s, h)
  }

  /** Whether one more running download would exceed the maximum. */
  predicate QueueIsFull(s: Session, max: Option<nat>)
  {
    max.Some? && |ActiveSet(s)| >= max.value
  }

  /** The active torrents after a pass: those first in line, plus what the queue does not govern. */
  lemma ActiveAfterBalance(rows: seq<TorrentRow>, s: Session, max: Option<nat>, keepSeeding: bool, ok: string -> bool)
    requires UniqueHashes(rows) && AllOk(ok)
    ensures var order := QueueOrder(rows);
            var w := WaitingList(order, s);
            var first := First(w, 0, max);
            ActiveSet(Balance(order, s, max, keepSeeding, ok).session)
            == (set h | h in first) + (set h | h in ActiveSet(s) && (h !in order || s[h].error))
  {
    var order := QueueOrder(rows);
    BalanceExact(rows, s, max, keepSeeding, ok);
    BalanceFrame(order, s, 0, max, keepSeeding, ok);
    RunningMembers(order, Balance(order, s, max, keepSeeding, ok).session);
  }

  lemma {:induction false} RunningMembers(order: seq<string>, s: Session)
    ensures forall h :: h in RunningList(order, s) <==> h in order && IsWaiting(s, h) && !s[h].paused
  {
    if order != [] {
      RunningMembers(order[1..], s);
      assert order == [order[0]] + order[1..];
    }
  }

  /** Running torrents that a pass over these rows leaves alone: without a row, or in error. */
  function Ungoverned(s: Session, rows: seq<TorrentRow>): set<string>
  {
    set h | h in ActiveSet(s) && (h !in QueueOrder(rows) || s[h].error)
  }

  /** How many torrents are active after a pass. */
  lemma ActiveCountAfterBalance(rows: seq<TorrentRow>, s: Session, max: nat, keepSeeding: bool, ok: string -> bool)
    requires UniqueHashes(rows) && AllOk(ok)
    ensures |ActiveSet(Balance(QueueOrder(rows), s, Some(max), keepSeeding, ok).session)|
         == |Take(WaitingList(QueueOrder(rows), s), max)| + |Ungoverned(s, rows)|
  {
    var order := QueueOrder(rows);
    var first := Take(WaitingList(order, s), max);
    ActiveAfterBalance(rows, s, Some(max), keepSeeding, ok);
    OrderDistinct(rows);
    WaitingDistinct(order, s);
    WaitingMembers(order, s);
    DistinctSize(first);
    assert (set h | h in first) !! Ungoverned(s, rows);
  }

  lemma {:induction false} WaitingDistinct(order: seq<string>, s: Session)
    requires Distinct(order)
    ensures Distinct(WaitingList(order, s))
  {
    if order != [] {
      TailDistinct(order);
      WaitingDistinct(order[1..], s);
      WaitingMembers(order[1..], s);
    }
  }

  lemma {:induction false} DistinctSize(xs: seq<string>)
    requires Distinct(xs)
    ensures |(set x | x in xs)| == |xs|
  {
    if xs != [] {
      DistinctSize(xs[1..]);
      assert (set x | x in xs) == {xs[0]} + (set x | x in xs[1..]);
      assert xs[0] !in xs[1..];
    }
  }

  /** When every loaded torrent is a healthy row, a pass leaves at most `max` of them active. */
  lemma BalanceKeepsBound(rows: seq<TorrentRow>, s: Session, max: nat, keepSeeding: bool, ok: string -> bool)
    requires UniqueHashes(rows) && AllOk(ok)
    requires forall h :: h in s ==> h in QueueOrder(rows) && !s[h].error
    ensures |ActiveSet(Balance(QueueOrder(rows), s, Some(max), keepSeeding, ok).session)| <= max
  {
    ActiveAfterBalance(rows, s, Some(max), keepSeeding, ok);
    var first := Take(WaitingList(QueueOrder(rows), s), max);
    assert (set h | h in ActiveSet(s) && (h !in QueueOrder(rows) || s[h].error)) == {};
    SetOfSeq(first);
  }

  lemma {:induction false} SetOfSeq(xs: seq<string>)
    ensures |(set x | x in xs)| <= |xs|
  {
    if xs != [] {
      SetOfSeq(xs[1..]);
      assert (set x | x in xs) == {xs[0]} + (set x | x in xs[1..]);
    }
  }

  /** A torrent added paused whenever the queue is full keeps the bound. */
  lemma AddKeepsBound(s: Session, h: string, t: Torrent, max: nat)
    requires h !in s && |ActiveSet(s)| <= max
    requires QueueIsFull(s, Some(max)) ==> t.paused
    ensures |ActiveSet(s[h := t])| <= max
  {
    var s' := s[h := t];
    if t.paused || t.finished {
      assert ActiveSet(s') == ActiveSet(s);
    } else {
      assert ActiveSet(s') == ActiveSet(s) + {h};
    }
  }

  /** A property that each step keeps exactly under a condition holds throughout exactly if the conditions do. */
  lemma {:induction false} HoldsThroughoutIff(holds: nat -> bool, fits: nat -> bool, n: nat)
    requires forall i: nat :: i < n && holds(i) ==> (holds(i + 1) <==> fits(i))
    ensures (forall i: nat :: i <= n ==> holds(i)) <==> holds(0) && forall i: nat :: i < n ==> fits(i)
  {
    if n > 0 {
      HoldsThroughoutIff(holds, fits, n - 1);
      if holds(0) && forall i: nat :: i < n ==> fits(i) {
        assert forall i: nat :: i < n - 1 ==> fits(i);
        assert holds(n - 1) && fits(n - 1);
        assert holds(n);
      }
      if forall i: nat :: i <= n ==> holds(i) {
        assert holds(n - 1) && holds(n - 1 + 1);
      }
    }
  }

  // ---- draining ---------------------------------------------------------------------

  /** A download finishes; unless it is to seed, it is paused. */
  function Complete(s: Session, h: string, keepSeeding: bool): Session
    requires h in s
  {
    s[h := s[h].(finished := true, paused := s[h].paused || !keepSeeding)]
  }

  function CompleteAndBalance(order: seq<string>, s: Session, h: string, max: nat, keepSeeding: bool,
                              ok: string -> bool): Session
    requires h in s
  {
    Balance(order, Complete(s, h, keepSeeding), Some(max), keepSeeding, ok).session
  }

  function Without(xs: seq<string>, h: string): seq<string>
  {
    if xs == [] then []
    else if xs[0] == h then xs[1..]
    else [xs[0]] + Without(xs[1..], h)
  }

  lemma {:induction false} CompleteLeaves(order: seq<string>, s: Session, h: string, keepSeeding: bool)
    requires h in s && Distinct(order) && IsWaiting(s, h)
    ensures WaitingList(order, Complete(s, h, keepSeeding)) == Without(WaitingList(order, s), h)
  {
    if order != [] {
      TailDistinct(order);
      if order[0] == h {
        var w := WaitingList(order[1..], s);
        WaitingElsewhere(order[1..], s, h, keepSeeding);
        assert ([h] + w)[1..] == w;
      } else {
        CompleteLeaves(order[1..], s, h, keepSeeding);
        WaitingMembers(order[1..], s);
        var w := WaitingList(order[1..], s);
        assert ([order[0]] + w)[1..] == w;
      }
    }
  }

  lemma {:induction false} WaitingElsewhere(order: seq<string>, s: Session, h: string, keepSeeding: bool)
    requires h in s && h !in order
    ensures WaitingList(order, Complete(s, h, keepSeeding)) == WaitingList(order, s)
  {
    if order != [] {
      assert order == [order[0]] + order[1..];
      WaitingElsewhere(order[1..], s, h, keepSeeding);
    }
  }

  lemma {:induction false} WithoutIndex(xs: seq<string>, i: nat)
    requires i < |xs| && Distinct(xs)
    ensures Without(xs, xs[i]) == xs[..i] + xs[i + 1..]
  {
    if i > 0 {
      WithoutIndex(xs[1..], i - 1);
    }
  }

  /** Each torrent that finishes was running at the time. */
  ghost predicate DrainRun(order: seq<string>, s: Session, done: seq<string>, max: nat, keepSeeding: bool,
                           ok: string -> bool)
    decreases |done|
  {
    done == [] ||
    (&& done[0] in RunningList(order, s)
     && done[0] in s
     && DrainRun(order, CompleteAndBalance(order, s, done[0], max, keepSeeding, ok), done[1..], max, keepSeeding, ok))
  }

  /** The torrents that start running during the run, in the order they do. */
  ghost function Starts(order: seq<string>, s: Session, done: seq<string>, max: nat, keepSeeding: bool,
                        ok: string -> bool): seq<string>
    requires DrainRun(order, s, done, max, keepSeeding, ok)
    decreases |done|
  {
    if done == [] then []
    else
      var s' := CompleteAndBalance(order, s, done[0], max, keepSeeding, ok);
      NewlyRunning(RunningList(order, s), RunningList(order, s'))
      + Starts(order, s', done[1..], max, keepSeeding, ok)
  }

  function NewlyRunning(before: seq<string>, after: seq<string>): seq<string>
  {
    if after == [] then []
    else if after[0] in before then NewlyRunning(before, after[1..])
    else [after[0]] + NewlyRunning(before, after[1..])
  }

  lemma {:induction false} NothingNew(before: seq<string>, after: seq<string>)
    requires forall h :: h in after ==> h in before
    ensures NewlyRunning(before, after) == []
  {
    if after != [] {
      assert after[0] in after;
      NothingNew(before, after[1..]);
    }
  }

  lemma {:induction false} OneNew(before: seq<string>, kept: seq<string>, h: string)
    requires forall x :: x in kept ==> x in before
    requires h !in before
    ensures NewlyRunning(before, kept + [h]) == [h]
  {
    if kept == [] {
      assert kept + [h] == [h];
      assert NewlyRunning(before, [h][1..]) == [];
    } else {
      assert kept[0] in kept;
      assert (kept + [h])[1..] == kept[1..] + [h];
      OneNew(before, kept[1..], h);
    }
  }

  /** One completion starts the torrent next in line, if there is one. */
  lemma OneCompletion(order: seq<string>, s: Session, h: string, max: nat, keepSeeding: bool, ok: string -> bool)
    requires Distinct(order) && AllOk(ok) && h in s
    requires RunningList(order, s) == Take(WaitingList(order, s), max)
    requires h in RunningList(order, s)
    ensures var s' := CompleteAndBalance(order, s, h, max, keepSeeding, ok);
            var w := WaitingList(order, s);
            && WaitingList(order, s') == Without(w, h)
            && RunningList(order, s') == Take(WaitingList(order, s'), max)
            && Drop(WaitingList(order, s'), max) == Drop(w, max + 1)
            && NewlyRunning(RunningList(order, s), RunningList(order, s')) == Take(Drop(w, max), 1)
  {
    var w := WaitingList(order, s);
    WaitingMembers(order, s);
    RunningMembers(order, s);
    var c := Complete(s, h, keepSeeding);
    var s' := CompleteAndBalance(order, s, h, max, keepSeeding, ok);
    CompleteLeaves(order, s, h, keepSeeding);
    BalanceFrame(order, c, 0, Some(max), keepSeeding, ok);
    WaitingSame(order, c, s');
    BalanceRunsFirst(order, c, 0, Some(max), keepSeeding, ok);
    var first := Take(w, max);
    var i :| 0 <= i < |first| && first[i] == h;
    assert w[i] == h;
    WithoutIndex(w, i);
    RemovalShifts(w, i, max);
  }

  lemma RemovalShifts(w: seq<string>, i: nat, max: nat)
    requires Distinct(w) && i < |w| && i < max
    ensures var w' := w[..i] + w[i + 1..];
            && Drop(w', max) == Drop(w, max + 1)
            && NewlyRunning(Take(w, max), Take(w', max)) == Take(Drop(w, max), 1)
  {
    var w' := w[..i] + w[i + 1..];
    var first := Take(w, max);
    if |w| > max {
      var stay := w[..i] + w[i + 1..max];
      assert Take(w', max) == stay + [w[max]];
      assert Drop(w', max) == w[max + 1..] == Drop(w, max + 1);
      forall x | x in stay ensures x in first {
        assert x in w[..max];
      }
      OneNew(first, stay, w[max]);
    } else {
      assert Take(w', max) == w';
      NothingNew(first, w');
    }
  }

  lemma TakeOneMore(w: seq<string>, max: nat, n: nat)
    requires n > 0
    ensures Take(Drop(w, max), n) == Take(Drop(w, max), 1) + Take(Drop(w, max + 1), n - 1)
  {
    if max < |w| {
      var tail := w[max..];
      assert Drop(w, max + 1) == tail[1..];
      assert tail == [tail[0]] + tail[1..];
    }
  }

  /**
    Repeated completion and rebalancing starts the queued torrents in queue order: the
    starts of a run are the next torrents in line, one per completion while any are left.
  */
  lemma {:induction false} DrainsInOrder(order: seq<string>, s: Session, done: seq<string>, max: nat,
                                         keepSeeding: bool, ok: string -> bool)
    requires Distinct(order) && AllOk(ok)
    requires RunningList(order, s) == Take(WaitingList(order, s), max)
    requires DrainRun(order, s, done, max, keepSeeding, ok)
    ensures Starts(order, s, done, max, keepSeeding, ok) == Take(Drop(WaitingList(order, s), max), |done|)
    decreases |done|
  {
    if done != [] {
      OneCompletion(order, s, done[0], max, keepSeeding, ok);
      var s' := CompleteAndBalance(order, s, done[0], max, keepSeeding, ok);
      DrainsInOrder(order, s', done[1..], max, keepSeeding, ok);
      TakeOneMore(WaitingList(order, s), max, |done|);
    }
  }
}
