/**
  Choosing which torrents to evict: least recently used first, never a protected one,
  and no more than the shortage calls for. Sizes are 64-bit words whose additions wrap,
  as they do in a release build.
*/
module Planner {
  import opened Ordering
  import opened Wrappers

  const TWO64: nat := 0x1_0000_0000_0000_0000

  /** Addition of two 64-bit words; overflow wraps. */
  function Add64(a: nat, b: nat): nat
  {
    (a + b) % TWO64
  }

  function SaturatingSub(a: nat, b: nat): nat
  {
    if a < b then 0 else a - b
  }

  function Max(a: nat, b: nat): nat
  {
    if a < b then b else a
  }

  datatype Candidate = Candidate(key: string, size: nat, lastUsedAt: int, protected: bool)

  datatype Plan = Plan(evict: seq<Candidate>, usedBefore: nat, usedAfter: nat)

  datatype PlanError =
    | NotEnoughSpace(needed: nat, freeable: nat)
    | LargerThanBudget(incoming: nat, limit: nat)

  function CandidateRank(c: Candidate): Rank
  {
    Rank(c.lastUsedAt, c.key)
  }

  function Eligible(cs: seq<Candidate>): seq<Candidate>
  {
    if cs == [] then []
    else if cs[0].protected then Eligible(cs[1..])
    else [cs[0]] + Eligible(cs[1..])
  }

  /** The candidates that may be evicted, in the order they would go. */
  function Ranking(cs: seq<Candidate>): seq<Candidate>
  {
    SortByRank(Eligible(cs), CandidateRank)
  }

  function Total(cs: seq<Candidate>): nat
  {
    if cs == [] then 0 else Total(cs[..|cs| - 1]) + cs[|cs| - 1].size
  }

  /** What the running 64-bit counter holds after adding up these sizes. */
  function Freed(cs: seq<Candidate>): nat
  {
    Total(cs) % TWO64
  }

  function Need(used: nat, incoming: nat, limit: nat, extra: nat): nat
  {
    Max(SaturatingSub(Add64(used, incoming), limit), extra)
  }

  /** The length of the shortest prefix, of length at least `k`, that frees `needed`. */
  function Cover(sorted: seq<Candidate>, needed: nat, k: nat): (r: nat)
    requires k <= |sorted|
    ensures k <= r <= |sorted|
    ensures r < |sorted| ==> Freed(sorted[..r]) >= needed
    ensures forall j :: k <= j < r ==> Freed(sorted[..j]) < needed
    decreases |sorted| - k
  {
    if k == |sorted| || Freed(sorted[..k]) >= needed then k else Cover(sorted, needed, k + 1)
  }

  /** The planner's answer, as a function of its inputs. */
  function PlanOf(cs: seq<Candidate>, used: nat, incoming: nat, limit: nat, extra: nat): Result<Plan, PlanError>
  {
    if incoming > limit then
      Err(LargerThanBudget(incoming, limit))
    else
      var needed := Need(used, incoming, limit, extra);
      var sorted := Ranking(cs);
      var evict := sorted[..Cover(sorted, needed, 0)];
      if Freed(evict) < needed then
        Err(NotEnoughSpace(needed - Freed(evict), Freed(evict)))
      else
        Ok(Plan(evict, used, SaturatingSub(used, Freed(evict))))
  }

  /** The planner: sort, then walk the ranking until enough has been freed. */
  method MakePlan(cs: seq<Candidate>, used: nat, incoming: nat, limit: nat, extra: nat)
    returns (r: Result<Plan, PlanError>)
    ensures r == PlanOf(cs, used, incoming, limit, extra)
  {
    if incoming > limit {
      return Err(LargerThanBudget(incoming, limit));
    }
    var overBudget := SaturatingSub(Add64(used, incoming), limit);
    var needed := Max(overBudget, extra);
    if needed == 0 {
      assert Ranking(cs)[..0] == [];
      return Ok(Plan([], used, used));
    }
    var evict, freed := TakeOldest(Ranking(cs), needed);
    if freed < needed {
      needed := needed - freed;
      return Err(NotEnoughSpace(needed, freed));
    }
    return Ok(Plan(evict, used, SaturatingSub(used, freed)));
  }

  /** The walk: candidates are taken in order until the 64-bit counter reaches the need. */
  method TakeOldest(sorted: seq<Candidate>, needed: nat) returns (evict: seq<Candidate>, freed: nat)
    ensures evict == sorted[..Cover(sorted, needed, 0)] && freed == Freed(evict)
  {
    evict, freed := [], 0;
    var i := 0;
    while i < |sorted|
      invariant 0 <= i <= |sorted|
      invariant evict == sorted[..i] && freed == Freed(evict)
      invariant Cover(sorted, needed, 0) == Cover(sorted, needed, i)
    {
      if freed >= needed {
        break;
      }
      FreedSnoc(sorted, i);
      CoverStep(sorted, needed, i);
      freed := Add64(freed, sorted[i].size);
      evict := evict + [sorted[i]];
      i := i + 1;
    }
  }

  lemma CoverStep(sorted: seq<Candidate>, needed: nat, i: nat)
    requires i < |sorted| && Freed(sorted[..i]) < needed
    ensures Cover(sorted, needed, i) == Cover(sorted, needed, i + 1)
  {
  }

  lemma FreedSnoc(cs: seq<Candidate>, i: nat)
    requires i < |cs|
    ensures Freed(cs[..i + 1]) == Add64(Freed(cs[..i]), cs[i].size)
    ensures Total(cs[..i + 1]) == Total(cs[..i]) + cs[i].size
  {
    assert cs[..i + 1][..i] == cs[..i];
    WrapOnce(Total(cs[..i]), cs[i].size);
  }

  lemma WrapOnce(a: nat, b: nat)
    ensures (a % TWO64 + b) % TWO64 == (a + b) % TWO64
  {
    var q := a / TWO64;
    assert a == q * TWO64 + a % TWO64;
    WrapMultiple(a % TWO64 + b, q);
  }

  lemma {:induction false} WrapMultiple(x: nat, q: nat)
    ensures (x + q * TWO64) % TWO64 == x % TWO64
  {
    if q > 0 {
      WrapMultiple(x, q - 1);
      assert x + q * TWO64 == x + (q - 1) * TWO64 + TWO64;
    }
  }

  lemma {:induction false} TotalAppend(a: seq<Candidate>, b: seq<Candidate>)
    ensures Total(a + b) == Total(a) + Total(b)
  {
    if b == [] {
      assert a + b == a;
    } else {
      TotalAppend(a, b[..|b| - 1]);
      assert (a + b)[..|a + b| - 1] == a + b[..|b| - 1];
    }
  }

  lemma TotalPrefix(cs: seq<Candidate>, k: nat)
    requires k <= |cs|
    ensures Total(cs[..k]) <= Total(cs)
  {
    assert cs == cs[..k] + cs[k..];
    TotalAppend(cs[..k], cs[k..]);
  }

  lemma TakeOut(p: seq<Candidate>, c: Candidate, q: seq<Candidate>)
    ensures Total(p + [c] + q) == c.size + Total(p + q)
    ensures multiset(p + q) == multiset(p + [c] + q) - multiset{c}
  {
    TotalAppend(p + [c], q);
    TotalAppend(p, [c]);
    TotalAppend(p, q);
    assert Total([c]) == c.size;
  }

  lemma TakeFirst(a: seq<Candidate>)
    requires a != []
    ensures Total(a) == a[0].size + Total(a[1..])
  {
    assert a == [a[0]] + a[1..];
    TotalAppend([a[0]], a[1..]);
    assert Total([a[0]]) == a[0].size;
  }

  lemma SplitAt(b: seq<Candidate>, c: Candidate) returns (p: seq<Candidate>, q: seq<Candidate>)
    requires c in multiset(b)
    ensures b == p + [c] + q
  {
    assert c in b;
    var i :| 0 <= i < |b| && b[i] == c;
    p, q := b[..i], b[i + 1..];
  }

  lemma {:induction false} TotalPermutes(a: seq<Candidate>, b: seq<Candidate>)
    requires multiset(a) == multiset(b)
    ensures Total(a) == Total(b)
    decreases |a|
  {
    if a == [] {
      SameElements(a, b);
    } else {
      assert a[0] in multiset(a);
      var p, q := SplitAt(b, a[0]);
      TakeFirst(a);
      TailMultiset(a);
      TakeOut(p, a[0], q);
      TotalPermutes(a[1..], p + q);
    }
  }

  lemma {:induction false} EligibleCount(cs: seq<Candidate>, c: Candidate)
    ensures multiset(Eligible(cs))[c] == if c.protected then 0 else multiset(cs)[c]
  {
    if cs != [] {
      EligibleCount(cs[1..], c);
      assert cs == [cs[0]] + cs[1..];
    }
  }

  /** The ranking holds exactly the unprotected candidates, and frees as much in all. */
  lemma RankingHolds(cs: seq<Candidate>)
    ensures forall c :: c in Ranking(cs) <==> c in cs && !c.protected
    ensures Ordered(Ranking(cs), CandidateRank)
    ensures Total(Ranking(cs)) == Total(Eligible(cs))
  {
    SortSorts(Eligible(cs), CandidateRank);
    TotalPermutes(Ranking(cs), Eligible(cs));
    forall c ensures c in Ranking(cs) <==> c in cs && !c.protected {
      EligibleCount(cs, c);
      assert c in Eligible(cs) <==> c in multiset(Eligible(cs));
      assert c in cs <==> c in multiset(cs);
    }
  }

  /**
    The planner succeeds exactly when the torrent fits the whole budget and the
    unprotected candidates cover the need; the victims are then the shortest sufficient
    prefix of the ranking. A refusal accounts for the whole need.
  */
  lemma PlanExact(cs: seq<Candidate>, used: nat, incoming: nat, limit: nat, extra: nat)
    requires Total(Eligible(cs)) < TWO64
    ensures var r := PlanOf(cs, used, incoming, limit, extra);
            var need := Need(used, incoming, limit, extra);
            && (r.Ok? <==> incoming <= limit && need <= Total(Eligible(cs)))
            && (r.Ok? ==>
                  var v := r.value.evict;
                  && v <= Ranking(cs)
                  && need <= Total(v)
                  && (forall j :: 0 <= j < |v| ==> Total(v[..j]) < need)
                  && r.value.usedBefore == used
                  && r.value.usedAfter == SaturatingSub(used, Total(v)))
            && (r.Err? ==>
                  if incoming > limit then r.error == LargerThanBudget(incoming, limit)
                  else && r.error.NotEnoughSpace?
                       && r.error.freeable == Total(Eligible(cs))
                       && r.error.needed + r.error.freeable == need)
  {
    RankingHolds(cs);
    CoverExact(Ranking(cs), Need(used, incoming, limit, extra));
  }

  /** Without overflow the walk stops at the shortest prefix whose total covers the need. */
  lemma CoverExact(sorted: seq<Candidate>, needed: nat)
    requires Total(sorted) < TWO64
    ensures var v := sorted[..Cover(sorted, needed, 0)];
            && Freed(v) == Total(v)
            && (needed <= Total(v) <==> needed <= Total(sorted))
            && (forall j :: 0 <= j < |v| ==> Total(v[..j]) < needed)
            && (Total(v) < needed ==> v == sorted)
  {
    var k := Cover(sorted, needed, 0);
    TotalPrefix(sorted, k);
    forall j | 0 <= j < k ensures Total(sorted[..k][..j]) < needed {
      TotalPrefix(sorted, j);
      assert sorted[..k][..j] == sorted[..j];
      assert Freed(sorted[..j]) < needed;
    }
    assert k == |sorted| ==> sorted[..k] == sorted;
  }

  /** Whatever is left could not have been evicted before anything that was. */
  lemma PlanTakesOldestFirst(cs: seq<Candidate>, used: nat, incoming: nat, limit: nat, extra: nat, victim: Candidate,
                             kept: Candidate)
    requires PlanOf(cs, used, incoming, limit, extra).Ok?
    requires victim in PlanOf(cs, used, incoming, limit, extra).value.evict
    requires kept in cs && !kept.protected && kept !in PlanOf(cs, used, incoming, limit, extra).value.evict
    ensures victim in cs && !victim.protected
    ensures !Before(CandidateRank(kept), CandidateRank(victim))
  {
    RankingHolds(cs);
    var sorted := Ranking(cs);
    var v := PlanOf(cs, used, incoming, limit, extra).value.evict;
    var i :| 0 <= i < |v| && v[i] == victim;
    assert sorted[i] == victim && kept in sorted;
    var j :| 0 <= j < |sorted| && sorted[j] == kept;
    assert forall p :: 0 <= p < |v| ==> v[p] == sorted[p] && v[p] in v;
    assert j >= |v|;
  }

  /** Keys tell the candidates apart, as the primary key of the torrents table ensures. */
  ghost predicate DistinctKeys(cs: seq<Candidate>)
  {
    forall i, j :: 0 <= i < |cs| && 0 <= j < |cs| && cs[i].key == cs[j].key ==> cs[i] == cs[j]
  }

  /** The plan does not depend on the order in which the rows were read. */
  lemma PlanOrderIndependent(cs: seq<Candidate>, ds: seq<Candidate>, used: nat, incoming: nat, limit: nat,
                             extra: nat)
    requires multiset(cs) == multiset(ds) && DistinctKeys(cs)
    ensures PlanOf(cs, used, incoming, limit, extra) == PlanOf(ds, used, incoming, limit, extra)
  {
    RankingOrderIndependent(cs, ds);
  }

  lemma RankingOrderIndependent(cs: seq<Candidate>, ds: seq<Candidate>)
    requires multiset(cs) == multiset(ds) && DistinctKeys(cs)
    ensures Ranking(cs) == Ranking(ds)
  {
    EligiblePermutes(cs, ds);
    EligibleIdentified(cs);
    SortOrderIndependent(Eligible(cs), Eligible(ds), CandidateRank);
  }

  lemma EligiblePermutes(cs: seq<Candidate>, ds: seq<Candidate>)
    requires multiset(cs) == multiset(ds)
    ensures multiset(Eligible(cs)) == multiset(Eligible(ds))
  {
    forall c ensures multiset(Eligible(cs))[c] == multiset(Eligible(ds))[c] {
      EligibleCount(cs, c);
      EligibleCount(ds, c);
    }
  }

  lemma EligibleIdentified(cs: seq<Candidate>)
    requires DistinctKeys(cs)
    ensures RankIdentifies(Eligible(cs), CandidateRank)
  {
    var e := Eligible(cs);
    forall i, j | 0 <= i < |e| && 0 <= j < |e| && CandidateRank(e[i]) == CandidateRank(e[j])
      ensures e[i] == e[j]
    {
      EligibleIn(cs, e[i]);
      EligibleIn(cs, e[j]);
    }
  }

  lemma EligibleIn(cs: seq<Candidate>, c: Candidate)
    requires c in Eligible(cs)
    ensures c in cs
  {
    RankingHolds(cs);
    SortSorts(Eligible(cs), CandidateRank);
    assert c in Ranking(cs);
  }

  /** A larger need evicts the same torrents first, and then possibly more. */
  lemma PlanGrowsByExtension(cs: seq<Candidate>, used: nat, incoming: nat, limit: nat, extra: nat,
                             used': nat, incoming': nat, limit': nat, extra': nat)
    requires Need(used, incoming, limit, extra) <= Need(used', incoming', limit', extra')
    requires PlanOf(cs, used, incoming, limit, extra).Ok?
    requires PlanOf(cs, used', incoming', limit', extra').Ok?
    ensures PlanOf(cs, used, incoming, limit, extra).value.evict
         <= PlanOf(cs, used', incoming', limit', extra').value.evict
  {
    var sorted := Ranking(cs);
    var k := Cover(sorted, Need(used, incoming, limit, extra), 0);
    var k' := Cover(sorted, Need(used', incoming', limit', extra'), 0);
    assert forall j :: 0 <= j < k ==> Freed(sorted[..j]) < Need(used, incoming, limit, extra);
    assert k <= k';
  }

  /** The first of the candidates with the smallest last-used time, as the status page shows it. */
  function Oldest(cs: seq<Candidate>): (r: Option<Candidate>)
    ensures r.None? <==> cs == []
    ensures r.Some? ==> r.value in cs && forall c :: c in cs ==> r.value.lastUsedAt <= c.lastUsedAt
  {
    if cs == [] then None
    else
      var rest := Oldest(cs[1..]);
      assert cs == [cs[0]] + cs[1..];
      if rest.Some? && rest.value.lastUsedAt < cs[0].lastUsedAt then rest else Some(cs[0])
  }

  function NextEviction(cs: seq<Candidate>): Option<Candidate>
  {
    Oldest(Eligible(cs))
  }

  /** Any eviction starts with a torrent as old as the one the status page announces. */
  lemma NextEvictionAnnounced(cs: seq<Candidate>, used: nat, incoming: nat, limit: nat, extra: nat)
    requires PlanOf(cs, used, incoming, limit, extra).Ok?
    requires PlanOf(cs, used, incoming, limit, extra).value.evict != []
    ensures NextEviction(cs).Some?
    ensures NextEviction(cs).value.lastUsedAt == PlanOf(cs, used, incoming, limit, extra).value.evict[0].lastUsedAt
  {
    var sorted := Ranking(cs);
    SortSorts(Eligible(cs), CandidateRank);
    assert sorted[0] in sorted;
    FirstIsLeast(sorted, NextEviction(cs).value, CandidateRank);
  }

  /**
    It is that very torrent exactly when no other candidate for eviction with the same time
    has a smaller key: the plan breaks ties by key, the announcement by table order.
  */
  lemma NextEvictionIsFirstIff(cs: seq<Candidate>, used: nat, incoming: nat, limit: nat, extra: nat)
    requires DistinctKeys(cs)
    requires PlanOf(cs, used, incoming, limit, extra).Ok?
    requires PlanOf(cs, used, incoming, limit, extra).value.evict != []
    ensures NextEviction(cs).Some?
    ensures var next := NextEviction(cs).value;
            next == PlanOf(cs, used, incoming, limit, extra).value.evict[0]
            <==> forall c :: c in cs && !c.protected && c.lastUsedAt == next.lastUsedAt ==> !StringLess(c.key, next.key)
  {
    NextEvictionAnnounced(cs, used, incoming, limit, extra);
    RankingHolds(cs);
    var next, first := NextEviction(cs).value, Ranking(cs)[0];
    EligibleIn(cs, next);
    assert first in Ranking(cs);
    assert next in Ranking(cs) by { EligibleRanked(cs, next); }
    FirstIsLeast(Ranking(cs), next, CandidateRank);
    if next != first {
      StringLessTotal(next.key, first.key);
    }
    forall c | c in cs && !c.protected && c.lastUsedAt == first.lastUsedAt ensures !StringLess(c.key, first.key) {
      FirstIsLeast(Ranking(cs), c, CandidateRank);
    }
  }

  lemma EligibleRanked(cs: seq<Candidate>, c: Candidate)
    requires c in Eligible(cs)
    ensures c in Ranking(cs)
  {
    SortSorts(Eligible(cs), CandidateRank);
    assert c in multiset(Eligible(cs));
  }

  /** A tie in which the announced torrent is not the one evicted. */
  lemma NextEvictionMayDiffer()
    ensures var cs := [Candidate("b", 1, 0, false), Candidate("a", 1, 0, false)];
            && NextEviction(cs) == Some(cs[0])
            && PlanOf(cs, 2, 0, 1, 0) == Ok(Plan([cs[1]], 2, 1))
  {
    var b, a := Candidate("b", 1, 0, false), Candidate("a", 1, 0, false);
    var cs := [b, a];
    assert cs[1..] == [a] && [a][1..] == [];
    assert Eligible([a]) == [a];
    assert Eligible(cs) == [b] + [a] == cs;
    assert StringLess("a", "b");
    assert SortByRank([a], CandidateRank) == [a];
    assert Insert(b, [a], CandidateRank) == [a] + Insert(b, [], CandidateRank);
    var sorted := Ranking(cs);
    assert sorted == [a, b];
    assert sorted[..0] == [] && sorted[..1] == [a];
    assert Total([a]) == 1;
    assert Cover(sorted, 1, 0) == Cover(sorted, 1, 1) == 1;
  }

  /** What a need of `extra` bytes alone, with no regard to the budget, would evict. */
  function ForcedOut(cs: seq<Candidate>, extra: nat): seq<Candidate>
  {
    Ranking(cs)[..Cover(Ranking(cs), extra, 0)]
  }

  /**
    A plan brings the library within its budget exactly when `used + incoming` does not
    overflow a 64-bit word, or the free-space floor alone already forces enough out.
  */
  lemma PlanFitsIff(cs: seq<Candidate>, used: nat, incoming: nat, limit: nat, extra: nat)
    requires Total(cs) <= used < TWO64 && incoming <= limit < TWO64
    requires PlanOf(cs, used, incoming, limit, extra).Ok?
    ensures var v := PlanOf(cs, used, incoming, limit, extra).value.evict;
            used - Total(v) + incoming <= limit
            <==> used + incoming < TWO64 || used + incoming <= limit + Total(ForcedOut(cs, extra))
  {
    EligibleTotal(cs);
    PlanExact(cs, used, incoming, limit, extra);
    if used + incoming >= TWO64 {
      assert Add64(used, incoming) == used + incoming - TWO64;
      assert Need(used, incoming, limit, extra) == extra;
    }
  }

  /** A sum that overflows: without a floor the plan does not fit, and with one it may. */
  lemma OverflowingPlans()
    ensures var a, b := Candidate("a", 5, 0, false), Candidate("b", TWO64 - 6, 0, true);
            var used, limit := TWO64 - 1, TWO64 - 1;
            && Total([a, b]) == used
            && PlanOf([a, b], used, 5, limit, 0) == Ok(Plan([], used, used))
            && PlanOf([a, b], used, 5, limit, 1) == Ok(Plan([a], used, used - 5))
  {
    var a, b := Candidate("a", 5, 0, false), Candidate("b", TWO64 - 6, 0, true);
    var cs := [a, b];
    assert cs[..1] == [a] && [a][..0] == [] && [a][..1] == [a] && Total([a]) == 5;
    assert cs[1..] == [b] && [b][1..] == [];
    assert Eligible([b]) == Eligible([]);
    assert Eligible(cs) == [cs[0]] + Eligible(cs[1..]);
    assert SortByRank([a], CandidateRank) == [a];
    assert Ranking(cs) == [a];
    assert Cover([a], 1, 0) == Cover([a], 1, 1) == 1;
    assert Cover([a], 0, 0) == 0;
  }

  lemma {:induction false} EligibleTotal(cs: seq<Candidate>)
    ensures Total(Eligible(cs)) <= Total(cs)
  {
    if cs != [] {
      EligibleTotal(cs[1..]);
      assert cs == [cs[0]] + cs[1..];
      TotalAppend([cs[0]], cs[1..]);
      TotalAppend([cs[0]], Eligible(cs[1..]));
      assert Total([cs[0]]) == cs[0].size;
    }
  }

  /** Keys are unique by position, as in a list of rows read from the table. */
  ghost predicate UniqueKeys(cs: seq<Candidate>)
  {
    forall i, j :: 0 <= i < j < |cs| ==> cs[i].key != cs[j].key
  }

  lemma {:induction false} UniqueCount(cs: seq<Candidate>, c: Candidate)
    requires UniqueKeys(cs)
    ensures multiset(cs)[c] <= 1
  {
    if cs != [] {
      UniqueCount(cs[1..], c);
      assert cs == [cs[0]] + cs[1..];
      assert cs[0] !in cs[1..];
      assert cs[0] !in multiset(cs[1..]);
    }
  }

  lemma TwiceCount(cs: seq<Candidate>, i: nat, j: nat)
    requires i < j < |cs| && cs[i] == cs[j]
    ensures multiset(cs)[cs[i]] >= 2
  {
    assert cs == cs[..j] + [cs[j]] + cs[j + 1..];
    assert cs[i] in cs[..j];
    assert cs[i] in multiset(cs[..j]);
  }

  /** No torrent is evicted twice. */
  lemma VictimsUnique(cs: seq<Candidate>, used: nat, incoming: nat, limit: nat, extra: nat)
    requires UniqueKeys(cs) && PlanOf(cs, used, incoming, limit, extra).Ok?
    ensures UniqueKeys(PlanOf(cs, used, incoming, limit, extra).value.evict)
  {
    var s := Ranking(cs);
    RankingHolds(cs);
    forall i, j | 0 <= i < j < |s| ensures s[i].key != s[j].key {
      assert s[i] in s && s[j] in s;
      if s[i].key == s[j].key {
        assert s[i] == s[j];
        TwiceCount(s, i, j);
        SortSorts(Eligible(cs), CandidateRank);
        EligibleCount(cs, s[i]);
        UniqueCount(cs, s[i]);
      }
    }
  }
}
