/** The bound on what the truncated rerank can lose is reached, for every limit and fusion constant. */
module SearchLimits {
  import opened Options
  import opened Sequences
  import opened HybridSearch
  import opened PinnedSearch

  /** Pinned rows that all match alike: the first `2 * limit` have faded, the last has not. */
  function TightRow(limit: nat, i: nat): Row {
    Row(i, 1, Scope("org", 1), true, "approved", 1, "medium", true, true, if i < 2 * limit then 0.0 else 1.0)
  }

  function TightDb(limit: nat): (db: seq<Row>)
    ensures |db| == 2 * limit + 1 && forall i :: 0 <= i < |db| ==> db[i] == TightRow(limit, i)
  {
    seq(2 * limit + 1, i requires 0 <= i < 2 * limit + 1 => TightRow(limit, i))
  }

  function TightQuery(limit: nat, k: nat): Query {
    Query(true, 1, [], 4, [], true, 2 * limit + 1, 0, k, limit, (r: Row) => 0.0, (r: Row) => false, (r: Row) => 0.0)
  }

  lemma TightDbFacts(limit: nat)
    ensures UniqueIds(TightDb(limit)) && DecayInRange(TightDb(limit))
    ensures forall i :: 0 <= i <= 2 * limit ==> Find(TightDb(limit), i) == Some(TightRow(limit, i))
  {
    var db := TightDb(limit);
    forall i | 0 <= i <= 2 * limit
      ensures Find(db, i) == Some(TightRow(limit, i))
    {
      assert db[i] in db;
      FindIs(db, db[i]);
    }
  }

  lemma TightRankings(limit: nat, k: nat)
    ensures Rankings(TightDb(limit), TightQuery(limit, k)) == [Ids(TightDb(limit)), []]
  {
    var db, q := TightDb(limit), TightQuery(limit, k);
    FilterAll(db, AllowedEmbedded(q));
    SortOfSorted(db, q.closeness);
    FilterNone(db, AllowedMatch(q));
  }

  lemma {:induction false} FirstSeenAll(seen: seq<int>, ranking: seq<int>)
    requires Distinct(seen + ranking)
    ensures FirstSeen(seen, ranking) == seen + ranking
    decreases ranking
  {
    if ranking == [] {
    } else {
      var all := seen + ranking;
      assert all[|seen|] == ranking[0];
      assert forall i :: 0 <= i < |seen| ==> all[i] == seen[i];
      assert seen + [ranking[0]] + ranking[1..] == all;
      FirstSeenAll(seen + [ranking[0]], ranking[1..]);
    }
  }

  lemma TightCandidates(limit: nat)
    ensures Candidates([Ids(TightDb(limit)), []]) == Ids(TightDb(limit)) && Distinct(Ids(TightDb(limit)))
  {
    var ids := Ids(TightDb(limit));
    var rankings := [ids, []];
    assert rankings[..1] == [ids] && [ids][..0] == [];
    assert [] + ids == ids;
    FirstSeenAll([], ids);
    assert Candidates([ids]) == ids;
  }

  lemma TightScore(limit: nat, k: nat, id: int, pinned: set<int>)
    requires id in pinned
    ensures FusedScore([Ids(TightDb(limit)), []], k, pinned, id) == 1.0
  {
    var ids := Ids(TightDb(limit));
    var rankings := [ids, []];
    TightCandidates(limit);
    RankScoreAtMostFirst(ids, k, id, 0);
    LargerReciprocal(1.0, (k + 1) as real);
    assert rankings[..1] == [ids] && [ids][..0] == [];
    assert RankSum([ids], k, id) == RankScore(ids, k, id, 0);
    assert RankScore([], k, id, 0) == 0.0;
  }

  /** Every candidate scores the pinned floor, so they stay in table order. */
  lemma TightOrdered(limit: nat, k: nat)
    ensures var ordered := Ordered(TightDb(limit), TightQuery(limit, k));
            |ordered| == 2 * limit + 1 && forall i :: 0 <= i < |ordered| ==> ordered[i] == Scored(i, 1.0)
  {
    var db, q, ids := TightDb(limit), TightQuery(limit, k), Ids(TightDb(limit));
    var pinned := PinnedAmong(db, ids);
    TightRankings(limit, k);
    TightCandidates(limit);
    TightDbFacts(limit);
    var fused := Fused([ids, []], k, pinned);
    forall i | 0 <= i < |fused|
      ensures fused[i] == Scored(i, 1.0)
    {
      assert ids[i] == i && i in pinned;
      TightScore(limit, k, i, pinned);
    }
    assert Descending(fused, ByScore());
    SortOfSorted(fused, ByScore());
  }

  /** A hit, and a candidate left out that would have scored exactly twice as much. */
  lemma TwiceIsReached(limit: nat, k: nat) returns (hit: Scored, out: Scored)
    requires 0 < limit
    ensures var db, q := TightDb(limit), TightQuery(limit, k);
            && UniqueIds(db) && DecayInRange(db)
            && hit in Search(db, q) && out in Ordered(db, q) && Find(db, out.id).Some?
            && HitOf(db, out) !in Search(db, q) && HitOf(db, out).score == 2.0 * hit.score > 0.0
  {
    var db, q := TightDb(limit), TightQuery(limit, k);
    TightDbFacts(limit);
    TightOrdered(limit, k);
    var ordered := Ordered(db, q);
    out := Scored(2 * limit, 1.0);
    assert ordered[2 * limit] == out;
    TightHits(limit, ordered);
    hit := Search(db, q)[0];
    assert hit in Search(db, q);
    assert HitOf(db, out) == Weighted(TightRow(limit, 2 * limit), out);
  }

  lemma TightHits(limit: nat, ordered: seq<Scored>)
    requires 0 < limit && |ordered| == 2 * limit + 1 && forall i :: 0 <= i < |ordered| ==> ordered[i] == Scored(i, 1.0)
    ensures var hits := Reranked(TightDb(limit), ordered, limit);
            hits != [] && forall h :: h in hits ==> h.score == 0.5
  {
    var db, kept := TightDb(limit), Take(ordered, 2 * limit);
    var weighted := Reweighted(db, kept);
    TightDbFacts(limit);
    SortFacts(weighted, ByScore());
    assert kept[0] == Scored(0, 1.0) && kept[0] in kept;
    ReweightedHas(db, kept, kept[0]);
    forall h | h in weighted
      ensures h.score == 0.5
    {
      var s := ReweightedMember(db, kept, h);
      var i :| 0 <= i < |kept| && kept[i] == s;
      assert Find(db, i) == Some(TightRow(limit, i));
    }
    forall h | h in Reranked(db, ordered, limit)
      ensures h.score == 0.5
    {
      SortKeepsMembers(weighted, ByScore(), h);
    }
  }
}
