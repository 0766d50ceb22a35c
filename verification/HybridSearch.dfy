/**
 * Hybrid retrieval of memories: filtered vector and keyword rankings, reciprocal rank fusion, and the
 * truncated, decay-weighted rerank. Scores are exact reals; the database ranks each row by the row alone
 * and breaks ties by table order.
 */
module HybridSearch {
  import opened Options
  import opened Sequences

  // ----- stable descending sort -----

  function Insert<T>(x: T, ys: seq<T>, key: T -> real): seq<T> {
    if ys == [] || !(key(x) < key(ys[0])) then [x] + ys else [ys[0]] + Insert(x, ys[1..], key)
  }

  /** Highest key first; equal keys keep their order. */
  function SortDesc<T>(xs: seq<T>, key: T -> real): seq<T> {
    if xs == [] then [] else Insert(xs[0], SortDesc(xs[1..], key), key)
  }

  ghost predicate Descending<T>(xs: seq<T>, key: T -> real) {
    forall i, j :: 0 <= i < j < |xs| ==> key(xs[i]) >= key(xs[j])
  }

  ghost predicate Before<T>(xs: seq<T>, a: T, b: T) {
    exists i, j :: 0 <= i < j < |xs| && xs[i] == a && xs[j] == b
  }

  lemma {:induction false} InsertPermutes<T>(x: T, ys: seq<T>, key: T -> real)
    ensures multiset(Insert(x, ys, key)) == multiset{x} + multiset(ys)
  {
    if ys == [] || !(key(x) < key(ys[0])) {
    } else {
      InsertPermutes(x, ys[1..], key);
      assert ys == [ys[0]] + ys[1..];
    }
  }

  lemma {:induction false} InsertSorts<T>(x: T, ys: seq<T>, key: T -> real)
    requires Descending(ys, key)
    ensures Descending(Insert(x, ys, key), key)
  {
    if ys == [] || !(key(x) < key(ys[0])) {
    } else {
      var rest := Insert(x, ys[1..], key);
      assert Descending(ys[1..], key);
      InsertSorts(x, ys[1..], key);
      forall i | 0 <= i < |rest|
        ensures key(ys[0]) >= key(rest[i])
      {
        InsertPermutes(x, ys[1..], key);
        assert rest[i] in multiset(rest);
        if rest[i] != x {
          assert rest[i] in ys[1..];
        }
      }
    }
  }

  lemma {:induction false} SortFacts<T>(xs: seq<T>, key: T -> real)
    ensures multiset(SortDesc(xs, key)) == multiset(xs) && |SortDesc(xs, key)| == |xs|
    ensures Descending(SortDesc(xs, key), key)
  {
    if xs == [] {
    } else {
      SortFacts(xs[1..], key);
      InsertPermutes(xs[0], SortDesc(xs[1..], key), key);
      InsertSorts(xs[0], SortDesc(xs[1..], key), key);
      assert xs == [xs[0]] + xs[1..];
    }
    assert |multiset(SortDesc(xs, key))| == |SortDesc(xs, key)| && |multiset(xs)| == |xs|;
  }

  lemma SortKeepsMembers<T>(xs: seq<T>, key: T -> real, x: T)
    ensures x in SortDesc(xs, key) <==> x in xs
  {
    SortFacts(xs, key);
    assert x in multiset(SortDesc(xs, key)) <==> x in multiset(xs);
  }

  lemma {:induction false} SortOfSorted<T>(xs: seq<T>, key: T -> real)
    requires Descending(xs, key)
    ensures SortDesc(xs, key) == xs
  {
    if xs == [] {
    } else {
      assert Descending(xs[1..], key);
      SortOfSorted(xs[1..], key);
    }
  }

  /** What a LIMIT leaves out scores no higher than what it lets through. */
  lemma TopIsTop<T>(xs: seq<T>, key: T -> real, n: nat, kept: T, dropped: T)
    requires Descending(xs, key) && kept in Take(xs, n) && dropped in xs && dropped !in Take(xs, n)
    ensures key(kept) >= key(dropped)
  {
    var i :| 0 <= i < |Take(xs, n)| && Take(xs, n)[i] == kept;
    var j :| 0 <= j < |xs| && xs[j] == dropped;
    assert xs[i] == kept;
  }

  lemma {:induction false} TopIsLimited<T>(xs: seq<T>, key: T -> real, n: nat)
    ensures |Take(SortDesc(xs, key), n)| <= n && Descending(Take(SortDesc(xs, key), n), key)
  {
    SortFacts(xs, key);
  }

  // ----- reciprocal rank fusion -----

  datatype Scored = Scored(id: int, score: real)

  function ByScore(): Scored -> real {
    (s: Scored) => s.score
  }

  function Reciprocal(k: nat, rank: nat): real
    requires 0 < rank
  {
    1.0 / (k + rank) as real
  }

  /** What one ranking contributes to `id`, from position `i` on. */
  function RankScore(ranking: seq<int>, k: nat, id: int, i: nat): real
    requires i <= |ranking|
    decreases |ranking| - i
  {
    if i == |ranking| then 0.0
    else (if ranking[i] == id then Reciprocal(k, i + 1) else 0.0) + RankScore(ranking, k, id, i + 1)
  }

  function RankSum(rankings: seq<seq<int>>, k: nat, id: int): real {
    if rankings == [] then 0.0
    else RankSum(rankings[..|rankings| - 1], k, id) + RankScore(Last(rankings), k, id, 0)
  }

  /** The fused score: the rank sum, lifted to the floor if pinned. */
  function FusedScore(rankings: seq<seq<int>>, k: nat, pinned: set<int>, id: int): real {
    var sum := RankSum(rankings, k, id);
    if id in pinned && sum < 1.0 then 1.0 else sum
  }

  /** The ids in the order they are first seen: a dict's insertion order. */
  function FirstSeen(seen: seq<int>, ranking: seq<int>): seq<int>
    decreases ranking
  {
    if ranking == [] then seen
    else FirstSeen(if ranking[0] in seen then seen else seen + [ranking[0]], ranking[1..])
  }

  function Candidates(rankings: seq<seq<int>>): seq<int> {
    if rankings == [] then [] else FirstSeen(Candidates(rankings[..|rankings| - 1]), Last(rankings))
  }

  function Fused(rankings: seq<seq<int>>, k: nat, pinned: set<int>): (fused: seq<Scored>)
    ensures |fused| == |Candidates(rankings)|
    ensures forall i :: 0 <= i < |fused| ==> fused[i].id == Candidates(rankings)[i]
  {
    var ids := Candidates(rankings);
    seq(|ids|, i requires 0 <= i < |ids| => Scored(ids[i], FusedScore(rankings, k, pinned, ids[i])))
  }

  /** The rank sum from position `i` on is the rank sum less what the first `i` positions gave. */
  function RankScoreUpTo(ranking: seq<int>, k: nat, id: int, i: nat): real
    requires i <= |ranking|
  {
    if i == 0 then 0.0
    else RankScoreUpTo(ranking, k, id, i - 1) + if ranking[i - 1] == id then Reciprocal(k, i) else 0.0
  }

  lemma {:induction false} RankScoreSplit(ranking: seq<int>, k: nat, id: int, i: nat)
    requires i <= |ranking|
    ensures RankScoreUpTo(ranking, k, id, i) + RankScore(ranking, k, id, i) == RankScore(ranking, k, id, 0)
  {
    if i == 0 {
    } else {
      RankScoreSplit(ranking, k, id, i - 1);
    }
  }

  lemma {:induction false} FirstSeenStep(seen: seq<int>, ranking: seq<int>, i: nat)
    requires i < |ranking|
    ensures var before := FirstSeen(seen, ranking[..i]);
            FirstSeen(seen, ranking[..i + 1]) == if ranking[i] in before then before else before + [ranking[i]]
    decreases i
  {
    if i == 0 {
      assert ranking[..1] == [ranking[0]] && ranking[..0] == [] && [ranking[0]][1..] == [];
    } else {
      var next := if ranking[0] in seen then seen else seen + [ranking[0]];
      assert ranking[..i][1..] == ranking[1..][..i - 1] && ranking[..i + 1][1..] == ranking[1..][..i];
      FirstSeenStep(next, ranking[1..], i - 1);
    }
  }

  /** `rrf_fuse`: the loops over rankings and ranks, filling an insertion-ordered dict. */
  method RrfFuse(rankings: seq<seq<int>>, k: nat, pinned: set<int>)
    returns (order: seq<int>, scores: map<int, real>)
    ensures order == Candidates(rankings)
    ensures forall id :: id in scores <==> id in order
    ensures forall id :: id in scores ==> scores[id] == FusedScore(rankings, k, pinned, id)
  {
    order, scores := [], map[];
    for r := 0 to |rankings|
      invariant order == Candidates(rankings[..r])
      invariant forall id :: id in scores <==> id in order
      invariant forall id :: (if id in scores then scores[id] else 0.0) == RankSum(rankings[..r], k, id)
    {
      var ranking := rankings[r];
      assert rankings[..r + 1][..r] == rankings[..r] && Last(rankings[..r + 1]) == ranking;
      order, scores := FuseOne(ranking, k, order, scores);
      forall id
        ensures RankScoreUpTo(ranking, k, id, |ranking|) == RankScore(ranking, k, id, 0)
      {
        RankScoreSplit(ranking, k, id, |ranking|);
      }
    }
    assert rankings[..|rankings|] == rankings;
    scores := map id | id in scores :: if id in pinned && scores[id] < 1.0 then 1.0 else scores[id];
  }

  method FuseOne(ranking: seq<int>, k: nat, order0: seq<int>, scores0: map<int, real>)
    returns (order: seq<int>, scores: map<int, real>)
    requires forall id :: id in scores0 <==> id in order0
    ensures order == FirstSeen(order0, ranking)
    ensures forall id :: id in scores <==> id in order
    ensures forall id :: (if id in scores then scores[id] else 0.0)
                         == (if id in scores0 then scores0[id] else 0.0) + RankScoreUpTo(ranking, k, id, |ranking|)
  {
    order, scores := order0, scores0;
    for i := 0 to |ranking|
      invariant order == FirstSeen(order0, ranking[..i])
      invariant forall id :: id in scores <==> id in order
      invariant forall id :: (if id in scores then scores[id] else 0.0)
                             == (if id in scores0 then scores0[id] else 0.0) + RankScoreUpTo(ranking, k, id, i)
    {
      var mid := ranking[i];
      FirstSeenStep(order0, ranking, i);
      if mid !in scores {
        order := order + [mid];
      }
      scores := scores[mid := (if mid in scores then scores[mid] else 0.0) + Reciprocal(k, i + 1)];
    }
    assert ranking[..|ranking|] == ranking;
  }

  // ----- searching -----

  datatype Scope = Scope(kind: string, id: int)

  datatype Row = Row(
    id: int, org: int, scope: Scope, live: bool, status: string, sensitivity: nat, trust: string,
    embedded: bool, pinned: bool, decay: real)

  /** The caller, the filters, the limits, and how the database ranks one row against the query. */
  datatype Query = Query(
    superuser: bool, org: int, scopes: seq<Scope>, maxSensitivity: nat, trusts: seq<string>,
    hasVector: bool, topVector: nat, topKeyword: nat, rrfK: nat, limit: nat,
    closeness: Row -> real, matches: Row -> bool, relevance: Row -> real)

  /** Live, approved, and within the caller's org, scopes, sensitivity and trust. */
  predicate Permits(q: Query, r: Row) {
    && r.live
    && r.status == "approved"
    && (q.superuser || r.org == q.org)
    && (q.scopes == [] || r.scope in q.scopes)
    && r.sensitivity <= q.maxSensitivity
    && (q.trusts == [] || r.trust in q.trusts)
  }

  function Allowed(q: Query): Row -> bool {
    (r: Row) => Permits(q, r)
  }

  function AllowedEmbedded(q: Query): Row -> bool {
    (r: Row) => r.embedded && Permits(q, r)
  }

  function AllowedMatch(q: Query): Row -> bool {
    (r: Row) => q.matches(r) && Permits(q, r)
  }

  function Ids(rows: seq<Row>): seq<int> {
    seq(|rows|, i requires 0 <= i < |rows| => rows[i].id)
  }

  function VectorRows(db: seq<Row>, q: Query): seq<Row> {
    if q.hasVector then Take(SortDesc(Filter(db, AllowedEmbedded(q)), q.closeness), q.topVector) else []
  }

  function KeywordRows(db: seq<Row>, q: Query): seq<Row> {
    Take(SortDesc(Filter(db, AllowedMatch(q)), q.relevance), q.topKeyword)
  }

  /** The row with an id, as the follow-up queries by id find it: they filter on nothing else. */
  function Find(db: seq<Row>, id: int): Option<Row> {
    if db == [] then None else if db[0].id == id then Some(db[0]) else Find(db[1..], id)
  }

  function Rankings(db: seq<Row>, q: Query): seq<seq<int>> {
    [Ids(VectorRows(db, q)), Ids(KeywordRows(db, q))]
  }

  function PinnedAmong(db: seq<Row>, ids: seq<int>): set<int> {
    set i | 0 <= i < |ids| && Find(db, ids[i]).Some? && Find(db, ids[i]).value.pinned :: ids[i]
  }

  /** Every candidate with its fused score, best first. */
  function Ordered(db: seq<Row>, q: Query): seq<Scored> {
    var rankings := Rankings(db, q);
    SortDesc(Fused(rankings, q.rrfK, PinnedAmong(db, Candidates(rankings))), ByScore())
  }

  /** Decay applied to one candidate. */
  function Weighted(r: Row, s: Scored): Scored {
    Scored(s.id, s.score * (0.5 + 0.5 * r.decay))
  }

  /** Decay applied to every candidate whose row was fetched; the others are skipped. */
  function Reweighted(db: seq<Row>, xs: seq<Scored>): seq<Scored> {
    if xs == [] then []
    else
      var found, before := Find(db, Last(xs).id), Reweighted(db, xs[..|xs| - 1]);
      if found.Some? then before + [Weighted(found.value, Last(xs))] else before
  }

  /** The hits: the best `2 * limit` by fused score, reranked with decay, cut to `limit`. */
  function Reranked(db: seq<Row>, ordered: seq<Scored>, limit: nat): seq<Scored> {
    Take(SortDesc(Reweighted(db, Take(ordered, 2 * limit)), ByScore()), limit)
  }

  function Search(db: seq<Row>, q: Query): seq<Scored> {
    Reranked(db, Ordered(db, q), q.limit)
  }

  /** The loop that builds the hits in fused order, then sorts and cuts them. */
  method Rerank(db: seq<Row>, ordered: seq<Scored>, limit: nat) returns (hits: seq<Scored>)
    ensures hits == Reranked(db, ordered, limit)
  {
    var keep := Take(ordered, Max(limit * 2, limit));
    hits := [];
    for i := 0 to |keep|
      invariant hits == Reweighted(db, keep[..i])
    {
      assert keep[..i + 1][..i] == keep[..i] && Last(keep[..i + 1]) == keep[i];
      var found := Find(db, keep[i].id);
      if found.Some? {
        var multiplier := 0.5 + 0.5 * found.value.decay;
        assert Weighted(found.value, keep[i]) == Scored(keep[i].id, keep[i].score * multiplier);
        hits := hits + [Scored(keep[i].id, keep[i].score * multiplier)];
      }
      assert hits == Reweighted(db, keep[..i + 1]);
    }
    assert keep[..|keep|] == keep;
    hits := Take(SortDesc(hits, ByScore()), limit);
  }

  // ----- filters come before the limits -----

  ghost predicate UniqueIds(db: seq<Row>) {
    forall i, j :: 0 <= i < j < |db| ==> db[i].id != db[j].id
  }

  lemma {:induction false} FindIs(db: seq<Row>, r: Row)
    requires UniqueIds(db) && r in db
    ensures Find(db, r.id) == Some(r)
  {
    if db[0] == r {
    } else {
      assert r in db[1..];
      var j :| 0 <= j < |db[1..]| && db[1..][j] == r;
      assert db[j + 1] == r;
      FindIs(db[1..], r);
    }
  }

  lemma {:induction false} UniqueFilter(db: seq<Row>, p: Row -> bool)
    requires UniqueIds(db)
    ensures UniqueIds(Filter(db, p))
  {
    if db == [] {
    } else {
      UniqueFilter(db[1..], p);
      FilterSound(db[1..], p);
      var rest, all := Filter(db[1..], p), Filter(db, p);
      forall i, j | 0 <= i < j < |all|
        ensures all[i].id != all[j].id
      {
        if p(db[0]) {
          assert all[j] == rest[j - 1] && rest[j - 1] in db[1..];
          var n :| 0 <= n < |db[1..]| && db[1..][n] == rest[j - 1];
          assert db[n + 1] == all[j];
          assert i > 0 ==> all[i] == rest[i - 1];
        } else {
          assert all == rest;
        }
      }
    }
  }

  lemma SameRankings(db: seq<Row>, q: Query)
    ensures var seen := Filter(db, Allowed(q));
            VectorRows(seen, q) == VectorRows(db, q) && KeywordRows(seen, q) == KeywordRows(db, q)
  {
    FilterFilter(db, Allowed(q), AllowedEmbedded(q), AllowedEmbedded(q));
    FilterFilter(db, Allowed(q), AllowedMatch(q), AllowedMatch(q));
  }

  lemma {:induction false} FirstSeenMembers(seen: seq<int>, ranking: seq<int>, id: int)
    requires id in FirstSeen(seen, ranking)
    ensures id in seen || id in ranking
    decreases ranking
  {
    if ranking == [] {
    } else {
      FirstSeenMembers(if ranking[0] in seen then seen else seen + [ranking[0]], ranking[1..], id);
    }
  }

  lemma CandidateIsVisible(db: seq<Row>, q: Query, id: int) returns (r: Row)
    requires id in Candidates(Rankings(db, q))
    ensures r in db && r.id == id && Permits(q, r) && (q.matches(r) || (q.hasVector && r.embedded))
  {
    var v, k := VectorRows(db, q), KeywordRows(db, q);
    var rankings := Rankings(db, q);
    assert rankings[..1] == [Ids(v)] && [Ids(v)][..0] == [];
    assert Candidates([Ids(v)]) == FirstSeen([], Ids(v));
    FirstSeenMembers(FirstSeen([], Ids(v)), Ids(k), id);
    if id in Ids(k) {
      var i :| 0 <= i < |k| && k[i].id == id;
      r := k[i];
      SortKeepsMembers(Filter(db, AllowedMatch(q)), q.relevance, r);
      FilterMember(db, AllowedMatch(q), r);
    } else {
      FirstSeenMembers([], Ids(v), id);
      var i :| 0 <= i < |v| && v[i].id == id;
      r := v[i];
      SortKeepsMembers(Filter(db, AllowedEmbedded(q)), q.closeness, r);
      FilterMember(db, AllowedEmbedded(q), r);
    }
  }

  /** Every candidate is a row the caller may see. */
  lemma CandidatesAreAllowed(db: seq<Row>, q: Query, id: int) returns (r: Row)
    requires id in Candidates(Rankings(db, q))
    ensures r in Filter(db, Allowed(q)) && r.id == id
  {
    r := CandidateIsVisible(db, q, id);
    FilterMember(db, Allowed(q), r);
  }

  lemma SameFind(db: seq<Row>, q: Query, id: int)
    requires UniqueIds(db) && id in Candidates(Rankings(db, q))
    ensures Find(Filter(db, Allowed(q)), id) == Find(db, id) && Find(db, id).Some?
  {
    var r := CandidatesAreAllowed(db, q, id);
    UniqueFilter(db, Allowed(q));
    FilterMember(db, Allowed(q), r);
    FindIs(Filter(db, Allowed(q)), r);
    FindIs(db, r);
  }

  lemma OrderedAreCandidates(db: seq<Row>, q: Query, s: Scored)
    requires s in Ordered(db, q)
    ensures s.id in Candidates(Rankings(db, q))
  {
    var rankings := Rankings(db, q);
    var fused := Fused(rankings, q.rrfK, PinnedAmong(db, Candidates(rankings)));
    SortKeepsMembers(fused, ByScore(), s);
    var i :| 0 <= i < |fused| && fused[i] == s;
  }

  /** `visible` is said of a row column by column. */
  ghost predicate SeesExactly(q: Query, visible: Row -> bool) {
    forall r: Row :: visible(r) <==>
      && r.live && r.status == "approved"
      && (q.superuser || r.org == q.org)
      && (q.scopes == [] || r.scope in q.scopes)
      && r.sensitivity <= q.maxSensitivity
      && (q.trusts == [] || r.trust in q.trusts)
  }

  lemma AllowedByColumns(q: Query)
    ensures SeesExactly(q, Allowed(q))
  {}

  lemma SearchOfAllowed(db: seq<Row>, q: Query)
    requires UniqueIds(db)
    ensures Search(Filter(db, Allowed(q)), q) == Search(db, q)
  {
    var seen := Filter(db, Allowed(q));
    SameRankings(db, q);
    var ids := Candidates(Rankings(db, q));
    forall i | 0 <= i < |ids|
      ensures Find(seen, ids[i]) == Find(db, ids[i])
    {
      SameFind(db, q, ids[i]);
    }
    assert PinnedAmong(seen, ids) == PinnedAmong(db, ids);
    var kept := Take(Ordered(db, q), 2 * q.limit);
    forall s | s in kept
      ensures Find(seen, s.id) == Find(db, s.id)
    {
      OrderedAreCandidates(db, q, s);
      SameFind(db, q, s.id);
    }
    SameReweighted(seen, db, kept);
  }

  /**
   * Rows the caller may not see change nothing: two databases with the same live, approved rows of the caller's
   * org, scopes, sensitivity and trust give the same hits.
   */
  lemma SearchIsNonInterfering(a: seq<Row>, b: seq<Row>, q: Query, visible: Row -> bool)
    requires UniqueIds(a) && UniqueIds(b) && SeesExactly(q, visible) && Filter(a, visible) == Filter(b, visible)
    ensures Search(a, q) == Search(b, q)
  {
    AllowedByColumns(q);
    FilterSame(a, visible, Allowed(q));
    FilterSame(b, visible, Allowed(q));
    SearchOfAllowed(a, q);
    SearchOfAllowed(b, q);
  }

  lemma {:induction false} SameReweighted(a: seq<Row>, b: seq<Row>, xs: seq<Scored>)
    requires forall s :: s in xs ==> Find(a, s.id) == Find(b, s.id)
    ensures Reweighted(a, xs) == Reweighted(b, xs)
  {
    if xs == [] {
    } else {
      assert Last(xs) in xs;
      SameReweighted(a, b, xs[..|xs| - 1]);
    }
  }

  // ----- what truncating before the rerank can cost -----

  ghost predicate DecayInRange(db: seq<Row>) {
    forall r :: r in db ==> 0.0 <= r.decay <= 1.0
  }

  lemma {:induction false} FoundIsMember(db: seq<Row>, id: int)
    ensures Find(db, id).Some? ==> Find(db, id).value in db
  {
    if db == [] {
    } else {
      FoundIsMember(db[1..], id);
    }
  }

  lemma WeightedInRange(r: Row, s: Scored)
    requires 0.0 <= r.decay <= 1.0 && 0.0 <= s.score
    ensures 0.0 <= Weighted(r, s).score <= s.score <= 2.0 * Weighted(r, s).score
  {
    var m := 0.5 + 0.5 * r.decay;
    assert s.score * m <= s.score * 1.0;
    assert s.score * 0.5 <= s.score * m;
  }

  /** The reweighted hits are exactly the fetched candidates, each with its weight. */
  lemma {:induction false} ReweightedMember(db: seq<Row>, xs: seq<Scored>, hit: Scored) returns (s: Scored)
    requires hit in Reweighted(db, xs)
    ensures s in xs && Find(db, s.id).Some? && hit == Weighted(Find(db, s.id).value, s)
  {
    var init := xs[..|xs| - 1];
    if hit in Reweighted(db, init) {
      s := ReweightedMember(db, init, hit);
    } else {
      s := Last(xs);
    }
  }

  lemma {:induction false} ReweightedHas(db: seq<Row>, xs: seq<Scored>, s: Scored)
    requires s in xs && Find(db, s.id).Some?
    ensures Weighted(Find(db, s.id).value, s) in Reweighted(db, xs)
  {
    if s == Last(xs) {
    } else {
      var i :| 0 <= i < |xs| && xs[i] == s;
      assert xs[..|xs| - 1][i] == s;
      ReweightedHas(db, xs[..|xs| - 1], s);
    }
  }

  /**
   * Whatever the fused scores: a candidate left out of the hits, by either cut, would have scored at
   * most twice any hit.
   */
  lemma LeftOutAtMostTwice(db: seq<Row>, ordered: seq<Scored>, limit: nat, hit: Scored, out: Scored)
    requires DecayInRange(db) && Descending(ordered, ByScore())
    requires forall s :: s in ordered ==> 0.0 <= s.score
    requires hit in Reranked(db, ordered, limit)
    requires out in ordered && Find(db, out.id).Some?
    requires Weighted(Find(db, out.id).value, out) !in Reranked(db, ordered, limit)
    ensures Weighted(Find(db, out.id).value, out).score <= 2.0 * hit.score
  {
    var kept := Take(ordered, 2 * limit);
    var weighted := Reweighted(db, kept);
    var missed := Weighted(Find(db, out.id).value, out);
    SortFacts(weighted, ByScore());
    SortKeepsMembers(weighted, ByScore(), hit);
    var source := ReweightedMember(db, kept, hit);
    FoundIsMember(db, source.id);
    WeightedInRange(Find(db, source.id).value, source);
    FoundIsMember(db, out.id);
    WeightedInRange(Find(db, out.id).value, out);
    if out in kept {
      ReweightedHas(db, kept, out);
      SortKeepsMembers(weighted, ByScore(), missed);
      TopIsTop(SortDesc(weighted, ByScore()), ByScore(), limit, hit, missed);
    } else {
      TopIsTop(ordered, ByScore(), 2 * limit, source, out);
    }
  }

  lemma {:induction false} RankScoreNonnegative(ranking: seq<int>, k: nat, id: int, i: nat)
    requires i <= |ranking|
    ensures 0.0 <= RankScore(ranking, k, id, i)
    decreases |ranking| - i
  {
    if i >= |ranking| {
    } else {
      RankScoreNonnegative(ranking, k, id, i + 1);
    }
  }

  lemma {:induction false} FusedNonnegative(rankings: seq<seq<int>>, k: nat, pinned: set<int>, id: int)
    ensures 0.0 <= RankSum(rankings, k, id) <= FusedScore(rankings, k, pinned, id)
  {
    if rankings == [] {
    } else {
      FusedNonnegative(rankings[..|rankings| - 1], k, pinned, id);
      RankScoreNonnegative(Last(rankings), k, id, 0);
    }
  }

  /** The same of a whole search: no candidate that is not returned would have scored more than twice a hit. */
  lemma SearchLosesAtMostHalf(db: seq<Row>, q: Query, hit: Scored, out: Scored)
    requires UniqueIds(db) && DecayInRange(db)
    requires hit in Search(db, q) && out in Ordered(db, q)
    ensures Find(db, out.id).Some?
    ensures var missed := Weighted(Find(db, out.id).value, out);
            missed !in Search(db, q) ==> missed.score <= 2.0 * hit.score
  {
    OrderedAreCandidates(db, q, out);
    SameFind(db, q, out.id);
    var rankings := Rankings(db, q);
    var pinned := PinnedAmong(db, Candidates(rankings));
    var fused := Fused(rankings, q.rrfK, pinned);
    SortFacts(fused, ByScore());
    forall s | s in Ordered(db, q)
      ensures 0.0 <= s.score
    {
      SortKeepsMembers(fused, ByScore(), s);
      FusedNonnegative(rankings, q.rrfK, pinned, s.id);
    }
    if Weighted(Find(db, out.id).value, out) !in Search(db, q) {
      LeftOutAtMostTwice(db, Ordered(db, q), q.limit, hit, out);
    }
  }

  // ----- hits, column by column -----

  lemma {:induction false} HitIsCandidate(db: seq<Row>, q: Query, hit: Scored) returns (fused: Scored)
    requires hit in Search(db, q)
    ensures fused in Ordered(db, q) && fused.id == hit.id && fused.id in Candidates(Rankings(db, q))
    ensures Find(db, hit.id).Some? && hit == Weighted(Find(db, hit.id).value, fused)
  {
    var kept := Take(Ordered(db, q), 2 * q.limit);
    SortKeepsMembers(Reweighted(db, kept), ByScore(), hit);
    fused := ReweightedMember(db, kept, hit);
    OrderedAreCandidates(db, q, fused);
  }

  /**
   * Every hit is a row of the database that is live, approved, of the caller's org, in the scopes if any are
   * given, within the sensitivity, and of an allowed trust if any are given; and it matches the words, or has a
   * vector while the query has one.
   */
  lemma {:induction false} HitIsVisible(db: seq<Row>, q: Query, hit: Scored) returns (r: Row)
    requires hit in Search(db, q)
    ensures r in db && r.id == hit.id
    ensures r.live && r.status == "approved" && (q.superuser || r.org == q.org)
    ensures (q.scopes == [] || r.scope in q.scopes) && r.sensitivity <= q.maxSensitivity
    ensures q.trusts == [] || r.trust in q.trusts
    ensures q.matches(r) || (q.hasVector && r.embedded)
  {
    var fused := HitIsCandidate(db, q, hit);
    r := CandidateIsVisible(db, q, fused.id);
  }

  /** Its score is its fused score, weighted by a half plus half its decay. */
  lemma {:induction false} HitIsWeighted(db: seq<Row>, q: Query, hit: Scored, r: Row) returns (fused: Scored)
    requires UniqueIds(db) && hit in Search(db, q) && r in db && r.id == hit.id
    ensures fused in Ordered(db, q) && fused.id == hit.id && hit.score == fused.score * (0.5 + r.decay / 2.0)
  {
    fused := HitIsCandidate(db, q, hit);
    FindIs(db, r);
    HalfAndHalf(fused, r);
  }

  lemma HalfAndHalf(s: Scored, r: Row)
    ensures Weighted(r, s).id == s.id && Weighted(r, s).score == s.score * (0.5 + r.decay / 2.0)
  {
    assert 0.5 * r.decay == r.decay / 2.0;
  }

  lemma {:induction false} FirstSeenHas(seen: seq<int>, ranking: seq<int>, id: int)
    requires id in seen || id in ranking
    ensures id in FirstSeen(seen, ranking)
    decreases ranking
  {
    if ranking == [] {
    } else {
      var next := if ranking[0] in seen then seen else seen + [ranking[0]];
      assert id in ranking ==> id == ranking[0] || id in ranking[1..];
      FirstSeenHas(next, ranking[1..], id);
    }
  }

  lemma RankedIsCandidate(db: seq<Row>, q: Query, id: int)
    requires id in Ids(VectorRows(db, q)) || id in Ids(KeywordRows(db, q))
    ensures id in Candidates(Rankings(db, q))
  {
    var v, k := Ids(VectorRows(db, q)), Ids(KeywordRows(db, q));
    var rankings := Rankings(db, q);
    assert rankings[..1] == [v] && [v][..0] == [];
    assert Candidates([v]) == FirstSeen([], v);
    if id in v {
      FirstSeenHas([], v, id);
    }
    FirstSeenHas(FirstSeen([], v), k, id);
  }

  /** A row a limit leaves out is outranked by as many rows as the limit lets through. */
  lemma TopOrOutranked(rows: seq<Row>, key: Row -> real, n: nat, r: Row)
    requires r in rows
    ensures var top := Take(SortDesc(rows, key), n);
            r in top || (|top| == n && forall s :: s in top ==> s in rows && key(s) >= key(r))
  {
    var sorted := SortDesc(rows, key);
    SortFacts(rows, key);
    SortKeepsMembers(rows, key, r);
    forall s | s in Take(sorted, n)
      ensures s in rows && (r !in Take(sorted, n) ==> key(s) >= key(r))
    {
      SortKeepsMembers(rows, key, s);
      if r !in Take(sorted, n) {
        TopIsTop(sorted, key, n, s, r);
      }
    }
  }

  /**
   * And every row with those columns that has a vector, while the query has one, or matches the words, is a
   * candidate, unless as many such rows as the ranking's limit rank no lower.
   */
  lemma VisibleIsCandidate(db: seq<Row>, q: Query, visible: Row -> bool, r: Row)
    requires SeesExactly(q, visible) && r in db && visible(r)
    ensures q.hasVector && r.embedded ==>
              || r.id in Candidates(Rankings(db, q))
              || (var top := VectorRows(db, q);
                  |top| == q.topVector && forall s :: s in top ==> s in db && visible(s) && s.embedded && q.closeness(s) >= q.closeness(r))
    ensures q.matches(r) ==>
              || r.id in Candidates(Rankings(db, q))
              || (var top := KeywordRows(db, q);
                  |top| == q.topKeyword && forall s :: s in top ==> s in db && visible(s) && q.matches(s) && q.relevance(s) >= q.relevance(r))
  {
    AllowedByColumns(q);
    if q.hasVector && r.embedded {
      VectorOrOutranked(db, q, r);
    }
    if q.matches(r) {
      KeywordOrOutranked(db, q, r);
    }
  }

  /** Neither ranking is longer than its limit, and both are best first. */
  lemma {:induction false} RankingsAreLimited(db: seq<Row>, q: Query)
    ensures |VectorRows(db, q)| <= q.topVector && Descending(VectorRows(db, q), q.closeness)
    ensures |KeywordRows(db, q)| <= q.topKeyword && Descending(KeywordRows(db, q), q.relevance)
  {
    TopIsLimited(Filter(db, AllowedEmbedded(q)), q.closeness, q.topVector);
    TopIsLimited(Filter(db, AllowedMatch(q)), q.relevance, q.topKeyword);
  }

  lemma VectorOrOutranked(db: seq<Row>, q: Query, r: Row)
    requires r in db && Permits(q, r) && q.hasVector && r.embedded
    ensures var top := VectorRows(db, q);
            || r.id in Candidates(Rankings(db, q))
            || (|top| == q.topVector && forall s :: s in top ==> s in db && Permits(q, s) && s.embedded && q.closeness(s) >= q.closeness(r))
  {
    var rows, top := Filter(db, AllowedEmbedded(q)), VectorRows(db, q);
    FilterMember(db, AllowedEmbedded(q), r);
    FilterSound(db, AllowedEmbedded(q));
    TopOrOutranked(rows, q.closeness, q.topVector, r);
    if r in top {
      var i :| 0 <= i < |top| && top[i] == r;
      assert Ids(top)[i] == r.id;
      RankedIsCandidate(db, q, r.id);
    }
  }

  lemma KeywordOrOutranked(db: seq<Row>, q: Query, r: Row)
    requires r in db && Permits(q, r) && q.matches(r)
    ensures var top := KeywordRows(db, q);
            || r.id in Candidates(Rankings(db, q))
            || (|top| == q.topKeyword && forall s :: s in top ==> s in db && Permits(q, s) && q.matches(s) && q.relevance(s) >= q.relevance(r))
  {
    var rows, top := Filter(db, AllowedMatch(q)), KeywordRows(db, q);
    FilterMember(db, AllowedMatch(q), r);
    FilterSound(db, AllowedMatch(q));
    TopOrOutranked(rows, q.relevance, q.topKeyword, r);
    if r in top {
      var i :| 0 <= i < |top| && top[i] == r;
      assert Ids(top)[i] == r.id;
      RankedIsCandidate(db, q, r.id);
    }
  }

  lemma {:induction false} AllReweighted(db: seq<Row>, xs: seq<Scored>)
    requires forall s :: s in xs ==> Find(db, s.id).Some?
    ensures |Reweighted(db, xs)| == |xs|
  {
    if xs == [] {
    } else {
      assert Last(xs) in xs;
      AllReweighted(db, xs[..|xs| - 1]);
    }
  }

  /** A search returns as many hits as the limit asks for and there are candidates, best first. */
  lemma SearchFillsLimit(db: seq<Row>, q: Query)
    requires UniqueIds(db)
    ensures |Search(db, q)| == Min(q.limit, |Candidates(Rankings(db, q))|) && Descending(Search(db, q), ByScore())
  {
    var rankings := Rankings(db, q);
    var fused := Fused(rankings, q.rrfK, PinnedAmong(db, Candidates(rankings)));
    SortFacts(fused, ByScore());
    var kept := Take(Ordered(db, q), 2 * q.limit);
    forall s | s in kept
      ensures Find(db, s.id).Some?
    {
      OrderedAreCandidates(db, q, s);
      SameFind(db, q, s.id);
    }
    AllReweighted(db, kept);
    SortFacts(Reweighted(db, kept), ByScore());
  }
}
