/**
 * "Pinned memories always rise to the top": a pinned candidate precedes every unpinned hit, after the
 * truncation and the decay rerank, exactly when the fusion constant is at least 3.
 */
module PinnedSearch {
  import opened Options
  import opened Sequences
  import opened HybridSearch

  predicate IsPinned(db: seq<Row>, id: int) {
    Find(db, id).Some? && Find(db, id).value.pinned
  }

  /** What a candidate is returned as, if it is returned. */
  function HitOf(db: seq<Row>, s: Scored): Scored {
    if Find(db, s.id).Some? then Weighted(Find(db, s.id).value, s) else s
  }

  ghost predicate PinnedFirst(db: seq<Row>, q: Query) {
    forall p, u :: p in Ordered(db, q) && u in Ordered(db, q) && IsPinned(db, p.id) && !IsPinned(db, u.id)
                   && HitOf(db, u) in Search(db, q)
                   ==> Before(Search(db, q), HitOf(db, p), HitOf(db, u))
  }

  // ----- order is kept by each stage -----

  lemma {:induction false} InsertKeepsBefore<T>(x: T, ys: seq<T>, key: T -> real, a: T, b: T)
    requires Before(ys, a, b)
    ensures Before(Insert(x, ys, key), a, b)
  {
    var i, j :| 0 <= i < j < |ys| && ys[i] == a && ys[j] == b;
    if key(x) < key(ys[0]) {
      var rest := Insert(x, ys[1..], key);
      var all := [ys[0]] + rest;
      if i == 0 {
        InsertPermutes(x, ys[1..], key);
        assert ys[1..][j - 1] == b;
        assert b in multiset(rest);
        var n :| 0 <= n < |rest| && rest[n] == b;
        assert all[0] == a && all[n + 1] == b;
      } else {
        assert ys[1..][i - 1] == a && ys[1..][j - 1] == b;
        InsertKeepsBefore(x, ys[1..], key, a, b);
        var m, n :| 0 <= m < n < |rest| && rest[m] == a && rest[n] == b;
        assert all[m + 1] == a && all[n + 1] == b;
      }
    } else {
      assert ([x] + ys)[i + 1] == a && ([x] + ys)[j + 1] == b;
    }
  }

  lemma {:induction false} InsertGoesBefore<T>(x: T, ys: seq<T>, key: T -> real, b: T)
    requires b in ys && key(x) >= key(b) && Descending(ys, key)
    ensures Before(Insert(x, ys, key), x, b)
  {
    var j :| 0 <= j < |ys| && ys[j] == b;
    if key(x) < key(ys[0]) {
      assert j > 0 && ys[1..][j - 1] == b && Descending(ys[1..], key);
      InsertGoesBefore(x, ys[1..], key, b);
      var rest := Insert(x, ys[1..], key);
      var m, n :| 0 <= m < n < |rest| && rest[m] == x && rest[n] == b;
      assert ([ys[0]] + rest)[m + 1] == x && ([ys[0]] + rest)[n + 1] == b;
    } else {
      assert ([x] + ys)[0] == x && ([x] + ys)[j + 1] == b;
    }
  }

  /** The sort is stable: an earlier element with no smaller key stays earlier. */
  lemma {:induction false} SortIsStable<T>(xs: seq<T>, key: T -> real, a: T, b: T)
    requires Before(xs, a, b) && key(a) >= key(b)
    ensures Before(SortDesc(xs, key), a, b)
  {
    var i, j :| 0 <= i < j < |xs| && xs[i] == a && xs[j] == b;
    var rest := SortDesc(xs[1..], key);
    assert xs[1..][j - 1] == b;
    if i == 0 {
      SortKeepsMembers(xs[1..], key, b);
      SortFacts(xs[1..], key);
      InsertGoesBefore(xs[0], rest, key, b);
    } else {
      assert xs[1..][i - 1] == a;
      SortIsStable(xs[1..], key, a, b);
      InsertKeepsBefore(xs[0], rest, key, a, b);
    }
  }

  lemma SortedBefore<T>(xs: seq<T>, key: T -> real, a: T, b: T)
    requires Descending(xs, key) && a in xs && b in xs && key(a) > key(b)
    ensures Before(xs, a, b)
  {
    var i :| 0 <= i < |xs| && xs[i] == a;
    var j :| 0 <= j < |xs| && xs[j] == b;
    assert i < j;
  }

  /** A cut that lets the later of two through lets the earlier one through before it. */
  lemma TakeKeepsBefore<T(!new)>(xs: seq<T>, n: nat, a: T, b: T)
    requires Before(xs, a, b) && b in Take(xs, n)
    requires forall i, j :: 0 <= i < j < |xs| ==> xs[i] != xs[j]
    ensures Before(Take(xs, n), a, b)
  {
    var i, j :| 0 <= i < j < |xs| && xs[i] == a && xs[j] == b;
    var m :| 0 <= m < |Take(xs, n)| && Take(xs, n)[m] == b;
    assert xs[m] == b && m == j;
    assert Take(xs, n)[i] == a;
  }

  lemma {:induction false} ReweightedKeepsBefore(db: seq<Row>, xs: seq<Scored>, a: Scored, b: Scored)
    requires Before(xs, a, b) && Find(db, a.id).Some? && Find(db, b.id).Some?
    ensures Before(Reweighted(db, xs), HitOf(db, a), HitOf(db, b))
  {
    var i, j :| 0 <= i < j < |xs| && xs[i] == a && xs[j] == b;
    var init := xs[..|xs| - 1];
    var before, all := Reweighted(db, init), Reweighted(db, xs);
    if j < |xs| - 1 {
      assert init[i] == a && init[j] == b;
      ReweightedKeepsBefore(db, init, a, b);
      var m, n :| 0 <= m < n < |before| && before[m] == HitOf(db, a) && before[n] == HitOf(db, b);
      assert all[m] == before[m] && all[n] == before[n];
    } else {
      assert init[i] == a;
      ReweightedHas(db, init, a);
      var m :| 0 <= m < |before| && before[m] == HitOf(db, a);
      assert all[m] == HitOf(db, a) && all[|before|] == HitOf(db, b);
    }
  }

  // ----- distinct ids -----

  ghost predicate DistinctIds(xs: seq<Scored>) {
    forall i, j :: 0 <= i < j < |xs| ==> xs[i].id != xs[j].id
  }

  ghost predicate Distinct(ids: seq<int>) {
    forall i, j :: 0 <= i < j < |ids| ==> ids[i] != ids[j]
  }

  lemma {:induction false} FirstSeenDistinct(seen: seq<int>, ranking: seq<int>)
    requires Distinct(seen)
    ensures Distinct(FirstSeen(seen, ranking))
    decreases ranking
  {
    if ranking == [] {
    } else {
      FirstSeenDistinct(if ranking[0] in seen then seen else seen + [ranking[0]], ranking[1..]);
    }
  }

  lemma {:induction false} CandidatesDistinct(rankings: seq<seq<int>>)
    ensures Distinct(Candidates(rankings))
  {
    if rankings == [] {
    } else {
      CandidatesDistinct(rankings[..|rankings| - 1]);
      FirstSeenDistinct(Candidates(rankings[..|rankings| - 1]), Last(rankings));
    }
  }

  ghost predicate DistinctBy<T>(xs: seq<T>, name: T -> int) {
    forall i, j :: 0 <= i < j < |xs| ==> name(xs[i]) != name(xs[j])
  }

  lemma {:induction false} InsertDistinct<T>(x: T, ys: seq<T>, key: T -> real, name: T -> int)
    requires DistinctBy(ys, name) && forall i :: 0 <= i < |ys| ==> name(ys[i]) != name(x)
    ensures DistinctBy(Insert(x, ys, key), name)
  {
    if ys == [] || !(key(x) < key(ys[0])) {
    } else {
      var rest := Insert(x, ys[1..], key);
      InsertDistinct(x, ys[1..], key, name);
      forall i | 0 <= i < |rest|
        ensures name(rest[i]) != name(ys[0])
      {
        InsertPermutes(x, ys[1..], key);
        assert rest[i] in multiset(rest);
        if rest[i] != x {
          assert rest[i] in ys[1..];
          var j :| 0 <= j < |ys[1..]| && ys[1..][j] == rest[i];
          assert ys[j + 1] == rest[i];
        }
      }
    }
  }

  lemma {:induction false} SortDistinct<T>(xs: seq<T>, key: T -> real, name: T -> int)
    requires DistinctBy(xs, name)
    ensures DistinctBy(SortDesc(xs, key), name)
  {
    if xs == [] {
    } else {
      var rest := SortDesc(xs[1..], key);
      SortDistinct(xs[1..], key, name);
      forall i | 0 <= i < |rest|
        ensures name(rest[i]) != name(xs[0])
      {
        SortKeepsMembers(xs[1..], key, rest[i]);
        var j :| 0 <= j < |xs[1..]| && xs[1..][j] == rest[i];
        assert xs[j + 1] == rest[i];
      }
      InsertDistinct(xs[0], rest, key, name);
    }
  }

  function RowId(): Row -> int {
    (r: Row) => r.id
  }

  function ScoredId(): Scored -> int {
    (s: Scored) => s.id
  }

  lemma {:induction false} ReweightedDistinct(db: seq<Row>, xs: seq<Scored>)
    requires DistinctIds(xs)
    ensures DistinctIds(Reweighted(db, xs))
  {
    if xs == [] {
    } else {
      var init := xs[..|xs| - 1];
      ReweightedDistinct(db, init);
      forall h | h in Reweighted(db, init)
        ensures h.id != Last(xs).id
      {
        var s := ReweightedMember(db, init, h);
      }
    }
  }

  // ----- the scores -----

  lemma {:induction false} RankScoreAbsent(ranking: seq<int>, k: nat, id: int, i: nat)
    requires i <= |ranking| && id !in ranking[i..]
    ensures RankScore(ranking, k, id, i) == 0.0
    decreases |ranking| - i
  {
    if i >= |ranking| {
    } else {
      assert ranking[i..][0] == ranking[i] && ranking[i..][1..] == ranking[i + 1..];
      RankScoreAbsent(ranking, k, id, i + 1);
    }
  }

  lemma {:induction false} RankScoreAt(ranking: seq<int>, k: nat, p: nat, i: nat)
    requires Distinct(ranking) && i <= p < |ranking|
    ensures RankScore(ranking, k, ranking[p], i) == 1.0 / (k + p + 1) as real
    decreases |ranking| - i
  {
    if i == p {
      RankScoreAbsent(ranking, k, ranking[p], i + 1);
    } else {
      RankScoreAt(ranking, k, p, i + 1);
    }
  }

  /** The sum of its reciprocal ranks, at least 1 if pinned. */
  function Lifted(pinned: bool, sum: real): real {
    if pinned && sum < 1.0 then 1.0 else sum
  }

  /**
   * A candidate's fused score: 1 / (k + rank) for its rank, counted from 1, in each of the two rankings that has
   * it, added up, and lifted to 1 if it is pinned.
   */
  lemma FusedScoreIsRrf(db: seq<Row>, q: Query, s: Scored)
    requires UniqueIds(db) && s in Ordered(db, q)
    ensures var v, w, pinned := Ids(VectorRows(db, q)), Ids(KeywordRows(db, q)), IsPinned(db, s.id);
            && (s.id in v || s.id in w)
            && (forall i :: 0 <= i < |v| && v[i] == s.id && s.id !in w ==> s.score == Lifted(pinned, 1.0 / (q.rrfK + i + 1) as real))
            && (forall j :: 0 <= j < |w| && w[j] == s.id && s.id !in v ==> s.score == Lifted(pinned, 1.0 / (q.rrfK + j + 1) as real))
            && (forall i, j :: 0 <= i < |v| && v[i] == s.id && 0 <= j < |w| && w[j] == s.id ==>
                  s.score == Lifted(pinned, 1.0 / (q.rrfK + i + 1) as real + 1.0 / (q.rrfK + j + 1) as real))
  {
    var v, w, pinned := Ids(VectorRows(db, q)), Ids(KeywordRows(db, q)), IsPinned(db, s.id);
    RankingsDistinct(db, q);
    ScoreIsLiftedSum(db, q, s);
    RankedSomewhere(db, q, s);
    forall i | 0 <= i < |v| && v[i] == s.id
      ensures RankScore(v, q.rrfK, s.id, 0) == 1.0 / (q.rrfK + i + 1) as real
    {
      RankScoreAt(v, q.rrfK, i, 0);
    }
    forall j | 0 <= j < |w| && w[j] == s.id
      ensures RankScore(w, q.rrfK, s.id, 0) == 1.0 / (q.rrfK + j + 1) as real
    {
      RankScoreAt(w, q.rrfK, j, 0);
    }
    if s.id !in v {
      assert v[0..] == v;
      RankScoreAbsent(v, q.rrfK, s.id, 0);
    }
    if s.id !in w {
      assert w[0..] == w;
      RankScoreAbsent(w, q.rrfK, s.id, 0);
    }
  }

  lemma RankedSomewhere(db: seq<Row>, q: Query, s: Scored)
    requires s in Ordered(db, q)
    ensures s.id in Ids(VectorRows(db, q)) || s.id in Ids(KeywordRows(db, q))
  {
    var v, w := Ids(VectorRows(db, q)), Ids(KeywordRows(db, q));
    var rankings := Rankings(db, q);
    OrderedAreCandidates(db, q, s);
    assert rankings[..1] == [v] && [v][..0] == [];
    assert Candidates([v]) == FirstSeen([], v);
    FirstSeenMembers(FirstSeen([], v), w, s.id);
    if s.id !in w {
      FirstSeenMembers([], v, s.id);
    }
  }

  lemma ScoreIsLiftedSum(db: seq<Row>, q: Query, s: Scored)
    requires UniqueIds(db) && s in Ordered(db, q)
    ensures s.score == Lifted(IsPinned(db, s.id),
                              RankScore(Ids(VectorRows(db, q)), q.rrfK, s.id, 0) + RankScore(Ids(KeywordRows(db, q)), q.rrfK, s.id, 0))
  {
    var rankings, k := Rankings(db, q), q.rrfK;
    var ids := Candidates(rankings);
    var pinned := PinnedAmong(db, ids);
    OrderedAreCandidates(db, q, s);
    SortKeepsMembers(Fused(rankings, k, pinned), ByScore(), s);
    assert s.id in pinned <==> IsPinned(db, s.id) by {
      var i :| 0 <= i < |ids| && ids[i] == s.id;
    }
    assert rankings[..1] == [rankings[0]] && [rankings[0]][..0] == [];
    assert RankSum([rankings[0]], k, s.id) == RankScore(rankings[0], k, s.id, 0);
  }

  lemma LargerReciprocal(a: real, b: real)
    requires 0.0 < a <= b
    ensures 1.0 / b <= 1.0 / a
  {
    var x, y := 1.0 / a, 1.0 / b;
    if y > x {
      assert y * b > x * b >= x * a;
    }
  }

  lemma {:induction false} RankScoreAtMostFirst(ranking: seq<int>, k: nat, id: int, i: nat)
    requires i <= |ranking| && Distinct(ranking)
    ensures RankScore(ranking, k, id, i) <= Reciprocal(k, 1)
    decreases |ranking| - i
  {
    if i >= |ranking| {
    } else {
      if ranking[i] == id {
        RankScoreAbsent(ranking, k, id, i + 1);
        LargerReciprocal((k + 1) as real, (k + i + 1) as real);
      } else {
        RankScoreAtMostFirst(ranking, k, id, i + 1);
      }
    }
  }

  lemma SortUnique(rows: seq<Row>, key: Row -> real)
    requires UniqueIds(rows)
    ensures UniqueIds(SortDesc(rows, key))
  {
    SortDistinct(rows, key, RowId());
    var sorted := SortDesc(rows, key);
    forall i, j | 0 <= i < j < |sorted|
      ensures sorted[i].id != sorted[j].id
    {
      assert RowId()(sorted[i]) != RowId()(sorted[j]);
    }
  }

  lemma RankingsDistinct(db: seq<Row>, q: Query)
    requires UniqueIds(db)
    ensures Distinct(Ids(VectorRows(db, q))) && Distinct(Ids(KeywordRows(db, q)))
  {
    UniqueFilter(db, AllowedEmbedded(q));
    UniqueFilter(db, AllowedMatch(q));
    SortUnique(Filter(db, AllowedEmbedded(q)), q.closeness);
    SortUnique(Filter(db, AllowedMatch(q)), q.relevance);
  }

  /** Unpinned candidates score at most two first places; pinned ones at least the floor. */
  lemma ScoreGap(db: seq<Row>, q: Query, s: Scored)
    requires UniqueIds(db) && s in Ordered(db, q)
    ensures Find(db, s.id).Some? && 0.0 <= s.score
    ensures IsPinned(db, s.id) ==> 1.0 <= s.score
    ensures !IsPinned(db, s.id) ==> s.score <= 2.0 * Reciprocal(q.rrfK, 1)
  {
    var rankings, k := Rankings(db, q), q.rrfK;
    var ids := Candidates(rankings);
    var pinned := PinnedAmong(db, ids);
    OrderedAreCandidates(db, q, s);
    SameFind(db, q, s.id);
    SortKeepsMembers(Fused(rankings, k, pinned), ByScore(), s);
    FusedNonnegative(rankings, k, pinned, s.id);
    if IsPinned(db, s.id) {
      var i :| 0 <= i < |ids| && ids[i] == s.id;
      assert s.id in pinned;
    } else {
      assert s.id !in pinned;
      RankingsDistinct(db, q);
      RankScoreAtMostFirst(rankings[0], k, s.id, 0);
      RankScoreAtMostFirst(rankings[1], k, s.id, 0);
      assert rankings[..1] == [rankings[0]] && [rankings[0]][..0] == [];
      assert RankSum([rankings[0]], k, s.id) == RankScore(rankings[0], k, s.id, 0);
    }
  }

  lemma OrderedDistinct(db: seq<Row>, q: Query)
    ensures DistinctIds(Ordered(db, q)) && Descending(Ordered(db, q), ByScore())
  {
    var rankings := Rankings(db, q);
    CandidatesDistinct(rankings);
    var fused := Fused(rankings, q.rrfK, PinnedAmong(db, Candidates(rankings)));
    assert DistinctBy(fused, ScoredId());
    SortDistinct(fused, ByScore(), ScoredId());
    assert DistinctBy(Ordered(db, q), ScoredId());
    forall i, j | 0 <= i < j < |Ordered(db, q)|
      ensures Ordered(db, q)[i].id != Ordered(db, q)[j].id
    {
      assert ScoredId()(Ordered(db, q)[i]) != ScoredId()(Ordered(db, q)[j]);
    }
    SortFacts(fused, ByScore());
  }

  lemma ScoresWithLargeK(k: nat)
    requires 3 <= k
    ensures 2.0 * Reciprocal(k, 1) <= 0.5
  {}

  lemma HitComesFromKept(db: seq<Row>, q: Query, u: Scored)
    requires u in Ordered(db, q) && Find(db, u.id).Some? && HitOf(db, u) in Search(db, q)
    ensures u in Take(Ordered(db, q), 2 * q.limit)
  {
    var ordered := Ordered(db, q);
    var kept := Take(ordered, 2 * q.limit);
    OrderedDistinct(db, q);
    SortKeepsMembers(Reweighted(db, kept), ByScore(), HitOf(db, u));
    var s := ReweightedMember(db, kept, HitOf(db, u));
    var i :| 0 <= i < |ordered| && ordered[i] == s;
    var j :| 0 <= j < |ordered| && ordered[j] == u;
    assert s.id == u.id;
  }

  /** The rerank keeps the two in order: the pinned one scores at least as much, and the sort is stable. */
  lemma RerankKeepsBefore(db: seq<Row>, kept: seq<Scored>, limit: nat, p: Scored, u: Scored)
    requires DistinctIds(kept) && Before(kept, p, u) && Find(db, p.id).Some? && Find(db, u.id).Some?
    requires HitOf(db, p).score >= HitOf(db, u).score
    requires HitOf(db, u) in Take(SortDesc(Reweighted(db, kept), ByScore()), limit)
    ensures Before(Take(SortDesc(Reweighted(db, kept), ByScore()), limit), HitOf(db, p), HitOf(db, u))
  {
    var weighted := Reweighted(db, kept);
    ReweightedKeepsBefore(db, kept, p, u);
    SortIsStable(weighted, ByScore(), HitOf(db, p), HitOf(db, u));
    ReweightedDistinct(db, kept);
    assert DistinctBy(weighted, ScoredId());
    SortDistinct(weighted, ByScore(), ScoredId());
    TakeKeepsBefore(SortDesc(weighted, ByScore()), limit, HitOf(db, p), HitOf(db, u));
  }

  lemma PinnedScoresMore(db: seq<Row>, q: Query, p: Scored, u: Scored)
    requires UniqueIds(db) && DecayInRange(db) && 3 <= q.rrfK
    requires p in Ordered(db, q) && u in Ordered(db, q) && IsPinned(db, p.id) && !IsPinned(db, u.id)
    ensures Find(db, p.id).Some? && Find(db, u.id).Some?
    ensures p.score > u.score && HitOf(db, p).score >= HitOf(db, u).score
  {
    ScoreGap(db, q, p);
    ScoreGap(db, q, u);
    ScoresWithLargeK(q.rrfK);
    FoundIsMember(db, p.id);
    FoundIsMember(db, u.id);
    WeightedInRange(Find(db, p.id).value, p);
    WeightedInRange(Find(db, u.id).value, u);
  }

  lemma PinnedPrecedes(db: seq<Row>, q: Query, p: Scored, u: Scored)
    requires UniqueIds(db) && DecayInRange(db) && 3 <= q.rrfK
    requires p in Ordered(db, q) && u in Ordered(db, q) && IsPinned(db, p.id) && !IsPinned(db, u.id)
    requires HitOf(db, u) in Search(db, q)
    ensures Before(Search(db, q), HitOf(db, p), HitOf(db, u))
  {
    var ordered, kept := Ordered(db, q), Take(Ordered(db, q), 2 * q.limit);
    PinnedScoresMore(db, q, p, u);
    OrderedDistinct(db, q);
    SortedBefore(ordered, ByScore(), p, u);
    HitComesFromKept(db, q, u);
    TakeKeepsBefore(ordered, 2 * q.limit, p, u);
    RerankKeepsBefore(db, kept, q.limit, p, u);
  }

  // ----- and why the constant matters -----

  const PLAIN := Row(1, 1, Scope("org", 1), true, "approved", 1, "medium", true, false, 1.0)
  const PINNED := Row(2, 1, Scope("org", 1), true, "approved", 1, "medium", true, true, 0.0)

  function TopOne(k: nat): Query {
    Query(true, 1, [], 4, [], true, 2, 1, k, 1, (r: Row) => if r.id == 1 then 1.0 else 0.0, (r: Row) => r.id == 1,
          (r: Row) => 0.0)
  }

  lemma SmallKRankings(k: nat)
    ensures Rankings([PLAIN, PINNED], TopOne(k)) == [[1, 2], [1]]
  {
    var db, q := [PLAIN, PINNED], TopOne(k);
    assert db[1..] == [PINNED] && [PINNED][1..] == [];
    assert Filter([PINNED], AllowedEmbedded(q)) == [PINNED];
    assert Filter(db, AllowedEmbedded(q)) == db;
    assert SortDesc([PINNED], q.closeness) == [PINNED];
    assert SortDesc(db, q.closeness) == db;
    assert Filter([PINNED], AllowedMatch(q)) == [];
    assert Filter(db, AllowedMatch(q)) == [PLAIN];
    assert [PLAIN][1..] == [];
    assert SortDesc([PLAIN], q.relevance) == [PLAIN];
    assert Ids(db) == [1, 2] && Ids([PLAIN]) == [1];
  }

  lemma SmallKCandidates()
    ensures Candidates([[1, 2], [1]]) == [1, 2]
  {
    var rankings := [[1, 2], [1]];
    assert rankings[..1] == [[1, 2]] && [[1, 2]][..0] == [];
    assert [1, 2][1..] == [2] && [2][1..] == [] && [1][1..] == [];
    assert FirstSeen([1], [2]) == [1, 2];
    assert FirstSeen([], [1, 2]) == [1, 2];
    assert FirstSeen([1, 2], [1]) == [1, 2];
  }

  lemma SmallKFind()
    ensures Find([PLAIN, PINNED], 1) == Some(PLAIN) && Find([PLAIN, PINNED], 2) == Some(PINNED)
  {
    assert [PLAIN, PINNED][1..] == [PINNED];
  }

  lemma SmallKOrdered(k: nat)
    requires k < 3
    ensures var u, p := Scored(1, 2.0 * Reciprocal(k, 1)), Scored(2, 1.0);
            Ordered([PLAIN, PINNED], TopOne(k)) == if u.score < p.score then [p, u] else [u, p]
  {
    var db, rankings := [PLAIN, PINNED], [[1, 2], [1]];
    var u, p := Scored(1, 2.0 * Reciprocal(k, 1)), Scored(2, 1.0);
    SmallKRankings(k);
    SmallKCandidates();
    assert PinnedAmong(db, [1, 2]) == {2} by {
      SmallKFind();
    }
    SmallKScores(k);
    assert Fused(rankings, k, {2}) == [u, p];
    SortTwo(u, p);
  }

  /** Below 3 a fresh unpinned memory that is first in both rankings displaces a faded pinned one. */
  lemma SmallKDisplacesPinned(k: nat)
    requires k < 3
    ensures UniqueIds([PLAIN, PINNED]) && DecayInRange([PLAIN, PINNED]) && !PinnedFirst([PLAIN, PINNED], TopOne(k))
  {
    var db, q := [PLAIN, PINNED], TopOne(k);
    var u, p := Scored(1, 2.0 * Reciprocal(k, 1)), Scored(2, 1.0);
    var ordered := Ordered(db, q);
    SmallKOrdered(k);
    SmallKScores(k);
    SmallKFind();
    SmallKHits(db, ordered, u, p);
    assert Search(db, q) == [HitOf(db, u)];
    assert u in ordered && p in ordered;
    assert !Before(Search(db, q), HitOf(db, p), HitOf(db, u));
  }

  lemma SortTwo(a: Scored, b: Scored)
    ensures SortDesc([a, b], ByScore()) == if a.score < b.score then [b, a] else [a, b]
  {
    assert [a, b][1..] == [b] && [b][1..] == [];
    assert SortDesc([b], ByScore()) == Insert(b, [], ByScore()) == [b];
    assert Insert(a, [], ByScore()) == [a];
    assert Insert(a, [b], ByScore()) == if a.score < b.score then [b] + [a] else [a] + [b];
  }

  lemma SmallKScores(k: nat)
    requires k < 3
    ensures FusedScore([[1, 2], [1]], k, {2}, 1) == 2.0 * Reciprocal(k, 1) > 0.5
    ensures FusedScore([[1, 2], [1]], k, {2}, 2) == 1.0
  {
    var rankings := [[1, 2], [1]];
    assert rankings[..1] == [[1, 2]] && [[1, 2]][..0] == [];
    assert RankScore([1, 2], k, 1, 0) == Reciprocal(k, 1) && RankScore([1], k, 1, 0) == Reciprocal(k, 1);
    assert RankScore([1, 2], k, 2, 0) == Reciprocal(k, 2) && RankScore([1], k, 2, 0) == 0.0;
    assert Reciprocal(k, 2) < 1.0;
  }

  lemma SmallKHits(db: seq<Row>, ordered: seq<Scored>, u: Scored, p: Scored)
    requires Find(db, u.id) == Some(PLAIN) && Find(db, p.id) == Some(PINNED)
    requires u.score > 0.5 && p.score == 1.0 && (ordered == [u, p] || ordered == [p, u])
    ensures Reranked(db, ordered, 1) == [Weighted(PLAIN, u)]
  {
    var hu, hp := Weighted(PLAIN, u), Weighted(PINNED, p);
    assert ordered[..1][..0] == [] && Reweighted(db, ordered[..1]) == [HitOf(db, ordered[0])];
    var weighted := Reweighted(db, ordered);
    assert weighted == [HitOf(db, ordered[0]), HitOf(db, ordered[1])];
    SortTwo(weighted[0], weighted[1]);
    assert hu.score == u.score && hp.score == 0.5;
    assert SortDesc(weighted, ByScore()) == [hu, hp];
  }

  /** Pinned memories come first in every search if and only if the fusion constant is at least 3. */
  lemma PinnedFirstIff(k: nat)
    ensures (forall db, q: Query | UniqueIds(db) && DecayInRange(db) && q.rrfK == k :: PinnedFirst(db, q)) <==> 3 <= k
  {
    if 3 <= k {
      forall db, q: Query | UniqueIds(db) && DecayInRange(db) && q.rrfK == k
        ensures PinnedFirst(db, q)
      {
        forall p, u | p in Ordered(db, q) && u in Ordered(db, q) && IsPinned(db, p.id) && !IsPinned(db, u.id)
                      && HitOf(db, u) in Search(db, q)
          ensures Before(Search(db, q), HitOf(db, p), HitOf(db, u))
        {
          PinnedPrecedes(db, q, p, u);
        }
      }
    } else {
      SmallKDisplacesPinned(k);
      assert TopOne(k).rrfK == k;
    }
  }
}
