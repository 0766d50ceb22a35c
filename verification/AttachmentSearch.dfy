/**
 * Hybrid retrieval of attachment chunks: the filters are those of the attachment a chunk belongs to, the
 * fusion is that of memories without pinning, and no decay multiplies the scores.
 */
module AttachmentSearch {
  import opened Options
  import opened Sequences
  import opened HybridSearch

  /** A chunk joined with its attachment: `live` and the filter columns are the attachment's. */
  datatype Chunk = Chunk(id: int, org: int, scope: Scope, live: bool, sensitivity: nat, embedded: bool)

  datatype ChunkQuery = ChunkQuery(
    superuser: bool, org: int, scopes: seq<Scope>, maxSensitivity: nat,
    hasVector: bool, topVector: nat, topKeyword: nat, rrfK: nat, limit: nat,
    closeness: Chunk -> real, matches: Chunk -> bool, relevance: Chunk -> real)

  predicate PermitsChunk(q: ChunkQuery, c: Chunk) {
    && c.live
    && (q.superuser || c.org == q.org)
    && (q.scopes == [] || c.scope in q.scopes)
    && c.sensitivity <= q.maxSensitivity
  }

  function AllowedChunk(q: ChunkQuery): Chunk -> bool {
    (c: Chunk) => PermitsChunk(q, c)
  }

  function AllowedVector(q: ChunkQuery): Chunk -> bool {
    (c: Chunk) => c.embedded && PermitsChunk(q, c)
  }

  function AllowedKeyword(q: ChunkQuery): Chunk -> bool {
    (c: Chunk) => q.matches(c) && PermitsChunk(q, c)
  }

  function ChunkIds(chunks: seq<Chunk>): seq<int> {
    seq(|chunks|, i requires 0 <= i < |chunks| => chunks[i].id)
  }

  function VectorChunks(db: seq<Chunk>, q: ChunkQuery): seq<Chunk> {
    if q.hasVector then Take(SortDesc(Filter(db, AllowedVector(q)), q.closeness), q.topVector) else []
  }

  function KeywordChunks(db: seq<Chunk>, q: ChunkQuery): seq<Chunk> {
    Take(SortDesc(Filter(db, AllowedKeyword(q)), q.relevance), q.topKeyword)
  }

  function ChunkRankings(db: seq<Chunk>, q: ChunkQuery): seq<seq<int>> {
    [ChunkIds(VectorChunks(db, q)), ChunkIds(KeywordChunks(db, q))]
  }

  /** Every candidate with its fused score, best first. */
  function OrderedChunks(db: seq<Chunk>, q: ChunkQuery): seq<Scored> {
    SortDesc(Fused(ChunkRankings(db, q), q.rrfK, {}), ByScore())
  }

  /** The follow-up query by id filters on nothing else. */
  predicate Stored(db: seq<Chunk>, id: int) {
    exists i :: 0 <= i < |db| && db[i].id == id
  }

  function IsStored(db: seq<Chunk>): Scored -> bool {
    (s: Scored) => Stored(db, s.id)
  }

  /** The hits: the best `2 * limit`, those still there, sorted again and cut to `limit`. */
  function ChunkHits(db: seq<Chunk>, ordered: seq<Scored>, limit: nat): seq<Scored> {
    Take(SortDesc(Filter(Take(ordered, 2 * limit), IsStored(db)), ByScore()), limit)
  }

  function SearchChunks(db: seq<Chunk>, q: ChunkQuery): seq<Scored> {
    ChunkHits(db, OrderedChunks(db, q), q.limit)
  }

  /** The loop that fills the hits in fused order, then sorts and cuts them. */
  method RerankChunks(db: seq<Chunk>, ordered: seq<Scored>, limit: nat) returns (hits: seq<Scored>)
    ensures hits == ChunkHits(db, ordered, limit)
  {
    var keep := Take(ordered, Max(limit * 2, limit));
    hits := [];
    for i := 0 to |keep|
      invariant hits == Filter(keep[..i], IsStored(db))
    {
      assert keep[..i + 1] == keep[..i] + [keep[i]];
      FilterSnoc(keep[..i], keep[i], IsStored(db));
      if Stored(db, keep[i].id) {
        hits := hits + [keep[i]];
      }
    }
    assert keep[..|keep|] == keep;
    hits := Take(SortDesc(hits, ByScore()), limit);
  }

  /** Every candidate is a chunk the caller may see. */
  lemma ChunkCandidatesAreAllowed(db: seq<Chunk>, q: ChunkQuery, id: int) returns (c: Chunk)
    requires id in Candidates(ChunkRankings(db, q))
    ensures c in db && PermitsChunk(q, c) && c.id == id && (q.matches(c) || (q.hasVector && c.embedded))
  {
    var v, k := VectorChunks(db, q), KeywordChunks(db, q);
    var rankings := ChunkRankings(db, q);
    assert rankings[..1] == [ChunkIds(v)] && [ChunkIds(v)][..0] == [];
    assert Candidates([ChunkIds(v)]) == FirstSeen([], ChunkIds(v));
    FirstSeenMembers(FirstSeen([], ChunkIds(v)), ChunkIds(k), id);
    if id in ChunkIds(k) {
      var i :| 0 <= i < |k| && k[i].id == id;
      c := k[i];
      SortKeepsMembers(Filter(db, AllowedKeyword(q)), q.relevance, c);
      FilterMember(db, AllowedKeyword(q), c);
    } else {
      FirstSeenMembers([], ChunkIds(v), id);
      var i :| 0 <= i < |v| && v[i].id == id;
      c := v[i];
      SortKeepsMembers(Filter(db, AllowedVector(q)), q.closeness, c);
      FilterMember(db, AllowedVector(q), c);
    }
  }

  lemma OrderedIsStored(db: seq<Chunk>, q: ChunkQuery, s: Scored)
    requires s in OrderedChunks(db, q)
    ensures Stored(db, s.id) && Stored(Filter(db, AllowedChunk(q)), s.id)
  {
    var rankings := ChunkRankings(db, q);
    var fused := Fused(rankings, q.rrfK, {});
    SortKeepsMembers(fused, ByScore(), s);
    var i :| 0 <= i < |fused| && fused[i] == s;
    var c := ChunkCandidatesAreAllowed(db, q, s.id);
    FilterMember(db, AllowedChunk(q), c);
    var j :| 0 <= j < |db| && db[j] == c;
    var k :| 0 <= k < |Filter(db, AllowedChunk(q))| && Filter(db, AllowedChunk(q))[k] == c;
  }

  lemma TakeOfTake(xs: seq<Scored>, limit: nat)
    ensures Take(Take(xs, 2 * limit), limit) == Take(xs, limit)
  {}

  /** Without a multiplier the truncation costs nothing: the hits are the top of the full ranking. */
  lemma ChunkSearchIsExact(db: seq<Chunk>, q: ChunkQuery)
    ensures SearchChunks(db, q) == Take(OrderedChunks(db, q), q.limit)
    ensures Descending(OrderedChunks(db, q), ByScore())
  {
    var ordered := OrderedChunks(db, q);
    var kept := Take(ordered, 2 * q.limit);
    SortFacts(Fused(ChunkRankings(db, q), q.rrfK, {}), ByScore());
    forall s | s in kept
      ensures IsStored(db)(s)
    {
      OrderedIsStored(db, q, s);
    }
    FilterAll(kept, IsStored(db));
    assert Descending(kept, ByScore());
    SortOfSorted(kept, ByScore());
    TakeOfTake(ordered, q.limit);
  }

  // ----- chunks, column by column -----

  /** `visible` is said of a chunk column by column. */
  ghost predicate SeesChunks(q: ChunkQuery, visible: Chunk -> bool) {
    forall c: Chunk :: visible(c) <==>
      && c.live && (q.superuser || c.org == q.org)
      && (q.scopes == [] || c.scope in q.scopes) && c.sensitivity <= q.maxSensitivity
  }

  lemma ChunksByColumns(q: ChunkQuery)
    ensures SeesChunks(q, AllowedChunk(q))
  {}

  /** Every hit is a chunk of a live attachment of the caller's org, in the scopes if any are given, and within
      the sensitivity; it matches the words, or has a vector while the query has one. */
  lemma ChunkHitIsVisible(db: seq<Chunk>, q: ChunkQuery, hit: Scored) returns (c: Chunk)
    requires hit in SearchChunks(db, q)
    ensures c in db && c.id == hit.id && hit in OrderedChunks(db, q)
    ensures c.live && (q.superuser || c.org == q.org)
    ensures (q.scopes == [] || c.scope in q.scopes) && c.sensitivity <= q.maxSensitivity
    ensures q.matches(c) || (q.hasVector && c.embedded)
  {
    var ordered := OrderedChunks(db, q);
    ChunkSearchIsExact(db, q);
    assert hit in ordered;
    var fused := Fused(ChunkRankings(db, q), q.rrfK, {});
    SortKeepsMembers(fused, ByScore(), hit);
    var i :| 0 <= i < |fused| && fused[i] == hit;
    c := ChunkCandidatesAreAllowed(db, q, hit.id);
  }

  /** A chunk a limit leaves out is outranked by as many chunks as the limit lets through. */
  lemma ChunkTopOrOutranked(chunks: seq<Chunk>, key: Chunk -> real, n: nat, c: Chunk)
    requires c in chunks
    ensures var top := Take(SortDesc(chunks, key), n);
            c in top || (|top| == n && forall d :: d in top ==> d in chunks && key(d) >= key(c))
  {
    var sorted := SortDesc(chunks, key);
    SortFacts(chunks, key);
    SortKeepsMembers(chunks, key, c);
    forall d | d in Take(sorted, n)
      ensures d in chunks && (c !in Take(sorted, n) ==> key(d) >= key(c))
    {
      SortKeepsMembers(chunks, key, d);
      if c !in Take(sorted, n) {
        TopIsTop(sorted, key, n, d, c);
      }
    }
  }

  /** And every chunk with those columns is in its ranking, unless as many such chunks as the ranking's limit rank
      no lower. */
  lemma VisibleChunkIsRanked(db: seq<Chunk>, q: ChunkQuery, visible: Chunk -> bool, c: Chunk)
    requires SeesChunks(q, visible) && c in db && visible(c)
    ensures q.hasVector && c.embedded ==>
              var top := VectorChunks(db, q);
              c in top || (|top| == q.topVector && forall d :: d in top ==> d in db && visible(d) && d.embedded && q.closeness(d) >= q.closeness(c))
    ensures q.matches(c) ==>
              var top := KeywordChunks(db, q);
              c in top || (|top| == q.topKeyword && forall d :: d in top ==> d in db && visible(d) && q.matches(d) && q.relevance(d) >= q.relevance(c))
  {
    ChunksByColumns(q);
    if q.hasVector && c.embedded {
      FilterMember(db, AllowedVector(q), c);
      FilterSound(db, AllowedVector(q));
      ChunkTopOrOutranked(Filter(db, AllowedVector(q)), q.closeness, q.topVector, c);
    }
    if q.matches(c) {
      FilterMember(db, AllowedKeyword(q), c);
      FilterSound(db, AllowedKeyword(q));
      ChunkTopOrOutranked(Filter(db, AllowedKeyword(q)), q.relevance, q.topKeyword, c);
    }
  }

  /** Neither ranking is longer than its limit, and both are best first. */
  lemma {:induction false} ChunkRankingsAreLimited(db: seq<Chunk>, q: ChunkQuery)
    ensures |VectorChunks(db, q)| <= q.topVector && Descending(VectorChunks(db, q), q.closeness)
    ensures |KeywordChunks(db, q)| <= q.topKeyword && Descending(KeywordChunks(db, q), q.relevance)
  {
    TopIsLimited(Filter(db, AllowedVector(q)), q.closeness, q.topVector);
    TopIsLimited(Filter(db, AllowedKeyword(q)), q.relevance, q.topKeyword);
  }

  lemma SearchOfAllowedChunks(db: seq<Chunk>, q: ChunkQuery)
    ensures SearchChunks(Filter(db, AllowedChunk(q)), q) == SearchChunks(db, q)
  {
    var seen := Filter(db, AllowedChunk(q));
    FilterFilter(db, AllowedChunk(q), AllowedVector(q), AllowedVector(q));
    FilterFilter(db, AllowedChunk(q), AllowedKeyword(q), AllowedKeyword(q));
    assert OrderedChunks(seen, q) == OrderedChunks(db, q);
    ChunkSearchIsExact(db, q);
    ChunkSearchIsExact(seen, q);
  }

  /** Two databases with the same chunks of live attachments of the caller's org, scopes and sensitivity give the
      same hits. */
  lemma ChunkSearchIsNonInterfering(a: seq<Chunk>, b: seq<Chunk>, q: ChunkQuery, visible: Chunk -> bool)
    requires SeesChunks(q, visible) && Filter(a, visible) == Filter(b, visible)
    ensures SearchChunks(a, q) == SearchChunks(b, q)
  {
    ChunksByColumns(q);
    FilterSame(a, visible, AllowedChunk(q));
    FilterSame(b, visible, AllowedChunk(q));
    SearchOfAllowedChunks(a, q);
    SearchOfAllowedChunks(b, q);
  }
}
