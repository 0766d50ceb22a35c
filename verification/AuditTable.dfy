/**
 * The audit table: one sequence of rows in id order holding every organisation's chain, and the
 * repository operations over it. Each operation runs as one transaction.
 */
module AuditTable {
  import opened Options
  import opened Sequences
  import opened AuditChain

  datatype Result<+T> = Success(value: T) | Failure(error: string)

  /** Ids are positive and strictly increasing in table order. */
  ghost predicate Ordered(rows: seq<Entry>) {
    && (forall e :: e in rows ==> 0 < e.id)
    && (forall i, j :: 0 <= i < j < |rows| ==> rows[i].id < rows[j].id)
  }

  function OfOrg(org: int): Entry -> bool {
    (e: Entry) => e.content.orgId == org
  }

  function OrgLog(rows: seq<Entry>, org: int): seq<Entry> {
    Filter(rows, OfOrg(org))
  }

  // ----- reading -----

  function InWindow(e: Entry, since: Option<int>, until: Option<int>): bool {
    && (since.None? || since.value <= e.content.createdAt)
    && (until.None? || e.content.createdAt < until.value)
  }

  function Readable(org: int, since: Option<int>, until: Option<int>, after: int): Entry -> bool {
    (e: Entry) => e.content.orgId == org && after < e.id && InWindow(e, since, until)
  }

  /** A page of an org's entries in id order, starting after `after`. */
  function Page(rows: seq<Entry>, org: int, since: Option<int>, until: Option<int>, after: int, limit: nat)
    : seq<Entry>
  {
    Take(Filter(rows, Readable(org, since, until, after)), limit)
  }

  function AfterId(after: int): Entry -> bool {
    (e: Entry) => after < e.id
  }

  lemma {:induction false} OrderedFilter(rows: seq<Entry>, p: Entry -> bool)
    requires Ordered(rows)
    ensures Ordered(Filter(rows, p))
  {
    if rows == [] {
    } else {
      var rest := Filter(rows[1..], p);
      assert forall e :: e in rows[1..] ==> rows[0].id < e.id;
      OrderedFilter(rows[1..], p);
      FilterSound(rows[1..], p);
      var all := Filter(rows, p);
      forall i, j | 0 <= i < j < |all|
        ensures all[i].id < all[j].id
      {
        if p(rows[0]) {
          assert all[j] == rest[j - 1];
          assert i > 0 ==> all[i] == rest[i - 1];
          assert rest[j - 1] in rest;
        } else {
          assert all == rest;
        }
      }
    }
  }

  function Position(log: seq<Entry>, n: nat): int
    requires n <= |log|
  {
    if n == 0 then 0 else log[n - 1].id
  }

  /** Paging by id resumes exactly where the previous page stopped. */
  lemma PageIsSlice(rows: seq<Entry>, org: int, n: nat, limit: nat)
    requires Ordered(rows) && n <= |OrgLog(rows, org)|
    ensures var log := OrgLog(rows, org);
            Page(rows, org, None, None, Position(log, n), limit) == log[n..Min(n + limit, |log|)]
  {
    var log := OrgLog(rows, org);
    var after := Position(log, n);
    OrderedFilter(rows, OfOrg(org));
    ReadFromLog(rows, org, after);
    RestOfLog(log, n);
    TakeOfRest(log, n, limit);
  }

  lemma {:induction false} RestOfLog(log: seq<Entry>, n: nat)
    requires Ordered(log) && n <= |log|
    ensures Filter(log, AfterId(Position(log, n))) == log[n..]
  {
    SkipRead(log, n, Position(log, n));
  }

  lemma TakeOfRest(log: seq<Entry>, n: nat, limit: nat)
    requires n <= |log|
    ensures Take(log[n..], limit) == log[n..Min(n + limit, |log|)]
  {}

  lemma ReadFromLog(rows: seq<Entry>, org: int, after: int)
    ensures Filter(rows, Readable(org, None, None, after)) == Filter(OrgLog(rows, org), AfterId(after))
  {
    FilterFilter(rows, OfOrg(org), AfterId(after), Readable(org, None, None, after));
  }

  lemma {:induction false} SkipRead(log: seq<Entry>, n: nat, after: int)
    requires n <= |log|
    requires forall i :: 0 <= i < n ==> log[i].id <= after
    requires forall i :: n <= i < |log| ==> after < log[i].id
    ensures Filter(log, AfterId(after)) == log[n..]
  {
    if log == [] {
    } else {
      var rest := log[1..];
      if n == 0 {
        SkipRead(rest, 0, after);
      } else {
        SkipRead(rest, n - 1, after);
        assert rest[n - 1..] == log[n..];
      }
    }
  }

  /** The org's row with the largest id. */
  ghost predicate Newest(rows: seq<Entry>, org: int, e: Entry) {
    e.content.orgId == org && forall f :: f in rows && f.content.orgId == org ==> f.id <= e.id
  }

  lemma LastIsNewest(rows: seq<Entry>, org: int)
    requires Ordered(rows)
    ensures OrgLog(rows, org) == [] <==> forall e :: e in rows ==> e.content.orgId != org
    ensures forall e :: e in rows && Newest(rows, org, e) ==> OrgLog(rows, org) != [] && e == Last(OrgLog(rows, org))
  {
    var log := OrgLog(rows, org);
    OrderedFilter(rows, OfOrg(org));
    FilterSound(rows, OfOrg(org));
    forall e | e in rows && e.content.orgId == org
      ensures e in log
    {
      FilterMember(rows, OfOrg(org), e);
    }
    if log != [] {
      assert log[0] in log && Last(log) in log;
      forall e | e in rows && Newest(rows, org, e)
        ensures e == Last(log)
      {
        var i :| 0 <= i < |log| && log[i] == e;
      }
    }
  }

  lemma WalkedNext(log: seq<Entry>, n: nat)
    requires n < |log|
    ensures Walked(log[..n + 1]) == Visit(Walked(log[..n]), log[n])
    ensures Walked(log[..n + 1]).broken.Some? ==> Walked(log) == Walked(log[..n + 1])
  {
    assert log[..n + 1][..n] == log[..n];
    if Walked(log[..n + 1]).broken.Some? {
      BrokenStaysBroken(log, n + 1);
    }
  }

  // ----- writing -----

  /** What the caller of `append` supplies, apart from the org. */
  datatype Event = Event(
    actorKind: string, actorId: Option<int>, action: string, targetType: Option<string>, targetId: Option<int>,
    metadata: map<string, string>, ip: Option<string>, userAgent: Option<string>)

  /** The request's own address and agent, used where the caller gives none. */
  datatype Origin = Origin(ip: Option<string>, userAgent: Option<string>)

  /** Python's `or` on an optional string: the empty string counts as missing. */
  function Or(a: Option<string>, b: Option<string>): Option<string> {
    if a.Some? && a.value != "" then a else b
  }

  /** The row an append inserts: chained to the org's head and carrying its own digest. */
  function Sealed(rows: seq<Entry>, id: int, content: Content): Entry {
    var prev := Head(OrgLog(rows, content.orgId));
    Entry(id, content, Some(prev), Some(Digest(content, prev)))
  }

  function Survives(org: int, cutoff: int): Entry -> bool {
    (e: Entry) => !(e.content.orgId == org && e.content.createdAt < cutoff)
  }

  /** Retention: the rows left after one org's entries older than `cutoff` are deleted. */
  function Purged(rows: seq<Entry>, org: int, cutoff: int): seq<Entry> {
    Filter(rows, Survives(org, cutoff))
  }

  class AuditRepository {
    var rows: seq<Entry>
    var nextId: int

    ghost predicate Valid()
      reads this
    {
      0 < nextId && Ordered(rows) && forall e :: e in rows ==> e.id < nextId
    }

    constructor ()
      ensures Valid() && rows == [] && nextId == 1
    {
      rows, nextId := [], 1;
    }

    method Append(event: Event, orgId: Option<int>, principalOrg: Option<int>, origin: Origin, now: int)
      returns (r: Result<Entry>)
      requires Valid()
      modifies this
      ensures Valid()
      ensures r.Failure? <==> (if orgId.Some? then orgId.value == 0 else principalOrg.None? || principalOrg.value == 0)
      ensures r.Failure? ==> rows == old(rows) && nextId == old(nextId)
      ensures r.Success? ==> rows == old(rows) + [r.value] && nextId == old(nextId) + 1
      ensures r.Success? ==>
                var c := r.value.content;
                && Some(c.orgId) == (if orgId.Some? then orgId else principalOrg)
                && c.actorKind == event.actorKind && c.actorId == event.actorId && c.action == event.action
                && c.targetType == event.targetType && c.targetId == event.targetId && c.metadata == event.metadata
                && c.ip == (if event.ip.Some? && event.ip.value != "" then event.ip else origin.ip)
                && c.userAgent == (if event.userAgent.Some? && event.userAgent.value != "" then event.userAgent
                                   else origin.userAgent)
                && c.createdAt == now
      ensures r.Success? ==>
                var head := Head(OrgLog(old(rows), r.value.content.orgId));
                && r.value.id == old(nextId) && r.value.prevHash == Some(head)
                && r.value.entryHash == Some(Sha(r.value.content, head))
      ensures r.Success? ==> r.value == Sealed(old(rows), old(nextId), r.value.content)
    {
      var ip := Or(event.ip, origin.ip);
      var userAgent := Or(event.userAgent, origin.userAgent);
      var org := if orgId.Some? then orgId else principalOrg;
      if org.None? || org.value == 0 {
        return Failure("audit append requires an org");
      }
      var content := Content(org.value, event.actorKind, event.actorId, event.action, event.targetType,
                             event.targetId, event.metadata, ip, userAgent, now);
      var prev := ReadHead(org.value);
      var entry := Entry(nextId, content, Some(prev), Some(Digest(content, prev)));
      rows := rows + [entry];
      nextId := nextId + 1;
      return Success(entry);
    }

    /** SELECT entry_hash … ORDER BY id DESC LIMIT 1, with null and no row read as GENESIS. */
    method ReadHead(org: int) returns (head: Hash)
      requires Valid()
      ensures (forall e :: e in rows ==> e.content.orgId != org) ==> head == Genesis
      ensures forall e :: e in rows && Newest(rows, org, e) ==> head == OrGenesis(e.entryHash)
      ensures head == Head(OrgLog(rows, org))
    {
      var log := OrgLog(rows, org);
      head := if log == [] then Genesis else OrGenesis(Last(log).entryHash);
      LastIsNewest(rows, org);
    }

    method PurgeBefore(org: int, cutoff: int) returns (deleted: nat)
      requires Valid()
      modifies this
      ensures Valid()
      ensures rows == Purged(old(rows), org, cutoff) && nextId == old(nextId)
      ensures forall e :: e in rows <==> e in old(rows) && !(e.content.orgId == org && e.content.createdAt < cutoff)
      ensures deleted == |old(rows)| - |rows|
    {
      OrderedFilter(rows, Survives(org, cutoff));
      FilterSound(rows, Survives(org, cutoff));
      forall e
        ensures e in Filter(rows, Survives(org, cutoff)) <==> e in rows && Survives(org, cutoff)(e)
      {
        FilterMember(rows, Survives(org, cutoff), e);
      }
      var kept := Filter(rows, Survives(org, cutoff));
      deleted := |rows| - |kept|;
      rows := kept;
    }

    /** One read of the walk, resuming after the `n` entries already seen. */
    method NextPage(org: int, after: int, limit: nat, ghost n: nat) returns (page: seq<Entry>)
      requires Valid() && n <= |OrgLog(rows, org)| && after == Position(OrgLog(rows, org), n)
      ensures var log := OrgLog(rows, org);
              && n + |page| <= |log| && page == log[n..n + |page|]
              && (page == [] && 0 < limit ==> n == |log|)
              && (page != [] ==> Last(page).id == Position(log, n + |page|))
    {
      PageIsSlice(rows, org, n, limit);
      page := Page(rows, org, None, None, after, limit);
    }

    /**
     * The paged walk. For every page size it equals the one-pass walk over the org's rows, and it
     * ends because each page moves strictly past the last id read.
     */
    method Verify(org: int, page: nat) returns (status: ChainStatus)
      requires Valid() && 0 < page
      ensures status == Verified(OrgLog(rows, org))
    {
      ghost var log := OrgLog(rows, org);
      ghost var n := 0;
      var w := START;
      var after := 0;
      while true
        invariant n <= |log| && after == Position(log, n)
        invariant Walked(log[..n]) == w && w.broken.None?
        decreases |log| - n
      {
        var batch := NextPage(org, after, page, n);
        if batch == [] {
          break;
        }
        after := Last(batch).id;
        w := WalkPage(batch, w, log, n);
        if w.broken.Some? {
          return Status(w);
        }
        n := n + |batch|;
      }
      assert log[..n] == log;
      return Status(w);
    }
  }

  /** The inner loop of the walk: one page, stopping at the first break. */
  method WalkPage(batch: seq<Entry>, before: Walk, ghost log: seq<Entry>, ghost n: nat) returns (w: Walk)
    requires n + |batch| <= |log| && batch == log[n..n + |batch|]
    requires before == Walked(log[..n]) && before.broken.None?
    ensures w == if w.broken.Some? then Walked(log) else Walked(log[..n + |batch|])
  {
    w := before;
    for i := 0 to |batch|
      invariant w == Walked(log[..n + i]) && w.broken.None?
    {
      var entry := batch[i];
      WalkedNext(log, n + i);
      assert entry == log[n + i];
      w := w.(entries := w.entries + 1);
      if entry.entryHash.None? {
        w := w.(unchained := w.unchained + 1);
        continue;
      }
      if w.expected.None? {
        var first := OrGenesis(entry.prevHash);
        w := w.(expected := Some(first), anchor := first);
      }
      if entry.prevHash != w.expected {
        return w.(broken := Some(Break(entry.id, PrevMismatch)));
      }
      if Some(Digest(entry.content, OrGenesis(entry.prevHash))) != entry.entryHash {
        return w.(broken := Some(Break(entry.id, ContentMismatch)));
      }
      w := w.(expected := entry.entryHash);
    }
  }
}
