/**
 * The verifier beside concurrent writers: each page is a separate read, and other transactions append and
 * purge between two of them. `snaps[k]` is the table as the k-th read sees it.
 */
module AuditWalk {
  import opened Options
  import opened Sequences
  import opened AuditChain
  import opened AuditTable
  import opened AuditTamper
  import opened AuditRuns
  import opened AuditExport

  /**
   * The paged walk, up to the reads the snapshots provide. Whatever happens in between, what it reports is
   * the one-pass verdict on the rows it was shown, in id order, none twice.
   */
  method VerifyAcross(snaps: seq<Log>, org: int, page: nat)
    returns (status: ChainStatus, seen: seq<Entry>, cursors: seq<int>, done: bool)
    requires Successive(snaps) && 0 < page
    ensures Progress(snaps, Readable(org, None, None, 0), cursors, seen)
    ensures status == Verified(seen)
    ensures if !done then |cursors| == |snaps| + 1
            else if status.intact then
              && |cursors| <= |snaps|
              && forall e :: e in snaps[|cursors| - 1].rows && Readable(org, None, None, 0)(e) ==> e in seen
            else true
  {
    seen, cursors, done := [], [0], false;
    var w := START;
    while |cursors| <= |snaps|
      invariant Progress(snaps, Readable(org, None, None, 0), cursors, seen)
      invariant w == Walked(seen) && w.broken.None?
      decreases |snaps| + 1 - |cursors|
    {
      var batch := NextRead(snaps, org, None, None, page, cursors, seen);
      if batch == [] {
        return Status(w), seen, cursors, true;
      }
      w := WalkOn(batch, w, seen);
      seen, cursors := seen + batch, cursors + [Last(batch).id];
      if w.broken.Some? {
        return Status(w), seen, cursors, true;
      }
    }
    status := Status(w);
  }

  method WalkOn(batch: seq<Entry>, before: Walk, ghost seen: seq<Entry>) returns (w: Walk)
    requires before == Walked(seen) && before.broken.None?
    ensures w == Walked(seen + batch)
  {
    ghost var all := seen + batch;
    assert all[..|seen|] == seen && all[|seen|..|seen| + |batch|] == batch && all[..|all|] == all;
    w := WalkPage(batch, before, all, |seen|);
  }

  // ----- when it reports no break -----

  function Seen(seen: seq<Entry>): Entry -> bool {
    (e: Entry) => e in seen
  }

  /** Rows in id order are determined by which rows they are. */
  lemma {:induction false} SameRows(a: seq<Entry>, b: seq<Entry>)
    requires Increasing(a) && Increasing(b) && forall e :: e in a <==> e in b
    ensures a == b
  {
    if a == [] && b == [] {
    } else if a == [] {
      FirstIsMember(b);
    } else if b == [] {
      FirstIsMember(a);
    } else {
      FirstIsLeast(a, b[0]);
      FirstIsLeast(b, a[0]);
      assert a[0] in a && b[0] in b;
      assert a[0] == b[0] by {
        var i :| 0 <= i < |a| && a[i] == b[0];
        var j :| 0 <= j < |b| && b[j] == a[0];
      }
      RestOf(a, b);
      SameRows(a[1..], b[1..]);
      assert a == [a[0]] + a[1..] && b == [b[0]] + b[1..];
    }
  }

  lemma FirstIsMember(a: seq<Entry>)
    requires a != []
    ensures a[0] in a
  {}

  lemma FirstIsLeast(a: seq<Entry>, e: Entry)
    requires Increasing(a) && e in a
    ensures a[0].id <= e.id
  {
    var i :| 0 <= i < |a| && a[i] == e;
  }

  lemma RestOf(a: seq<Entry>, b: seq<Entry>)
    requires Increasing(a) && Increasing(b) && a != [] && b != [] && a[0] == b[0] && forall e :: e in a <==> e in b
    ensures forall e :: e in a[1..] <==> e in b[1..]
  {
    forall e
      ensures e in a[1..] <==> e in a && e != a[0]
      ensures e in b[1..] <==> e in b && e != b[0]
    {
      if e in a && e != a[0] {
        var i :| 0 <= i < |a| && a[i] == e;
        assert a[1..][i - 1] == e;
      }
      if e in b && e != b[0] {
        var i :| 0 <= i < |b| && b[i] == e;
        assert b[1..][i - 1] == e;
      }
    }
  }

  /** An intact log that holds every row the walk was shown: the org's history. */
  ghost predicate HistoryOf(history: seq<Entry>, seen: seq<Entry>) {
    && Verified(history).intact && Increasing(history)
    && forall e :: e in seen ==> e in history
  }

  /**
   * The walk reports no break if and only if no chained row of the history is missing between two chained
   * rows it was shown.
   */
  lemma NoBreakIff(history: seq<Entry>, seen: seq<Entry>)
    requires HistoryOf(history, seen) && Increasing(seen)
    ensures Verified(seen).intact <==> Gapless(history, Seen(seen))
  {
    var shown := Filter(history, Seen(seen));
    forall e
      ensures e in shown <==> e in seen
    {
      FilterMember(history, Seen(seen), e);
    }
    forall i, j | 0 <= i < j < |shown|
      ensures shown[i].id < shown[j].id
    {
      var a, b := FilterPositions(history, Seen(seen), i, j);
    }
    SameRows(shown, seen);
    SurvivorsVerifyIff(history, Seen(seen));
  }
}
