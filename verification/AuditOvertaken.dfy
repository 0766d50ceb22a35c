/**
 * Purges beside the verifier: a purge overtakes the walk when it removes a chained row no read has reached.
 * Without one the walk's verdict is that of the table; with one it can report tampering on an intact log.
 */
module AuditOvertaken {
  import opened Options
  import opened Sequences
  import opened AuditChain
  import opened AuditTable
  import opened AuditTamper
  import opened AuditRuns
  import opened AuditStamps
  import opened AuditExport
  import opened AuditWalk
  import opened AuditSchedules

  // ----- what a walk was shown, read by read -----

  lemma {:induction false} ShownAt(s: Schedule, org: int, cursors: seq<int>, seen: seq<Entry>, e: Entry) returns (k: nat)
    requires Proper(s) && Shows(s, org, cursors, seen) && e in seen
    ensures k < |cursors| - 1 <= |s.at| && e in Table(s, s.at[k]).rows && e.id <= cursors[k + 1]
    ensures e.content.orgId == org && 0 < e.id
  {
    var snaps := Snaps(s);
    assert SeenBefore(snaps, cursors, e) && Readable(org, None, None, 0)(e);
    k :| 0 <= k < |cursors| - 1 && e in snaps[k].rows && e.id <= cursors[k + 1];
  }

  lemma {:induction false} PassedIsShown(s: Schedule, org: int, cursors: seq<int>, seen: seq<Entry>, k: nat, e: Entry)
    requires Proper(s) && Shows(s, org, cursors, seen) && k < |cursors| - 1
    requires |cursors| - 1 <= |s.at| && e in Table(s, s.at[k]).rows && e.content.orgId == org && 0 < e.id <= cursors[k + 1]
    ensures e in seen
  {
    var snaps := Snaps(s);
    assert EmittedUpTo(snaps[k].rows, Readable(org, None, None, 0), cursors[k + 1], seen);
    assert Readable(org, None, None, 0)(e);
  }

  lemma {:induction false} CursorIsOld(s: Schedule, org: int, cursors: seq<int>, seen: seq<Entry>, k: nat)
    requires Proper(s) && Shows(s, org, cursors, seen) && k < |cursors| - 1
    ensures |cursors| - 1 <= |s.at| && cursors[k + 1] < Table(s, s.at[k]).nextId
  {
    assert cursors[k + 1] < Snaps(s)[k].nextId;
  }

  // ----- overtaking -----

  /** No read done by step `m` has gone past the row. */
  ghost predicate Ahead(s: Schedule, cursors: seq<int>, m: nat, e: Entry) {
    forall k :: 0 <= k < |cursors| - 1 && k < |s.at| && s.at[k] <= m ==> cursors[k + 1] < e.id
  }

  /** Step `m` is a purge of the org that removes a chained row ahead of the cursor. */
  ghost predicate Overtakes(s: Schedule, org: int, cursors: seq<int>, m: nat, e: Entry) {
    && m < |s.steps| && s.steps[m].PurgeStep? && s.steps[m].org == org
    && e in Table(s, m).rows && e.content.orgId == org && e.entryHash.Some?
    && e.content.createdAt < s.steps[m].cutoff
    && Ahead(s, cursors, m, e)
  }

  /** A row written and no longer there was purged by some step. */
  lemma {:induction false} PurgedSomewhere(init: Log, steps: seq<Step>, org: int, e: Entry) returns (m: nat)
    requires WellNumbered(init) && e in Written(init, steps, org) && e !in OrgLog(Run(init, steps).rows, org)
    ensures m < |steps| && steps[m].PurgeStep? && steps[m].org == org
    ensures e in OrgLog(Run(init, steps[..m]).rows, org) && e.content.createdAt < steps[m].cutoff
  {
    if steps == [] {
      assert false;
    } else {
      var before, step := steps[..|steps| - 1], Last(steps);
      var log := Run(init, before);
      if e in OrgLog(log.rows, org) {
        m := |steps| - 1;
        LeavesByPurge(log, step, org, e);
      } else {
        if step.AppendStep? && step.content.orgId == org {
          AppendToOrg(log, step.content);
        }
        m := PurgedSomewhere(init, before, org, e);
        assert before[..m] == steps[..m];
      }
    }
  }

  lemma {:induction false} LeavesByPurge(log: Log, step: Step, org: int, e: Entry)
    requires e in OrgLog(log.rows, org) && e !in OrgLog(Apply(log, step).rows, org)
    ensures step.PurgeStep? && step.org == org && e.content.createdAt < step.cutoff
  {
    if step.Org() != org {
      OtherOrgsUntouched(log, step, org);
    } else {
      match step {
        case AppendStep(content) => AppendToOrg(log, content);
        case PurgeStep(_, cutoff) =>
          PurgeOfOrg(log, org, cutoff);
          FilterMember(OrgLog(log.rows, org), Recent(cutoff), e);
      }
    }
  }

  lemma {:induction false} IsAhead(s: Schedule, org: int, cursors: seq<int>, seen: seq<Entry>, m: nat, e: Entry)
    requires Proper(s) && Shows(s, org, cursors, seen) && m <= |s.steps|
    requires e in Table(s, m).rows && e.content.orgId == org && 0 < e.id && e !in seen
    ensures Ahead(s, cursors, m, e)
  {
    forall k | 0 <= k < |cursors| - 1 && k < |s.at| && s.at[k] <= m
      ensures cursors[k + 1] < e.id
    {
      if e.id <= cursors[k + 1] {
        CursorIsOld(s, org, cursors, seen, k);
        TablesAreLater(s, s.at[k], m);
        PassedIsShown(s, org, cursors, seen, k, e);
      }
    }
  }

  /** A row written before a read and absent from it was purged before that read. */
  lemma {:induction false} PurgedBefore(s: Schedule, org: int, n: nat, e: Entry) returns (m: nat)
    requires Proper(s) && n <= |s.steps| && e in History(s, org)
    requires e.id < Table(s, n).nextId && e !in Table(s, n).rows
    ensures m < n && s.steps[m].PurgeStep? && s.steps[m].org == org && e.content.createdAt < s.steps[m].cutoff
    ensures e in Table(s, m).rows && e.content.orgId == org && 0 < e.id
  {
    var steps := s.steps[..n];
    WrittenHoldsAll(s.init, s.steps, org);
    WrittenGrows(s.init, s.steps, org, n);
    FilterMember(Table(s, n).rows, OfOrg(org), e);
    m := PurgedSomewhere(s.init, steps, org, e);
    assert steps[..m] == s.steps[..m];
    FilterMember(Table(s, m).rows, OfOrg(org), e);
  }

  /** A later row was found by a read that could not see this one any more. */
  lemma {:induction false} MissedAtRead(
    s: Schedule, org: int, cursors: seq<int>, seen: seq<Entry>, e: Entry, f: Entry) returns (n: nat)
    requires Proper(s) && Shows(s, org, cursors, seen) && e.content.orgId == org
    requires 0 < e.id < f.id && e !in seen && f in seen
    ensures n <= |s.steps| && e !in Table(s, n).rows && f in Table(s, n).rows
  {
    var k := ShownAt(s, org, cursors, seen, f);
    n := s.at[k];
    if e in Table(s, n).rows {
      PassedIsShown(s, org, cursors, seen, k, e);
    }
  }

  /** A chained row of the history that a walk was not shown, though it was shown a later one, was overtaken. */
  lemma {:induction false} MissedWasOvertaken(
    s: Schedule, org: int, cursors: seq<int>, seen: seq<Entry>, e: Entry, f: Entry) returns (m: nat)
    requires Proper(s) && Shows(s, org, cursors, seen)
    requires e in History(s, org) && e.entryHash.Some? && e !in seen && f in seen && e.id < f.id
    ensures Overtakes(s, org, cursors, m, e)
  {
    WrittenHoldsAll(s.init, s.steps, org);
    var n := MissedAtRead(s, org, cursors, seen, e, f);
    RunIsWellNumbered(s.init, s.steps[..n]);
    m := PurgedBefore(s, org, n, e);
    IsAhead(s, org, cursors, seen, m, e);
  }

  lemma {:induction false} PurgedIsGone(s: Schedule, m: nat, n: nat, e: Entry)
    requires Proper(s) && m < n <= |s.steps| && s.steps[m].PurgeStep?
    requires e in Table(s, m).rows && e.content.orgId == s.steps[m].org && e.content.createdAt < s.steps[m].cutoff
    ensures e !in Table(s, n).rows
  {
    var step := s.steps[m];
    TablesAreLater(s, m, m + 1);
    TablesAreLater(s, m + 1, n);
    assert s.steps[..m + 1][..m] == s.steps[..m];
    assert Table(s, m + 1) == Apply(Table(s, m), step);
    FilterMember(Table(s, m).rows, Survives(step.org, step.cutoff), e);
  }

  /** And an overtaken row is never shown. */
  lemma {:induction false} OvertakenIsMissed(
    s: Schedule, org: int, cursors: seq<int>, seen: seq<Entry>, m: nat, e: Entry)
    requires Proper(s) && Shows(s, org, cursors, seen) && Overtakes(s, org, cursors, m, e)
    ensures e !in seen && e in History(s, org)
  {
    if e in seen {
      var k := ShownAt(s, org, cursors, seen, e);
      if s.at[k] > m {
        PurgedIsGone(s, m, s.at[k], e);
      }
    }
    RunIsWellNumbered(s.init, s.steps[..m]);
    FilterMember(Table(s, m).rows, OfOrg(org), e);
    WrittenHoldsAll(s.init, s.steps[..m], org);
    WrittenGrows(s.init, s.steps, org, m);
  }

  // ----- the exact condition over steps and reads -----

  /** Whenever the org appends, its newest row ever is still there to chain to. */
  ghost predicate HeadKept(init: Log, steps: seq<Step>, org: int) {
    steps == [] ||
    (var before, step := steps[..|steps| - 1], Last(steps);
     && HeadKept(init, before, org)
     && (step.AppendStep? && step.content.orgId == org ==>
           Head(OrgLog(Run(init, before).rows, org)) == Head(Written(init, before, org))))
  }

  /** Then all it ever wrote is one intact log. */
  lemma {:induction false} HistoryIsIntact(init: Log, steps: seq<Step>, org: int)
    requires Legacy(init) && HeadKept(init, steps, org)
    ensures Sound(Written(init, steps, org), Genesis) && Verified(Written(init, steps, org)).intact
  {
    var past := Written(init, steps, org);
    if steps == [] {
      FilterSound(init.rows, OfOrg(org));
      FilterNone(past, IsChained());
    } else {
      var before, step := steps[..|steps| - 1], Last(steps);
      var log := Run(init, before);
      HistoryIsIntact(init, before, org);
      if step.AppendStep? && step.content.orgId == org {
        AppendKeepsSound(Written(init, before, org), Genesis, Sealed(log.rows, log.nextId, step.content));
      }
    }
    assert Chained(past) != [] ==> LinkedAt(Chained(past), Genesis, 0);
    VerifiedMeaning(past);
  }

  lemma {:induction false} SameDigestSamePlace(chain: seq<Entry>, anchor: Hash, i: nat, j: nat)
    requires Linked(chain, anchor) && i < |chain| && j < |chain| && chain[i].entryHash == chain[j].entryHash
    ensures i == j
  {
    DepthGrows(chain, anchor, i);
    DepthGrows(chain, anchor, j);
  }

  lemma {:induction false} LinkedIsDistinct(history: seq<Entry>, anchor: Hash)
    requires Linked(Chained(history), anchor)
    ensures DistinctDigests(history)
  {
    var chain := Chained(history);
    forall e, f | e in history && f in history && e.entryHash.Some? && e.entryHash == f.entryHash
      ensures e == f
    {
      FilterMember(history, IsChained(), e);
      FilterMember(history, IsChained(), f);
      var i :| 0 <= i < |chain| && chain[i] == e;
      var j :| 0 <= j < |chain| && chain[j] == f;
      SameDigestSamePlace(chain, anchor, i, j);
    }
  }

  /** And its digests are distinct. */
  lemma {:induction false} HeadKeptIsDistinct(s: Schedule, org: int)
    requires Proper(s) && HeadKept(s.init, s.steps, org)
    ensures DistinctDigests(History(s, org))
  {
    HistoryIsIntact(s.init, s.steps, org);
    LinkedIsDistinct(History(s, org), Genesis);
  }

  /** Chained rows before and after it were shown. */
  ghost predicate Inside(seen: seq<Entry>, e: Entry) {
    exists d, f :: d in seen && f in seen && d.entryHash.Some? && f.entryHash.Some? && d.id < e.id < f.id
  }

  lemma {:induction false} GapIff(history: seq<Entry>, seen: seq<Entry>)
    requires Increasing(history) && forall e :: e in seen ==> e in history
    ensures Gapless(history, Seen(seen)) <==>
            forall e :: e in history && e.entryHash.Some? && Inside(seen, e) ==> e in seen
  {
    var chain := Chained(history);
    ChainIncreases(history);
    forall e
      ensures e in chain <==> e in history && e.entryHash.Some?
    {
      FilterMember(history, IsChained(), e);
    }
    if Gapless(history, Seen(seen)) {
      forall e | e in history && e.entryHash.Some? && Inside(seen, e)
        ensures e in seen
      {
        var d, f :| d in seen && f in seen && d.entryHash.Some? && f.entryHash.Some? && d.id < e.id < f.id;
        InsideIsKept(chain, seen, d, e, f);
      }
    }
    if forall e :: e in history && e.entryHash.Some? && Inside(seen, e) ==> e in seen {
      KeptInsideIsGapless(chain, seen);
    }
  }

  lemma {:induction false} KeptInsideIsGapless(chain: seq<Entry>, seen: seq<Entry>)
    requires Increasing(chain) && forall e :: e in chain ==> e.entryHash.Some? && (Inside(seen, e) ==> e in seen)
    ensures GaplessChain(chain, Seen(seen))
  {
    forall i, j, k | 0 <= i < j < k < |chain| && Seen(seen)(chain[i]) && Seen(seen)(chain[k])
      ensures Seen(seen)(chain[j])
    {
      assert chain[i] in chain && chain[j] in chain && chain[k] in chain;
      assert Inside(seen, chain[j]);
    }
  }

  lemma {:induction false} InsideIsKept(chain: seq<Entry>, seen: seq<Entry>, d: Entry, e: Entry, f: Entry)
    requires Increasing(chain) && GaplessChain(chain, Seen(seen)) && d in chain && e in chain && f in chain
    requires d in seen && f in seen && d.id < e.id < f.id
    ensures e in seen
  {
    var i :| 0 <= i < |chain| && chain[i] == d;
    var j :| 0 <= j < |chain| && chain[j] == e;
    var k :| 0 <= k < |chain| && chain[k] == f;
    assert i < j < k;
    assert Seen(seen)(chain[i]) && Seen(seen)(chain[k]);
    assert Seen(seen)(chain[j]);
  }

  /**
   * The walk reports no break if and only if no purge of the org removes a chained row ahead of the cursor
   * while chained rows before and after it are shown.
   */
  lemma {:induction false} OvertakenIff(s: Schedule, org: int, cursors: seq<int>, seen: seq<Entry>)
    requires Proper(s) && Shows(s, org, cursors, seen) && HeadKept(s.init, s.steps, org)
    ensures Verified(seen).intact <==> !exists m, e :: Overtakes(s, org, cursors, m, e) && Inside(seen, e)
  {
    var history := History(s, org);
    HistoryIsIntact(s.init, s.steps, org);
    WrittenHoldsAll(s.init, s.steps, org);
    ShownIsHistory(s, org, cursors, seen);
    NoBreakIff(history, seen);
    GapIff(history, seen);
    forall m, e | Overtakes(s, org, cursors, m, e) && Inside(seen, e)
      ensures e in history && e.entryHash.Some? && e !in seen
    {
      OvertakenIsMissed(s, org, cursors, seen, m, e);
    }
    forall e | e in history && e.entryHash.Some? && Inside(seen, e) && e !in seen
      ensures exists m :: Overtakes(s, org, cursors, m, e)
    {
      var d, f :| d in seen && f in seen && d.entryHash.Some? && f.entryHash.Some? && d.id < e.id < f.id;
      var m := MissedWasOvertaken(s, org, cursors, seen, e, f);
    }
  }

  // ----- the same for every run -----

  /** The row was purged before step `n`. */
  ghost predicate GoneBefore(s: Schedule, org: int, n: nat, d: Entry) {
    exists m: nat :: Removes(s, org, m, d) && m < n
  }

  ghost predicate Removes(s: Schedule, org: int, m: nat, e: Entry) {
    && m < |s.steps| && s.steps[m].PurgeStep? && s.steps[m].org == org
    && e in Table(s, m).rows && e.content.orgId == org && e.content.createdAt < s.steps[m].cutoff
  }

  /** A chained row between the two was overtaken after step `n`. */
  ghost predicate OvertakenBetween(s: Schedule, org: int, cursors: seq<int>, n: nat, d: Entry, f: Entry) {
    exists m, e :: Overtakes(s, org, cursors, m, e) && n <= m && d.id < e.id < f.id
  }

  /** Why the walk stops at the `i`-th chained row it was shown: the row shown before it was purged before it was
      appended, or a row between them was there then and was overtaken later. */
  ghost predicate BreaksAt(s: Schedule, org: int, cursors: seq<int>, seen: seq<Entry>, i: nat, n: nat) {
    && 0 < i < |Chained(seen)| && Appends(s, n, Chained(seen)[i])
    && (GoneBefore(s, org, n, Chained(seen)[i - 1])
        || OvertakenBetween(s, org, cursors, n, Chained(seen)[i - 1], Chained(seen)[i]))
  }

  /** Legacy rows have smaller ids than any appended row. */
  lemma {:induction false} ChainedAfterLegacy(init: Log, steps: seq<Step>, org: int, e: Entry)
    requires Legacy(init) && e in Written(init, steps, org)
    ensures e.entryHash.None? <==> e.id < init.nextId
  {
    if steps == [] {
      FilterMember(init.rows, OfOrg(org), e);
    } else {
      var before := steps[..|steps| - 1];
      if e in Written(init, before, org) {
        ChainedAfterLegacy(init, before, org, e);
      } else {
        RunsAreLater(init, before);
      }
    }
  }

  lemma {:induction false} RowOfTable(s: Schedule, org: int, n: nat, e: Entry)
    requires Proper(s) && n <= |s.steps| && e in Table(s, n).rows && e.content.orgId == org
    ensures e in History(s, org) && 0 < e.id < Table(s, n).nextId
  {
    RunIsWellNumbered(s.init, s.steps[..n]);
    FilterMember(Table(s, n).rows, OfOrg(org), e);
    WrittenHoldsAll(s.init, s.steps[..n], org);
    WrittenGrows(s.init, s.steps, org, n);
  }

  lemma {:induction false} NothingShownBetween(seen: seq<Entry>, i: nat, e: Entry)
    requires Increasing(seen) && 0 < i < |Chained(seen)| && e.entryHash.Some?
    requires Chained(seen)[i - 1].id < e.id < Chained(seen)[i].id
    ensures e !in seen
  {
    var chain := Chained(seen);
    ChainIncreases(seen);
    forall j | 0 <= j < |chain|
      ensures chain[j] != e
    {
      assert j <= i - 1 || i <= j;
    }
    FilterMember(seen, IsChained(), e);
  }

  lemma {:induction false} NewerIsChained(s: Schedule, org: int, n: nat, d: Entry, e: Entry)
    requires Proper(s) && n <= |s.steps| && d in History(s, org) && d.entryHash.Some?
    requires e in Table(s, n).rows && e.content.orgId == org && d.id < e.id
    ensures e in History(s, org) && e.entryHash.Some? && 0 < e.id < Table(s, n).nextId
  {
    RowOfTable(s, org, n, e);
    ChainedAfterLegacy(s.init, s.steps, org, d);
    ChainedAfterLegacy(s.init, s.steps, org, e);
  }

  lemma {:induction false} LeftWasOvertaken(
    s: Schedule, org: int, cursors: seq<int>, seen: seq<Entry>, n: nat, d: Entry, f: Entry, e: Entry)
    requires Proper(s) && Shows(s, org, cursors, seen) && n <= |s.steps|
    requires e in History(s, org) && e.entryHash.Some? && e !in seen && f in seen && d.id < e.id < f.id
    requires e in Table(s, n).rows
    ensures OvertakenBetween(s, org, cursors, n, d, f)
  {
    var m := MissedWasOvertaken(s, org, cursors, seen, e, f);
    if m < n {
      PurgedIsGone(s, m, n, e);
    }
  }

  lemma {:induction false} ShownPair(s: Schedule, org: int, seen: seq<Entry>, i: nat)
    requires Proper(s) && FromHistory(s, org, seen) && 0 < i < |Chained(seen)|
    ensures var d, f := Chained(seen)[i - 1], Chained(seen)[i];
            && d in History(s, org) && d.entryHash.Some? && d.content.orgId == org
            && f in seen && 0 < d.id < f.id
  {
    var k := ChainedShown(s, org, seen, i - 1);
    WrittenHoldsAll(s.init, s.steps, org);
    AllChained(seen);
    ChainIncreases(seen);
    assert Chained(seen)[i] in Chained(seen);
  }

  lemma {:induction false} NotNewestBreaks(
    s: Schedule, org: int, cursors: seq<int>, seen: seq<Entry>, i: nat, n: nat)
    requires Proper(s) && Shows(s, org, cursors, seen) && FromHistory(s, org, seen)
    requires 0 < i < |Chained(seen)| && Appends(s, n, Chained(seen)[i])
    requires !(Chained(seen)[i - 1] in Table(s, n).rows && Newest(Table(s, n).rows, org, Chained(seen)[i - 1]))
    ensures BreaksAt(s, org, cursors, seen, i, n)
  {
    var d, f := Chained(seen)[i - 1], Chained(seen)[i];
    ShownPair(s, org, seen, i);
    if d !in Table(s, n).rows {
      var m := PurgedBefore(s, org, n, d);
      assert Removes(s, org, m, d);
    } else {
      var e :| e in Table(s, n).rows && e.content.orgId == org && d.id < e.id;
      NewerIsChained(s, org, n, d, e);
      NothingShownBetween(seen, i, e);
      LeftWasOvertaken(s, org, cursors, seen, n, d, f, e);
    }
  }

  lemma {:induction false} BreaksAtIsNotNewest(
    s: Schedule, org: int, cursors: seq<int>, seen: seq<Entry>, i: nat, n: nat)
    requires Proper(s) && BreaksAt(s, org, cursors, seen, i, n)
    ensures !(Chained(seen)[i - 1] in Table(s, n).rows && Newest(Table(s, n).rows, org, Chained(seen)[i - 1]))
  {
    var d, f := Chained(seen)[i - 1], Chained(seen)[i];
    if GoneBefore(s, org, n, d) {
      var m: nat :| Removes(s, org, m, d) && m < n;
      PurgedIsGone(s, m, n, d);
    } else {
      var m, e :| Overtakes(s, org, cursors, m, e) && n <= m && d.id < e.id < f.id;
      TablesAreLater(s, n, m);
      assert e in Table(s, n).rows;
    }
  }

  /**
   * For every schedule in which no two rows the org wrote have one digest: the walk reports a break if and only
   * if, of two chained rows shown one after the other, the first was purged before the second was appended, or
   * a purge removed a chained row between them, there when the second was appended, ahead of the cursor.
   */
  lemma {:induction false} BreakCausesIff(s: Schedule, org: int, cursors: seq<int>, seen: seq<Entry>)
    requires Proper(s) && Shows(s, org, cursors, seen) && DistinctDigests(History(s, org))
    ensures !Verified(seen).intact <==> exists i, n :: BreaksAt(s, org, cursors, seen, i, n)
  {
    ShownIsHistory(s, org, cursors, seen);
    OntoTheNewestIff(s, org, seen);
    if !EachOntoTheNewest(s, org, seen) {
      var i, n := FindBreak(s, org, cursors, seen);
    }
    if i, n :| BreaksAt(s, org, cursors, seen, i, n) {
      BreakIsNotOnto(s, org, cursors, seen, i, n);
    }
  }

  lemma {:induction false} FindBreak(s: Schedule, org: int, cursors: seq<int>, seen: seq<Entry>) returns (i: nat, n: nat)
    requires Proper(s) && Shows(s, org, cursors, seen) && FromHistory(s, org, seen) && !EachOntoTheNewest(s, org, seen)
    ensures BreaksAt(s, org, cursors, seen, i, n)
  {
    i, n := NotOnto(s, org, seen);
    NotNewestBreaks(s, org, cursors, seen, i, n);
  }

  lemma {:induction false} NotOnto(s: Schedule, org: int, seen: seq<Entry>) returns (i: nat, n: nat)
    requires !EachOntoTheNewest(s, org, seen)
    ensures 0 < i < |Chained(seen)| && Appends(s, n, Chained(seen)[i])
    ensures !(Chained(seen)[i - 1] in Table(s, n).rows && Newest(Table(s, n).rows, org, Chained(seen)[i - 1]))
  {
    i, n :| 0 < i < |Chained(seen)| && Appends(s, n, Chained(seen)[i])
            && !(Chained(seen)[i - 1] in Table(s, n).rows && Newest(Table(s, n).rows, org, Chained(seen)[i - 1]));
  }

  lemma {:induction false} BreakIsNotOnto(s: Schedule, org: int, cursors: seq<int>, seen: seq<Entry>, i: nat, n: nat)
    requires Proper(s) && BreaksAt(s, org, cursors, seen, i, n)
    ensures !EachOntoTheNewest(s, org, seen)
  {
    BreaksAtIsNotNewest(s, org, cursors, seen, i, n);
  }

  // ----- no purge while the walk lasts -----

  ghost predicate NoPurge(s: Schedule, org: int, from: nat, to: nat) {
    forall m :: from <= m < to && m < |s.steps| ==> !(s.steps[m].PurgeStep? && s.steps[m].org == org)
  }

  lemma {:induction false} StillThere(s: Schedule, org: int, m: nat, n: nat, e: Entry)
    requires Proper(s) && m <= n <= |s.steps| && NoPurge(s, org, m, n)
    requires e in OrgLog(Table(s, m).rows, org)
    ensures e in OrgLog(Table(s, n).rows, org)
    decreases n - m
  {
    if m == n {
    } else {
      StillThere(s, org, m, n - 1, e);
      assert s.steps[..n][..n - 1] == s.steps[..n - 1];
      if e !in OrgLog(Table(s, n).rows, org) {
        LeavesByPurge(Table(s, n - 1), s.steps[n - 1], org, e);
      }
    }
  }

  /** A row found by read `k` is still there at a later read `n`. */
  lemma {:induction false} FoundIsThere(s: Schedule, org: int, k: nat, n: nat, e: Entry)
    requires Proper(s) && k <= n < |s.at| && NoPurge(s, org, s.at[0], s.at[n])
    requires e in Table(s, s.at[k]).rows && e.content.orgId == org
    ensures e in OrgLog(Table(s, s.at[n]).rows, org)
  {
    FilterMember(Table(s, s.at[k]).rows, OfOrg(org), e);
    StillThere(s, org, s.at[k], s.at[n], e);
  }

  lemma {:induction false} ShownIsThere(s: Schedule, org: int, cursors: seq<int>, seen: seq<Entry>, n: nat, e: Entry)
    requires Proper(s) && Shows(s, org, cursors, seen) && e in seen
    requires |cursors| - 2 <= n < |s.at| && NoPurge(s, org, s.at[0], s.at[n])
    ensures e in OrgLog(Table(s, s.at[n]).rows, org)
  {
    var k := ShownAt(s, org, cursors, seen, e);
    FoundIsThere(s, org, k, n, e);
  }

  /**
   * With no purge of the org between its first and its last read, a walk that reached the end gives the verdict
   * on the table as last read.
   */
  lemma {:induction false} QuietWalkIsExact(s: Schedule, org: int, cursors: seq<int>, seen: seq<Entry>)
    requires Proper(s) && Shows(s, org, cursors, seen) && 0 < |cursors| <= |s.at|
    requires NoPurge(s, org, s.at[0], s.at[|cursors| - 1])
    requires forall e :: e in Table(s, s.at[|cursors| - 1]).rows && Readable(org, None, None, 0)(e) ==> e in seen
    ensures seen == OrgLog(Table(s, s.at[|cursors| - 1]).rows, org)
  {
    var n := |cursors| - 1;
    var rows := Table(s, s.at[n]).rows;
    var log := OrgLog(rows, org);
    RunIsWellNumbered(s.init, s.steps[..s.at[n]]);
    OrderedFilter(rows, OfOrg(org));
    forall e
      ensures e in seen <==> e in log
    {
      FilterMember(rows, OfOrg(org), e);
      if e in seen {
        ShownIsThere(s, org, cursors, seen, n, e);
      }
      if e in log {
        assert Readable(org, None, None, 0)(e);
      }
    }
    SameRows(seen, log);
  }

  lemma {:induction false} CutAt(log: seq<Entry>, cursor: int) returns (n: nat)
    requires Increasing(log)
    ensures n <= |log|
    ensures forall i :: 0 <= i < |log| ==> (log[i].id <= cursor <==> i < n)
  {
    if log == [] {
      n := 0;
    } else {
      var init := log[..|log| - 1];
      n := CutAt(init, cursor);
      if Last(log).id <= cursor {
        n := |log|;
        assert forall i :: 0 <= i < |log| ==> log[i].id <= Last(log).id;
      } else {
        assert forall i :: 0 <= i < |init| ==> log[i] == init[i];
      }
    }
  }

  /** And one that stopped at a break reports the break the table has. */
  lemma {:induction false} QuietBreakIsReal(s: Schedule, org: int, cursors: seq<int>, seen: seq<Entry>)
    requires Proper(s) && Shows(s, org, cursors, seen) && 1 < |cursors| && |cursors| - 1 <= |s.at|
    requires NoPurge(s, org, s.at[0], s.at[|cursors| - 2]) && !Verified(seen).intact
    ensures Verified(seen) == Verified(OrgLog(Table(s, s.at[|cursors| - 2]).rows, org))
  {
    var k := |cursors| - 2;
    var rows := Table(s, s.at[k]).rows;
    var log := OrgLog(rows, org);
    RunIsWellNumbered(s.init, s.steps[..s.at[k]]);
    OrderedFilter(rows, OfOrg(org));
    forall e
      ensures e in seen <==> e in log && e.id <= Last(cursors)
    {
      ShownIffPassed(s, org, cursors, seen, k, log, e);
    }
    var n := PrefixUpTo(log, Last(cursors), seen);
    BrokenStaysBroken(log, n);
  }

  lemma {:induction false} PrefixUpTo(log: seq<Entry>, cursor: int, seen: seq<Entry>) returns (n: nat)
    requires Increasing(log) && Increasing(seen) && forall e :: e in seen <==> e in log && e.id <= cursor
    ensures n <= |log| && seen == log[..n]
  {
    n := CutAt(log, cursor);
    forall e
      ensures e in seen <==> e in log[..n]
    {
      PrefixMember(log, n, cursor, e);
    }
    SameRows(seen, log[..n]);
  }

  lemma {:induction false} ShownIffPassed(
    s: Schedule, org: int, cursors: seq<int>, seen: seq<Entry>, k: nat, log: seq<Entry>, e: Entry)
    requires Proper(s) && Shows(s, org, cursors, seen) && |cursors| == k + 2 && k < |s.at|
    requires NoPurge(s, org, s.at[0], s.at[k]) && log == OrgLog(Table(s, s.at[k]).rows, org)
    ensures e in seen <==> e in log && e.id <= Last(cursors)
  {
    if e in seen {
      ShownIsThere(s, org, cursors, seen, k, e);
      ShownUpTo(s, org, cursors, seen, e);
    }
    if e in log && e.id <= Last(cursors) {
      OrgRow(s, org, s.at[k], e);
      PassedIsShown(s, org, cursors, seen, k, e);
    }
  }

  lemma {:induction false} OrgRow(s: Schedule, org: int, n: nat, e: Entry)
    requires Proper(s) && n <= |s.steps| && e in OrgLog(Table(s, n).rows, org)
    ensures e in Table(s, n).rows && e.content.orgId == org && 0 < e.id
  {
    RunIsWellNumbered(s.init, s.steps[..n]);
    FilterMember(Table(s, n).rows, OfOrg(org), e);
  }

  lemma {:induction false} ShownUpTo(s: Schedule, org: int, cursors: seq<int>, seen: seq<Entry>, e: Entry)
    requires Proper(s) && Shows(s, org, cursors, seen) && e in seen
    ensures e.id <= Last(cursors)
  {}

  lemma {:induction false} PrefixMember(log: seq<Entry>, n: nat, cursor: int, e: Entry)
    requires n <= |log| && forall i :: 0 <= i < |log| ==> (log[i].id <= cursor <==> i < n)
    ensures e in log[..n] <==> e in log && e.id <= cursor
  {
    if e in log && e.id <= cursor {
      var i :| 0 <= i < |log| && log[i] == e;
      assert log[..n][i] == e;
    }
  }

  // ----- a purge that overtakes the walk -----

  lemma FirstPage(log: seq<Entry>, after: int)
    requires log != [] && after < log[0].id
    ensures Take(Filter(log, AfterId(after)), 1) == [log[0]]
  {}

  /**
   * Three entries in stamp order, read one to a page: a purge of the first two after the first page leaves
   * an intact log, but the second page starts with a row the walk takes for evidence of tampering.
   */
  lemma OvertakenWalkBreaks(a: Content, b: Content, c: Content, cutoff: int)
    requires a.orgId == b.orgId == c.orgId && a.createdAt <= b.createdAt < cutoff <= c.createdAt
    ensures var init, steps, org := Log([], 1), BackwardRun(a, b, c, cutoff), a.orgId;
            var first := Page(Run(init, steps[..3]).rows, org, None, None, 0, 1);
            && |first| == 1 && IntactAfter(init, steps, org)
            && !Verified(first + Page(Run(init, steps).rows, org, None, None, first[0].id, 1)).intact
  {
    var init, steps, org := Log([], 1), BackwardRun(a, b, c, cutoff), a.orgId;
    var before, after := Run(init, steps[..3]), Run(init, steps);
    var log := OrgLog(before.rows, org);
    ThreeAppends(a, b, c, cutoff);
    ThreeIntact(a, b, c, cutoff);
    assert OrgLog(after.rows, org) == [log[2]] by {
      RunOneMore(init, steps, 3);
      assert steps[..4] == steps;
      PurgeOfOrg(before, org, cutoff);
      LastOfThree(log, cutoff);
    }
    TwoPages(before.rows, after.rows, org, log);
    LastVerifies(log);
    SkippedRow(log);
  }

  lemma TwoPages(before: seq<Entry>, after: seq<Entry>, org: int, log: seq<Entry>)
    requires log == OrgLog(before, org) && |log| == 3 && log[0].id == 1 && log[2].id == 3
    requires OrgLog(after, org) == [log[2]]
    ensures Page(before, org, None, None, 0, 1) == [log[0]] && Page(after, org, None, None, 1, 1) == [log[2]]
    ensures [log[0]] + [log[2]] == [log[0], log[2]]
  {
    ReadFromLog(before, org, 0);
    ReadFromLog(after, org, 1);
    FirstPage(log, 0);
    FirstPage([log[2]], 1);
  }

  lemma LastVerifies(log: seq<Entry>)
    requires |log| == 3 && Verified(log).intact
    ensures Verified([log[2]]).intact
  {
    assert log == log[..2] + [log[2]];
    VerifiedMeaning(log);
    EndsCanGo(log[..2], [log[2]]);
    VerifiedMeaning([log[2]]);
  }

  lemma LastOfThree(log: seq<Entry>, cutoff: int)
    requires |log| == 3 && Recent(cutoff)(log[2]) && !Recent(cutoff)(log[0]) && !Recent(cutoff)(log[1])
    ensures Filter(log, Recent(cutoff)) == [log[2]]
  {
    assert log == [log[0], log[1]] + [log[2]];
    FilterNone([log[0], log[1]], Recent(cutoff));
    FilterSnoc([log[0], log[1]], log[2], Recent(cutoff));
  }

  lemma SkippedRow(log: seq<Entry>)
    requires |log| == 3 && Chained(log) == log && Verified(log).intact && Increasing(log)
    ensures !Verified([log[0], log[2]]).intact
  {
    var seen := [log[0], log[2]];
    NoBreakIff(log, seen);
    assert Seen(seen)(log[0]) && Seen(seen)(log[2]) && !Seen(seen)(log[1]);
  }

  // ----- a purge that empties the log -----

  /**
   * One entry is read, retention takes it, and the org appends again: the new log is intact, and the walk that
   * saw the old entry reports a break at the new one.
   */
  lemma EmptiedWalkBreaks(a: Content, c: Content, cutoff: int)
    requires a.orgId == c.orgId && a.createdAt < cutoff
    ensures var org := a.orgId;
            var one := Apply(Log([], 1), AppendStep(a));
            var three := Apply(Apply(one, PurgeStep(org, cutoff)), AppendStep(c));
            var first := Page(one.rows, org, None, None, 0, 1);
            && |first| == 1 && Verified(OrgLog(three.rows, org)).intact
            && !Verified(first + Page(three.rows, org, None, None, first[0].id, 1)).intact
  {
    var org, init := a.orgId, Log([], 1);
    var one := Apply(init, AppendStep(a));
    var two := Apply(one, PurgeStep(org, cutoff));
    var three := Apply(two, AppendStep(c));
    var x, z := Sealed([], 1, a), Sealed([], 2, c);
    assert one.rows == [x] && [x][1..] == [];
    assert two.rows == [];
    assert three.rows == [z] && [z][1..] == [];
    assert OrgLog(one.rows, org) == [x] && OrgLog(three.rows, org) == [z];
    ReadFromLog(one.rows, org, 0);
    ReadFromLog(three.rows, org, 1);
    FirstPage([x], 0);
    FirstPage([z], 1);
    assert [x] + [z] == [x, z];
    Restarted(x, z);
  }

  lemma Restarted(x: Entry, z: Entry)
    requires x.entryHash.Some? && x.entryHash.value != Genesis
    requires z.prevHash == Some(Genesis) && z.entryHash == Some(Digest(z.content, Genesis))
    ensures Verified([z]).intact && !Verified([x, z]).intact
  {
    FilterAll([z], IsChained());
    FilterAll([x, z], IsChained());
    VerifiedMeaning([z]);
    VerifiedMeaning([x, z]);
    assert !LinkedAt([x, z], AnchorOf([x, z]), 1);
  }
}
