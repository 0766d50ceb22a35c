/**
 * The verifier in a run: its reads fall between any of the run's appends and purges. What it reports is
 * decided by the steps and where the reads fall among them.
 */
module AuditSchedules {
  import opened Options
  import opened Sequences
  import opened AuditChain
  import opened AuditTable
  import opened AuditTamper
  import opened AuditRuns
  import opened AuditExport
  import opened AuditWalk

  /** A run, and after how many of its steps each read of the walk falls. */
  datatype Schedule = Schedule(init: Log, steps: seq<Step>, at: seq<nat>)

  ghost predicate Proper(s: Schedule) {
    && Legacy(s.init)
    && (forall k :: 0 <= k < |s.at| ==> s.at[k] <= |s.steps|)
    && (forall j, k :: 0 <= j < k < |s.at| ==> s.at[j] <= s.at[k])
  }

  /** The table after `n` steps. */
  function Table(s: Schedule, n: nat): Log
    requires n <= |s.steps|
  {
    Run(s.init, s.steps[..n])
  }

  function Snaps(s: Schedule): (snaps: seq<Log>)
    requires forall k :: 0 <= k < |s.at| ==> s.at[k] <= |s.steps|
    ensures |snaps| == |s.at| && forall k :: 0 <= k < |snaps| ==> snaps[k] == Table(s, s.at[k])
  {
    seq(|s.at|, k requires 0 <= k < |s.at| => Table(s, s.at[k]))
  }

  /** What a walk of the org in this schedule was shown: the contract of `VerifyAcross`. */
  ghost predicate Shows(s: Schedule, org: int, cursors: seq<int>, seen: seq<Entry>)
    requires Proper(s)
  {
    Progress(Snaps(s), Readable(org, None, None, 0), cursors, seen)
  }

  // ----- tables of one run -----

  lemma {:induction false} RunConcat(init: Log, a: seq<Step>, b: seq<Step>)
    ensures Run(init, a + b) == Run(Run(init, a), b)
  {
    if b == [] {
      assert a + b == a;
    } else {
      var before := b[..|b| - 1];
      assert (a + b)[..|a + b| - 1] == a + before && Last(a + b) == Last(b);
      RunConcat(init, a, before);
    }
  }

  lemma {:induction false} TablesAreLater(s: Schedule, m: nat, n: nat)
    requires Proper(s) && m <= n <= |s.steps|
    ensures WellNumbered(Table(s, m)) && WellNumbered(Table(s, n)) && Later(Table(s, m), Table(s, n))
  {
    RunIsWellNumbered(s.init, s.steps[..m]);
    RunIsWellNumbered(s.init, s.steps[..n]);
    assert s.steps[..n] == s.steps[..m] + s.steps[m..n];
    RunConcat(s.init, s.steps[..m], s.steps[m..n]);
    RunsAreLater(Table(s, m), s.steps[m..n]);
  }

  /** The reads of a schedule are what the walk asks for. */
  lemma {:induction false} SnapsAreSuccessive(s: Schedule)
    requires Proper(s)
    ensures Successive(Snaps(s))
  {
    var snaps := Snaps(s);
    forall k | 0 <= k < |snaps|
      ensures WellNumbered(snaps[k]) && (0 < k ==> Later(snaps[k - 1], snaps[k]))
    {
      TablesAreLater(s, if k > 0 then s.at[k - 1] else 0, s.at[k]);
    }
  }

  // ----- all the rows an org ever had -----

  /** Every row of the org in the first `n` steps, purged or not. */
  function Written(init: Log, steps: seq<Step>, org: int): seq<Entry> {
    if steps == [] then OrgLog(init.rows, org)
    else
      var before, step := steps[..|steps| - 1], Last(steps);
      var past, log := Written(init, before, org), Run(init, before);
      if step.AppendStep? && step.content.orgId == org then past + [Sealed(log.rows, log.nextId, step.content)] else past
  }

  function History(s: Schedule, org: int): seq<Entry> {
    Written(s.init, s.steps, org)
  }

  lemma {:induction false} WrittenHoldsAll(init: Log, steps: seq<Step>, org: int)
    requires WellNumbered(init)
    ensures Increasing(Written(init, steps, org))
    ensures forall e :: e in Written(init, steps, org) ==> 0 < e.id < Run(init, steps).nextId && e.content.orgId == org
    ensures forall e :: e in OrgLog(Run(init, steps).rows, org) ==> e in Written(init, steps, org)
  {
    RunIsWellNumbered(init, steps);
    if steps == [] {
      OrderedFilter(init.rows, OfOrg(org));
      FilterSound(init.rows, OfOrg(org));
    } else {
      var before, step := steps[..|steps| - 1], Last(steps);
      var log, past := Run(init, before), Written(init, before, org);
      WrittenHoldsAll(init, before, org);
      if step.Org() != org {
        OtherOrgsUntouched(log, step, org);
      } else {
        match step {
          case AppendStep(content) =>
            AppendToOrg(log, content);
            RunIsWellNumbered(init, before);
            ConcatIncreases(past, [Sealed(log.rows, log.nextId, content)], log.nextId - 1);
          case PurgeStep(_, cutoff) =>
            PurgeOfOrg(log, org, cutoff);
            FilterSound(OrgLog(log.rows, org), Recent(cutoff));
        }
      }
    }
  }

  lemma {:induction false} WrittenGrows(init: Log, steps: seq<Step>, org: int, n: nat)
    requires n <= |steps| && WellNumbered(init)
    ensures forall e :: e in Written(init, steps[..n], org) ==> e in Written(init, steps, org)
    ensures forall e :: e in Written(init, steps, org) && e.id < Run(init, steps[..n]).nextId
                        ==> e in Written(init, steps[..n], org)
  {
    if n == |steps| {
      assert steps[..n] == steps;
    } else {
      var before := steps[..|steps| - 1];
      WrittenGrows(init, before, org, n);
      assert before[..n] == steps[..n];
      assert before == before[..n] + before[n..];
      RunConcat(init, before[..n], before[n..]);
      RunIsWellNumbered(init, before[..n]);
      RunsAreLater(Run(init, before[..n]), before[n..]);
    }
  }

  /** Rows of the org's history, in id order. */
  ghost predicate FromHistory(s: Schedule, org: int, seen: seq<Entry>) {
    Increasing(seen) && forall e :: e in seen ==> e in History(s, org)
  }

  lemma {:induction false} ShownIsHistory(s: Schedule, org: int, cursors: seq<int>, seen: seq<Entry>)
    requires Proper(s) && Shows(s, org, cursors, seen)
    ensures FromHistory(s, org, seen)
  {
    var snaps := Snaps(s);
    forall e | e in seen
      ensures e in History(s, org)
    {
      assert SeenBefore(snaps, cursors, e) && Readable(org, None, None, 0)(e);
      var k :| 0 <= k < |cursors| - 1 && e in snaps[k].rows && e.id <= cursors[k + 1];
      FilterMember(snaps[k].rows, OfOrg(org), e);
      WrittenHoldsAll(s.init, s.steps[..s.at[k]], org);
      WrittenGrows(s.init, s.steps, org, s.at[k]);
    }
  }

  // ----- the exact condition, for every schedule -----

  /** Step `n` is the append that wrote the row. */
  ghost predicate Appends(s: Schedule, n: nat, e: Entry) {
    && n < |s.steps| && s.steps[n].AppendStep?
    && e == Sealed(Table(s, n).rows, Table(s, n).nextId, s.steps[n].content)
  }

  lemma {:induction false} WasAppended(init: Log, steps: seq<Step>, org: int, e: Entry) returns (n: nat)
    requires Legacy(init) && e in Written(init, steps, org) && e.entryHash.Some?
    ensures n < |steps| && steps[n].AppendStep? && steps[n].content.orgId == org
    ensures e == Sealed(Run(init, steps[..n]).rows, Run(init, steps[..n]).nextId, steps[n].content)
  {
    if steps == [] {
      FilterMember(init.rows, OfOrg(org), e);
      assert false;
    } else {
      var before, step := steps[..|steps| - 1], Last(steps);
      if e in Written(init, before, org) {
        n := WasAppended(init, before, org, e);
        assert before[..n] == steps[..n];
      } else {
        n := |steps| - 1;
      }
    }
  }

  /** Each chained row shown was chained to the one shown before it: that one's digest was the org's head when
      it was appended. */
  ghost predicate EachOntoThePrevious(s: Schedule, org: int, seen: seq<Entry>) {
    forall i, n :: 0 < i < |Chained(seen)| && Appends(s, n, Chained(seen)[i]) ==>
      Head(OrgLog(Table(s, n).rows, org)) == OrGenesis(Chained(seen)[i - 1].entryHash)
  }

  lemma {:induction false} ChainedShown(s: Schedule, org: int, seen: seq<Entry>, i: nat) returns (n: nat)
    requires Proper(s) && FromHistory(s, org, seen) && i < |Chained(seen)|
    ensures var e := Chained(seen)[i];
            && e in History(s, org) && e.entryHash.Some? && e.content.orgId == org
            && Appends(s, n, e) && s.steps[n].content.orgId == org
  {
    AllChained(seen);
    assert Chained(seen)[i] in Chained(seen);
    n := WasAppended(s.init, s.steps, org, Chained(seen)[i]);
  }

  /** Which step wrote a row is settled by its id. */
  lemma {:induction false} AppendedOnce(s: Schedule, m: nat, n: nat, e: Entry)
    requires Proper(s) && Appends(s, m, e) && Appends(s, n, e)
    ensures m == n
  {
    if m < n {
      NextIdGrows(s, m, n);
    } else if n < m {
      NextIdGrows(s, n, m);
    }
  }

  lemma {:induction false} NextIdGrows(s: Schedule, m: nat, n: nat)
    requires Proper(s) && m < n <= |s.steps| && s.steps[m].AppendStep?
    ensures Table(s, m).nextId < Table(s, n).nextId
  {
    assert s.steps[..m + 1][..m] == s.steps[..m];
    TablesAreLater(s, m + 1, n);
  }

  /** A chained row was sealed onto the org's head of that moment. */
  lemma {:induction false} SealedOntoHead(s: Schedule, org: int, seen: seq<Entry>, i: nat)
    requires Proper(s) && FromHistory(s, org, seen) && i < |Chained(seen)|
    ensures var e := Chained(seen)[i];
            && e.prevHash.Some? && e.entryHash == Some(Digest(e.content, e.prevHash.value))
            && (exists n :: Appends(s, n, e))
            && (forall n :: Appends(s, n, e) ==> e.prevHash == Some(Head(OrgLog(Table(s, n).rows, org))))
  {
    var m := ChainedShown(s, org, seen, i);
    forall n | Appends(s, n, Chained(seen)[i])
      ensures n == m
    {
      AppendedOnce(s, m, n, Chained(seen)[i]);
    }
  }

  lemma {:induction false} OntoThePreviousIff(s: Schedule, org: int, seen: seq<Entry>)
    requires Proper(s) && FromHistory(s, org, seen)
    ensures Verified(seen).intact <==> EachOntoThePrevious(s, org, seen)
  {
    var chain := Chained(seen);
    VerifiedMeaning(seen);
    AllChained(seen);
    forall i | 0 <= i < |chain|
      ensures LinkedAt(chain, AnchorOf(chain), i) <==>
              (i == 0 || forall n :: Appends(s, n, chain[i]) ==>
                           Head(OrgLog(Table(s, n).rows, org)) == OrGenesis(chain[i - 1].entryHash))
    {
      SealedOntoHead(s, org, seen, i);
    }
  }

  /** No two rows the org ever wrote carry one digest: they would agree in every field, the stamp and what they
      are chained to. */
  ghost predicate DistinctDigests(history: seq<Entry>) {
    forall e, f :: e in history && f in history && e.entryHash.Some? && e.entryHash == f.entryHash ==> e == f
  }

  /** Each chained row shown was appended when the one shown before it was the org's newest row. */
  ghost predicate EachOntoTheNewest(s: Schedule, org: int, seen: seq<Entry>) {
    forall i, n :: 0 < i < |Chained(seen)| && Appends(s, n, Chained(seen)[i]) ==>
      Chained(seen)[i - 1] in Table(s, n).rows && Newest(Table(s, n).rows, org, Chained(seen)[i - 1])
  }

  lemma {:induction false} HeadIsNewestIff(s: Schedule, org: int, n: nat, d: Entry)
    requires Proper(s) && n <= |s.steps| && DistinctDigests(History(s, org))
    requires d in History(s, org) && d.content.orgId == org && d.entryHash.Some? && d.entryHash.value != Genesis
    ensures Head(OrgLog(Table(s, n).rows, org)) == OrGenesis(d.entryHash)
            <==> d in Table(s, n).rows && Newest(Table(s, n).rows, org, d)
  {
    var rows := Table(s, n).rows;
    var log := OrgLog(rows, org);
    RunIsWellNumbered(s.init, s.steps[..n]);
    LastIsNewest(rows, org);
    if Head(log) == OrGenesis(d.entryHash) {
      WrittenHoldsAll(s.init, s.steps[..n], org);
      WrittenGrows(s.init, s.steps, org, n);
      assert Last(log) in log;
      FilterMember(rows, OfOrg(org), d);
      OrderedFilter(rows, OfOrg(org));
      assert Last(log) == d;
      NewestIsLast(rows, org, d);
    }
  }

  lemma {:induction false} NewestIsLast(rows: seq<Entry>, org: int, d: Entry)
    requires Ordered(rows) && OrgLog(rows, org) != [] && d == Last(OrgLog(rows, org))
    ensures Newest(rows, org, d)
  {
    var log := OrgLog(rows, org);
    OrderedFilter(rows, OfOrg(org));
    FilterMember(rows, OfOrg(org), d);
    assert d in log;
    forall f | f in rows && f.content.orgId == org
      ensures f.id <= d.id
    {
      FilterMember(rows, OfOrg(org), f);
      var i :| 0 <= i < |log| && log[i] == f;
    }
  }

  lemma {:induction false} PreviousIsNewestIff(s: Schedule, org: int, seen: seq<Entry>, i: nat, n: nat)
    requires Proper(s) && FromHistory(s, org, seen) && DistinctDigests(History(s, org))
    requires 0 < i < |Chained(seen)| && n <= |s.steps|
    ensures var d := Chained(seen)[i - 1];
            Head(OrgLog(Table(s, n).rows, org)) == OrGenesis(d.entryHash)
            <==> d in Table(s, n).rows && Newest(Table(s, n).rows, org, d)
  {
    var m := ChainedShown(s, org, seen, i - 1);
    HeadIsNewestIff(s, org, n, Chained(seen)[i - 1]);
  }

  lemma {:induction false} OntoTheNewestIff(s: Schedule, org: int, seen: seq<Entry>)
    requires Proper(s) && FromHistory(s, org, seen) && DistinctDigests(History(s, org))
    ensures Verified(seen).intact <==> EachOntoTheNewest(s, org, seen)
  {
    var chain := Chained(seen);
    OntoThePreviousIff(s, org, seen);
    forall i, n | 0 < i < |chain| && Appends(s, n, chain[i])
      ensures Head(OrgLog(Table(s, n).rows, org)) == OrGenesis(chain[i - 1].entryHash)
              <==> chain[i - 1] in Table(s, n).rows && Newest(Table(s, n).rows, org, chain[i - 1])
    {
      PreviousIsNewestIff(s, org, seen, i, n);
    }
  }

  /**
   * Whatever the schedule, the walk reports no break if and only if each chained row it was shown had been
   * chained to the one it was shown before; and where digests are distinct, if and only if that one was the
   * org's newest row when it was appended.
   */
  lemma {:induction false} WalkInRunIff(s: Schedule, org: int, cursors: seq<int>, seen: seq<Entry>)
    requires Proper(s) && Shows(s, org, cursors, seen)
    ensures Verified(seen).intact <==> EachOntoThePrevious(s, org, seen)
    ensures DistinctDigests(History(s, org)) ==> (Verified(seen).intact <==> EachOntoTheNewest(s, org, seen))
  {
    ShownIsHistory(s, org, cursors, seen);
    OntoThePreviousIff(s, org, seen);
    if DistinctDigests(History(s, org)) {
      OntoTheNewestIff(s, org, seen);
    }
  }

  // ----- a log that was emptied -----

  lemma {:induction false} Crossing(chain: seq<Entry>, bound: int, i: nat, j: nat) returns (k: nat)
    requires i < j < |chain| && chain[i].id < bound <= chain[j].id
    ensures i < k <= j && chain[k - 1].id < bound <= chain[k].id
    decreases j - i
  {
    if chain[i + 1].id >= bound {
      k := i + 1;
    } else {
      k := Crossing(chain, bound, i + 1, j);
    }
  }

  lemma {:induction false} NotOntoTheNewest(s: Schedule, org: int, seen: seq<Entry>, m: nat, k: nat)
    requires Proper(s) && FromHistory(s, org, seen)
    requires m <= |s.steps| && OrgLog(Table(s, m).rows, org) == []
    requires 0 < k < |Chained(seen)| && Chained(seen)[k - 1].id < Table(s, m).nextId <= Chained(seen)[k].id
    ensures !EachOntoTheNewest(s, org, seen)
  {
    var n := ChainedShown(s, org, seen, k);
    var p := ChainedShown(s, org, seen, k - 1);
    GoneForGood(s, org, m, n, Chained(seen)[k - 1]);
  }

  /**
   * If the org's log was empty at some point, a walk that was shown a chained row from before and one from
   * after reports a break: the chain began anew.
   */
  lemma {:induction false} EmptiedLogBreaks(
    s: Schedule, org: int, cursors: seq<int>, seen: seq<Entry>, m: nat, d: Entry, f: Entry)
    requires Proper(s) && Shows(s, org, cursors, seen) && DistinctDigests(History(s, org))
    requires m <= |s.steps| && OrgLog(Table(s, m).rows, org) == []
    requires d in Chained(seen) && f in Chained(seen) && d.id < Table(s, m).nextId <= f.id
    ensures !Verified(seen).intact
  {
    ShownIsHistory(s, org, cursors, seen);
    var k := CrossingIn(seen, Table(s, m).nextId, d, f);
    NotOntoTheNewest(s, org, seen, m, k);
    OntoTheNewestIff(s, org, seen);
  }

  lemma {:induction false} CrossingIn(seen: seq<Entry>, bound: int, d: Entry, f: Entry) returns (k: nat)
    requires Increasing(seen) && d in Chained(seen) && f in Chained(seen) && d.id < bound <= f.id
    ensures 0 < k < |Chained(seen)| && Chained(seen)[k - 1].id < bound <= Chained(seen)[k].id
  {
    var chain := Chained(seen);
    var i :| 0 <= i < |chain| && chain[i] == d;
    var j :| 0 <= j < |chain| && chain[j] == f;
    ChainIncreases(seen);
    k := Crossing(chain, bound, i, j);
  }

  lemma {:induction false} GoneForGood(s: Schedule, org: int, m: nat, n: nat, d: Entry)
    requires Proper(s) && m <= |s.steps| && OrgLog(Table(s, m).rows, org) == []
    requires n < |s.steps| && s.steps[n].AppendStep? && Table(s, m).nextId <= Table(s, n).nextId
    requires d.content.orgId == org && d.id < Table(s, m).nextId
    ensures d !in Table(s, n).rows
  {
    if n < m {
      NextIdGrows(s, n, m);
    } else {
      TablesAreLater(s, m, n);
      FilterMember(Table(s, m).rows, OfOrg(org), d);
    }
  }

  lemma {:induction false} ChainIncreases(seen: seq<Entry>)
    requires Increasing(seen)
    ensures Increasing(Chained(seen))
  {
    var chain := Chained(seen);
    forall i, j | 0 <= i < j < |chain|
      ensures chain[i].id < chain[j].id
    {
      var a, b := FilterPositions(seen, IsChained(), i, j);
    }
  }
}
