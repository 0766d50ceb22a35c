/**
 * Whole runs of the audit table: any interleaving of appends and purges by any organisations, from a
 * table that is empty or holds only rows written before chaining existed. Stamps are arbitrary: they are
 * taken before the org's head is locked, from whichever server's clock.
 */
module AuditRuns {
  import opened Options
  import opened Sequences
  import opened AuditChain
  import opened AuditTable
  import opened AuditTamper

  datatype Step = AppendStep(content: Content) | PurgeStep(org: int, cutoff: int) {
    function Org(): int {
      if AppendStep? then content.orgId else org
    }
  }

  datatype Log = Log(rows: seq<Entry>, nextId: int)

  /** One transaction: the effect of `AuditRepository.Append` or `PurgeBefore` on the table. */
  function Apply(log: Log, step: Step): Log {
    match step
    case AppendStep(content) => Log(log.rows + [Sealed(log.rows, log.nextId, content)], log.nextId + 1)
    case PurgeStep(org, cutoff) => Log(Purged(log.rows, org, cutoff), log.nextId)
  }

  function Run(log: Log, steps: seq<Step>): Log {
    if steps == [] then log else Apply(Run(log, steps[..|steps| - 1]), Last(steps))
  }

  ghost predicate WellNumbered(log: Log) {
    0 < log.nextId && Ordered(log.rows) && forall e :: e in log.rows ==> e.id < log.nextId
  }

  /** A table that chaining has not touched yet, possibly empty. */
  ghost predicate Legacy(log: Log) {
    WellNumbered(log) && forall e :: e in log.rows ==> e.entryHash.None?
  }

  // ----- what the history says the verifier should report -----

  function Older(cutoff: int): Entry -> bool {
    (e: Entry) => e.content.createdAt < cutoff
  }

  function Recent(cutoff: int): Entry -> bool {
    (e: Entry) => !(e.content.createdAt < cutoff)
  }

  /** Not older than the cutoff of any purge of the org. */
  function Spared(steps: seq<Step>, org: int): Entry -> bool {
    (e: Entry) => forall i :: 0 <= i < |steps| && steps[i].PurgeStep? && steps[i].org == org
                              ==> steps[i].cutoff <= e.content.createdAt
  }

  function SurvivingLegacy(init: Log, steps: seq<Step>, org: int): seq<Entry> {
    Filter(OrgLog(init.rows, org), Spared(steps, org))
  }

  /** How many rows at the start of a chain are older than the cutoff. */
  function Leading(chain: seq<Entry>, cutoff: int): nat {
    if chain != [] && chain[0].content.createdAt < cutoff then 1 + Leading(chain[1..], cutoff) else 0
  }

  /** GENESIS when no chained row stays; else the digest of the last chained row purged ahead of the first
      one that stays; and as before when that one was the first already. */
  function AnchorAfterPurge(log: seq<Entry>, cutoff: int, anchor: Hash): Hash {
    var chain, gone := Chained(log), Leading(Chained(log), cutoff);
    if Filter(chain, Recent(cutoff)) == [] then Genesis
    else if 0 < gone <= |chain| then OrGenesis(chain[gone - 1].entryHash)
    else anchor
  }

  /** What the org's first surviving chained row chains back to. */
  function PurgedAnchor(init: Log, steps: seq<Step>, org: int): Hash {
    if steps == [] then Genesis
    else
      var before := steps[..|steps| - 1];
      var anchor := PurgedAnchor(init, before, org);
      match Last(steps)
      case AppendStep(_) => anchor
      case PurgeStep(o, cutoff) =>
        if o != org then anchor else AnchorAfterPurge(OrgLog(Run(init, before).rows, org), cutoff, anchor)
  }

  /** Every purge of the org leaves no gap: no chained row goes from between two that stay. */
  ghost predicate GaplessRun(init: Log, steps: seq<Step>, org: int) {
    steps == [] ||
    (var before, step := steps[..|steps| - 1], Last(steps);
     && GaplessRun(init, before, org)
     && (step.PurgeStep? && step.org == org ==> Gapless(OrgLog(Run(init, before).rows, org), Recent(step.cutoff))))
  }

  // ----- one step, seen from one org -----

  /** A step on one org leaves every other org's rows, hence its verification and head, as they were. */
  lemma OtherOrgsUntouched(log: Log, step: Step, org: int)
    requires step.Org() != org
    ensures OrgLog(Apply(log, step).rows, org) == OrgLog(log.rows, org)
  {
    match step {
      case AppendStep(content) =>
        FilterSnoc(log.rows, Sealed(log.rows, log.nextId, content), OfOrg(org));
      case PurgeStep(o, cutoff) =>
        FilterFilter(log.rows, Survives(o, cutoff), OfOrg(org), OfOrg(org));
    }
  }

  lemma AppendToOrg(log: Log, content: Content)
    ensures OrgLog(Apply(log, AppendStep(content)).rows, content.orgId)
         == OrgLog(log.rows, content.orgId) + [Sealed(log.rows, log.nextId, content)]
  {
    FilterSnoc(log.rows, Sealed(log.rows, log.nextId, content), OfOrg(content.orgId));
  }

  function RecentOfOrg(org: int, cutoff: int): Entry -> bool {
    (e: Entry) => e.content.orgId == org && !(e.content.createdAt < cutoff)
  }

  lemma PurgeOfOrg(log: Log, org: int, cutoff: int)
    ensures OrgLog(Apply(log, PurgeStep(org, cutoff)).rows, org) == Filter(OrgLog(log.rows, org), Recent(cutoff))
  {
    FilterFilter(log.rows, Survives(org, cutoff), OfOrg(org), RecentOfOrg(org, cutoff));
    FilterFilter(log.rows, OfOrg(org), Recent(cutoff), RecentOfOrg(org, cutoff));
  }

  // ----- the invariant -----

  ghost predicate LegacyFirst(log: seq<Entry>) {
    forall i, j :: 0 <= i < j < |log| && log[i].entryHash.Some? ==> log[j].entryHash.Some?
  }

  /** Legacy rows first, and a chain linked from `anchor`. */
  ghost predicate Sound(log: seq<Entry>, anchor: Hash) {
    LegacyFirst(log) && Linked(Chained(log), anchor) && (Chained(log) == [] ==> anchor == Genesis)
  }

  /** Legacy rows come first, so no chained row stands before an unchained one. */
  lemma NoneChainedBefore(log: seq<Entry>, n: nat)
    requires LegacyFirst(log) && n < |log| && log[n].entryHash.None?
    ensures Chained(log[..n]) == []
  {
    forall e | e in log[..n]
      ensures !IsChained()(e)
    {
      var i :| 0 <= i < n && log[i] == e;
    }
    FilterNone(log[..n], IsChained());
  }

  lemma SoundHead(log: seq<Entry>, anchor: Hash)
    requires Sound(log, anchor)
    ensures Head(log) == if Chained(log) == [] then anchor else OrGenesis(Last(Chained(log)).entryHash)
  {
    if log != [] {
      ChainedSnoc(log);
      if Last(log).entryHash.None? {
        NoneChainedBefore(log, |log| - 1);
        assert log == log[..|log| - 1] + [Last(log)];
      }
    }
  }

  lemma AppendKeepsSound(log: seq<Entry>, anchor: Hash, e: Entry)
    requires Sound(log, anchor)
    requires e.prevHash == Some(Head(log)) && e.entryHash == Some(Digest(e.content, Head(log)))
    ensures Sound(log + [e], anchor)
  {
    var chain := Chained(log);
    assert Chained(log + [e]) == chain + [e] by {
      FilterSnoc(log, e, IsChained());
    }
    SoundHead(log, anchor);
    AllChained(log);
    LinkedSnoc(chain, e, anchor);
    assert LinkedAt(chain + [e], anchor, |chain|);
  }

  lemma FilterKeepsLegacyFirst(log: seq<Entry>, keeps: Entry -> bool)
    requires LegacyFirst(log)
    ensures LegacyFirst(Filter(log, keeps))
  {
    var kept := Filter(log, keeps);
    forall i, j | 0 <= i < j < |kept| && kept[i].entryHash.Some?
      ensures kept[j].entryHash.Some?
    {
      var a, b := FilterPositions(log, keeps, i, j);
    }
  }

  lemma {:induction false} LeadingIs(chain: seq<Entry>, cutoff: int, n: nat)
    requires n < |chain| && Recent(cutoff)(chain[n]) && forall i :: 0 <= i < n ==> !Recent(cutoff)(chain[i])
    ensures Leading(chain, cutoff) == n
  {
    if n == 0 {
    } else {
      LeadingIs(chain[1..], cutoff, n - 1);
    }
  }

  lemma PurgeKeepsSound(log: seq<Entry>, anchor: Hash, cutoff: int)
    requires Sound(log, anchor) && Gapless(log, Recent(cutoff))
    ensures Sound(Filter(log, Recent(cutoff)), AnchorAfterPurge(log, cutoff, anchor))
  {
    var chain := Chained(log);
    FilterKeepsLegacyFirst(log, Recent(cutoff));
    ChainOfSurvivors(log, Recent(cutoff));
    AllChained(log);
    var n, m := GaplessSlice(chain, Recent(cutoff));
    FilterSlice(chain, Recent(cutoff), n, m);
    SliceLinked(chain, anchor, n, m);
    if n < m {
      LeadingIs(chain, cutoff, n);
    }
  }

  // ----- the theorem -----

  lemma {:induction false} RunIsWellNumbered(init: Log, steps: seq<Step>)
    requires WellNumbered(init)
    ensures WellNumbered(Run(init, steps))
  {
    if steps == [] {
    } else {
      var log := Run(init, steps[..|steps| - 1]);
      RunIsWellNumbered(init, steps[..|steps| - 1]);
      if Last(steps).PurgeStep? {
        OrderedFilter(log.rows, Survives(Last(steps).org, Last(steps).cutoff));
        FilterSound(log.rows, Survives(Last(steps).org, Last(steps).cutoff));
      }
    }
  }

  lemma {:induction false} RunIsSound(init: Log, steps: seq<Step>, org: int)
    requires Legacy(init) && GaplessRun(init, steps, org)
    ensures Sound(OrgLog(Run(init, steps).rows, org), PurgedAnchor(init, steps, org))
  {
    if steps == [] {
      var log := OrgLog(init.rows, org);
      FilterSound(init.rows, OfOrg(org));
      FilterNone(log, IsChained());
      assert forall e :: e in log ==> e.entryHash.None?;
    } else {
      var before, step := steps[..|steps| - 1], Last(steps);
      var log := Run(init, before);
      RunIsSound(init, before, org);
      if step.Org() != org {
        OtherOrgsUntouched(log, step, org);
      } else {
        match step {
          case AppendStep(content) =>
            AppendToOrg(log, content);
            AppendKeepsSound(OrgLog(log.rows, org), PurgedAnchor(init, before, org),
                             Sealed(log.rows, log.nextId, content));
          case PurgeStep(_, cutoff) =>
            PurgeOfOrg(log, org, cutoff);
            PurgeKeepsSound(OrgLog(log.rows, org), PurgedAnchor(init, before, org), cutoff);
        }
      }
    }
  }

  function Unchained(): Entry -> bool {
    (e: Entry) => e.entryHash.None?
  }

  lemma SparedStep(init: seq<Entry>, steps: seq<Step>, org: int)
    requires steps != []
    ensures var before, step := steps[..|steps| - 1], Last(steps);
            var kept := Filter(init, Spared(before, org));
            Filter(init, Spared(steps, org)) ==
            if step.PurgeStep? && step.org == org then Filter(kept, Recent(step.cutoff)) else kept
  {
    var before, step := steps[..|steps| - 1], Last(steps);
    assert steps == before + [step];
    if step.PurgeStep? && step.org == org {
      forall e | e in init
        ensures Spared(steps, org)(e) <==> Spared(before, org)(e) && Recent(step.cutoff)(e)
      {
        assert steps[|steps| - 1] == step;
      }
      FilterFilter(init, Spared(before, org), Recent(step.cutoff), Spared(steps, org));
    } else {
      FilterSame(init, Spared(before, org), Spared(steps, org));
    }
  }

  function RecentUnchained(cutoff: int): Entry -> bool {
    (e: Entry) => e.entryHash.None? && !(e.content.createdAt < cutoff)
  }

  lemma FiltersCommute(log: seq<Entry>, cutoff: int)
    ensures Filter(Filter(log, Recent(cutoff)), Unchained()) == Filter(Filter(log, Unchained()), Recent(cutoff))
  {
    FilterFilter(log, Recent(cutoff), Unchained(), RecentUnchained(cutoff));
    FilterFilter(log, Unchained(), Recent(cutoff), RecentUnchained(cutoff));
  }

  /** The unchained rows of any run are exactly the legacy rows that no purge of the org was old enough for. */
  lemma {:induction false} UnchainedAreLegacy(init: Log, steps: seq<Step>, org: int)
    requires Legacy(init)
    ensures Filter(OrgLog(Run(init, steps).rows, org), Unchained()) == SurvivingLegacy(init, steps, org)
  {
    if steps == [] {
      var log := OrgLog(init.rows, org);
      FilterSound(init.rows, OfOrg(org));
      FilterAll(log, Unchained());
      FilterAll(log, Spared([], org));
    } else {
      var before, step := steps[..|steps| - 1], Last(steps);
      var log := Run(init, before);
      UnchainedAreLegacy(init, before, org);
      SparedStep(OrgLog(init.rows, org), steps, org);
      if step.Org() != org {
        OtherOrgsUntouched(log, step, org);
      } else {
        match step {
          case AppendStep(content) =>
            AppendToOrg(log, content);
            FilterSnoc(OrgLog(log.rows, org), Sealed(log.rows, log.nextId, content), Unchained());
          case PurgeStep(_, cutoff) =>
            PurgeOfOrg(log, org, cutoff);
            FiltersCommute(OrgLog(log.rows, org), cutoff);
        }
      }
    }
  }

  lemma {:induction false} ChainedOrNot(log: seq<Entry>)
    ensures |Chained(log)| + |Filter(log, Unchained())| == |log|
  {
    if log == [] {
    } else {
      ChainedOrNot(log[1..]);
    }
  }

  /**
   * After every run whose purges leave no gap in the org's chain, that chain verifies intact, the reported
   * unchained rows are the surviving legacy rows, and the reported anchor is the digest of the last
   * chained row purged ahead of the survivors.
   */
  lemma EveryRunVerifies(init: Log, steps: seq<Step>, org: int)
    requires Legacy(init) && GaplessRun(init, steps, org)
    ensures var s := Verified(OrgLog(Run(init, steps).rows, org));
            && s.intact
            && s.entries == |OrgLog(Run(init, steps).rows, org)|
            && s.unchained == |SurvivingLegacy(init, steps, org)|
            && s.anchorPrev == PurgedAnchor(init, steps, org)
  {
    var log, anchor := OrgLog(Run(init, steps).rows, org), PurgedAnchor(init, steps, org);
    RunIsSound(init, steps, org);
    UnchainedAreLegacy(init, steps, org);
    ChainedOrNot(log);
    if Chained(log) != [] {
      assert LinkedAt(Chained(log), anchor, 0);
    }
    VerifiedMeaning(log);
  }

  // ----- and only then -----

  predicate IntactAfter(init: Log, steps: seq<Step>, org: int) {
    Verified(OrgLog(Run(init, steps).rows, org)).intact
  }

  lemma {:induction false} PrefixIsGapless(init: Log, steps: seq<Step>, org: int, n: nat)
    requires GaplessRun(init, steps, org) && n <= |steps|
    ensures GaplessRun(init, steps[..n], org)
  {
    if n == |steps| {
      assert steps[..n] == steps;
    } else {
      var before := steps[..|steps| - 1];
      PrefixIsGapless(init, before, org, n);
      assert before[..n] == steps[..n];
    }
  }

  lemma {:induction false} IntactThroughoutIsGapless(init: Log, steps: seq<Step>, org: int)
    requires Legacy(init) && forall n :: 0 <= n <= |steps| ==> IntactAfter(init, steps[..n], org)
    ensures GaplessRun(init, steps, org)
  {
    if steps == [] {
    } else {
      var before, step := steps[..|steps| - 1], Last(steps);
      assert forall n :: 0 <= n <= |before| ==> before[..n] == steps[..n];
      IntactThroughoutIsGapless(init, before, org);
      if step.PurgeStep? && step.org == org {
        var log := OrgLog(Run(init, before).rows, org);
        EveryRunVerifies(init, before, org);
        PurgeOfOrg(Run(init, before), org, step.cutoff);
        assert steps[..|steps|] == steps;
        SurvivorsVerifyIff(log, Recent(step.cutoff));
      }
    }
  }

  /** With any stamps: an org's chain verifies all through a run if and only if no purge of the org removes
      a chained row from between two that stay. */
  lemma IntactThroughoutIff(init: Log, steps: seq<Step>, org: int)
    requires Legacy(init)
    ensures (forall n :: 0 <= n <= |steps| ==> IntactAfter(init, steps[..n], org)) <==> GaplessRun(init, steps, org)
  {
    if GaplessRun(init, steps, org) {
      forall n | 0 <= n <= |steps|
        ensures IntactAfter(init, steps[..n], org)
      {
        PrefixIsGapless(init, steps, org, n);
        EveryRunVerifies(init, steps[..n], org);
      }
    } else if forall n :: 0 <= n <= |steps| ==> IntactAfter(init, steps[..n], org) {
      IntactThroughoutIsGapless(init, steps, org);
    }
  }
}
