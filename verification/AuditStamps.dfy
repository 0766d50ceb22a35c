/**
 * What stamps decide: retention selects by stamp while the chain is ordered by id. Stamps that never go
 * backwards within an org make every run verify; one that does can turn a purge into a reported break.
 */
module AuditStamps {
  import opened Options
  import opened Sequences
  import opened AuditChain
  import opened AuditTable
  import opened AuditTamper
  import opened AuditRuns

  // ----- stamps that go backwards -----

  function BackwardRun(a: Content, b: Content, c: Content, cutoff: int): seq<Step> {
    [AppendStep(a), AppendStep(b), AppendStep(c), PurgeStep(a.orgId, cutoff)]
  }

  /** Three entries, the middle one stamped earlier than the first: purging it alone is reported as tampering. */
  lemma BackwardStampBreaks(a: Content, b: Content, c: Content, cutoff: int)
    requires a.orgId == b.orgId == c.orgId
    requires b.createdAt < cutoff <= a.createdAt && cutoff <= c.createdAt
    ensures var init, steps := Log([], 1), BackwardRun(a, b, c, cutoff);
            IntactAfter(init, steps[..3], a.orgId) && !IntactAfter(init, steps, a.orgId)
  {
    var init, steps, org := Log([], 1), BackwardRun(a, b, c, cutoff), a.orgId;
    var log := OrgLog(Run(init, steps[..3]).rows, org);
    ThreeIntact(a, b, c, cutoff);
    ThreeAppends(a, b, c, cutoff);
    RunOneMore(init, steps, 3);
    assert steps[..4] == steps;
    PurgeOfOrg(Run(init, steps[..3]), org, cutoff);
    SurvivorsVerifyIff(log, Recent(cutoff));
    assert Recent(cutoff)(log[0]) && Recent(cutoff)(log[2]) && !Recent(cutoff)(log[1]);
  }

  lemma ThreeIntact(a: Content, b: Content, c: Content, cutoff: int)
    requires a.orgId == b.orgId == c.orgId
    ensures IntactAfter(Log([], 1), BackwardRun(a, b, c, cutoff)[..3], a.orgId)
  {
    var init, steps, org := Log([], 1), BackwardRun(a, b, c, cutoff), a.orgId;
    assert steps[..3][..2] == steps[..2] && steps[..2][..1] == steps[..1] && steps[..1][..0] == [];
    assert GaplessRun(init, steps[..1], org) && GaplessRun(init, steps[..2], org);
    EveryRunVerifies(init, steps[..3], org);
  }

  lemma RunOneMore(init: Log, steps: seq<Step>, n: nat)
    requires n < |steps|
    ensures Run(init, steps[..n + 1]) == Apply(Run(init, steps[..n]), steps[n])
  {
    assert steps[..n + 1][..n] == steps[..n];
  }

  lemma ThreeAppends(a: Content, b: Content, c: Content, cutoff: int)
    requires a.orgId == b.orgId == c.orgId
    ensures var log := OrgLog(Run(Log([], 1), BackwardRun(a, b, c, cutoff)[..3]).rows, a.orgId);
            && Chained(log) == log && |log| == 3
            && log[0].content == a && log[1].content == b && log[2].content == c
            && log[0].id == 1 && log[1].id == 2 && log[2].id == 3
  {
    var init, steps, org := Log([], 1), BackwardRun(a, b, c, cutoff), a.orgId;
    var one := Apply(init, AppendStep(a));
    var two := Apply(one, AppendStep(b));
    var three := Apply(two, AppendStep(c));
    RunOneMore(init, steps, 0);
    RunOneMore(init, steps, 1);
    RunOneMore(init, steps, 2);
    var x, y, z := Sealed([], 1, a), Sealed(one.rows, 2, b), Sealed(two.rows, 3, c);
    AppendToOrg(init, a);
    AppendToOrg(one, b);
    AppendToOrg(two, c);
    assert OrgLog(three.rows, org) == [x] + [y] + [z] == [x, y, z];
    FilterAll([x, y, z], IsChained());
  }

  // ----- stamps that do not -----

  /** Stamps do not go backwards within an org. */
  ghost predicate Legal(log: Log, step: Step) {
    step.AppendStep? ==>
      forall e :: e in OrgLog(log.rows, step.content.orgId) ==> e.content.createdAt <= step.content.createdAt
  }

  ghost predicate LegalRun(log: Log, steps: seq<Step>) {
    steps == [] || (LegalRun(log, steps[..|steps| - 1]) && Legal(Run(log, steps[..|steps| - 1]), Last(steps)))
  }

  ghost predicate Stamped(log: seq<Entry>) {
    forall i, j :: 0 <= i < j < |log| ==> log[i].content.createdAt <= log[j].content.createdAt
  }

  /** In a log ordered by stamp, retention removes a prefix. */
  lemma {:induction false} PurgeCutsPrefix(log: seq<Entry>, cutoff: int) returns (n: nat)
    requires Stamped(log)
    ensures n <= |log|
    ensures Filter(log, Older(cutoff)) == log[..n] && Filter(log, Recent(cutoff)) == log[n..]
  {
    n := 0;
    if log == [] {
    } else if log[0].content.createdAt < cutoff {
      var m := PurgeCutsPrefix(log[1..], cutoff);
      n := m + 1;
      assert log[1..][m..] == log[n..] && [log[0]] + log[1..][..m] == log[..n];
    } else {
      FilterAll(log, Recent(cutoff));
      FilterNone(log, Older(cutoff));
    }
  }

  lemma StampedIsGapless(log: seq<Entry>, cutoff: int)
    requires Stamped(log)
    ensures Gapless(log, Recent(cutoff))
  {
    var chain := Chained(log);
    forall i, j | 0 <= i < j < |chain|
      ensures chain[i].content.createdAt <= chain[j].content.createdAt
    {
      var a, b := FilterPositions(log, IsChained(), i, j);
    }
  }

  lemma {:induction false} StampedRunIsGapless(init: Log, steps: seq<Step>, org: int)
    requires Legacy(init) && Stamped(OrgLog(init.rows, org)) && LegalRun(init, steps)
    ensures GaplessRun(init, steps, org) && Stamped(OrgLog(Run(init, steps).rows, org))
  {
    if steps == [] {
    } else {
      var before, step := steps[..|steps| - 1], Last(steps);
      var log := Run(init, before);
      StampedRunIsGapless(init, before, org);
      if step.Org() != org {
        OtherOrgsUntouched(log, step, org);
      } else {
        match step {
          case AppendStep(content) =>
            AppendToOrg(log, content);
          case PurgeStep(_, cutoff) =>
            StampedIsGapless(OrgLog(log.rows, org), cutoff);
            PurgeOfOrg(log, org, cutoff);
            var n := PurgeCutsPrefix(OrgLog(log.rows, org), cutoff);
        }
      }
    }
  }

  function LastPurgedIn(log: seq<Entry>, cutoff: int, anchor: Hash): Hash {
    var gone := Chained(Filter(log, Older(cutoff)));
    if Filter(log, Recent(cutoff)) == [] then Genesis
    else if gone == [] then anchor
    else OrGenesis(Last(gone).entryHash)
  }

  /** The hash of the last chained row purged since the org's log was last empty, else GENESIS. */
  function LastPurged(init: Log, steps: seq<Step>, org: int): Hash {
    if steps == [] then Genesis
    else
      var before := steps[..|steps| - 1];
      match Last(steps)
      case AppendStep(_) => LastPurged(init, before, org)
      case PurgeStep(o, cutoff) =>
        if o != org then LastPurged(init, before, org)
        else LastPurgedIn(OrgLog(Run(init, before).rows, org), cutoff, LastPurged(init, before, org))
  }

  lemma AnchorIsLastPurged(log: seq<Entry>, anchor: Hash, cutoff: int)
    requires Sound(log, anchor) && Stamped(log)
    ensures AnchorAfterPurge(log, cutoff, anchor) == LastPurgedIn(log, cutoff, anchor)
  {
    var n := PurgeCutsPrefix(log, cutoff);
    var gone, left := Chained(log[..n]), Chained(log[n..]);
    assert log == log[..n] + log[n..];
    ChainedConcat(log[..n], log[n..]);
    ChainOfSurvivors(log, Recent(cutoff));
    if left == [] {
      if n < |log| {
        ChainedStaysChained(log, n);
      }
    } else {
      LeadingGone(gone, left, log, cutoff, n);
    }
  }

  lemma LeadingGone(gone: seq<Entry>, left: seq<Entry>, log: seq<Entry>, cutoff: int, n: nat)
    requires n <= |log| && Filter(log, Older(cutoff)) == log[..n] && Filter(log, Recent(cutoff)) == log[n..]
    requires gone == Chained(log[..n]) && left == Chained(log[n..]) && left != []
    ensures Leading(gone + left, cutoff) == |gone|
  {
    FilterSound(log, Older(cutoff));
    FilterSound(log, Recent(cutoff));
    AllChained(log[..n]);
    AllChained(log[n..]);
    var chain := gone + left;
    forall i | 0 <= i < |gone|
      ensures !Recent(cutoff)(chain[i])
    {
      assert chain[i] in gone;
    }
    assert chain[|gone|] == left[0] && left[0] in left;
    LeadingIs(chain, cutoff, |gone|);
  }

  lemma ChainedStaysChained(log: seq<Entry>, n: nat)
    requires n < |log| && LegacyFirst(log)
    ensures Chained(log[n..]) == [] ==> Chained(log[..n]) == [] && Chained(log) == []
  {
    assert log == log[..n] + log[n..];
    ChainedConcat(log[..n], log[n..]);
    if Chained(log[n..]) == [] {
      FilterMember(log[n..], IsChained(), log[n]);
      assert log[n] == log[n..][0];
      NoneChainedBefore(log, n);
    }
  }

  lemma {:induction false} PurgedAnchorIsLastPurged(init: Log, steps: seq<Step>, org: int)
    requires Legacy(init) && Stamped(OrgLog(init.rows, org)) && LegalRun(init, steps)
    ensures PurgedAnchor(init, steps, org) == LastPurged(init, steps, org)
  {
    if steps == [] {
    } else {
      var before, step := steps[..|steps| - 1], Last(steps);
      PurgedAnchorIsLastPurged(init, before, org);
      if step.PurgeStep? && step.org == org {
        StampedRunIsGapless(init, before, org);
        RunIsSound(init, before, org);
        AnchorIsLastPurged(OrgLog(Run(init, before).rows, org), PurgedAnchor(init, before, org), step.cutoff);
      }
    }
  }

  /**
   * When stamps do not go backwards every run verifies, and the reported anchor is the last chained digest
   * retention removed since the org's log was last empty.
   */
  lemma StampedRunVerifies(init: Log, steps: seq<Step>, org: int)
    requires Legacy(init) && Stamped(OrgLog(init.rows, org)) && LegalRun(init, steps)
    ensures var s := Verified(OrgLog(Run(init, steps).rows, org));
            && s.intact
            && s.unchained == |SurvivingLegacy(init, steps, org)|
            && s.anchorPrev == LastPurged(init, steps, org)
  {
    StampedRunIsGapless(init, steps, org);
    EveryRunVerifies(init, steps, org);
    PurgedAnchorIsLastPurged(init, steps, org);
  }
}
