/**
 * The hash chain of one organisation's audit log: what a digest covers, what the verifier computes
 * in one pass, and what the head digest proves.
 *
 * SHA-256 is the free constructor `Sha`: two digests are equal exactly when the digested fields and
 * the previous digest are equal, and no digest contains itself.
 */
module AuditChain {
  import opened Options
  import opened Sequences

  /** The digested columns of an audit row. */
  datatype Content = Content(
    orgId: int,
    actorKind: string,
    actorId: Option<int>,
    action: string,
    targetType: Option<string>,
    targetId: Option<int>,
    metadata: map<string, string>,
    ip: Option<string>,
    userAgent: Option<string>,
    createdAt: int)

  datatype Hash = Genesis | Sha(content: Content, prev: Hash)

  /** A row; both hashes are null on rows written before chaining existed. */
  datatype Entry = Entry(id: int, content: Content, prevHash: Option<Hash>, entryHash: Option<Hash>)

  function Digest(content: Content, prev: Hash): Hash {
    Sha(content, prev)
  }

  function OrGenesis(h: Option<Hash>): Hash {
    match h
    case None => Genesis
    case Some(v) => v
  }

  /** The digest an appended row will chain to: the entry hash of the org's newest row, if it has one. */
  function Head(log: seq<Entry>): Hash {
    if log == [] then Genesis else OrGenesis(Last(log).entryHash)
  }

  // ----- the verifier's walk -----

  datatype Detail = PrevMismatch | ContentMismatch

  datatype Break = Break(id: int, detail: Detail)

  /** The verifier's local variables after some rows; `broken` is set where it returned early. */
  datatype Walk = Walk(expected: Option<Hash>, anchor: Hash, entries: nat, unchained: nat, broken: Option<Break>)

  const START := Walk(None, Genesis, 0, 0, None)

  function Visit(w: Walk, e: Entry): Walk {
    if w.broken.Some? then
      w
    else if e.entryHash.None? then
      w.(entries := w.entries + 1, unchained := w.unchained + 1)
    else
      var expected := if w.expected.None? then OrGenesis(e.prevHash) else w.expected.value;
      var anchor := if w.expected.None? then expected else w.anchor;
      var seen := Walk(Some(expected), anchor, w.entries + 1, w.unchained, None);
      if e.prevHash != Some(expected) then
        seen.(broken := Some(Break(e.id, PrevMismatch)))
      else if Some(Digest(e.content, OrGenesis(e.prevHash))) != e.entryHash then
        seen.(broken := Some(Break(e.id, ContentMismatch)))
      else
        seen.(expected := e.entryHash)
  }

  function Walked(log: seq<Entry>): Walk {
    if log == [] then START else Visit(Walked(log[..|log| - 1]), Last(log))
  }

  datatype ChainStatus = ChainStatus(
    entries: nat, unchained: nat, intact: bool, brokenAt: Option<int>, detail: Option<Detail>, anchorPrev: Hash)

  function Status(w: Walk): ChainStatus {
    match w.broken
    case None => ChainStatus(w.entries, w.unchained, true, None, None, w.anchor)
    case Some(b) => ChainStatus(w.entries, w.unchained, false, Some(b.id), Some(b.detail), w.anchor)
  }

  /** What `verify` reports on an org's rows in id order. */
  function Verified(log: seq<Entry>): ChainStatus {
    Status(Walked(log))
  }

  // ----- an independent account of an intact chain -----

  function IsChained(): Entry -> bool {
    (e: Entry) => e.entryHash.Some?
  }

  function Chained(log: seq<Entry>): seq<Entry> {
    Filter(log, IsChained())
  }

  lemma AllChained(log: seq<Entry>)
    ensures forall e :: e in Chained(log) ==> e.entryHash.Some? && e in log
    ensures Chained(log) != [] ==> Last(Chained(log)).entryHash.Some?
  {
    FilterSound(log, IsChained());
    assert Chained(log) != [] ==> Last(Chained(log)) in Chained(log);
  }

  /** Each entry points at its predecessor's digest, the first at `anchor`, and carries its own digest. */
  ghost predicate Linked(chain: seq<Entry>, anchor: Hash) {
    forall i :: 0 <= i < |chain| ==> LinkedAt(chain, anchor, i)
  }

  ghost predicate LinkedAt(chain: seq<Entry>, anchor: Hash, i: nat)
    requires i < |chain|
  {
    && chain[i].prevHash == Some(if i == 0 then anchor else OrGenesis(chain[i - 1].entryHash))
    && chain[i].entryHash == Some(Digest(chain[i].content, chain[i].prevHash.value))
  }

  function AnchorOf(chain: seq<Entry>): Hash {
    if chain == [] then Genesis else OrGenesis(chain[0].prevHash)
  }

  ghost predicate Intact(log: seq<Entry>) {
    Linked(Chained(log), AnchorOf(Chained(log)))
  }

  lemma ChainedSnoc(log: seq<Entry>)
    requires log != []
    ensures var before := Chained(log[..|log| - 1]);
            Chained(log) == if Last(log).entryHash.Some? then before + [Last(log)] else before
  {
    var init := log[..|log| - 1];
    assert log == init + [Last(log)];
    FilterSnoc(init, Last(log), IsChained());
  }

  lemma LinkedSnoc(chain: seq<Entry>, e: Entry, anchor: Hash)
    requires forall c :: c in chain ==> c.entryHash.Some?
    ensures Linked(chain + [e], anchor) <==> Linked(chain, anchor) && LinkedAt(chain + [e], anchor, |chain|)
  {
    var longer := chain + [e];
    forall i | 0 <= i < |chain|
      ensures LinkedAt(longer, anchor, i) <==> LinkedAt(chain, anchor, i)
    {
      assert longer[i] == chain[i];
    }
  }

  /** One walk state per log: still walking on an intact log, stopped on any other. */
  lemma {:induction false} WalkMeaning(log: seq<Entry>)
    ensures var chain := Chained(log); var w := Walked(log);
            if Intact(log) then
              w == Walk(if chain == [] then None else Last(chain).entryHash,
                        AnchorOf(chain), |log|, |log| - |chain|, None)
            else
              w.broken.Some?
  {
    if log == [] {
    } else {
      var init, e := log[..|log| - 1], Last(log);
      var before, chain := Chained(init), Chained(log);
      WalkMeaning(init);
      ChainedSnoc(log);
      if e.entryHash.Some? {
        AllChained(init);
        LinkedSnoc(before, e, AnchorOf(chain));
        if before == [] {
          assert AnchorOf(before) == Genesis;
          assert Linked(before, AnchorOf(chain));
        } else {
          assert AnchorOf(chain) == AnchorOf(before);
        }
        assert Intact(log) <==> Intact(init) && LinkedAt(chain, AnchorOf(chain), |before|);
      }
    }
  }

  /** The verifier accepts exactly the linked logs, and its counters and anchor are what they claim. */
  lemma VerifiedMeaning(log: seq<Entry>)
    ensures Verified(log).intact <==> Intact(log)
    ensures Verified(log).intact ==>
              && Verified(log).anchorPrev == AnchorOf(Chained(log))
              && Verified(log).entries == |log|
              && Verified(log).unchained == |log| - |Chained(log)|
  {
    WalkMeaning(log);
  }

  lemma {:induction false} BrokenStaysBroken(log: seq<Entry>, n: nat)
    requires n <= |log| && Walked(log[..n]).broken.Some?
    ensures Walked(log) == Walked(log[..n])
  {
    if n < |log| {
      var init := log[..|log| - 1];
      assert init[..n] == log[..n];
      BrokenStaysBroken(init, n);
    } else {
      assert log[..n] == log;
    }
  }

  /** The reported break is the first row whose prefix is not linked. */
  lemma FirstBreak(log: seq<Entry>, i: nat)
    requires i < |log| && Intact(log[..i]) && !Intact(log[..i + 1])
    ensures var s := Verified(log);
            && !s.intact && s.brokenAt == Some(log[i].id) && s.entries == i + 1
            && s.unchained == i - |Chained(log[..i])| && s.anchorPrev == AnchorOf(Chained(log[..i + 1]))
            && (var expected := if Chained(log[..i]) == [] then OrGenesis(log[i].prevHash)
                                else OrGenesis(Last(Chained(log[..i])).entryHash);
                s.detail == Some(if log[i].prevHash == Some(expected) then ContentMismatch else PrevMismatch))
  {
    var prefix := log[..i + 1];
    assert prefix[..i] == log[..i] && Last(prefix) == log[i];
    WalkMeaning(log[..i]);
    WalkMeaning(prefix);
    ChainedSnoc(prefix);
    if log[i].entryHash.None? {
      assert false;
    }
    AllChained(log[..i]);
    BrokenStaysBroken(log, i + 1);
  }

  // ----- slices of an intact log -----

  lemma ChainedConcat(a: seq<Entry>, b: seq<Entry>)
    ensures Chained(a + b) == Chained(a) + Chained(b)
  {
    FilterConcat(a, b, IsChained());
  }

  lemma LinkedConcat(a: seq<Entry>, b: seq<Entry>, anchor: Hash)
    requires forall c :: c in a ==> c.entryHash.Some?
    ensures Linked(a + b, anchor) <==>
            Linked(a, anchor) && Linked(b, if a == [] then anchor else OrGenesis(Last(a).entryHash))
  {
    var mid := if a == [] then anchor else OrGenesis(Last(a).entryHash);
    forall i | 0 <= i < |a|
      ensures LinkedAt(a + b, anchor, i) <==> LinkedAt(a, anchor, i)
    {}
    forall i | 0 <= i < |b|
      ensures LinkedAt(a + b, anchor, |a| + i) <==> LinkedAt(b, mid, i)
    {
      assert i > 0 ==> (a + b)[|a| + i - 1] == b[i - 1];
    }
    if Linked(a + b, anchor) {
      forall i | 0 <= i < |b|
        ensures LinkedAt(b, mid, i)
      {
        assert LinkedAt(a + b, anchor, |a| + i);
      }
    } else {
      var i :| 0 <= i < |a + b| && !LinkedAt(a + b, anchor, i);
      if i >= |a| {
        assert !LinkedAt(b, mid, i - |a|);
      }
    }
  }

  /**
   * Removing rows from either end leaves a log the verifier accepts: retention may cut the start,
   * and nothing but an externally held head can show that the end was cut.
   */
  lemma EndsCanGo(a: seq<Entry>, b: seq<Entry>)
    requires Intact(a + b)
    ensures Intact(a) && Intact(b)
    ensures Chained(b) != [] && Chained(a) != [] ==> AnchorOf(Chained(b)) == OrGenesis(Last(Chained(a)).entryHash)
  {
    var ca, cb := Chained(a), Chained(b);
    ChainedConcat(a, b);
    AllChained(a);
    LinkedConcat(ca, cb, AnchorOf(ca + cb));
    if cb != [] {
      assert LinkedAt(cb, if ca == [] then AnchorOf(ca + cb) else OrGenesis(Last(ca).entryHash), 0);
    }
  }

  // ----- the head binds the history -----

  function Depth(h: Hash): nat {
    match h
    case Genesis => 0
    case Sha(_, prev) => 1 + Depth(prev)
  }

  /** Digests grow along a chain, so no two positions share one. */
  lemma {:induction false} DepthGrows(chain: seq<Entry>, anchor: Hash, i: nat)
    requires Linked(chain, anchor) && i < |chain|
    ensures Depth(OrGenesis(chain[i].entryHash)) == Depth(anchor) + i + 1
  {
    assert LinkedAt(chain, anchor, i);
    if i == 0 {
    } else {
      DepthGrows(chain, anchor, i - 1);
    }
  }

  /** Equal on every digested field and on both hashes; ids are not digested. */
  predicate SameRecord(a: Entry, b: Entry) {
    a.content == b.content && a.prevHash == b.prevHash && a.entryHash == b.entryHash
  }

  lemma {:induction false} AgreeFromEnd(a: seq<Entry>, b: seq<Entry>, x: Hash, y: Hash, k: nat)
    requires Linked(a, x) && Linked(b, y) && k < |a| && k < |b|
    requires Last(a).entryHash == Last(b).entryHash
    ensures SameRecord(a[|a| - 1 - k], b[|b| - 1 - k])
  {
    if k > 0 {
      AgreeFromEnd(a, b, x, y, k - 1);
      assert LinkedAt(a, x, |a| - k) && LinkedAt(b, y, |b| - k);
      assert LinkedAt(a, x, |a| - 1 - k) && LinkedAt(b, y, |b| - 1 - k);
    } else {
      assert LinkedAt(a, x, |a| - 1) && LinkedAt(b, y, |b| - 1);
    }
  }

  lemma HeadIsChained(log: seq<Entry>)
    requires Head(log) != Genesis
    ensures Chained(log) != [] && Last(Chained(log)) == Last(log) && Last(log).entryHash == Some(Head(log))
  {
    ChainedSnoc(log);
  }

  /** Two accepted logs with one recorded head hold the same records, entry by entry from the end. */
  lemma HeadBindsHistory(a: seq<Entry>, b: seq<Entry>, k: nat)
    requires Verified(a).intact && Verified(b).intact
    requires Head(a) == Head(b) != Genesis
    requires k < |Chained(a)| && k < |Chained(b)|
    ensures var ca, cb := Chained(a), Chained(b);
            SameRecord(ca[|ca| - 1 - k], cb[|cb| - 1 - k])
  {
    VerifiedMeaning(a);
    VerifiedMeaning(b);
    HeadIsChained(a);
    HeadIsChained(b);
    AgreeFromEnd(Chained(a), Chained(b), AnchorOf(Chained(a)), AnchorOf(Chained(b)), k);
  }

  /** With the anchor recorded too, the two histories are the same sequence of records. */
  lemma HeadAndAnchorBindHistory(a: seq<Entry>, b: seq<Entry>)
    requires Verified(a).intact && Verified(b).intact
    requires Head(a) == Head(b) != Genesis && Verified(a).anchorPrev == Verified(b).anchorPrev
    ensures |Chained(a)| == |Chained(b)|
    ensures forall i :: 0 <= i < |Chained(a)| ==> SameRecord(Chained(a)[i], Chained(b)[i])
  {
    var ca, cb := Chained(a), Chained(b);
    VerifiedMeaning(a);
    VerifiedMeaning(b);
    HeadIsChained(a);
    HeadIsChained(b);
    DepthGrows(ca, AnchorOf(ca), |ca| - 1);
    DepthGrows(cb, AnchorOf(cb), |cb| - 1);
    forall i | 0 <= i < |ca|
      ensures SameRecord(ca[i], cb[i])
    {
      HeadBindsHistory(a, b, |ca| - 1 - i);
    }
  }

  /** Cutting rows off the end is accepted by the verifier, and keeps no recorded head but GENESIS. */
  lemma TruncationChangesHead(kept: seq<Entry>, cut: seq<Entry>)
    requires Verified(kept + cut).intact && cut != []
    ensures Verified(kept).intact
    ensures Head(kept) == Head(kept + cut) ==> Head(kept + cut) == Genesis
  {
    VerifiedMeaning(kept + cut);
    VerifiedMeaning(kept);
    EndsCanGo(kept, cut);
    if Head(kept) == Head(kept + cut) != Genesis {
      HeadIsChained(kept);
      HeadIsChained(kept + cut);
      ChainedConcat(kept, cut);
      HeadIsChained(cut);
      var whole := Chained(kept + cut);
      DepthGrows(whole, AnchorOf(whole), |Chained(kept)| - 1);
      DepthGrows(whole, AnchorOf(whole), |whole| - 1);
    }
  }
}
