/** Where the verifier reports each way of tampering with an intact log. */
module AuditTamper {
  import opened Options
  import opened Sequences
  import opened AuditChain

  lemma PrefixIntact(log: seq<Entry>, i: nat)
    requires i <= |log| && Intact(log)
    ensures Intact(log[..i])
  {
    assert log == log[..i] + log[i..];
    EndsCanGo(log[..i], log[i..]);
  }

  /** The chained row at `i` of an intact log carries its own digest and points at what precedes it. */
  lemma RowLinked(log: seq<Entry>, i: nat)
    requires i < |log| && Intact(log) && log[i].entryHash.Some?
    ensures log[i].prevHash.Some? && log[i].entryHash == Some(Digest(log[i].content, log[i].prevHash.value))
    ensures Chained(log[..i]) != [] ==> log[i].prevHash == Last(Chained(log[..i])).entryHash
  {
    PrefixIntact(log, i + 1);
    var prefix := log[..i + 1];
    assert prefix[..i] == log[..i];
    ChainedSnoc(prefix);
    var chain := Chained(prefix);
    assert LinkedAt(chain, AnchorOf(chain), |chain| - 1);
    AllChained(log[..i]);
  }

  /** A prefix that ends in a chained row is linked only if that row fits what precedes it. */
  lemma LastMustFit(log: seq<Entry>)
    requires log != [] && Last(log).entryHash.Some? && Intact(log)
    ensures Last(log).prevHash.Some?
    ensures Last(log).entryHash == Some(Digest(Last(log).content, Last(log).prevHash.value))
    ensures var before := Chained(log[..|log| - 1]); before != [] ==> Last(log).prevHash == Last(before).entryHash
  {
    RowLinked(log, |log| - 1);
  }

  /** Editing any digested field of a chained row is reported at that row, as a digest mismatch. */
  lemma EditIsLocated(log: seq<Entry>, i: nat, content: Content)
    requires Verified(log).intact && i < |log| && log[i].entryHash.Some? && content != log[i].content
    ensures var s := Verified(log[i := log[i].(content := content)]);
            !s.intact && s.brokenAt == Some(log[i].id) && s.detail == Some(ContentMismatch)
  {
    VerifiedMeaning(log);
    RowLinked(log, i);
    PrefixIntact(log, i);
    var forged := log[i := log[i].(content := content)];
    var prefix := forged[..i + 1];
    assert forged[..i] == log[..i] == prefix[..i];
    if Intact(prefix) {
      LastMustFit(prefix);
    }
    AllChained(log[..i]);
    FirstBreak(forged, i);
  }

  function Resealed(e: Entry, content: Content): Entry {
    e.(content := content, entryHash := Some(Digest(content, OrGenesis(e.prevHash))))
  }

  lemma ResealedPrefix(log: seq<Entry>, i: nat, content: Content)
    requires Intact(log) && i < |log| && log[i].entryHash.Some?
    ensures var forged := log[i := Resealed(log[i], content)][..i + 1];
            && Intact(forged)
            && Chained(forged) != [] && Last(Chained(forged)).entryHash == Some(Digest(content, OrGenesis(log[i].prevHash)))
  {
    RowLinked(log, i);
    PrefixIntact(log, i);
    var forged := log[i := Resealed(log[i], content)][..i + 1];
    assert forged[..i] == log[..i];
    ChainedSnoc(forged);
    var before, chain := Chained(log[..i]), Chained(forged);
    AllChained(log[..i]);
    LinkedSnoc(before, Last(forged), AnchorOf(chain));
    assert before != [] ==> AnchorOf(before) == AnchorOf(chain);
    assert LinkedAt(chain, AnchorOf(chain), |before|);
  }

  lemma QuietRows(log: seq<Entry>, i: nat, j: nat)
    requires i <= j <= |log| && Intact(log[..i])
    requires forall k :: i <= k < j ==> log[k].entryHash.None?
    ensures Intact(log[..j]) && Chained(log[..j]) == Chained(log[..i])
  {
    assert log == log[..i] + log[i..];
    QuietStart(log[..i], log[i..], j - i);
  }

  /** A chained row that does not point at the chained row before it is the reported break. */
  lemma WrongPointerIsLocated(log: seq<Entry>, at: nat)
    requires at < |log| && Intact(log[..at]) && Chained(log[..at]) != []
    requires log[at].entryHash.Some? && log[at].prevHash != Last(Chained(log[..at])).entryHash
    ensures var s := Verified(log);
            !s.intact && s.brokenAt == Some(log[at].id) && s.detail == Some(PrevMismatch)
  {
    var prefix := log[..at + 1];
    assert prefix[..at] == log[..at];
    AllChained(log[..at]);
    if Intact(prefix) {
      LastMustFit(prefix);
    }
    FirstBreak(log, at);
  }

  /** In an intact log the next chained row after `i` points at the digest of row `i`. */
  lemma NextPointsBack(log: seq<Entry>, i: nat, j: nat)
    requires Intact(log) && i < j < |log| && log[i].entryHash.Some? && log[j].entryHash.Some?
    requires forall k :: i < k < j ==> log[k].entryHash.None?
    ensures log[j].prevHash == log[i].entryHash
  {
    PrefixIntact(log, i + 1);
    QuietRows(log, i + 1, j);
    RowLinked(log, j);
    ChainedSnoc(log[..i + 1]);
  }

  /** Editing a chained row and recomputing its digest is reported at the next chained row. */
  lemma ResealIsLocated(log: seq<Entry>, i: nat, j: nat, content: Content)
    requires Verified(log).intact && i < j < |log| && content != log[i].content
    requires log[i].entryHash.Some? && log[j].entryHash.Some?
    requires forall k :: i < k < j ==> log[k].entryHash.None?
    ensures var s := Verified(log[i := Resealed(log[i], content)]);
            !s.intact && s.brokenAt == Some(log[j].id) && s.detail == Some(PrevMismatch)
  {
    var forged := log[i := Resealed(log[i], content)];
    VerifiedMeaning(log);
    RowLinked(log, i);
    NextPointsBack(log, i, j);
    ResealedPrefix(log, i, content);
    QuietRows(forged, i + 1, j);
    WrongPointerIsLocated(forged, j);
  }

  /** When no chained row follows, the verifier accepts the forged log and only the head has changed. */
  lemma ResealAtTheEnd(log: seq<Entry>, content: Content)
    requires Verified(log).intact && log != [] && Last(log).entryHash.Some? && content != Last(log).content
    ensures var forged := log[|log| - 1 := Resealed(Last(log), content)];
            Verified(forged).intact && Head(forged) != Head(log)
  {
    var i := |log| - 1;
    var forged := log[i := Resealed(log[i], content)];
    VerifiedMeaning(log);
    VerifiedMeaning(forged);
    RowLinked(log, i);
    ResealedPrefix(log, i, content);
    assert forged[..i + 1] == forged;
  }

  /**
   * Deleting rows from the inside, with a chained row before and among them, is reported at the first
   * chained survivor after the gap: `later` are the rows after the gap and `later[j]` that survivor.
   */
  lemma DeletionIsLocated(earlier: seq<Entry>, gap: seq<Entry>, later: seq<Entry>, j: nat)
    requires Verified(earlier + gap + later).intact
    requires Chained(earlier) != [] && Chained(gap) != []
    requires j < |later| && later[j].entryHash.Some? && forall k :: 0 <= k < j ==> later[k].entryHash.None?
    ensures var s := Verified(earlier + later);
            !s.intact && s.brokenAt == Some(later[j].id) && s.detail == Some(PrevMismatch)
  {
    VerifiedMeaning(earlier + gap + later);
    EndsCanGo(earlier + gap, later);
    EndsCanGo(earlier, gap);
    ChainedConcat(earlier, gap);
    GapChangesDigest(earlier, gap);
    FirstChainedPointer(earlier + gap, later, j);
    QuietStart(earlier, later, j);
    WrongPointerIsLocated(earlier + later, |earlier| + j);
  }

  /**
   * The verifier's note that deleting from the middle or the end "still breaks" holds of the middle
   * alone: deleting a run of rows is detected exactly when chained rows go and chained rows stay on
   * both sides of the gap.
   */
  lemma DeletionDetectedIff(earlier: seq<Entry>, gap: seq<Entry>, later: seq<Entry>)
    requires Verified(earlier + gap + later).intact
    ensures !Verified(earlier + later).intact <==>
            Chained(earlier) != [] && Chained(gap) != [] && Chained(later) != []
  {
    VerifiedMeaning(earlier + gap + later);
    VerifiedMeaning(earlier + later);
    EndsCanGo(earlier + gap, later);
    EndsCanGo(earlier, gap);
    ChainedConcat(earlier, later);
    if Chained(earlier) == [] {
      assert Chained(earlier + later) == Chained(later);
    } else if Chained(later) == [] {
      assert Chained(earlier + later) == Chained(earlier);
    } else if Chained(gap) == [] {
      ChainedConcat(earlier, gap);
      ChainedConcat(earlier + gap, later);
      assert Chained(earlier + later) == Chained(earlier + gap + later);
    } else {
      var j := FirstChained(later);
      DeletionIsLocated(earlier, gap, later, j);
    }
  }

  lemma {:induction false} FirstChained(later: seq<Entry>) returns (j: nat)
    requires Chained(later) != []
    ensures j < |later| && later[j].entryHash.Some? && forall k :: 0 <= k < j ==> later[k].entryHash.None?
  {
    if later[0].entryHash.Some? {
      return 0;
    }
    var i := FirstChained(later[1..]);
    return i + 1;
  }

  /** Unchained rows after an intact log leave its chain as it is. */
  lemma QuietStart(earlier: seq<Entry>, later: seq<Entry>, j: nat)
    requires Intact(earlier) && j <= |later| && forall k :: 0 <= k < j ==> later[k].entryHash.None?
    ensures var prefix := (earlier + later)[..|earlier| + j];
            Intact(prefix) && Chained(prefix) == Chained(earlier)
  {
    assert (earlier + later)[..|earlier| + j] == earlier + later[..j];
    ChainedConcat(earlier, later[..j]);
    assert Chained(later[..j]) == [] by {
      FilterNone(later[..j], IsChained());
    }
    assert Chained(earlier) + [] == Chained(earlier);
  }

  /** The first chained row of `later` points at the last chained row of what precedes it. */
  lemma FirstChainedPointer(earlier: seq<Entry>, later: seq<Entry>, j: nat)
    requires Intact(earlier + later) && Chained(earlier) != []
    requires j < |later| && later[j].entryHash.Some? && forall k :: 0 <= k < j ==> later[k].entryHash.None?
    ensures later[j].prevHash == Last(Chained(earlier)).entryHash
  {
    EndsCanGo(earlier, later);
    QuietStart(earlier, later, j);
    RowLinked(earlier + later, |earlier| + j);
  }

  lemma GapChangesDigest(earlier: seq<Entry>, gap: seq<Entry>)
    requires Intact(earlier + gap) && Chained(earlier) != [] && Chained(gap) != []
    ensures Last(Chained(earlier)).entryHash != Last(Chained(gap)).entryHash
  {
    ChainedConcat(earlier, gap);
    var chain := Chained(earlier + gap);
    DepthGrows(chain, AnchorOf(chain), |Chained(earlier)| - 1);
    DepthGrows(chain, AnchorOf(chain), |chain| - 1);
  }

  // ----- any selection of rows -----

  /** No chained row goes from between two chained rows that stay. */
  ghost predicate Gapless(log: seq<Entry>, keeps: Entry -> bool) {
    GaplessChain(Chained(log), keeps)
  }

  ghost predicate GaplessChain(chain: seq<Entry>, keeps: Entry -> bool) {
    forall i, j, k :: 0 <= i < j < k < |chain| && keeps(chain[i]) && keeps(chain[k]) ==> keeps(chain[j])
  }

  lemma Between(chain: seq<Entry>, keeps: Entry -> bool, j: nat, k: nat)
    requires GaplessChain(chain, keeps) && 0 < j < k < |chain| && keeps(chain[0]) && keeps(chain[1..][k - 1])
    ensures keeps(chain[1..][j - 1])
  {
    assert chain[1..][k - 1] == chain[k] && chain[1..][j - 1] == chain[j];
  }

  lemma {:induction false} GaplessSlice(chain: seq<Entry>, keeps: Entry -> bool) returns (n: nat, m: nat)
    requires GaplessChain(chain, keeps)
    ensures n <= m <= |chain| && forall i :: 0 <= i < |chain| ==> (keeps(chain[i]) <==> n <= i < m)
  {
    if chain == [] {
      n, m := 0, 0;
    } else {
      var rest := chain[1..];
      assert forall i :: 0 <= i < |rest| ==> rest[i] == chain[i + 1];
      var p, q := GaplessSlice(rest, keeps);
      if !keeps(chain[0]) {
        n, m := p + 1, q + 1;
      } else if p == q {
        n, m := 0, 1;
      } else {
        if p > 0 {
          Between(chain, keeps, 1, p + 1);
        }
        n, m := 0, q + 1;
      }
      forall i | 0 <= i < |chain|
        ensures keeps(chain[i]) <==> n <= i < m
      {
        assert i > 0 ==> chain[i] == rest[i - 1];
      }
    }
  }

  lemma {:induction false} FilterSlice(chain: seq<Entry>, keeps: Entry -> bool, n: nat, m: nat)
    requires n <= m <= |chain| && forall i :: 0 <= i < |chain| ==> (keeps(chain[i]) <==> n <= i < m)
    ensures Filter(chain, keeps) == chain[n..m]
  {
    assert chain == chain[..n] + (chain[n..m] + chain[m..]);
    FilterConcat(chain[..n], chain[n..m] + chain[m..], keeps);
    FilterConcat(chain[n..m], chain[m..], keeps);
    FilterNone(chain[..n], keeps);
    FilterAll(chain[n..m], keeps);
    FilterNone(chain[m..], keeps);
  }

  /** A slice of a linked chain is linked from the digest before it. */
  lemma SliceLinked(chain: seq<Entry>, anchor: Hash, n: nat, m: nat)
    requires Linked(chain, anchor) && n <= m <= |chain| && forall e :: e in chain ==> e.entryHash.Some?
    ensures Linked(chain[n..m], if n == 0 then anchor else OrGenesis(chain[n - 1].entryHash))
  {
    assert chain == chain[..m] + chain[m..] && chain[..m] == chain[..n] + chain[n..m];
    LinkedConcat(chain[..m], chain[m..], anchor);
    LinkedConcat(chain[..n], chain[n..m], anchor);
  }

  lemma LastKept(rows: seq<Entry>, keeps: Entry -> bool)
    requires rows != [] && keeps(Last(rows))
    ensures Filter(rows, keeps) != [] && Last(Filter(rows, keeps)) == Last(rows)
  {
    assert rows == rows[..|rows| - 1] + [Last(rows)];
    FilterSnoc(rows[..|rows| - 1], Last(rows), keeps);
  }

  lemma FilterInThree(a: seq<Entry>, b: seq<Entry>, c: seq<Entry>, keeps: Entry -> bool)
    ensures Filter(a + b + c, keeps) == Filter(a, keeps) + Filter(b, keeps) + Filter(c, keeps)
  {
    FilterConcat(a + b, c, keeps);
    FilterConcat(a, b, keeps);
  }

  /** Digests count the rows before them: between two rows of a linked selection all rows are selected. */
  lemma SameDistance(
    a: seq<Entry>, b: seq<Entry>, c: seq<Entry>, anchor: Hash, keeps: Entry -> bool, other: Hash)
    requires Linked(a + b + c, anchor) && Linked(Filter(a + b + c, keeps), other)
    requires a != [] && b != [] && keeps(Last(a)) && keeps(Last(b))
    ensures |Filter(b, keeps)| == |b|
  {
    var chain, kept := a + b + c, Filter(a + b + c, keeps);
    var x, y := Filter(a, keeps), Filter(b, keeps);
    FilterInThree(a, b, c, keeps);
    LastKept(a, keeps);
    LastKept(b, keeps);
    assert kept[|x| - 1] == Last(a) == chain[|a| - 1];
    assert kept[|x| + |y| - 1] == Last(b) == chain[|a| + |b| - 1];
    DepthGrows(chain, anchor, |a| - 1);
    DepthGrows(chain, anchor, |a| + |b| - 1);
    DepthGrows(kept, other, |x| - 1);
    DepthGrows(kept, other, |x| + |y| - 1);
  }

  lemma {:induction false} NothingSkipped(
    chain: seq<Entry>, anchor: Hash, keeps: Entry -> bool, other: Hash, i: nat, j: nat, k: nat)
    requires Linked(chain, anchor) && Linked(Filter(chain, keeps), other)
    requires i < j < k < |chain| && keeps(chain[i]) && keeps(chain[k])
    ensures keeps(chain[j])
  {
    var a, b, c := chain[..i + 1], chain[i + 1..k + 1], chain[k + 1..];
    assert chain == a + b + c;
    SameDistance(a, b, c, anchor, keeps, other);
    assert b[j - i - 1] == chain[j];
    if !keeps(chain[j]) {
      FilterDrops(b, keeps, j - i - 1);
    }
  }

  lemma LinkedSelectionIsGapless(chain: seq<Entry>, anchor: Hash, keeps: Entry -> bool, other: Hash)
    requires Linked(chain, anchor) && Linked(Filter(chain, keeps), other)
    ensures GaplessChain(chain, keeps)
  {
    forall i, j, k | 0 <= i < j < k < |chain| && keeps(chain[i]) && keeps(chain[k])
      ensures keeps(chain[j])
    {
      NothingSkipped(chain, anchor, keeps, other, i, j, k);
    }
  }

  function KeptChained(keeps: Entry -> bool): Entry -> bool {
    (e: Entry) => e.entryHash.Some? && keeps(e)
  }

  lemma ChainOfSurvivors(log: seq<Entry>, keeps: Entry -> bool)
    ensures Chained(Filter(log, keeps)) == Filter(Chained(log), keeps)
  {
    FilterFilter(log, keeps, IsChained(), KeptChained(keeps));
    FilterFilter(log, IsChained(), keeps, KeptChained(keeps));
  }

  /** Whatever rows go: those that stay verify exactly when no chained row went from between two that stayed. */
  lemma SurvivorsVerifyIff(log: seq<Entry>, keeps: Entry -> bool)
    requires Verified(log).intact
    ensures Verified(Filter(log, keeps)).intact <==> Gapless(log, keeps)
  {
    var chain := Chained(log);
    var kept := Filter(chain, keeps);
    VerifiedMeaning(log);
    VerifiedMeaning(Filter(log, keeps));
    ChainOfSurvivors(log, keeps);
    AllChained(log);
    if Gapless(log, keeps) {
      var n, m := GaplessSlice(chain, keeps);
      FilterSlice(chain, keeps, n, m);
      SliceLinked(chain, AnchorOf(chain), n, m);
      assert kept != [] ==> LinkedAt(kept, if n == 0 then AnchorOf(chain) else OrGenesis(chain[n - 1].entryHash), 0);
    }
    if Intact(Filter(log, keeps)) {
      LinkedSelectionIsGapless(chain, AnchorOf(chain), keeps, AnchorOf(kept));
    }
  }
}
