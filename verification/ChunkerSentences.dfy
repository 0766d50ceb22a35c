/**
 * Where sentences end: each sentence stands in the text, neighbours are separated by whitespace in which a
 * boundary begins, and no boundary lies inside one.
 */
module ChunkerSentences {
  import opened Sequences
  import opened Text
  import opened Whitespace
  import opened Chunker
  import opened ChunkerProofs

  /** A boundary begins at `p`: whitespace after a full stop, an exclamation or a question mark; or two newlines. */
  predicate BoundaryAt(s: string, p: nat) {
    && p < |s|
    && (|| (0 < p && (s[p - 1] == '.' || s[p - 1] == '!' || s[p - 1] == '?') && IsSpace(s[p]))
        || (p + 1 < |s| && s[p] == '\n' && s[p + 1] == '\n'))
  }

  lemma BoundaryIff(s: string, p: nat)
    requires p <= |s|
    ensures Boundary(s, p) > 0 <==> BoundaryAt(s, p)
  {
    if p < |s| {
      assert SpaceRun(s, p) > 0 <==> IsSpace(s[p]);
      assert NewlineRun(s, p) >= 2 <==> p + 1 < |s| && s[p] == '\n' && s[p + 1] == '\n' by {
        assert NewlineRun(s, p) > 0 <==> s[p] == '\n';
        assert p + 1 < |s| ==> (NewlineRun(s, p + 1) > 0 <==> s[p + 1] == '\n');
      }
    }
  }

  /** A sentence's place: from `from` up to `to`. */
  datatype Span = Span(from: nat, to: nat)

  ghost predicate Blank(s: string, from: nat, to: nat)
    requires to <= |s|
  {
    forall k :: from <= k < to ==> IsSpace(s[k])
  }

  /** A sentence, in its place: not empty, no whitespace at its ends, and no boundary in it. */
  ghost predicate Stands(s: string, sentence: string, at: Span) {
    && at.from < at.to <= |s| && sentence == s[at.from..at.to]
    && !IsSpace(s[at.from]) && !IsSpace(s[at.to - 1])
    && (forall p :: at.from <= p < at.to ==> !BoundaryAt(s, p))
  }

  /** Whitespace between two neighbours, and a boundary that begins in it. */
  ghost predicate Separated(s: string, a: Span, b: Span) {
    && a.to <= b.from <= |s| && Blank(s, a.to, b.from)
    && exists p :: a.to <= p < b.from && BoundaryAt(s, p)
  }

  /** The places of all sentences from `start` on, with nothing but whitespace before, between and after them. */
  ghost predicate Places(s: string, start: nat, sentences: seq<string>, at: seq<Span>) {
    && start <= |s| && |at| == |sentences|
    && (forall k :: 0 <= k < |at| ==> start <= at[k].from && Stands(s, sentences[k], at[k]))
    && (forall k :: 0 < k < |at| ==> Separated(s, at[k - 1], at[k]))
    && (if at == [] then Blank(s, start, |s|)
        else Blank(s, start, at[0].from) && Blank(s, Last(at).to, |s|))
  }

  /** Where stripping leaves off. */
  lemma {:induction false} StripCut(x: string) returns (a: nat, b: nat)
    ensures a <= b <= |x| && Strip(x) == x[a..b]
    ensures (forall k :: 0 <= k < a ==> IsSpace(x[k])) && (forall k :: b <= k < |x| ==> IsSpace(x[k]))
    ensures a < b ==> !IsSpace(x[a]) && !IsSpace(x[b - 1])
  {
    a := LeftBlank(x);
    var rest := LStrip(x);
    var c := RightBlank(rest);
    b := a + c;
    assert x[a..b] == rest[..c];
    forall k | b <= k < |x|
      ensures IsSpace(x[k])
    {
      assert x[k] == rest[k - a];
    }
    StripFacts(x);
    if a < b {
      assert Strip(x)[0] == x[a] && Last(Strip(x)) == x[b - 1];
    }
  }

  lemma {:induction false} StripSpan(s: string, from: nat, to: nat) returns (at: Span)
    requires from <= to <= |s|
    ensures from <= at.from <= at.to <= to && Strip(s[from..to]) == s[at.from..at.to]
    ensures Blank(s, from, at.from) && Blank(s, at.to, to)
    ensures at.from < at.to ==> !IsSpace(s[at.from]) && !IsSpace(s[at.to - 1])
  {
    var x := s[from..to];
    var a, b := StripCut(x);
    at := Span(from + a, from + b);
    assert s[at.from..at.to] == x[a..b];
    assert forall k :: 0 <= k < |x| ==> x[k] == s[from + k];
    forall k | from <= k < at.from || at.to <= k < to
      ensures IsSpace(s[k])
    {
      assert s[k] == x[k - from];
    }
  }

  lemma {:induction false} LeftBlank(x: string) returns (a: nat)
    ensures a <= |x| && LStrip(x) == x[a..] && forall k :: 0 <= k < a ==> IsSpace(x[k])
  {
    if x == "" || !IsSpace(x[0]) {
      a := 0;
    } else {
      var b := LeftBlank(x[1..]);
      a := b + 1;
    }
  }

  lemma {:induction false} RightBlank(x: string) returns (b: nat)
    ensures b <= |x| && RStrip(x) == x[..b] && forall k :: b <= k < |x| ==> IsSpace(x[k])
  {
    if x == "" || !IsSpace(Last(x)) {
      b := |x|;
    } else {
      b := RightBlank(x[..|x| - 1]);
    }
  }

  lemma {:induction false} BlankInFront(s: string, start: nat, next: nat, rest: seq<string>, at: seq<Span>)
    requires start <= next && Places(s, next, rest, at) && Blank(s, start, next)
    ensures Places(s, start, rest, at)
  {}

  lemma {:induction false} SentenceInFront(s: string, start: nat, first: Span, sentence: string, next: nat, rest: seq<string>, at: seq<Span>)
    requires start <= first.from && Stands(s, sentence, first) && first.to <= next && Places(s, next, rest, at)
    requires Blank(s, start, first.from) && Blank(s, first.to, next)
    requires at != [] ==> exists p :: first.to <= p < next && BoundaryAt(s, p)
    ensures Places(s, start, [sentence] + rest, [first] + at)
  {
    var all, sentences := [first] + at, [sentence] + rest;
    forall k | 0 <= k < |all|
      ensures start <= all[k].from && Stands(s, sentences[k], all[k])
    {
      if k > 0 {
        assert all[k] == at[k - 1] && sentences[k] == rest[k - 1];
      }
    }
    forall k | 0 < k < |all|
      ensures Separated(s, all[k - 1], all[k])
    {
      if k == 1 {
        assert next <= at[0].from;
        var p :| first.to <= p < next && BoundaryAt(s, p);
      } else {
        assert all[k - 1] == at[k - 2] && all[k] == at[k - 1];
      }
    }
  }

  /** The part before a boundary, or before the end. */
  lemma {:induction false} FirstPlace(s: string, start: nat, i: nat, next: nat, rest: seq<string>, at: seq<Span>) returns (all: seq<Span>)
    requires start <= i <= next <= |s| && Blank(s, i, next) && Places(s, next, rest, at)
    requires forall p :: start <= p < i ==> !BoundaryAt(s, p)
    requires i < next ==> BoundaryAt(s, i)
    requires i == next ==> at == []
    ensures Places(s, start, (if Strip(s[start..i]) != "" then [Strip(s[start..i])] else []) + rest, all)
  {
    var first := StripSpan(s, start, i);
    var sentence := Strip(s[start..i]);
    if sentence == "" {
      all := at;
      assert first.from == first.to && [] + rest == rest;
      BlankInFront(s, start, next, rest, at);
    } else {
      all := [first] + at;
      assert first.from < first.to && Stands(s, sentence, first);
      assert Blank(s, first.to, next);
      SentenceInFront(s, start, first, sentence, next, rest, at);
    }
  }

  lemma {:induction false} PartsPlaces(s: string, start: nat, i: nat) returns (at: seq<Span>)
    requires start <= i <= |s| && forall p :: start <= p < i ==> !BoundaryAt(s, p)
    ensures Places(s, start, Stripped(Parts(s, start, i)), at)
    decreases |s| - i
  {
    BoundaryIff(s, i);
    var n := Boundary(s, i);
    if i == |s| {
      assert s[start..] == s[start..i] && Parts(s, start, i) == [s[start..i]];
      StrippedCons(s[start..i], []);
      at := FirstPlace(s, start, i, i, [], []);
    } else if n > 0 {
      BoundaryIsSpace(s, i);
      var rest := Parts(s, i + n, i + n);
      var later := PartsPlaces(s, i + n, i + n);
      StrippedCons(s[start..i], rest);
      at := FirstPlace(s, start, i, i + n, Stripped(rest), later);
    } else {
      at := PartsPlaces(s, start, i + 1);
    }
  }

  lemma StrippedCons(part: string, rest: seq<string>)
    ensures Stripped([part] + rest) == (if Strip(part) != "" then [Strip(part)] else []) + Stripped(rest)
  {
    assert ([part] + rest)[0] == part && ([part] + rest)[1..] == rest;
  }

  /**
   * The sentences of a text: each in its place, in order; whitespace and a boundary between neighbours; whitespace
   * before the first and after the last; and no boundary inside one.
   */
  lemma SentencesArePlaced(text: string) returns (at: seq<Span>)
    ensures Places(text, 0, Sentences(text), at)
  {
    var parts := Stripped(Parts(text, 0, 0));
    at := PartsPlaces(text, 0, 0);
    if parts == [] {
      PartsKeepInk(text, 0, 0);
      StrippedKeepsInk(Parts(text, 0, 0));
      assert text[0..] == text;
      StripFacts(text);
    }
  }
}
