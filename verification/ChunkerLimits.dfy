/**
 * Two things the chunker's documentation suggests and the code does only for some settings: that no
 * chunk exceeds the budget, and that no chunk is empty. Each holds for every text exactly when the
 * overlap says so.
 */
module ChunkerLimits {
  import opened Sequences
  import opened Text
  import opened Whitespace
  import opened Chunker
  import opened ChunkerProofs

  ghost predicate Unbroken(s: string) {
    forall k :: 0 <= k < |s| ==> !EndsSentence(s[k]) && s[k] != '\n'
  }

  lemma {:induction false} OnePart(s: string, start: nat, i: nat)
    requires start <= i <= |s| && Unbroken(s)
    ensures Parts(s, start, i) == [s[start..]]
    decreases |s| - i
  {
    if i >= |s| {
    } else {
      OnePart(s, start, i + 1);
      assert NewlineRun(s, i) == 0;
    }
  }

  lemma OneSentence(s: string)
    requires s != "" && Trimmed(s) && Unbroken(s)
    ensures Sentences(s) == [s]
  {
    OnePart(s, 0, 0);
    assert s[0..] == s;
    StripTrimmed(s);
    assert Stripped([s]) == [s] + Stripped([]);
  }

  lemma OneSentenceTokens(s: string, max: nat)
    requires 0 < max < |s|
    ensures Tokens([s], max) == Cut(s, 0, max)
  {
    assert [s][1..] == [] && Cut(s, 0, max) + Tokens([], max) == Cut(s, 0, max);
  }

  function Repeat(c: char, n: nat): (s: string)
    ensures |s| == n && forall k :: 0 <= k < n ==> s[k] == c
  {
    seq(n, _ => c)
  }

  lemma FullPiece(st: State, piece: string, max: nat, overlap: int)
    requires |piece| == max && st.parts == [] && st.chars == 0
    ensures Step(st, Piece(piece), max, overlap)
         == var body := Strip(piece); var tail := Tail(body, overlap);
            State(if tail != "" then [tail] else [], |tail|, st.chunks + [body])
  {
    assert [] + [piece] == [piece];
  }

  lemma TwoTokens(a: Token, b: Token, max: nat, overlap: int)
    ensures Packed(EMPTY, [a, b], max, overlap) == Step(Step(EMPTY, a, max, overlap), b, max, overlap)
  {
    assert [a, b] == [a] + [b];
    PackedConcat(EMPTY, [a], [b], max, overlap);
    PackedOne(EMPTY, a, max, overlap);
    PackedOne(Step(EMPTY, a, max, overlap), b, max, overlap);
  }

  // ----- the budget -----

  /** With overlap, two full pieces of one long word make a chunk of the tail, a space and a whole piece. */
  lemma OverBudget(maxTokens: nat, overlapTokens: int)
    requires 0 < maxTokens && 0 < overlapTokens
    ensures var max := maxTokens * CHARS_PER_TOKEN;
            !AllWithin(Chunks(Repeat('a', 2 * max), maxTokens, overlapTokens), max)
  {
    var max, overlap := maxTokens * CHARS_PER_TOKEN, overlapTokens * CHARS_PER_TOKEN;
    var p := Repeat('a', max);
    WordTokens(max);
    TwoPieces(p, max, overlap);
    var st := Packed(EMPTY, [Piece(p), Piece(p)], max, overlap);
    FlushAdds(st, overlap, 2);
  }

  lemma FlushAdds(st: State, overlap: int, k: nat)
    requires k < |st.chunks|
    ensures k < |Flushed(st, overlap).chunks| && Flushed(st, overlap).chunks[k] == st.chunks[k]
    ensures st.chunks[k] in Flushed(st, overlap).chunks
  {}

  lemma TwoPieces(p: string, max: nat, overlap: int)
    requires 0 < overlap && 0 < max == |p| && forall k :: 0 <= k < max ==> p[k] == 'a'
    ensures var chunks := Packed(EMPTY, [Piece(p), Piece(p)], max, overlap).chunks;
            |chunks| == 3 && max < |chunks[2]|
  {
    var tail := Tail(p, overlap);
    TwoTokens(Piece(p), Piece(p), max, overlap);
    StripTrimmed(p);
    FullPiece(EMPTY, p, max, overlap);
    assert Step(EMPTY, Piece(p), max, overlap) == State([tail], |tail|, [p]);
    SecondPiece(p, max, overlap);
  }

  lemma WordTokens(max: nat)
    requires 0 < max
    ensures var text, p := Repeat('a', 2 * max), Repeat('a', max);
            Strip(text) != "" && Tokens(Sentences(text), max) == [Piece(p), Piece(p)]
  {
    var text, p := Repeat('a', 2 * max), Repeat('a', max);
    StripTrimmed(text);
    OneSentence(text);
    OneSentenceTokens(text, max);
    assert text[0..max] == p && text[max..2 * max] == p;
    assert Cut(text, max, max) == [Piece(p)] + Cut(text, 2 * max, max) == [Piece(p)];
    assert Cut(text, 0, max) == [Piece(p)] + [Piece(p)];
  }

  /** A tail joined to a piece, both without whitespace at their ends: nothing is stripped. */
  lemma JoinedBody(tail: string, p: string)
    requires tail != "" && p != "" && Trimmed(tail) && Trimmed(p)
    ensures var body := Join([tail, p], ' ');
            |body| == |tail| + 1 + |p| && Strip(body) == body
  {
    var body := Join([tail, p], ' ');
    assert body == tail + " " + p by {
      JoinSnoc([tail], p);
      assert [tail] + [p] == [tail, p];
    }
    assert body[0] == tail[0] && body[|body| - 1] == p[|p| - 1];
    StripTrimmed(body);
  }

  lemma SecondPiece(p: string, max: nat, overlap: int)
    requires 0 < overlap && 0 < max == |p| && forall k :: 0 <= k < max ==> p[k] == 'a'
    ensures var tail := Tail(p, overlap);
            var chunks := Step(State([tail], |tail|, [p]), Piece(p), max, overlap).chunks;
            |chunks| == 3 && |chunks[2]| == |tail| + 1 + max
  {
    var tail := Tail(p, overlap);
    assert tail != "" && Trimmed(tail) && Tail(tail, overlap) == tail;
    StripTrimmed(tail);
    JoinedBody(tail, p);
    ThirdChunk(tail, p, max, overlap);
  }

  lemma ThirdChunk(tail: string, p: string, max: nat, overlap: int)
    requires tail != "" && Strip(tail) == tail == Tail(tail, overlap) && 0 < max == |p|
    ensures Step(State([tail], |tail|, [p]), Piece(p), max, overlap).chunks == [p, tail, Strip(Join([tail, p], ' '))]
  {
    var st := State([tail], |tail|, [p]);
    assert Join([tail], ' ') == tail;
    assert Flushed(st, overlap) == State([tail], |tail|, [p, tail]);
    assert [tail] + [p] == [tail, p];
    assert Pushed(st, p, max, overlap) == State([tail, p], |tail| + |p| + 1, [p, tail]);
  }

  /** Every chunk of every text is within the budget if and only if there is no overlap. */
  lemma WithinBudgetIff(maxTokens: nat, overlapTokens: int)
    requires 0 < maxTokens
    ensures (forall text :: AllWithin(Chunks(text, maxTokens, overlapTokens), maxTokens * CHARS_PER_TOKEN))
            <==> overlapTokens <= 0
  {
    if overlapTokens <= 0 {
      forall text
        ensures AllWithin(Chunks(text, maxTokens, overlapTokens), maxTokens * CHARS_PER_TOKEN)
      {
        ChunksBounded(text, maxTokens, overlapTokens);
      }
    } else {
      OverBudget(maxTokens, overlapTokens);
    }
  }

  /** Sentences short enough to fit behind a full tail. */
  ghost predicate Fitting(text: string, max: nat, overlap: int) {
    forall s :: s in Sentences(text) ==> |s| + Max(overlap, 0) + 1 <= max
  }

  ghost predicate WithinBudget(st: State, max: nat) {
    |Join(st.parts, ' ')| <= st.chars && |Join(st.parts, ' ')| <= max && AllWithin(st.chunks, max)
  }

  lemma FlushFits(st: State, max: nat, overlap: int)
    requires WithinBudget(st, max) && Max(overlap, 0) <= max
    ensures WithinBudget(Flushed(st, overlap), max)
    ensures st.parts != [] ==> |Join(Flushed(st, overlap).parts, ' ')| <= Max(overlap, 0)
  {
    if st.parts != [] {
      StripFacts(Join(st.parts, ' '));
      TailOfTrimmed(Strip(Join(st.parts, ' ')), overlap);
    }
  }

  lemma PushFits(st: State, text: string, max: nat, overlap: int)
    requires WithinBudget(st, max) && |text| + Max(overlap, 0) + 1 <= max
    ensures WithinBudget(Pushed(st, text, max, overlap), max)
  {
    FlushFits(st, max, overlap);
    var room := if st.chars + |text| + 1 > max && st.parts != [] then Flushed(st, overlap) else st;
    JoinSnoc(room.parts, text);
  }

  lemma {:induction false} PackingFits(st: State, sentences: seq<string>, max: nat, overlap: int)
    requires 0 < max && WithinBudget(st, max)
    requires forall s :: s in sentences ==> |s| + Max(overlap, 0) + 1 <= max
    ensures WithinBudget(Packed(st, Tokens(sentences, max), max, overlap), max)
    decreases sentences
  {
    if sentences == [] {
    } else {
      var s, rest := sentences[0], Tokens(sentences[1..], max);
      assert s in sentences;
      assert Tokens(sentences, max) == [Whole(s)] + rest;
      PackedConcat(st, [Whole(s)], rest, max, overlap);
      PackedOne(st, Whole(s), max, overlap);
      PushFits(st, s, max, overlap);
      PackingFits(Pushed(st, s, max, overlap), sentences[1..], max, overlap);
    }
  }

  /** Of a text whose sentences all leave room for a full tail and a space, every chunk is within the budget. */
  lemma FittingTextIsWithinBudget(text: string, maxTokens: nat, overlapTokens: int)
    requires 0 < maxTokens && Fitting(text, maxTokens * CHARS_PER_TOKEN, overlapTokens * CHARS_PER_TOKEN)
    ensures AllWithin(Chunks(text, maxTokens, overlapTokens), maxTokens * CHARS_PER_TOKEN)
  {
    var max, overlap := maxTokens * CHARS_PER_TOKEN, overlapTokens * CHARS_PER_TOKEN;
    if Strip(text) != "" {
      SentencesKeepInk(text);
      assert Sentences(text)[0] in Sentences(text);
      PackingFits(EMPTY, Sentences(text), max, overlap);
      FlushFits(Packed(EMPTY, Tokens(Sentences(text), max), max, overlap), max, overlap);
    }
  }

  // ----- empty chunks -----

  /** Without overlap, a piece that is all whitespace is yielded as an empty chunk. */
  lemma EmptyChunk(maxTokens: nat, overlapTokens: int)
    requires 0 < maxTokens && overlapTokens <= 0
    ensures var max := maxTokens * CHARS_PER_TOKEN;
            !NoneEmpty(Chunks(Repeat('a', max) + Repeat(' ', max) + "b", maxTokens, overlapTokens))
  {
    var max, overlap := maxTokens * CHARS_PER_TOKEN, overlapTokens * CHARS_PER_TOKEN;
    var p, gap := Repeat('a', max), Repeat(' ', max);
    GapTokens(max);
    StripTrimmed(p);
    BlankStrips(gap);
    GapPacked(p, gap, max, overlap);
    FlushAdds(Packed(EMPTY, [Piece(p), Piece(gap), Piece("b")], max, overlap), overlap, 1);
  }

  lemma GapPacked(p: string, gap: string, max: nat, overlap: int)
    requires overlap <= 0 && 0 < max == |p| == |gap| && Strip(p) == p && Strip(gap) == ""
    ensures var chunks := Packed(EMPTY, [Piece(p), Piece(gap), Piece("b")], max, overlap).chunks;
            1 < |chunks| && chunks[1] == ""
  {
    var first := [Piece(p), Piece(gap)];
    FullPiece(EMPTY, p, max, overlap);
    FullPiece(State([], 0, [p]), gap, max, overlap);
    TwoTokens(Piece(p), Piece(gap), max, overlap);
    assert Packed(EMPTY, first, max, overlap) == State([], 0, [p, ""]);
    assert [Piece(p), Piece(gap), Piece("b")] == first + [Piece("b")];
    PackedConcat(EMPTY, first, [Piece("b")], max, overlap);
    PackedOne(State([], 0, [p, ""]), Piece("b"), max, overlap);
  }

  lemma BlankStrips(gap: string)
    requires forall k :: 0 <= k < |gap| ==> gap[k] == ' '
    ensures Strip(gap) == ""
  {
    BlankHasNoInk(gap);
    StripFacts(gap);
  }

  lemma GapTokens(max: nat)
    requires 0 < max
    ensures var p, gap := Repeat('a', max), Repeat(' ', max);
            var text := p + gap + "b";
            Strip(text) != "" && Tokens(Sentences(text), max) == [Piece(p), Piece(gap), Piece("b")]
  {
    var p, gap := Repeat('a', max), Repeat(' ', max);
    var text := p + gap + "b";
    StripTrimmed(text);
    OneSentence(text);
    OneSentenceTokens(text, max);
    assert text[0..max] == p && text[max..2 * max] == gap && text[2 * max..|text|] == "b";
    assert Cut(text, 2 * max, max) == [Piece("b")] + Cut(text, 3 * max, max) == [Piece("b")];
    assert Cut(text, max, max) == [Piece(gap)] + [Piece("b")];
    assert Cut(text, 0, max) == [Piece(p)] + [Piece(gap), Piece("b")];
  }

  /** Every chunk of every text is nonempty if and only if there is overlap. */
  lemma NonemptyIff(maxTokens: nat, overlapTokens: int)
    requires 0 < maxTokens
    ensures (forall text :: NoneEmpty(Chunks(text, maxTokens, overlapTokens))) <==> 0 < overlapTokens
  {
    if 0 < overlapTokens {
      forall text
        ensures NoneEmpty(Chunks(text, maxTokens, overlapTokens))
      {
        OverlapMakesChunksNonempty(text, maxTokens, overlapTokens);
      }
    } else {
      EmptyChunk(maxTokens, overlapTokens);
    }
  }
}
