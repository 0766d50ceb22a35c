/**
 * Chunking is greedy, said from outside: which tokens make up each chunk, and why each chunk ends where it does.
 * A token is a sentence, or a piece of one that is longer than the budget.
 */
module ChunkerGreedy {
  import opened Sequences
  import opened Text
  import opened Whitespace
  import opened Chunker
  import opened ChunkerProofs

  // ----- what a chunk is made of -----

  /** What a chunk takes over from the one before it: that one's last `overlap` characters, or all of it. */
  function TakenOver(chunks: seq<string>, k: nat, overlap: int): string
    requires k <= |chunks|
  {
    if k == 0 || overlap <= 0 then "" else chunks[k - 1][Max(0, |chunks[k - 1]| - overlap)..]
  }

  /** Tokens `from` to `to`, behind what was taken over. */
  function Gathered(over: string, ts: seq<Token>, from: nat, to: nat): seq<string>
    requires from <= to <= |ts|
  {
    (if over != "" then [over] else []) + TextsOf(ts[from..to])
  }

  /** The packer's count: what was taken over, and each token with a space. */
  function Counted(over: string, ts: seq<Token>, from: nat, to: nat): nat
    requires from <= to <= |ts|
  {
    |over| + Spaced(TextsOf(ts[from..to]))
  }

  function Spaced(texts: seq<string>): nat {
    if texts == [] then 0 else Spaced(texts[..|texts| - 1]) + |Last(texts)| + 1
  }

  /** A chunk ends at the end of the text, where the next token does not fit, or where a piece has filled it. */
  ghost predicate EndsHere(over: string, ts: seq<Token>, from: nat, to: nat, max: nat)
    requires from <= to <= |ts|
  {
    || to == |ts|
    || Counted(over, ts, from, to) + |ts[to].text| + 1 > max
    || (from < to && ts[to - 1].Piece? && Counted(over, ts, from, to) >= max)
  }

  /** And nowhere before: every later token fits, and no piece before the last has filled the chunk. */
  ghost predicate GoesOn(over: string, ts: seq<Token>, from: nat, to: nat, max: nat)
    requires from <= to <= |ts|
  {
    forall j :: from < j < to ==>
      && Counted(over, ts, from, j) + |ts[j].text| + 1 <= max
      && !(ts[j - 1].Piece? && Counted(over, ts, from, j) >= max)
  }

  /** Chunk `k` is made of tokens `cuts[k]` to `cuts[k + 1]`. */
  ghost predicate GreedyAt(chunks: seq<string>, ts: seq<Token>, cuts: seq<nat>, k: nat, max: nat, overlap: int)
    requires k < |chunks| && k + 1 < |cuts|
  {
    && cuts[k] <= cuts[k + 1] <= |ts|
    && (var over := TakenOver(chunks, k, overlap);
        var parts := Gathered(over, ts, cuts[k], cuts[k + 1]);
        && parts != [] && chunks[k] == Strip(Join(parts, ' '))
        && EndsHere(over, ts, cuts[k], cuts[k + 1], max) && GoesOn(over, ts, cuts[k], cuts[k + 1], max))
  }

  ghost predicate Greedy(chunks: seq<string>, ts: seq<Token>, cuts: seq<nat>, max: nat, overlap: int) {
    && |cuts| == |chunks| + 1 && cuts[0] == 0
    && forall k :: 0 <= k < |chunks| ==> GreedyAt(chunks, ts, cuts, k, max, overlap)
  }

  // ----- the packer, seen so -----

  /** After `n` tokens: the chunks so far are greedy, and the buffer holds the tokens since the last cut. */
  ghost predicate Open(st: State, ts: seq<Token>, n: nat, cuts: seq<nat>, max: nat, overlap: int) {
    && n <= |ts| && Greedy(st.chunks, ts, cuts, max, overlap) && Last(cuts) <= n
    && (var over := TakenOver(st.chunks, |st.chunks|, overlap);
        && st.parts == Gathered(over, ts, Last(cuts), n) && st.chars == Counted(over, ts, Last(cuts), n)
        && GoesOn(over, ts, Last(cuts), n, max))
  }

  lemma TailIsTakenOver(chunks: seq<string>, body: string, overlap: int)
    ensures TakenOver(chunks + [body], |chunks| + 1, overlap) == Tail(body, overlap)
  {
    assert (chunks + [body])[|chunks|] == body;
  }

  lemma {:induction false} GreedyStays(chunks: seq<string>, body: string, ts: seq<Token>, cuts: seq<nat>, n: nat, k: nat, max: nat, overlap: int)
    requires k < |chunks| && |cuts| == |chunks| + 1 && GreedyAt(chunks, ts, cuts, k, max, overlap)
    ensures GreedyAt(chunks + [body], ts, cuts + [n], k, max, overlap)
  {
    var more, longer := chunks + [body], cuts + [n];
    assert more[k] == chunks[k] && longer[k] == cuts[k] && longer[k + 1] == cuts[k + 1];
    assert k > 0 ==> more[k - 1] == chunks[k - 1];
    assert TakenOver(more, k, overlap) == TakenOver(chunks, k, overlap);
  }

  lemma {:induction false} GreedyWithOne(chunks: seq<string>, body: string, ts: seq<Token>, cuts: seq<nat>, n: nat, max: nat, overlap: int)
    requires Greedy(chunks, ts, cuts, max, overlap) && GreedyAt(chunks + [body], ts, cuts + [n], |chunks|, max, overlap)
    ensures Greedy(chunks + [body], ts, cuts + [n], max, overlap)
  {
    forall k | 0 <= k < |chunks + [body]|
      ensures GreedyAt(chunks + [body], ts, cuts + [n], k, max, overlap)
    {
      if k < |chunks| {
        GreedyStays(chunks, body, ts, cuts, n, k, max, overlap);
      }
    }
  }

  /** A new chunk holds what was taken over. */
  lemma {:induction false} NewlyOpen(st: State, ts: seq<Token>, cuts: seq<nat>, max: nat, overlap: int)
    requires Greedy(st.chunks, ts, cuts, max, overlap) && Last(cuts) <= |ts|
    requires var over := TakenOver(st.chunks, |st.chunks|, overlap);
             st.parts == (if over != "" then [over] else []) && st.chars == |over|
    ensures Open(st, ts, Last(cuts), cuts, max, overlap)
  {
    var n := Last(cuts);
    assert ts[n..n] == [] && TextsOf([]) == [];
  }

  /** A flush closes the chunk, where it may end, and opens the next. */
  lemma {:induction false} FlushCloses(st: State, ts: seq<Token>, n: nat, cuts: seq<nat>, max: nat, overlap: int)
    requires Open(st, ts, n, cuts, max, overlap) && st.parts != []
    requires EndsHere(TakenOver(st.chunks, |st.chunks|, overlap), ts, Last(cuts), n, max)
    ensures Open(Flushed(st, overlap), ts, n, cuts + [n], max, overlap)
  {
    var body := Strip(Join(st.parts, ' '));
    TailIsTakenOver(st.chunks, body, overlap);
    ClosedIsGreedy(st.chunks, body, ts, cuts, n, max, overlap);
    GreedyWithOne(st.chunks, body, ts, cuts, n, max, overlap);
    assert Last(cuts + [n]) == n;
    NewlyOpen(Flushed(st, overlap), ts, cuts + [n], max, overlap);
  }

  lemma {:induction false} ClosedIsGreedy(chunks: seq<string>, body: string, ts: seq<Token>, cuts: seq<nat>, n: nat, max: nat, overlap: int)
    requires |cuts| == |chunks| + 1 && Last(cuts) <= n <= |ts|
    requires var over := TakenOver(chunks, |chunks|, overlap);
             && Gathered(over, ts, Last(cuts), n) != [] && body == Strip(Join(Gathered(over, ts, Last(cuts), n), ' '))
             && EndsHere(over, ts, Last(cuts), n, max) && GoesOn(over, ts, Last(cuts), n, max)
    ensures GreedyAt(chunks + [body], ts, cuts + [n], |chunks|, max, overlap)
  {
    var more, longer, c := chunks + [body], cuts + [n], |chunks|;
    assert more[c] == body && longer[c] == Last(cuts) && longer[c + 1] == n;
    assert c > 0 ==> more[c - 1] == chunks[c - 1];
    assert TakenOver(more, c, overlap) == TakenOver(chunks, c, overlap);
  }

  lemma GatheredMore(over: string, ts: seq<Token>, from: nat, n: nat)
    requires from <= n < |ts|
    ensures Gathered(over, ts, from, n + 1) == Gathered(over, ts, from, n) + [ts[n].text]
  {
    assert ts[from..n + 1] == ts[from..n] + [ts[n]];
    assert TextsOf(ts[from..n + 1]) == TextsOf(ts[from..n]) + [ts[n].text];
  }

  /** A push goes on with the chunk, which must have room unless it is new. */
  lemma {:induction false} AppendGoesOn(st: State, ts: seq<Token>, n: nat, cuts: seq<nat>, max: nat, overlap: int)
    requires Open(st, ts, n, cuts, max, overlap) && n < |ts|
    requires Last(cuts) < n ==> st.chars + |ts[n].text| + 1 <= max && !(ts[n - 1].Piece? && st.chars >= max)
    ensures Open(State(st.parts + [ts[n].text], st.chars + |ts[n].text| + 1, st.chunks), ts, n + 1, cuts, max, overlap)
  {
    var over := TakenOver(st.chunks, |st.chunks|, overlap);
    GatheredMore(over, ts, Last(cuts), n);
    CountedMore(over, ts, Last(cuts), n);
    GoesOnFurther(over, ts, Last(cuts), n, max);
  }

  lemma CountedMore(over: string, ts: seq<Token>, from: nat, n: nat)
    requires from <= n < |ts|
    ensures Counted(over, ts, from, n + 1) == Counted(over, ts, from, n) + |ts[n].text| + 1
  {
    var texts := TextsOf(ts[from..n]);
    assert TextsOf(ts[from..n + 1]) == texts + [ts[n].text];
    assert (texts + [ts[n].text])[..|texts|] == texts;
  }

  lemma {:induction false} GoesOnFurther(over: string, ts: seq<Token>, from: nat, n: nat, max: nat)
    requires from <= n < |ts| && GoesOn(over, ts, from, n, max)
    requires from < n ==> Counted(over, ts, from, n) + |ts[n].text| + 1 <= max
                          && !(ts[n - 1].Piece? && Counted(over, ts, from, n) >= max)
    ensures GoesOn(over, ts, from, n + 1, max)
  {
    forall j | from < j < n + 1
      ensures Counted(over, ts, from, j) + |ts[j].text| + 1 <= max && !(ts[j - 1].Piece? && Counted(over, ts, from, j) >= max)
    {
      assert j < n || j == n;
    }
  }

  /** The invariant between two tokens: no piece has filled the open chunk. */
  ghost predicate Ready(st: State, ts: seq<Token>, n: nat, cuts: seq<nat>, max: nat, overlap: int) {
    && Open(st, ts, n, cuts, max, overlap)
    && (Last(cuts) < n ==> !(ts[n - 1].Piece? && st.chars >= max))
  }

  lemma {:induction false} PushIsGreedy(st: State, ts: seq<Token>, n: nat, cuts: seq<nat>, max: nat, overlap: int) returns (next: seq<nat>)
    requires Ready(st, ts, n, cuts, max, overlap) && n < |ts|
    ensures Open(Pushed(st, ts[n].text, max, overlap), ts, n + 1, next, max, overlap)
  {
    if st.chars + |ts[n].text| + 1 > max && st.parts != [] {
      FlushCloses(st, ts, n, cuts, max, overlap);
      next := cuts + [n];
      AppendGoesOn(Flushed(st, overlap), ts, n, next, max, overlap);
    } else {
      next := cuts;
      if Last(cuts) < n {
        assert TextsOf(ts[Last(cuts)..n]) != [];
      }
      AppendGoesOn(st, ts, n, cuts, max, overlap);
    }
  }

  lemma {:induction false} StepIsGreedy(st: State, ts: seq<Token>, n: nat, cuts: seq<nat>, max: nat, overlap: int) returns (next: seq<nat>)
    requires Ready(st, ts, n, cuts, max, overlap) && n < |ts|
    ensures Ready(Step(st, ts[n], max, overlap), ts, n + 1, next, max, overlap)
  {
    var pushed := Pushed(st, ts[n].text, max, overlap);
    var open := PushIsGreedy(st, ts, n, cuts, max, overlap);
    if ts[n].Piece? && pushed.chars >= max {
      PushedPiece(st, ts, n, open, max, overlap);
      next := open + [n + 1];
      assert Step(st, ts[n], max, overlap) == Flushed(pushed, overlap);
      FilledIsReady(pushed, ts, n + 1, open, max, overlap);
    } else {
      next := open;
      assert Step(st, ts[n], max, overlap) == pushed;
    }
  }

  lemma {:induction false} FilledIsReady(st: State, ts: seq<Token>, n: nat, cuts: seq<nat>, max: nat, overlap: int)
    requires Open(st, ts, n, cuts, max, overlap) && st.parts != []
    requires EndsHere(TakenOver(st.chunks, |st.chunks|, overlap), ts, Last(cuts), n, max)
    ensures Ready(Flushed(st, overlap), ts, n, cuts + [n], max, overlap)
  {
    FlushCloses(st, ts, n, cuts, max, overlap);
    assert Last(cuts + [n]) == n;
  }

  lemma {:induction false} PushedPiece(st: State, ts: seq<Token>, n: nat, cuts: seq<nat>, max: nat, overlap: int)
    requires n < |ts| && ts[n].Piece? && Pushed(st, ts[n].text, max, overlap).chars >= max
    requires Open(Pushed(st, ts[n].text, max, overlap), ts, n + 1, cuts, max, overlap)
    ensures var pushed := Pushed(st, ts[n].text, max, overlap);
            EndsHere(TakenOver(pushed.chunks, |pushed.chunks|, overlap), ts, Last(cuts), n + 1, max)
  {
    var pushed := Pushed(st, ts[n].text, max, overlap);
    var over := TakenOver(pushed.chunks, |pushed.chunks|, overlap);
    if Last(cuts) == n + 1 {
      NothingGathered(over, ts, n + 1, pushed.parts);
    }
  }

  lemma GatheredSize(over: string, ts: seq<Token>, from: nat, to: nat)
    requires from <= to <= |ts|
    ensures |Gathered(over, ts, from, to)| == (if over != "" then 1 else 0) + to - from
  {
    assert |TextsOf(ts[from..to])| == to - from;
  }

  lemma NothingGathered(over: string, ts: seq<Token>, n: nat, parts: seq<string>)
    requires n <= |ts| && parts == Gathered(over, ts, n, n)
    ensures |parts| <= 1 && (parts != [] ==> parts[0] == over)
  {
    assert ts[n..n] == [] && TextsOf([]) == [];
  }

  lemma {:induction false} PackedNext(ts: seq<Token>, n: nat, max: nat, overlap: int)
    requires n < |ts|
    ensures Packed(EMPTY, ts[..n + 1], max, overlap) == Step(Packed(EMPTY, ts[..n], max, overlap), ts[n], max, overlap)
  {
    assert ts[..n + 1] == ts[..n] + [ts[n]];
    PackedConcat(EMPTY, ts[..n], [ts[n]], max, overlap);
    PackedOne(Packed(EMPTY, ts[..n], max, overlap), ts[n], max, overlap);
  }

  lemma {:induction false} PackingIsGreedy(ts: seq<Token>, n: nat, max: nat, overlap: int) returns (cuts: seq<nat>)
    requires n <= |ts|
    ensures Ready(Packed(EMPTY, ts[..n], max, overlap), ts, n, cuts, max, overlap)
  {
    if n == 0 {
      cuts := [0];
      StartIsGreedy(ts, max, overlap);
    } else {
      var m := n - 1;
      var before := PackingIsGreedy(ts, m, max, overlap);
      cuts := NextIsGreedy(ts, m, before, max, overlap);
      assert ts[..m + 1] == ts[..n];
    }
  }

  lemma {:induction false} StartIsGreedy(ts: seq<Token>, max: nat, overlap: int)
    ensures Ready(Packed(EMPTY, ts[..0], max, overlap), ts, 0, [0], max, overlap)
  {
    assert ts[..0] == [] && Packed(EMPTY, [], max, overlap) == EMPTY;
    NewlyOpen(EMPTY, ts, [0], max, overlap);
  }

  lemma {:induction false} NextIsGreedy(ts: seq<Token>, n: nat, before: seq<nat>, max: nat, overlap: int) returns (cuts: seq<nat>)
    requires n < |ts| && Ready(Packed(EMPTY, ts[..n], max, overlap), ts, n, before, max, overlap)
    ensures Ready(Packed(EMPTY, ts[..n + 1], max, overlap), ts, n + 1, cuts, max, overlap)
  {
    PackedNext(ts, n, max, overlap);
    cuts := StepIsGreedy(Packed(EMPTY, ts[..n], max, overlap), ts, n, before, max, overlap);
  }

  lemma {:induction false} LastFlush(st: State, ts: seq<Token>, cuts: seq<nat>, max: nat, overlap: int) returns (all: seq<nat>)
    requires Open(st, ts, |ts|, cuts, max, overlap)
    ensures Greedy(Flushed(st, overlap).chunks, ts, all, max, overlap) && Last(all) == |ts|
  {
    if st.parts == [] {
      all := cuts;
      GatheredSize(TakenOver(st.chunks, |st.chunks|, overlap), ts, Last(cuts), |ts|);
    } else {
      FlushCloses(st, ts, |ts|, cuts, max, overlap);
      all := cuts + [|ts|];
    }
  }

  lemma BlankHasNoSentences(text: string)
    requires Strip(text) == ""
    ensures Sentences(text) == []
  {
    SentencesKeepInk(text);
    StripFacts(text);
    if Sentences(text) != [] {
      CleanHasInk(Sentences(text));
    }
  }

  lemma CleanHasInk(ss: seq<string>)
    requires ss != [] && Clean(ss)
    ensures Inks(ss) != ""
  {
    assert ss[0] in ss;
    InkOfTrimmed(ss[0]);
  }

  lemma {:induction false} ChunksAre(text: string, maxTokens: nat, overlapTokens: int)
    requires 0 < maxTokens && Strip(text) != ""
    ensures var max, overlap := 4 * maxTokens, 4 * overlapTokens;
            Chunks(text, maxTokens, overlapTokens) == Flushed(Packed(EMPTY, Tokens(Sentences(text), max), max, overlap), overlap).chunks
  {
    assert maxTokens * CHARS_PER_TOKEN == 4 * maxTokens && overlapTokens * CHARS_PER_TOKEN == 4 * overlapTokens;
  }

  /**
   * Every chunk is the tail taken over and a run of tokens, joined by spaces and stripped; the runs follow one
   * another to the end of the text; and a run ends only at the end of the text, where its count with the next
   * token and a space exceeds the budget, or where a hard-split piece has filled it, and goes on otherwise.
   */
  lemma {:induction false} ChunksAreGreedy(text: string, maxTokens: nat, overlapTokens: int) returns (cuts: seq<nat>)
    requires 0 < maxTokens
    ensures var ts := Tokens(Sentences(text), 4 * maxTokens);
            Greedy(Chunks(text, maxTokens, overlapTokens), ts, cuts, 4 * maxTokens, 4 * overlapTokens) && Last(cuts) == |ts|
  {
    var max, overlap := 4 * maxTokens, 4 * overlapTokens;
    var ts := Tokens(Sentences(text), max);
    if Strip(text) == "" {
      BlankHasNoSentences(text);
      cuts := [0];
    } else {
      var open := PackingIsGreedy(ts, |ts|, max, overlap);
      assert ts[..|ts|] == ts;
      ChunksAre(text, maxTokens, overlapTokens);
      cuts := LastFlush(Packed(EMPTY, ts, max, overlap), ts, open, max, overlap);
    }
  }

  // ----- one chunk -----

  lemma StepFits(st: State, t: string, max: nat, overlap: int)
    requires st.chars + |t| + 1 <= max
    ensures Step(st, Whole(t), max, overlap) == State(st.parts + [t], st.chars + |t| + 1, st.chunks)
  {}

  lemma {:induction false} FirstToken(st: State, ss: seq<string>, max: nat, overlap: int)
    requires 0 < max && ss != [] && |ss[0]| <= max
    ensures Packed(st, Tokens(ss, max), max, overlap)
         == Packed(Step(st, Whole(ss[0]), max, overlap), Tokens(ss[1..], max), max, overlap)
  {
    var t, rest := Whole(ss[0]), Tokens(ss[1..], max);
    assert Tokens(ss, max) == [t] + rest;
    assert ([t] + rest)[0] == t && ([t] + rest)[1..] == rest;
  }

  lemma {:induction false} AllFit(st: State, ss: seq<string>, max: nat, overlap: int)
    requires 0 < max && st.chars + Spaced(ss) <= max
    ensures Packed(st, Tokens(ss, max), max, overlap) == State(st.parts + ss, st.chars + Spaced(ss), st.chunks)
    decreases ss
  {
    if ss == [] {
      assert Tokens(ss, max) == [] && Packed(st, [], max, overlap) == st;
      assert st.parts + ss == st.parts;
    } else {
      SpacedCons(ss);
      var first, rest := ss[0], ss[1..];
      var next := State(st.parts + [first], st.chars + |first| + 1, st.chunks);
      assert Packed(st, Tokens(ss, max), max, overlap) == Packed(next, Tokens(rest, max), max, overlap) by {
        FirstToken(st, ss, max, overlap);
        StepFits(st, first, max, overlap);
      }
      AllFit(next, rest, max, overlap);
      Pile(st.parts, first, rest, ss);
    }
  }

  lemma Pile(parts: seq<string>, first: string, rest: seq<string>, ss: seq<string>)
    requires ss == [first] + rest
    ensures parts + [first] + rest == parts + ss
  {}

  lemma {:induction false} SpacedCons(ss: seq<string>)
    requires ss != []
    ensures Spaced(ss) == |ss[0]| + 1 + Spaced(ss[1..])
  {
    if |ss| == 1 {
    } else {
      var init := ss[..|ss| - 1];
      SpacedCons(init);
      assert init[1..] == ss[1..][..|ss[1..]| - 1] && Last(ss[1..]) == Last(ss);
    }
  }

  lemma {:induction false} JoinTrimmed(ss: seq<string>)
    requires ss != [] && Clean(ss)
    ensures Join(ss, ' ') != "" && Trimmed(Join(ss, ' '))
  {
    assert ss[0] in ss && Last(ss) in ss;
    JoinStarts(ss);
    assert Join(ss, ' ')[0] == ss[0][0];
    assert Last(Join(ss, ' ')) == Last(Last(ss));
  }

  lemma FlushOfAll(ss: seq<string>, chars: nat, overlap: int)
    requires ss != [] && Clean(ss)
    ensures Flushed(State(ss, chars, []), overlap).chunks == [Join(ss, ' ')]
  {
    JoinTrimmed(ss);
    StripTrimmed(Join(ss, ' '));
  }

  /** A text whose sentences, each with a space, fit the budget is one chunk: its sentences joined by spaces. */
  lemma {:induction false} FittingTextIsOneChunk(text: string, maxTokens: nat, overlapTokens: int)
    requires 0 < maxTokens && Strip(text) != "" && Spaced(Sentences(text)) <= 4 * maxTokens
    ensures Chunks(text, maxTokens, overlapTokens) == [Join(Sentences(text), ' ')]
  {
    var max, overlap, ss := 4 * maxTokens, 4 * overlapTokens, Sentences(text);
    SentencesKeepInk(text);
    ChunksAre(text, maxTokens, overlapTokens);
    AllFit(EMPTY, ss, max, overlap);
    assert [] + ss == ss;
    FlushOfAll(ss, Spaced(ss), overlap);
  }

  // ----- the tokens -----

  function Flat(texts: seq<string>): string {
    if texts == [] then "" else texts[0] + Flat(texts[1..])
  }

  /** A sentence within the budget is one token; a longer one is cut every `max` characters, and nothing of it is
      lost. */
  lemma TokensOfIs(sentence: string, max: nat)
    requires 0 < max
    ensures var ts := TokensOf(sentence, max);
            && Flat(TextsOf(ts)) == sentence
            && (if |sentence| <= max then ts == [Whole(sentence)]
                else forall i :: 0 <= i < |ts| ==>
                       && ts[i].Piece? && 0 < |ts[i].text| <= max && (i < |ts| - 1 ==> |ts[i].text| == max))
  {
    if |sentence| <= max {
      assert TextsOf([Whole(sentence)]) == [sentence] && [sentence][1..] == [];
      assert Flat([sentence]) == sentence + "" == sentence;
    } else {
      CutIs(sentence, 0, max);
      assert sentence[0..] == sentence;
    }
  }

  lemma {:induction false} CutIs(s: string, i: nat, max: nat)
    requires 0 < max && i <= |s|
    ensures var ts := Cut(s, i, max);
            && Flat(TextsOf(ts)) == s[i..]
            && forall k :: 0 <= k < |ts| ==>
                 ts[k].Piece? && 0 < |ts[k].text| <= max && (k < |ts| - 1 ==> |ts[k].text| == max)
    decreases |s| - i
  {
    if i == |s| {
    } else {
      var end := Min(i + max, |s|);
      var rest := Cut(s, i + max, max);
      if i + max <= |s| {
        CutIs(s, i + max, max);
      }
      var texts := TextsOf([Piece(s[i..end])] + rest);
      assert texts[0] == s[i..end] && texts[1..] == TextsOf(rest);
      assert s[i..] == s[i..end] + s[end..];
      assert rest == [] ==> Flat(TextsOf(rest)) == "";
      assert i + max >= |s| ==> rest == [] && s[end..] == "";
    }
  }
}
