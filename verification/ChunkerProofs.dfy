/**
 * What chunking promises: nothing is lost or reordered, each chunk resumes where the previous one
 * ended, and how long a chunk can get.
 */
module ChunkerProofs {
  import opened Sequences
  import opened Text
  import opened Whitespace
  import opened Chunker

  // ----- the ink of a sequence of strings -----

  function Inks(ss: seq<string>): string {
    if ss == [] then "" else Ink(ss[0]) + Inks(ss[1..])
  }

  lemma {:induction false} InksConcat(a: seq<string>, b: seq<string>)
    ensures Inks(a + b) == Inks(a) + Inks(b)
  {
    if a == [] {
      assert a + b == b;
    } else {
      assert (a + b)[1..] == a[1..] + b;
      InksConcat(a[1..], b);
    }
  }

  lemma InksOne(s: string)
    ensures Inks([s]) == Ink(s)
  {
    assert [s][1..] == [];
  }

  lemma InksSnoc(ss: seq<string>, s: string)
    ensures Inks(ss + [s]) == Inks(ss) + Ink(s)
  {
    InksConcat(ss, [s]);
    InksOne(s);
  }

  function TextsOf(ts: seq<Token>): seq<string> {
    seq(|ts|, i requires 0 <= i < |ts| => ts[i].text)
  }

  lemma TextsConcat(a: seq<Token>, b: seq<Token>)
    ensures Inks(TextsOf(a + b)) == Inks(TextsOf(a)) + Inks(TextsOf(b))
  {
    assert TextsOf(a + b) == TextsOf(a) + TextsOf(b);
    InksConcat(TextsOf(a), TextsOf(b));
  }

  lemma TextsCons(t: Token, ts: seq<Token>)
    ensures Inks(TextsOf([t] + ts)) == Ink(t.text) + Inks(TextsOf(ts))
  {
    var texts := TextsOf([t] + ts);
    assert texts[0] == t.text && texts[1..] == TextsOf(ts);
  }

  // ----- sentences keep the ink -----

  lemma InkSkipsSpace(s: string, start: nat, i: nat, next: nat)
    requires start <= i <= next <= |s| && forall k :: i <= k < next ==> IsSpace(s[k])
    ensures Ink(s[start..]) == Ink(s[start..i]) + Ink(s[next..])
  {
    var head, gap, tail := s[start..i], s[i..next], s[next..];
    assert s[start..] == head + (gap + tail);
    InkConcat(head, gap + tail);
    InkConcat(gap, tail);
    assert Ink(gap) == "" by {
      BlankHasNoInk(gap);
    }
  }

  lemma {:induction false} PartsKeepInk(s: string, start: nat, i: nat)
    requires start <= i <= |s|
    ensures Inks(Parts(s, start, i)) == Ink(s[start..])
    decreases |s| - i
  {
    var n := Boundary(s, i);
    if i == |s| {
      InksOne(s[start..]);
    } else if n > 0 {
      PartsKeepInk(s, i + n, i + n);
      BoundaryIsSpace(s, i);
      InkSkipsSpace(s, start, i, i + n);
      InksConcat([s[start..i]], Parts(s, i + n, i + n));
      InksOne(s[start..i]);
    } else {
      PartsKeepInk(s, start, i + 1);
    }
  }

  /** A sentence: nonempty with no whitespace at either end. */
  ghost predicate Clean(ss: seq<string>) {
    forall s :: s in ss ==> s != "" && Trimmed(s)
  }

  lemma {:induction false} StrippedKeepsInk(parts: seq<string>)
    ensures Inks(Stripped(parts)) == Inks(parts) && Clean(Stripped(parts))
  {
    if parts == [] {
    } else {
      StrippedKeepsInk(parts[1..]);
      StripFacts(parts[0]);
      if Strip(parts[0]) != "" {
        assert Stripped(parts)[1..] == Stripped(parts[1..]);
      } else {
        assert Stripped(parts) == Stripped(parts[1..]);
      }
    }
  }

  lemma SentencesKeepInk(text: string)
    ensures Inks(Sentences(text)) == Ink(text) && Clean(Sentences(text))
    ensures Strip(text) != "" ==> Sentences(text) != []
  {
    var parts := Parts(text, 0, 0);
    PartsKeepInk(text, 0, 0);
    assert text[0..] == text;
    StrippedKeepsInk(parts);
    StripFacts(text);
    if Stripped(parts) == [] && Strip(text) != "" {
      assert false;
    }
  }

  // ----- tokens are the sentences, cut to size -----

  lemma {:induction false} CutKeepsInk(s: string, i: nat, max: nat)
    requires 0 < max && i <= |s|
    ensures Inks(TextsOf(Cut(s, i, max))) == Ink(s[i..])
    decreases |s| - i
  {
    if i >= |s| {
    } else {
      var end := Min(i + max, |s|);
      CutKeepsInk(s, end, max);
      TextsCons(Piece(s[i..end]), Cut(s, i + max, max));
      assert s[i..] == s[i..end] + s[end..];
      InkConcat(s[i..end], s[end..]);
    }
  }

  lemma {:induction false} CutSizes(s: string, i: nat, max: nat)
    requires 0 < max
    ensures forall t :: t in Cut(s, i, max) ==> |t.text| <= max
    decreases |s| - i
  {
    if i >= |s| {
    } else {
      CutSizes(s, i + max, max);
    }
  }

  lemma TokensOfKeepInk(s: string, max: nat)
    requires 0 < max && s != ""
    ensures Inks(TextsOf(TokensOf(s, max))) == Ink(s)
    ensures forall t :: t in TokensOf(s, max) ==> |t.text| <= max
    ensures TokensOf(s, max) != [] && TokensOf(s, max)[0].text != "" && TokensOf(s, max)[0].text[0] == s[0]
  {
    CutKeepsInk(s, 0, max);
    CutSizes(s, 0, max);
    assert s[0..] == s;
    if |s| <= max {
      assert TextsOf(TokensOf(s, max)) == [s];
      InksOne(s);
    }
  }

  lemma {:induction false} TokensKeepInk(ss: seq<string>, max: nat)
    requires 0 < max && Clean(ss)
    ensures Inks(TextsOf(Tokens(ss, max))) == Inks(ss)
    ensures forall t :: t in Tokens(ss, max) ==> |t.text| <= max
    ensures ss != [] ==> Tokens(ss, max) != [] && Ink(Tokens(ss, max)[0].text) != ""
  {
    if ss == [] {
    } else {
      assert ss[0] in ss && Clean(ss[1..]);
      TokensKeepInk(ss[1..], max);
      TokensOfKeepInk(ss[0], max);
      TextsConcat(TokensOf(ss[0], max), Tokens(ss[1..], max));
      InkOfTrimmed(TokensOf(ss[0], max)[0].text);
    }
  }

  // ----- the joined buffer -----

  lemma JoinSnoc(parts: seq<string>, text: string)
    ensures Join(parts + [text], ' ') == if parts == [] then text else Join(parts, ' ') + " " + text
  {
    var all := parts + [text];
    assert all[..|all| - 1] == parts && Last(all) == text;
  }

  lemma {:induction false} JoinKeepsInk(parts: seq<string>)
    ensures Ink(Join(parts, ' ')) == Inks(parts)
  {
    if parts == [] {
    } else {
      var init, p := parts[..|parts| - 1], Last(parts);
      assert parts == init + [p];
      JoinKeepsInk(init);
      JoinSnoc(init, p);
      InksSnoc(init, p);
      InkConcat(Join(init, ' ') + " ", p);
      InkConcat(Join(init, ' '), " ");
      assert Ink(" ") == "";
    }
  }

  lemma {:induction false} JoinStarts(parts: seq<string>)
    requires parts != []
    ensures parts[0] <= Join(parts, ' ')
  {
    if |parts| <= 1 {
    } else {
      JoinStarts(parts[..|parts| - 1]);
    }
  }

  /** A buffer that starts with a tail ending in ink flushes to a body that starts with that tail, less
      its leading whitespace. */
  lemma BodyStartsWithTail(parts: seq<string>)
    requires parts != [] && parts[0] != "" && !IsSpace(Last(parts[0]))
    ensures LStrip(parts[0]) <= Strip(Join(parts, ' '))
  {
    var tail, all := parts[0], Join(parts, ' ');
    JoinStarts(parts);
    var rest := all[|tail|..];
    assert all == tail + rest;
    InkAtEnd(tail);
    LStripConcat(tail, rest);
    LStripFacts(tail);
    assert LStrip(tail) != "" by {
      StripFacts(tail);
    }
    assert Last(LStrip(tail)) == Last(tail);
    RStripConcat(LStrip(tail), rest);
  }

  lemma TailOfTrimmed(body: string, overlap: int)
    requires Trimmed(body)
    ensures Tail(body, overlap) != "" ==> !IsSpace(Last(Tail(body, overlap)))
    ensures Tail(body, overlap) == "" <==> overlap <= 0 || body == ""
    ensures |Tail(body, overlap)| <= Max(overlap, 0)
  {}

  // ----- conservation -----

  /** A chunk without the tail it carries over from the chunk before it. */
  function Fresh(prev: string, cur: string, overlap: int): string {
    var carried := |LStrip(Tail(prev, overlap))|;
    if carried <= |cur| then cur[carried..] else ""
  }

  /** Undo chunking: the first chunk, then every later chunk without its carried tail. */
  function Unchunk(chunks: seq<string>, overlap: int): string {
    if chunks == [] then ""
    else if |chunks| == 1 then chunks[0]
    else Unchunk(chunks[..|chunks| - 1], overlap) + Fresh(chunks[|chunks| - 2], Last(chunks), overlap)
  }

  function Carried(st: State, overlap: int): string {
    if st.chunks == [] then "" else Tail(Last(st.chunks), overlap)
  }

  /** The buffered parts that no chunk holds yet. */
  function Pending(st: State, overlap: int): seq<string> {
    if Carried(st, overlap) != "" && st.parts != [] then st.parts[1..] else st.parts
  }

  /** Each chunk begins with the end of the one before it, less leading whitespace. */
  ghost predicate Overlapping(chunks: seq<string>, overlap: int) {
    forall k :: 0 < k < |chunks| ==> LStrip(Tail(chunks[k - 1], overlap)) <= chunks[k]
  }

  /** The buffer starts with the carried tail, and the chunks with the pending parts hold `ink` in order. */
  ghost predicate Conserving(st: State, overlap: int, ink: string) {
    && (Carried(st, overlap) != "" ==> st.parts != [] && st.parts[0] == Carried(st, overlap))
    && (forall c :: c in st.chunks ==> Trimmed(c))
    && Overlapping(st.chunks, overlap)
    && Ink(Unchunk(st.chunks, overlap)) + Inks(Pending(st, overlap)) == ink
  }

  lemma BodyAfterTail(parts: seq<string>)
    requires parts != [] && parts[0] != "" && !IsSpace(Last(parts[0]))
    ensures var body := Strip(Join(parts, ' '));
            var carried := LStrip(parts[0]);
            carried <= body && Ink(body[|carried|..]) == Inks(parts[1..])
  {
    var body, carried := Strip(Join(parts, ' ')), LStrip(parts[0]);
    BodyStartsWithTail(parts);
    BodyInk(parts);
    LStripFacts(parts[0]);
    InkAfterPrefix(carried, body, Inks(parts[1..]));
  }

  lemma BodyInk(parts: seq<string>)
    requires parts != []
    ensures Ink(Strip(Join(parts, ' '))) == Ink(parts[0]) + Inks(parts[1..])
  {
    StripFacts(Join(parts, ' '));
    JoinKeepsInk(parts);
  }

  lemma InkAfterPrefix(prefix: string, body: string, rest: string)
    requires prefix <= body && Ink(body) == Ink(prefix) + rest
    ensures Ink(body[|prefix|..]) == rest
  {
    var after := body[|prefix|..];
    assert body == prefix + after;
    InkConcat(prefix, after);
    assert rest == (Ink(prefix) + rest)[|Ink(prefix)|..];
  }

  lemma FlushBody(st: State, overlap: int, ink: string)
    requires Conserving(st, overlap, ink) && st.parts != []
    ensures var body := Strip(Join(st.parts, ' '));
            var carried := LStrip(Carried(st, overlap));
            Trimmed(body) && carried <= body && Ink(body[|carried|..]) == Inks(Pending(st, overlap))
  {
    var body, tail := Strip(Join(st.parts, ' ')), Carried(st, overlap);
    assert Trimmed(body) && Ink(body) == Inks(st.parts) by {
      StripFacts(Join(st.parts, ' '));
      JoinKeepsInk(st.parts);
    }
    if tail != "" {
      assert !IsSpace(Last(tail)) by {
        assert Last(st.chunks) in st.chunks;
        TailOfTrimmed(Last(st.chunks), overlap);
      }
      BodyAfterTail(st.parts);
    } else {
      assert body[0..] == body;
    }
  }

  lemma UnchunkSnoc(chunks: seq<string>, body: string, overlap: int)
    ensures Unchunk(chunks + [body], overlap) ==
            if chunks == [] then body else Unchunk(chunks, overlap) + Fresh(Last(chunks), body, overlap)
  {
    var longer := chunks + [body];
    assert longer[..|longer| - 1] == chunks && Last(longer) == body;
    assert chunks != [] ==> longer[|longer| - 2] == Last(chunks);
  }

  lemma FlushInk(st: State, overlap: int, ink: string)
    requires Conserving(st, overlap, ink) && st.parts != []
    ensures Ink(Unchunk(st.chunks + [Strip(Join(st.parts, ' '))], overlap)) == ink
  {
    var body, carried := Strip(Join(st.parts, ' ')), LStrip(Carried(st, overlap));
    FlushBody(st, overlap, ink);
    UnchunkSnoc(st.chunks, body, overlap);
    var added := body[|carried|..];
    if st.chunks == [] {
      assert added == body;
      assert Ink("") + Ink(added) == Ink(added);
    } else {
      assert Fresh(Last(st.chunks), body, overlap) == added;
      InkConcat(Unchunk(st.chunks, overlap), added);
    }
  }

  lemma FlushOverlaps(st: State, overlap: int, ink: string)
    requires Conserving(st, overlap, ink) && st.parts != []
    ensures Overlapping(st.chunks + [Strip(Join(st.parts, ' '))], overlap)
    ensures forall c :: c in st.chunks + [Strip(Join(st.parts, ' '))] ==> Trimmed(c)
  {
    var body := Strip(Join(st.parts, ' '));
    var next := st.chunks + [body];
    FlushBody(st, overlap, ink);
    forall k | 0 < k < |next|
      ensures LStrip(Tail(next[k - 1], overlap)) <= next[k]
    {
      assert next[k - 1] == st.chunks[k - 1];
      if k < |st.chunks| {
        assert next[k] == st.chunks[k];
      }
    }
  }

  lemma FlushConserves(st: State, overlap: int, ink: string)
    requires Conserving(st, overlap, ink)
    ensures Conserving(Flushed(st, overlap), overlap, ink)
    ensures Ink(Unchunk(Flushed(st, overlap).chunks, overlap)) == ink || st.parts == []
  {
    if st.parts != [] {
      var body, next := Strip(Join(st.parts, ' ')), Flushed(st, overlap);
      FlushOverlaps(st, overlap, ink);
      FlushInk(st, overlap, ink);
      assert next.chunks == st.chunks + [body] && Carried(next, overlap) == Tail(body, overlap);
      assert Pending(next, overlap) == [];
    }
  }

  lemma PendingSnoc(st: State, overlap: int, more: string, chars: nat)
    requires Carried(st, overlap) != "" ==> st.parts != []
    ensures Inks(Pending(State(st.parts + [more], chars, st.chunks), overlap)) == Inks(Pending(st, overlap)) + Ink(more)
  {
    InksSnoc(Pending(st, overlap), more);
    if Carried(st, overlap) != "" {
      assert (st.parts + [more])[1..] == st.parts[1..] + [more];
    }
  }

  lemma AppendConserves(st: State, overlap: int, ink: string, more: string, chars: nat)
    requires Conserving(st, overlap, ink)
    ensures Conserving(State(st.parts + [more], chars, st.chunks), overlap, ink + Ink(more))
  {
    PendingSnoc(st, overlap, more, chars);
    Associate(Ink(Unchunk(st.chunks, overlap)), Inks(Pending(st, overlap)), Ink(more));
  }

  lemma Associate(a: string, b: string, c: string)
    ensures a + (b + c) == (a + b) + c
  {}

  lemma PushConserves(st: State, more: string, max: nat, overlap: int, ink: string)
    requires Conserving(st, overlap, ink)
    ensures Conserving(Pushed(st, more, max, overlap), overlap, ink + Ink(more))
  {
    var room := if st.chars + |more| + 1 > max && st.parts != [] then Flushed(st, overlap) else st;
    assert Conserving(room, overlap, ink) by {
      FlushConserves(st, overlap, ink);
    }
    AppendConserves(room, overlap, ink, more, room.chars + |more| + 1);
  }

  lemma StepConserves(st: State, t: Token, max: nat, overlap: int, ink: string)
    requires Conserving(st, overlap, ink)
    ensures Conserving(Step(st, t, max, overlap), overlap, ink + Ink(t.text))
  {
    PushConserves(st, t.text, max, overlap, ink);
    FlushConserves(Pushed(st, t.text, max, overlap), overlap, ink + Ink(t.text));
  }

  lemma {:induction false} PackingConserves(st: State, ts: seq<Token>, max: nat, overlap: int, ink: string)
    requires Conserving(st, overlap, ink)
    ensures Conserving(Packed(st, ts, max, overlap), overlap, ink + Inks(TextsOf(ts)))
    decreases ts
  {
    if ts == [] {
      assert ink + Inks(TextsOf(ts)) == ink;
    } else {
      StepConserves(st, ts[0], max, overlap, ink);
      PackingConserves(Step(st, ts[0], max, overlap), ts[1..], max, overlap, ink + Ink(ts[0].text));
      TextsCons(ts[0], ts[1..]);
      assert ts == [ts[0]] + ts[1..];
      Associate(ink, Ink(ts[0].text), Inks(TextsOf(ts[1..])));
    }
  }

  lemma ChunksConserve(text: string, maxTokens: nat, overlapTokens: int)
    requires 0 < maxTokens
    ensures var overlap := overlapTokens * CHARS_PER_TOKEN;
            var chunks := Chunks(text, maxTokens, overlapTokens);
            Ink(Unchunk(chunks, overlap)) == Ink(text) && Overlapping(chunks, overlap)
  {
    var max, overlap := maxTokens * CHARS_PER_TOKEN, overlapTokens * CHARS_PER_TOKEN;
    StripFacts(text);
    if Strip(text) != "" {
      var ts := Tokens(Sentences(text), max);
      SentencesKeepInk(text);
      TokensKeepInk(Sentences(text), max);
      PackingConserves(EMPTY, ts, max, overlap, "");
      assert "" + Ink(text) == Ink(text);
      FlushConserves(Packed(EMPTY, ts, max, overlap), overlap, Ink(text));
    }
  }

  /** Chunking loses and reorders nothing: dropping each carried tail and ignoring whitespace gives the text back. */
  lemma UnchunkRestoresText(text: string, maxTokens: nat, overlapTokens: int)
    requires 0 < maxTokens
    ensures Ink(Unchunk(Chunks(text, maxTokens, overlapTokens), overlapTokens * CHARS_PER_TOKEN)) == Ink(text)
  {
    ChunksConserve(text, maxTokens, overlapTokens);
  }

  /** Every chunk after the first begins with the last characters of the previous one, less leading whitespace. */
  lemma ChunksOverlap(text: string, maxTokens: nat, overlapTokens: nat, k: nat)
    requires 0 < maxTokens && 0 < k < |Chunks(text, maxTokens, overlapTokens)|
    ensures var chunks := Chunks(text, maxTokens, overlapTokens);
            var last := chunks[k - 1][Max(0, |chunks[k - 1]| - 4 * overlapTokens)..];
            LStrip(last) <= chunks[k]
  {
    var chunks := Chunks(text, maxTokens, overlapTokens);
    ChunksConserve(text, maxTokens, overlapTokens);
    assert LStrip(Tail(chunks[k - 1], overlapTokens * CHARS_PER_TOKEN)) <= chunks[k];
    if overlapTokens == 0 {
      assert chunks[k - 1][|chunks[k - 1]|..] == "";
    } else if |chunks[k - 1]| <= 4 * overlapTokens {
      assert chunks[k - 1][0..] == chunks[k - 1];
    }
  }

  // ----- no empty chunk -----

  ghost predicate NoneEmpty(chunks: seq<string>) {
    forall c :: c in chunks ==> c != ""
  }

  /** Every chunk so far is nonempty and so will be the next. */
  ghost predicate Inked(st: State) {
    NoneEmpty(st.chunks) && st.parts != [] && Inks(st.parts) != ""
  }

  lemma FlushKeepsInked(st: State, overlap: int)
    requires 0 < overlap && Inked(st)
    ensures Inked(Flushed(st, overlap))
  {
    var body := Strip(Join(st.parts, ' '));
    var tail := Tail(body, overlap);
    JoinKeepsInk(st.parts);
    StripFacts(Join(st.parts, ' '));
    TailOfTrimmed(body, overlap);
    InkAtEnd(tail);
    InksOne(tail);
  }

  lemma AppendKeepsInked(st: State, more: string, chars: nat)
    requires NoneEmpty(st.chunks)
    requires Inked(st) || Ink(more) != ""
    ensures Inked(State(st.parts + [more], chars, st.chunks))
  {
    InksSnoc(st.parts, more);
  }

  lemma StepKeepsInked(st: State, t: Token, max: nat, overlap: int)
    requires 0 < overlap && (Inked(st) || (st == EMPTY && Ink(t.text) != ""))
    ensures Inked(Step(st, t, max, overlap))
  {
    if Inked(st) {
      FlushKeepsInked(st, overlap);
    }
    var room := if st.chars + |t.text| + 1 > max && st.parts != [] then Flushed(st, overlap) else st;
    AppendKeepsInked(room, t.text, room.chars + |t.text| + 1);
    FlushKeepsInked(Pushed(st, t.text, max, overlap), overlap);
  }

  lemma {:induction false} PackingInked(st: State, ts: seq<Token>, max: nat, overlap: int)
    requires 0 < overlap && (Inked(st) || (st == EMPTY && ts != [] && Ink(ts[0].text) != ""))
    ensures Inked(Packed(st, ts, max, overlap))
    decreases ts
  {
    if ts == [] {
    } else {
      StepKeepsInked(st, ts[0], max, overlap);
      PackingInked(Step(st, ts[0], max, overlap), ts[1..], max, overlap);
    }
  }

  lemma OverlapMakesChunksNonempty(text: string, maxTokens: nat, overlapTokens: int)
    requires 0 < maxTokens && 0 < overlapTokens
    ensures NoneEmpty(Chunks(text, maxTokens, overlapTokens))
  {
    if Strip(text) != "" {
      var max, overlap := maxTokens * CHARS_PER_TOKEN, overlapTokens * CHARS_PER_TOKEN;
      SentencesKeepInk(text);
      TokensKeepInk(Sentences(text), max);
      PackingInked(EMPTY, Tokens(Sentences(text), max), max, overlap);
      FlushKeepsInked(Packed(EMPTY, Tokens(Sentences(text), max), max, overlap), overlap);
    }
  }

  // ----- length -----

  function LongestChunk(max: nat, overlap: int): nat {
    if overlap <= 0 then max else max + overlap + 1
  }

  ghost predicate AllWithin(chunks: seq<string>, bound: nat) {
    forall c :: c in chunks ==> |c| <= bound
  }

  /** The count is never below the joined length, which stays within the bound. */
  ghost predicate Bounded(st: State, max: nat, overlap: int) {
    && |Join(st.parts, ' ')| <= st.chars
    && |Join(st.parts, ' ')| <= LongestChunk(max, overlap)
    && AllWithin(st.chunks, LongestChunk(max, overlap))
  }

  lemma FlushBounded(st: State, max: nat, overlap: int)
    requires Bounded(st, max, overlap)
    ensures Bounded(Flushed(st, overlap), max, overlap)
    ensures st.parts != [] ==> |Join(Flushed(st, overlap).parts, ' ')| <= Max(overlap, 0)
    ensures st.parts != [] && overlap <= 0 ==> Flushed(st, overlap).parts == []
  {
    if st.parts != [] {
      StripFacts(Join(st.parts, ' '));
      TailOfTrimmed(Strip(Join(st.parts, ' ')), overlap);
    }
  }

  lemma {:induction false} PackingBounded(st: State, ts: seq<Token>, max: nat, overlap: int)
    requires Bounded(st, max, overlap) && forall t :: t in ts ==> |t.text| <= max
    ensures Bounded(Packed(st, ts, max, overlap), max, overlap)
    decreases ts
  {
    if ts == [] {
    } else {
      assert ts[0] in ts;
      PushBounded(st, ts[0].text, max, overlap);
      FlushBounded(Pushed(st, ts[0].text, max, overlap), max, overlap);
      PackingBounded(Step(st, ts[0], max, overlap), ts[1..], max, overlap);
    }
  }

  lemma PushBounded(st: State, text: string, max: nat, overlap: int)
    requires Bounded(st, max, overlap) && |text| <= max
    ensures Bounded(Pushed(st, text, max, overlap), max, overlap)
  {
    FlushBounded(st, max, overlap);
    var room := if st.chars + |text| + 1 > max && st.parts != [] then Flushed(st, overlap) else st;
    JoinSnoc(room.parts, text);
  }

  /** At most the limit without overlap, at most the limit plus the tail and a space with it. */
  lemma ChunksBounded(text: string, maxTokens: nat, overlapTokens: int)
    requires 0 < maxTokens
    ensures AllWithin(Chunks(text, maxTokens, overlapTokens),
                      LongestChunk(maxTokens * CHARS_PER_TOKEN, overlapTokens * CHARS_PER_TOKEN))
  {
    if Strip(text) != "" {
      var max, overlap := maxTokens * CHARS_PER_TOKEN, overlapTokens * CHARS_PER_TOKEN;
      SentencesKeepInk(text);
      TokensKeepInk(Sentences(text), max);
      PackingBounded(EMPTY, Tokens(Sentences(text), max), max, overlap);
      FlushBounded(Packed(EMPTY, Tokens(Sentences(text), max), max, overlap), max, overlap);
    }
  }
}
