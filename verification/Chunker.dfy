/**
 * The sentence-aware chunker: greedy packing with a carried-over tail, hard splits of long sentences,
 * and its own length accounting. The loops are `ChunkText`; `Chunks` is the function they compute, and
 * ChunkerProofs states what that function promises.
 */
module Chunker {
  import opened Sequences
  import opened Text
  import opened Whitespace

  const CHARS_PER_TOKEN := 4

  // ----- sentence splitting -----

  predicate EndsSentence(c: char) {
    c == '.' || c == '!' || c == '?'
  }

  function SpaceRun(s: string, i: nat): (n: nat)
    requires i <= |s|
    ensures i + n <= |s|
    decreases |s| - i
  {
    if i < |s| && IsSpace(s[i]) then 1 + SpaceRun(s, i + 1) else 0
  }

  function NewlineRun(s: string, i: nat): (n: nat)
    requires i <= |s|
    ensures i + n <= |s|
    decreases |s| - i
  {
    if i < |s| && s[i] == '\n' then 1 + NewlineRun(s, i + 1) else 0
  }

  /** How many characters a sentence boundary takes at position `i`: a run of whitespace after `.`, `!` or
      `?`, otherwise a run of at least two newlines; 0 where neither matches. */
  function Boundary(s: string, i: nat): (n: nat)
    requires i <= |s|
    ensures i + n <= |s|
  {
    if 0 < i && EndsSentence(s[i - 1]) && SpaceRun(s, i) > 0 then SpaceRun(s, i)
    else if NewlineRun(s, i) >= 2 then NewlineRun(s, i)
    else 0
  }

  lemma {:induction false} RunsAreSpace(s: string, i: nat)
    requires i <= |s|
    ensures forall k :: i <= k < i + SpaceRun(s, i) ==> IsSpace(s[k])
    ensures forall k :: i <= k < i + NewlineRun(s, i) ==> IsSpace(s[k])
    decreases |s| - i
  {
    if i >= |s| {
    } else {
      RunsAreSpace(s, i + 1);
    }
  }

  lemma BoundaryIsSpace(s: string, i: nat)
    requires i <= |s|
    ensures forall k :: i <= k < i + Boundary(s, i) ==> IsSpace(s[k])
  {
    RunsAreSpace(s, i);
  }

  /** The text between boundaries, scanning from `i` with the current part begun at `start`. */
  function Parts(s: string, start: nat, i: nat): seq<string>
    requires start <= i <= |s|
    decreases |s| - i
  {
    if i == |s| then [s[start..]]
    else if Boundary(s, i) > 0 then [s[start..i]] + Parts(s, i + Boundary(s, i), i + Boundary(s, i))
    else Parts(s, start, i + 1)
  }

  /** Each part stripped, and the empty ones dropped. */
  function Stripped(parts: seq<string>): seq<string> {
    if parts == [] then []
    else (if Strip(parts[0]) != "" then [Strip(parts[0])] else []) + Stripped(parts[1..])
  }

  function Sentences(text: string): seq<string> {
    var parts := Stripped(Parts(text, 0, 0));
    if parts != [] then parts else if Strip(text) != "" then [Strip(text)] else []
  }

  // ----- packing -----

  /** One loop iteration's worth of text: a whole sentence, or a piece of one that is too long. */
  datatype Token = Whole(text: string) | Piece(text: string)

  /** The pieces of a long sentence from position `i` on: `range(i, len, max)`. */
  function Cut(sentence: string, i: nat, max: nat): seq<Token>
    requires 0 < max
    decreases |sentence| - i
  {
    if i >= |sentence| then []
    else [Piece(sentence[i..Min(i + max, |sentence|)])] + Cut(sentence, i + max, max)
  }

  function TokensOf(sentence: string, max: nat): seq<Token>
    requires 0 < max
  {
    if |sentence| > max then Cut(sentence, 0, max) else [Whole(sentence)]
  }

  function Tokens(sentences: seq<string>, max: nat): seq<Token>
    requires 0 < max
  {
    if sentences == [] then [] else TokensOf(sentences[0], max) + Tokens(sentences[1..], max)
  }

  /** The last `overlap` characters, or all of them if there are fewer; nothing without overlap. */
  function Tail(body: string, overlap: int): string {
    if overlap <= 0 then ""
    else if |body| > overlap then body[|body| - overlap..]
    else body
  }

  /** The packer's variables: the buffered parts, the separate length count, and the chunks so far. */
  datatype State = State(parts: seq<string>, chars: nat, chunks: seq<string>)

  const EMPTY := State([], 0, [])

  function Flushed(st: State, overlap: int): State {
    if st.parts == [] then st
    else
      var body := Strip(Join(st.parts, ' '));
      var tail := Tail(body, overlap);
      State(if tail != "" then [tail] else [], |tail|, st.chunks + [body])
  }

  function Pushed(st: State, text: string, max: nat, overlap: int): State {
    var room := if st.chars + |text| + 1 > max && st.parts != [] then Flushed(st, overlap) else st;
    State(room.parts + [text], room.chars + |text| + 1, room.chunks)
  }

  function Step(st: State, t: Token, max: nat, overlap: int): State {
    var pushed := Pushed(st, t.text, max, overlap);
    if t.Piece? && pushed.chars >= max then Flushed(pushed, overlap) else pushed
  }

  function Packed(st: State, ts: seq<Token>, max: nat, overlap: int): State
    decreases ts
  {
    if ts == [] then st else Packed(Step(st, ts[0], max, overlap), ts[1..], max, overlap)
  }

  /** The chunk bodies in order. */
  function Chunks(text: string, maxTokens: nat, overlapTokens: int): seq<string>
    requires 0 < maxTokens
  {
    var max, overlap := maxTokens * CHARS_PER_TOKEN, overlapTokens * CHARS_PER_TOKEN;
    if Strip(text) == "" then []
    else Flushed(Packed(EMPTY, Tokens(Sentences(text), max), max, overlap), overlap).chunks
  }

  // ----- the generator -----

  function Bodies(out: seq<(nat, string)>): seq<string> {
    seq(|out|, i requires 0 <= i < |out| => out[i].1)
  }

  /** The variables that `flush` shares with the loops of the generator. */
  class Packer {
    const overlap: int
    var buffer: seq<string>
    var bufferChars: nat
    var chunkIndex: nat
    var out: seq<(nat, string)>

    ghost predicate Valid()
      reads this
    {
      chunkIndex == |out| && forall i :: 0 <= i < |out| ==> out[i].0 == i
    }

    ghost function Abs(): State
      reads this
    {
      State(buffer, bufferChars, Bodies(out))
    }

    constructor (overlap: int)
      ensures Valid() && Abs() == EMPTY && this.overlap == overlap
    {
      this.overlap := overlap;
      buffer, bufferChars, chunkIndex, out := [], 0, 0, [];
    }

    method Flush()
      requires Valid()
      modifies this
      ensures Valid() && Abs() == Flushed(old(Abs()), overlap)
    {
      if buffer == [] {
        return;
      }
      var body := Strip(Join(buffer, ' '));
      out := out + [(chunkIndex, body)];
      chunkIndex := chunkIndex + 1;
      var tail := Tail(body, overlap);
      buffer := if tail != "" then [tail] else [];
      bufferChars := |tail|;
    }

    /** Make room if needed, then append: the lines both branches of the loop share. */
    method Push(text: string, max: nat)
      requires Valid()
      modifies this
      ensures Valid() && Abs() == Pushed(old(Abs()), text, max, overlap)
    {
      if bufferChars + |text| + 1 > max && buffer != [] {
        Flush();
      }
      buffer := buffer + [text];
      bufferChars := bufferChars + |text| + 1;
    }

    /** One iteration of the inner loop: append, and flush at once when the buffer is full. */
    method PushPiece(text: string, max: nat, ghost rest: seq<Token>)
      requires Valid()
      modifies this
      ensures Valid()
      ensures Packed(Abs(), rest, max, overlap) == Packed(old(Abs()), [Piece(text)] + rest, max, overlap)
    {
      Push(text, max);
      if bufferChars >= max {
        Flush();
      }
      assert ([Piece(text)] + rest)[1..] == rest;
    }

    /** The inner loop: a sentence over the limit, cut every `max` characters. */
    method PushLong(sentence: string, max: nat)
      requires Valid() && 0 < max
      modifies this
      ensures Valid() && Abs() == Packed(old(Abs()), Cut(sentence, 0, max), max, overlap)
    {
      var i := 0;
      ghost var goal := Packed(Abs(), Cut(sentence, 0, max), max, overlap);
      while i < |sentence|
        invariant 0 <= i && Valid()
        invariant Packed(Abs(), Cut(sentence, i, max), max, overlap) == goal
      {
        PushPiece(sentence[i..Min(i + max, |sentence|)], max, Cut(sentence, i + max, max));
        i := i + max;
      }
    }

    /** The outer loop over the sentences. */
    method PushAll(sentences: seq<string>, max: nat)
      requires Valid() && 0 < max
      modifies this
      ensures Valid() && Abs() == Packed(old(Abs()), Tokens(sentences, max), max, overlap)
    {
      assert sentences[0..] == sentences;
      for k := 0 to |sentences|
        invariant Valid()
        invariant Packed(Abs(), Tokens(sentences[k..], max), max, overlap)
               == Packed(old(Abs()), Tokens(sentences, max), max, overlap)
      {
        var sentence := sentences[k];
        ghost var st, rest := Abs(), Tokens(sentences[k + 1..], max);
        assert Tokens(sentences[k..], max) == TokensOf(sentence, max) + rest;
        PackedConcat(st, TokensOf(sentence, max), rest, max, overlap);
        if |sentence| > max {
          PushLong(sentence, max);
          continue;
        }
        Push(sentence, max);
        PackedOne(st, Whole(sentence), max, overlap);
      }
    }
  }

  /** Yields `(index, body)` pairs; the indices count from 0 and the bodies are `Chunks`. */
  method ChunkText(text: string, maxTokens: nat, overlapTokens: int) returns (out: seq<(nat, string)>)
    requires 0 < maxTokens
    ensures |out| == |Chunks(text, maxTokens, overlapTokens)|
    ensures forall i :: 0 <= i < |out| ==> out[i] == (i, Chunks(text, maxTokens, overlapTokens)[i])
  {
    if text == "" || Strip(text) == "" {
      return [];
    }
    var max, overlap := maxTokens * CHARS_PER_TOKEN, overlapTokens * CHARS_PER_TOKEN;
    var p := new Packer(overlap);
    p.PushAll(Sentences(text), max);
    p.Flush();
    out := p.out;
  }

  lemma {:induction false} PackedConcat(st: State, a: seq<Token>, b: seq<Token>, max: nat, overlap: int)
    ensures Packed(st, a + b, max, overlap) == Packed(Packed(st, a, max, overlap), b, max, overlap)
    decreases a
  {
    if a == [] {
      assert a + b == b;
    } else {
      assert (a + b)[1..] == a[1..] + b;
      PackedConcat(Step(st, a[0], max, overlap), a[1..], b, max, overlap);
    }
  }

  lemma PackedOne(st: State, t: Token, max: nat, overlap: int)
    ensures Packed(st, [t], max, overlap) == Step(st, t, max, overlap)
  {
    assert [t][1..] == [];
  }
}
