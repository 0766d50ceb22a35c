/** Memory-tool paths: validation and canonicalisation, so that one file has one key. */
module ToolPaths {
  import opened Options
  import opened Sequences
  import opened Text
  import opened Whitespace

  const MEMORY_ROOT := "/memories"

  datatype Rejection = PathRequired | NotPermitted(path: string) | OutsideRoot(path: string)

  datatype Normalised = Canonical(path: string) | Rejected(why: Rejection)

  // ----- the two refusals -----

  /** `%2e`, `%2f` or `%5c` at position `i`, in either case. */
  predicate EncodedAt(s: string, i: nat)
    requires i + 3 <= |s|
  {
    && s[i] == '%'
    && (|| (s[i + 1] == '2' && (s[i + 2] == 'e' || s[i + 2] == 'E' || s[i + 2] == 'f' || s[i + 2] == 'F'))
        || (s[i + 1] == '5' && (s[i + 2] == 'c' || s[i + 2] == 'C')))
  }

  predicate Encoded(s: string) {
    exists i :: 0 <= i < |s| - 2 && EncodedAt(s, i)
  }

  /** The pattern `(^|/)\.\.(/|$)` at position `i`; `$` also matches before a final newline. */
  predicate TraversalAt(s: string, i: nat)
    requires i + 2 <= |s|
  {
    && (i == 0 || s[i - 1] == '/')
    && s[i] == '.' && s[i + 1] == '.'
    && (i + 2 == |s| || s[i + 2] == '/' || (i + 3 == |s| && s[i + 2] == '\n'))
  }

  predicate Traversal(s: string) {
    exists i :: 0 <= i < |s| - 1 && TraversalAt(s, i)
  }

  // ----- posixpath.normpath -----

  /** One component against the stack of components kept so far. */
  function Push(stack: seq<string>, comp: string, absolute: bool): seq<string> {
    if comp == "" || comp == "." then stack
    else if comp != ".." || (!absolute && stack == []) || (stack != [] && Last(stack) == "..") then stack + [comp]
    else if stack != [] then stack[..|stack| - 1]
    else stack
  }

  function Squash(comps: seq<string>, absolute: bool): seq<string> {
    if comps == [] then [] else Push(Squash(comps[..|comps| - 1], absolute), Last(comps), absolute)
  }

  /** POSIX keeps exactly two leading slashes apart; one, or three and more, are one. */
  function LeadingSlashes(path: string): nat {
    if "//" <= path && !("///" <= path) then 2 else if "/" <= path then 1 else 0
  }

  function NormPath(path: string): string {
    if path == "" then "."
    else
      var n := LeadingSlashes(path);
      var joined := Join(Squash(Split(path, '/'), n > 0), '/');
      var norm := (if n == 2 then "//" else if n == 1 then "/" else "") + joined;
      if norm == "" then "." else norm
  }

  /** `None` is a value that is not a string. */
  function Normalise(raw: Option<string>): Normalised {
    if raw.None? || Strip(raw.value) == "" then Rejected(PathRequired)
    else
      var path := Strip(raw.value);
      if Encoded(path) then Rejected(NotPermitted(path))
      else if Traversal(path) || '\\' in path then Rejected(NotPermitted(path))
      else
        var canonical := NormPath(path);
        if canonical != MEMORY_ROOT && !(MEMORY_ROOT + "/" <= canonical) then Rejected(OutsideRoot(path))
        else Canonical(canonical)
  }

  // ----- what is left of an accepted path -----

  function IsSegment(): string -> bool {
    (s: string) => s != "" && s != "."
  }

  /** The path's components without the empty ones and the `.`s. */
  function Segments(path: string): seq<string> {
    Filter(Split(path, '/'), IsSegment())
  }

  lemma {:induction false} SquashWithoutDots(comps: seq<string>, absolute: bool)
    requires ".." !in comps
    ensures Squash(comps, absolute) == Filter(comps, IsSegment())
  {
    if comps == [] {
    } else {
      var init := comps[..|comps| - 1];
      SquashWithoutDots(init, absolute);
      FilterSnoc(init, Last(comps), IsSegment());
      assert comps == init + [Last(comps)];
      assert Last(comps) in comps;
    }
  }

  lemma SplitAt(s: string, i: nat, sep: char)
    requires i < |s| && s[i] == sep
    ensures Split(s, sep) == Split(s[..i], sep) + Split(s[i + 1..], sep)
  {
    assert s == s[..i] + [sep] + s[i + 1..];
    SplitConcat(s[..i], s[i + 1..], sep);
  }

  /** The components around position `i`: where a component starts and ends. */
  lemma ComponentAt(s: string, i: nat, j: nat)
    requires i <= j <= |s| && '/' !in s[i..j]
    requires i == 0 || s[i - 1] == '/'
    requires j == |s| || s[j] == '/'
    ensures s[i..j] in Split(s, '/')
  {
    var head := s[..j];
    if i > 0 {
      SplitAt(head, i - 1, '/');
      assert head[i..] == s[i..j];
    } else {
      assert head == s[i..j];
    }
    SplitFree(s[i..j], '/');
    assert s[i..j] in Split(head, '/');
    if j < |s| {
      SplitAt(s, j, '/');
    } else {
      assert head == s;
    }
  }

  /** Where a component stands: from `i` to the next slash or the end. */
  ghost predicate StandsAt(s: string, p: string, i: nat) {
    && i + |p| <= |s| && s[i..i + |p|] == p
    && (i == 0 || s[i - 1] == '/')
    && (i + |p| == |s| || s[i + |p|] == '/')
  }

  lemma StandsLater(s: string, p: string, i: nat)
    requires s != "" && StandsAt(s[1..], p, i) && (i > 0 || s[0] == '/')
    ensures StandsAt(s, p, i + 1)
  {
    assert s[i + 1..i + 1 + |p|] == s[1..][i..i + |p|];
  }

  /** The first component stands at 0, and every later one behind a slash. */
  lemma {:induction false} ComponentsStand(s: string, k: nat) returns (i: nat)
    requires k < |Split(s, '/')|
    ensures StandsAt(s, Split(s, '/')[k], i) && (k == 0 <==> i == 0)
  {
    i := 0;
    if s == "" {
    } else {
      var rest := Split(s[1..], '/');
      if s[0] == '/' {
        if k > 0 {
          var j := ComponentsStand(s[1..], k - 1);
          StandsLater(s, rest[k - 1], j);
          i := j + 1;
        }
      } else {
        var j := ComponentsStand(s[1..], k);
        if k > 0 {
          StandsLater(s, rest[k], j);
          i := j + 1;
        } else {
          assert s[..1 + |rest[0]|] == [s[0]] + s[1..][..|rest[0]|];
        }
      }
    }
  }

  /** On a stripped path the traversal pattern matches exactly when some component is `..`. */
  lemma TraversalIsDotDot(s: string)
    requires s != "" && Last(s) != '\n'
    ensures Traversal(s) <==> ".." in Split(s, '/')
  {
    if Traversal(s) {
      var i :| 0 <= i < |s| - 1 && TraversalAt(s, i);
      assert s[i..i + 2] == "..";
      ComponentAt(s, i, i + 2);
    }
    if ".." in Split(s, '/') {
      var parts := Split(s, '/');
      var k :| 0 <= k < |parts| && parts[k] == "..";
      var i := ComponentsStand(s, k);
      assert s[i..i + 2][0] == s[i] && s[i..i + 2][1] == s[i + 1];
      assert TraversalAt(s, i);
    }
  }

  /** Components that survive: nonempty, not `.`, and without a slash. */
  ghost predicate Clean(parts: seq<string>) {
    forall i :: 0 <= i < |parts| ==> parts[i] != "" && parts[i] != "." && '/' !in parts[i]
  }

  lemma {:induction false} JoinStart(parts: seq<string>)
    requires Clean(parts)
    ensures parts == [] <==> Join(parts, '/') == ""
    ensures parts != [] ==> Join(parts, '/') != "" && Join(parts, '/')[0] == parts[0][0] != '/'
  {
    if parts == [] {
    } else {
      assert parts[0][0] in parts[0];
      if |parts| > 1 {
        JoinStart(parts[..|parts| - 1]);
      }
    }
  }

  lemma SegmentsAreClean(path: string)
    ensures Clean(Segments(path))
  {
    PartsAreFree(path, '/');
    FilterSound(Split(path, '/'), IsSegment());
    var segments := Segments(path);
    forall i | 0 <= i < |segments|
      ensures segments[i] != "" && segments[i] != "." && '/' !in segments[i]
    {
      assert segments[i] in segments;
    }
  }

  function Slashes(n: nat): string {
    if n == 2 then "//" else if n == 1 then "/" else ""
  }

  /** Without `..` the stack never pops. */
  lemma NormPathDrops(path: string)
    requires path != "" && ".." !in Split(path, '/')
    ensures var norm := Slashes(LeadingSlashes(path)) + Join(Segments(path), '/');
            NormPath(path) == if norm == "" then "." else norm
  {
    SquashWithoutDots(Split(path, '/'), LeadingSlashes(path) > 0);
  }

  /** Only a single leading slash can lead under the root. */
  lemma UnderRoot(n: nat, segments: seq<string>)
    requires Clean(segments) && n <= 2
    requires var norm := Slashes(n) + Join(segments, '/');
             var canonical := if norm == "" then "." else norm;
             canonical == MEMORY_ROOT || MEMORY_ROOT + "/" <= canonical
    ensures n == 1 && segments != []
  {
    JoinStart(segments);
    var norm := Slashes(n) + Join(segments, '/');
    assert norm[0] == '/' && norm[1] == 'm';
  }

  /** On every accepted path the whole normalisation is: drop empty and `.` components. */
  lemma NormalisationCollapses(raw: string)
    requires Normalise(Some(raw)).Canonical?
    ensures var path := Strip(raw);
            && Normalise(Some(raw)).path == "/" + Join(Segments(path), '/')
            && Segments(path) != [] && ".." !in Segments(path)
            && LeadingSlashes(path) == 1
  {
    var path := Strip(raw);
    assert Last(path) != '\n' by {
      StripFacts(raw);
    }
    TraversalIsDotDot(path);
    NormPathDrops(path);
    SegmentsAreClean(path);
    FilterSound(Split(path, '/'), IsSegment());
    UnderRoot(LeadingSlashes(path), Segments(path));
  }

  /** Two accepted paths are one file exactly when their remaining components agree. */
  lemma SameKeyIff(a: string, b: string)
    requires Normalise(Some(a)).Canonical? && Normalise(Some(b)).Canonical?
    ensures Normalise(Some(a)) == Normalise(Some(b)) <==> Segments(Strip(a)) == Segments(Strip(b))
  {
    NormalisationCollapses(a);
    NormalisationCollapses(b);
    var x, y := Segments(Strip(a)), Segments(Strip(b));
    SegmentsAreClean(Strip(a));
    SegmentsAreClean(Strip(b));
    assert forall p :: p in x ==> '/' !in p;
    assert forall p :: p in y ==> '/' !in p;
    SplitOfJoinFree(x, '/');
    SplitOfJoinFree(y, '/');
    assert Normalise(Some(a)).path[1..] == Join(x, '/') && Normalise(Some(b)).path[1..] == Join(y, '/');
  }

  // ----- idempotence -----

  lemma EncodedConcat(a: string, b: string)
    ensures Encoded(a + "/" + b) <==> Encoded(a) || Encoded(b)
  {
    var all := a + "/" + b;
    if Encoded(all) {
      var i :| 0 <= i < |all| - 2 && EncodedAt(all, i);
      if i + 3 <= |a| {
        assert EncodedAt(a, i);
      } else if i > |a| {
        assert all[i] == b[i - |a| - 1] && all[i + 1] == b[i - |a|] && all[i + 2] == b[i - |a| + 1];
        assert EncodedAt(b, i - |a| - 1);
      }
    }
    if Encoded(a) {
      var i :| 0 <= i < |a| - 2 && EncodedAt(a, i);
      assert EncodedAt(all, i);
    }
    if Encoded(b) {
      var i :| 0 <= i < |b| - 2 && EncodedAt(b, i);
      assert all[|a| + 1 + i] == b[i] && all[|a| + 2 + i] == b[i + 1] && all[|a| + 3 + i] == b[i + 2];
      assert EncodedAt(all, |a| + 1 + i);
    }
  }

  lemma {:induction false} EncodedJoin(parts: seq<string>)
    ensures Encoded(Join(parts, '/')) <==> exists p :: p in parts && Encoded(p)
  {
    if |parts| > 1 {
      var init := parts[..|parts| - 1];
      EncodedJoin(init);
      EncodedConcat(Join(init, '/'), Last(parts));
      assert parts == init + [Last(parts)];
      assert forall p :: p in parts <==> p in init || p == Last(parts);
    } else if parts != [] {
      assert parts == [parts[0]];
    }
  }

  lemma CanonicalIsNotEncoded(path: string)
    requires !Encoded(path)
    ensures !Encoded("/" + Join(Segments(path), '/'))
  {
    JoinOfSplit(path, '/');
    FilterSound(Split(path, '/'), IsSegment());
    EncodedJoin(Split(path, '/'));
    EncodedJoin(Segments(path));
    EncodedConcat("", Join(Segments(path), '/'));
    assert "" + "/" + Join(Segments(path), '/') == "/" + Join(Segments(path), '/');
  }

  lemma {:induction false} JoinChars(parts: seq<string>, c: char)
    requires c in Join(parts, '/')
    ensures c == '/' || exists p :: p in parts && c in p
  {
    if |parts| > 1 {
      var init := parts[..|parts| - 1];
      if c in Join(init, '/') {
        JoinChars(init, c);
      } else {
        assert Last(parts) in parts;
      }
    } else if parts != [] {
      assert parts[0] in parts;
    }
  }

  lemma {:induction false} DroppingShortens(parts: seq<string>, p: string -> bool)
    ensures |Join(Filter(parts, p), '/')| <= |Join(parts, '/')|
  {
    if parts == [] {
    } else {
      var init := parts[..|parts| - 1];
      var kept := Filter(init, p);
      DroppingShortens(init, p);
      assert parts == init + [Last(parts)];
      FilterSnoc(init, Last(parts), p);
      if p(Last(parts)) {
        assert (kept + [Last(parts)])[..|kept|] == kept;
      }
    }
  }

  lemma CanonicalComponents(segments: seq<string>)
    requires segments != [] && Clean(segments)
    ensures var c := "/" + Join(segments, '/');
            Split(c, '/') == [""] + segments && Segments(c) == segments && LeadingSlashes(c) == 1
  {
    var c := "/" + Join(segments, '/');
    assert Split(c, '/') == [""] + segments by {
      assert c[1..] == Join(segments, '/');
      assert forall p :: p in segments ==> '/' !in p;
      SplitOfJoinFree(segments, '/');
    }
    assert Segments(c) == segments by {
      assert ([""] + segments)[1..] == segments;
      FilterAll(segments, IsSegment());
    }
    JoinStart(segments);
    assert c[1] != '/';
  }

  lemma CanonicalHasNoBackslash(path: string)
    requires '\\' !in path
    ensures '\\' !in "/" + Join(Segments(path), '/')
  {
    PartsAreFree(path, '/');
    FilterSound(Split(path, '/'), IsSegment());
    if '\\' in Join(Segments(path), '/') {
      JoinChars(Segments(path), '\\');
    }
  }

  /** A canonical path that ends in ink passes every check again, unchanged. */
  lemma CanonicalStays(raw: string)
    requires Normalise(Some(raw)).Canonical? && !IsSpace(Last(Normalise(Some(raw)).path))
    ensures Normalise(Some(Normalise(Some(raw)).path)) == Normalise(Some(raw))
  {
    var path, c := Strip(raw), Normalise(Some(raw)).path;
    var segments := Segments(path);
    NormalisationCollapses(raw);
    SegmentsAreClean(path);
    CanonicalComponents(segments);
    assert Strip(c) == c by {
      StripTrimmed(c);
    }
    CanonicalIsNotEncoded(path);
    CanonicalHasNoBackslash(path);
    TraversalIsDotDot(c);
    NormPathDrops(c);
  }

  /** Re-normalising never lengthens. */
  lemma CollapseShortens(t: string)
    requires t != "" && t[0] == '/'
    ensures |"/" + Join(Segments(t), '/')| <= |t|
  {
    var rest := Split(t[1..], '/');
    FilterConcat([""], rest, IsSegment());
    FilterNone([""], IsSegment());
    assert [] + Filter(rest, IsSegment()) == Filter(rest, IsSegment());
    DroppingShortens(rest, IsSegment());
    JoinOfSplit(t[1..], '/');
  }

  /** Canonicalising a second time changes nothing exactly when the key does not end in whitespace. */
  lemma IdempotentIff(raw: string)
    requires Normalise(Some(raw)).Canonical?
    ensures var c := Normalise(Some(raw)).path;
            Normalise(Some(c)) == Canonical(c) <==> !IsSpace(Last(c))
  {
    var c := Normalise(Some(raw)).path;
    if !IsSpace(Last(c)) {
      CanonicalStays(raw);
    } else {
      StripShrinks(c);
      if Normalise(Some(c)) == Canonical(c) {
        NormalisationCollapses(c);
        CollapseShortens(Strip(c));
      }
    }
  }

  lemma StripShrinks(s: string)
    requires s != "" && IsSpace(Last(s))
    ensures |Strip(s)| < |s|
  {
    StripFacts(s);
    LStripFacts(s);
    RStripFacts(LStrip(s));
  }

  // ----- which keys there are -----

  /** Components of a path under the root, none of which the tool objects to. */
  ghost predicate Plain(segments: seq<string>) {
    && segments != [] && segments[0] == "memories" && Clean(segments) && ".." !in segments
    && forall p :: p in segments ==> !Encoded(p) && '\\' !in p
  }

  function KeyOf(segments: seq<string>): string {
    "/" + Join(segments, '/')
  }

  lemma KeyIsPermitted(segments: seq<string>)
    requires Plain(segments)
    ensures !Encoded(KeyOf(segments) + "/") && '\\' !in KeyOf(segments) + "/"
  {
    EncodedJoin(segments);
    EncodedConcat("", Join(segments, '/'));
    assert "" + "/" + Join(segments, '/') == KeyOf(segments);
    EncodedConcat(KeyOf(segments), "");
    assert KeyOf(segments) + "/" + "" == KeyOf(segments) + "/";
    if '\\' in Join(segments, '/') {
      JoinChars(segments, '\\');
    }
  }

  lemma KeyIsUnderRoot(segments: seq<string>)
    requires Plain(segments)
    ensures KeyOf(segments) == MEMORY_ROOT || MEMORY_ROOT + "/" <= KeyOf(segments)
  {
    if |segments| > 1 {
      JoinCons("memories", segments[1..], '/');
      assert segments == ["memories"] + segments[1..];
    } else {
      assert segments == ["memories"];
    }
  }

  lemma SlashedComponents(segments: seq<string>)
    requires Plain(segments)
    ensures var raw := KeyOf(segments) + "/";
            ".." !in Split(raw, '/') && Segments(raw) == segments && LeadingSlashes(raw) == 1
  {
    var raw := KeyOf(segments) + "/";
    CanonicalComponents(segments);
    assert KeyOf(segments) + ['/'] + "" == raw;
    SplitConcat(KeyOf(segments), "", '/');
    assert Split("", '/') == [""];
    FilterSnoc(Split(KeyOf(segments), '/'), "", IsSegment());
  }

  /** Every such path is the key of some accepted path: itself with a slash after it. */
  lemma KeyIsReached(segments: seq<string>)
    requires Plain(segments)
    ensures Normalise(Some(KeyOf(segments) + "/")) == Canonical(KeyOf(segments))
  {
    var raw := KeyOf(segments) + "/";
    KeyIsPermitted(segments);
    KeyIsUnderRoot(segments);
    SlashedComponents(segments);
    StripTrimmed(raw);
    TraversalIsDotDot(raw);
    NormPathDrops(raw);
  }

  /** A name that the tool takes as it is. */
  ghost predicate PlainName(name: string) {
    name != "" && name != "." && name != ".." && '/' !in name && '\\' !in name && !Encoded(name)
  }

  /** The key of a file of that name directly under the root. */
  function InRoot(name: string): string {
    MEMORY_ROOT + "/" + name
  }

  lemma MemoriesIsPlain()
    ensures PlainName("memories")
  {}

  lemma InRootIsReached(name: string)
    requires PlainName(name)
    ensures Normalise(Some(InRoot(name) + "/")) == Canonical(InRoot(name))
  {
    var segments := ["memories", name];
    MemoriesIsPlain();
    assert Plain(segments);
    assert KeyOf(segments) == InRoot(name) by {
      JoinCons("memories", [name], '/');
      assert ["memories"] + [name] == segments;
    }
    KeyIsReached(segments);
  }

  /** A key that ends in whitespace is reached, and is not a fixed point. */
  lemma SpaceEndedKeyMoves(name: string)
    requires PlainName(name) && IsSpace(Last(name))
    ensures Normalise(Some(InRoot(name) + "/")) == Canonical(InRoot(name)) != Normalise(Some(InRoot(name)))
  {
    InRootIsReached(name);
    assert Last(InRoot(name)) == Last(name);
    IdempotentIff(InRoot(name) + "/");
  }

  /** `/memories/a /` is accepted, and its key, `/memories/a `, is such a one. */
  lemma SpaceEndedKey()
    ensures var key := "/memories/a ";
            Normalise(Some(key + "/")) == Canonical(key) != Normalise(Some(key))
  {
    var name := "a ";
    SpaceEndedKeyMoves(name);
    assert InRoot(name) == "/memories/a ";
  }

  // ----- which paths are accepted -----

  /** A percent sign followed by 2e, 2f or 5c, the letters in either case. */
  ghost predicate HasEncoding(path: string) {
    exists i, j :: 0 <= i && j == i + 2 && j < |path| && path[i] == '%' && Encodes(path[i + 1], path[j])
  }

  predicate Encodes(a: char, b: char) {
    [a, b] in ["2e", "2E", "2f", "2F", "5c", "5C"]
  }

  lemma EncodedIff(path: string)
    ensures Encoded(path) <==> HasEncoding(path)
  {
    if Encoded(path) {
      var i :| 0 <= i < |path| - 2 && EncodedAt(path, i);
      assert Encodes(path[i + 1], path[i + 2]) by {
        EncodesIff(path[i + 1], path[i + 2]);
      }
    }
    if HasEncoding(path) {
      var i, j :| 0 <= i && j == i + 2 && j < |path| && path[i] == '%' && Encodes(path[i + 1], path[j]);
      EncodesIff(path[i + 1], path[j]);
      assert EncodedAt(path, i);
    }
  }

  lemma EncodesIff(a: char, b: char)
    ensures Encodes(a, b) <==> (a == '2' && (b == 'e' || b == 'E' || b == 'f' || b == 'F')) || (a == '5' && (b == 'c' || b == 'C'))
  {
    var pairs := ["2e", "2E", "2f", "2F", "5c", "5C"];
    assert forall p :: p in pairs ==> |p| == 2;
    if Encodes(a, b) {
      var p :| p in pairs && [a, b] == p;
      assert p[0] == a && p[1] == b;
    }
    if a == '2' && b == 'e' {
      assert [a, b] == pairs[0];
    } else if a == '2' && b == 'E' {
      assert [a, b] == pairs[1];
    } else if a == '2' && b == 'f' {
      assert [a, b] == pairs[2];
    } else if a == '2' && b == 'F' {
      assert [a, b] == pairs[3];
    } else if a == '5' && b == 'c' {
      assert [a, b] == pairs[4];
    } else if a == '5' && b == 'C' {
      assert [a, b] == pairs[5];
    }
  }

  /** One leading slash, or more than two. */
  predicate Rooted(path: string) {
    "/" <= path && ("//" <= path ==> "///" <= path)
  }

  lemma UnderRootIff(path: string, segments: seq<string>)
    requires path != "" && segments == Segments(path) && ".." !in Split(path, '/')
    ensures var c := NormPath(path);
            (c == MEMORY_ROOT || MEMORY_ROOT + "/" <= c) <==> Rooted(path) && segments != [] && segments[0] == "memories"
  {
    var n, c := LeadingSlashes(path), NormPath(path);
    NormPathDrops(path);
    SegmentsAreClean(path);
    JoinStart(segments);
    if c == MEMORY_ROOT || MEMORY_ROOT + "/" <= c {
      UnderRoot(n, segments);
      FirstSegment(segments);
    }
    if Rooted(path) && segments != [] && segments[0] == "memories" {
      StartsWithMemories(segments);
    }
  }

  lemma StartsWithMemories(segments: seq<string>)
    requires segments != [] && segments[0] == "memories"
    ensures KeyOf(segments) == MEMORY_ROOT || MEMORY_ROOT + "/" <= KeyOf(segments)
  {
    if |segments| > 1 {
      JoinCons("memories", segments[1..], '/');
      assert segments == ["memories"] + segments[1..];
    } else {
      assert segments == ["memories"];
    }
  }

  /** Of a path under the root the first component is the root's name. */
  lemma FirstSegment(segments: seq<string>)
    requires segments != [] && Clean(segments)
    requires KeyOf(segments) == MEMORY_ROOT || MEMORY_ROOT + "/" <= KeyOf(segments)
    ensures segments[0] == "memories"
  {
    var root := ["memories"];
    MemoriesIsPlain();
    assert Clean(root) && KeyOf(root) == MEMORY_ROOT;
    UnderIff(segments, root);
    CanonicalComponents(segments);
    CanonicalComponents(root);
    if KeyOf(segments) == MEMORY_ROOT {
      assert ([""] + segments)[1] == ([""] + root)[1];
    }
  }

  /**
   * A path is accepted if and only if, stripped, it is not empty, holds no encoded dot, slash or backslash and no
   * backslash, starts with one slash or more than two, has no `..` component, and its first other component is
   * the root's name.
   */
  lemma AcceptedIff(raw: string)
    ensures var path := Strip(raw);
            Normalise(Some(raw)).Canonical? <==>
            && path != "" && !HasEncoding(path) && '\\' !in path && Rooted(path)
            && ".." !in Split(path, '/') && Segments(path) != [] && Segments(path)[0] == "memories"
  {
    var path := Strip(raw);
    if path != "" {
      assert Last(path) != '\n' by {
        StripFacts(raw);
      }
      EncodedIff(path);
      TraversalIsDotDot(path);
      if ".." !in Split(path, '/') {
        UnderRootIff(path, Segments(path));
      }
    }
  }

  /** Why a path is refused: nothing there; something in it that is not permitted; or a place outside the root. */
  lemma RefusedFor(raw: Option<string>)
    ensures raw.None? || Strip(raw.value) == "" ==> Normalise(raw) == Rejected(PathRequired)
    ensures raw.Some? && Strip(raw.value) != "" ==>
              var path := Strip(raw.value);
              if HasEncoding(path) || '\\' in path || ".." in Split(path, '/') then Normalise(raw) == Rejected(NotPermitted(path))
              else Normalise(raw).Canonical? || Normalise(raw) == Rejected(OutsideRoot(path))
  {
    if raw.Some? && Strip(raw.value) != "" {
      var path := Strip(raw.value);
      assert Last(path) != '\n' by {
        StripFacts(raw.value);
      }
      EncodedIff(path);
      TraversalIsDotDot(path);
    }
  }

  // ----- directories -----

  /** One key lies under another, as a directory, exactly when its components continue the other's. */
  lemma UnderIff(a: seq<string>, b: seq<string>)
    requires a != [] && b != [] && Clean(a) && Clean(b)
    ensures KeyOf(b) + "/" <= KeyOf(a) <==> b < a
  {
    assert forall p :: p in a ==> '/' !in p;
    assert forall p :: p in b ==> '/' !in p;
    if b < a {
      var rest := a[|b|..];
      assert a == b + rest && rest != [];
      JoinBehind(b, rest);
    }
    if KeyOf(b) + "/" <= KeyOf(a) {
      UnderContinues(a, b);
    }
  }

  lemma {:induction false} UnderContinues(a: seq<string>, b: seq<string>)
    requires a != [] && b != [] && Clean(a) && Clean(b) && KeyOf(b) + "/" <= KeyOf(a)
    ensures b < a
  {
    var x, y := KeyOf(a), KeyOf(b);
    var rest := x[|y| + 1..];
    assert x == y + ['/'] + rest;
    SplitConcat(y, rest, '/');
    assert Split(x, '/') == [""] + a by {
      CanonicalComponents(a);
    }
    assert Split(y, '/') == [""] + b by {
      CanonicalComponents(b);
    }
    SameBehindFirst(a, b, Split(rest, '/'));
  }

  lemma SameBehindFirst(a: seq<string>, b: seq<string>, more: seq<string>)
    requires [""] + a == [""] + b + more && more != []
    ensures b < a
  {
    assert a == ([""] + a)[1..];
    assert ([""] + b + more)[1..] == b + more;
  }

  lemma {:induction false} JoinBehind(b: seq<string>, rest: seq<string>)
    requires b != [] && rest != []
    ensures Join(b + rest, '/') == Join(b, '/') + ['/'] + Join(rest, '/')
  {
    if |b| == 1 {
      assert b == [b[0]];
      JoinCons(b[0], rest, '/');
    } else {
      var more := b[1..];
      JoinBehind(more, rest);
      assert Join(b + rest, '/') == b[0] + ['/'] + Join(more + rest, '/') by {
        JoinCons(b[0], more + rest, '/');
        assert b + rest == [b[0]] + (more + rest);
      }
      assert Join(b, '/') == b[0] + ['/'] + Join(more, '/') by {
        JoinCons(b[0], more, '/');
        assert b == [b[0]] + more;
      }
      Regroup(b[0], Join(more, '/'), Join(rest, '/'));
    }
  }

  lemma Regroup(x: string, y: string, z: string)
    ensures x + ['/'] + (y + ['/'] + z) == (x + ['/'] + y) + ['/'] + z
  {}
}
