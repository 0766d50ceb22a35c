/** What the memory tool shows of a file and how it edits one: numbered views, windows, inserts and
    replacements. Line numbers read from a view are what the next edit is addressed by. */
module ToolViews {
  import opened Options
  import opened Sequences
  import opened Text
  import opened Whitespace

  function Lines(body: string): (lines: seq<string>)
    ensures lines != []
  {
    Split(body, '\n')
  }

  // ----- numbering -----

  function Digit(d: nat): char
    requires d < 10
  {
    ('0' as int + d) as char
  }

  function Digits(n: nat): string {
    if n < 10 then [Digit(n)] else Digits(n / 10) + [Digit(n % 10)]
  }

  function Blanks(n: nat): string {
    seq(n, _ => ' ')
  }

  /** `{i:6d}`: six wide, right-aligned, wider if it has to be. */
  function Padded(n: nat): string {
    var d := Digits(n);
    if |d| < 6 then Blanks(6 - |d|) + d else d
  }

  function NumberedRow(n: nat, line: string): string {
    Padded(n) + "\t" + line
  }

  function NumberedRows(lines: seq<string>, first: nat): seq<string> {
    seq(|lines|, i requires 0 <= i < |lines| => NumberedRow(first + i, lines[i]))
  }

  function Numbered(body: string, first: nat): string {
    Join(NumberedRows(Lines(body), first), '\n')
  }

  // ----- reading a view back -----

  predicate IsDigits(s: string) {
    forall i :: 0 <= i < |s| ==> '0' <= s[i] <= '9'
  }

  function Value(digits: string): nat
    requires IsDigits(digits)
  {
    if digits == "" then 0
    else 10 * Value(digits[..|digits| - 1]) + (Last(digits) as int - '0' as int)
  }

  function BeforeTab(row: string): string {
    if row == "" || row[0] == '\t' then "" else [row[0]] + BeforeTab(row[1..])
  }

  /** A row read back: the number in front of the first tab and the text behind it. */
  function ReadRow(row: string): (nat, string) {
    var head := BeforeTab(row);
    var number := LStrip(head);
    (if IsDigits(number) then Value(number) else 0, if |head| < |row| then row[|head| + 1..] else "")
  }

  lemma {:induction false} DigitsFacts(n: nat)
    ensures Digits(n) != "" && IsDigits(Digits(n)) && Value(Digits(n)) == n
  {
    if n >= 10 {
      DigitsFacts(n / 10);
      var d := Digits(n);
      assert d[..|d| - 1] == Digits(n / 10);
    } else {
      assert [Digit(n)][..0] == "";
    }
  }

  lemma {:induction false} BeforeFirstTab(head: string, rest: string)
    requires '\t' !in head
    ensures BeforeTab(head + "\t" + rest) == head
  {
    var row := head + "\t" + rest;
    if head == "" {
    } else {
      assert head[0] in head;
      assert row[1..] == head[1..] + "\t" + rest;
      BeforeFirstTab(head[1..], rest);
    }
  }

  lemma {:induction false} StripBlanks(n: nat, digits: string)
    requires digits != "" && IsDigits(digits)
    ensures LStrip(Blanks(n) + digits) == digits
  {
    if n > 0 {
      assert (Blanks(n) + digits)[1..] == Blanks(n - 1) + digits;
      StripBlanks(n - 1, digits);
    } else {
      assert Blanks(0) + digits == digits;
    }
  }

  lemma PaddedFacts(n: nat)
    ensures LStrip(Padded(n)) == Digits(n)
    ensures '\t' !in Padded(n) && '\n' !in Padded(n)
  {
    var d, p := Digits(n), Padded(n);
    DigitsFacts(n);
    forall c | c in p
      ensures c != '\t' && c != '\n'
    {
      var i :| 0 <= i < |p| && p[i] == c;
      assert |d| < 6 && i >= 6 - |d| ==> p[i] == d[i - (6 - |d|)];
    }
    var blanks := if |d| < 6 then 6 - |d| else 0;
    assert p == Blanks(blanks) + d;
    StripBlanks(blanks, d);
  }

  function Pow10(k: nat): nat {
    if k == 0 then 1 else 10 * Pow10(k - 1)
  }

  lemma {:induction false} DigitsAreFew(n: nat, k: nat)
    requires 0 < k && n < Pow10(k)
    ensures |Digits(n)| <= k
  {
    if n < 10 {
    } else {
      assert k > 1 && n / 10 < Pow10(k - 1);
      DigitsAreFew(n / 10, k - 1);
    }
  }

  /** Reading back a numbered row gives its number and its line; up to a million the number takes six places. */
  lemma RowReadsBack(n: nat, line: string)
    ensures ReadRow(NumberedRow(n, line)) == (n, line)
    ensures n < 1_000_000 ==> |NumberedRow(n, line)| == 6 + 1 + |line|
  {
    if n < 1_000_000 {
      DigitsAreFew(n, 6);
    }
    PaddedFacts(n);
    DigitsFacts(n);
    BeforeFirstTab(Padded(n), line);
    var row := NumberedRow(n, line);
    assert row[|Padded(n)| + 1..] == line;
  }

  /** The rows of a view are the numbered lines: no row runs into the next. */
  lemma ViewRows(body: string, first: nat)
    ensures Lines(Numbered(body, first)) == NumberedRows(Lines(body), first)
  {
    var rows := NumberedRows(Lines(body), first);
    PartsAreFree(body, '\n');
    forall r | r in rows
      ensures '\n' !in r
    {
      var i :| 0 <= i < |rows| && rows[i] == r;
      PaddedFacts(first + i);
      assert Lines(body)[i] in Lines(body);
    }
    SplitOfJoinFree(rows, '\n');
  }

  /** Every view can be read back: row `i` holds the number `first + i` and line `i` of the text shown. */
  lemma ViewReadsBack(body: string, first: nat, i: nat)
    requires i < |Lines(body)|
    ensures |Lines(Numbered(body, first))| == |Lines(body)|
    ensures ReadRow(Lines(Numbered(body, first))[i]) == (first + i, Lines(body)[i])
  {
    ViewRows(body, first);
    var rows := NumberedRows(Lines(body), first);
    assert rows[i] == NumberedRow(first + i, Lines(body)[i]);
    RowReadsBack(first + i, Lines(body)[i]);
  }

  // ----- windows -----

  /** `view_range`, 1-indexed with -1 for the end; an empty range shows the whole file. */
  function Window(body: string, start: int, end: int): (string, nat) {
    var lines := Lines(body);
    var from := Max(1, start);
    var to := if end == -1 then |lines| else Min(end, |lines|);
    if from > to then (body, 1) else (Join(lines[from - 1..to], '\n'), from)
  }

  /** A windowed view is exactly the rows `from..to` of the full view, with their own numbers. */
  lemma WindowIsAbsolute(body: string, start: int, end: int)
    ensures var (text, first) := Window(body, start, end);
            var full := Lines(Numbered(body, 1));
            && 1 <= first <= |full| && first - 1 + |Lines(text)| <= |full|
            && Lines(Numbered(text, first)) == full[first - 1..first - 1 + |Lines(text)|]
    ensures var from, to := Max(1, start), if end == -1 then |Lines(body)| else Min(end, |Lines(body)|);
            var (text, first) := Window(body, start, end);
            if from <= to then first == from && |Lines(text)| == to - from + 1
            else first == 1 && text == body
  {
    var from, to := Max(1, start), if end == -1 then |Lines(body)| else Min(end, |Lines(body)|);
    ViewRows(body, 1);
    if from <= to {
      RangeOfView(body, from, to);
    } else {
      var full := Lines(Numbered(body, 1));
      assert full[0..|full|] == full;
    }
  }

  lemma RangeOfView(body: string, from: nat, to: nat)
    requires 1 <= from <= to <= |Lines(body)|
    ensures var text := Join(Lines(body)[from - 1..to], '\n');
            && |Lines(text)| == to - from + 1
            && Lines(Numbered(text, from)) == NumberedRows(Lines(body), 1)[from - 1..to]
  {
    var shown := Lines(body)[from - 1..to];
    assert Lines(Join(shown, '\n')) == shown by {
      PartsAreFree(body, '\n');
      SplitOfJoinFree(shown, '\n');
    }
    ViewRows(Join(shown, '\n'), from);
    NumberedSlice(Lines(body), from, to);
  }

  lemma NumberedSlice(lines: seq<string>, from: nat, to: nat)
    requires 1 <= from <= to <= |lines|
    ensures NumberedRows(lines[from - 1..to], from) == NumberedRows(lines, 1)[from - 1..to]
  {}

  // ----- insert -----

  function RStripNewlines(s: string): string {
    if s != "" && Last(s) == '\n' then RStripNewlines(s[..|s| - 1]) else s
  }

  /** Only newlines go, all of those at the end. */
  lemma {:induction false} RStripNewlinesFacts(s: string)
    ensures var r := RStripNewlines(s);
            && r <= s && (forall k :: |r| <= k < |s| ==> s[k] == '\n')
            && (r != "" ==> Last(r) != '\n')
  {
    if s == "" || Last(s) != '\n' {
    } else {
      RStripNewlinesFacts(s[..|s| - 1]);
    }
  }

  function Inserted(body: string, at: nat, text: string): string
    requires at <= |Lines(body)|
  {
    var lines := Lines(body);
    Join(lines[..at] + [RStripNewlines(text)] + lines[at..], '\n')
  }

  /** Lines before the insertion stay, the inserted lines follow, and the rest shift by their number. */
  lemma InsertShiftsLines(body: string, at: nat, text: string)
    requires at <= |Lines(body)|
    ensures var lines, added := Lines(body), Lines(RStripNewlines(text));
            Lines(Inserted(body, at, text)) == lines[..at] + added + lines[at..]
  {
    var lines, piece := Lines(body), RStripNewlines(text);
    PartsAreFree(body, '\n');
    SplitOfJoin(lines[..at] + [piece] + lines[at..], '\n');
    SplitAllConcat(lines[..at] + [piece], lines[at..], '\n');
    SplitAllConcat(lines[..at], [piece], '\n');
    SplitAllFree(lines[..at], '\n');
    SplitAllFree(lines[at..], '\n');
    assert [piece][..0] == [] && SplitAll([piece], '\n') == [] + Split(piece, '\n') == Split(piece, '\n');
  }

  lemma NumberedConcat(a: seq<string>, b: seq<string>, first: nat)
    ensures NumberedRows(a + b, first) == NumberedRows(a, first) + NumberedRows(b, first + |a|)
  {}

  lemma NumberedInsert(lines: seq<string>, added: seq<string>, at: nat)
    requires at <= |lines|
    ensures NumberedRows(lines[..at] + added + lines[at..], 1)
            == NumberedRows(lines[..at], 1) + NumberedRows(added, 1 + at) + NumberedRows(lines[at..], 1 + at + |added|)
  {
    var head, tail := lines[..at], lines[at..];
    NumberedConcat(head + added, tail, 1);
    NumberedConcat(head, added, 1);
  }

  lemma RowsOfInserted(body: string, at: nat, text: string, lines: seq<string>, added: seq<string>)
    requires lines == Lines(body) && added == Lines(RStripNewlines(text))
    requires at <= |lines|
    ensures Lines(Numbered(Inserted(body, at, text), 1)) == NumberedRows(lines[..at] + added + lines[at..], 1)
  {
    InsertShiftsLines(body, at, text);
    ViewRows(Inserted(body, at, text), 1);
  }

  /**
   * Seen through views: the rows up to the insertion point are those of the old view, the added lines
   * follow, and the later rows are the old ones renumbered by the number of lines added.
   */
  lemma InsertSeenThroughViews(
    body: string, at: nat, text: string, lines: seq<string>, added: seq<string>)
    requires lines == Lines(body) && added == Lines(RStripNewlines(text))
    requires at <= |lines|
    ensures var before, after := Lines(Numbered(body, 1)), Lines(Numbered(Inserted(body, at, text), 1));
            && at <= |before|
            && after == before[..at] + NumberedRows(added, 1 + at) + NumberedRows(lines[at..], 1 + at + |added|)
  {
    var before, after := Lines(Numbered(body, 1)), Lines(Numbered(Inserted(body, at, text), 1));
    assert before == NumberedRows(lines, 1) by {
      ViewRows(body, 1);
    }
    assert before[..at] == NumberedRows(lines[..at], 1) by {
      NumberedPrefix(lines, at);
    }
    assert after == NumberedRows(lines[..at] + added + lines[at..], 1) by {
      RowsOfInserted(body, at, text, lines, added);
    }
    NumberedInsert(lines, added, at);
  }

  lemma NumberedPrefix(lines: seq<string>, at: nat)
    requires at <= |lines|
    ensures NumberedRows(lines, 1)[..at] == NumberedRows(lines[..at], 1)
  {}

  // ----- str_replace -----

  predicate OccursAt(body: string, needle: string, i: nat) {
    i + |needle| <= |body| && body[i..i + |needle|] == needle
  }

  /** `str.find` from `i` on. */
  function FindFrom(body: string, needle: string, i: nat): Option<nat>
    decreases |body| - i
  {
    if i >= |body| then (if OccursAt(body, needle, i) then Some(i) else None)
    else if OccursAt(body, needle, i) then Some(i)
    else FindFrom(body, needle, i + 1)
  }

  /** `str.count`: occurrences that do not overlap, taken from the left. */
  function Count(body: string, needle: string, i: nat): nat
    requires needle != ""
    decreases |body| - i
  {
    FindFacts(body, needle, i);
    match FindFrom(body, needle, i)
    case None => 0
    case Some(j) => 1 + Count(body, needle, j + |needle|)
  }

  lemma {:induction false} FindFacts(body: string, needle: string, i: nat)
    ensures var f := FindFrom(body, needle, i);
            && (f.Some? ==> i <= f.value && OccursAt(body, needle, f.value)
                            && forall k :: i <= k < f.value ==> !OccursAt(body, needle, k))
            && (f.None? ==> forall k :: i <= k ==> !OccursAt(body, needle, k))
    decreases |body| - i
  {
    if i >= |body| || OccursAt(body, needle, i) {
    } else {
      FindFacts(body, needle, i + 1);
    }
  }

  /** `str.replace(old, new, 1)`. */
  function ReplaceFirst(body: string, needle: string, replacement: string): string
    requires needle != ""
  {
    FindFacts(body, needle, 0);
    match FindFrom(body, needle, 0)
    case None => body
    case Some(j) => body[..j] + replacement + body[j + |needle|..]
  }

  /** `edited` is `body` with the first occurrence of `needle`, and nothing else, replaced by `with`. */
  ghost predicate Replaces(body: string, needle: string, with: string, edited: string) {
    exists pre, post :: FirstAt(body, needle, pre, post) && edited == pre + with + post
  }

  /** The body is cut around the first occurrence. */
  ghost predicate FirstAt(body: string, needle: string, pre: string, post: string) {
    body == pre + needle + post && forall k :: 0 <= k < |pre| ==> !OccursAt(body, needle, k)
  }

  /** What a replacement computes: the text before the first occurrence, the new text, the text after it. */
  lemma {:induction false} ReplacedText(body: string, needle: string, with: string, pre: string, post: string)
    requires needle != "" && FirstAt(body, needle, pre, post)
    ensures ReplaceFirst(body, needle, with) == pre + with + post
  {
    FindFacts(body, needle, 0);
    assert body[|pre|..|pre| + |needle|] == needle;
    assert OccursAt(body, needle, |pre|);
    assert FindFrom(body, needle, 0) == Some(|pre|);
    assert body[..|pre|] == pre && body[|pre| + |needle|..] == post;
  }

  lemma {:induction false} ReplaceFirstReplaces(body: string, needle: string, with: string)
    requires needle != "" && FindFrom(body, needle, 0).Some?
    ensures Replaces(body, needle, with, ReplaceFirst(body, needle, with))
  {
    FindFacts(body, needle, 0);
    var j := FindFrom(body, needle, 0).value;
    var pre, post := body[..j], body[j + |needle|..];
    assert body == pre + body[j..j + |needle|] + post;
    assert FirstAt(body, needle, pre, post);
  }

  /**
   * Lines before the edit stay, lines after it stay and shift by what the edited lines gained: only the lines that
   * the replaced text touches change.
   */
  lemma ReplaceShiftsLines(pre: string, needle: string, with: string, post: string)
    ensures var p, q := Lines(pre), Lines(post);
            var before, head, tail, after := p[..|p| - 1], Last(p), q[0], q[1..];
            && Lines(pre + needle + post) == before + Lines(head + needle + tail) + after
            && Lines(pre + with + post) == before + Lines(head + with + tail) + after
  {
    LinesAround(pre, needle, post);
    LinesAround(pre, with, post);
  }

  lemma LinesAround(pre: string, mid: string, post: string)
    ensures var p, q := Lines(pre), Lines(post);
            Lines(pre + mid + post) == p[..|p| - 1] + Lines(Last(p) + mid + q[0]) + q[1..]
  {
    var p, q := Lines(pre), Lines(post);
    PartsAreFree(pre, '\n');
    PartsAreFree(post, '\n');
    assert Last(p) in p && q[0] in q;
    LinesBefore(pre, Last(p), mid + post);
    assert pre + mid + post == pre + (mid + post);
    LinesAfter(Last(p) + mid, post, q[0]);
    assert Last(p) + (mid + post) == Last(p) + mid + post;
  }

  lemma GlueBefore(x: seq<string>, y: seq<string>)
    requires x != [] && y != []
    ensures Glue(x, y) == x[..|x| - 1] + Glue([Last(x)], y)
  {
    assert [Last(x)][..0] == [];
  }

  lemma GlueAfter(x: seq<string>, y: seq<string>)
    requires x != [] && y != []
    ensures Glue(x, y) == Glue(x, [y[0]]) + y[1..]
  {
    assert [y[0]][1..] == [];
  }

  lemma {:induction false} LinesBefore(pre: string, head: string, rest: string)
    requires head == Last(Lines(pre)) && '\n' !in head
    ensures Lines(pre + rest) == Lines(pre)[..|Lines(pre)| - 1] + Lines(head + rest)
  {
    SplitAppend(pre, rest, '\n');
    SplitAppend(head, rest, '\n');
    SplitFree(head, '\n');
    GlueBefore(Lines(pre), Lines(rest));
  }

  lemma {:induction false} LinesAfter(front: string, post: string, tail: string)
    requires tail == Lines(post)[0] && '\n' !in tail
    ensures Lines(front + post) == Lines(front + tail) + Lines(post)[1..]
  {
    SplitAppend(front, post, '\n');
    SplitAppend(front, tail, '\n');
    SplitFree(tail, '\n');
    GlueAfter(Lines(front), Lines(post));
  }

  ghost predicate Contains(body: string, needle: string) {
    exists k: nat :: OccursAt(body, needle, k)
  }

  /** Nothing is counted exactly when the text does not occur. */
  lemma CountIsZeroIff(body: string, needle: string)
    requires needle != ""
    ensures Count(body, needle, 0) == 0 <==> !Contains(body, needle)
    ensures FindFrom(body, needle, 0).Some? <==> Contains(body, needle)
  {
    FindFacts(body, needle, 0);
  }

  ghost predicate Unique(body: string, needle: string) {
    exists i: nat :: OccursAt(body, needle, i) && forall k: nat :: OccursAt(body, needle, k) ==> k == i
  }

  /** The edit goes ahead exactly when, past the first occurrence, the text does not occur again. */
  lemma {:induction false} CountIsOneIff(body: string, needle: string)
    requires needle != ""
    ensures Count(body, needle, 0) == 1 <==>
            var f := FindFrom(body, needle, 0);
            f.Some? && forall k: nat :: f.value + |needle| <= k ==> !OccursAt(body, needle, k)
    ensures Unique(body, needle) ==> Count(body, needle, 0) == 1
  {
    FindFacts(body, needle, 0);
    var f := FindFrom(body, needle, 0);
    if f.Some? {
      FindFacts(body, needle, f.value + |needle|);
    }
  }

  /** No proper suffix is also a prefix, so no two occurrences can overlap. */
  ghost predicate Unbordered(needle: string) {
    forall d :: 0 < d < |needle| ==> needle[d..] != needle[..|needle| - d]
  }

  lemma OverlapMeansBorder(body: string, needle: string, i: nat, k: nat)
    requires OccursAt(body, needle, i) && OccursAt(body, needle, k) && i < k < i + |needle|
    ensures !Unbordered(needle)
  {
    var d := k - i;
    assert needle[d..] == body[k..i + |needle|];
    assert needle[..|needle| - d] == body[k..i + |needle|];
  }

  /**
   * "Please ensure it is unique": a replacement that goes ahead replaced the only occurrence, in every
   * file, exactly when the text cannot overlap itself. Of "aa" in "aaa" the tool counts one.
   */
  lemma ReplacedWasUniqueIff(needle: string)
    requires needle != ""
    ensures (forall body :: Count(body, needle, 0) == 1 ==> Unique(body, needle)) <==> Unbordered(needle)
  {
    if Unbordered(needle) {
      forall body | Count(body, needle, 0) == 1
        ensures Unique(body, needle)
      {
        CountIsOneIff(body, needle);
        FindFacts(body, needle, 0);
        var i := FindFrom(body, needle, 0).value;
        forall k: nat | OccursAt(body, needle, k)
          ensures k == i
        {
          if i < k < i + |needle| {
            OverlapMeansBorder(body, needle, i, k);
          }
        }
      }
    } else {
      var d :| 0 < d < |needle| && needle[d..] == needle[..|needle| - d];
      var body := needle[..d] + needle;
      CountedOnceOccursTwice(needle, d);
    }
  }

  lemma {:induction false} CountedOnceOccursTwice(needle: string, d: nat)
    requires 0 < d < |needle| && needle[d..] == needle[..|needle| - d]
    ensures var body := needle[..d] + needle; Count(body, needle, 0) == 1 && !Unique(body, needle)
  {
    var body := needle[..d] + needle;
    assert body[0..|needle|] == needle[..d] + needle[d..] == needle;
    assert OccursAt(body, needle, 0);
    assert body[d..d + |needle|] == needle;
    assert OccursAt(body, needle, d);
    FindFacts(body, needle, 0);
    CountIsOneIff(body, needle);
  }
}
