/**
 * The memory-tool backend: six file commands over the rows of the memories table. A row's position in
 * the table is its identity; rows stand in id order, which is also creation order. `Service` decisions
 * the backend cannot see — what review, redaction and secret scanning make of a new text — arrive as a
 * `Verdict` with the command.
 */
module MemoryTool {
  import opened Options
  import opened Sequences
  import opened Text
  import opened ToolViews
  import P = ToolPaths

  const MAX_LINES := 999_999
  const TREE_LIMIT := 1000

  // ----- rows -----

  datatype Status = Pending | Approved | Rejected

  datatype Row = Row(
    org: int, scopeKind: string, scopeId: int, live: bool, path: Option<string>, title: string, body: string,
    status: Status, reason: Option<string>, hash: Option<int>)

  /** The caller, the scope, and the deduplication setting with its fingerprint of title and body. */
  datatype Config = Config(
    org: int, superuser: bool, scopeKind: string, scopeId: int, dedup: bool, fingerprint: (string, string) -> int)

  /** A live row of the scope that the caller's tenant may see. */
  predicate Visible(cfg: Config, r: Row) {
    && r.live
    && (cfg.superuser || r.org == cfg.org)
    && r.scopeKind == cfg.scopeKind && r.scopeId == cfg.scopeId
  }

  predicate IsTool(cfg: Config, r: Row) {
    Visible(cfg, r) && r.path.Some?
  }

  function FileAt(cfg: Config, path: string): Row -> bool {
    (r: Row) => Visible(cfg, r) && r.path == Some(path)
  }

  function HashedAs(cfg: Config, hash: int): Row -> bool {
    (r: Row) => Visible(cfg, r) && r.hash == Some(hash)
  }

  /** `… ORDER BY id LIMIT 1`. */
  function First(rows: seq<Row>, p: Row -> bool): (at: Option<nat>)
    ensures at.Some? ==> at.value < |rows| && p(rows[at.value]) && forall k :: 0 <= k < at.value ==> !p(rows[k])
    ensures at.None? ==> forall k :: 0 <= k < |rows| ==> !p(rows[k])
  {
    if rows == [] then None
    else if p(rows[0]) then Some(0)
    else
      var rest := First(rows[1..], p);
      if rest.Some? then Some(rest.value + 1) else None
  }

  function Lookup(cfg: Config, rows: seq<Row>, path: string): Option<nat> {
    First(rows, FileAt(cfg, path))
  }

  /** The positions of the scope's tool rows, from `i` on. */
  function ToolRows(cfg: Config, rows: seq<Row>, i: nat): seq<nat>
    requires i <= |rows|
    decreases |rows| - i
  {
    if i == |rows| then []
    else (if IsTool(cfg, rows[i]) then [i] else []) + ToolRows(cfg, rows, i + 1)
  }

  /** What directory operations see: the first thousand tool rows. */
  function Tree(cfg: Config, rows: seq<Row>): seq<nat> {
    Take(ToolRows(cfg, rows, 0), TREE_LIMIT)
  }

  function RStripSlashes(s: string): string {
    if s != "" && Last(s) == '/' then RStripSlashes(s[..|s| - 1]) else s
  }

  function DirPrefix(path: string): string {
    RStripSlashes(path) + "/"
  }

  function Beneath(rows: seq<Row>, path: string): nat -> bool {
    (i: nat) => i < |rows| && rows[i].path.Some? && DirPrefix(path) <= rows[i].path.value
  }

  /** The tool rows a directory operation on `path` acts on. */
  function Children(cfg: Config, rows: seq<Row>, path: string): seq<nat> {
    Filter(Tree(cfg, rows), Beneath(rows, path))
  }

  // ----- listings -----

  function Utf8Size(c: char): nat {
    var n := c as int;
    if n < 0x80 then 1 else if n < 0x800 then 2 else if n < 0x10000 then 3 else 4
  }

  function Utf8Length(s: string): nat {
    if s == "" then 0 else Utf8Size(s[0]) + Utf8Length(s[1..])
  }

  datatype Entry = Entry(size: nat, path: string)

  /** Python's order on strings: by code point, a prefix first. */
  predicate Less(a: string, b: string) {
    b != "" && (a == "" || a[0] < b[0] || (a[0] == b[0] && Less(a[1..], b[1..])))
  }

  function InsertEntry(e: Entry, es: seq<Entry>): seq<Entry> {
    if es == [] || !Less(es[0].path, e.path) then [e] + es else [es[0]] + InsertEntry(e, es[1..])
  }

  function SortEntries(es: seq<Entry>): seq<Entry> {
    if es == [] then [] else InsertEntry(es[0], SortEntries(es[1..]))
  }

  function Entries(rows: seq<Row>, at: seq<nat>): seq<Entry> {
    if at == [] then []
    else (if at[0] < |rows| && rows[at[0]].path.Some?
          then [Entry(Utf8Length(rows[at[0]].body), rows[at[0]].path.value)] else []) + Entries(rows, at[1..])
  }

  function TotalSize(es: seq<Entry>): nat {
    if es == [] then 0 else es[0].size + TotalSize(es[1..])
  }

  // ----- commands and results -----

  /** What the memory service makes of a new text: what it stores, and whether it holds it for review. */
  datatype Verdict = Verdict(title: string, body: string, status: Status, reason: Option<string>, redacted: bool)

  /** `None` stands for an argument that is missing or of the wrong type. */
  datatype Command =
    | View(path: Option<string>, window: Option<(int, int)>)
    | Create(path: Option<string>, text: Option<string>, verdict: Verdict)
    | StrReplace(path: Option<string>, needle: Option<string>, replacement: Option<string>)
    | InsertAt(path: Option<string>, line: Option<int>, text: Option<string>)
    | Delete(path: Option<string>)
    | Rename(path: Option<string>, newPath: Option<string>)
    | Unknown

  datatype Note = Plain | HeldForReview(reason: string) | Redacted

  datatype Error =
    | BadPath(why: P.Rejection)
    | NoSuchPath(path: string)
    | TooManyLines(path: string)
    | RootIsDirectory
    | TextRequired
    | HeldFile(path: string)
    | NeedleRequired
    | NoMatch(needle: string, path: string)
    | Ambiguous(needle: string, lines: seq<nat>)
    | LineNotInteger
    | LineOutOfRange(line: int, last: nat)
    | InsertTextRequired
    | RootStays
    | Occupied(path: string)
    | UnknownCommand

  datatype Result =
    | Shown(path: string, view: string)
    | Listing(path: string, total: nat, entries: seq<Entry>)
    | Held(path: string, reason: string)
    | Created(path: string, note: Note)
    | Edited(view: string)
    | InsertDone(path: string)
    | Deleted(path: string)
    | Renamed(path: string, newPath: string)
    | Failed(error: Error)

  datatype Outcome = Outcome(rows: seq<Row>, result: Result)

  /** Python's `reason or default`. */
  function ReasonOr(reason: Option<string>, default_: string): string {
    if reason.Some? && reason.value != "" then reason.value else default_
  }

  /** The numbers of the lines containing `needle`. */
  function LinesWith(lines: seq<string>, needle: string, first: nat): seq<nat> {
    if lines == [] then []
    else (if FindFrom(lines[0], needle, 0).Some? then [first] else []) + LinesWith(lines[1..], needle, first + 1)
  }

  // ----- the handlers, as functions of the table -----

  function ListingOf(cfg: Config, rows: seq<Row>, path: string): Result {
    var children := Children(cfg, rows, path);
    if children == [] && path != P.MEMORY_ROOT then Failed(NoSuchPath(path))
    else Listing(path, TotalSize(Entries(rows, children)), SortEntries(Entries(rows, children)))
  }

  /** What is shown of a file: its numbered text, or a window of it. */
  function Shows(path: string, body: string, window: Option<(int, int)>): Result {
    if |Lines(body)| > MAX_LINES then Failed(TooManyLines(path))
    else if window.None? then Shown(path, Numbered(body, 1))
    else
      var (text, first) := Window(body, window.value.0, window.value.1);
      Shown(path, Numbered(text, first))
  }

  function Viewed(cfg: Config, rows: seq<Row>, path: string, window: Option<(int, int)>): Result {
    match Lookup(cfg, rows, path)
    case None => ListingOf(cfg, rows, path)
    case Some(i) =>
      if rows[i].status == Pending then Held(path, ReasonOr(rows[i].reason, "awaiting review"))
      else Shows(path, rows[i].body, window)
  }

  function NewRow(cfg: Config, path: string, v: Verdict, hash: Option<int>): Row {
    Row(cfg.org, cfg.scopeKind, cfg.scopeId, true, Some(path), v.title, v.body, v.status, v.reason, hash)
  }

  function NoteOf(v: Verdict): Note {
    if v.status == Pending then HeldForReview(ReasonOr(v.reason, "policy")) else if v.redacted then Redacted else Plain
  }

  /** The row a write would fold into: the oldest live one of the scope with the same fingerprint. */
  function FoldsInto(cfg: Config, rows: seq<Row>, v: Verdict): Option<nat> {
    if cfg.dedup then First(rows, HashedAs(cfg, cfg.fingerprint(v.title, v.body))) else None
  }

  /** The service's write: fold into an existing row, merging the new path into its metadata, or insert. */
  function Stored(cfg: Config, rows: seq<Row>, path: string, v: Verdict): Outcome {
    match FoldsInto(cfg, rows, v)
    case Some(i) => Outcome(rows[i := rows[i].(path := Some(path))], Created(path, Plain))
    case None =>
      var hash := if cfg.dedup then Some(cfg.fingerprint(v.title, v.body)) else None;
      Outcome(rows + [NewRow(cfg, path, v, hash)], Created(path, NoteOf(v)))
  }

  function AfterCreate(cfg: Config, rows: seq<Row>, path: string, text: Option<string>, v: Verdict): Outcome {
    if path == P.MEMORY_ROOT then Outcome(rows, Failed(RootIsDirectory))
    else if text.None? then Outcome(rows, Failed(TextRequired))
    else
      match Lookup(cfg, rows, path)
      case Some(i) => Outcome(rows[i := rows[i].(body := text.value, title := path)], Created(path, Plain))
      case None => Stored(cfg, rows, path, v)
  }

  /** The checks `str_replace` and `insert` share: the file exists and is not held. */
  function Refusal(cfg: Config, rows: seq<Row>, path: string): Option<Error> {
    match Lookup(cfg, rows, path)
    case None => Some(NoSuchPath(path))
    case Some(i) => if rows[i].status == Pending then Some(HeldFile(path)) else None
  }

  /** The new body and the answer of a replacement in a readable file. */
  function Replacement(path: string, body: string, needle: Option<string>, replacement: Option<string>)
    : (Option<string>, Result)
  {
    if needle.None? || needle.value == "" then (None, Failed(NeedleRequired))
    else
      var n := Count(body, needle.value, 0);
      if n == 0 then (None, Failed(NoMatch(needle.value, path)))
      else if n > 1 then (None, Failed(Ambiguous(needle.value, LinesWith(Lines(body), needle.value, 1))))
      else
        var with := if replacement.Some? then replacement.value else "";
        var edited := ReplaceFirst(body, needle.value, with);
        (Some(edited), Edited(Numbered(edited, 1)))
  }

  function Insertion(path: string, body: string, line: Option<int>, text: Option<string>): (Option<string>, Result) {
    if line.None? then (None, Failed(LineNotInteger))
    else if line.value < 0 || line.value > |Lines(body)| then
      (None, Failed(LineOutOfRange(line.value, |Lines(body)|)))
    else if text.None? then (None, Failed(InsertTextRequired))
    else (Some(Inserted(body, line.value, text.value)), InsertDone(path))
  }

  function AfterEdit(rows: seq<Row>, i: nat, edit: (Option<string>, Result)): Outcome
    requires i < |rows|
  {
    Outcome(if edit.0.Some? then rows[i := rows[i].(body := edit.0.value)] else rows, edit.1)
  }

  function Killed(rows: seq<Row>, at: seq<nat>): seq<Row> {
    seq(|rows|, i requires 0 <= i < |rows| => if i in at then rows[i].(live := false) else rows[i])
  }

  function AfterDelete(cfg: Config, rows: seq<Row>, path: string): Outcome {
    if path == P.MEMORY_ROOT then Outcome(rows, Failed(RootStays))
    else
      match Lookup(cfg, rows, path)
      case Some(i) => Outcome(Killed(rows, [i]), Deleted(path))
      case None =>
        var children := Children(cfg, rows, path);
        if children == [] then Outcome(rows, Failed(NoSuchPath(path)))
        else Outcome(Killed(rows, children), Deleted(path))
  }

  function AfterRename(cfg: Config, rows: seq<Row>, path: string, newPath: string): Outcome {
    if path == P.MEMORY_ROOT then Outcome(rows, Failed(RootStays))
    else
      match Lookup(cfg, rows, path)
      case None => Outcome(rows, Failed(NoSuchPath(path)))
      case Some(i) =>
        if Lookup(cfg, rows, newPath).Some? then Outcome(rows, Failed(Occupied(newPath)))
        else Outcome(rows[i := rows[i].(title := newPath, path := Some(newPath))], Renamed(path, newPath))
  }

  /** One command on canonical paths. */
  function AfterOn(cfg: Config, rows: seq<Row>, cmd: Command, path: string, newPath: string): Outcome {
    match cmd
    case View(_, window) => Outcome(rows, Viewed(cfg, rows, path, window))
    case Create(_, text, verdict) => AfterCreate(cfg, rows, path, text, verdict)
    case StrReplace(_, needle, replacement) =>
      var refused := Refusal(cfg, rows, path);
      if refused.Some? then Outcome(rows, Failed(refused.value))
      else
        var i := Lookup(cfg, rows, path).value;
        AfterEdit(rows, i, Replacement(path, rows[i].body, needle, replacement))
    case InsertAt(_, line, text) =>
      var refused := Refusal(cfg, rows, path);
      if refused.Some? then Outcome(rows, Failed(refused.value))
      else
        var i := Lookup(cfg, rows, path).value;
        AfterEdit(rows, i, Insertion(path, rows[i].body, line, text))
    case Delete(_) => AfterDelete(cfg, rows, path)
    case Rename(_, _) => AfterRename(cfg, rows, path, newPath)
    case Unknown => Outcome(rows, Failed(UnknownCommand))
  }

  /** The command's canonical paths, or why it is rejected before anything is looked up. */
  function PathsOf(cmd: Command): (paths: (Option<P.Rejection>, string, string))
    ensures paths.0.None? && !cmd.Unknown? ==> P.Normalise(cmd.path) == P.Canonical(paths.1)
    ensures paths.0.None? && cmd.Rename? ==> P.Normalise(cmd.newPath) == P.Canonical(paths.2)
  {
    if cmd.Unknown? then (None, "", "")
    else
      match P.Normalise(cmd.path)
      case Rejected(why) => (Some(why), "", "")
      case Canonical(path) =>
        if !cmd.Rename? then (None, path, "")
        else
          match P.Normalise(cmd.newPath)
          case Rejected(why) => (Some(why), "", "")
          case Canonical(newPath) => (None, path, newPath)
  }

  function After(cfg: Config, rows: seq<Row>, cmd: Command): Outcome {
    var (why, path, newPath) := PathsOf(cmd);
    if why.Some? then Outcome(rows, Failed(BadPath(why.value))) else AfterOn(cfg, rows, cmd, path, newPath)
  }

  // ----- what the edits compute -----

  /** The line numbers listed are those of the lines that contain the text, in order. */
  lemma {:induction false} LinesWithIs(lines: seq<string>, needle: string, first: nat, n: nat)
    ensures n in LinesWith(lines, needle, first) <==> first <= n < first + |lines| && Contains(lines[n - first], needle)
  {
    if lines == [] {
    } else {
      LinesWithIs(lines[1..], needle, first + 1, n);
      FindFacts(lines[0], needle, 0);
      assert FindFrom(lines[0], needle, 0).Some? <==> Contains(lines[0], needle);
      assert first < n < first + |lines| ==> lines[1..][n - first - 1] == lines[n - first];
    }
  }

  lemma {:induction false} LinesWithInOrder(lines: seq<string>, needle: string, first: nat, i: nat, j: nat)
    requires i < j < |LinesWith(lines, needle, first)|
    ensures LinesWith(lines, needle, first)[i] < LinesWith(lines, needle, first)[j]
  {
    var rest := LinesWith(lines[1..], needle, first + 1);
    if FindFrom(lines[0], needle, 0).None? {
      LinesWithInOrder(lines[1..], needle, first + 1, i, j);
    } else if i > 0 {
      LinesWithInOrder(lines[1..], needle, first + 1, i - 1, j - 1);
    } else {
      LinesWithIs(lines[1..], needle, first + 1, rest[j - 1]);
      assert rest[j - 1] in rest;
    }
  }

  /**
   * A replacement, case by case: no text to replace; a text that does not occur; one that does not occur again
   * past its first occurrence, which is replaced, by nothing if no new text is given; and any other, reported with
   * the lines that contain it.
   */
  lemma ReplacementIs(path: string, body: string, needle: Option<string>, replacement: Option<string>)
    ensures var edit := Replacement(path, body, needle, replacement);
            if needle.None? || needle.value == "" then
              edit == (None, Failed(NeedleRequired))
            else if !Contains(body, needle.value) then
              edit == (None, Failed(NoMatch(needle.value, path)))
            else if Count(body, needle.value, 0) == 1 then
              && edit.0.Some? && edit.1 == Edited(Numbered(edit.0.value, 1))
              && Replaces(body, needle.value, if replacement.Some? then replacement.value else "", edit.0.value)
            else
              edit == (None, Failed(Ambiguous(needle.value, LinesWith(Lines(body), needle.value, 1))))
  {
    if needle.Some? && needle.value != "" {
      CountIsZeroIff(body, needle.value);
      FindFacts(body, needle.value, 0);
      if FindFrom(body, needle.value, 0).Some? {
        ReplaceFirstReplaces(body, needle.value, if replacement.Some? then replacement.value else "");
      }
    }
  }

  // ----- the backend -----

  class MemoryToolBackend {
    const cfg: Config
    var rows: seq<Row>

    constructor (cfg: Config, rows: seq<Row>)
      ensures this.cfg == cfg && this.rows == rows
    {
      this.cfg, this.rows := cfg, rows;
    }

    method Execute(cmd: Command) returns (result: Result)
      modifies this
      ensures Outcome(rows, result) == After(cfg, old(rows), cmd)
    {
      var (why, path, newPath) := PathsOf(cmd);
      if why.Some? {
        return Failed(BadPath(why.value));
      }
      match cmd {
        case View(_, window) => result := Viewed(cfg, rows, path, window);
        case Create(_, text, verdict) => result := CreateFile(path, text, verdict);
        case StrReplace(_, needle, replacement) => result := ReplaceText(path, needle, replacement);
        case InsertAt(_, line, text) => result := InsertLines(path, line, text);
        case Delete(_) => result := DeletePath(path);
        case Rename(_, _) => result := RenamePath(path, newPath);
        case Unknown => result := Failed(UnknownCommand);
      }
    }

    method CreateFile(path: string, text: Option<string>, verdict: Verdict) returns (result: Result)
      modifies this
      ensures Outcome(rows, result) == AfterCreate(cfg, old(rows), path, text, verdict)
    {
      if path == P.MEMORY_ROOT {
        return Failed(RootIsDirectory);
      }
      if text.None? {
        return Failed(TextRequired);
      }
      var existing := Lookup(cfg, rows, path);
      if existing.Some? {
        var i := existing.value;
        rows := rows[i := rows[i].(body := text.value, title := path)];
        return Created(path, Plain);
      }
      var hash := None;
      if cfg.dedup {
        var digest := cfg.fingerprint(verdict.title, verdict.body);
        hash := Some(digest);
        var duplicate := First(rows, HashedAs(cfg, digest));
        if duplicate.Some? {
          var i := duplicate.value;
          rows := rows[i := rows[i].(path := Some(path))];
          return Created(path, Plain);
        }
      }
      rows := rows + [NewRow(cfg, path, verdict, hash)];
      return Created(path, NoteOf(verdict));
    }

    method ReplaceText(path: string, needle: Option<string>, replacement: Option<string>) returns (result: Result)
      modifies this
      ensures Outcome(rows, result) == AfterOn(cfg, old(rows), StrReplace(Some(path), needle, replacement), path, "")
      ensures !result.Edited? ==> rows == old(rows)
      ensures result.Edited? <==>
                var at := Lookup(cfg, old(rows), path);
                && at.Some? && old(rows)[at.value].status != Pending && needle.Some? && needle.value != ""
                && Count(old(rows)[at.value].body, needle.value, 0) == 1
      ensures result.Edited? ==>
                var at := Lookup(cfg, old(rows), path);
                && at.Some? && needle.Some? && needle.value != ""
                && (var was, now := old(rows)[at.value], rows[at.value].body;
                    && rows == old(rows)[at.value := was.(body := now)]
                    && Replaces(was.body, needle.value, if replacement.Some? then replacement.value else "", now)
                    && result.view == Numbered(now, 1))
    {
      var refused := Refusal(cfg, rows, path);
      if refused.Some? {
        return Failed(refused.value);
      }
      var i := Lookup(cfg, rows, path).value;
      var edit := Replacement(path, rows[i].body, needle, replacement);
      ReplacementIs(path, rows[i].body, needle, replacement);
      if edit.0.Some? {
        rows := rows[i := rows[i].(body := edit.0.value)];
      }
      return edit.1;
    }

    method InsertLines(path: string, line: Option<int>, text: Option<string>) returns (result: Result)
      modifies this
      ensures Outcome(rows, result) == AfterOn(cfg, old(rows), InsertAt(Some(path), line, text), path, "")
      ensures !result.InsertDone? ==> rows == old(rows)
      ensures result.InsertDone? <==>
                var at := Lookup(cfg, old(rows), path);
                && at.Some? && old(rows)[at.value].status != Pending && line.Some? && text.Some?
                && 0 <= line.value <= |Lines(old(rows)[at.value].body)|
      ensures result.InsertDone? ==>
                var at := Lookup(cfg, old(rows), path);
                && at.Some?
                && (var was, now := old(rows)[at.value], rows[at.value].body;
                    var lines := Lines(was.body);
                    && 0 <= line.value <= |lines| && rows == old(rows)[at.value := was.(body := now)]
                    && Lines(now) == lines[..line.value] + Lines(RStripNewlines(text.value)) + lines[line.value..])
    {
      var refused := Refusal(cfg, rows, path);
      if refused.Some? {
        return Failed(refused.value);
      }
      var i := Lookup(cfg, rows, path).value;
      if line.None? {
        return Failed(LineNotInteger);
      }
      var lines := Lines(rows[i].body);
      if line.value < 0 || line.value > |lines| {
        return Failed(LineOutOfRange(line.value, |lines|));
      }
      if text.None? {
        return Failed(InsertTextRequired);
      }
      InsertShiftsLines(rows[i].body, line.value, text.value);
      lines := lines[..line.value] + [RStripNewlines(text.value)] + lines[line.value..];
      rows := rows[i := rows[i].(body := Join(lines, '\n'))];
      return InsertDone(path);
    }

    method DeletePath(path: string) returns (result: Result)
      modifies this
      ensures Outcome(rows, result) == AfterDelete(cfg, old(rows), path)
    {
      if path == P.MEMORY_ROOT {
        return Failed(RootStays);
      }
      var file := Lookup(cfg, rows, path);
      if file.Some? {
        var i := file.value;
        rows := rows[i := rows[i].(live := false)];
        assert rows == Killed(old(rows), [i]);
        return Deleted(path);
      }
      var children := Children(cfg, rows, path);
      if children == [] {
        return Failed(NoSuchPath(path));
      }
      ghost var before := rows;
      for c := 0 to |children|
        invariant rows == Killed(before, children[..c])
      {
        var i := children[c];
        assert children[..c + 1] == children[..c] + [i];
        if i < |rows| {
          rows := rows[i := rows[i].(live := false)];
        }
      }
      assert children[..|children|] == children;
      return Deleted(path);
    }

    method RenamePath(path: string, newPath: string) returns (result: Result)
      modifies this
      ensures Outcome(rows, result) == AfterRename(cfg, old(rows), path, newPath)
    {
      if path == P.MEMORY_ROOT {
        return Failed(RootStays);
      }
      var file := Lookup(cfg, rows, path);
      if file.None? {
        return Failed(NoSuchPath(path));
      }
      var target := Lookup(cfg, rows, newPath);
      if target.Some? {
        return Failed(Occupied(newPath));
      }
      var i := file.value;
      rows := rows[i := rows[i].(title := newPath, path := Some(newPath))];
      return Renamed(path, newPath);
    }
  }
}
