/** Whole command sequences: when they are runs of the map machine, and what stays true of all of them. */
module MemoryToolRuns {
  import opened Options
  import opened Sequences
  import opened MemoryTool
  import opened MemoryToolFiles
  import P = ToolPaths

  // ----- the order of a listing -----

  lemma {:induction false} LessIsTotal(a: string, b: string)
    ensures a == b || Less(a, b) || Less(b, a)
  {
    if a == "" || b == "" || a[0] != b[0] {
    } else {
      LessIsTotal(a[1..], b[1..]);
      assert a == [a[0]] + a[1..] && b == [b[0]] + b[1..];
    }
  }

  lemma {:induction false} LessIsTransitive(a: string, b: string, c: string)
    requires Less(a, b) && Less(b, c)
    ensures Less(a, c)
  {
    if a == "" || a[0] != b[0] || b[0] != c[0] {
    } else {
      LessIsTransitive(a[1..], b[1..], c[1..]);
    }
  }

  ghost predicate DistinctPaths(es: seq<Entry>) {
    forall i, j :: 0 <= i < j < |es| ==> es[i].path != es[j].path
  }

  lemma {:induction false} InsertEntryMembers(e: Entry, es: seq<Entry>)
    ensures var all := InsertEntry(e, es);
            TotalSize(all) == e.size + TotalSize(es) && forall x :: x in all <==> x == e || x in es
  {
    if es == [] {
    } else if !Less(es[0].path, e.path) {
      assert ([e] + es)[1..] == es;
    } else {
      var rest := InsertEntry(e, es[1..]);
      InsertEntryMembers(e, es[1..]);
      assert ([es[0]] + rest)[1..] == rest;
    }
  }

  lemma {:induction false} InsertEntrySorts(e: Entry, es: seq<Entry>)
    requires StrictlySorted(es) && forall x :: x in es ==> x.path != e.path
    ensures StrictlySorted(InsertEntry(e, es))
  {
    if es == [] {
    } else if !Less(es[0].path, e.path) {
      LessIsTotal(es[0].path, e.path);
      assert es[0] in es;
      forall i | 0 <= i < |es|
        ensures Less(e.path, es[i].path)
      {
        if i > 0 {
          LessIsTransitive(e.path, es[0].path, es[i].path);
        }
      }
    } else {
      var rest := InsertEntry(e, es[1..]);
      InsertEntrySorts(e, es[1..]);
      InsertEntryMembers(e, es[1..]);
      forall i | 0 <= i < |rest|
        ensures Less(es[0].path, rest[i].path)
      {
        assert rest[i] in rest;
        if rest[i] != e {
          var j :| 0 <= j < |es[1..]| && es[1..][j] == rest[i];
          assert es[j + 1] == rest[i];
        }
      }
    }
  }

  lemma {:induction false} SortEntriesFacts(es: seq<Entry>)
    requires DistinctPaths(es)
    ensures StrictlySorted(SortEntries(es)) && TotalSize(SortEntries(es)) == TotalSize(es)
    ensures forall x :: x in SortEntries(es) <==> x in es
  {
    if es == [] {
    } else {
      SortEntriesFacts(es[1..]);
      forall x | x in es[1..]
        ensures x.path != es[0].path
      {
        var i :| 0 <= i < |es[1..]| && es[1..][i] == x;
        assert es[i + 1] == x;
      }
      InsertEntrySorts(es[0], SortEntries(es[1..]));
      InsertEntryMembers(es[0], SortEntries(es[1..]));
    }
  }

  // ----- the entries of a directory -----

  ghost predicate Distinct(at: seq<nat>) {
    forall i, j :: 0 <= i < j < |at| ==> at[i] != at[j]
  }

  lemma {:induction false} FilterDistinct(at: seq<nat>, p: nat -> bool)
    requires Distinct(at)
    ensures Distinct(Filter(at, p))
  {
    if at == [] {
    } else {
      FilterDistinct(at[1..], p);
      FilterSound(at[1..], p);
      var rest := Filter(at[1..], p);
      forall k | 0 <= k < |rest|
        ensures rest[k] != at[0]
      {
        assert rest[k] in rest;
        var j :| 0 <= j < |at[1..]| && at[1..][j] == rest[k];
        assert at[j + 1] == rest[k];
      }
    }
  }

  lemma {:induction false} ToolRowsDistinct(cfg: Config, rows: seq<Row>, from: nat)
    requires from <= |rows|
    ensures Distinct(ToolRows(cfg, rows, from))
    decreases |rows| - from
  {
    if from >= |rows| {
    } else {
      ToolRowsDistinct(cfg, rows, from + 1);
      var rest := ToolRows(cfg, rows, from + 1);
      forall k | 0 <= k < |rest|
        ensures rest[k] != from
      {
        assert rest[k] in rest;
        ToolRowsAre(cfg, rows, from + 1, rest[k]);
      }
    }
  }

  lemma ChildrenDistinct(cfg: Config, rows: seq<Row>, dir: string)
    ensures Distinct(Children(cfg, rows, dir))
  {
    ToolRowsDistinct(cfg, rows, 0);
    FilterDistinct(Tree(cfg, rows), Beneath(rows, dir));
  }

  ghost predicate AllTools(cfg: Config, rows: seq<Row>, at: seq<nat>) {
    forall k :: 0 <= k < |at| ==> at[k] < |rows| && IsTool(cfg, rows[at[k]])
  }

  function EntryOf(r: Row): Entry {
    Entry(Utf8Length(r.body), if r.path.Some? then r.path.value else "")
  }

  lemma {:induction false} EntriesFacts(cfg: Config, rows: seq<Row>, at: seq<nat>)
    requires UniquePaths(cfg, rows) && AllTools(cfg, rows, at) && Distinct(at)
    ensures |Entries(rows, at)| == |at|
    ensures forall k :: 0 <= k < |at| ==> Entries(rows, at)[k] == EntryOf(rows[at[k]])
    ensures DistinctPaths(Entries(rows, at))
  {
    if at == [] {
    } else {
      assert at[0] < |rows| && IsTool(cfg, rows[at[0]]);
      EntriesFacts(cfg, rows, at[1..]);
      forall k | 0 < k < |at|
        ensures rows[at[k]].path != rows[at[0]].path
      {
        assert at[0] != at[k] && IsTool(cfg, rows[at[k]]);
        if at[0] < at[k] {
          assert rows[at[0]].path != rows[at[k]].path;
        } else {
          assert rows[at[k]].path != rows[at[0]].path;
        }
      }
    }
  }

  lemma ChildEntries(cfg: Config, rows: seq<Row>, dir: string)
    requires UniquePaths(cfg, rows)
    ensures var es := Entries(rows, Children(cfg, rows, dir));
            && DistinctPaths(es)
            && |es| == |Children(cfg, rows, dir)|
            && forall k :: 0 <= k < |es| ==>
                 Children(cfg, rows, dir)[k] < |rows| && es[k] == EntryOf(rows[Children(cfg, rows, dir)[k]])
  {
    var children := Children(cfg, rows, dir);
    forall k | 0 <= k < |children|
      ensures children[k] < |rows| && IsTool(cfg, rows[children[k]])
    {
      assert children[k] in children;
      ChildrenAre(cfg, rows, dir, children[k]);
    }
    ChildrenDistinct(cfg, rows, dir);
    EntriesFacts(cfg, rows, children);
  }

  /** Each entry is a file under the directory, with its size. */
  lemma EntryIsFile(cfg: Config, rows: seq<Row>, dir: string, e: Entry) returns (i: nat)
    requires UniquePaths(cfg, rows) && e in Entries(rows, Children(cfg, rows, dir))
    ensures i in Tree(cfg, rows) && i < |rows| && IsTool(cfg, rows[i]) && rows[i].path.value == e.path
    ensures var files := FilesOf(cfg, rows);
            e.path in FilesUnder(files, dir) && e.size == Utf8Length(files[e.path].body)
  {
    var children, raw := Children(cfg, rows, dir), Entries(rows, Children(cfg, rows, dir));
    ChildEntries(cfg, rows, dir);
    var k :| 0 <= k < |raw| && raw[k] == e;
    i := children[k];
    assert i in children;
    ChildrenAre(cfg, rows, dir, i);
    FileIs(cfg, rows, i);
  }

  /** A tool row under the directory has its entry exactly when the tree reaches it. */
  lemma RowIsListedIff(cfg: Config, rows: seq<Row>, dir: string, i: nat)
    requires UniquePaths(cfg, rows) && i < |rows| && IsTool(cfg, rows[i]) && Under(rows[i].path.value, dir)
    ensures EntryOf(rows[i]) in Entries(rows, Children(cfg, rows, dir)) <==> i in Tree(cfg, rows)
  {
    var children, raw := Children(cfg, rows, dir), Entries(rows, Children(cfg, rows, dir));
    if i in Tree(cfg, rows) {
      ChildrenAre(cfg, rows, dir, i);
      ChildEntries(cfg, rows, dir);
      var k :| 0 <= k < |children| && children[k] == i;
      assert raw[k] in raw;
    } else if EntryOf(rows[i]) in raw {
      var j := EntryIsFile(cfg, rows, dir, EntryOf(rows[i]));
      FileIs(cfg, rows, i);
      FileIs(cfg, rows, j);
    }
  }

  /** The raw entries of a directory hold exactly its files if and only if the tree reaches all of them. */
  lemma EntriesCompleteIff(cfg: Config, rows: seq<Row>, dir: string)
    requires UniquePaths(cfg, rows)
    ensures var raw, files := Entries(rows, Children(cfg, rows, dir)), FilesOf(cfg, rows);
            (forall p :: p in FilesUnder(files, dir) ==> Entry(Utf8Length(files[p].body), p) in raw)
            <==> TreeReaches(cfg, rows, dir)
  {
    var raw, files := Entries(rows, Children(cfg, rows, dir)), FilesOf(cfg, rows);
    if TreeReaches(cfg, rows, dir) {
      forall p | p in FilesUnder(files, dir)
        ensures Entry(Utf8Length(files[p].body), p) in raw
      {
        LookupIs(cfg, rows, p);
        RowIsListedIff(cfg, rows, dir, Lookup(cfg, rows, p).value);
      }
    } else {
      var i :| 0 <= i < |rows| && IsTool(cfg, rows[i]) && Under(rows[i].path.value, dir) && i !in Tree(cfg, rows);
      FileIs(cfg, rows, i);
      RowIsListedIff(cfg, rows, dir, i);
      assert rows[i].path.value in FilesUnder(files, dir);
    }
  }

  lemma ListsIff(cfg: Config, rows: seq<Row>, dir: string)
    requires UniquePaths(cfg, rows)
    ensures var es := SortEntries(Entries(rows, Children(cfg, rows, dir)));
            && (Lists(FilesOf(cfg, rows), dir, es) <==> TreeReaches(cfg, rows, dir))
            && TotalSize(es) == TotalSize(Entries(rows, Children(cfg, rows, dir)))
  {
    var raw := Entries(rows, Children(cfg, rows, dir));
    ChildEntries(cfg, rows, dir);
    EntriesCompleteIff(cfg, rows, dir);
    forall e | e in raw
      ensures e.path in FilesUnder(FilesOf(cfg, rows), dir)
      ensures e.size == Utf8Length(FilesOf(cfg, rows)[e.path].body)
    {
      var i := EntryIsFile(cfg, rows, dir, e);
    }
    SortedListsIff(FilesOf(cfg, rows), dir, raw);
  }

  /** Sorting decides nothing but the order. */
  lemma SortedListsIff(files: Files, dir: string, raw: seq<Entry>)
    requires DistinctPaths(raw)
    requires forall e :: e in raw ==> e.path in FilesUnder(files, dir) && e.size == Utf8Length(files[e.path].body)
    ensures Lists(files, dir, SortEntries(raw)) <==>
            forall p :: p in FilesUnder(files, dir) ==> Entry(Utf8Length(files[p].body), p) in raw
    ensures TotalSize(SortEntries(raw)) == TotalSize(raw)
  {
    SortEntriesFacts(raw);
  }

  // ----- one command -----

  /** When a directory operation on `path` happens at all, it sees every file under it. */
  ghost predicate SeesDirectory(cfg: Config, rows: seq<Row>, path: string) {
    path in FilesOf(cfg, rows) || TreeReaches(cfg, rows, path)
  }

  /** A write that folds goes unnoticed: same file, same answer. */
  ghost predicate FoldGoesUnnoticed(cfg: Config, rows: seq<Row>, v: Verdict) {
    FoldIsHarmless(cfg, rows, v) && (FoldsInto(cfg, rows, v).Some? ==> NoteOf(v) == Plain)
  }

  /** The condition, per command, under which the rows do what the map does. */
  ghost predicate Faithful(cfg: Config, rows: seq<Row>, cmd: Command) {
    var (why, path, newPath) := PathsOf(cmd);
    why.None? ==>
      match cmd
      case View(_, _) => SeesDirectory(cfg, rows, path)
      case Create(_, text, v) =>
        path != P.MEMORY_ROOT && text.Some? && path !in FilesOf(cfg, rows) ==> FoldGoesUnnoticed(cfg, rows, v)
      case Delete(_) => path != P.MEMORY_ROOT ==> SeesDirectory(cfg, rows, path)
      case _ => true
  }

  lemma UnseenFile(cfg: Config, rows: seq<Row>, dir: string)
    requires UniquePaths(cfg, rows) && !TreeReaches(cfg, rows, dir)
    ensures FilesUnder(FilesOf(cfg, rows), dir) != {}
  {
    var i :| 0 <= i < |rows| && IsTool(cfg, rows[i]) && Under(rows[i].path.value, dir) && i !in Tree(cfg, rows);
    FileIs(cfg, rows, i);
    assert rows[i].path.value in FilesUnder(FilesOf(cfg, rows), dir);
  }

  lemma ListingIff(cfg: Config, rows: seq<Row>, path: string, window: Option<(int, int)>)
    requires UniquePaths(cfg, rows) && path !in FilesOf(cfg, rows)
    ensures SpecView(FilesOf(cfg, rows), path, window, ListingOf(cfg, rows, path)) <==> TreeReaches(cfg, rows, path)
  {
    ListsIff(cfg, rows, path);
    if TreeReaches(cfg, rows, path) {
      ChildrenCover(cfg, rows, path);
    } else {
      UnseenFile(cfg, rows, path);
    }
  }

  lemma ViewIff(cfg: Config, rows: seq<Row>, path: string, window: Option<(int, int)>)
    requires UniquePaths(cfg, rows)
    ensures SpecView(FilesOf(cfg, rows), path, window, Viewed(cfg, rows, path, window))
            <==> SeesDirectory(cfg, rows, path)
  {
    LookupIs(cfg, rows, path);
    if path !in FilesOf(cfg, rows) {
      ListingIff(cfg, rows, path, window);
    }
  }

  lemma CreateStepIff(cfg: Config, rows: seq<Row>, path: string, text: Option<string>, v: Verdict)
    requires UniquePaths(cfg, rows)
    ensures var out := AfterCreate(cfg, rows, path, text, v);
            && UniquePaths(cfg, out.rows)
            && (SpecCreate(FilesOf(cfg, rows), path, text, v, FilesOf(cfg, out.rows), out.result) <==>
                (path != P.MEMORY_ROOT && text.Some? && path !in FilesOf(cfg, rows) ==> FoldGoesUnnoticed(cfg, rows, v)))
  {
    LookupIs(cfg, rows, path);
    if path != P.MEMORY_ROOT && text.Some? {
      if path in FilesOf(cfg, rows) {
        BodyEdited(cfg, rows, Lookup(cfg, rows, path).value, text.value, path);
      } else {
        CreateIff(cfg, rows, path, v);
        StoredFiles(cfg, rows, path, v);
      }
    }
  }

  lemma EditRefines(cfg: Config, rows: seq<Row>, path: string, edit: (Option<string>, Result))
    requires UniquePaths(cfg, rows) && path in FilesOf(cfg, rows) && Lookup(cfg, rows, path).Some?
    ensures var out := AfterEdit(rows, Lookup(cfg, rows, path).value, edit);
            UniquePaths(cfg, out.rows) && SpecEdit(FilesOf(cfg, rows), path, edit, FilesOf(cfg, out.rows), out.result)
  {
    LookupIs(cfg, rows, path);
    var i := Lookup(cfg, rows, path).value;
    if edit.0.Some? {
      BodyEdited(cfg, rows, i, edit.0.value, rows[i].title);
      assert rows[i].(body := edit.0.value, title := rows[i].title) == rows[i].(body := edit.0.value);
    }
  }

  lemma DeleteStepIff(cfg: Config, rows: seq<Row>, path: string)
    requires UniquePaths(cfg, rows)
    ensures var out := AfterDelete(cfg, rows, path);
            && UniquePaths(cfg, out.rows)
            && (SpecDelete(FilesOf(cfg, rows), path, FilesOf(cfg, out.rows), out.result) <==>
                (path != P.MEMORY_ROOT ==> SeesDirectory(cfg, rows, path)))
  {
    var files := FilesOf(cfg, rows);
    LookupIs(cfg, rows, path);
    if path == P.MEMORY_ROOT {
    } else if path in files {
      var i := Lookup(cfg, rows, path).value;
      FileIs(cfg, rows, i);
      forall k | 0 <= k < |rows| && IsTool(cfg, rows[k])
        ensures rows[k].path.value in {path} <==> k in [i]
      {
        FileIs(cfg, rows, k);
      }
      RowsKilled(cfg, rows, [i], {path});
    } else {
      DirectoryDeleteIff(cfg, rows, path);
      if TreeReaches(cfg, rows, path) {
        ChildrenCover(cfg, rows, path);
      } else {
        UnseenFile(cfg, rows, path);
      }
    }
  }

  lemma RenameRefines(cfg: Config, rows: seq<Row>, path: string, newPath: string)
    requires UniquePaths(cfg, rows)
    ensures var out := AfterRename(cfg, rows, path, newPath);
            UniquePaths(cfg, out.rows) && SpecRename(FilesOf(cfg, rows), path, newPath, FilesOf(cfg, out.rows), out.result)
  {
    LookupIs(cfg, rows, path);
    LookupIs(cfg, rows, newPath);
    if path != P.MEMORY_ROOT && path in FilesOf(cfg, rows) && newPath !in FilesOf(cfg, rows) {
      PathMoved(cfg, rows, Lookup(cfg, rows, path).value, newPath, newPath);
    }
  }

  lemma EditStepRefines(cfg: Config, rows: seq<Row>, cmd: Command, path: string)
    requires UniquePaths(cfg, rows) && (cmd.StrReplace? || cmd.InsertAt?)
    ensures var out := AfterOn(cfg, rows, cmd, path, "");
            UniquePaths(cfg, out.rows) && SpecOn(FilesOf(cfg, rows), cmd, path, "", FilesOf(cfg, out.rows), out.result)
  {
    LookupIs(cfg, rows, path);
    if path in FilesOf(cfg, rows) {
      var body := FilesOf(cfg, rows)[path].body;
      EditRefines(cfg, rows, path, if cmd.StrReplace? then Replacement(path, body, cmd.needle, cmd.replacement)
                                   else Insertion(path, body, cmd.line, cmd.text));
    }
  }

  /** Each command keeps paths unique, and is a step of the map machine exactly when it is faithful. */
  lemma StepRefinesIff(cfg: Config, rows: seq<Row>, cmd: Command)
    requires UniquePaths(cfg, rows)
    ensures var out := After(cfg, rows, cmd);
            && UniquePaths(cfg, out.rows)
            && (Spec(FilesOf(cfg, rows), cmd, FilesOf(cfg, out.rows), out.result) <==> Faithful(cfg, rows, cmd))
  {
    var (why, path, newPath) := PathsOf(cmd);
    if why.None? {
      match cmd {
        case View(_, window) => ViewIff(cfg, rows, path, window);
        case Create(_, text, v) => CreateStepIff(cfg, rows, path, text, v);
        case StrReplace(_, _, _) => EditStepRefines(cfg, rows, cmd, path);
        case InsertAt(_, _, _) => EditStepRefines(cfg, rows, cmd, path);
        case Delete(_) => DeleteStepIff(cfg, rows, path);
        case Rename(_, _) => RenameRefines(cfg, rows, path, newPath);
        case Unknown =>
      }
    }
  }

  // ----- runs -----

  function Final(cfg: Config, rows: seq<Row>, cmds: seq<Command>): seq<Row>
    decreases cmds
  {
    if cmds == [] then rows else Final(cfg, After(cfg, rows, cmds[0]).rows, cmds[1..])
  }

  function Results(cfg: Config, rows: seq<Row>, cmds: seq<Command>): (results: seq<Result>)
    ensures |results| == |cmds|
    decreases cmds
  {
    if cmds == [] then []
    else [After(cfg, rows, cmds[0]).result] + Results(cfg, After(cfg, rows, cmds[0]).rows, cmds[1..])
  }

  ghost predicate FaithfulRun(cfg: Config, rows: seq<Row>, cmds: seq<Command>)
    decreases cmds
  {
    cmds == [] || (Faithful(cfg, rows, cmds[0]) && FaithfulRun(cfg, After(cfg, rows, cmds[0]).rows, cmds[1..]))
  }

  /** A run of the map machine that gives these answers and ends in `last`. */
  ghost predicate SpecRun(files: Files, cmds: seq<Command>, results: seq<Result>, last: Files)
    requires |results| == |cmds|
    decreases cmds
  {
    if cmds == [] then last == files
    else exists next :: Spec(files, cmds[0], next, results[0]) && SpecRun(next, cmds[1..], results[1..], last)
  }

  /** No command sequence ever gives two live files one path. */
  lemma {:induction false} PathsStayUnique(cfg: Config, rows: seq<Row>, cmds: seq<Command>)
    requires UniquePaths(cfg, rows)
    ensures UniquePaths(cfg, Final(cfg, rows, cmds))
    decreases cmds
  {
    if cmds == [] {
    } else {
      StepRefinesIff(cfg, rows, cmds[0]);
      PathsStayUnique(cfg, After(cfg, rows, cmds[0]).rows, cmds[1..]);
    }
  }

  /** Every faithful command sequence is a run of the map machine, answer by answer. */
  lemma {:induction false} RunRefines(cfg: Config, rows: seq<Row>, cmds: seq<Command>)
    requires UniquePaths(cfg, rows) && FaithfulRun(cfg, rows, cmds)
    ensures SpecRun(FilesOf(cfg, rows), cmds, Results(cfg, rows, cmds), FilesOf(cfg, Final(cfg, rows, cmds)))
    decreases cmds
  {
    if cmds == [] {
    } else {
      var out := After(cfg, rows, cmds[0]);
      StepRefinesIff(cfg, rows, cmds[0]);
      RunRefines(cfg, out.rows, cmds[1..]);
      assert Results(cfg, rows, cmds)[1..] == Results(cfg, out.rows, cmds[1..]);
      assert Spec(FilesOf(cfg, rows), cmds[0], FilesOf(cfg, out.rows), Results(cfg, rows, cmds)[0]);
    }
  }

  /** In a scope of at most a thousand tool rows directory operations see everything. */
  lemma SmallScopeSeesAll(cfg: Config, rows: seq<Row>, dir: string)
    requires |ToolRows(cfg, rows, 0)| <= 1000
    ensures TreeReaches(cfg, rows, dir)
  {
    forall i | 0 <= i < |rows| && IsTool(cfg, rows[i])
      ensures i in Tree(cfg, rows)
    {
      ToolRowsAre(cfg, rows, 0, i);
    }
  }

  function Creates(cmds: seq<Command>): nat {
    if cmds == [] then 0 else (if cmds[0].Create? then 1 else 0) + Creates(cmds[1..])
  }

  /** The rows of `rows` that are not files stay so, and at most `more` rows follow them. */
  ghost predicate Grows(cfg: Config, rows: seq<Row>, next: seq<Row>, more: nat) {
    && |rows| <= |next| <= |rows| + more
    && forall i :: 0 <= i < |rows| && IsTool(cfg, next[i]) ==> IsTool(cfg, rows[i])
  }

  lemma {:induction false} ToolRowsGrow(cfg: Config, rows: seq<Row>, next: seq<Row>, more: nat, from: nat)
    requires Grows(cfg, rows, next, more) && more <= 1 && from <= |rows|
    ensures |ToolRows(cfg, next, from)| <= |ToolRows(cfg, rows, from)| + more
    decreases |rows| - from
  {
    if from < |rows| {
      ToolRowsGrow(cfg, rows, next, more, from + 1);
    } else if from < |next| {
      assert ToolRows(cfg, next, from + 1) == [];
    }
  }

  lemma CreateGrows(cfg: Config, rows: seq<Row>, path: string, text: Option<string>, v: Verdict)
    requires !cfg.dedup
    ensures Grows(cfg, rows, AfterCreate(cfg, rows, path, text, v).rows, 1)
  {}

  lemma DeleteGrows(cfg: Config, rows: seq<Row>, path: string)
    ensures Grows(cfg, rows, AfterDelete(cfg, rows, path).rows, 0)
  {}

  lemma RenameGrows(cfg: Config, rows: seq<Row>, path: string, newPath: string)
    ensures Grows(cfg, rows, AfterRename(cfg, rows, path, newPath).rows, 0)
  {}

  lemma EditGrows(cfg: Config, rows: seq<Row>, at: nat, edit: (Option<string>, Result))
    requires at < |rows|
    ensures Grows(cfg, rows, AfterEdit(rows, at, edit).rows, 0)
  {}

  lemma StepGrows(cfg: Config, rows: seq<Row>, cmd: Command)
    requires !cfg.dedup
    ensures Grows(cfg, rows, After(cfg, rows, cmd).rows, if cmd.Create? then 1 else 0)
  {
    var (why, path, newPath) := PathsOf(cmd);
    if why.None? {
      var at := Lookup(cfg, rows, path);
      match cmd {
        case Create(_, text, v) => CreateGrows(cfg, rows, path, text, v);
        case Delete(_) => DeleteGrows(cfg, rows, path);
        case Rename(_, _) => RenameGrows(cfg, rows, path, newPath);
        case StrReplace(_, needle, replacement) =>
          if at.Some? {
            EditGrows(cfg, rows, at.value, Replacement(path, rows[at.value].body, needle, replacement));
          }
        case InsertAt(_, line, text) =>
          if at.Some? {
            EditGrows(cfg, rows, at.value, Insertion(path, rows[at.value].body, line, text));
          }
        case _ =>
      }
    }
  }

  /** The scope never has more than a thousand files before a command. */
  ghost predicate SmallThroughout(cfg: Config, rows: seq<Row>, cmds: seq<Command>)
    decreases cmds
  {
    cmds == [] || (|ToolRows(cfg, rows, 0)| <= 1000 && SmallThroughout(cfg, After(cfg, rows, cmds[0]).rows, cmds[1..]))
  }

  lemma {:induction false} SmallScopeIsFaithful(cfg: Config, rows: seq<Row>, cmds: seq<Command>)
    requires !cfg.dedup && SmallThroughout(cfg, rows, cmds)
    ensures FaithfulRun(cfg, rows, cmds)
    decreases cmds
  {
    if cmds == [] {
    } else {
      SmallScopeSeesAll(cfg, rows, PathsOf(cmds[0]).1);
      assert Faithful(cfg, rows, cmds[0]);
      SmallScopeIsFaithful(cfg, After(cfg, rows, cmds[0]).rows, cmds[1..]);
    }
  }

  /**
   * With writes that insert, from any table with one live row per path, every command sequence in a scope that
   * never has more than a thousand files is a run of the map machine, answer by answer.
   */
  lemma SmallScopeRunRefines(cfg: Config, rows: seq<Row>, cmds: seq<Command>)
    requires UniquePaths(cfg, rows) && !cfg.dedup && SmallThroughout(cfg, rows, cmds)
    ensures SpecRun(FilesOf(cfg, rows), cmds, Results(cfg, rows, cmds), FilesOf(cfg, Final(cfg, rows, cmds)))
  {
    SmallScopeIsFaithful(cfg, rows, cmds);
    RunRefines(cfg, rows, cmds);
  }

  /** A caller can tell beforehand: only a create adds a file, and it adds one. */
  lemma {:induction false} FewCreatesStaySmall(cfg: Config, rows: seq<Row>, cmds: seq<Command>)
    requires !cfg.dedup && |ToolRows(cfg, rows, 0)| + Creates(cmds) <= 1000
    ensures SmallThroughout(cfg, rows, cmds)
    decreases cmds
  {
    if cmds == [] {
    } else {
      var cmd, next := cmds[0], After(cfg, rows, cmds[0]).rows;
      StepGrows(cfg, rows, cmd);
      ToolRowsGrow(cfg, rows, next, if cmd.Create? then 1 else 0, 0);
      FewCreatesStaySmall(cfg, next, cmds[1..]);
    }
  }
}
