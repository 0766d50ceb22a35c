/**
 * The rows behave as a finite map from canonical path to file: `Spec` is a machine over that map alone,
 * and every command of the backend is a step of it.
 */
module MemoryToolFiles {
  import opened Options
  import opened Sequences
  import opened MemoryTool
  import P = ToolPaths

  datatype File = File(title: string, body: string, status: Status, reason: Option<string>)

  type Files = map<string, File>

  // ----- the machine over the map -----

  predicate Under(path: string, dir: string) {
    DirPrefix(dir) <= path
  }

  function FilesUnder(files: Files, dir: string): set<string> {
    set p | p in files && Under(p, dir)
  }

  ghost predicate StrictlySorted(es: seq<Entry>) {
    forall i, j :: 0 <= i < j < |es| ==> Less(es[i].path, es[j].path)
  }

  /** The listing of a directory: every file under it, once, in order, with its size. */
  ghost predicate Lists(files: Files, dir: string, es: seq<Entry>) {
    && StrictlySorted(es)
    && (forall e :: e in es ==> e.path in FilesUnder(files, dir) && e.size == Utf8Length(files[e.path].body))
    && (forall p :: p in FilesUnder(files, dir) ==> Entry(Utf8Length(files[p].body), p) in es)
  }

  ghost predicate SpecView(files: Files, path: string, window: Option<(int, int)>, result: Result) {
    if path in files then
      result == if files[path].status == Pending then Held(path, ReasonOr(files[path].reason, "awaiting review"))
                else Shows(path, files[path].body, window)
    else if FilesUnder(files, path) == {} && path != P.MEMORY_ROOT then
      result == Failed(NoSuchPath(path))
    else
      && result.Listing? && result.path == path
      && Lists(files, path, result.entries) && result.total == TotalSize(result.entries)
  }

  ghost predicate SpecCreate(files: Files, path: string, text: Option<string>, v: Verdict, next: Files, result: Result) {
    if path == P.MEMORY_ROOT then
      next == files && result == Failed(RootIsDirectory)
    else if text.None? then
      next == files && result == Failed(TextRequired)
    else if path in files then
      next == files[path := files[path].(title := path, body := text.value)] && result == Created(path, Plain)
    else
      next == files[path := File(v.title, v.body, v.status, v.reason)] && result == Created(path, NoteOf(v))
  }

  ghost predicate SpecEdit(files: Files, path: string, edit: (Option<string>, Result), next: Files, result: Result)
    requires path in files
  {
    && next == (if edit.0.Some? then files[path := files[path].(body := edit.0.value)] else files)
    && result == edit.1
  }

  ghost predicate SpecRefused(files: Files, path: string, next: Files, result: Result) {
    next == files && result == Failed(if path !in files then NoSuchPath(path) else HeldFile(path))
  }

  ghost predicate SpecDelete(files: Files, path: string, next: Files, result: Result) {
    if path == P.MEMORY_ROOT then
      next == files && result == Failed(RootStays)
    else if path in files then
      next == files - {path} && result == Deleted(path)
    else if FilesUnder(files, path) == {} then
      next == files && result == Failed(NoSuchPath(path))
    else
      next == files - FilesUnder(files, path) && result == Deleted(path)
  }

  ghost predicate SpecRename(files: Files, path: string, newPath: string, next: Files, result: Result) {
    if path == P.MEMORY_ROOT then
      next == files && result == Failed(RootStays)
    else if path !in files then
      next == files && result == Failed(NoSuchPath(path))
    else if newPath in files then
      next == files && result == Failed(Occupied(newPath))
    else
      next == (files - {path})[newPath := files[path].(title := newPath)] && result == Renamed(path, newPath)
  }

  predicate Readable(files: Files, path: string) {
    path in files && files[path].status != Pending
  }

  /** One command on canonical paths. */
  ghost predicate SpecOn(files: Files, cmd: Command, path: string, newPath: string, next: Files, result: Result) {
    match cmd
    case View(_, window) => next == files && SpecView(files, path, window, result)
    case Create(_, text, v) => SpecCreate(files, path, text, v, next, result)
    case StrReplace(_, needle, replacement) =>
      if Readable(files, path)
      then SpecEdit(files, path, Replacement(path, files[path].body, needle, replacement), next, result)
      else SpecRefused(files, path, next, result)
    case InsertAt(_, line, text) =>
      if Readable(files, path)
      then SpecEdit(files, path, Insertion(path, files[path].body, line, text), next, result)
      else SpecRefused(files, path, next, result)
    case Delete(_) => SpecDelete(files, path, next, result)
    case Rename(_, _) => SpecRename(files, path, newPath, next, result)
    case Unknown => next == files && result == Failed(UnknownCommand)
  }

  /** One command, from one map to the next, with its answer. */
  ghost predicate Spec(files: Files, cmd: Command, next: Files, result: Result) {
    var (why, path, newPath) := PathsOf(cmd);
    if why.Some? then next == files && result == Failed(BadPath(why.value))
    else SpecOn(files, cmd, path, newPath, next, result)
  }

  // ----- from rows to the map -----

  function FileOf(r: Row): File {
    File(r.title, r.body, r.status, r.reason)
  }

  ghost predicate UniquePaths(cfg: Config, rows: seq<Row>) {
    forall i, j :: 0 <= i < j < |rows| && IsTool(cfg, rows[i]) && IsTool(cfg, rows[j]) ==> rows[i].path != rows[j].path
  }

  function Taken(cfg: Config, rows: seq<Row>): set<string> {
    set i | 0 <= i < |rows| && IsTool(cfg, rows[i]) :: rows[i].path.value
  }

  function FilesOf(cfg: Config, rows: seq<Row>): Files {
    map p | p in Taken(cfg, rows) ::
      var at := Lookup(cfg, rows, p); if at.Some? then FileOf(rows[at.value]) else File("", "", Pending, None)
  }

  lemma FileIs(cfg: Config, rows: seq<Row>, i: nat)
    requires UniquePaths(cfg, rows) && i < |rows| && IsTool(cfg, rows[i])
    ensures var p := rows[i].path.value;
            p in FilesOf(cfg, rows) && FilesOf(cfg, rows)[p] == FileOf(rows[i]) && Lookup(cfg, rows, p) == Some(i)
  {
    var p := rows[i].path.value;
    var at := Lookup(cfg, rows, p);
    assert FileAt(cfg, p)(rows[i]);
    assert at.Some? && IsTool(cfg, rows[at.value]);
  }

  lemma LookupIs(cfg: Config, rows: seq<Row>, p: string)
    requires UniquePaths(cfg, rows)
    ensures Lookup(cfg, rows, p).Some? <==> p in FilesOf(cfg, rows)
    ensures Lookup(cfg, rows, p).Some? ==>
              var i := Lookup(cfg, rows, p).value;
              IsTool(cfg, rows[i]) && rows[i].path == Some(p) && FilesOf(cfg, rows)[p] == FileOf(rows[i])
  {
    if p in FilesOf(cfg, rows) {
      var i :| 0 <= i < |rows| && IsTool(cfg, rows[i]) && rows[i].path.value == p;
      FileIs(cfg, rows, i);
    }
  }

  /** A map that agrees with every tool row, and has a tool row for every key, is the map of the rows. */
  lemma FilesAre(cfg: Config, rows: seq<Row>, files: Files)
    requires UniquePaths(cfg, rows)
    requires forall i :: 0 <= i < |rows| && IsTool(cfg, rows[i]) ==>
               rows[i].path.value in files && files[rows[i].path.value] == FileOf(rows[i])
    requires forall p :: p in files ==> exists i :: 0 <= i < |rows| && IsTool(cfg, rows[i]) && rows[i].path == Some(p)
    ensures FilesOf(cfg, rows) == files
  {
    forall p
      ensures p in FilesOf(cfg, rows) <==> p in files
      ensures p in files ==> FilesOf(cfg, rows)[p] == files[p]
    {
      if p in files {
        var i :| 0 <= i < |rows| && IsTool(cfg, rows[i]) && rows[i].path == Some(p);
        FileIs(cfg, rows, i);
      }
    }
  }

  // ----- the four ways rows change -----

  lemma BodyEdited(cfg: Config, rows: seq<Row>, i: nat, body: string, title: string)
    requires UniquePaths(cfg, rows) && i < |rows| && IsTool(cfg, rows[i])
    ensures var next := rows[i := rows[i].(body := body, title := title)];
            var p := rows[i].path.value;
            && UniquePaths(cfg, next)
            && FilesOf(cfg, next) == FilesOf(cfg, rows)[p := FilesOf(cfg, rows)[p].(title := title, body := body)]
  {
    var next := rows[i := rows[i].(body := body, title := title)];
    var p, files := rows[i].path.value, FilesOf(cfg, rows);
    FileIs(cfg, rows, i);
    assert forall k :: 0 <= k < |rows| ==> (IsTool(cfg, next[k]) <==> IsTool(cfg, rows[k])) && next[k].path == rows[k].path;
    forall k | 0 <= k < |next| && IsTool(cfg, next[k])
      ensures next[k].path.value in files && (k != i ==> next[k].path.value != p && files[next[k].path.value] == FileOf(next[k]))
    {
      FileIs(cfg, rows, k);
    }
    forall q | q in files
      ensures exists k :: 0 <= k < |next| && IsTool(cfg, next[k]) && next[k].path == Some(q)
    {
      LookupIs(cfg, rows, q);
      assert IsTool(cfg, next[Lookup(cfg, rows, q).value]);
    }
    FilesAre(cfg, next, files[p := files[p].(title := title, body := body)]);
  }

  function Left(r: Row): set<string> {
    if r.path.Some? then {r.path.value} else {}
  }

  /** The other tool rows keep their paths, which are neither the one given up nor the one taken. */
  lemma OthersStay(cfg: Config, rows: seq<Row>, i: nat, q: string, k: nat)
    requires UniquePaths(cfg, rows) && i < |rows| && Visible(cfg, rows[i]) && q !in FilesOf(cfg, rows)
    requires k < |rows| && IsTool(cfg, rows[k])
    ensures var p, files := rows[k].path.value, FilesOf(cfg, rows);
            p in files && p != q && files[p] == FileOf(rows[k]) && (k != i ==> p !in Left(rows[i]))
  {
    FileIs(cfg, rows, k);
    if k != i && rows[i].path.Some? {
      FileIs(cfg, rows, i);
    }
  }

  /** A visible row takes a free path, giving up the one it had, if any. */
  lemma PathMoved(cfg: Config, rows: seq<Row>, i: nat, q: string, title: string)
    requires UniquePaths(cfg, rows) && i < |rows| && Visible(cfg, rows[i]) && q !in FilesOf(cfg, rows)
    ensures var next := rows[i := rows[i].(title := title, path := Some(q))];
            && UniquePaths(cfg, next)
            && FilesOf(cfg, next) == (FilesOf(cfg, rows) - Left(rows[i]))[q := FileOf(rows[i]).(title := title)]
  {
    var next := rows[i := rows[i].(title := title, path := Some(q))];
    var files := FilesOf(cfg, rows);
    var moved := (files - Left(rows[i]))[q := FileOf(rows[i]).(title := title)];
    forall k | 0 <= k < |next| && IsTool(cfg, next[k])
      ensures next[k].path.value in moved && moved[next[k].path.value] == FileOf(next[k])
      ensures k != i ==> next[k] == rows[k] && next[k].path.value != q
    {
      if k != i {
        OthersStay(cfg, rows, i, q, k);
      }
    }
    assert UniquePaths(cfg, next);
    forall p | p in moved
      ensures exists k :: 0 <= k < |next| && IsTool(cfg, next[k]) && next[k].path == Some(p)
    {
      if p == q {
        assert IsTool(cfg, next[i]) && next[i].path == Some(p);
      } else {
        LookupIs(cfg, rows, p);
        var k := Lookup(cfg, rows, p).value;
        assert k != i && IsTool(cfg, next[k]) && next[k].path == Some(p);
      }
    }
    FilesAre(cfg, next, moved);
  }

  lemma RowAdded(cfg: Config, rows: seq<Row>, r: Row)
    requires UniquePaths(cfg, rows) && IsTool(cfg, r) && r.path.value !in FilesOf(cfg, rows)
    ensures UniquePaths(cfg, rows + [r])
    ensures FilesOf(cfg, rows + [r]) == FilesOf(cfg, rows)[r.path.value := FileOf(r)]
  {
    var next, files := rows + [r], FilesOf(cfg, rows);
    forall k | 0 <= k < |rows| && IsTool(cfg, rows[k])
      ensures rows[k].path.value in files && rows[k].path != r.path && files[rows[k].path.value] == FileOf(rows[k])
    {
      FileIs(cfg, rows, k);
    }
    forall p | p in files[r.path.value := FileOf(r)]
      ensures exists k :: 0 <= k < |next| && IsTool(cfg, next[k]) && next[k].path == Some(p)
    {
      if p == r.path.value {
        assert IsTool(cfg, next[|rows|]) && next[|rows|].path == Some(p);
      } else {
        LookupIs(cfg, rows, p);
        var k := Lookup(cfg, rows, p).value;
        assert next[k] == rows[k];
      }
    }
    FilesAre(cfg, next, files[r.path.value := FileOf(r)]);
  }

  ghost predicate Covers(cfg: Config, rows: seq<Row>, at: seq<nat>, gone: set<string>) {
    && (forall i :: i in at && i < |rows| && IsTool(cfg, rows[i]) ==> rows[i].path.value in gone)
    && (forall i :: 0 <= i < |rows| && IsTool(cfg, rows[i]) && rows[i].path.value in gone ==> i in at)
  }

  lemma RowsKilled(cfg: Config, rows: seq<Row>, at: seq<nat>, gone: set<string>)
    requires UniquePaths(cfg, rows) && Covers(cfg, rows, at, gone)
    ensures UniquePaths(cfg, Killed(rows, at)) && FilesOf(cfg, Killed(rows, at)) == FilesOf(cfg, rows) - gone
  {
    var next, files := Killed(rows, at), FilesOf(cfg, rows);
    forall k | 0 <= k < |next| && IsTool(cfg, next[k])
      ensures next[k] == rows[k] && next[k].path.value in files - gone && files[next[k].path.value] == FileOf(next[k])
    {
      FileIs(cfg, rows, k);
    }
    forall p | p in files - gone
      ensures exists k :: 0 <= k < |next| && IsTool(cfg, next[k]) && next[k].path == Some(p)
    {
      LookupIs(cfg, rows, p);
      var k := Lookup(cfg, rows, p).value;
      assert k !in at && next[k] == rows[k];
    }
    FilesAre(cfg, next, files - gone);
  }

  // ----- directories -----

  lemma {:induction false} ToolRowsAre(cfg: Config, rows: seq<Row>, from: nat, i: nat)
    requires from <= |rows|
    ensures i in ToolRows(cfg, rows, from) <==> from <= i < |rows| && IsTool(cfg, rows[i])
    decreases |rows| - from
  {
    if from >= |rows| {
    } else {
      ToolRowsAre(cfg, rows, from + 1, i);
    }
  }

  /** Every file under the directory is among the first thousand tool rows. */
  ghost predicate TreeReaches(cfg: Config, rows: seq<Row>, dir: string) {
    forall i :: 0 <= i < |rows| && IsTool(cfg, rows[i]) && Under(rows[i].path.value, dir) ==> i in Tree(cfg, rows)
  }

  lemma ChildrenAre(cfg: Config, rows: seq<Row>, dir: string, i: nat)
    ensures i in Children(cfg, rows, dir) <==>
            i in Tree(cfg, rows) && i < |rows| && IsTool(cfg, rows[i]) && Under(rows[i].path.value, dir)
  {
    FilterMember(Tree(cfg, rows), Beneath(rows, dir), i);
    ToolRowsAre(cfg, rows, 0, i);
  }

  lemma ChildrenCover(cfg: Config, rows: seq<Row>, dir: string)
    requires UniquePaths(cfg, rows) && TreeReaches(cfg, rows, dir)
    ensures Covers(cfg, rows, Children(cfg, rows, dir), FilesUnder(FilesOf(cfg, rows), dir))
    ensures Children(cfg, rows, dir) == [] <==> FilesUnder(FilesOf(cfg, rows), dir) == {}
  {
    var children, files := Children(cfg, rows, dir), FilesOf(cfg, rows);
    forall i | 0 <= i < |rows| && IsTool(cfg, rows[i])
      ensures i in children <==> rows[i].path.value in FilesUnder(files, dir)
    {
      ChildrenAre(cfg, rows, dir, i);
      FileIs(cfg, rows, i);
    }
    if children != [] {
      ChildrenAre(cfg, rows, dir, children[0]);
      assert children[0] in children;
      assert rows[children[0]].path.value in FilesUnder(files, dir);
    }
    if p :| p in FilesUnder(files, dir) {
      LookupIs(cfg, rows, p);
      assert Lookup(cfg, rows, p).value in children;
    }
  }

  /**
   * Deleting a directory removes exactly the files under it if and only if none of them lies beyond the
   * thousand tool rows that directory operations see.
   */
  lemma DirectoryDeleteIff(cfg: Config, rows: seq<Row>, dir: string)
    requires UniquePaths(cfg, rows) && dir != P.MEMORY_ROOT && dir !in FilesOf(cfg, rows)
    ensures UniquePaths(cfg, AfterDelete(cfg, rows, dir).rows)
    ensures FilesOf(cfg, AfterDelete(cfg, rows, dir).rows) == FilesOf(cfg, rows) - FilesUnder(FilesOf(cfg, rows), dir)
            <==> TreeReaches(cfg, rows, dir)
  {
    var files, children := FilesOf(cfg, rows), Children(cfg, rows, dir);
    LookupIs(cfg, rows, dir);
    if TreeReaches(cfg, rows, dir) {
      ChildrenCover(cfg, rows, dir);
      RowsKilled(cfg, rows, children, FilesUnder(files, dir));
      assert children == [] ==> files - FilesUnder(files, dir) == files;
    } else {
      var gone := set i | i in children && i < |rows| && rows[i].path.Some? :: rows[i].path.value;
      forall i | 0 <= i < |rows| && IsTool(cfg, rows[i])
        ensures i in children <==> rows[i].path.value in gone
      {
        if rows[i].path.value in gone {
          var j :| j in children && j < |rows| && rows[j].path.Some? && rows[j].path.value == rows[i].path.value;
          ChildrenAre(cfg, rows, dir, j);
        }
      }
      RowsKilled(cfg, rows, children, gone);
      assert children == [] ==> files - gone == files;
      var i :| 0 <= i < |rows| && IsTool(cfg, rows[i]) && Under(rows[i].path.value, dir) && i !in Tree(cfg, rows);
      ChildrenAre(cfg, rows, dir, i);
      FileIs(cfg, rows, i);
      assert rows[i].path.value in files - gone;
    }
  }

  // ----- creating -----

  /** What creating a new file should do to the map. */
  function MapAfterCreate(files: Files, path: string, v: Verdict): Files {
    files[path := File(v.title, v.body, v.status, v.reason)]
  }

  /** A write that folds would still give the right file: it lands on a row that had no path and held just that. */
  predicate FoldIsHarmless(cfg: Config, rows: seq<Row>, v: Verdict) {
    var at := FoldsInto(cfg, rows, v);
    at.None? || (rows[at.value].path.None? && FileOf(rows[at.value]) == File(v.title, v.body, v.status, v.reason))
  }

  lemma StoredFiles(cfg: Config, rows: seq<Row>, path: string, v: Verdict)
    requires UniquePaths(cfg, rows) && path !in FilesOf(cfg, rows)
    ensures var files, at := FilesOf(cfg, rows), FoldsInto(cfg, rows, v);
            var next := Stored(cfg, rows, path, v).rows;
            && UniquePaths(cfg, next)
            && FilesOf(cfg, next) ==
               if at.None? then MapAfterCreate(files, path, v)
               else
                 var r := rows[at.value];
                 (files - Left(r))[path := FileOf(r)]
  {
    var at := FoldsInto(cfg, rows, v);
    if at.Some? {
      PathMoved(cfg, rows, at.value, path, rows[at.value].title);
      assert rows[at.value].(title := rows[at.value].title, path := Some(path)) == rows[at.value].(path := Some(path));
    } else {
      var hash := if cfg.dedup then Some(cfg.fingerprint(v.title, v.body)) else None;
      RowAdded(cfg, rows, NewRow(cfg, path, v, hash));
    }
  }

  /**
   * Creating a file at a free path is the map update if and only if the write does not fold into another
   * row, or folds into one that was no file and held the same text under the same review status. A fold
   * into another file takes that file's row away from its path.
   */
  lemma CreateIff(cfg: Config, rows: seq<Row>, path: string, v: Verdict)
    requires UniquePaths(cfg, rows) && path !in FilesOf(cfg, rows)
    ensures FilesOf(cfg, Stored(cfg, rows, path, v).rows) == MapAfterCreate(FilesOf(cfg, rows), path, v)
            <==> FoldIsHarmless(cfg, rows, v)
  {
    var files, at := FilesOf(cfg, rows), FoldsInto(cfg, rows, v);
    StoredFiles(cfg, rows, path, v);
    if at.Some? {
      var r := rows[at.value];
      if r.path.Some? {
        FileIs(cfg, rows, at.value);
        assert r.path.value in MapAfterCreate(files, path, v);
        assert r.path.value !in (files - {r.path.value})[path := FileOf(r)];
      } else {
        assert files - {} == files;
        assert files[path := FileOf(r)][path] == FileOf(r);
      }
    }
  }
}
