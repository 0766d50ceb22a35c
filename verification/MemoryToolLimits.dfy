/**
 * Where the rows part from the map, shown on actual commands: a directory of more than a thousand files, a
 * create that folds into a renamed file, and a file that takes the place of the root directory.
 */
module MemoryToolLimits {
  import opened Options
  import opened Sequences
  import opened ToolViews
  import opened MemoryTool
  import opened MemoryToolFiles
  import opened MemoryToolRuns
  import P = ToolPaths

  // ----- names -----

  /** `n` times the letter a: a name for each n > 0, no two alike. */
  function Name(n: nat): (name: string)
    ensures |name| == n
  {
    seq(n, _ => 'a')
  }

  lemma NameIsPlain(n: nat)
    requires 0 < n
    ensures P.PlainName(Name(n))
  {
    assert forall c :: c in Name(n) ==> c == 'a';
    assert Name(n)[0] == 'a';
  }

  // ----- a directory of more than a thousand files -----

  /** File number `i` of a directory directly under the root. */
  function CrowdedRow(cfg: Config, dir: string, i: nat): Row {
    Row(cfg.org, cfg.scopeKind, cfg.scopeId, true, Some(P.InRoot(dir) + "/" + Name(i + 1)), "", "", Approved, None, None)
  }

  function Crowd(cfg: Config, dir: string, n: nat): (rows: seq<Row>)
    ensures |rows| == n && forall i :: 0 <= i < n ==> rows[i] == CrowdedRow(cfg, dir, i)
  {
    seq(n, i requires 0 <= i < n => CrowdedRow(cfg, dir, i))
  }

  lemma {:induction false} AllToolRows(cfg: Config, rows: seq<Row>, from: nat)
    requires from <= |rows| && forall i :: from <= i < |rows| ==> IsTool(cfg, rows[i])
    ensures |ToolRows(cfg, rows, from)| == |rows| - from
    ensures forall k :: 0 <= k < |rows| - from ==> ToolRows(cfg, rows, from)[k] == from + k
    decreases |rows| - from
  {
    if from == |rows| {
    } else {
      AllToolRows(cfg, rows, from + 1);
    }
  }

  lemma CrowdIsUnique(cfg: Config, dir: string, n: nat)
    ensures UniquePaths(cfg, Crowd(cfg, dir, n))
  {
    var rows := Crowd(cfg, dir, n);
    forall i, j | 0 <= i < j < n
      ensures rows[i].path != rows[j].path
    {
      assert |rows[i].path.value| == |P.InRoot(dir)| + 1 + i + 1;
      assert |rows[j].path.value| == |P.InRoot(dir)| + 1 + j + 1;
    }
  }

  lemma CrowdIsUnder(cfg: Config, dir: string, n: nat, i: nat)
    requires i < n && P.PlainName(dir)
    ensures IsTool(cfg, Crowd(cfg, dir, n)[i]) && Under(Crowd(cfg, dir, n)[i].path.value, P.InRoot(dir))
  {
    assert Last(P.InRoot(dir)) == Last(dir) && Last(dir) in dir;
    assert RStripSlashes(P.InRoot(dir)) == P.InRoot(dir);
  }

  /** Directory operations see a directory of n files if and only if n is at most a thousand. */
  lemma CrowdIsSeenIff(cfg: Config, dir: string, n: nat)
    requires P.PlainName(dir)
    ensures UniquePaths(cfg, Crowd(cfg, dir, n))
    ensures TreeReaches(cfg, Crowd(cfg, dir, n), P.InRoot(dir)) <==> n <= 1000
  {
    var rows := Crowd(cfg, dir, n);
    CrowdIsUnique(cfg, dir, n);
    AllToolRows(cfg, rows, 0);
    if n <= TREE_LIMIT {
      SmallScopeSeesAll(cfg, rows, P.InRoot(dir));
    } else {
      CrowdIsUnder(cfg, dir, n, TREE_LIMIT);
      assert TREE_LIMIT !in Tree(cfg, rows);
    }
  }

  lemma DeletesPath(cfg: Config, rows: seq<Row>, raw: string, dir: string)
    requires P.Normalise(Some(raw)) == P.Canonical(dir)
    ensures After(cfg, rows, Delete(Some(raw))) == AfterDelete(cfg, rows, dir)
  {}

  lemma UnseenIsUnfaithful(cfg: Config, rows: seq<Row>, raw: string, dir: string)
    requires P.Normalise(Some(raw)) == P.Canonical(dir) && dir != P.MEMORY_ROOT && !SeesDirectory(cfg, rows, dir)
    ensures !Faithful(cfg, rows, Delete(Some(raw))) && !Faithful(cfg, rows, View(Some(raw), None))
  {}

  /** A directory with a file beyond the thousand rows is neither listed nor deleted whole. */
  lemma UnseenIsNotDeleted(cfg: Config, rows: seq<Row>, raw: string, dir: string)
    requires UniquePaths(cfg, rows) && !TreeReaches(cfg, rows, dir)
    requires P.Normalise(Some(raw)) == P.Canonical(dir) && dir != P.MEMORY_ROOT && dir !in FilesOf(cfg, rows)
    ensures !Faithful(cfg, rows, Delete(Some(raw))) && !Faithful(cfg, rows, View(Some(raw), None))
    ensures FilesOf(cfg, After(cfg, rows, Delete(Some(raw))).rows)
            != FilesOf(cfg, rows) - FilesUnder(FilesOf(cfg, rows), dir)
  {
    UnseenIsUnfaithful(cfg, rows, raw, dir);
    DeletesPath(cfg, rows, raw, dir);
    var next := AfterDelete(cfg, rows, dir).rows;
    assert FilesOf(cfg, next) != FilesOf(cfg, rows) - FilesUnder(FilesOf(cfg, rows), dir) by {
      DirectoryDeleteIff(cfg, rows, dir);
    }
  }

  lemma NoFileAtCrowd(cfg: Config, dir: string, n: nat)
    ensures P.InRoot(dir) !in FilesOf(cfg, Crowd(cfg, dir, n))
  {
    var rows := Crowd(cfg, dir, n);
    forall i | 0 <= i < n
      ensures rows[i].path != Some(P.InRoot(dir))
    {
      assert |rows[i].path.value| > |P.InRoot(dir)|;
    }
  }

  /** So listing a directory of 1001 files leaves one out, and deleting it leaves one behind. */
  lemma CrowdIsNotDeleted(cfg: Config, dir: string, n: nat)
    requires P.PlainName(dir) && 1000 < n
    ensures var rows, raw := Crowd(cfg, dir, n), Some(P.InRoot(dir) + "/");
            && P.Normalise(raw) == P.Canonical(P.InRoot(dir))
            && !Faithful(cfg, rows, Delete(raw)) && !Faithful(cfg, rows, View(raw, None))
            && FilesOf(cfg, After(cfg, rows, Delete(raw)).rows)
               != FilesOf(cfg, rows) - FilesUnder(FilesOf(cfg, rows), P.InRoot(dir))
  {
    P.InRootIsReached(dir);
    CrowdIsSeenIff(cfg, dir, n);
    NoFileAtCrowd(cfg, dir, n);
    assert |P.InRoot(dir)| > |P.MEMORY_ROOT|;
    UnseenIsNotDeleted(cfg, Crowd(cfg, dir, n), P.InRoot(dir) + "/", P.InRoot(dir));
  }

  // ----- a fold that loses a file -----

  lemma SingleFile(cfg: Config, r: Row)
    requires IsTool(cfg, r)
    ensures FilesOf(cfg, [r]) == map[r.path.value := FileOf(r)]
  {
    assert [r][0] == r;
    FilesAre(cfg, [r], map[r.path.value := FileOf(r)]);
  }

  lemma FirstOfOne(r: Row, p: Row -> bool)
    ensures First([r], p) == if p(r) then Some(0) else None
  {
    assert [r][0] == r && [r][1..] == [];
  }

  function Recreate(p: string, q: string, text: string, v: Verdict, line: string): seq<Command> {
    [Create(Some(p), Some(text), v), InsertAt(Some(p), Some(0), Some(line)), Rename(Some(p), Some(q)),
     Create(Some(p), Some(text), v)]
  }

  lemma CreatesFirst(cfg: Config, p: string, path: string, text: string, v: Verdict)
    requires cfg.dedup && P.Normalise(Some(p)) == P.Canonical(path) && path != P.MEMORY_ROOT
    ensures After(cfg, [], Create(Some(p), Some(text), v))
            == Outcome([NewRow(cfg, path, v, Some(cfg.fingerprint(v.title, v.body)))], Created(path, NoteOf(v)))
  {
    var hash := Some(cfg.fingerprint(v.title, v.body));
    assert [] + [NewRow(cfg, path, v, hash)] == [NewRow(cfg, path, v, hash)];
  }

  lemma InsertsOnly(cfg: Config, p: string, path: string, r: Row, line: string)
    requires P.Normalise(Some(p)) == P.Canonical(path) && Visible(cfg, r) && r.path == Some(path) && r.status != Pending
    ensures After(cfg, [r], InsertAt(Some(p), Some(0), Some(line)))
            == Outcome([r.(body := Inserted(r.body, 0, line))], InsertDone(path))
  {
    FirstOfOne(r, FileAt(cfg, path));
    assert [r][0 := r.(body := Inserted(r.body, 0, line))] == [r.(body := Inserted(r.body, 0, line))];
  }

  lemma RenamesPath(cfg: Config, rows: seq<Row>, p: string, path: string, q: string, newPath: string)
    requires P.Normalise(Some(p)) == P.Canonical(path) && P.Normalise(Some(q)) == P.Canonical(newPath)
    ensures After(cfg, rows, Rename(Some(p), Some(q))) == AfterRename(cfg, rows, path, newPath)
  {}

  lemma RenamesOnly(cfg: Config, p: string, path: string, q: string, newPath: string, r: Row)
    requires P.Normalise(Some(p)) == P.Canonical(path) && P.Normalise(Some(q)) == P.Canonical(newPath)
    requires Visible(cfg, r) && r.path == Some(path) && path != P.MEMORY_ROOT && path != newPath
    ensures After(cfg, [r], Rename(Some(p), Some(q)))
            == Outcome([r.(title := newPath, path := Some(newPath))], Renamed(path, newPath))
  {
    RenamesPath(cfg, [r], p, path, q, newPath);
    FirstOfOne(r, FileAt(cfg, path));
    FirstOfOne(r, FileAt(cfg, newPath));
  }

  lemma FoldsBack(cfg: Config, p: string, path: string, r: Row, text: string, v: Verdict)
    requires cfg.dedup && P.Normalise(Some(p)) == P.Canonical(path) && path != P.MEMORY_ROOT
    requires Visible(cfg, r) && r.path != Some(path) && r.hash == Some(cfg.fingerprint(v.title, v.body))
    ensures After(cfg, [r], Create(Some(p), Some(text), v)) == Outcome([r.(path := Some(path))], Created(path, Plain))
  {
    FirstOfOne(r, FileAt(cfg, path));
    FirstOfOne(r, HashedAs(cfg, cfg.fingerprint(v.title, v.body)));
  }

  lemma RunOfFour(cfg: Config, cmds: seq<Command>, one: Outcome, two: Outcome, three: Outcome, four: Outcome)
    requires |cmds| == 4 && After(cfg, [], cmds[0]) == one && After(cfg, one.rows, cmds[1]) == two
    requires After(cfg, two.rows, cmds[2]) == three && After(cfg, three.rows, cmds[3]) == four
    ensures Results(cfg, [], cmds) == [one.result, two.result, three.result, four.result]
    ensures Final(cfg, [], cmds[..3]) == three.rows && Final(cfg, [], cmds) == four.rows
  {
    var tail := cmds[1..];
    assert tail[0] == cmds[1] && tail[1..][0] == cmds[2] && tail[1..][1..][0] == cmds[3] && tail[1..][1..][1..] == [];
    assert Results(cfg, three.rows, tail[1..][1..]) == [four.result];
    assert Results(cfg, two.rows, tail[1..]) == [three.result, four.result];
    assert Results(cfg, one.rows, tail) == [two.result, three.result, four.result];
    var short := cmds[..3];
    assert short[1..][0] == cmds[1] && short[1..][1..][0] == cmds[2] && short[1..][1..][1..] == [];
    assert Final(cfg, two.rows, short[1..][1..]) == three.rows;
    assert Final(cfg, one.rows, short[1..]) == three.rows;
    assert Final(cfg, three.rows, tail[1..][1..]) == four.rows;
    assert Final(cfg, two.rows, tail[1..]) == four.rows;
    assert Final(cfg, one.rows, tail) == four.rows;
  }

  /**
   * Create, insert, rename, create again with the first text: the fingerprint of the first create is still
   * on the renamed row, so the last create reports success, moves that row back, and shows the edited
   * text at the old path while the renamed file is gone.
   */
  lemma RecreateLosesRenamedFile(
    cfg: Config, p: string, path: string, q: string, newPath: string, text: string, v: Verdict, line: string)
    requires cfg.dedup && v.status != Pending
    requires P.Normalise(Some(p)) == P.Canonical(path) && P.Normalise(Some(q)) == P.Canonical(newPath)
    requires path != P.MEMORY_ROOT && path != newPath
    ensures var cmds, file := Recreate(p, q, text, v, line), File(newPath, Inserted(v.body, 0, line), v.status, v.reason);
            && Results(cfg, [], cmds)
               == [Created(path, NoteOf(v)), InsertDone(path), Renamed(path, newPath), Created(path, Plain)]
            && FilesOf(cfg, Final(cfg, [], cmds[..3])) == map[newPath := file]
            && FilesOf(cfg, Final(cfg, [], cmds)) == map[path := file]
  {
    RecreateRuns(cfg, p, path, q, newPath, text, v, line);
    var r := NewRow(cfg, newPath, v, Some(cfg.fingerprint(v.title, v.body))).(title := newPath, body := Inserted(v.body, 0, line));
    SingleFile(cfg, r);
    SingleFile(cfg, r.(path := Some(path)));
  }

  lemma RecreateRuns(
    cfg: Config, p: string, path: string, q: string, newPath: string, text: string, v: Verdict, line: string)
    requires cfg.dedup && v.status != Pending
    requires P.Normalise(Some(p)) == P.Canonical(path) && P.Normalise(Some(q)) == P.Canonical(newPath)
    requires path != P.MEMORY_ROOT && path != newPath
    ensures var cmds := Recreate(p, q, text, v, line);
            var r := NewRow(cfg, newPath, v, Some(cfg.fingerprint(v.title, v.body))).(title := newPath, body := Inserted(v.body, 0, line));
            && Results(cfg, [], cmds)
               == [Created(path, NoteOf(v)), InsertDone(path), Renamed(path, newPath), Created(path, Plain)]
            && Final(cfg, [], cmds[..3]) == [r] && Final(cfg, [], cmds) == [r.(path := Some(path))]
  {
    var cmds := Recreate(p, q, text, v, line);
    var r1 := NewRow(cfg, path, v, Some(cfg.fingerprint(v.title, v.body)));
    var r2 := r1.(body := Inserted(v.body, 0, line));
    var r3 := r2.(title := newPath, path := Some(newPath));
    var r4 := r3.(path := Some(path));
    var one, two := Outcome([r1], Created(path, NoteOf(v))), Outcome([r2], InsertDone(path));
    var three, four := Outcome([r3], Renamed(path, newPath)), Outcome([r4], Created(path, Plain));
    assert After(cfg, [], cmds[0]) == one by {
      CreatesFirst(cfg, p, path, text, v);
    }
    assert After(cfg, [r1], cmds[1]) == two by {
      InsertsOnly(cfg, p, path, r1, line);
    }
    assert After(cfg, [r2], cmds[2]) == three by {
      RenamesOnly(cfg, p, path, q, newPath, r2);
    }
    assert After(cfg, [r3], cmds[3]) == four by {
      FoldsBack(cfg, p, path, r3, text, v);
    }
    RunOfFour(cfg, cmds, one, two, three, four);
  }

  lemma TwoPaths(n: nat, m: nat)
    requires 0 < n && 0 < m && n != m
    ensures P.Normalise(Some(P.InRoot(Name(n)) + "/")) == P.Canonical(P.InRoot(Name(n)))
    ensures P.Normalise(Some(P.InRoot(Name(m)) + "/")) == P.Canonical(P.InRoot(Name(m)))
    ensures P.InRoot(Name(n)) != P.MEMORY_ROOT && P.InRoot(Name(n)) != P.InRoot(Name(m))
  {
    NameIsPlain(n);
    NameIsPlain(m);
    P.InRootIsReached(Name(n));
    P.InRootIsReached(Name(m));
    assert |P.InRoot(Name(n))| == |P.MEMORY_ROOT| + 1 + n && |P.InRoot(Name(m))| == |P.MEMORY_ROOT| + 1 + m;
  }

  /** It happens to `/memories/a`, renamed to `/memories/aa`. */
  lemma RecreateHappens(cfg: Config, text: string, v: Verdict, line: string)
    requires cfg.dedup && v.status != Pending
    ensures var path, newPath := P.InRoot(Name(1)), P.InRoot(Name(2));
            var cmds, file := Recreate(path + "/", newPath + "/", text, v, line), File(newPath, Inserted(v.body, 0, line), v.status, v.reason);
            && FilesOf(cfg, Final(cfg, [], cmds[..3])) == map[newPath := file]
            && FilesOf(cfg, Final(cfg, [], cmds)) == map[path := file]
  {
    var path, newPath := P.InRoot(Name(1)), P.InRoot(Name(2));
    TwoPaths(1, 2);
    RecreateLosesRenamedFile(cfg, path + "/", path, newPath + "/", newPath, text, v, line);
  }

  // ----- the root -----

  predicate AtRoot(cfg: Config, r: Row) {
    IsTool(cfg, r) && r.path == Some(P.MEMORY_ROOT)
  }

  ghost predicate RootIsFile(cfg: Config, rows: seq<Row>) {
    exists i :: 0 <= i < |rows| && AtRoot(cfg, rows[i])
  }

  lemma RootIsFileIff(cfg: Config, rows: seq<Row>)
    ensures RootIsFile(cfg, rows) <==> P.MEMORY_ROOT in FilesOf(cfg, rows)
  {
    if P.MEMORY_ROOT in FilesOf(cfg, rows) {
      var i :| 0 <= i < |rows| && IsTool(cfg, rows[i]) && rows[i].path.value == P.MEMORY_ROOT;
      assert AtRoot(cfg, rows[i]);
    }
    if RootIsFile(cfg, rows) {
      var i :| 0 <= i < |rows| && AtRoot(cfg, rows[i]);
      assert rows[i].path.value in Taken(cfg, rows);
    }
  }

  /** The rows at the root after a step are rows that were there before it, and none of those has gone. */
  ghost predicate SameRoot(cfg: Config, rows: seq<Row>, next: seq<Row>) {
    && |rows| <= |next|
    && (forall i :: 0 <= i < |rows| ==> (AtRoot(cfg, next[i]) <==> AtRoot(cfg, rows[i])))
    && (forall i :: |rows| <= i < |next| ==> !AtRoot(cfg, next[i]))
  }

  lemma SameRootIs(cfg: Config, rows: seq<Row>, next: seq<Row>)
    requires SameRoot(cfg, rows, next)
    ensures RootIsFile(cfg, next) <==> RootIsFile(cfg, rows)
  {
    if RootIsFile(cfg, next) {
      var i :| 0 <= i < |next| && AtRoot(cfg, next[i]);
      assert i < |rows| && AtRoot(cfg, rows[i]);
    }
    if RootIsFile(cfg, rows) {
      var i :| 0 <= i < |rows| && AtRoot(cfg, rows[i]);
      assert AtRoot(cfg, next[i]);
    }
  }

  lemma EditKeepsRoot(cfg: Config, rows: seq<Row>, at: nat, edit: (Option<string>, Result))
    requires at < |rows|
    ensures SameRoot(cfg, rows, AfterEdit(rows, at, edit).rows)
  {}

  /** The root is not under any directory of the tool. */
  lemma RootIsNotUnder(raw: Option<string>, dir: string)
    requires P.Normalise(raw) == P.Canonical(dir) && dir != P.MEMORY_ROOT
    ensures !Under(P.MEMORY_ROOT, dir)
  {
    P.NormalisationCollapses(raw.value);
    assert P.MEMORY_ROOT + "/" <= dir;
    KeepsFirstSlash(dir, |P.MEMORY_ROOT|);
  }

  lemma {:induction false} KeepsFirstSlash(s: string, n: nat)
    requires n <= |s| && (n > 0 ==> s[n - 1] != '/')
    ensures n <= |RStripSlashes(s)|
  {
    if s != "" && Last(s) == '/' {
      KeepsFirstSlash(s[..|s| - 1], n);
    }
  }

  lemma DeleteKeepsRoot(cfg: Config, rows: seq<Row>, raw: Option<string>, path: string)
    requires P.Normalise(raw) == P.Canonical(path)
    ensures SameRoot(cfg, rows, AfterDelete(cfg, rows, path).rows)
  {
    if path != P.MEMORY_ROOT {
      RootIsNotUnder(raw, path);
      forall i | i in Children(cfg, rows, path) && i < |rows|
        ensures rows[i].path != Some(P.MEMORY_ROOT)
      {
        ChildrenAre(cfg, rows, path, i);
      }
    }
  }

  /** A create that folds into the file at the root. */
  predicate FoldsIntoRoot(cfg: Config, rows: seq<Row>, cmd: Command) {
    var (why, path, _) := PathsOf(cmd);
    && cmd.Create? && why.None? && path != P.MEMORY_ROOT && cmd.text.Some? && Lookup(cfg, rows, path).None?
    && (var at := FoldsInto(cfg, rows, cmd.verdict); at.Some? && AtRoot(cfg, rows[at.value]))
  }

  /** A rename of an existing file onto the root. */
  predicate RenamesOntoRoot(cfg: Config, rows: seq<Row>, cmd: Command) {
    var (why, path, newPath) := PathsOf(cmd);
    && cmd.Rename? && why.None? && newPath == P.MEMORY_ROOT && path != P.MEMORY_ROOT
    && Lookup(cfg, rows, path).Some? && Lookup(cfg, rows, newPath).None?
  }

  lemma CreateKeepsRoot(cfg: Config, rows: seq<Row>, path: string, text: Option<string>, v: Verdict)
    requires path != P.MEMORY_ROOT && text.Some? && Lookup(cfg, rows, path).None? ==>
               FoldsInto(cfg, rows, v).None? || !AtRoot(cfg, rows[FoldsInto(cfg, rows, v).value])
    ensures SameRoot(cfg, rows, AfterCreate(cfg, rows, path, text, v).rows)
  {}

  lemma RenameKeepsRoot(cfg: Config, rows: seq<Row>, path: string, newPath: string)
    requires newPath != P.MEMORY_ROOT || path == P.MEMORY_ROOT || Lookup(cfg, rows, path).None? || Lookup(cfg, rows, newPath).Some?
    ensures SameRoot(cfg, rows, AfterRename(cfg, rows, path, newPath).rows)
  {}

  lemma StepKeepsRoot(cfg: Config, rows: seq<Row>, cmd: Command)
    requires !FoldsIntoRoot(cfg, rows, cmd) && !RenamesOntoRoot(cfg, rows, cmd)
    ensures SameRoot(cfg, rows, After(cfg, rows, cmd).rows)
  {
    var (why, path, newPath) := PathsOf(cmd);
    if why.None? {
      var at := Lookup(cfg, rows, path);
      match cmd {
        case Create(_, text, v) => CreateKeepsRoot(cfg, rows, path, text, v);
        case Delete(_) => DeleteKeepsRoot(cfg, rows, cmd.path, path);
        case Rename(_, _) => RenameKeepsRoot(cfg, rows, path, newPath);
        case StrReplace(_, needle, replacement) =>
          if at.Some? {
            EditKeepsRoot(cfg, rows, at.value, Replacement(path, rows[at.value].body, needle, replacement));
          }
        case InsertAt(_, line, text) =>
          if at.Some? {
            EditKeepsRoot(cfg, rows, at.value, Insertion(path, rows[at.value].body, line, text));
          }
        case _ =>
      }
    }
  }

  /** The root turns from a directory into a file by a rename onto it, and by nothing else. */
  lemma RootIsTakenIff(cfg: Config, rows: seq<Row>, cmd: Command)
    requires !RootIsFile(cfg, rows)
    ensures RootIsFile(cfg, After(cfg, rows, cmd).rows) <==> RenamesOntoRoot(cfg, rows, cmd)
  {
    if RenamesOntoRoot(cfg, rows, cmd) {
      var i := Lookup(cfg, rows, PathsOf(cmd).1).value;
      assert AtRoot(cfg, After(cfg, rows, cmd).rows[i]);
    } else {
      if FoldsIntoRoot(cfg, rows, cmd) {
        assert RootIsFile(cfg, rows);
      }
      StepKeepsRoot(cfg, rows, cmd);
      SameRootIs(cfg, rows, After(cfg, rows, cmd).rows);
    }
  }

  /** Once a file, it stays one: only a create that folds into it moves it away. */
  lemma RootIsFreedIff(cfg: Config, rows: seq<Row>, cmd: Command)
    requires UniquePaths(cfg, rows) && RootIsFile(cfg, rows)
    ensures !RootIsFile(cfg, After(cfg, rows, cmd).rows) <==> FoldsIntoRoot(cfg, rows, cmd)
  {
    RootIsFileIff(cfg, rows);
    LookupIs(cfg, rows, P.MEMORY_ROOT);
    if FoldsIntoRoot(cfg, rows, cmd) {
      var path, i := PathsOf(cmd).1, FoldsInto(cfg, rows, cmd.verdict).value;
      FoldFreesRoot(cfg, rows, i, path);
    } else {
      StepKeepsRoot(cfg, rows, cmd);
      SameRootIs(cfg, rows, After(cfg, rows, cmd).rows);
    }
  }

  lemma FoldFreesRoot(cfg: Config, rows: seq<Row>, i: nat, path: string)
    requires UniquePaths(cfg, rows) && i < |rows| && AtRoot(cfg, rows[i]) && path != P.MEMORY_ROOT
    ensures !RootIsFile(cfg, rows[i := rows[i].(path := Some(path))])
  {
    var next := rows[i := rows[i].(path := Some(path))];
    forall k | 0 <= k < |next|
      ensures !AtRoot(cfg, next[k])
    {
      if k != i {
        assert next[k] == rows[k];
      }
    }
  }

  ghost predicate NeverOntoRoot(cfg: Config, rows: seq<Row>, cmds: seq<Command>)
    decreases cmds
  {
    cmds == [] || (!RenamesOntoRoot(cfg, rows, cmds[0]) && NeverOntoRoot(cfg, After(cfg, rows, cmds[0]).rows, cmds[1..]))
  }

  /** The root is a directory before, between and after the commands. */
  ghost predicate AlwaysDirectory(cfg: Config, rows: seq<Row>, cmds: seq<Command>) {
    forall n :: 0 <= n <= |cmds| ==> !RootIsFile(cfg, Final(cfg, rows, cmds[..n]))
  }

  /** The root stays a directory all through a run if and only if no existing file is renamed onto it. */
  lemma {:induction false} RootStaysDirectoryIff(cfg: Config, rows: seq<Row>, cmds: seq<Command>)
    requires !RootIsFile(cfg, rows)
    ensures AlwaysDirectory(cfg, rows, cmds) <==> NeverOntoRoot(cfg, rows, cmds)
    decreases cmds
  {
    if cmds == [] {
    } else {
      var next := After(cfg, rows, cmds[0]).rows;
      RootIsTakenIff(cfg, rows, cmds[0]);
      AlwaysShifts(cfg, rows, cmds, next);
      if RootIsFile(cfg, next) {
        assert cmds[1..][..0] == [];
      } else {
        RootStaysDirectoryIff(cfg, next, cmds[1..]);
      }
    }
  }

  lemma FinalShifts(cfg: Config, rows: seq<Row>, cmds: seq<Command>, n: nat)
    requires n < |cmds|
    ensures Final(cfg, rows, cmds[..n + 1]) == Final(cfg, After(cfg, rows, cmds[0]).rows, cmds[1..][..n])
  {
    assert cmds[..n + 1][1..] == cmds[1..][..n];
  }

  lemma AlwaysShifts(cfg: Config, rows: seq<Row>, cmds: seq<Command>, next: seq<Row>)
    requires cmds != [] && !RootIsFile(cfg, rows) && next == After(cfg, rows, cmds[0]).rows
    ensures AlwaysDirectory(cfg, rows, cmds) <==> AlwaysDirectory(cfg, next, cmds[1..])
  {
    if AlwaysDirectory(cfg, rows, cmds) {
      forall n | 0 <= n <= |cmds[1..]|
        ensures !RootIsFile(cfg, Final(cfg, next, cmds[1..][..n]))
      {
        FinalShifts(cfg, rows, cmds, n);
      }
    }
    if AlwaysDirectory(cfg, next, cmds[1..]) {
      forall n | 0 <= n <= |cmds|
        ensures !RootIsFile(cfg, Final(cfg, rows, cmds[..n]))
      {
        if n > 0 {
          FinalShifts(cfg, rows, cmds, n - 1);
        }
      }
    }
  }
}
