/**
 * A file held for review cannot be read through the tool: whatever the commands, its text shows in no
 * answer. Only its size does — and, with deduplication on, whether a new file folds into it.
 */
module MemoryToolSecrecy {
  import opened Options
  import opened Sequences
  import opened MemoryTool
  import opened MemoryToolRuns
  import P = ToolPaths

  /** Equal, or both held for review and different only in texts of one size and their fingerprints. */
  predicate SimilarRow(a: Row, b: Row) {
    a == b || (a.status == Pending && b == a.(body := b.body, hash := b.hash) && Utf8Length(a.body) == Utf8Length(b.body))
  }

  ghost predicate Similar(a: seq<Row>, b: seq<Row>) {
    |a| == |b| && forall i :: 0 <= i < |a| ==> SimilarRow(a[i], b[i])
  }

  lemma {:induction false} SameFirst(a: seq<Row>, b: seq<Row>, p: Row -> bool)
    requires |a| == |b| && forall i :: 0 <= i < |a| ==> (p(a[i]) <==> p(b[i]))
    ensures First(a, p) == First(b, p)
  {
    if a == [] {
    } else {
      assert p(a[0]) <==> p(b[0]);
      SameFirst(a[1..], b[1..], p);
    }
  }

  lemma SameLookup(cfg: Config, a: seq<Row>, b: seq<Row>, path: string)
    requires Similar(a, b)
    ensures Lookup(cfg, a, path) == Lookup(cfg, b, path)
  {
    forall i | 0 <= i < |a|
      ensures FileAt(cfg, path)(a[i]) <==> FileAt(cfg, path)(b[i])
    {
      assert SimilarRow(a[i], b[i]);
    }
    SameFirst(a, b, FileAt(cfg, path));
  }

  lemma {:induction false} SameToolRows(cfg: Config, a: seq<Row>, b: seq<Row>, i: nat)
    requires Similar(a, b) && i <= |a|
    ensures ToolRows(cfg, a, i) == ToolRows(cfg, b, i)
    decreases |a| - i
  {
    if i >= |a| {
    } else {
      assert SimilarRow(a[i], b[i]);
      SameToolRows(cfg, a, b, i + 1);
    }
  }

  lemma SameChildren(cfg: Config, a: seq<Row>, b: seq<Row>, path: string)
    requires Similar(a, b)
    ensures Children(cfg, a, path) == Children(cfg, b, path)
  {
    SameToolRows(cfg, a, b, 0);
    forall i | i in Tree(cfg, a)
      ensures Beneath(a, path)(i) <==> Beneath(b, path)(i)
    {
      assert i < |a| ==> SimilarRow(a[i], b[i]);
    }
    FilterSame(Tree(cfg, a), Beneath(a, path), Beneath(b, path));
  }

  lemma {:induction false} SameEntries(a: seq<Row>, b: seq<Row>, at: seq<nat>)
    requires Similar(a, b)
    ensures Entries(a, at) == Entries(b, at)
  {
    if at == [] {
    } else {
      SameEntries(a, b, at[1..]);
      assert at[0] < |a| ==> SimilarRow(a[at[0]], b[at[0]]);
    }
  }

  lemma SameView(cfg: Config, a: seq<Row>, b: seq<Row>, path: string, window: Option<(int, int)>)
    requires Similar(a, b)
    ensures Viewed(cfg, a, path, window) == Viewed(cfg, b, path, window)
  {
    SameLookup(cfg, a, b, path);
    match Lookup(cfg, a, path) {
      case None =>
        SameChildren(cfg, a, b, path);
        SameEntries(a, b, Children(cfg, a, path));
      case Some(i) => assert SimilarRow(a[i], b[i]);
    }
  }

  /** A write to a free path changes the two tables alike exactly when it folds into the same row, or none. */
  lemma StoredAlikeIff(cfg: Config, a: seq<Row>, b: seq<Row>, path: string, v: Verdict)
    requires Similar(a, b) && Lookup(cfg, a, path).None?
    ensures var x, y := Stored(cfg, a, path, v), Stored(cfg, b, path, v);
            x.result == y.result && Similar(x.rows, y.rows) <==> FoldsInto(cfg, a, v) == FoldsInto(cfg, b, v)
  {
    var x, y := Stored(cfg, a, path, v), Stored(cfg, b, path, v);
    var i, j := FoldsInto(cfg, a, v), FoldsInto(cfg, b, v);
    assert i.Some? ==> SimilarRow(a[i.value], b[i.value]);
    if i.Some? && j.Some? && i != j {
      assert !FileAt(cfg, path)(a[i.value]);
      assert x.rows[i.value].path == Some(path) != a[i.value].path == b[i.value].path == y.rows[i.value].path;
      assert !SimilarRow(x.rows[i.value], y.rows[i.value]);
    }
  }

  /** A create that writes a new file folds into the same row of both tables, or into none of either. */
  predicate FoldsAlike(cfg: Config, a: seq<Row>, b: seq<Row>, cmd: Command) {
    var (why, path, _) := PathsOf(cmd);
    cmd.Create? && why.None? && path != P.MEMORY_ROOT && cmd.text.Some? && Lookup(cfg, a, path).None? ==>
      FoldsInto(cfg, a, cmd.verdict) == FoldsInto(cfg, b, cmd.verdict)
  }

  lemma CreateIsSecretIff(cfg: Config, a: seq<Row>, b: seq<Row>, path: string, text: Option<string>, v: Verdict)
    requires Similar(a, b)
    ensures var x, y := AfterCreate(cfg, a, path, text, v), AfterCreate(cfg, b, path, text, v);
            x.result == y.result && Similar(x.rows, y.rows) <==>
            (path != P.MEMORY_ROOT && text.Some? && Lookup(cfg, a, path).None? ==> FoldsInto(cfg, a, v) == FoldsInto(cfg, b, v))
  {
    SameLookup(cfg, a, b, path);
    var at := Lookup(cfg, a, path);
    if at.Some? {
      assert SimilarRow(a[at.value], b[at.value]);
    } else {
      StoredAlikeIff(cfg, a, b, path, v);
    }
  }

  lemma DeleteIsSecret(cfg: Config, a: seq<Row>, b: seq<Row>, path: string)
    requires Similar(a, b)
    ensures var x, y := AfterDelete(cfg, a, path), AfterDelete(cfg, b, path);
            x.result == y.result && Similar(x.rows, y.rows)
  {
    SameLookup(cfg, a, b, path);
    SameChildren(cfg, a, b, path);
  }

  /** The files that `str_replace` and `insert` may edit are the same, with the same text. */
  lemma SameEditable(cfg: Config, a: seq<Row>, b: seq<Row>, path: string)
    requires Similar(a, b)
    ensures Lookup(cfg, a, path) == Lookup(cfg, b, path) && Refusal(cfg, a, path) == Refusal(cfg, b, path)
    ensures Refusal(cfg, a, path).None? ==>
              Lookup(cfg, a, path).Some? && a[Lookup(cfg, a, path).value] == b[Lookup(cfg, a, path).value]
  {
    SameLookup(cfg, a, b, path);
    if Lookup(cfg, a, path).Some? {
      assert SimilarRow(a[Lookup(cfg, a, path).value], b[Lookup(cfg, a, path).value]);
    }
  }

  /** Every command answers alike and keeps the tables alike, exactly unless it is a create that folds differently. */
  lemma StepIsSecretIff(cfg: Config, a: seq<Row>, b: seq<Row>, cmd: Command)
    requires Similar(a, b)
    ensures After(cfg, a, cmd).result == After(cfg, b, cmd).result
            && Similar(After(cfg, a, cmd).rows, After(cfg, b, cmd).rows)
            <==> FoldsAlike(cfg, a, b, cmd)
  {
    var (why, path, newPath) := PathsOf(cmd);
    if why.None? {
      match cmd {
        case View(_, window) => SameView(cfg, a, b, path, window);
        case Create(_, text, v) => CreateIsSecretIff(cfg, a, b, path, text, v);
        case StrReplace(_, _, _) => SameEditable(cfg, a, b, path);
        case InsertAt(_, _, _) => SameEditable(cfg, a, b, path);
        case Delete(_) => DeleteIsSecret(cfg, a, b, path);
        case Rename(_, _) =>
          SameLookup(cfg, a, b, path);
          SameLookup(cfg, a, b, newPath);
          if Lookup(cfg, a, path).Some? {
            assert SimilarRow(a[Lookup(cfg, a, path).value], b[Lookup(cfg, a, path).value]);
          }
        case Unknown =>
      }
    }
  }

  // ----- runs -----

  predicate FoldsAlikeRun(cfg: Config, a: seq<Row>, b: seq<Row>, cmds: seq<Command>)
    decreases cmds
  {
    cmds == [] || (FoldsAlike(cfg, a, b, cmds[0])
                   && FoldsAlikeRun(cfg, After(cfg, a, cmds[0]).rows, After(cfg, b, cmds[0]).rows, cmds[1..]))
  }

  /** Two tables that differ only in held texts of equal size, and in their fingerprints, answer every
      command sequence alike as long as no create folds into a row of one that it misses in the other. */
  lemma {:induction false} AlikeUnlessFolded(cfg: Config, a: seq<Row>, b: seq<Row>, cmds: seq<Command>)
    requires Similar(a, b) && FoldsAlikeRun(cfg, a, b, cmds)
    ensures Results(cfg, a, cmds) == Results(cfg, b, cmds)
    decreases cmds
  {
    if cmds == [] {
    } else {
      StepIsSecretIff(cfg, a, b, cmds[0]);
      AlikeUnlessFolded(cfg, After(cfg, a, cmds[0]).rows, After(cfg, b, cmds[0]).rows, cmds[1..]);
    }
  }

  // ----- which texts fold -----

  /** What the service makes of a text written to a path. It sees a new file's path as the title and its text
      as the body, and nothing else of the command. */
  type Judge = (string, string) -> Verdict

  /** The verdict that comes with a create is the service's on that path and text. */
  predicate Honest(judge: Judge, cmd: Command) {
    var (why, path, _) := PathsOf(cmd);
    cmd.Create? && why.None? && cmd.text.Some? ==> cmd.verdict == judge(path, cmd.text.value)
  }

  ghost predicate HonestRun(judge: Judge, cmds: seq<Command>) {
    forall i :: 0 <= i < |cmds| ==> Honest(judge, cmds[i])
  }

  ghost predicate Reached(path: string) {
    exists raw: string :: P.Normalise(Some(raw)) == P.Canonical(path)
  }

  /** A path at which a file can be created. */
  ghost predicate Writable(path: string) {
    path != P.MEMORY_ROOT && Reached(path)
  }

  predicate Matches(cfg: Config, r: Row, v: Verdict) {
    r.hash == Some(cfg.fingerprint(v.title, v.body))
  }

  /** No text written to any path folds into a visible row of one table and not into the same row of the other. */
  ghost predicate SameFolds(cfg: Config, judge: Judge, a: seq<Row>, b: seq<Row>) {
    |a| == |b| && forall i, path, text :: 0 <= i < |a| && Visible(cfg, a[i]) && Writable(path) ==>
                    (Matches(cfg, a[i], judge(path, text)) <==> Matches(cfg, b[i], judge(path, text)))
  }

  lemma SameFold(cfg: Config, judge: Judge, a: seq<Row>, b: seq<Row>, path: string, text: string)
    requires Similar(a, b) && (cfg.dedup ==> SameFolds(cfg, judge, a, b)) && Writable(path)
    ensures FoldsInto(cfg, a, judge(path, text)) == FoldsInto(cfg, b, judge(path, text))
  {
    if cfg.dedup {
      var v := judge(path, text);
      var p := HashedAs(cfg, cfg.fingerprint(v.title, v.body));
      forall i | 0 <= i < |a|
        ensures p(a[i]) <==> p(b[i])
      {
        assert SimilarRow(a[i], b[i]);
        assert Visible(cfg, a[i]) ==> (Matches(cfg, a[i], judge(path, text)) <==> Matches(cfg, b[i], judge(path, text)));
      }
      SameFirst(a, b, p);
    }
  }

  lemma HonestFoldsAlike(cfg: Config, judge: Judge, a: seq<Row>, b: seq<Row>, cmd: Command)
    requires Similar(a, b) && (cfg.dedup ==> SameFolds(cfg, judge, a, b)) && Honest(judge, cmd)
    ensures FoldsAlike(cfg, a, b, cmd)
  {
    var (why, path, _) := PathsOf(cmd);
    if cmd.Create? && why.None? && path != P.MEMORY_ROOT && cmd.text.Some? {
      assert P.Normalise(Some(cmd.path.value)) == P.Canonical(path);
      SameFold(cfg, judge, a, b, path, cmd.text.value);
    }
  }

  /** The fingerprint stays, and a row out of sight stays out of sight. */
  predicate Fades(cfg: Config, before: Row, after: Row) {
    after.hash == before.hash && (Visible(cfg, after) ==> Visible(cfg, before))
  }

  lemma CreateKeepsHash(cfg: Config, rows: seq<Row>, path: string, text: Option<string>, v: Verdict, i: nat)
    requires i < |rows|
    ensures var next := AfterCreate(cfg, rows, path, text, v).rows;
            |rows| <= |next| && Fades(cfg, rows[i], next[i])
  {}

  lemma DeleteKeepsHash(cfg: Config, rows: seq<Row>, path: string, i: nat)
    requires i < |rows|
    ensures var next := AfterDelete(cfg, rows, path).rows;
            |next| == |rows| && Fades(cfg, rows[i], next[i])
  {}

  lemma EditKeepsHash(cfg: Config, rows: seq<Row>, at: nat, edit: (Option<string>, Result), i: nat)
    requires i < |rows| && at < |rows|
    ensures var next := AfterEdit(rows, at, edit).rows;
            |next| == |rows| && Fades(cfg, rows[i], next[i])
  {}

  lemma RenameKeepsHash(cfg: Config, rows: seq<Row>, path: string, newPath: string, i: nat)
    requires i < |rows|
    ensures var next := AfterRename(cfg, rows, path, newPath).rows;
            |next| == |rows| && Fades(cfg, rows[i], next[i])
  {}

  /** Commands add rows, and never change the fingerprint of one or bring one back. */
  lemma HashesStay(cfg: Config, rows: seq<Row>, cmd: Command, i: nat)
    requires i < |rows|
    ensures i < |After(cfg, rows, cmd).rows| && Fades(cfg, rows[i], After(cfg, rows, cmd).rows[i])
  {
    var (why, path, newPath) := PathsOf(cmd);
    if why.None? {
      var at := Lookup(cfg, rows, path);
      match cmd {
        case Create(_, text, v) => CreateKeepsHash(cfg, rows, path, text, v, i);
        case Delete(_) => DeleteKeepsHash(cfg, rows, path, i);
        case Rename(_, _) => RenameKeepsHash(cfg, rows, path, newPath, i);
        case StrReplace(_, needle, replacement) =>
          if at.Some? {
            EditKeepsHash(cfg, rows, at.value, Replacement(path, rows[at.value].body, needle, replacement), i);
          }
        case InsertAt(_, line, text) =>
          if at.Some? {
            EditKeepsHash(cfg, rows, at.value, Insertion(path, rows[at.value].body, line, text), i);
          }
        case _ =>
      }
    }
  }

  lemma AddedHash(cfg: Config, rows: seq<Row>, cmd: Command)
    ensures var next := After(cfg, rows, cmd).rows;
            |next| == |rows|
            || (|next| == |rows| + 1 && cmd.Create?
                && Last(next).hash == if cfg.dedup then Some(cfg.fingerprint(cmd.verdict.title, cmd.verdict.body)) else None)
  {}

  lemma StepKeepsSameFolds(cfg: Config, judge: Judge, a: seq<Row>, b: seq<Row>, cmd: Command)
    requires cfg.dedup && SameFolds(cfg, judge, a, b) && |After(cfg, a, cmd).rows| == |After(cfg, b, cmd).rows|
    ensures SameFolds(cfg, judge, After(cfg, a, cmd).rows, After(cfg, b, cmd).rows)
  {
    var x, y := After(cfg, a, cmd).rows, After(cfg, b, cmd).rows;
    AddedHash(cfg, a, cmd);
    AddedHash(cfg, b, cmd);
    forall i, path, text | 0 <= i < |x| && Visible(cfg, x[i]) && Writable(path)
      ensures Matches(cfg, x[i], judge(path, text)) <==> Matches(cfg, y[i], judge(path, text))
    {
      if i < |a| {
        HashesStay(cfg, a, cmd, i);
        HashesStay(cfg, b, cmd, i);
        assert Matches(cfg, a[i], judge(path, text)) <==> Matches(cfg, b[i], judge(path, text));
      }
    }
  }

  /** Two tables that differ only in held texts of equal size, and into whose rows the same texts fold, answer
      every command sequence alike. Without deduplication nothing folds. */
  lemma {:induction false} HeldTextsStayHidden(cfg: Config, judge: Judge, a: seq<Row>, b: seq<Row>, cmds: seq<Command>)
    requires Similar(a, b) && (cfg.dedup ==> SameFolds(cfg, judge, a, b)) && HonestRun(judge, cmds)
    ensures Results(cfg, a, cmds) == Results(cfg, b, cmds)
    decreases cmds
  {
    if cmds == [] {
    } else {
      var cmd := cmds[0];
      HonestFoldsAlike(cfg, judge, a, b, cmd);
      StepIsSecretIff(cfg, a, b, cmd);
      if cfg.dedup {
        StepKeepsSameFolds(cfg, judge, a, b, cmd);
      }
      HeldTextsStayHidden(cfg, judge, After(cfg, a, cmd).rows, After(cfg, b, cmd).rows, cmds[1..]);
    }
  }
}
