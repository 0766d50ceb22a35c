/**
 * What deduplication gives away of a held file: a create folds into it exactly when the service makes of its
 * path and text what the file's fingerprint was taken of. These lemmas show that on commands, and that
 * nothing else tells.
 */
module MemoryToolGuesses {
  import opened Options
  import opened Sequences
  import opened MemoryTool
  import opened MemoryToolFiles
  import opened MemoryToolRuns
  import opened MemoryToolLimits
  import opened MemoryToolSecrecy
  import P = ToolPaths

  // ----- a guess -----

  function HeldVerdict(title: string, body: string): Verdict {
    Verdict(title, body, Pending, None, false)
  }

  /** A project that holds every write. */
  function HoldAll(): Judge {
    (path: string, text: string) => HeldVerdict(path, text)
  }

  /** Create a file that is held for review, and rename it. */
  function Hide(p: string, path: string, q: string, secret: string): seq<Command> {
    [Create(Some(p), Some(secret), HeldVerdict(path, secret)), Rename(Some(p), Some(q))]
  }

  function Hidden(cfg: Config, path: string, newPath: string, secret: string): Row {
    NewRow(cfg, newPath, HeldVerdict(newPath, secret), Some(cfg.fingerprint(path, secret)))
  }

  lemma HideGives(cfg: Config, p: string, path: string, q: string, newPath: string, secret: string)
    requires cfg.dedup && path != P.MEMORY_ROOT && path != newPath
    requires P.Normalise(Some(p)) == P.Canonical(path) && P.Normalise(Some(q)) == P.Canonical(newPath)
    ensures Final(cfg, [], Hide(p, path, q, secret)) == [Hidden(cfg, path, newPath, secret)]
  {
    var cmds, v := Hide(p, path, q, secret), HeldVerdict(path, secret);
    var r := NewRow(cfg, path, v, Some(cfg.fingerprint(path, secret)));
    CreatesFirst(cfg, p, path, secret, v);
    RenamesOnly(cfg, p, path, q, newPath, r);
    assert cmds[1..] == [Rename(Some(p), Some(q))] && cmds[1..][1..] == [];
    assert Final(cfg, [r], cmds[1..]) == [Hidden(cfg, path, newPath, secret)];
  }

  /** The commands of a guess are what a service that holds every write is asked to run. */
  lemma HideIsHonest(p: string, path: string, q: string, secret: string)
    requires P.Normalise(Some(p)) == P.Canonical(path)
    ensures HonestRun(HoldAll(), Hide(p, path, q, secret))
    ensures Honest(HoldAll(), Create(Some(p), Some(secret), HeldVerdict(path, secret)))
  {}

  lemma OneAnswer(cfg: Config, rows: seq<Row>, cmd: Command)
    ensures Results(cfg, rows, [cmd]) == [After(cfg, rows, cmd).result]
  {
    assert [cmd][1..] == [];
  }

  lemma WrongGuess(cfg: Config, p: string, path: string, r: Row, guess: string)
    requires P.Normalise(Some(p)) == P.Canonical(path) && path != P.MEMORY_ROOT
    requires r.path != Some(path) && r.hash != Some(cfg.fingerprint(path, guess))
    ensures After(cfg, [r], Create(Some(p), Some(guess), HeldVerdict(path, guess))).result
            == Created(path, HeldForReview("policy"))
  {
    FirstOfOne(r, FileAt(cfg, path));
    FirstOfOne(r, HashedAs(cfg, cfg.fingerprint(path, guess)));
  }

  /**
   * Two held files of one size, each renamed after it was created. Creating the text of the first at the old
   * path answers plainly where it is the hidden text, and reports a new held file where it is not.
   */
  lemma GuessIsAnswered(
    cfg: Config, p: string, path: string, q: string, newPath: string, secret: string, other: string)
    requires cfg.dedup && path != P.MEMORY_ROOT && path != newPath
    requires P.Normalise(Some(p)) == P.Canonical(path) && P.Normalise(Some(q)) == P.Canonical(newPath)
    requires Utf8Length(secret) == Utf8Length(other) && cfg.fingerprint(path, secret) != cfg.fingerprint(path, other)
    ensures var a, b := Final(cfg, [], Hide(p, path, q, secret)), Final(cfg, [], Hide(p, path, q, other));
            var guess := [Create(Some(p), Some(secret), HeldVerdict(path, secret))];
            && Similar(a, b)
            && Results(cfg, a, guess) == [Created(path, MemoryTool.Plain)]
            && Results(cfg, b, guess) == [Created(path, HeldForReview("policy"))]
  {
    var r, s := Hidden(cfg, path, newPath, secret), Hidden(cfg, path, newPath, other);
    var guess := Create(Some(p), Some(secret), HeldVerdict(path, secret));
    HideGives(cfg, p, path, q, newPath, secret);
    HideGives(cfg, p, path, q, newPath, other);
    assert SimilarRow(r, s);
    FoldsBack(cfg, p, path, r, secret, HeldVerdict(path, secret));
    WrongGuess(cfg, p, path, s, secret);
    OneAnswer(cfg, [r], guess);
    OneAnswer(cfg, [s], guess);
  }

  // ----- nothing else tells, and every such difference does -----

  predicate Tells(cfg: Config, a: seq<Row>, b: seq<Row>, cmds: seq<Command>) {
    Results(cfg, a, cmds) != Results(cfg, b, cmds)
  }

  lemma TellsLater(cfg: Config, a: seq<Row>, b: seq<Row>, cmd: Command, rest: seq<Command>)
    requires Tells(cfg, After(cfg, a, cmd).rows, After(cfg, b, cmd).rows, rest)
    ensures Tells(cfg, a, b, [cmd] + rest)
  {
    var cmds := [cmd] + rest;
    assert cmds[1..] == rest;
    assert Results(cfg, a, cmds)[1..] == Results(cfg, After(cfg, a, cmd).rows, rest);
    assert Results(cfg, b, cmds)[1..] == Results(cfg, After(cfg, b, cmd).rows, rest);
  }

  /** Every visible row is a file with a path that commands can name. */
  ghost predicate Addressable(cfg: Config, rows: seq<Row>) {
    forall i :: 0 <= i < |rows| && Visible(cfg, rows[i]) ==> rows[i].path.Some? && Reached(rows[i].path.value)
  }

  function Longest(rows: seq<Row>): nat {
    if rows == [] then 0
    else Max(Longest(rows[1..]), if rows[0].path.Some? then |rows[0].path.value| else 0)
  }

  lemma {:induction false} NoneLonger(rows: seq<Row>, i: nat)
    requires i < |rows| && rows[i].path.Some?
    ensures |rows[i].path.value| <= Longest(rows)
  {
    if i == 0 {
    } else {
      NoneLonger(rows[1..], i - 1);
    }
  }

  /** Some path is free. */
  lemma FreePath(cfg: Config, rows: seq<Row>) returns (raw: string, path: string)
    ensures P.Normalise(Some(raw)) == P.Canonical(path) && path != P.MEMORY_ROOT
    ensures forall i :: 0 <= i < |rows| ==> rows[i].path != Some(path)
    ensures Lookup(cfg, rows, path).None?
  {
    var name := Name(Longest(rows) + 1);
    NameIsPlain(Longest(rows) + 1);
    P.InRootIsReached(name);
    raw, path := P.InRoot(name) + "/", P.InRoot(name);
    forall i | 0 <= i < |rows|
      ensures rows[i].path != Some(path)
    {
      if rows[i].path.Some? {
        NoneLonger(rows, i);
      }
    }
  }

  // ----- commands and what they do to both tables -----

  lemma HonestCons(judge: Judge, cmd: Command, rest: seq<Command>)
    requires Honest(judge, cmd) && HonestRun(judge, rest)
    ensures HonestRun(judge, [cmd] + rest)
  {}

  lemma SimilarIsSymmetric(a: seq<Row>, b: seq<Row>)
    requires Similar(a, b)
    ensures Similar(b, a)
  {
    forall i | 0 <= i < |b|
      ensures SimilarRow(b[i], a[i])
    {
      assert SimilarRow(a[i], b[i]);
    }
  }

  lemma SimilarFiles(cfg: Config, a: seq<Row>, b: seq<Row>)
    requires Similar(a, b) && UniquePaths(cfg, a) && Addressable(cfg, a)
    ensures UniquePaths(cfg, b) && Addressable(cfg, b)
  {
    forall i | 0 <= i < |a|
      ensures a[i].path == b[i].path && (Visible(cfg, a[i]) <==> Visible(cfg, b[i]))
    {
      assert SimilarRow(a[i], b[i]);
    }
  }

  /** A create at a free path, as the service judges it. */
  function Write(judge: Judge, raw: string, path: string, text: string): Command {
    Create(Some(raw), Some(text), judge(path, text))
  }

  lemma WriteStores(cfg: Config, judge: Judge, rows: seq<Row>, raw: string, path: string, text: string)
    requires cfg.dedup && P.Normalise(Some(raw)) == P.Canonical(path) && path != P.MEMORY_ROOT && Lookup(cfg, rows, path).None?
    ensures Honest(judge, Write(judge, raw, path, text))
    ensures var out, at := After(cfg, rows, Write(judge, raw, path, text)), FoldsInto(cfg, rows, judge(path, text));
            if at.Some? then out.rows == rows[at.value := rows[at.value].(path := Some(path))]
            else |out.rows| == |rows| + 1 && out.rows[..|rows|] == rows
  {}

  /** The path a row gave up by folding shows nothing; the same row untouched in the other table shows. */
  lemma MovedRowTells(cfg: Config, a: seq<Row>, b: seq<Row>, i: nat, path: string, raw: string)
    requires UniquePaths(cfg, a) && i < |a| && i < |b| && IsTool(cfg, a[i]) && a[i].path != Some(path)
    requires b[i].path == a[i].path && Visible(cfg, b[i]) && P.Normalise(Some(raw)) == P.Canonical(a[i].path.value)
    ensures var moved, cmd := a[i := a[i].(path := Some(path))], View(Some(raw), None);
            After(cfg, moved, cmd).result != After(cfg, b, cmd).result
  {
    var moved, p := a[i := a[i].(path := Some(path))], a[i].path.value;
    forall k | 0 <= k < |moved|
      ensures !FileAt(cfg, p)(moved[k])
    {
      if k != i && FileAt(cfg, p)(a[k]) {
        assert IsTool(cfg, a[k]);
        assert false;
      }
    }
    assert Lookup(cfg, moved, p).None?;
    assert FileAt(cfg, p)(b[i]);
    assert Lookup(cfg, b, p).Some?;
  }

  // ----- a text that folds into different rows -----

  /** A text that folds into row `i` of the first table and not of the second: write it, and look where row `i`
      was. */
  lemma {:induction false} FoldOfOneTells(
    cfg: Config, judge: Judge, a: seq<Row>, b: seq<Row>, raw: string, path: string, text: string, i: nat)
    returns (cmds: seq<Command>)
    requires cfg.dedup && Similar(a, b) && UniquePaths(cfg, a) && Addressable(cfg, a)
    requires P.Normalise(Some(raw)) == P.Canonical(path) && path != P.MEMORY_ROOT && Lookup(cfg, a, path).None?
    requires FoldsInto(cfg, a, judge(path, text)) == Some(i) && FoldsInto(cfg, b, judge(path, text)) != Some(i)
    ensures HonestRun(judge, cmds) && Tells(cfg, a, b, cmds)
  {
    var write := Write(judge, raw, path, text);
    var rawI: string :| P.Normalise(Some(rawI)) == P.Canonical(a[i].path.value);
    var look := View(Some(rawI), None);
    FoldMovesOne(cfg, judge, a, b, raw, path, text, i);
    var x, y := After(cfg, a, write).rows, After(cfg, b, write).rows;
    MovedRowTells(cfg, a, y, i, path, rawI);
    OneAnswer(cfg, x, look);
    OneAnswer(cfg, y, look);
    TellsLater(cfg, a, b, write, [look]);
    cmds := [write] + [look];
    HonestCons(judge, write, [look]);
  }

  lemma {:induction false} FoldMovesOne(
    cfg: Config, judge: Judge, a: seq<Row>, b: seq<Row>, raw: string, path: string, text: string, i: nat)
    requires cfg.dedup && Similar(a, b)
    requires P.Normalise(Some(raw)) == P.Canonical(path) && path != P.MEMORY_ROOT && Lookup(cfg, a, path).None?
    requires FoldsInto(cfg, a, judge(path, text)) == Some(i) && FoldsInto(cfg, b, judge(path, text)) != Some(i)
    ensures var write := Write(judge, raw, path, text);
            && Honest(judge, write) && After(cfg, a, write).rows == a[i := a[i].(path := Some(path))]
            && i < |After(cfg, b, write).rows| && After(cfg, b, write).rows[i] == b[i]
    ensures a[i].path == b[i].path && Visible(cfg, a[i]) && Visible(cfg, b[i]) && a[i].path != Some(path)
  {
    SameLookup(cfg, a, b, path);
    WriteStores(cfg, judge, a, raw, path, text);
    WriteStores(cfg, judge, b, raw, path, text);
    assert SimilarRow(a[i], b[i]) && !FileAt(cfg, path)(a[i]);
    var y := After(cfg, b, Write(judge, raw, path, text)).rows;
    if FoldsInto(cfg, b, judge(path, text)).None? {
      assert y[..|b|][i] == b[i];
    }
  }

  lemma {:induction false} DifferentFold(
    cfg: Config, judge: Judge, a: seq<Row>, b: seq<Row>, raw: string, path: string, text: string)
    returns (cmds: seq<Command>)
    requires cfg.dedup && Similar(a, b) && UniquePaths(cfg, a) && Addressable(cfg, a)
    requires P.Normalise(Some(raw)) == P.Canonical(path) && path != P.MEMORY_ROOT && Lookup(cfg, a, path).None?
    requires FoldsInto(cfg, a, judge(path, text)) != FoldsInto(cfg, b, judge(path, text))
    ensures HonestRun(judge, cmds) && Tells(cfg, a, b, cmds)
  {
    var i := FoldsInto(cfg, a, judge(path, text));
    if i.Some? {
      cmds := FoldOfOneTells(cfg, judge, a, b, raw, path, text, i.value);
    } else {
      SimilarIsSymmetric(a, b);
      SimilarFiles(cfg, a, b);
      SameLookup(cfg, a, b, path);
      cmds := FoldOfOneTells(cfg, judge, b, a, raw, path, text, FoldsInto(cfg, b, judge(path, text)).value);
    }
  }

  // ----- taking out the rows before -----

  function Retired(rows: seq<Row>, j: nat, path: string): seq<Row>
    requires j < |rows|
  {
    rows[j := rows[j].(path := Some(path), live := false)]
  }

  /** A row that a text folds into can be taken out: write the text, and delete the path it was written to. */
  lemma RetireRow(cfg: Config, judge: Judge, rows: seq<Row>, raw: string, path: string, text: string, j: nat)
    requires cfg.dedup && P.Normalise(Some(raw)) == P.Canonical(path) && path != P.MEMORY_ROOT
    requires Lookup(cfg, rows, path).None? && FoldsInto(cfg, rows, judge(path, text)) == Some(j)
    ensures var next := After(cfg, rows, Write(judge, raw, path, text)).rows;
            After(cfg, next, Delete(Some(raw))).rows == Retired(rows, j, path)
  {
    var next := rows[j := rows[j].(path := Some(path))];
    assert After(cfg, rows, Write(judge, raw, path, text)).rows == next by {
      WriteStores(cfg, judge, rows, raw, path, text);
    }
    assert Lookup(cfg, next, path) == Some(j) by {
      forall k | 0 <= k < j
        ensures !FileAt(cfg, path)(next[k])
      {
        assert !FileAt(cfg, path)(rows[k]);
      }
      FirstAt(next, FileAt(cfg, path), j);
    }
    DeletesPath(cfg, next, raw, path);
    KillsOne(next, j);
  }

  lemma KillsOne(rows: seq<Row>, j: nat)
    requires j < |rows|
    ensures Killed(rows, [j]) == rows[j := rows[j].(live := false)]
  {}

  lemma FirstAt(rows: seq<Row>, p: Row -> bool, j: nat)
    requires j < |rows| && p(rows[j]) && forall k :: 0 <= k < j ==> !p(rows[k])
    ensures First(rows, p) == Some(j)
  {
    var at := First(rows, p);
    assert at.Some?;
  }

  lemma NoneAt(rows: seq<Row>, p: Row -> bool)
    requires forall k :: 0 <= k < |rows| ==> !p(rows[k])
    ensures First(rows, p).None?
  {}

  lemma RetiredStays(cfg: Config, a: seq<Row>, b: seq<Row>, j: nat, path: string)
    requires Similar(a, b) && UniquePaths(cfg, a) && Addressable(cfg, a) && j < |a| && Lookup(cfg, a, path).None?
    ensures var x, y := Retired(a, j, path), Retired(b, j, path);
            Similar(x, y) && UniquePaths(cfg, x) && Addressable(cfg, x) && Lookup(cfg, x, path).None?
  {
    var x, y := Retired(a, j, path), Retired(b, j, path);
    forall i | 0 <= i < |a|
      ensures SimilarRow(x[i], y[i]) && (Visible(cfg, x[i]) ==> x[i] == a[i]) && !FileAt(cfg, path)(x[i])
    {
      assert SimilarRow(a[i], b[i]) && !FileAt(cfg, path)(a[i]);
    }
    NoneAt(x, FileAt(cfg, path));
  }

  function FoldPosition(cfg: Config, rows: seq<Row>, v: Verdict): (n: nat)
    ensures n <= |rows|
  {
    match FoldsInto(cfg, rows, v)
    case None => |rows|
    case Some(j) => j
  }

  lemma RetiredFoldsLater(cfg: Config, rows: seq<Row>, v: Verdict, j: nat, path: string)
    requires cfg.dedup && FoldsInto(cfg, rows, v) == Some(j)
    ensures j < FoldPosition(cfg, Retired(rows, j, path), v)
  {
    var next, p := Retired(rows, j, path), HashedAs(cfg, cfg.fingerprint(v.title, v.body));
    forall k | 0 <= k <= j
      ensures !p(next[k])
    {
      if k < j {
        assert !p(rows[k]);
      }
    }
  }

  lemma SharedFold(cfg: Config, a: seq<Row>, b: seq<Row>, v: Verdict, i: nat) returns (j: nat)
    requires cfg.dedup && Similar(a, b) && FoldsInto(cfg, a, v) == FoldsInto(cfg, b, v)
    requires i < |a| && Visible(cfg, a[i])
    requires Matches(cfg, a[i], v) <==> !Matches(cfg, b[i], v)
    ensures FoldsInto(cfg, a, v) == Some(j) && j < |a| && j != i
  {
    var p := HashedAs(cfg, cfg.fingerprint(v.title, v.body));
    assert SimilarRow(a[i], b[i]);
    assert p(a[i]) || p(b[i]);
    j := FoldsInto(cfg, a, v).value;
  }

  /** Both tables without the row that the text folds into first; what tells them apart tells the tables apart. */
  lemma {:induction false} TellsAfterRetiring(
    cfg: Config, judge: Judge, a: seq<Row>, b: seq<Row>, raw: string, path: string, text: string, j: nat, rest: seq<Command>)
    returns (cmds: seq<Command>)
    requires cfg.dedup && Similar(a, b) && P.Normalise(Some(raw)) == P.Canonical(path) && path != P.MEMORY_ROOT
    requires Lookup(cfg, a, path).None?
    requires FoldsInto(cfg, a, judge(path, text)) == FoldsInto(cfg, b, judge(path, text)) == Some(j)
    requires HonestRun(judge, rest) && Tells(cfg, Retired(a, j, path), Retired(b, j, path), rest)
    ensures HonestRun(judge, cmds) && Tells(cfg, a, b, cmds)
  {
    var write, drop := Write(judge, raw, path, text), Delete(Some(raw));
    SameLookup(cfg, a, b, path);
    RetireRow(cfg, judge, a, raw, path, text, j);
    RetireRow(cfg, judge, b, raw, path, text, j);
    TellsLater(cfg, After(cfg, a, write).rows, After(cfg, b, write).rows, drop, rest);
    TellsLater(cfg, a, b, write, [drop] + rest);
    cmds := [write] + ([drop] + rest);
    WriteStores(cfg, judge, a, raw, path, text);
    HonestCons(judge, drop, rest);
    HonestCons(judge, write, [drop] + rest);
  }

  /** If a text folds into row `i` of one table alone, some commands tell: those before it can be taken out. */
  lemma {:induction false} DifferentMatch(
    cfg: Config, judge: Judge, a: seq<Row>, b: seq<Row>, raw: string, path: string, text: string, i: nat)
    returns (cmds: seq<Command>)
    requires cfg.dedup && Similar(a, b) && UniquePaths(cfg, a) && Addressable(cfg, a)
    requires P.Normalise(Some(raw)) == P.Canonical(path) && path != P.MEMORY_ROOT && Lookup(cfg, a, path).None?
    requires i < |a| && Visible(cfg, a[i])
    requires Matches(cfg, a[i], judge(path, text)) <==> !Matches(cfg, b[i], judge(path, text))
    ensures HonestRun(judge, cmds) && Tells(cfg, a, b, cmds)
    decreases |a| - FoldPosition(cfg, a, judge(path, text))
  {
    var v := judge(path, text);
    if FoldsInto(cfg, a, v) != FoldsInto(cfg, b, v) {
      cmds := DifferentFold(cfg, judge, a, b, raw, path, text);
    } else {
      var j := SharedFold(cfg, a, b, v, i);
      RetiredStays(cfg, a, b, j, path);
      RetiredFoldsLater(cfg, a, v, j, path);
      var rest := DifferentMatch(cfg, judge, Retired(a, j, path), Retired(b, j, path), raw, path, text, i);
      cmds := TellsAfterRetiring(cfg, judge, a, b, raw, path, text, j, rest);
    }
  }

  // ----- a path that is taken -----

  function Renamed(rows: seq<Row>, o: nat, path: string): seq<Row>
    requires o < |rows|
  {
    rows[o := rows[o].(title := path, path := Some(path))]
  }

  /** The file at the path is moved out of the way, held or not. */
  lemma MovesAway(cfg: Config, rows: seq<Row>, raw: string, path: string, free: string, other: string, o: nat)
    requires P.Normalise(Some(raw)) == P.Canonical(path) && P.Normalise(Some(free)) == P.Canonical(other)
    requires path != P.MEMORY_ROOT && Lookup(cfg, rows, path) == Some(o) && Lookup(cfg, rows, other).None?
    ensures After(cfg, rows, Rename(Some(raw), Some(free))).rows == Renamed(rows, o, other)
  {
    RenamesPath(cfg, rows, raw, path, free, other);
  }

  lemma RenamedStays(cfg: Config, a: seq<Row>, b: seq<Row>, o: nat, path: string, other: string)
    requires Similar(a, b) && UniquePaths(cfg, a) && Addressable(cfg, a) && o < |a|
    requires IsTool(cfg, a[o]) && a[o].path == Some(path) && path != other && Reached(other)
    requires forall i :: 0 <= i < |a| ==> a[i].path != Some(other)
    ensures var x, y := Renamed(a, o, other), Renamed(b, o, other);
            Similar(x, y) && UniquePaths(cfg, x) && Addressable(cfg, x) && Lookup(cfg, x, path).None?
  {
    var x, y := Renamed(a, o, other), Renamed(b, o, other);
    forall i | 0 <= i < |a|
      ensures SimilarRow(x[i], y[i]) && !FileAt(cfg, path)(x[i])
    {
      assert SimilarRow(a[i], b[i]);
      if i != o {
        OnlyOneAt(cfg, a, o, path, i);
      }
    }
    NoneAt(x, FileAt(cfg, path));
  }

  lemma OnlyOneAt(cfg: Config, rows: seq<Row>, o: nat, path: string, i: nat)
    requires UniquePaths(cfg, rows) && o < |rows| && i < |rows| && i != o
    requires IsTool(cfg, rows[o]) && rows[o].path == Some(path)
    ensures !FileAt(cfg, path)(rows[i])
  {
    if i < o && IsTool(cfg, rows[i]) {
      assert rows[i].path != rows[o].path;
    }
    if o < i && IsTool(cfg, rows[i]) {
      assert rows[o].path != rows[i].path;
    }
  }

  /** The same whether or not the path is taken. */
  lemma {:induction false} MatchTells(
    cfg: Config, judge: Judge, a: seq<Row>, b: seq<Row>, path: string, text: string, i: nat)
    returns (cmds: seq<Command>)
    requires cfg.dedup && Similar(a, b) && UniquePaths(cfg, a) && Addressable(cfg, a) && Writable(path)
    requires i < |a| && Visible(cfg, a[i])
    requires Matches(cfg, a[i], judge(path, text)) <==> !Matches(cfg, b[i], judge(path, text))
    ensures HonestRun(judge, cmds) && Tells(cfg, a, b, cmds)
  {
    var raw: string :| P.Normalise(Some(raw)) == P.Canonical(path);
    var at := Lookup(cfg, a, path);
    if at.None? {
      cmds := DifferentMatch(cfg, judge, a, b, raw, path, text, i);
    } else {
      var o := at.value;
      var free, other := FreePath(cfg, a);
      var move := Rename(Some(raw), Some(free));
      SameLookup(cfg, a, b, path);
      SameLookup(cfg, a, b, other);
      MovesAway(cfg, a, raw, path, free, other, o);
      MovesAway(cfg, b, raw, path, free, other, o);
      RenamedStays(cfg, a, b, o, path, other);
      assert SimilarRow(a[i], b[i]);
      var rest := DifferentMatch(cfg, judge, Renamed(a, o, other), Renamed(b, o, other), raw, path, text, i);
      TellsLater(cfg, a, b, move, rest);
      cmds := [move] + rest;
      HonestCons(judge, move, rest);
    }
  }

  /** No command sequence that the service could be asked to run tells the tables apart. */
  ghost predicate Indistinguishable(cfg: Config, judge: Judge, a: seq<Row>, b: seq<Row>) {
    forall cmds :: HonestRun(judge, cmds) ==> !Tells(cfg, a, b, cmds)
  }

  /**
   * With deduplication on, two tables of files that differ only in held texts of equal size and their
   * fingerprints answer every command sequence alike if and only if the same texts, written to the same
   * paths, fold into each row.
   */
  lemma {:induction false} HiddenIff(cfg: Config, judge: Judge, a: seq<Row>, b: seq<Row>)
    requires cfg.dedup && Similar(a, b) && UniquePaths(cfg, a) && Addressable(cfg, a)
    ensures Indistinguishable(cfg, judge, a, b) <==> SameFolds(cfg, judge, a, b)
  {
    if SameFolds(cfg, judge, a, b) {
      forall cmds | HonestRun(judge, cmds)
        ensures !Tells(cfg, a, b, cmds)
      {
        HeldTextsStayHidden(cfg, judge, a, b, cmds);
      }
    } else {
      var i, path, text :| 0 <= i < |a| && Visible(cfg, a[i]) && Writable(path)
                           && (Matches(cfg, a[i], judge(path, text)) <==> !Matches(cfg, b[i], judge(path, text)));
      var cmds := MatchTells(cfg, judge, a, b, path, text, i);
    }
  }

  // ----- rows that no write can match -----

  /** A service that neither redacts nor retitles: a new file is stored under its path with the text it was given. */
  ghost predicate StoresAsGiven(judge: Judge) {
    forall path, text :: judge(path, text).title == path && judge(path, text).body == text
  }

  /**
   * A held row whose fingerprint no write can have — one taken under a title that is no path of the tool, of a
   * memory that got its path by other means — stays hidden altogether.
   */
  lemma OtherTitlesStayHidden(cfg: Config, judge: Judge, a: Row, b: Row, cmds: seq<Command>)
    requires StoresAsGiven(judge) && HonestRun(judge, cmds) && SimilarRow(a, b)
    requires forall path, text :: Writable(path) ==>
               a.hash != Some(cfg.fingerprint(path, text)) && b.hash != Some(cfg.fingerprint(path, text))
    ensures Results(cfg, [a], cmds) == Results(cfg, [b], cmds)
  {
    assert Similar([a], [b]);
    forall i, path, text | 0 <= i < 1 && Writable(path)
      ensures !Matches(cfg, [a][i], judge(path, text)) && !Matches(cfg, [b][i], judge(path, text))
    {
      assert judge(path, text).title == path && judge(path, text).body == text;
    }
    HeldTextsStayHidden(cfg, judge, [a], [b], cmds);
  }
}
