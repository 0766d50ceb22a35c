/**
 * What a command cannot reach: rows that are deleted, of another organisation, or of another scope are neither
 * shown, changed nor moved. And the order and sizes of a listing, said without the functions that compute them.
 */
module MemoryToolScope {
  import opened Options
  import opened Sequences
  import opened Text
  import opened ToolViews
  import opened MemoryTool
  import opened MemoryToolFiles
  import opened MemoryToolRuns
  import P = ToolPaths

  /** Deleted, of another org (unless the caller is a superuser), or of another scope. */
  predicate Foreign(cfg: Config, r: Row) {
    !r.live || (!cfg.superuser && r.org != cfg.org) || r.scopeKind != cfg.scopeKind || r.scopeId != cfg.scopeId
  }

  lemma ForeignIff(cfg: Config, r: Row)
    ensures Foreign(cfg, r) <==> !Visible(cfg, r)
  {}

  // ----- foreign rows stay as they are -----

  lemma {:induction false} ForeignSurvivesDelete(cfg: Config, rows: seq<Row>, path: string, i: nat)
    requires i < |rows| && Foreign(cfg, rows[i])
    ensures i < |AfterDelete(cfg, rows, path).rows| && AfterDelete(cfg, rows, path).rows[i] == rows[i]
  {
    ToolRowsVisible(cfg, rows, 0, i);
    FilterMember(Tree(cfg, rows), Beneath(rows, path), i);
  }

  lemma {:induction false} ToolRowsVisible(cfg: Config, rows: seq<Row>, from: nat, i: nat)
    requires from <= |rows| && i < |rows| && Foreign(cfg, rows[i])
    ensures i !in ToolRows(cfg, rows, from)
    decreases |rows| - from
  {
    if from == |rows| {
    } else {
      ToolRowsVisible(cfg, rows, from + 1, i);
    }
  }

  lemma ForeignSurvivesCreate(cfg: Config, rows: seq<Row>, path: string, text: Option<string>, v: Verdict, i: nat)
    requires i < |rows| && Foreign(cfg, rows[i])
    ensures i < |AfterCreate(cfg, rows, path, text, v).rows| && AfterCreate(cfg, rows, path, text, v).rows[i] == rows[i]
  {}

  lemma ForeignSurvivesRename(cfg: Config, rows: seq<Row>, path: string, newPath: string, i: nat)
    requires i < |rows| && Foreign(cfg, rows[i])
    ensures i < |AfterRename(cfg, rows, path, newPath).rows| && AfterRename(cfg, rows, path, newPath).rows[i] == rows[i]
  {}

  lemma ForeignSurvivesEdit(cfg: Config, rows: seq<Row>, path: string, edit: (Option<string>, Result), i: nat)
    requires i < |rows| && Foreign(cfg, rows[i]) && Lookup(cfg, rows, path).Some?
    ensures var next := AfterEdit(rows, Lookup(cfg, rows, path).value, edit).rows;
            i < |next| && next[i] == rows[i]
  {}

  /** No command changes a foreign row. */
  lemma {:induction false} ForeignIsUnchanged(cfg: Config, rows: seq<Row>, cmd: Command, i: nat)
    requires i < |rows| && Foreign(cfg, rows[i])
    ensures i < |After(cfg, rows, cmd).rows| && After(cfg, rows, cmd).rows[i] == rows[i]
  {
    var (why, path, newPath) := PathsOf(cmd);
    if why.None? {
      var at := Lookup(cfg, rows, path);
      match cmd {
        case Create(_, text, v) => ForeignSurvivesCreate(cfg, rows, path, text, v, i);
        case Delete(_) => ForeignSurvivesDelete(cfg, rows, path, i);
        case Rename(_, _) => ForeignSurvivesRename(cfg, rows, path, newPath, i);
        case StrReplace(_, needle, replacement) =>
          if at.Some? {
            ForeignSurvivesEdit(cfg, rows, path, Replacement(path, rows[at.value].body, needle, replacement), i);
          }
        case InsertAt(_, line, text) =>
          if at.Some? {
            ForeignSurvivesEdit(cfg, rows, path, Insertion(path, rows[at.value].body, line, text), i);
          }
        case _ =>
      }
    }
  }

  // ----- and show in no answer -----

  /** The same rows, except where both are foreign. */
  ghost predicate SameOwn(cfg: Config, a: seq<Row>, b: seq<Row>) {
    |a| == |b| && forall i :: 0 <= i < |a| ==> SameOrForeign(cfg, a[i], b[i])
  }

  predicate SameOrForeign(cfg: Config, a: Row, b: Row) {
    a == b || (Foreign(cfg, a) && Foreign(cfg, b))
  }

  lemma {:induction false} OwnFirst(cfg: Config, a: seq<Row>, b: seq<Row>, p: Row -> bool)
    requires SameOwn(cfg, a, b) && forall r: Row :: p(r) ==> !Foreign(cfg, r)
    ensures First(a, p) == First(b, p)
    ensures First(a, p).Some? ==> a[First(a, p).value] == b[First(a, p).value]
  {
    if a == [] {
    } else {
      assert SameOrForeign(cfg, a[0], b[0]);
      forall i | 0 <= i < |a[1..]|
        ensures SameOrForeign(cfg, a[1..][i], b[1..][i])
      {
        assert SameOrForeign(cfg, a[i + 1], b[i + 1]);
      }
      OwnFirst(cfg, a[1..], b[1..], p);
    }
  }

  lemma OwnLookup(cfg: Config, a: seq<Row>, b: seq<Row>, path: string)
    requires SameOwn(cfg, a, b)
    ensures Lookup(cfg, a, path) == Lookup(cfg, b, path)
    ensures Lookup(cfg, a, path).Some? ==> a[Lookup(cfg, a, path).value] == b[Lookup(cfg, a, path).value]
  {
    OwnFirst(cfg, a, b, FileAt(cfg, path));
  }

  lemma OwnFold(cfg: Config, a: seq<Row>, b: seq<Row>, v: Verdict)
    requires SameOwn(cfg, a, b)
    ensures FoldsInto(cfg, a, v) == FoldsInto(cfg, b, v)
    ensures FoldsInto(cfg, a, v).Some? ==> a[FoldsInto(cfg, a, v).value] == b[FoldsInto(cfg, a, v).value]
  {
    OwnFirst(cfg, a, b, HashedAs(cfg, cfg.fingerprint(v.title, v.body)));
  }

  lemma {:induction false} OwnToolRows(cfg: Config, a: seq<Row>, b: seq<Row>, i: nat)
    requires SameOwn(cfg, a, b) && i <= |a|
    ensures ToolRows(cfg, a, i) == ToolRows(cfg, b, i)
    ensures forall k :: k in ToolRows(cfg, a, i) ==> k < |a| && a[k] == b[k]
    decreases |a| - i
  {
    if i == |a| {
    } else {
      assert SameOrForeign(cfg, a[i], b[i]);
      OwnToolRows(cfg, a, b, i + 1);
    }
  }

  lemma OwnChildren(cfg: Config, a: seq<Row>, b: seq<Row>, path: string)
    requires SameOwn(cfg, a, b)
    ensures Children(cfg, a, path) == Children(cfg, b, path)
    ensures forall k :: k in Children(cfg, a, path) ==> k < |a| && a[k] == b[k]
  {
    OwnToolRows(cfg, a, b, 0);
    FilterSame(Tree(cfg, a), Beneath(a, path), Beneath(b, path));
    FilterSound(Tree(cfg, a), Beneath(a, path));
  }

  lemma {:induction false} OwnEntries(a: seq<Row>, b: seq<Row>, at: seq<nat>)
    requires |a| == |b| && forall k :: k in at ==> k < |a| && a[k] == b[k]
    ensures Entries(a, at) == Entries(b, at)
  {
    if at == [] {
    } else {
      assert at[0] in at && forall k :: k in at[1..] ==> k in at;
      OwnEntries(a, b, at[1..]);
    }
  }

  lemma OwnView(cfg: Config, a: seq<Row>, b: seq<Row>, path: string, window: Option<(int, int)>)
    requires SameOwn(cfg, a, b)
    ensures Viewed(cfg, a, path, window) == Viewed(cfg, b, path, window)
  {
    OwnLookup(cfg, a, b, path);
    if Lookup(cfg, a, path).None? {
      OwnChildren(cfg, a, b, path);
      OwnEntries(a, b, Children(cfg, a, path));
    }
  }

  lemma OwnCreate(cfg: Config, a: seq<Row>, b: seq<Row>, path: string, text: Option<string>, v: Verdict)
    requires SameOwn(cfg, a, b)
    ensures AfterCreate(cfg, a, path, text, v).result == AfterCreate(cfg, b, path, text, v).result
    ensures SameOwn(cfg, AfterCreate(cfg, a, path, text, v).rows, AfterCreate(cfg, b, path, text, v).rows)
  {
    OwnLookup(cfg, a, b, path);
    OwnFold(cfg, a, b, v);
  }

  lemma {:induction false} OwnDelete(cfg: Config, a: seq<Row>, b: seq<Row>, path: string)
    requires SameOwn(cfg, a, b)
    ensures AfterDelete(cfg, a, path).result == AfterDelete(cfg, b, path).result
    ensures SameOwn(cfg, AfterDelete(cfg, a, path).rows, AfterDelete(cfg, b, path).rows)
  {
    OwnLookup(cfg, a, b, path);
    OwnChildren(cfg, a, b, path);
    var at := Lookup(cfg, a, path);
    OwnKilled(cfg, a, b, if at.Some? then [at.value] else Children(cfg, a, path));
  }

  lemma OwnKilled(cfg: Config, a: seq<Row>, b: seq<Row>, at: seq<nat>)
    requires SameOwn(cfg, a, b)
    ensures SameOwn(cfg, Killed(a, at), Killed(b, at))
  {
    forall i | 0 <= i < |a|
      ensures SameOrForeign(cfg, Killed(a, at)[i], Killed(b, at)[i])
    {
      assert SameOrForeign(cfg, a[i], b[i]);
    }
  }

  lemma OwnChanged(cfg: Config, a: seq<Row>, b: seq<Row>, i: nat, r: Row)
    requires SameOwn(cfg, a, b) && i < |a|
    ensures SameOwn(cfg, a[i := r], b[i := r])
  {}

  lemma {:induction false} OwnStep(cfg: Config, a: seq<Row>, b: seq<Row>, cmd: Command)
    requires SameOwn(cfg, a, b)
    ensures After(cfg, a, cmd).result == After(cfg, b, cmd).result
    ensures SameOwn(cfg, After(cfg, a, cmd).rows, After(cfg, b, cmd).rows)
  {
    var (why, path, newPath) := PathsOf(cmd);
    if why.None? {
      OwnLookup(cfg, a, b, path);
      var at := Lookup(cfg, a, path);
      match cmd {
        case View(_, window) => OwnView(cfg, a, b, path, window);
        case Create(_, text, v) => OwnCreate(cfg, a, b, path, text, v);
        case Delete(_) => OwnDelete(cfg, a, b, path);
        case Rename(_, _) =>
          OwnLookup(cfg, a, b, newPath);
          if at.Some? {
            OwnChanged(cfg, a, b, at.value, a[at.value].(title := newPath, path := Some(newPath)));
          }
        case StrReplace(_, needle, replacement) =>
          if at.Some? {
            OwnEdit(cfg, a, b, at.value, Replacement(path, a[at.value].body, needle, replacement));
          }
        case InsertAt(_, line, text) =>
          if at.Some? {
            OwnEdit(cfg, a, b, at.value, Insertion(path, a[at.value].body, line, text));
          }
        case Unknown =>
      }
    }
  }

  lemma OwnEdit(cfg: Config, a: seq<Row>, b: seq<Row>, i: nat, edit: (Option<string>, Result))
    requires SameOwn(cfg, a, b) && i < |a| && a[i] == b[i]
    ensures SameOwn(cfg, AfterEdit(a, i, edit).rows, AfterEdit(b, i, edit).rows)
  {
    if edit.0.Some? {
      OwnChanged(cfg, a, b, i, a[i].(body := edit.0.value));
    }
  }

  /** Two tables that agree on the live rows of the caller's org and scope answer every command sequence alike. */
  lemma {:induction false} ForeignRowsDoNotShow(cfg: Config, a: seq<Row>, b: seq<Row>, cmds: seq<Command>)
    requires SameOwn(cfg, a, b)
    ensures Results(cfg, a, cmds) == Results(cfg, b, cmds)
    decreases cmds
  {
    if cmds == [] {
    } else {
      OwnStep(cfg, a, b, cmds[0]);
      ForeignRowsDoNotShow(cfg, After(cfg, a, cmds[0]).rows, After(cfg, b, cmds[0]).rows, cmds[1..]);
    }
  }

  // ----- what lies under a directory -----

  lemma JoinEnds(parts: seq<string>)
    requires parts != [] && Last(parts) != ""
    ensures Join(parts, '/') != "" && Last(Join(parts, '/')) == Last(Last(parts))
  {}

  /** A key lies under a directory exactly when its components continue the directory's. */
  lemma UnderMeans(a: seq<string>, dir: seq<string>)
    requires a != [] && dir != [] && P.Clean(a) && P.Clean(dir)
    ensures Under(P.KeyOf(a), P.KeyOf(dir)) <==> dir < a
  {
    JoinEnds(dir);
    assert Last(Last(dir)) in Last(dir);
    assert Last(P.KeyOf(dir)) == Last(Last(dir)) != '/';
    assert DirPrefix(P.KeyOf(dir)) == P.KeyOf(dir) + "/";
    P.UnderIff(a, dir);
  }

  // ----- the order and the sizes of a listing -----

  /** The first place where two strings differ, or where the shorter ends, decides. */
  lemma {:induction false} LessIff(a: string, b: string)
    ensures Less(a, b) <==> exists k: nat :: DecidedAt(a, b, k)
  {
    if a == "" || b == "" || a[0] != b[0] {
      if Less(a, b) {
        assert DecidedAt(a, b, 0);
      }
      if k: nat :| DecidedAt(a, b, k) {
        assert k > 0 ==> a[..k][0] == b[..k][0];
      }
    } else {
      LessIff(a[1..], b[1..]);
      if Less(a, b) {
        var k: nat :| DecidedAt(a[1..], b[1..], k);
        assert a[..k + 1] == [a[0]] + a[1..][..k] && b[..k + 1] == [b[0]] + b[1..][..k];
        assert DecidedAt(a, b, k + 1);
      }
      if k: nat :| DecidedAt(a, b, k) {
        assert k > 0;
        assert a[1..][..k - 1] == a[..k][1..] && b[1..][..k - 1] == b[..k][1..];
        assert DecidedAt(a[1..], b[1..], k - 1);
      }
    }
  }

  ghost predicate DecidedAt(a: string, b: string, k: nat) {
    k <= |a| && k < |b| && a[..k] == b[..k] && (k == |a| || a[k] < b[k])
  }

  /** Sizes add up, and ASCII characters take one byte each, others up to four. */
  lemma {:induction false} SizesAddUp(a: string, b: string)
    ensures Utf8Length(a + b) == Utf8Length(a) + Utf8Length(b)
    ensures |a| <= Utf8Length(a) <= 4 * |a|
    ensures (forall i :: 0 <= i < |a| ==> a[i] as int <= 0x7f) <==> Utf8Length(a) == |a|
  {
    if a == "" {
      assert a + b == b;
    } else {
      assert (a + b)[1..] == a[1..] + b;
      SizesAddUp(a[1..], b);
      assert (forall i :: 0 <= i < |a| ==> a[i] as int <= 0x7f)
             <==> a[0] as int <= 0x7f && forall i :: 0 <= i < |a[1..]| ==> a[1..][i] as int <= 0x7f by {
        assert forall i :: 0 <= i < |a[1..]| ==> a[1..][i] == a[i + 1];
        assert forall i :: 0 < i < |a| ==> a[i] == a[1..][i - 1];
      }
    }
  }

  /** The size of one character is the length of its encoding in UTF-8 (section 3 of RFC 3629). */
  lemma CharacterSizes(c: char)
    ensures var n := c as int;
            && (Utf8Length([c]) == 1 <==> n <= 0x7f) && (Utf8Length([c]) == 2 <==> 0x80 <= n <= 0x7ff)
            && (Utf8Length([c]) == 3 <==> 0x800 <= n <= 0xffff) && (Utf8Length([c]) == 4 <==> 0x10000 <= n)
  {
    assert [c][1..] == "";
  }

  // ----- what is said of held files -----

  /** A held file is not shown: the answer names its path and the reason it is held, if one is recorded. */
  lemma ViewOfHeld(cfg: Config, rows: seq<Row>, path: string, window: Option<(int, int)>)
    requires var at := Lookup(cfg, rows, path); at.Some? && rows[at.value].status == Pending
    ensures var reason := rows[Lookup(cfg, rows, path).value].reason;
            Viewed(cfg, rows, path, window) ==
            Held(path, if reason.Some? && reason.value != "" then reason.value else "awaiting review")
  {}

  /** A new file's answer says that it is held and why, or that it was redacted, or neither. */
  lemma NoteIs(v: Verdict)
    ensures NoteOf(v) ==
            if v.status == Pending then HeldForReview(if v.reason.Some? && v.reason.value != "" then v.reason.value else "policy")
            else if v.redacted then Redacted
            else Plain
  {}

  /** What is shown of a file: nothing of one with more than 999,999 lines; else rows of its numbered view, all of
      them or those of the window. */
  lemma ShowsIs(path: string, body: string, window: Option<(int, int)>)
    ensures var full := Lines(Numbered(body, 1));
            if |Lines(body)| > 999_999 then Shows(path, body, window) == Failed(TooManyLines(path))
            else
              && Shows(path, body, window).Shown? && Shows(path, body, window).path == path
              && (window.None? ==> Lines(Shows(path, body, window).view) == full)
              && (window.Some? ==>
                    var from, to := Max(1, window.value.0), if window.value.1 == -1 then |full| else Min(window.value.1, |full|);
                    Lines(Shows(path, body, window).view) == if from <= to then full[from - 1..to] else full)
  {
    ViewRows(body, 1);
    if window.Some? {
      WindowIsAbsolute(body, window.value.0, window.value.1);
      var full := Lines(Numbered(body, 1));
      assert full[0..|full|] == full;
    }
  }
}
