/**
 * The streaming export: pages read by id while other transactions append and purge between reads.
 * `snaps[k]` is the table as the export's k-th read sees it.
 */
module AuditExport {
  import opened Options
  import opened Sequences
  import opened AuditChain
  import opened AuditTable
  import opened AuditRuns

  /** What other transactions can do in between: rows are only removed, and new ids are only larger. */
  ghost predicate Later(a: Log, b: Log) {
    && a.nextId <= b.nextId
    && forall e :: e in b.rows && e.id < a.nextId ==> e in a.rows
  }

  /** Any run of appends and purges is such a change. */
  lemma {:induction false} RunsAreLater(log: Log, steps: seq<Step>)
    requires WellNumbered(log)
    ensures Later(log, Run(log, steps))
  {
    if steps == [] {
    } else {
      var before := steps[..|steps| - 1];
      RunsAreLater(log, before);
      RunIsWellNumbered(log, before);
      if Last(steps).PurgeStep? {
        FilterSound(Run(log, before).rows, Survives(Last(steps).org, Last(steps).cutoff));
      }
    }
  }

  ghost predicate Successive(snaps: seq<Log>) {
    && (forall k :: 0 <= k < |snaps| ==> WellNumbered(snaps[k]))
    && (forall k :: 0 < k < |snaps| ==> Later(snaps[k - 1], snaps[k]))
  }

  ghost predicate Increasing(out: seq<Entry>) {
    forall i, j :: 0 <= i < j < |out| ==> out[i].id < out[j].id
  }

  /** Everything readable in `rows` up to the cursor has been emitted. */
  ghost predicate EmittedUpTo(
    rows: seq<Entry>, wanted: Entry -> bool, cursor: int, out: seq<Entry>)
  {
    forall e :: e in rows && wanted(e) && e.id <= cursor ==> e in out
  }

  /** A nonempty page that holds everything readable between the cursor and its own last id. */
  ghost predicate FullPage(rows: seq<Entry>, want: Entry -> bool, page: seq<Entry>) {
    && page != [] && Increasing(page)
    && (forall e :: e in page ==> e in rows && want(e))
    && (forall e :: e in rows && want(e) && e.id <= Last(page).id ==> e in page)
  }

  /** A page is full, or nothing is left to read. */
  lemma PageIsFull(
    rows: seq<Entry>, org: int, since: Option<int>, until: Option<int>, after: int, limit: nat)
    requires Ordered(rows) && 0 < limit
    ensures var page := Page(rows, org, since, until, after, limit);
            if page == [] then forall e :: e in rows ==> !Readable(org, since, until, after)(e)
            else FullPage(rows, Readable(org, since, until, after), page)
    ensures |Page(rows, org, since, until, after, limit)| <= limit
  {
    var want := Readable(org, since, until, after);
    var found := Filter(rows, want);
    var page := Page(rows, org, since, until, after, limit);
    OrderedFilter(rows, want);
    FilterSound(rows, want);
    forall e | e in rows && want(e)
      ensures page != [] && (e.id <= Last(page).id ==> e in page)
    {
      FilterMember(rows, want, e);
      var i :| 0 <= i < |found| && found[i] == e;
      if i >= |page| {
        assert found[|page| - 1].id < found[i].id;
      }
    }
  }

  /**
   * After `|cursors| - 1` reads: what was emitted is wanted, increasing and seen in some read; read k
   * emitted all it could see up to the cursor it left; and so it is of the table as the next read sees it.
   */
  ghost predicate Progress(snaps: seq<Log>, wanted: Entry -> bool, cursors: seq<int>, out: seq<Entry>) {
    && 0 < |cursors| <= |snaps| + 1 && 0 <= Last(cursors)
    && Increasing(out)
    && (forall e :: e in out ==> wanted(e) && e.id <= Last(cursors))
    && (forall e :: e in out ==> SeenBefore(snaps, cursors, e))
    && (forall k :: 0 <= k < |cursors| - 1 ==> cursors[k + 1] < snaps[k].nextId)
    && (forall k :: 0 <= k < |cursors| - 1 ==> EmittedUpTo(snaps[k].rows, wanted, cursors[k + 1], out))
    && (|cursors| <= |snaps| ==> EmittedUpTo(snaps[|cursors| - 1].rows, wanted, Last(cursors), out))
  }

  /** Some read found the row and went past it. */
  ghost predicate SeenBefore(snaps: seq<Log>, cursors: seq<int>, e: Entry)
    requires |cursors| <= |snaps| + 1
  {
    exists k :: 0 <= k < |cursors| - 1 && e in snaps[k].rows && e.id <= cursors[k + 1]
  }

  /**
   * The export loop, up to the reads the snapshots provide. What is emitted is strictly increasing in
   * id, so nothing is emitted twice; read k emits every wanted row it can see up to its cursor; and a
   * finished export holds every wanted row of the table as last read, including rows appended meanwhile.
   */
  method Export(snaps: seq<Log>, org: int, since: Option<int>, until: Option<int>, limit: nat)
    returns (out: seq<Entry>, cursors: seq<int>, done: bool)
    requires Successive(snaps) && 0 < limit
    ensures Progress(snaps, Readable(org, since, until, 0), cursors, out)
    ensures forall e :: e in out ==>
              && e.content.orgId == org
              && (since.Some? ==> since.value <= e.content.createdAt) && (until.Some? ==> e.content.createdAt < until.value)
    ensures if done then
              && |cursors| <= |snaps|
              && forall e :: (&& e in snaps[|cursors| - 1].rows && e.content.orgId == org
                              && (since.Some? ==> since.value <= e.content.createdAt)
                              && (until.Some? ==> e.content.createdAt < until.value)) ==> e in out
            else
              |cursors| == |snaps| + 1
  {
    out, cursors, done := [], [0], false;
    while |cursors| <= |snaps|
      invariant Progress(snaps, Readable(org, since, until, 0), cursors, out)
      decreases |snaps| + 1 - |cursors|
    {
      var page := NextRead(snaps, org, since, until, limit, cursors, out);
      if page == [] {
        done := true;
        InTheWindow(snaps[|cursors| - 1], org, since, until);
        return;
      }
      out := out + page;
      cursors := cursors + [Last(page).id];
    }
  }

  /** What is readable of a table, by its columns. */
  lemma InTheWindow(log: Log, org: int, since: Option<int>, until: Option<int>)
    requires WellNumbered(log)
    ensures forall e :: e in log.rows ==>
              (Readable(org, since, until, 0)(e) <==>
               && e.content.orgId == org
               && (since.Some? ==> since.value <= e.content.createdAt) && (until.Some? ==> e.content.createdAt < until.value))
  {}

  /** One read: it makes progress, or everything wanted has been emitted. */
  method NextRead(
    snaps: seq<Log>, org: int, since: Option<int>, until: Option<int>, limit: nat, cursors: seq<int>, out: seq<Entry>)
    returns (page: seq<Entry>)
    requires Successive(snaps) && 0 < limit
    requires Progress(snaps, Readable(org, since, until, 0), cursors, out) && |cursors| <= |snaps|
    ensures page == Page(snaps[|cursors| - 1].rows, org, since, until, Last(cursors), limit)
    ensures if page == [] then
              forall e :: e in snaps[|cursors| - 1].rows && Readable(org, since, until, 0)(e) ==> e in out
            else
              Progress(snaps, Readable(org, since, until, 0), cursors + [Last(page).id], out + page)
  {
    page := Page(snaps[|cursors| - 1].rows, org, since, until, Last(cursors), limit);
    PageIsFull(snaps[|cursors| - 1].rows, org, since, until, Last(cursors), limit);
    if page == [] {
      NothingLeft(snaps[|cursors| - 1].rows, org, since, until, Last(cursors), out);
    } else {
      ReadMakesProgress(snaps, org, since, until, cursors, out, page);
    }
  }

  lemma NothingLeft(
    rows: seq<Entry>, org: int, since: Option<int>, until: Option<int>, after: int, out: seq<Entry>)
    requires forall e :: e in rows ==> !Readable(org, since, until, after)(e)
    requires EmittedUpTo(rows, Readable(org, since, until, 0), after, out)
    ensures forall e :: e in rows && Readable(org, since, until, 0)(e) ==> e in out
  {}

  lemma PageIds(page: seq<Entry>, org: int, since: Option<int>, until: Option<int>, after: int)
    requires Increasing(page) && page != [] && forall e :: e in page ==> Readable(org, since, until, after)(e)
    ensures forall e :: e in page ==> after < e.id <= Last(page).id
  {
    forall e | e in page
      ensures after < e.id <= Last(page).id
    {
      var i :| 0 <= i < |page| && page[i] == e;
    }
  }

  lemma EmittedFurther(
    rows: seq<Entry>, org: int, since: Option<int>, until: Option<int>, after: int, page: seq<Entry>, out: seq<Entry>)
    requires FullPage(rows, Readable(org, since, until, after), page) && 0 <= after
    requires EmittedUpTo(rows, Readable(org, since, until, 0), after, out)
    ensures EmittedUpTo(rows, Readable(org, since, until, 0), Last(page).id, out + page)
  {
    forall e | e in rows && Readable(org, since, until, 0)(e) && e.id <= Last(page).id
      ensures e in out + page
    {
      if after < e.id {
        assert Readable(org, since, until, after)(e);
      }
    }
  }

  lemma ConcatIncreases(out: seq<Entry>, page: seq<Entry>, after: int)
    requires Increasing(out) && Increasing(page)
    requires (forall e :: e in out ==> e.id <= after) && (forall e :: e in page ==> after < e.id)
    ensures Increasing(out + page)
  {
    var all := out + page;
    forall i, j | 0 <= i < j < |all|
      ensures all[i].id < all[j].id
    {
      if i < |out| <= j {
        assert out[i] in out && page[j - |out|] in page;
      }
    }
  }

  lemma SeenStays(snaps: seq<Log>, cursors: seq<int>, e: Entry, next: int)
    requires |cursors| <= |snaps| && SeenBefore(snaps, cursors, e)
    ensures SeenBefore(snaps, cursors + [next], e)
  {
    var j :| 0 <= j < |cursors| - 1 && e in snaps[j].rows && e.id <= cursors[j + 1];
    assert (cursors + [next])[j + 1] == cursors[j + 1];
  }

  lemma EmittedStays(
    snaps: seq<Log>, wanted: Entry -> bool, cursors: seq<int>, out: seq<Entry>, page: seq<Entry>, next: int, j: nat)
    requires |cursors| <= |snaps| && j < |cursors| - 1 && EmittedUpTo(snaps[j].rows, wanted, cursors[j + 1], out)
    ensures EmittedUpTo(snaps[j].rows, wanted, (cursors + [next])[j + 1], out + page)
  {}

  /** What was emitted of a table up to a cursor it had then is all a later one can show up to that cursor. */
  lemma EmittedOfLater(a: Log, b: Log, wanted: Entry -> bool, cursor: int, out: seq<Entry>)
    requires Later(a, b) && cursor < a.nextId && EmittedUpTo(a.rows, wanted, cursor, out)
    ensures EmittedUpTo(b.rows, wanted, cursor, out)
  {}

  lemma PageIsSeen(
    snaps: seq<Log>, cursors: seq<int>, out: seq<Entry>, page: seq<Entry>, next: int)
    requires 0 < |cursors| <= |snaps| && forall e :: e in out ==> SeenBefore(snaps, cursors, e)
    requires forall e :: e in page ==> e in snaps[|cursors| - 1].rows && e.id <= next
    ensures forall e :: e in out + page ==> SeenBefore(snaps, cursors + [next], e)
  {
    forall e | e in out + page
      ensures SeenBefore(snaps, cursors + [next], e)
    {
      if e in out {
        SeenStays(snaps, cursors, e, next);
      } else {
        var k := |cursors| - 1;
        assert e in snaps[k].rows && e.id <= (cursors + [next])[k + 1];
      }
    }
  }

  lemma {:induction false} ReadMakesProgress(
    snaps: seq<Log>, org: int, since: Option<int>, until: Option<int>, cursors: seq<int>, out: seq<Entry>, page: seq<Entry>)
    requires Successive(snaps) && Progress(snaps, Readable(org, since, until, 0), cursors, out) && |cursors| <= |snaps|
    requires FullPage(snaps[|cursors| - 1].rows, Readable(org, since, until, Last(cursors)), page)
    ensures Progress(snaps, Readable(org, since, until, 0), cursors + [Last(page).id], out + page)
  {
    var k, after, next := |cursors| - 1, Last(cursors), Last(page).id;
    var wanted, more, all := Readable(org, since, until, 0), cursors + [next], out + page;
    PageIds(page, org, since, until, after);
    assert Last(page) in page;
    ConcatIncreases(out, page, after);
    PageIsSeen(snaps, cursors, out, page, next);
    EmittedFurther(snaps[k].rows, org, since, until, after, page, out);
    assert WellNumbered(snaps[k]) && next < snaps[k].nextId;
    forall j | 0 <= j < |more| - 1
      ensures EmittedUpTo(snaps[j].rows, wanted, more[j + 1], all) && more[j + 1] < snaps[j].nextId
    {
      if j < k {
        EmittedStays(snaps, wanted, cursors, out, page, next, j);
        assert more[j + 1] == cursors[j + 1];
      }
    }
    if |more| <= |snaps| {
      EmittedOfLater(snaps[k], snaps[k + 1], wanted, next, all);
    }
  }
}
