/**
 * Embedding maintenance: which memories are tried next, what a failure does to one, when it is parked,
 * and what that guarantees over whole runs of the worker.
 */
module EmbedRetry {
  import opened Options
  import opened Sequences

  const MAX_BACKOFF_SECONDS := 3600

  // ----- the retry rule -----

  datatype RetryDecision = RetryDecision(attempts: nat, nextAttemptAt: Option<int>, parked: bool)

  function Pow2(n: nat): nat {
    if n == 0 then 1 else 2 * Pow2(n - 1)
  }

  /** The wait after failure number `i`, counting from 0. */
  function Delay(base: int, i: nat): int {
    Min(base * Pow2(i), MAX_BACKOFF_SECONDS)
  }

  /** The waits after failures 0 to `n - 1`, together. */
  function TotalDelay(base: int, n: nat): int {
    if n == 0 then 0 else TotalDelay(base, n - 1) + Delay(base, n - 1)
  }

  function DecideRetry(attemptsBefore: nat, maxAttempts: int, base: int, now: int): RetryDecision {
    var attempts := attemptsBefore + 1;
    if attempts >= maxAttempts then RetryDecision(attempts, None, true)
    else RetryDecision(attempts, Some(now + Min(base * Pow2(attempts - 1), MAX_BACKOFF_SECONDS)), false)
  }

  // ----- the table -----

  /** The columns this part of the repository reads and writes; `embedded` is the model of the stored vector. */
  datatype Memory = Memory(
    org: int, createdAt: int, live: bool, embedded: Option<string>, attempts: nat, failedAt: Option<int>,
    nextAttemptAt: Option<int>)

  /**
   * The worker's settings. `model` is the configured model name, which eligibility and the status counts
   * compare with; `embedderModel` is the name the loaded embedder gives itself, which is what gets stored.
   */
  datatype Settings = Settings(model: string, embedderModel: string, maxAttempts: int, base: int)

  type Table = map<int, Memory>

  predicate Eligible(m: Memory, model: string, now: int) {
    && m.live
    && (m.embedded.None? || m.embedded.value != model)
    && m.failedAt.None?
    && (m.nextAttemptAt.None? || m.nextAttemptAt.value <= now)
  }

  function AfterSuccess(m: Memory, model: string): Memory {
    m.(embedded := Some(model), attempts := 0, failedAt := None, nextAttemptAt := None)
  }

  function AfterFailure(m: Memory, settings: Settings, now: int): Memory {
    var d := DecideRetry(m.attempts, settings.maxAttempts, settings.base, now);
    m.(attempts := d.attempts, nextAttemptAt := d.nextAttemptAt, failedAt := if d.parked then Some(now) else m.failedAt)
  }

  predicate Resettable(m: Memory, org: Option<int>) {
    m.live && m.failedAt.Some? && (org.None? || m.org == org.value)
  }

  function AfterReset(m: Memory, org: Option<int>): Memory {
    if Resettable(m, org) then m.(attempts := 0, failedAt := None, nextAttemptAt := None) else m
  }

  /** A body edit makes the vector stale; failure state is left alone. */
  function AfterEdit(m: Memory): Memory {
    m.(embedded := None)
  }

  datatype EmbedStatus = EmbedStatus(pending: nat, failed: nat, ok: nat)

  function LiveRows(rows: Table): set<int> {
    set i | i in rows && rows[i].live
  }

  function PendingRows(rows: Table): set<int> {
    set i | i in rows && rows[i].live && rows[i].embedded.None? && rows[i].failedAt.None?
  }

  function FailedRows(rows: Table): set<int> {
    set i | i in rows && rows[i].live && rows[i].failedAt.Some?
  }

  function OkRows(rows: Table, model: string): set<int> {
    set i | i in rows && rows[i].live && rows[i].embedded == Some(model)
  }

  function AllAfterFailure(rows: Table, ids: set<int>, settings: Settings, now: int): Table {
    map i | i in rows :: if i in ids then AfterFailure(rows[i], settings, now) else rows[i]
  }

  /** The rows whose retry budget this failure spends. */
  function ParkedBy(rows: Table, ids: set<int>, settings: Settings): set<int> {
    set i | i in ids && i in rows && rows[i].attempts + 1 >= settings.maxAttempts
  }

  lemma FailureCounted(rows: Table, done: set<int>, id: int, settings: Settings, now: int)
    requires id in rows && id !in done
    ensures AllAfterFailure(rows, done + {id}, settings, now)
         == AllAfterFailure(rows, done, settings, now)[id := AfterFailure(rows[id], settings, now)]
    ensures |ParkedBy(rows, done + {id}, settings)|
         == |ParkedBy(rows, done, settings)| + if rows[id].attempts + 1 >= settings.maxAttempts then 1 else 0
  {
    var before, after := ParkedBy(rows, done, settings), ParkedBy(rows, done + {id}, settings);
    if rows[id].attempts + 1 >= settings.maxAttempts {
      assert after == before + {id};
    } else {
      assert after == before;
    }
  }

  lemma HasMember(ids: set<int>)
    requires ids != {}
    ensures exists i :: i in ids
  {
    if forall i :: i !in ids {
      assert false;
    }
  }

  predicate OlderOrEqual(rows: Table, i: int, j: int)
    requires i in rows && j in rows
  {
    rows[i].createdAt <= rows[j].createdAt
  }

  lemma {:induction false} OldestExists(rows: Table, ids: set<int>)
    requires ids != {} && ids <= rows.Keys
    ensures exists i :: i in ids && forall j :: j in ids ==> OlderOrEqual(rows, i, j)
  {
    HasMember(ids);
    var x :| x in ids;
    var rest := ids - {x};
    if rest == {} {
      forall j | j in ids
        ensures OlderOrEqual(rows, x, j)
      {
        assert j != x ==> j in rest;
      }
    } else {
      OldestExists(rows, rest);
      var y :| y in rest && forall j :: j in rest ==> OlderOrEqual(rows, y, j);
      var i := if OlderOrEqual(rows, x, y) then x else y;
      assert forall j :: j in ids ==> j == x || j in rest;
      assert i in ids && forall j :: j in ids ==> OlderOrEqual(rows, i, j);
    }
  }

  lemma OneMore(counted: set<int>, done: set<int>, i: int)
    requires i !in done
    ensures |counted * (done + {i})| == |counted * done| + if i in counted then 1 else 0
  {
    if i in counted {
      assert counted * (done + {i}) == counted * done + {i};
    } else {
      assert counted * (done + {i}) == counted * done;
    }
  }

  /** The counts over the rows in `done`. */
  ghost function Tally(rows: Table, model: string, done: set<int>): EmbedStatus {
    EmbedStatus(|PendingRows(rows) * done|, |FailedRows(rows) * done|, |OkRows(rows, model) * done|)
  }

  /** The three FILTER clauses on one row. */
  function Counted(status: EmbedStatus, m: Memory, model: string): EmbedStatus {
    EmbedStatus(
      status.pending + (if m.live && m.embedded.None? && m.failedAt.None? then 1 else 0),
      status.failed + (if m.live && m.failedAt.Some? then 1 else 0),
      status.ok + (if m.live && m.embedded.Some? && m.embedded.value == model then 1 else 0))
  }

  lemma TallyOne(rows: Table, model: string, done: set<int>, i: int)
    requires i in rows && i !in done
    ensures Tally(rows, model, done + {i}) == Counted(Tally(rows, model, done), rows[i], model)
  {
    OneMore(PendingRows(rows), done, i);
    OneMore(FailedRows(rows), done, i);
    OneMore(OkRows(rows, model), done, i);
    assert rows[i].embedded == Some(model) <==> rows[i].embedded.Some? && rows[i].embedded.value == model;
  }

  lemma CountedWithin(counted: set<int>, rows: Table)
    requires forall i :: i in counted ==> i in rows
    ensures counted * rows.Keys == counted && counted * {} == {}
  {
    assert forall i :: i in counted * rows.Keys <==> i in counted;
  }

  lemma TallyAll(rows: Table, model: string)
    ensures Tally(rows, model, {}) == EmbedStatus(0, 0, 0)
    ensures Tally(rows, model, rows.Keys) == EmbedStatus(|PendingRows(rows)|, |FailedRows(rows)|, |OkRows(rows, model)|)
  {
    CountedWithin(PendingRows(rows), rows);
    CountedWithin(FailedRows(rows), rows);
    CountedWithin(OkRows(rows, model), rows);
  }

  lemma EligibleByColumns(rows: Table, model: string, now: int)
    ensures forall i :: i in rows ==>
              (Eligible(rows[i], model, now) <==>
               && rows[i].live && rows[i].embedded != Some(model) && rows[i].failedAt.None?
               && (rows[i].nextAttemptAt.Some? ==> rows[i].nextAttemptAt.value <= now))
  {
    forall i | i in rows
      ensures rows[i].embedded != Some(model) <==> rows[i].embedded.None? || rows[i].embedded.value != model
    {}
  }

  class MemoryRepository {
    var rows: Table

    constructor (rows: Table)
      ensures this.rows == rows
    {
      this.rows := rows;
    }

    /** A batch to embed: the oldest of the eligible rows, at most `limit`, oldest first. */
    method ListPendingEmbedding(model: string, now: int, limit: nat) returns (batch: seq<int>)
      ensures forall k :: 0 <= k < |batch| ==>
                && batch[k] in rows
                && (var m := rows[batch[k]];
                    && m.live && m.embedded != Some(model) && m.failedAt.None?
                    && (m.nextAttemptAt.Some? ==> m.nextAttemptAt.value <= now))
      ensures forall k, l :: 0 <= k < l < |batch| ==> batch[k] != batch[l] && OlderOrEqual(rows, batch[k], batch[l])
      ensures |batch| <= limit
      ensures forall i :: i in rows && i !in batch
                          && rows[i].live && rows[i].embedded != Some(model) && rows[i].failedAt.None?
                          && (rows[i].nextAttemptAt.Some? ==> rows[i].nextAttemptAt.value <= now) ==>
                |batch| == limit && forall k :: 0 <= k < |batch| ==> OlderOrEqual(rows, batch[k], i)
    {
      var rest := set i | i in rows && Eligible(rows[i], model, now);
      batch := [];
      while rest != {} && |batch| < limit
        invariant |batch| <= limit && rest <= rows.Keys
        invariant forall k :: 0 <= k < |batch| ==> batch[k] in rows && Eligible(rows[batch[k]], model, now)
        invariant forall k, l :: 0 <= k < l < |batch| ==> batch[k] != batch[l] && OlderOrEqual(rows, batch[k], batch[l])
        invariant forall i :: i in rest <==> i in rows && Eligible(rows[i], model, now) && i !in batch
        invariant forall i, k :: i in rest && 0 <= k < |batch| ==> OlderOrEqual(rows, batch[k], i)
        decreases rest
      {
        OldestExists(rows, rest);
        var i :| i in rest && forall j :: j in rest ==> OlderOrEqual(rows, i, j);
        rest, batch := rest - {i}, batch + [i];
      }
      EligibleByColumns(rows, model, now);
    }

    method SetEmbedding(id: int, model: string)
      modifies this
      ensures rows == if id in old(rows) then old(rows)[id := AfterSuccess(old(rows)[id], model)] else old(rows)
      ensures id in old(rows) ==>
                rows[id] == old(rows)[id].(embedded := Some(model), attempts := 0, failedAt := None, nextAttemptAt := None)
    {
      if id in rows {
        rows := rows[id := rows[id].(embedded := Some(model), attempts := 0, failedAt := None, nextAttemptAt := None)];
      }
    }

    /** Counts one failed attempt against each memory; returns how many were parked by it. */
    method RecordEmbedFailure(ids: set<int>, settings: Settings, now: int) returns (failed: nat)
      modifies this
      ensures rows == AllAfterFailure(old(rows), ids, settings, now)
      ensures failed == |ParkedBy(old(rows), ids, settings)|
    {
      ghost var before := rows;
      var todo := ids * rows.Keys;
      ghost var done: set<int> := {};
      failed := 0;
      while todo != {}
        invariant done !! todo && done + todo == ids * before.Keys
        invariant rows == AllAfterFailure(before, done, settings, now)
        invariant failed == |ParkedBy(before, done, settings)|
        decreases todo
      {
        HasMember(todo);
        var i :| i in todo;
        assert rows[i] == before[i];
        var parked := FailOne(i, settings, now);
        if parked {
          failed := failed + 1;
        }
        FailureCounted(before, done, i, settings, now);
        done, todo := done + {i}, todo - {i};
      }
      assert rows == AllAfterFailure(before, ids, settings, now);
      assert ParkedBy(before, done, settings) == ParkedBy(before, ids, settings);
    }

    method FailOne(id: int, settings: Settings, now: int) returns (parked: bool)
      requires id in rows
      modifies this
      ensures rows == old(rows)[id := AfterFailure(old(rows)[id], settings, now)]
      ensures parked <==> old(rows)[id].attempts + 1 >= settings.maxAttempts
    {
      var decision := DecideRetry(rows[id].attempts, settings.maxAttempts, settings.base, now);
      var memory := rows[id].(attempts := decision.attempts, nextAttemptAt := decision.nextAttemptAt);
      if decision.parked {
        memory := memory.(failedAt := Some(now));
      }
      rows := rows[id := memory];
      parked := decision.parked;
    }

    /** Requeues parked live memories of one org, or of all; returns how many. */
    method ResetEmbedFailures(org: Option<int>) returns (released: nat)
      modifies this
      ensures rows == map i | i in old(rows) :: AfterReset(old(rows)[i], org)
      ensures released == |set i | i in old(rows) && Resettable(old(rows)[i], org)|
      ensures rows.Keys == old(rows).Keys
      ensures forall i :: i in rows ==>
                var m := old(rows)[i];
                rows[i] == if m.live && m.failedAt.Some? && (org.Some? ==> m.org == org.value)
                           then m.(attempts := 0, failedAt := None, nextAttemptAt := None) else m
    {
      var ids := set i | i in rows && Resettable(rows[i], org);
      released := |ids|;
      rows := map i | i in rows ::
        if i in ids then rows[i].(attempts := 0, failedAt := None, nextAttemptAt := None) else rows[i];
    }

    /** One aggregate pass over the live rows. */
    method EmbedStatusCounts(model: string) returns (status: EmbedStatus)
      ensures status == EmbedStatus(|PendingRows(rows)|, |FailedRows(rows)|, |OkRows(rows, model)|)
    {
      var todo := rows.Keys;
      ghost var done: set<int> := {};
      status := EmbedStatus(0, 0, 0);
      TallyAll(rows, model);
      while todo != {}
        invariant done !! todo && done + todo == rows.Keys
        invariant status == Tally(rows, model, done)
        decreases todo
      {
        HasMember(todo);
        var i :| i in todo;
        TallyOne(rows, model, done, i);
        status := Counted(status, rows[i], model);
        done, todo := done + {i}, todo - {i};
      }
      assert done == rows.Keys;
    }
  }

  // ----- what the status counts add up to -----

  /** Embedded by another model and not parked: counted in none of the three. */
  function StaleRows(rows: Table, model: string): set<int> {
    set i | i in rows && rows[i].live && rows[i].failedAt.None? && rows[i].embedded.Some? && rows[i].embedded.value != model
  }

  lemma CardUnion(a: set<int>, b: set<int>)
    ensures |a + b| + |a * b| == |a| + |b|
  {}

  /** The three counts add up to the live rows exactly when as many rows are in none of them as in two. */
  lemma CountsAddUpIff(rows: Table, model: string)
    ensures |PendingRows(rows)| + |FailedRows(rows)| + |OkRows(rows, model)| == |LiveRows(rows)|
            <==> |StaleRows(rows, model)| == |FailedRows(rows) * OkRows(rows, model)|
  {
    var p, f, k, stale := PendingRows(rows), FailedRows(rows), OkRows(rows, model), StaleRows(rows, model);
    CardUnion(f, k);
    CardUnion(p, f + k);
    CardUnion(stale, p + (f + k));
    assert p * (f + k) == {} && stale * (p + (f + k)) == {};
    forall i
      ensures i in stale + (p + (f + k)) <==> i in LiveRows(rows)
    {
      if i in rows {
        var m := rows[i];
        assert m.embedded.Some? && m.embedded.value == model ==> m.embedded == Some(model);
      }
    }
    assert stale + (p + (f + k)) == LiveRows(rows);
  }

  // ----- runs -----

  /**
   * One worker, whose unresolved batch is `batch` (it may be abandoned for a new one), beside edits,
   * deletions, new memories and resets.
   * `history` records, per memory, the times of the failures since its last success or reset.
   */
  datatype State = State(now: int, rows: Table, batch: set<int>, history: map<int, seq<int>>)

  datatype Step =
    | Tick(seconds: nat)
    | Insert(id: int, org: int, createdAt: int, inline: bool)
    | List(picked: set<int>)
    | Fail(id: int)
    | Succeed(id: int)
    | Reset(target: Option<int>)
    | Edit(id: int)
    | Delete(id: int)

  predicate Enabled(s: State, step: Step, settings: Settings) {
    match step
    case Tick(_) => true
    case Insert(id, _, _, _) => id !in s.rows
    case List(picked) => forall i :: i in picked ==> i in s.rows && Eligible(s.rows[i], settings.model, s.now)
    case Fail(id) => id in s.batch && id in s.rows
    case Succeed(id) => id in s.batch && id in s.rows
    case Reset(_) => true
    case Edit(id) => id in s.rows && s.rows[id].live
    case Delete(id) => id in s.rows && s.rows[id].live
  }

  function Failures(s: State, id: int): seq<int> {
    if id in s.history then s.history[id] else []
  }

  /** A new memory, embedded as part of the write or left to the worker. */
  function Inserted(org: int, createdAt: int, inline: bool, settings: Settings): Memory {
    Memory(org, createdAt, true, if inline then Some(settings.embedderModel) else None, 0, None, None)
  }

  function Next(s: State, step: Step, settings: Settings): State
    requires Enabled(s, step, settings)
  {
    match step
    case Tick(seconds) => s.(now := s.now + seconds)
    case Insert(id, org, createdAt, inline) =>
      s.(rows := s.rows[id := Inserted(org, createdAt, inline, settings)], history := s.history[id := []])
    case List(picked) => s.(batch := picked)
    case Fail(id) =>
      s.(rows := s.rows[id := AfterFailure(s.rows[id], settings, s.now)], batch := s.batch - {id},
         history := s.history[id := Failures(s, id) + [s.now]])
    case Succeed(id) =>
      s.(rows := s.rows[id := AfterSuccess(s.rows[id], settings.embedderModel)], batch := s.batch - {id},
         history := s.history[id := []])
    case Reset(org) =>
      s.(rows := map i | i in s.rows :: AfterReset(s.rows[i], org),
         history := map i | i in s.rows :: if Resettable(s.rows[i], org) then [] else Failures(s, i))
    case Edit(id) => s.(rows := s.rows[id := AfterEdit(s.rows[id])])
    case Delete(id) => s.(rows := s.rows[id := s.rows[id].(live := false)])
  }

  ghost predicate IsRun(s: State, steps: seq<Step>, t: State, settings: Settings)
    decreases |steps|
  {
    if steps == [] then s == t
    else Enabled(s, steps[0], settings) && IsRun(Next(s, steps[0], settings), steps[1..], t, settings)
  }

  const INIT := State(0, map[], {}, map[])

  // ----- the invariant -----

  /** Each failure came at least the scheduled wait after the one before it. */
  ghost predicate Spaced(h: seq<int>, base: int) {
    forall k :: 0 <= k < |h| - 1 ==> h[k] + Delay(base, k) <= h[k + 1]
  }

  ghost predicate RowInv(m: Memory, h: seq<int>, now: int, settings: Settings) {
    && m.attempts == |h| && Spaced(h, settings.base)
    && (h != [] ==> Last(h) <= now)
    && (m.embedded.Some? ==> m.embedded.value == settings.embedderModel)
    && (m.embedded.Some? && settings.embedderModel == settings.model ==> h == [] && m.failedAt.None?)
    && (m.failedAt.Some? ==>
          h != [] && m.failedAt.value == Last(h) && |h| == Max(1, settings.maxAttempts) && m.nextAttemptAt.None?)
    && (m.failedAt.None? ==>
          if h == [] then m.nextAttemptAt.None?
          else |h| < settings.maxAttempts && m.nextAttemptAt == Some(Last(h) + Delay(settings.base, |h| - 1)))
  }

  ghost predicate Ready(m: Memory, now: int, settings: Settings) {
    && (m.embedded.Some? ==> settings.embedderModel != settings.model)
    && m.failedAt.None? && (m.nextAttemptAt.None? || m.nextAttemptAt.value <= now)
  }

  ghost predicate Inv(s: State, settings: Settings) {
    && (forall i :: i in s.rows ==> RowInv(s.rows[i], Failures(s, i), s.now, settings))
    && (forall i :: i in s.batch ==> i in s.rows && Ready(s.rows[i], s.now, settings))
  }

  lemma FailureKeepsRowInv(m: Memory, h: seq<int>, now: int, settings: Settings)
    requires RowInv(m, h, now, settings) && Ready(m, now, settings)
    ensures RowInv(AfterFailure(m, settings, now), h + [now], now, settings)
  {
    var longer := h + [now];
    forall k | 0 <= k < |longer| - 1
      ensures longer[k] + Delay(settings.base, k) <= longer[k + 1]
    {
      if k < |h| - 1 {
        assert longer[k] == h[k] && longer[k + 1] == h[k + 1];
      }
    }
  }

  /** A step that rewrites one row and its history keeps the others. */
  lemma OneRowChanges(s: State, id: int, m: Memory, h: seq<int>, batch: set<int>, settings: Settings)
    requires Inv(s, settings) && RowInv(m, h, s.now, settings)
    requires batch <= s.batch && (id in batch ==> Ready(m, s.now, settings))
    ensures Inv(State(s.now, s.rows[id := m], batch, s.history[id := h]), settings)
  {
    var t := State(s.now, s.rows[id := m], batch, s.history[id := h]);
    assert Failures(t, id) == h;
    assert forall i :: i != id ==> Failures(t, i) == Failures(s, i);
  }

  lemma ResetKeepsInv(s: State, org: Option<int>, settings: Settings)
    requires Inv(s, settings)
    ensures Inv(Next(s, Reset(org), settings), settings)
  {
    var t := Next(s, Reset(org), settings);
    forall i | i in t.rows
      ensures RowInv(t.rows[i], Failures(t, i), t.now, settings)
    {
      assert RowInv(s.rows[i], Failures(s, i), s.now, settings);
    }
  }

  lemma TickKeepsInv(s: State, seconds: nat, settings: Settings)
    requires Inv(s, settings)
    ensures Inv(Next(s, Tick(seconds), settings), settings)
  {
    var t := Next(s, Tick(seconds), settings);
    forall i | i in t.rows
      ensures RowInv(t.rows[i], Failures(t, i), t.now, settings)
    {
      assert RowInv(s.rows[i], Failures(s, i), s.now, settings);
    }
  }

  lemma EditKeepsInv(s: State, id: int, m: Memory, settings: Settings)
    requires Inv(s, settings) && id in s.rows
    requires m == AfterEdit(s.rows[id]) || m == s.rows[id].(live := false)
    ensures Inv(s.(rows := s.rows[id := m]), settings)
  {
    var t := s.(rows := s.rows[id := m]);
    assert RowInv(s.rows[id], Failures(s, id), s.now, settings);
    assert forall i :: Failures(t, i) == Failures(s, i);
  }

  lemma StepKeepsInv(s: State, step: Step, settings: Settings)
    requires Inv(s, settings) && Enabled(s, step, settings)
    ensures Inv(Next(s, step, settings), settings)
  {
    match step {
      case Tick(seconds) => TickKeepsInv(s, seconds, settings);
      case Insert(id, org, createdAt, inline) =>
        OneRowChanges(s, id, Inserted(org, createdAt, inline, settings), [], s.batch, settings);
      case List(picked) =>
        forall i | i in picked
          ensures Ready(s.rows[i], s.now, settings)
        {
          assert RowInv(s.rows[i], Failures(s, i), s.now, settings);
        }
      case Fail(id) =>
        FailureKeepsRowInv(s.rows[id], Failures(s, id), s.now, settings);
        OneRowChanges(s, id, AfterFailure(s.rows[id], settings, s.now), Failures(s, id) + [s.now], s.batch - {id}, settings);
      case Succeed(id) => OneRowChanges(s, id, AfterSuccess(s.rows[id], settings.embedderModel), [], s.batch - {id}, settings);
      case Reset(org) => ResetKeepsInv(s, org, settings);
      case Edit(id) => EditKeepsInv(s, id, AfterEdit(s.rows[id]), settings);
      case Delete(id) => EditKeepsInv(s, id, s.rows[id].(live := false), settings);
    }
  }

  lemma {:induction false} RunKeepsInv(s: State, steps: seq<Step>, t: State, settings: Settings)
    requires Inv(s, settings) && IsRun(s, steps, t, settings)
    ensures Inv(t, settings)
    decreases |steps|
  {
    if steps == [] {
    } else {
      StepKeepsInv(s, steps[0], settings);
      RunKeepsInv(Next(s, steps[0], settings), steps[1..], t, settings);
    }
  }

  lemma {:induction false} SpacingAddsUp(h: seq<int>, base: int, n: nat)
    requires Spaced(h, base) && n < |h|
    ensures h[0] + TotalDelay(base, n) <= h[n]
  {
    if n == 0 {
    } else {
      SpacingAddsUp(h, base, n - 1);
    }
  }

  // ----- the guarantees -----

  /** The first wait is the base, each later one twice the last, and none longer than an hour. */
  lemma {:induction false} WaitsDouble(base: nat, i: nat)
    ensures Delay(base, 0) == Min(base, 3600) && Delay(base, i + 1) == Min(2 * Delay(base, i), 3600)
  {
    var x := base * Pow2(i);
    assert base * Pow2(i + 1) == 2 * x by {
      assert Pow2(i + 1) == 2 * Pow2(i);
    }
    assert 0 <= x;
  }

  /** A failure within the budget schedules the next attempt after that wait; the last one parks the memory. */
  lemma FailureSchedules(m: Memory, settings: Settings, now: int)
    ensures var next := AfterFailure(m, settings, now);
            && next.attempts == m.attempts + 1
            && (if m.attempts + 1 < settings.maxAttempts
                then next.nextAttemptAt == Some(now + Delay(settings.base, m.attempts)) && next.failedAt == m.failedAt
                else next.nextAttemptAt.None? && next.failedAt == Some(now))
            && next.org == m.org && next.live == m.live && next.embedded == m.embedded && next.createdAt == m.createdAt
  {}

  /** Between successes and resets a memory has at most `maxAttempts` recorded failures. */
  lemma FailuresAreBounded(steps: seq<Step>, t: State, settings: Settings, id: int)
    requires IsRun(INIT, steps, t, settings) && id in t.rows
    ensures t.rows[id].attempts == |Failures(t, id)| <= Max(1, settings.maxAttempts)
  {
    RunKeepsInv(INIT, steps, t, settings);
    assert RowInv(t.rows[id], Failures(t, id), t.now, settings);
  }

  /** Parking comes exactly at the last allowed failure, and no sooner than all the waits after the first. */
  lemma ParkingIsLate(steps: seq<Step>, t: State, settings: Settings, id: int)
    requires IsRun(INIT, steps, t, settings) && id in t.rows && t.rows[id].failedAt.Some?
    ensures var h := Failures(t, id);
            && |h| == Max(1, settings.maxAttempts)
            && t.rows[id].failedAt == Some(Last(h))
            && h[0] + TotalDelay(settings.base, |h| - 1) <= t.rows[id].failedAt.value
            && forall k :: 0 <= k < |h| - 1 ==> h[k] + Delay(settings.base, k) <= h[k + 1]
    ensures id !in t.batch && !Eligible(t.rows[id], settings.model, t.now)
  {
    RunKeepsInv(INIT, steps, t, settings);
    var h := Failures(t, id);
    assert RowInv(t.rows[id], h, t.now, settings);
    SpacingAddsUp(h, settings.base, |h| - 1);
  }

  ghost predicate Partitioned(t: State, settings: Settings) {
    |PendingRows(t.rows)| + |FailedRows(t.rows)| + |OkRows(t.rows, settings.model)| == |LiveRows(t.rows)|
  }

  /** When the embedder is the configured one, every live memory of every run is counted in exactly one of
      pending, failed and ok. */
  lemma CountsAddUp(steps: seq<Step>, t: State, settings: Settings)
    requires IsRun(INIT, steps, t, settings) && settings.embedderModel == settings.model
    ensures Partitioned(t, settings)
  {
    RunKeepsInv(INIT, steps, t, settings);
    forall i | i in t.rows
      ensures t.rows[i].embedded.Some? ==> t.rows[i].embedded.value == settings.model && t.rows[i].failedAt.None?
    {
      assert RowInv(t.rows[i], Failures(t, i), t.now, settings);
    }
    assert StaleRows(t.rows, settings.model) == {};
    assert FailedRows(t.rows) * OkRows(t.rows, settings.model) == {};
    CountsAddUpIff(t.rows, settings.model);
  }

  /** Under another name, a memory embedded on write is in none of the counts, and is listed to be tried again. */
  lemma OtherNameIsNeverOk(settings: Settings) returns (steps: seq<Step>, t: State)
    requires settings.embedderModel != settings.model
    ensures IsRun(INIT, steps, t, settings) && !Partitioned(t, settings)
    ensures 1 in t.rows && t.rows[1].embedded.Some? && Eligible(t.rows[1], settings.model, t.now)
  {
    var step := Insert(1, 1, 0, true);
    steps, t := [step], Next(INIT, step, settings);
    assert steps[1..] == [];
    assert IsRun(t, [], t, settings);
    assert t.rows == map[1 := Inserted(1, 0, true, settings)];
    assert PendingRows(t.rows) == {} && FailedRows(t.rows) == {} && LiveRows(t.rows) == {1};
    assert OkRows(t.rows, settings.model) == {};
  }

  ghost predicate AlwaysPartitioned(settings: Settings) {
    forall steps, t :: IsRun(INIT, steps, t, settings) ==> Partitioned(t, settings)
  }

  /** The counts add up on every run if and only if the loaded embedder goes by the configured name. */
  lemma CountsAlwaysAddUpIff(settings: Settings)
    ensures AlwaysPartitioned(settings) <==> settings.embedderModel == settings.model
  {
    if settings.embedderModel == settings.model {
      forall steps, t | IsRun(INIT, steps, t, settings)
        ensures Partitioned(t, settings)
      {
        CountsAddUp(steps, t, settings);
      }
    } else {
      var steps, t := OtherNameIsNeverOk(settings);
    }
  }
}
