/**
 * The Idempotency-Key protocol: many requests with one key, interleaved at every Redis operation, over
 * one cell with expiry. Redis is up, and only the middleware writes the cell.
 *
 * The reservation the middleware stores does not say whose it is; the model records the owner beside
 * it, so that it can be asked whether a request ever deletes or overwrites another one's reservation.
 */
module Idempotency {
  import opened Options

  const INFLIGHT_TTL := 60
  const CACHE_TTL := 24 * 3600

  type Client = nat

  datatype Response = Response(status: int, body: string)

  predicate Success(r: Response) {
    200 <= r.status < 300
  }

  datatype Value = Reservation(owner: Client) | Cached(response: Response)

  datatype Cell = Absent | Present(value: Value, expires: int)

  /** How a handler ends. `Abandoned` is what the exception handler does not catch: the request was
      cancelled, or a 2xx response's body stream raised while it was being collected. */
  datatype Outcome = Raised | Returned(response: Response) | Abandoned

  datatype Answer = Replayed(response: Response) | Conflict | Own(response: Response) | Failed

  /** Where a request stands in `dispatch`, between two Redis operations. */
  datatype Pc =
    | Arrived                                  // before the first GET
    | Missed                                   // the first GET found no result
    | Refused                                  // SET NX found the key taken
    | Running(since: int)                      // reserved at `since`; the handler is running
    | Finished(since: int, outcome: Outcome)   // the handler is done; the cell is not updated yet
    | Answered(answer: Answer)

  datatype State = State(now: int, cell: Cell, pcs: map<Client, Pc>)

  const INIT := State(0, Absent, map[])

  predicate Live(s: State) {
    s.cell.Present? && s.now < s.cell.expires
  }

  /** `_try_replay`: the cached response, unless the cell is empty, expired or only reserved. */
  function TryReplay(s: State): Option<Response> {
    if Live(s) && s.cell.value.Cached? then Some(s.cell.value.response) else None
  }

  datatype Step =
    | Arrive(c: Client)
    | FirstGet(c: Client)
    | Reserve(c: Client)
    | SecondGet(c: Client)
    | Handle(c: Client, outcome: Outcome)
    | Settle(c: Client)
    | Tick(seconds: nat)

  predicate Enabled(s: State, step: Step) {
    match step
    case Arrive(c) => c !in s.pcs
    case FirstGet(c) => c in s.pcs && s.pcs[c].Arrived?
    case Reserve(c) => c in s.pcs && s.pcs[c].Missed?
    case SecondGet(c) => c in s.pcs && s.pcs[c].Refused?
    case Handle(c, _) => c in s.pcs && s.pcs[c].Running?
    case Settle(c) => c in s.pcs && s.pcs[c].Finished?
    case Tick(_) => true
  }

  function At(s: State, c: Client, pc: Pc): State {
    s.(pcs := s.pcs[c := pc])
  }

  function Next(s: State, step: Step): State
    requires Enabled(s, step)
  {
    match step
    case Arrive(c) => At(s, c, Arrived)
    case FirstGet(c) =>
      var replay := TryReplay(s);
      At(s, c, if replay.Some? then Answered(Replayed(replay.value)) else Missed)
    case Reserve(c) =>
      if Live(s) then At(s, c, Refused)
      else At(s.(cell := Present(Reservation(c), s.now + INFLIGHT_TTL)), c, Running(s.now))
    case SecondGet(c) =>
      var replay := TryReplay(s);
      At(s, c, Answered(if replay.Some? then Replayed(replay.value) else Conflict))
    case Handle(c, outcome) => At(s, c, Finished(s.pcs[c].since, outcome))
    case Settle(c) =>
      (match s.pcs[c].outcome
       case Raised => At(s.(cell := Absent), c, Answered(Failed))
       case Returned(r) =>
         if Success(r) then At(s.(cell := Present(Cached(r), s.now + CACHE_TTL)), c, Answered(Own(r)))
         else At(s.(cell := Absent), c, Answered(Own(r)))
       case Abandoned => At(s, c, Answered(Failed)))
    case Tick(seconds) => s.(now := s.now + seconds)
  }

  // ----- runs -----

  predicate Holds(pc: Pc) {
    pc.Running? || pc.Finished?
  }

  /** Every handler still holding its reservation took it less than `bound` seconds ago. */
  ghost predicate Prompt(s: State, bound: int) {
    forall c :: c in s.pcs && Holds(s.pcs[c]) ==> s.now < s.pcs[c].since + bound
  }

  ghost predicate IsRun(s: State, steps: seq<Step>, t: State, bound: int)
    decreases |steps|
  {
    if steps == [] then s == t
    else Enabled(s, steps[0]) && Prompt(Next(s, steps[0]), bound) && IsRun(Next(s, steps[0]), steps[1..], t, bound)
  }

  ghost predicate Exclusive(s: State) {
    forall c, d :: c in s.pcs && d in s.pcs && Holds(s.pcs[c]) && Holds(s.pcs[d]) ==> c == d
  }

  /** While a handler holds it, the cell is reserved in that handler's name and for its time. An abandoned
      reservation stays until it expires. */
  ghost predicate Inv(s: State) {
    forall c :: c in s.pcs && Holds(s.pcs[c]) ==>
      && s.pcs[c].since <= s.now < s.pcs[c].since + INFLIGHT_TTL
      && s.cell == Present(Reservation(c), s.pcs[c].since + INFLIGHT_TTL)
  }

  lemma StepKeepsInv(s: State, step: Step, bound: int)
    requires Inv(s) && Enabled(s, step) && Prompt(Next(s, step), bound) && bound <= INFLIGHT_TTL
    ensures Inv(Next(s, step))
  {
    var t := Next(s, step);
    forall c | c in t.pcs && Holds(t.pcs[c])
      ensures t.now < t.pcs[c].since + INFLIGHT_TTL
    {}
  }

  lemma {:induction false} RunKeepsInv(s: State, steps: seq<Step>, t: State, bound: int)
    requires Inv(s) && IsRun(s, steps, t, bound) && bound <= INFLIGHT_TTL
    ensures Inv(t)
    decreases |steps|
  {
    if steps == [] {
    } else {
      StepKeepsInv(s, steps[0], bound);
      RunKeepsInv(Next(s, steps[0]), steps[1..], t, bound);
    }
  }

  // ----- safety over every interleaving -----

  /** A request that deletes or overwrites the cell finds its own live reservation there. */
  lemma SettleTouchesOwnReservation(steps: seq<Step>, t: State, c: Client)
    requires IsRun(INIT, steps, t, INFLIGHT_TTL) && Enabled(t, Settle(c))
    ensures Live(t) && t.cell.value == Reservation(c)
  {
    RunKeepsInv(INIT, steps, t, INFLIGHT_TTL);
  }

  /** Waiting to be answered when the result was stored, or not yet arrived. */
  predicate Unanswered(s: State, c: Client) {
    c in s.pcs ==> !s.pcs[c].Answered?
  }

  lemma {:induction false} CachedStays(s: State, steps: seq<Step>, t: State, r: Response, expires: int)
    requires Inv(s) && IsRun(s, steps, t, INFLIGHT_TTL)
    requires s.cell == Present(Cached(r), expires) && t.now < expires
    ensures t.cell == s.cell
    ensures forall c :: c in t.pcs ==> !Holds(t.pcs[c])
    ensures forall c :: c in t.pcs && t.pcs[c].Answered? && Unanswered(s, c) ==> t.pcs[c].answer == Replayed(r)
    ensures forall c :: c in s.pcs && s.pcs[c].Answered? ==> c in t.pcs && t.pcs[c] == s.pcs[c]
    decreases |steps|
  {
    if steps == [] {
    } else {
      var next := Next(s, steps[0]);
      StepKeepsInv(s, steps[0], INFLIGHT_TTL);
      TimeMovesForward(next, steps[1..], t, INFLIGHT_TTL);
      assert next.cell == s.cell;
      CachedStays(next, steps[1..], t, r, expires);
      forall c | c in t.pcs && t.pcs[c].Answered? && Unanswered(s, c)
        ensures t.pcs[c].answer == Replayed(r)
      {
        if !Unanswered(next, c) {
          assert next.pcs[c] == Answered(Replayed(r));
        }
      }
    }
  }

  lemma {:induction false} TimeMovesForward(s: State, steps: seq<Step>, t: State, bound: int)
    requires IsRun(s, steps, t, bound)
    ensures s.now <= t.now
    decreases |steps|
  {
    if steps == [] {
    } else {
      TimeMovesForward(Next(s, steps[0]), steps[1..], t, bound);
    }
  }

  /**
   * After a handler's 2xx is stored, for 24 hours no handler runs, and every request answered meanwhile is
   * answered with exactly that response.
   */
  lemma StoredResponseIsReplayed(
    before: seq<Step>, s: State, c: Client, r: Response, after: seq<Step>, t: State)
    requires IsRun(INIT, before, s, INFLIGHT_TTL)
    requires Enabled(s, Settle(c)) && s.pcs[c].outcome == Returned(r) && 200 <= r.status <= 299
    requires IsRun(Next(s, Settle(c)), after, t, INFLIGHT_TTL) && t.now < s.now + 86400
    ensures forall d :: d in t.pcs ==> !Holds(t.pcs[d])
    ensures c in t.pcs && t.pcs[c] == Answered(Own(r))
    ensures forall d :: d in t.pcs && d != c && t.pcs[d].Answered? && Unanswered(s, d)
                        ==> t.pcs[d].answer == Replayed(r)
    ensures TryReplay(t) == Some(r)
  {
    RunKeepsInv(INIT, before, s, INFLIGHT_TTL);
    var stored := Next(s, Settle(c));
    assert Inv(stored) by {
      forall d | d in s.pcs && Holds(s.pcs[d])
        ensures d == c
      {}
    }
    CachedStays(stored, after, t, r, s.now + CACHE_TTL);
    forall d | d in t.pcs && d != c && t.pcs[d].Answered? && Unanswered(s, d)
      ensures t.pcs[d].answer == Replayed(r)
    {
      assert Unanswered(stored, d);
    }
  }

  // ----- what is cached, and what is not -----

  /** A 2xx is kept for 24 hours. After any other status, and after an exception, the key is free at once. */
  lemma SettleKeepsOnlySuccess(s: State, c: Client)
    requires Enabled(s, Settle(c))
    ensures var t := Next(s, Settle(c));
            match s.pcs[c].outcome
            case Raised => t.cell == Absent && t.pcs[c] == Answered(Failed)
            case Abandoned => t.cell == s.cell && t.pcs[c] == Answered(Failed)
            case Returned(r) =>
              && t.pcs[c] == Answered(Own(r))
              && t.cell == if 200 <= r.status <= 299 then Present(Cached(r), s.now + 86400) else Absent
  {}

  /** On a key that is free or has expired, a request that asks first and then reserves runs its handler, with
      60 seconds to settle. */
  lemma FreeKeyRuns(s: State, d: Client, seconds: nat)
    requires Enabled(s, FirstGet(d)) && (s.cell.Present? ==> s.cell.expires <= s.now)
    ensures var missed := Next(s, FirstGet(d));
            var later := Next(missed, Tick(seconds));
            && missed.pcs[d] == Missed && Enabled(later, Reserve(d))
            && Next(later, Reserve(d)).pcs[d] == Running(s.now + seconds)
            && Next(later, Reserve(d)).cell == Present(Reservation(d), s.now + seconds + 60)
  {}

  /** On a key that is taken, a request gets the cached response, or a conflict while there is none yet. */
  lemma TakenKeyAnswers(s: State, d: Client)
    requires s.cell.Present? && s.now < s.cell.expires && d in s.pcs
    ensures s.pcs[d] == Arrived ==>
              Next(s, FirstGet(d)).pcs[d] ==
              if s.cell.value.Cached? then Answered(Replayed(s.cell.value.response)) else Missed
    ensures s.pcs[d] == Missed ==> Next(s, Reserve(d)).pcs[d] == Refused && Next(s, Reserve(d)).cell == s.cell
    ensures s.pcs[d] == Refused ==>
              Next(s, SecondGet(d)).pcs[d] ==
              Answered(if s.cell.value.Cached? then Replayed(s.cell.value.response) else Conflict)
  {}

  /** So a retry after a failure runs the handler again. */
  lemma RetryAfterFailureRuns(s: State, c: Client, d: Client, seconds: nat)
    requires Enabled(s, Settle(c)) && d !in s.pcs
    requires s.pcs[c].outcome == Raised
             || (s.pcs[c].outcome.Returned? && !(200 <= s.pcs[c].outcome.response.status <= 299))
    ensures var t := Next(Next(s, Settle(c)), Arrive(d));
            Next(Next(Next(t, FirstGet(d)), Tick(seconds)), Reserve(d)).pcs[d] == Running(s.now + seconds)
  {
    var t := Next(Next(s, Settle(c)), Arrive(d));
    FreeKeyRuns(t, d, seconds);
  }

  /** Some handler of these steps returned it. */
  ghost predicate HandledIn(past: seq<Step>, r: Response) {
    exists i :: 0 <= i < |past| && past[i].Handle? && past[i].outcome == Returned(r)
  }

  /** A 2xx that some handler returned. */
  ghost predicate Genuine(past: seq<Step>, r: Response) {
    200 <= r.status <= 299 && HandledIn(past, r)
  }

  ghost predicate Origins(past: seq<Step>, s: State) {
    && (s.cell.Present? && s.cell.value.Cached? ==> Genuine(past, s.cell.value.response))
    && (forall c :: c in s.pcs && s.pcs[c].Answered? && s.pcs[c].answer.Replayed? ==>
          Genuine(past, s.pcs[c].answer.response))
    && (forall c :: c in s.pcs && s.pcs[c].Finished? && s.pcs[c].outcome.Returned? ==>
          HandledIn(past, s.pcs[c].outcome.response))
  }

  lemma HandledStays(past: seq<Step>, step: Step, r: Response)
    requires HandledIn(past, r) || (step.Handle? && step.outcome == Returned(r))
    ensures HandledIn(past + [step], r)
  {
    if HandledIn(past, r) {
      var i :| 0 <= i < |past| && past[i].Handle? && past[i].outcome == Returned(r);
      assert (past + [step])[i] == past[i];
    } else {
      assert (past + [step])[|past|] == step;
    }
  }

  lemma {:induction false} StepKeepsOrigins(past: seq<Step>, s: State, step: Step)
    requires Origins(past, s) && Enabled(s, step)
    ensures Origins(past + [step], Next(s, step))
  {
    forall r | HandledIn(past, r) || (step.Handle? && step.outcome == Returned(r))
      ensures HandledIn(past + [step], r)
    {
      HandledStays(past, step, r);
    }
  }

  lemma {:induction false} RunKeepsOrigins(past: seq<Step>, s: State, steps: seq<Step>, t: State, bound: int)
    requires Origins(past, s) && IsRun(s, steps, t, bound)
    ensures Origins(past + steps, t)
    decreases |steps|
  {
    if steps == [] {
      assert past + steps == past;
    } else {
      StepKeepsOrigins(past, s, steps[0]);
      RunKeepsOrigins(past + [steps[0]], Next(s, steps[0]), steps[1..], t, bound);
      assert past + [steps[0]] + steps[1..] == past + steps;
    }
  }

  /** In every run, prompt or not: what is cached, and what is replayed, is a 2xx that a handler of the run
      returned. */
  lemma ReplaysAreGenuine(steps: seq<Step>, t: State, bound: int)
    requires IsRun(INIT, steps, t, bound)
    ensures t.cell.Present? && t.cell.value.Cached? ==>
              200 <= t.cell.value.response.status <= 299 && HandledIn(steps, t.cell.value.response)
    ensures forall c :: c in t.pcs && t.pcs[c].Answered? && t.pcs[c].answer.Replayed? ==>
              200 <= t.pcs[c].answer.response.status <= 299 && HandledIn(steps, t.pcs[c].answer.response)
  {
    RunKeepsOrigins([], INIT, steps, t, bound);
    assert [] + steps == steps;
  }

  // ----- the reservation must outlive the handler -----

  /** Two requests: the second reserves the key once the first one's reservation has lapsed. */
  const SLOW_RUN: seq<Step> :=
    [Arrive(1), FirstGet(1), Reserve(1), Tick(60), Arrive(2), FirstGet(2), Reserve(2)]

  const BOTH_RUNNING := State(60, Present(Reservation(2), 120), map[1 := Running(0), 2 := Running(60)])

  lemma SlowRunHappens(bound: int)
    requires INFLIGHT_TTL < bound
    ensures IsRun(INIT, SLOW_RUN, BOTH_RUNNING, bound)
  {
    var s1 := Next(INIT, Arrive(1));
    var s2 := Next(s1, FirstGet(1));
    var s3 := Next(s2, Reserve(1));
    var s4 := Next(s3, Tick(60));
    var s5 := Next(s4, Arrive(2));
    var s6 := Next(s5, FirstGet(2));
    assert Next(s6, Reserve(2)) == BOTH_RUNNING;
    assert IsRun(BOTH_RUNNING, [], BOTH_RUNNING, bound);
    assert IsRun(s6, SLOW_RUN[6..], BOTH_RUNNING, bound);
    assert SLOW_RUN[5..][1..] == SLOW_RUN[6..] && IsRun(s5, SLOW_RUN[5..], BOTH_RUNNING, bound);
    assert SLOW_RUN[4..][1..] == SLOW_RUN[5..] && IsRun(s4, SLOW_RUN[4..], BOTH_RUNNING, bound);
    assert SLOW_RUN[3..][1..] == SLOW_RUN[4..] && IsRun(s3, SLOW_RUN[3..], BOTH_RUNNING, bound);
    assert SLOW_RUN[2..][1..] == SLOW_RUN[3..] && IsRun(s2, SLOW_RUN[2..], BOTH_RUNNING, bound);
    assert SLOW_RUN[1..][1..] == SLOW_RUN[2..] && IsRun(s1, SLOW_RUN[1..], BOTH_RUNNING, bound);
  }

  /** Every request about to delete or overwrite the cell finds its own live reservation there. */
  ghost predicate TouchesOwn(s: State) {
    forall c :: c in s.pcs && Enabled(s, Settle(c)) ==> Live(s) && s.cell.value == Reservation(c)
  }

  const SLOW_FAILURE := At(BOTH_RUNNING, 1, Finished(0, Raised))

  lemma {:induction false} RunSnoc(s: State, steps: seq<Step>, mid: State, step: Step, bound: int)
    requires IsRun(s, steps, mid, bound) && Enabled(mid, step) && Prompt(Next(mid, step), bound)
    ensures IsRun(s, steps + [step], Next(mid, step), bound)
    decreases |steps|
  {
    if steps == [] {
      assert ([] + [step])[1..] == [];
    } else {
      assert (steps + [step])[1..] == steps[1..] + [step];
      RunSnoc(Next(s, steps[0]), steps[1..], mid, step, bound);
    }
  }

  /** A handler slower than its reservation that then fails is about to delete another request's one. */
  lemma SlowFailureHappens(bound: int)
    requires INFLIGHT_TTL < bound
    ensures IsRun(INIT, SLOW_RUN + [Handle(1, Raised)], SLOW_FAILURE, bound) && !TouchesOwn(SLOW_FAILURE)
  {
    SlowRunHappens(bound);
    assert Next(BOTH_RUNNING, Handle(1, Raised)) == SLOW_FAILURE;
    RunSnoc(INIT, SLOW_RUN, BOTH_RUNNING, Handle(1, Raised), bound);
    assert Enabled(SLOW_FAILURE, Settle(1));
  }

  ghost predicate AlwaysTouchesOwn(bound: int) {
    forall steps, t :: IsRun(INIT, steps, t, bound) ==> TouchesOwn(t)
  }

  /** Requests touch only their own reservation in every run exactly when handlers settle within its 60 seconds. */
  lemma OwnershipIff(bound: int)
    ensures AlwaysTouchesOwn(bound) <==> bound <= 60
  {
    if bound <= INFLIGHT_TTL {
      forall steps, t | IsRun(INIT, steps, t, bound)
        ensures TouchesOwn(t)
      {
        RunKeepsInv(INIT, steps, t, bound);
      }
    } else {
      SlowFailureHappens(bound);
    }
  }

  /** Handlers exclude each other in every run exactly when they settle within the 60-second reservation. */
  lemma ExclusionIff(bound: int)
    ensures (forall steps, t :: IsRun(INIT, steps, t, bound) ==> Exclusive(t)) <==> bound <= 60
  {
    if bound <= INFLIGHT_TTL {
      forall steps, t | IsRun(INIT, steps, t, bound)
        ensures Exclusive(t)
      {
        RunKeepsInv(INIT, steps, t, bound);
      }
    } else {
      SlowRunHappens(bound);
      assert exists steps, t :: IsRun(INIT, steps, t, bound) && t == BOTH_RUNNING;
      assert !Exclusive(BOTH_RUNNING) by {
        assert Holds(BOTH_RUNNING.pcs[1]) && Holds(BOTH_RUNNING.pcs[2]);
      }
    }
  }
}
