/**
 * The web client's authenticated calls: any number of concurrent `api` calls in one tab sharing the
 * token store and the module variable `refreshing`, with logins and logouts at any time. Each step is
 * what runs between two awaits. The server never hands out a refresh token it has handed out before.
 */
module TokenRefresh {
  import opened Options

  type Token = nat
  type CallId = nat
  type FlightId = nat

  /** One refresh request: its promise chain up to and including `finally`. */
  datatype Flight =
    | Sent(token: Token)                      // the request is on the wire
    | Parsing(token: Token, issued: Token)    // an ok response came; its body is being read
    | Settled(refreshed: bool)                // the chain is done; `finally` has not run
    | Resolved(refreshed: bool)               // `finally` ran and the waiters may resume

  datatype Call = Pending | Waiting(flight: FlightId) | Retried | Done

  datatype State = State(
    refresh: Option<Token>,             // localStorage's refresh token
    refreshing: Option<FlightId>,       // the module variable
    flights: map<FlightId, Flight>,
    calls: map<CallId, Call>,
    requests: map<CallId, nat>,         // how often each call sent its own request
    sent: seq<Token>,                   // every refresh token sent to the refresh endpoint, in order
    retired: set<Token>,                // tokens whose replacement pair was stored
    seen: set<Token>)                   // every refresh token the server has issued

  datatype Step =
    | Start(c: CallId)
    | Respond(c: CallId, unauthorized: bool)
    | Resume(c: CallId)
    | RespondAgain(c: CallId)
    | Reply(f: FlightId, issued: Option<Token>)
    | Parse(f: FlightId, valid: bool)
    | Finally(f: FlightId)
    | Login(token: Token)
    | Logout

  predicate Enabled(s: State, step: Step) {
    match step
    case Start(c) => c !in s.calls
    case Respond(c, _) => c in s.calls && s.calls[c].Pending?
    case Resume(c) =>
      c in s.calls && s.calls[c].Waiting? && s.calls[c].flight in s.flights && s.flights[s.calls[c].flight].Resolved?
    case RespondAgain(c) => c in s.calls && s.calls[c].Retried?
    case Reply(f, issued) => f in s.flights && s.flights[f].Sent? && (issued.Some? ==> issued.value !in s.seen)
    case Parse(f, _) => f in s.flights && s.flights[f].Parsing?
    case Finally(f) => f in s.flights && s.flights[f].Settled?
    case Login(token) => token !in s.seen
    case Logout => true
  }

  function At(s: State, c: CallId, call: Call): State {
    s.(calls := s.calls[c := call])
  }

  function Counted(s: State, c: CallId): State {
    s.(requests := s.requests[c := 1 + if c in s.requests then s.requests[c] else 0])
  }

  /** The synchronous part of `tryRefresh`, run by call `c` on a 401. */
  function TryRefresh(s: State, c: CallId): State {
    if s.refresh.None? then
      At(s, c, Done)
    else if s.refreshing.Some? then
      At(s, c, Waiting(s.refreshing.value))
    else
      var f := |s.sent|;
      At(s.(refreshing := Some(f), flights := s.flights[f := Sent(s.refresh.value)],
            sent := s.sent + [s.refresh.value]), c, Waiting(f))
  }

  function Next(s: State, step: Step): State
    requires Enabled(s, step)
  {
    match step
    case Start(c) => At(Counted(s, c), c, Pending)
    case Respond(c, unauthorized) => if unauthorized then TryRefresh(s, c) else At(s, c, Done)
    case Resume(c) =>
      if s.flights[s.calls[c].flight].refreshed then At(Counted(s, c), c, Retried) else At(s, c, Done)
    case RespondAgain(c) => At(s, c, Done)
    case Reply(f, issued) =>
      (match issued
       case None => s.(flights := s.flights[f := Settled(false)])
       case Some(token) =>
         s.(flights := s.flights[f := Parsing(s.flights[f].token, token)], seen := s.seen + {token}))
    case Parse(f, valid) =>
      if valid then
        s.(flights := s.flights[f := Settled(true)], refresh := Some(s.flights[f].issued),
           retired := s.retired + {s.flights[f].token})
      else
        s.(flights := s.flights[f := Settled(false)])
    case Finally(f) => s.(flights := s.flights[f := Resolved(s.flights[f].refreshed)], refreshing := None)
    case Login(token) => s.(refresh := Some(token), seen := s.seen + {token})
    case Logout => s.(refresh := None)
  }

  predicate Unfinished(f: Flight) {
    !f.Resolved?
  }

  ghost predicate IsRun(s: State, steps: seq<Step>, t: State)
    decreases |steps|
  {
    if steps == [] then s == t else Enabled(s, steps[0]) && IsRun(Next(s, steps[0]), steps[1..], t)
  }

  /** A fresh tab, with or without a stored session. */
  ghost predicate IsInit(s: State) {
    && s.refreshing.None? && s.flights == map[] && s.calls == map[] && s.requests == map[]
    && s.sent == [] && s.retired == {} && (s.refresh.Some? ==> s.refresh.value in s.seen)
  }

  // ----- the invariant -----

  /** `refreshing` names the one unfinished flight, if any. */
  ghost predicate SingleFlight(s: State) {
    && (forall f :: f in s.flights && Unfinished(s.flights[f]) ==> s.refreshing == Some(f))
    && (s.refreshing.Some? ==> s.refreshing.value in s.flights && Unfinished(s.flights[s.refreshing.value]))
    && (forall f :: f in s.flights ==> f < |s.sent|)
  }

  /** The stored token, and any token about to be stored, has not been replaced yet. */
  ghost predicate Rotating(s: State) {
    && (forall t :: t in s.sent ==> t in s.seen)
    && s.retired <= s.seen
    && (s.refresh.Some? ==> s.refresh.value in s.seen && s.refresh.value !in s.retired)
    && (forall f :: f in s.flights && s.flights[f].Sent? ==>
          s.flights[f].token in s.seen && s.flights[f].token !in s.retired)
    && (forall f :: f in s.flights && s.flights[f].Parsing? ==>
          && s.flights[f].token in s.seen && s.flights[f].token !in s.retired
          && s.flights[f].issued in s.seen && s.flights[f].issued !in s.retired
          && s.flights[f].issued !in s.sent && s.flights[f].issued != s.flights[f].token
          && s.refresh != Some(s.flights[f].issued))
  }

  ghost predicate Counting(s: State) {
    && s.requests.Keys == s.calls.Keys
    && forall c :: c in s.calls ==>
         s.requests[c] <= 2 && (s.calls[c].Pending? || s.calls[c].Waiting? ==> s.requests[c] == 1)
  }

  ghost predicate Inv(s: State) {
    SingleFlight(s) && Rotating(s) && Counting(s)
  }

  lemma StepKeepsSingleFlight(s: State, step: Step)
    requires SingleFlight(s) && Enabled(s, step)
    ensures SingleFlight(Next(s, step))
  {}

  lemma FlightStepKeepsRotating(s: State, step: Step)
    requires SingleFlight(s) && Rotating(s) && Enabled(s, step) && (step.Reply? || step.Parse? || step.Finally?)
    ensures Rotating(Next(s, step))
  {}

  lemma CallStepKeepsRotating(s: State, step: Step)
    requires SingleFlight(s) && Rotating(s) && Enabled(s, step) && !(step.Reply? || step.Parse? || step.Finally?)
    ensures Rotating(Next(s, step))
  {}

  lemma StepKeepsCounting(s: State, step: Step)
    requires Counting(s) && Enabled(s, step)
    ensures Counting(Next(s, step))
  {}

  lemma StepKeepsInv(s: State, step: Step)
    requires Inv(s) && Enabled(s, step)
    ensures Inv(Next(s, step))
  {
    StepKeepsSingleFlight(s, step);
    StepKeepsCounting(s, step);
    if step.Reply? || step.Parse? || step.Finally? {
      FlightStepKeepsRotating(s, step);
    } else {
      CallStepKeepsRotating(s, step);
    }
  }

  lemma {:induction false} RunKeepsInv(s: State, steps: seq<Step>, t: State)
    requires Inv(s) && IsRun(s, steps, t)
    ensures Inv(t)
    decreases |steps|
  {
    if steps == [] {
    } else {
      StepKeepsInv(s, steps[0]);
      RunKeepsInv(Next(s, steps[0]), steps[1..], t);
    }
  }

  // ----- every interleaving -----

  /** At most one refresh is in flight, and every call sends its request at most twice. */
  lemma OneRefreshTwoRequests(s: State, steps: seq<Step>, t: State)
    requires IsInit(s) && IsRun(s, steps, t)
    ensures forall f, g :: f in t.flights && g in t.flights && Unfinished(t.flights[f]) && Unfinished(t.flights[g]) ==> f == g
    ensures forall c :: c in t.calls ==> c in t.requests && t.requests[c] <= 2
  {
    RunKeepsInv(s, steps, t);
  }

  lemma {:induction false} RetiredIsNotResent(s: State, steps: seq<Step>, t: State, token: Token)
    requires Inv(s) && IsRun(s, steps, t) && token in s.retired
    ensures s.sent <= t.sent && forall i :: |s.sent| <= i < |t.sent| ==> t.sent[i] != token
    decreases |steps|
  {
    if steps == [] {
    } else {
      var next := Next(s, steps[0]);
      StepKeepsInv(s, steps[0]);
      RetiredIsNotResent(next, steps[1..], t, token);
    }
  }

  /** A refresh token whose replacement was stored is never sent again. */
  lemma RefreshTokensAreSingleUse(init: State, before: seq<Step>, s: State, after: seq<Step>, t: State, token: Token)
    requires IsInit(init) && IsRun(init, before, s) && IsRun(s, after, t) && token in s.retired
    ensures s.sent <= t.sent && forall i :: |s.sent| <= i < |t.sent| ==> t.sent[i] != token
  {
    RunKeepsInv(init, before, s);
    RetiredIsNotResent(s, after, t, token);
  }

  // ----- who retries -----

  /** The refresh stored a new pair. */
  ghost predicate StoredIn(past: seq<Step>, f: FlightId) {
    Parse(f, true) in past
  }

  /** A flight that is done knows whether it stored a pair; one that is not has stored none. */
  ghost predicate Reported(past: seq<Step>, s: State) {
    && (forall f :: f in s.flights ==>
          && f < |s.sent|
          && (StoredIn(past, f) <==> (s.flights[f].Settled? || s.flights[f].Resolved?) && s.flights[f].refreshed))
    && (forall f :: StoredIn(past, f) ==> f in s.flights)
  }

  lemma {:induction false} StepKeepsReported(past: seq<Step>, s: State, step: Step)
    requires Reported(past, s) && Enabled(s, step)
    ensures Reported(past + [step], Next(s, step))
  {
    forall f
      ensures StoredIn(past + [step], f) <==> StoredIn(past, f) || step == Parse(f, true)
    {}
  }

  lemma {:induction false} RunKeepsReported(past: seq<Step>, s: State, steps: seq<Step>, t: State)
    requires Reported(past, s) && IsRun(s, steps, t)
    ensures Reported(past + steps, t)
    decreases |steps|
  {
    if steps == [] {
      assert past + steps == past;
    } else {
      StepKeepsReported(past, s, steps[0]);
      RunKeepsReported(past + [steps[0]], Next(s, steps[0]), steps[1..], t);
      assert past + [steps[0]] + steps[1..] == past + steps;
    }
  }

  /** A call that waited for a refresh sends its request a second time if that refresh stored a new pair, and
      gives up after the first if it did not. */
  lemma RetriesIffStored(init: State, steps: seq<Step>, t: State, c: CallId)
    requires IsInit(init) && IsRun(init, steps, t) && Enabled(t, Resume(c))
    ensures var f, next := t.calls[c].flight, Next(t, Resume(c));
            && c in next.requests && c in next.calls
            && (if Parse(f, true) in steps then next.requests[c] == 2 && next.calls[c] == Retried
                else next.requests[c] == 1 && next.calls[c] == Done)
  {
    RunKeepsInv(init, steps, t);
    RunKeepsReported([], init, steps, t);
    assert [] + steps == steps;
    assert StoredIn(steps, t.calls[c].flight) <==> Parse(t.calls[c].flight, true) in steps;
  }

  /** On a 401 a call with a stored refresh token waits for the refresh that is under way, or sends the stored token
      itself and waits for that. */
  lemma RefreshSendsStored(s: State, c: CallId, token: Token)
    requires Enabled(s, Respond(c, true)) && s.refresh == Some(token)
    ensures var next := Next(s, Respond(c, true));
            && c in next.calls && next.refresh == s.refresh && next.requests == s.requests
            && (if s.refreshing.Some? then next.sent == s.sent && next.calls[c] == Waiting(s.refreshing.value)
                else
                  && next.sent == s.sent + [token] && next.calls[c] == Waiting(|s.sent|)
                  && next.refreshing == Some(|s.sent|) && next.flights == s.flights[|s.sent| := Sent(token)])
  {}

  /** An answer other than 401, or a 401 without a stored refresh token, ends the call after one request. */
  lemma NoRefreshNoRetry(init: State, steps: seq<Step>, t: State, c: CallId, unauthorized: bool)
    requires IsInit(init) && IsRun(init, steps, t) && Enabled(t, Respond(c, unauthorized))
    requires !unauthorized || t.refresh.None?
    ensures var next := Next(t, Respond(c, unauthorized));
            && c in next.requests && c in next.calls && next.requests[c] == 1 && next.calls[c] == Done
            && next.sent == t.sent && next.flights == t.flights
  {
    RunKeepsInv(init, steps, t);
  }

  // ----- logging out -----

  predicate WithoutLogin(steps: seq<Step>) {
    forall i :: 0 <= i < |steps| ==> !steps[i].Login?
  }

  /** No refresh could still store a pair. */
  ghost predicate Quiet(s: State) {
    forall f :: f in s.flights ==> s.flights[f].Settled? || s.flights[f].Resolved?
  }

  lemma {:induction false} QuietStaysLoggedOut(s: State, steps: seq<Step>, t: State)
    requires s.refresh.None? && Quiet(s) && IsRun(s, steps, t) && WithoutLogin(steps)
    ensures t.refresh.None?
    decreases |steps|
  {
    if steps == [] {
    } else {
      assert WithoutLogin(steps[1..]);
      assert !steps[0].Login?;
      QuietStaysLoggedOut(Next(s, steps[0]), steps[1..], t);
    }
  }

  lemma LateReplyLogsBackIn(s: State, f: FlightId, unused: Token) returns (steps: seq<Step>, t: State)
    requires f in s.flights && (s.flights[f].Sent? || s.flights[f].Parsing?) && unused !in s.seen
    ensures IsRun(s, steps, t) && WithoutLogin(steps) && t.refresh.Some?
  {
    if s.flights[f].Sent? {
      var mid := Next(s, Reply(f, Some(unused)));
      t := Next(mid, Parse(f, true));
      steps := [Reply(f, Some(unused)), Parse(f, true)];
      assert steps[1..] == [Parse(f, true)] && steps[1..][1..] == [];
      assert IsRun(mid, steps[1..], t);
    } else {
      t := Next(s, Parse(f, true));
      steps := [Parse(f, true)];
      assert steps[1..] == [];
    }
  }

  lemma {:induction false} FreshToken(seen: set<Token>) returns (t: Token)
    ensures forall x :: x in seen ==> x < t
  {
    if seen == {} {
      t := 0;
    } else {
      var x :| x in seen;
      var u := FreshToken(seen - {x});
      t := u + x + 1;
      assert forall y :: y in seen ==> y == x || y in seen - {x};
    }
  }

  /**
   * A logout lasts until the next login exactly when no refresh was still to be answered or read: a
   * reply that arrives after the tokens were cleared stores a new pair all the same.
   */
  lemma LogoutLastsIff(s: State)
    ensures var out := Next(s, Logout);
            (forall steps, t :: IsRun(out, steps, t) && WithoutLogin(steps) ==> t.refresh.None?) <==> Quiet(s)
  {
    var out := Next(s, Logout);
    if Quiet(s) {
      forall steps, t | IsRun(out, steps, t) && WithoutLogin(steps)
        ensures t.refresh.None?
      {
        QuietStaysLoggedOut(out, steps, t);
      }
    } else {
      var f :| f in s.flights && !(s.flights[f].Settled? || s.flights[f].Resolved?);
      var token := FreshToken(s.seen);
      var steps, t := LateReplyLogsBackIn(out, f, token);
    }
  }

  /** One call gets a 401, the user logs out, and then the refresh is answered. */
  function LateReply(issued: Token): seq<Step> {
    [Start(0), Respond(0, true), Logout, Reply(0, Some(issued)), Parse(0, true)]
  }

  lemma RunCons(s: State, step: Step, rest: seq<Step>, t: State)
    requires Enabled(s, step) && IsRun(Next(s, step), rest, t)
    ensures IsRun(s, [step] + rest, t)
  {
    assert ([step] + rest)[1..] == rest;
  }

  /** From any fresh tab with a session, this run ends with a stored session after a logout and no login. */
  lemma LogoutIsUndone(s: State, issued: Token) returns (t: State)
    requires IsInit(s) && s.refresh.Some? && issued !in s.seen
    ensures IsRun(s, LateReply(issued), t) && WithoutLogin(LateReply(issued)) && t.refresh == Some(issued)
  {
    var s1 := Next(s, Start(0));
    var s2 := Next(s1, Respond(0, true));
    assert s2.flights == map[0 := Sent(s.refresh.value)] && s2.seen == s.seen;
    var s3 := Next(s2, Logout);
    t := AnsweredLate(s3, issued);
    var late := [Reply(0, Some(issued)), Parse(0, true)];
    RunCons(s2, Logout, late, t);
    RunCons(s1, Respond(0, true), [Logout] + late, t);
    RunCons(s, Start(0), [Respond(0, true)] + ([Logout] + late), t);
    assert [Start(0)] + ([Respond(0, true)] + ([Logout] + late)) == LateReply(issued);
  }

  lemma AnsweredLate(s: State, issued: Token) returns (t: State)
    requires 0 in s.flights && s.flights[0].Sent? && issued !in s.seen
    ensures IsRun(s, [Reply(0, Some(issued)), Parse(0, true)], t) && t.refresh == Some(issued)
  {
    var mid := Next(s, Reply(0, Some(issued)));
    t := Next(mid, Parse(0, true));
    RunCons(mid, Parse(0, true), [], t);
    RunCons(s, Reply(0, Some(issued)), [Parse(0, true)], t);
    assert [Reply(0, Some(issued))] + [Parse(0, true)] == [Reply(0, Some(issued)), Parse(0, true)];
    assert [Parse(0, true)] + [] == [Parse(0, true)];
  }
}
