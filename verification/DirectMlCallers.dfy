/** Which rules for the client's own steps make the DirectML hand-off right, whatever the worker does. */
module DirectMlCallers {
  import opened Statuses
  import opened DirectMlHandoff
  import opened DirectMlRuns
  import opened DirectMlTraces

  /** The client's part of a run. */
  function ClientSteps(steps: seq<Step>): (c: seq<Step>) {
    if steps == [] then []
    else
      var last := steps[|steps| - 1];
      ClientSteps(steps[..|steps| - 1]) + if last.ByWorker() then [] else [last]
  }

  /** One step more of what the client knows: from clearing the event for a submission on, the worker may owe that
      event, until the client has been let through by it or has joined the worker. */
  function UnsureAfter(unsure: bool, step: Step): bool {
    if step == BySubmit(SubmitResetEvent) then true
    else if step == ByCall(Pass) || step == ByLife(Join) then false
    else unsure
  }

  /** The client has seen no proof that the worker owes no event. */
  predicate Unsure(steps: seq<Step>) {
    steps != [] && UnsureAfter(Unsure(steps[..|steps| - 1]), steps[|steps| - 1])
  }

  /** Between any two submissions the client is let through by the event of the first, in a cancel, wait, synchronize
      or reset that blocked, or joins the worker by destroying the context. A cancel that answers OK has been let
      through; a wait that answers OK need not have been, as it does not look at the event of an ended ticket. */
  ghost predicate Careful(steps: seq<Step>) {
    forall i | 0 <= i < |steps| && steps[i] == BySubmit(SubmitResetEvent) :: !Unsure(steps[..i])
  }

  // ---------------------------------------------------------------- the rule is a matter of the client's steps

  lemma ClientStepsNext(steps: seq<Step>, n: nat)
    requires n < |steps|
    ensures ClientSteps(steps[..n + 1]) == ClientSteps(steps[..n]) + if steps[n].ByWorker() then [] else [steps[n]]
  {
    assert steps[..n + 1][..n] == steps[..n];
  }

  lemma UnsureNext(steps: seq<Step>, n: nat)
    requires n < |steps|
    ensures Unsure(steps[..n + 1]) == UnsureAfter(Unsure(steps[..n]), steps[n])
  {
    assert steps[..n + 1][..n] == steps[..n];
  }

  lemma UnsureAppends(c: seq<Step>, step: Step)
    ensures Unsure(c + [step]) == UnsureAfter(Unsure(c), step)
  {
    assert (c + [step])[..|c|] == c;
  }

  lemma {:induction false} UnsureOfClient(steps: seq<Step>)
    ensures Unsure(ClientSteps(steps)) <==> Unsure(steps)
  {
    if steps != [] {
      var front, last := steps[..|steps| - 1], steps[|steps| - 1];
      UnsureOfClient(front);
      UnsureAppends(ClientSteps(front), last);
      assert last.ByWorker() ==> ClientSteps(steps) == ClientSteps(front);
    }
  }

  lemma {:induction false} ClientStepsOfPrefix(steps: seq<Step>, n: nat)
    requires n <= |steps|
    ensures ClientSteps(steps[..n]) <= ClientSteps(steps)
    decreases |steps| - n
  {
    if n == |steps| {
      assert steps[..n] == steps;
    } else {
      ClientStepsOfPrefix(steps, n + 1);
      ClientStepsNext(steps, n);
    }
  }

  lemma CarefulFromClient(steps: seq<Step>, c: seq<Step>)
    requires ClientSteps(steps) <= c && Careful(c)
    ensures Careful(steps)
  {
    forall i | 0 <= i < |steps| && steps[i] == BySubmit(SubmitResetEvent) ensures !Unsure(steps[..i]) {
      ClientStepsOfPrefix(steps, i + 1);
      ClientStepsNext(steps, i);
      var k := |ClientSteps(steps[..i])|;
      assert c[k] == steps[i] && c[..k] == ClientSteps(steps[..i]);
      UnsureOfClient(steps[..i]);
    }
  }

  /** Where in the run the client takes its step number k. */
  lemma {:induction false} ClientStepAt(steps: seq<Step>, k: nat) returns (i: nat)
    requires k < |ClientSteps(steps)|
    ensures i < |steps| && steps[i] == ClientSteps(steps)[k] && ClientSteps(steps[..i]) == ClientSteps(steps)[..k]
  {
    var n := |steps| - 1;
    var front := ClientSteps(steps[..n]);
    if k < |front| {
      i := ClientStepAt(steps[..n], k);
      assert steps[..n][..i] == steps[..i];
    } else {
      i := n;
    }
  }

  lemma CarefulOfClient(steps: seq<Step>)
    requires Careful(steps)
    ensures Careful(ClientSteps(steps))
  {
    var c := ClientSteps(steps);
    forall k | 0 <= k < |c| && c[k] == BySubmit(SubmitResetEvent) ensures !Unsure(c[..k]) {
      var i := ClientStepAt(steps, k);
      UnsureOfClient(steps[..i]);
    }
  }

  // ---------------------------------------------------------------- careful clients

  /** The worker owes no event, and nothing it could come to owe one for has been handed to it. */
  predicate Settled(s: State) {
    !s.worker.Signalling? && !s.flags.control.Pending() && !s.client.SubmitControl?
  }

  /** While the event of the ticket in the slot is owed, it is not set. */
  predicate OwedIsUnset(s: State) {
    s.worker.Signalling? && s.flags.control.Held? ==> !s.events.completion
  }

  lemma CarefulStep(cfg: Config, s: State, step: Step, unsure: bool)
    requires Inv(cfg, true, s) && OwedIsUnset(s) && (!unsure ==> Settled(s)) && Can(cfg, s, step)
    requires step == BySubmit(SubmitResetEvent) ==> !unsure
    ensures TimelyStep(s, step) && OwedIsUnset(Do(cfg, s, step))
    ensures !UnsureAfter(unsure, step) ==> Settled(Do(cfg, s, step))
  {
    hide LiveOk, WakeOk, SignalOk, CancelOk, DataOk, Ledger;
  }

  lemma CarefulStart()
    ensures OwedIsUnset(Initial()) && Settled(Initial())
  {
  }

  lemma {:induction false} CarefulUpTo(cfg: Config, run: seq<State>, steps: seq<Step>, n: nat)
    requires IsRun(cfg, run, steps) && Careful(steps) && n <= |steps|
    ensures forall i | 0 <= i < n :: TimelyStep(run[i], steps[i])
    ensures Inv(cfg, true, run[n]) && OwedIsUnset(run[n]) && (!Unsure(steps[..n]) ==> Settled(run[n]))
  {
    hide Inv, Can, Do, TimelyStep, OwedIsUnset, Settled, Unsure, UnsureAfter;
    if n == 0 {
      InitialInv(cfg, true);
      CarefulStart();
    } else {
      CarefulUpTo(cfg, run, steps, n - 1);
      UnsureNext(steps, n - 1);
      CarefulStep(cfg, run[n - 1], steps[n - 1], Unsure(steps[..n - 1]));
      StepKeeps(cfg, true, run[n - 1], steps[n - 1]);
      assert run[n - 1 + 1] == Do(cfg, run[n - 1], steps[n - 1]);
    }
  }

  lemma CarefulRunsAreTimely(cfg: Config, run: seq<State>, steps: seq<Step>)
    requires IsRun(cfg, run, steps) && Careful(steps)
    ensures Timely(run, steps)
  {
    hide Can, Do;
    CarefulUpTo(cfg, run, steps, |steps|);
  }

  // ---------------------------------------------------------------- clients that are not

  /** The ticket is still to be ended. */
  predicate Unended(s: State) { s.client.SubmitControl? || s.flags.control.Pending() }

  /** The worker has ended its ticket and looks for no more work than it finds. */
  predicate Idling(w: Worker) { w.Signalling? || w.Listening? || w.Woken? || w.Checking? || w.Exited? }

  /** The same state but for a worker that has not set the event yet. */
  predicate Lagging(s: State, lag: State) {
    && lag.worker.Signalling?
    && lag == s.(worker := lag.worker,
                 events := s.events.(completion := lag.events.completion, command := lag.events.command),
                 past := s.past.(signalFor := lag.past.signalFor))
  }

  predicate Lags(s: State, lag: State) {
    && Lagging(s, lag) && Idling(s.worker) && !Unended(s)
    && s.life.context && !s.client.Starting? && !s.client.StopDone?
  }

  /** Up to the next submission the client does what it does without noticing that the worker lags. */
  lemma ClientLags(cfg: Config, s: State, lag: State, step: Step)
    requires Lags(s, lag) && Can(cfg, s, step) && !step.ByWorker()
    requires step != BySubmit(SubmitResetEvent) && step != ByCall(Pass) && step != ByLife(Join)
    ensures Can(cfg, lag, step) && Lags(Do(cfg, s, step), Do(cfg, lag, step))
  {
    hide Lags, LifeCan, LifeDo, SubmitCan, SubmitDo, CallCan, CallDo, ReleaseCan, ReleaseDo;
    match step
    case ByLife(l) => LifeLags(s, lag, l);
    case BySubmit(b) => SubmitLags(s, lag, b);
    case ByCall(c) => CallLags(cfg, s, lag, c);
    case ByRelease(r) => ReleaseLags(s, lag, r);
  }

  lemma LifeLags(s: State, lag: State, step: LifeStep)
    requires Lags(s, lag) && LifeCan(s, step) && step != Join
    ensures LifeCan(lag, step) && Lags(LifeDo(s, step), LifeDo(lag, step))
  {
  }

  lemma SubmitLags(s: State, lag: State, step: SubmitStep)
    requires Lags(s, lag) && SubmitCan(s, step) && step != SubmitResetEvent
    ensures SubmitCan(lag, step) && Lags(SubmitDo(s, step), SubmitDo(lag, step))
  {
  }

  lemma CallLags(cfg: Config, s: State, lag: State, step: CallStep)
    requires Lags(s, lag) && CallCan(cfg, s, step) && step != Pass
    ensures CallCan(cfg, lag, step) && Lags(CallDo(cfg, s, step), CallDo(cfg, lag, step))
  {
  }

  lemma ReleaseLags(s: State, lag: State, step: ReleaseStep)
    requires Lags(s, lag) && ReleaseCan(s, step)
    ensures ReleaseCan(lag, step) && Lags(ReleaseDo(s, step), ReleaseDo(lag, step))
  {
    hide NextGeneration;
  }

  lemma WorkerRunsAhead(cfg: Config, s: State, lag: State, step: Step)
    requires Lags(s, lag) && Can(cfg, s, step) && step.ByWorker()
    ensures Lags(Do(cfg, s, step), lag)
  {
  }

  lemma StillUnended(cfg: Config, s: State, step: Step)
    requires Inv(cfg, true, s) && Unended(s) && Can(cfg, s, step) && !cfg.atomic
    requires step != BySubmit(SubmitResetEvent)
    ensures Unended(Do(cfg, s, step)) || Lags(Do(cfg, s, step), Do(cfg, s, step))
  {
    hide WakeOk, SignalOk, CancelOk, DataOk, Ledger;
  }

  /** If the client submitted in step j and has not been let through since, then either that ticket has not ended, or
      the client could have come where it is with the worker about to set the event. */
  lemma {:induction false} Postponed(cfg: Config, t: Trace, j: nat, n: nat) returns (u: Trace)
    requires !cfg.atomic && t.IsOf(cfg) && Timely(t.run, t.steps)
    requires j < n <= |t.steps| && t.steps[j] == BySubmit(SubmitResetEvent)
    requires forall i | j < i < n ::
               t.steps[i] != BySubmit(SubmitResetEvent) && t.steps[i] != ByCall(Pass) && t.steps[i] != ByLife(Join)
    ensures !Unended(t.run[n]) ==>
              && u.IsOf(cfg) && ClientSteps(u.steps) == ClientSteps(t.steps[..n])
              && Lags(t.run[n], u.Last())
  {
    hide Inv, Can, Do, Unended, Lags, TimelyStep;
    u := t.Prefix(n);
    PrefixIsRun(cfg, t, n);
    var s, step := t.run[n - 1], t.steps[n - 1];
    assert t.run[n - 1 + 1] == Do(cfg, s, step);
    if j == n - 1 {
      ResetUnends(cfg, s);
    } else {
      u := Postponed(cfg, t, j, n - 1);
      ClientStepsNext(t.steps, n - 1);
      if Unended(s) {
        RunKeepsInvariant(cfg, t.run, t.steps, true, n - 1);
        StillUnended(cfg, s, step);
        u := t.Prefix(n);
      } else if step.ByWorker() {
        WorkerRunsAhead(cfg, s, u.Last(), step);
      } else {
        ClientLags(cfg, s, u.Last(), step);
        ClientStepsOfGo(u.steps, step);
        u := Go(cfg, u, step);
      }
    }
  }

  lemma ClientStepsOfGo(steps: seq<Step>, step: Step)
    ensures ClientSteps(steps + [step]) == ClientSteps(steps) + if step.ByWorker() then [] else [step]
  {
    assert (steps + [step])[..|steps|] == steps;
  }

  lemma ResetUnends(cfg: Config, s: State)
    requires Can(cfg, s, BySubmit(SubmitResetEvent))
    ensures Unended(Do(cfg, s, BySubmit(SubmitResetEvent)))
  {
  }

  /** An unsure client has submitted and has not been let through since. */
  lemma {:induction false} UnsureMeans(steps: seq<Step>, n: nat) returns (j: nat)
    requires n <= |steps| && Unsure(steps[..n])
    ensures j < n && steps[j] == BySubmit(SubmitResetEvent)
    ensures forall i | j < i < n ::
              steps[i] != BySubmit(SubmitResetEvent) && steps[i] != ByCall(Pass) && steps[i] != ByLife(Join)
  {
    UnsureNext(steps, n - 1);
    j := n - 1;
    if steps[n - 1] != BySubmit(SubmitResetEvent) {
      j := UnsureMeans(steps, n - 1);
    }
  }

  lemma FillingIsEnded(cfg: Config, s: State)
    requires Inv(cfg, true, s) && Can(cfg, s, BySubmit(SubmitResetEvent))
    ensures !Unended(s)
  {
    hide SeenOk, LiveOk, WorkerOk, WakeOk, Contents, Ledger;
  }

  lemma LagResets(cfg: Config, s: State, lag: State)
    requires Lags(s, lag) && Can(cfg, s, BySubmit(SubmitResetEvent))
    ensures Can(cfg, lag, BySubmit(SubmitResetEvent)) && lag.worker.Signalling?
  {
  }

  lemma LateFrom(cfg: Config, t: Trace, n: nat) returns (u: Trace)
    requires !cfg.atomic && t.IsOf(cfg) && Timely(t.run, t.steps)
    requires n < |t.steps| && t.steps[n] == BySubmit(SubmitResetEvent) && Unsure(t.steps[..n])
    ensures u.IsOf(cfg) && ClientSteps(u.steps) == ClientSteps(t.steps[..n + 1]) && LateReset(u)
  {
    hide Inv, Can, Do, Lags, Unended, TimelyStep, Unsure, Timely;
    var j := UnsureMeans(t.steps, n);
    RunKeepsInvariant(cfg, t.run, t.steps, true, n);
    assert Can(cfg, t.run[n], t.steps[n]);
    FillingIsEnded(cfg, t.run[n]);
    var v := Postponed(cfg, t, j, n);
    LagResets(cfg, t.run[n], v.Last());
    ClientStepsNext(t.steps, n);
    ClientStepsOfGo(v.steps, t.steps[n]);
    u := Go(cfg, v, t.steps[n]);
  }

  lemma LateIsNotTimely(u: Trace)
    requires LateReset(u)
    ensures !Timely(u.run, u.steps)
  {
    assert !TimelyStep(u.run[|u.steps| - 1], u.steps[|u.steps| - 1]);
  }

  /** A client that submits while it is unsure can, by those very steps, clear an event that is still owed. */
  lemma CarelessCanBeLate(cfg: Config, t: Trace) returns (u: Trace)
    requires !cfg.atomic && t.IsOf(cfg) && !Careful(t.steps)
    ensures u.IsOf(cfg) && ClientSteps(u.steps) <= ClientSteps(t.steps) && !Timely(u.run, u.steps)
  {
    hide IsRun, Unsure, LateReset;
    u := t;
    if Timely(t.run, t.steps) {
      var n :| 0 <= n < |t.steps| && t.steps[n] == BySubmit(SubmitResetEvent) && Unsure(t.steps[..n]);
      u := LateFrom(cfg, t, n);
      LateIsNotTimely(u);
      ClientStepsOfPrefix(t.steps, n + 1);
    }
  }

  /** All runs in which the client takes these steps, or a beginning of them, are timely, whatever the worker does,
      exactly if the client is careful or the two writes of complete are one step. */
  lemma CarefulExactly(cfg: Config, t: Trace)
    requires t.IsOf(cfg)
    ensures cfg.atomic || Careful(ClientSteps(t.steps))
       <==> forall u: Trace | u.IsOf(cfg) && ClientSteps(u.steps) <= ClientSteps(t.steps) :: Timely(u.run, u.steps)
  {
    hide Can, Do;
    forall u: Trace | u.IsOf(cfg) && (cfg.atomic || Careful(ClientSteps(t.steps)))
                      && ClientSteps(u.steps) <= ClientSteps(t.steps)
      ensures Timely(u.run, u.steps)
    {
      if cfg.atomic {
        AtomicRunsAreTimely(cfg, u.run, u.steps);
      } else {
        CarefulFromClient(u.steps, ClientSteps(t.steps));
        CarefulRunsAreTimely(cfg, u.run, u.steps);
      }
    }
    if !cfg.atomic && !Careful(ClientSteps(t.steps)) {
      if Careful(t.steps) {
        CarefulOfClient(t.steps);
      }
      var u := CarelessCanBeLate(cfg, t);
    }
  }

  // ---------------------------------------------------------------- at the release

  /** u goes on where t ends, up to where the next submission clears the event. */
  ghost predicate NextSubmission(t: Trace, u: Trace) {
    && u.Extends(t) && |t.steps| < |u.steps| && u.steps[|u.steps| - 1] == BySubmit(SubmitResetEvent)
    && forall i | |t.steps| <= i < |u.steps| - 1 :: u.steps[i] != BySubmit(SubmitResetEvent)
  }

  lemma SettledStays(cfg: Config, s: State, step: Step)
    requires Inv(cfg, true, s) && Settled(s) && Can(cfg, s, step) && step != BySubmit(SubmitResetEvent)
    ensures Settled(Do(cfg, s, step))
  {
    hide LiveOk, WakeOk, Contents, Ledger;
  }

  lemma {:induction false} SettledUntil(cfg: Config, t: Trace, u: Trace, n: nat)
    requires u.IsOf(cfg) && NextSubmission(t, u) && Timely(t.run, t.steps) && Settled(t.Last())
    requires |t.steps| <= n < |u.steps|
    ensures Timely(u.Prefix(n).run, u.Prefix(n).steps) && Settled(u.run[n])
  {
    hide Inv, Can, Do, Settled, TimelyStep;
    if n == |t.steps| {
      assert u.Prefix(n) == t;
    } else {
      SettledUntil(cfg, t, u, n - 1);
      PrefixIsRun(cfg, u, n - 1);
      PrefixIsRun(cfg, u, n);
      var p := u.Prefix(n - 1);
      RunKeepsInvariant(cfg, p.run, p.steps, true, n - 1);
      assert u.run[n - 1 + 1] == Do(cfg, u.run[n - 1], u.steps[n - 1]);
      SettledStays(cfg, u.run[n - 1], u.steps[n - 1]);
      NotAReset(u.run[n - 1], u.steps[n - 1]);
      assert u.Prefix(n).Prefix(n - 1) == p;
      TimelyOneMore(u.Prefix(n));
    }
  }

  lemma ReleaseIsSettled(cfg: Config, s: State)
    requires Inv(cfg, true, s) && OwedIsUnset(s) && s.client == Release
    ensures s.events.completion <==> Settled(s)
    ensures !s.events.completion ==> s.worker == Signalling
    ensures s.life.context && s.ticket.active
  {
    hide WakeOk, SignalOk, CancelOk, DataOk, Ledger;
  }

  lemma OwedStays(cfg: Config, s: State, step: Step)
    requires Inv(cfg, true, s) && OwedIsUnset(s) && Can(cfg, s, step) && TimelyStep(s, step)
    ensures OwedIsUnset(Do(cfg, s, step))
  {
    hide LiveOk, WakeOk, SignalOk, CancelOk, DataOk, Ledger;
  }

  lemma {:induction false} TimelyOwesUnset(cfg: Config, run: seq<State>, steps: seq<Step>, i: nat)
    requires IsRun(cfg, run, steps) && Timely(run, steps) && i < |run|
    ensures OwedIsUnset(run[i])
  {
    hide Inv, Can, Do, OwedIsUnset, TimelyStep;
    if i == 0 {
      CarefulStart();
    } else {
      TimelyOwesUnset(cfg, run, steps, i - 1);
      RunKeepsInvariant(cfg, run, steps, true, i - 1);
      assert run[i - 1 + 1] == Do(cfg, run[i - 1], steps[i - 1]);
      OwedStays(cfg, run[i - 1], steps[i - 1]);
    }
  }

  /** From a release with the event unset the client can go on, by itself, to submit with the event still owed. */
  lemma EarlyReleaseCanBeLate(cfg: Config, t: Trace) returns (u: Trace)
    requires t.IsOf(cfg) && Timely(t.run, t.steps) && t.Last().client == Release && !t.Last().events.completion
    ensures u.IsOf(cfg) && u.steps == t.steps + RELEASING + FILLING + [BySubmit(SubmitResetEvent)]
    ensures NextSubmission(t, u) && LateReset(u)
  {
    hide Inv, NextGeneration, OwedIsUnset, Settled;
    RunKeepsInvariant(cfg, t.run, t.steps, true, |t.run| - 1);
    TimelyOwesUnset(cfg, t.run, t.steps, |t.run| - 1);
    ReleaseIsSettled(cfg, t.Last());
    var a := ClientReleases(cfg, t);
    var b := ClientFills(cfg, a);
    u := Go(cfg, b, BySubmit(SubmitResetEvent));
    ExtendsTransitively(t, a, b);
    ExtendsTransitively(t, b, u);
    assert forall i | |t.steps| <= i < |u.steps| - 1 :: u.steps[i] == (RELEASING + FILLING)[i - |t.steps|];
  }

  /** A ticket is released with its event set exactly if the next submission, whenever it comes and whatever comes
      before it, does not clear an event that is still owed. */
  lemma ReleaseExactly(cfg: Config, t: Trace)
    requires t.IsOf(cfg) && Timely(t.run, t.steps) && t.Last().client == Release
    ensures t.Last().events.completion
       <==> forall u: Trace | u.IsOf(cfg) && NextSubmission(t, u) :: !LateReset(u)
  {
    hide Inv, Can, Do, OwedIsUnset, Settled;
    RunKeepsInvariant(cfg, t.run, t.steps, true, |t.run| - 1);
    TimelyOwesUnset(cfg, t.run, t.steps, |t.run| - 1);
    ReleaseIsSettled(cfg, t.Last());
    if t.Last().events.completion {
      forall u: Trace | u.IsOf(cfg) && NextSubmission(t, u) ensures !LateReset(u) {
        SettledUntil(cfg, t, u, |u.steps| - 1);
        SettledOwesNothing(u.run[|u.steps| - 1]);
      }
    } else {
      var u := EarlyReleaseCanBeLate(cfg, t);
    }
  }

  lemma SettledOwesNothing(s: State)
    requires Settled(s)
    ensures !s.worker.Signalling?
  {
  }

  // ---------------------------------------------------------------- seeing a final state is not enough

  lemma ClientReports(cfg: Config, t: Trace) returns (u: Trace)
    requires t.IsOf(cfg) && t.Last().client == Idle && t.Last().ticket.active && t.Last().flags.control.Held?
    ensures u.IsOf(cfg) && u.Extends(t) && (Timely(t.run, t.steps) ==> Timely(u.run, u.steps))
    ensures u.Last() == t.Last()
    ensures u.steps == t.steps + [ByCall(BeginReport), ByCall(Report)]
    ensures u.run[|t.steps| + 1].client == Reporting(t.Last().flags.control)
  {
    hide IsRun;
    u := Go(cfg, t, ByCall(BeginReport));
    u := Go(cfg, u, ByCall(Report));
  }

  /** With the two writes apart, a client that polls or waits until it is told of a final state, collects, and submits
      again, can submit late: step i is the report, step j the release, and the last step clears an event that is
      still owed. */
  lemma WaitingIsNotEnough(cfg: Config) returns (t: Trace, i: nat, j: nat)
    requires !cfg.atomic
    ensures t.IsOf(cfg) && LateReset(t) && i < j < |t.steps|
    ensures t.steps[i] == ByCall(Report) && t.run[i].client == Reporting(Held(Complete))
    ensures t.steps[j] == ByRelease(ClearTicket) && !t.run[j].events.completion
  {
    hide IsRun, NextGeneration, Timely;
    var a := FirstTicket(cfg);
    a := WorkerClaims(cfg, a);
    a := WorkerSucceeds(cfg, a);
    a := WorkerStores(cfg, a);
    var b := ClientReports(cfg, a);
    var c := ClientCopies(cfg, b);
    t := EarlyReleaseCanBeLate(cfg, c);
    i, j := |a.steps| + 1, |c.steps|;
    ExtendsTransitively(b, c, t);
    assert t.steps[i] == b.steps[i] && t.run[i] == b.run[i];
    assert t.steps[j] == RELEASING[0] && t.run[j] == c.run[j];
  }
}
