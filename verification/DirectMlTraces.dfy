/** Which runs of the DirectML hand-off are right, exactly, with the runs that go wrong written out. */
module DirectMlTraces {
  import opened Statuses
  import opened DirectMlHandoff
  import opened DirectMlRuns

  datatype Trace = Trace(run: seq<State>, steps: seq<Step>) {
    ghost predicate IsOf(cfg: Config) { IsRun(cfg, run, steps) }

    function Last(): State
      requires run != []
    {
      run[|run| - 1]
    }

    /** The trace goes on where t ends. */
    ghost predicate Extends(t: Trace) {
      |run| == |steps| + 1 && |t.run| == |t.steps| + 1 && t.run <= run && t.steps <= steps
    }

    function Prefix(n: nat): Trace
      requires |run| == |steps| + 1 && n <= |steps|
    {
      Trace(run[..n + 1], steps[..n])
    }
  }

  /** From the end of t on, everything goes right as long as later submissions are timely. */
  ghost predicate SoundAfter(cfg: Config, t: Trace) {
    forall u: Trace | u.IsOf(cfg) && u.Extends(t) && TimelyFrom(u.run, u.steps, |t.steps|) ::
      forall j | 0 <= j < |u.run| :: Right(u.run[j])
  }

  // ---------------------------------------------------------------- making runs longer

  lemma Start(cfg: Config) returns (t: Trace)
    ensures t.IsOf(cfg) && t.Last() == Initial() && Timely(t.run, t.steps)
  {
    t := Trace([Initial()], []);
  }

  lemma Go(cfg: Config, t: Trace, step: Step) returns (u: Trace)
    requires t.IsOf(cfg) && Can(cfg, t.Last(), step)
    ensures u.IsOf(cfg) && u.Extends(t) && u.Last() == Do(cfg, t.Last(), step) && u.steps == t.steps + [step]
    ensures forall n | 0 <= n <= |t.steps| && TimelyFrom(t.run, t.steps, n) && TimelyStep(t.Last(), step) ::
              TimelyFrom(u.run, u.steps, n)
  {
    hide Can, Do, TimelyStep;
    u := Trace(t.run + [Do(cfg, t.Last(), step)], t.steps + [step]);
    forall i | 0 <= i < |u.steps|
      ensures Can(cfg, u.run[i], u.steps[i]) && u.run[i + 1] == Do(cfg, u.run[i], u.steps[i])
    {
      if i < |t.steps| {
        assert Can(cfg, t.run[i], t.steps[i]) && t.run[i + 1] == Do(cfg, t.run[i], t.steps[i]);
      }
    }
  }

  lemma ExtendsTransitively(t: Trace, u: Trace, v: Trace)
    requires u.Extends(t) && v.Extends(u)
    ensures v.Extends(t)
  {
  }

  lemma PrefixIsRun(cfg: Config, t: Trace, n: nat)
    requires t.IsOf(cfg) && n <= |t.steps|
    ensures t.Prefix(n).IsOf(cfg) && t.Extends(t.Prefix(n)) && t.Prefix(n).Last() == t.run[n]
    ensures Timely(t.run, t.steps) ==> TimelyFrom(t.run, t.steps, n) && Timely(t.Prefix(n).run, t.Prefix(n).steps)
  {
    hide Can, Do, TimelyStep;
    var p := t.Prefix(n);
    forall i | 0 <= i < n ensures Can(cfg, p.run[i], p.steps[i]) && p.run[i + 1] == Do(cfg, p.run[i], p.steps[i]) {
      assert Can(cfg, t.run[i], t.steps[i]) && t.run[i + 1] == Do(cfg, t.run[i], t.steps[i]);
    }
  }

  // ---------------------------------------------------------------- the event left over from the ticket before

  predicate LateReset(t: Trace) {
    && |t.run| == |t.steps| + 1 && t.steps != []
    && t.steps[|t.steps| - 1] == BySubmit(SubmitResetEvent) && t.run[|t.run| - 2].worker.Signalling?
  }

  /** The client goes on to finish its submission, and the worker sets the event it still owes. */
  lemma LateSignal(cfg: Config, t: Trace) returns (u: Trace)
    requires t.IsOf(cfg) && t.Last().client == SubmitControl && t.Last().worker == Signalling
    ensures u.IsOf(cfg) && u.Extends(t) && TimelyFrom(u.run, u.steps, |t.steps|)
    ensures u.Last() == var s := t.Last();
                        s.(client := Idle, worker := Listening, flags := s.flags.(control := Held(Queued)),
                           events := s.events.(command := true, completion := true),
                           past := s.past.(signalFor := s.past.claimed))
  {
    hide IsRun, TimelyStep;
    var a := Go(cfg, t, BySubmit(StoreQueued));
    var b := Go(cfg, a, BySubmit(SignalCommand));
    u := Go(cfg, b, ByProcess(SignalEnd));
    NotAReset(t.Last(), BySubmit(StoreQueued));
    NotAReset(a.Last(), BySubmit(SignalCommand));
    NotAReset(b.Last(), ByProcess(SignalEnd));
  }

  lemma NotAReset(s: State, step: Step)
    requires step != BySubmit(SubmitResetEvent)
    ensures TimelyStep(s, step)
  {
  }

  /** The calls that wait for the event, up to the point where they wait. */
  lemma Await(cfg: Config, t: Trace, p: Purpose) returns (u: Trace)
    requires t.IsOf(cfg) && t.Last().client == Idle && t.Last().ticket.active && t.Last().flags.control == Held(Queued)
    requires p.ForReset? ==> cfg.resets
    ensures u.IsOf(cfg) && u.Extends(t) && TimelyFrom(u.run, u.steps, |t.steps|)
    ensures u.Last() == var s := t.Last();
                        s.(client := Blocked(p),
                           flags := s.flags.(cancel := s.flags.cancel || p.ForCancel? || p.ForReset?))
  {
    var s := t.Last();
    hide IsRun, TimelyStep;
    match p
    case ForWait => u := Go(cfg, t, ByCall(BeginWait)); NotAReset(s, ByCall(BeginWait));
    case ForSynchronize => u := Go(cfg, t, ByCall(BeginSynchronize)); NotAReset(s, ByCall(BeginSynchronize));
    case ForCancel =>
      var a := Go(cfg, t, ByCall(BeginCancel));
      u := Go(cfg, a, ByCall(StoreCancel));
      NotAReset(s, ByCall(BeginCancel));
      NotAReset(a.Last(), ByCall(StoreCancel));
    case ForReset =>
      var a := Go(cfg, t, ByCall(BeginReset));
      u := Go(cfg, a, ByCall(StoreCancel));
      NotAReset(s, ByCall(BeginReset));
      NotAReset(a.Last(), ByCall(StoreCancel));
  }

  /** If submit clears the event while the worker still owes it for the ticket before, then each of the waiting calls
      can be let through while the ticket just submitted is still queued. */
  lemma LateResetMisleads(cfg: Config, t: Trace, p: Purpose) returns (u: Trace)
    requires t.IsOf(cfg) && LateReset(t) && (p.ForReset? ==> cfg.resets)
    requires Timely(t.Prefix(|t.steps| - 1).run, t.Prefix(|t.steps| - 1).steps)
    ensures u.IsOf(cfg) && u.Extends(t) && TimelyFrom(u.run, u.steps, |t.steps|)
    ensures u.Last().client == Blocked(p) && u.Last().events.completion && u.Last().flags.control == Held(Queued)
    ensures u.Last().ticket.active && u.Last().ticket.dispatch == t.Last().ticket.dispatch
    ensures !Right(u.Last())
  {
    LateResetState(cfg, t);
    var a := LateSignal(cfg, t);
    u := Await(cfg, a, p);
    ExtendsTransitively(t, a, u);
    TimelyTogether(t, a, u);
  }

  lemma LateResetState(cfg: Config, t: Trace)
    requires t.IsOf(cfg) && LateReset(t)
    requires Timely(t.Prefix(|t.steps| - 1).run, t.Prefix(|t.steps| - 1).steps)
    ensures t.Last().client == SubmitControl && t.Last().worker == Signalling && t.Last().ticket.active
  {
    hide Inv, Do;
    var n := |t.steps| - 1;
    var before := t.Prefix(n);
    PrefixIsRun(cfg, t, n);
    RunKeepsInvariant(cfg, before.run, before.steps, true, n);
    assert t.run[n + 1] == Do(cfg, t.run[n], t.steps[n]);
    FillingIsActive(cfg, t.run[n]);
  }

  lemma FillingIsActive(cfg: Config, s: State)
    requires Inv(cfg, true, s) && s.client.SubmitEvent?
    ensures s.ticket.active
    ensures Do(cfg, s, BySubmit(SubmitResetEvent))
            == s.(events := s.events.(completion := false), client := SubmitControl)
  {
    hide SeenOk, LiveOk, WorkerOk, WakeOk, Contents, Ledger;
  }

  lemma TimelyTogether(t: Trace, u: Trace, v: Trace)
    requires u.Extends(t) && v.Extends(u)
    requires TimelyFrom(u.run, u.steps, |t.steps|) && TimelyFrom(v.run, v.steps, |u.steps|)
    ensures TimelyFrom(v.run, v.steps, |t.steps|)
  {
    hide TimelyStep;
    forall i | |t.steps| <= i < |v.steps| ensures TimelyStep(v.run[i], v.steps[i]) {
      if i < |u.steps| {
        assert TimelyStep(u.run[i], u.steps[i]);
      }
    }
  }

  /** A submission is sound, whatever follows and however the threads interleave, exactly if the worker has set
      the event of the ticket before it when submit clears the event: if the ticket before was released only after
      its event was set. Later submissions are taken to be timely, as each is judged by this lemma in its turn. */
  lemma TimelyResetExactly(cfg: Config, t: Trace)
    requires t.IsOf(cfg) && t.steps != [] && t.steps[|t.steps| - 1] == BySubmit(SubmitResetEvent)
    requires Timely(t.Prefix(|t.steps| - 1).run, t.Prefix(|t.steps| - 1).steps)
    ensures !t.run[|t.run| - 2].worker.Signalling? <==> SoundAfter(cfg, t)
  {
    hide Can, Do, Right;
    if t.run[|t.run| - 2].worker.Signalling? {
      var u := LateResetMisleads(cfg, t, ForWait);
      assert !Right(u.run[|u.run| - 1]);
    } else {
      TimelyOneMore(t);
      SoundIfTimely(cfg, t);
    }
  }

  lemma TimelyOneMore(t: Trace)
    requires |t.run| == |t.steps| + 1 && t.steps != []
    requires Timely(t.Prefix(|t.steps| - 1).run, t.Prefix(|t.steps| - 1).steps)
    requires TimelyStep(t.run[|t.run| - 2], t.steps[|t.steps| - 1])
    ensures Timely(t.run, t.steps)
  {
    hide TimelyStep;
    var p := t.Prefix(|t.steps| - 1);
    forall i | 0 <= i < |t.steps| ensures TimelyStep(t.run[i], t.steps[i]) {
      if i < |p.steps| {
        assert TimelyStep(p.run[i], p.steps[i]);
      }
    }
  }

  lemma SoundIfTimely(cfg: Config, t: Trace)
    requires t.IsOf(cfg) && Timely(t.run, t.steps)
    ensures SoundAfter(cfg, t)
  {
    hide Can, Do, Right, TimelyStep;
    forall u: Trace, j | u.IsOf(cfg) && u.Extends(t) && TimelyFrom(u.run, u.steps, |t.steps|) && 0 <= j < |u.run|
      ensures Right(u.run[j])
    {
      forall i | 0 <= i < |u.steps| ensures TimelyStep(u.run[i], u.steps[i]) {
        if i < |t.steps| {
          assert TimelyStep(t.run[i], t.steps[i]);
        }
      }
      TimelyRunsAreRight(cfg, u.run, u.steps, j);
    }
  }

  /** A run is timely exactly if it is sound at each of its points. */
  lemma TimelyExactly(cfg: Config, t: Trace)
    requires t.IsOf(cfg)
    ensures Timely(t.run, t.steps) <==> forall n | 0 <= n <= |t.steps| :: SoundAfter(cfg, t.Prefix(n))
  {
    hide Can, Do, SoundAfter, TimelyStep;
    if Timely(t.run, t.steps) {
      forall n | 0 <= n <= |t.steps| ensures SoundAfter(cfg, t.Prefix(n)) {
        PrefixIsRun(cfg, t, n);
        SoundIfTimely(cfg, t.Prefix(n));
      }
    }
    if forall n | 0 <= n <= |t.steps| :: SoundAfter(cfg, t.Prefix(n)) {
      SoundThenTimely(cfg, t, |t.steps|);
      assert t.Prefix(|t.steps|) == t;
    }
  }

  lemma {:induction false} SoundThenTimely(cfg: Config, t: Trace, n: nat)
    requires t.IsOf(cfg) && n <= |t.steps|
    requires forall k | 0 <= k <= |t.steps| :: SoundAfter(cfg, t.Prefix(k))
    ensures Timely(t.Prefix(n).run, t.Prefix(n).steps)
  {
    hide Can, Do, SoundAfter, TimelyStep;
    if n > 0 {
      SoundThenTimely(cfg, t, n - 1);
      PrefixIsRun(cfg, t, n);
      var p := t.Prefix(n);
      assert p.Prefix(n - 1) == t.Prefix(n - 1);
      if p.steps[n - 1] == BySubmit(SubmitResetEvent) {
        TimelyResetExactly(cfg, p);
        TimelyUnlessSignalling(p.run[n - 1], p.steps[n - 1]);
      } else {
        NotAReset(p.run[n - 1], p.steps[n - 1]);
      }
      TimelyOneMore(p);
    }
  }

  lemma TimelyUnlessSignalling(s: State, step: Step)
    requires !s.worker.Signalling?
    ensures TimelyStep(s, step)
  {
  }

  // ---------------------------------------------------------------- runs that go wrong

  lemma FirstContext(cfg: Config) returns (t: Trace)
    ensures t.IsOf(cfg) && Timely(t.run, t.steps)
    ensures t.Last() == State.State(Idle, Listening, NO_TICKET, Flags(Empty, false, false), Events(false, false, true),
                                    Life(true, true, true, 1), Past(0, 0, 0, [], [], []))
  {
    hide IsRun;
    t := Start(cfg);
    t := Go(cfg, t, ByLife(CreateModel));
    t := Go(cfg, t, ByLife(CreateContext));
    t := Go(cfg, t, ByLoop(Boot(true)));
    t := Go(cfg, t, ByLife(ContextReady));
  }

  const FILLING := [BySubmit(Submit), BySubmit(SubmitClearCancel)]

  const RELEASING := [ByRelease(ClearTicket), ByRelease(ReleaseClearCancel), ByRelease(StoreEmpty),
                      ByRelease(ReleaseResetEvent), ByRelease(AdvanceGeneration)]

  lemma ClientFills(cfg: Config, t: Trace) returns (u: Trace)
    requires t.IsOf(cfg) && t.Last().client == Idle && t.Last().life.context && !t.Last().ticket.active
    ensures u.IsOf(cfg) && (Timely(t.run, t.steps) ==> Timely(u.run, u.steps))
    ensures u.Extends(t) && u.steps == t.steps + FILLING
    ensures u.Last() == var s := t.Last();
                        s.(client := SubmitEvent, ticket := Ticket.Ticket(true, s.past.submitted + 1, 0, Ok),
                           flags := s.flags.(cancel := false), past := s.past.(submitted := s.past.submitted + 1))
  {
    hide IsRun;
    u := Go(cfg, t, BySubmit(Submit));
    u := Go(cfg, u, BySubmit(SubmitClearCancel));
  }

  lemma ClientHandsOver(cfg: Config, t: Trace) returns (u: Trace)
    requires t.IsOf(cfg) && t.Last().client == SubmitEvent && t.Last().worker != Signalling
    ensures u.IsOf(cfg) && (Timely(t.run, t.steps) ==> Timely(u.run, u.steps))
    ensures u.Last() == var s := t.Last();
                        s.(client := Idle, flags := s.flags.(control := Held(Queued)),
                           events := s.events.(command := true, completion := false))
  {
    hide IsRun;
    u := Go(cfg, t, BySubmit(SubmitResetEvent));
    u := Go(cfg, u, BySubmit(StoreQueued));
    u := Go(cfg, u, BySubmit(SignalCommand));
  }

  /** A context is created and a first ticket handed over. */
  lemma FirstTicket(cfg: Config) returns (t: Trace)
    ensures t.IsOf(cfg) && Timely(t.run, t.steps)
    ensures t.Last() == State.State(Idle, Listening, Ticket.Ticket(true, 1, 0, Ok), Flags(Held(Queued), false, false),
                                    Events(true, false, true), Life(true, true, true, 1), Past(1, 0, 0, [], [], []))
  {
    hide IsRun, Can, Do;
    t := FirstContext(cfg);
    t := ClientFills(cfg, t);
    t := ClientHandsOver(cfg, t);
  }

  /** The worker takes up a queued ticket and starts working on it. */
  lemma WorkerClaims(cfg: Config, t: Trace) returns (u: Trace)
    requires t.IsOf(cfg)
    requires var s := t.Last();
             && s.worker == Listening && s.events.command && !s.flags.stop && !s.flags.cancel
             && s.flags.control == Held(Queued)
    ensures u.IsOf(cfg) && (Timely(t.run, t.steps) ==> Timely(u.run, u.steps))
    ensures u.Last() == var s := t.Last();
                        s.(worker := Working, flags := s.flags.(control := Held(Running)),
                           events := s.events.(command := false),
                           past := s.past.(claimed := s.ticket.dispatch, runs := s.past.runs + [s.ticket.dispatch]))
  {
    hide IsRun;
    u := Go(cfg, t, ByLoop(Wake));
    u := Go(cfg, u, ByLoop(ReadStop));
    u := Go(cfg, u, ByLoop(ReadControl));
    u := Go(cfg, u, ByProcess(StoreRunning));
    u := Go(cfg, u, ByProcess(ReadCancel));
  }

  lemma WorkerSucceeds(cfg: Config, t: Trace) returns (u: Trace)
    requires t.IsOf(cfg) && t.Last().worker == Working && !t.Last().flags.cancel
    ensures u.IsOf(cfg) && (Timely(t.run, t.steps) ==> Timely(u.run, u.steps))
    ensures u.Last() == var s := t.Last();
                        s.(worker := Finishing(Complete, Ok), ticket := s.ticket.(output := s.ticket.dispatch))
  {
    hide IsRun;
    u := Go(cfg, t, ByProcess(Work(Ok)));
    u := Go(cfg, u, ByProcess(ReadCancelAgain));
  }

  lemma WorkerStores(cfg: Config, t: Trace) returns (u: Trace)
    requires t.IsOf(cfg) && t.Last().worker == Finishing(Complete, Ok)
    ensures u.IsOf(cfg) && (Timely(t.run, t.steps) ==> Timely(u.run, u.steps))
    ensures u.Last() == var s := t.Last();
                        s.(worker := if cfg.atomic then Listening else Signalling,
                           ticket := s.ticket.(result := Ok), flags := s.flags.(control := Held(Complete)),
                           events := s.events.(completion := cfg.atomic || s.events.completion),
                           past := s.past.(ends := s.past.ends + [Ended(s.past.claimed, Complete)],
                                           signalFor := if cfg.atomic then s.past.claimed else s.past.signalFor))
  {
    hide IsRun;
    u := Go(cfg, t, ByProcess(StoreResult));
    u := Go(cfg, u, ByProcess(StoreEnd));
  }

  lemma ClientCopies(cfg: Config, t: Trace) returns (u: Trace)
    requires t.IsOf(cfg)
    requires t.Last().client == Idle && t.Last().ticket.active && t.Last().flags.control == Held(Complete)
    ensures u.Extends(t) && |u.steps| > |t.steps|
    ensures u.IsOf(cfg) && (Timely(t.run, t.steps) ==> Timely(u.run, u.steps))
    ensures u.Last() == var s := t.Last();
                        s.(client := Release,
                           past := s.past.(deliveries := s.past.deliveries
                                           + [Delivery(s.ticket.dispatch, s.ticket.output)]))
  {
    hide IsRun;
    u := Go(cfg, t, ByRelease(BeginCollect));
    u := Go(cfg, u, ByRelease(CopyOut));
  }

  lemma ClientReleases(cfg: Config, t: Trace) returns (u: Trace)
    requires t.IsOf(cfg) && t.Last().client == Release
    ensures u.IsOf(cfg) && (Timely(t.run, t.steps) ==> Timely(u.run, u.steps))
    ensures u.Extends(t) && u.steps == t.steps + RELEASING
    ensures u.Last() == var s := t.Last();
                        s.(client := Idle, ticket := NO_TICKET, flags := s.flags.(control := Empty, cancel := false),
                           events := s.events.(completion := false),
                           life := s.life.(generation := NextGeneration(s.life.generation)))
  {
    hide IsRun, NextGeneration;
    u := ClientClears(cfg, t);
    u := Go(cfg, u, ByRelease(ReleaseResetEvent));
    u := Go(cfg, u, ByRelease(AdvanceGeneration));
  }

  lemma ClientClears(cfg: Config, t: Trace) returns (u: Trace)
    requires t.IsOf(cfg) && t.Last().client == Release
    ensures u.IsOf(cfg) && (Timely(t.run, t.steps) ==> Timely(u.run, u.steps))
    ensures u.Extends(t) && u.steps == t.steps + RELEASING[..3]
    ensures u.Last() == var s := t.Last();
                        s.(client := ReleaseEvent, ticket := NO_TICKET,
                           flags := s.flags.(control := Empty, cancel := false))
  {
    hide IsRun, NextGeneration;
    u := Go(cfg, t, ByRelease(ClearTicket));
    u := Go(cfg, u, ByRelease(ReleaseClearCancel));
    u := Go(cfg, u, ByRelease(StoreEmpty));
  }

  /** With the two writes apart: the first ticket is collected, and the next submission clears the event, before the
      worker has set it for the first. */
  lemma ReachLateReset(cfg: Config) returns (t: Trace)
    requires !cfg.atomic
    ensures t.IsOf(cfg) && LateReset(t)
    ensures Timely(t.Prefix(|t.steps| - 1).run, t.Prefix(|t.steps| - 1).steps)
    ensures t.Last().worker == Signalling && t.Last().client == SubmitControl && t.Last().ticket.active
            && !t.Last().flags.stop && !t.Last().flags.cancel
  {
    hide NextGeneration, TimelyStep, Timely, IsRun;
    var u := FirstTicket(cfg);
    u := WorkerClaims(cfg, u);
    u := WorkerSucceeds(cfg, u);
    u := WorkerStores(cfg, u);
    u := ClientCopies(cfg, u);
    u := ClientReleases(cfg, u);
    u := ClientFills(cfg, u);
    t := Go(cfg, u, BySubmit(SubmitResetEvent));
    assert t.Prefix(|t.steps| - 1) == u;
  }

  /** Each waiting call finds its ticket ended whenever its event is set, in all runs, exactly when the two writes of
      complete are one step. */
  lemma EventMeansEndedExactly(cfg: Config, p: Purpose)
    requires p.ForReset? ==> cfg.resets
    ensures cfg.atomic
       <==> forall t: Trace | t.IsOf(cfg) && t.Last().client == Blocked(p) && t.Last().events.completion ::
              t.Last().flags.control.Ended()
  {
    hide Can, Do;
    if cfg.atomic {
      forall t: Trace | t.IsOf(cfg) && t.Last().client == Blocked(p) && t.Last().events.completion
        ensures t.Last().flags.control.Ended()
      {
        AtomicRunsAreRight(cfg, t.run, t.steps, |t.run| - 1);
      }
    } else {
      var t := ReachLateReset(cfg);
      var u := LateResetMisleads(cfg, t, p);
      assert !u.Last().flags.control.Ended();
    }
  }

  /** With the two writes apart, wait can read a pending state after its event has let it through. */
  lemma WaitCanPassEarly(cfg: Config) returns (t: Trace)
    requires !cfg.atomic
    ensures t.IsOf(cfg) && t.Last().client == Reload && t.Last().flags.control == Held(Queued)
  {
    hide IsRun;
    t := ReachLateReset(cfg);
    t := LateResetMisleads(cfg, t, ForWait);
    t := Go(cfg, t, ByCall(Pass));
  }

  /** With the two writes apart, reset can reach release_ticket while the worker is inside the ticket. */
  lemma ResetCanReleaseEarly(cfg: Config) returns (t: Trace)
    requires !cfg.atomic && cfg.resets
    ensures t.IsOf(cfg) && t.Last().client == Release && t.Last().worker == Working
  {
    hide IsRun;
    t := ReachLateReset(cfg);
    t := LateSignal(cfg, t);
    t := Go(cfg, t, ByCall(BeginReset));
    t := WorkerClaims(cfg, t);
    t := Go(cfg, t, ByCall(StoreCancel));
    t := Go(cfg, t, ByCall(Pass));
  }

  /** release_ticket never runs while the worker is inside the ticket, in all runs, exactly when the two writes are
      one step or reset is never called. */
  lemma ReleaseIsSafeExactly(cfg: Config)
    ensures (cfg.resets ==> cfg.atomic)
       <==> forall t: Trace | t.IsOf(cfg) && (t.Last().client.Release? || t.Last().client.Cleared()) ::
              !t.Last().worker.Owns()
  {
    hide Can, Do;
    if cfg.resets ==> cfg.atomic {
      forall t: Trace | t.IsOf(cfg) && (t.Last().client.Release? || t.Last().client.Cleared())
        ensures !t.Last().worker.Owns()
      {
        if cfg.atomic {
          AtomicRunsAreRight(cfg, t.run, t.steps, |t.run| - 1);
        } else if t.Last().worker.Owns() {
          WorkerOwnsItsSubmission(cfg, t.run, t.steps, |t.run| - 1);
        }
      }
    } else {
      var t := ResetCanReleaseEarly(cfg);
      assert t.Last().client.Release? && t.Last().worker.Owns();
    }
  }

  lemma ClientBeginsCancel(cfg: Config, t: Trace) returns (u: Trace)
    requires t.IsOf(cfg) && t.Last().client == Idle && t.Last().ticket.active && t.Last().flags.control == Held(Queued)
    ensures u.IsOf(cfg) && (Timely(t.run, t.steps) ==> Timely(u.run, u.steps))
    ensures u.Last() == t.Last().(client := RequestCancel(ForCancel))
  {
    hide IsRun;
    u := Go(cfg, t, ByCall(BeginCancel));
  }

  lemma ClientStoresCancel(cfg: Config, t: Trace) returns (u: Trace)
    requires t.IsOf(cfg) && t.Last().client == RequestCancel(ForCancel)
    ensures u.IsOf(cfg) && (Timely(t.run, t.steps) ==> Timely(u.run, u.steps))
    ensures u.Last() == var s := t.Last(); s.(client := Blocked(ForCancel), flags := s.flags.(cancel := true))
  {
    hide IsRun;
    u := Go(cfg, t, ByCall(StoreCancel));
  }

  lemma CancelPasses(cfg: Config, t: Trace) returns (u: Trace)
    requires t.IsOf(cfg) && t.Last().client == Blocked(ForCancel)
    requires if cfg.atomic then t.Last().events.completion else t.Last().worker == Signalling
    ensures u.IsOf(cfg) && (Timely(t.run, t.steps) ==> Timely(u.run, u.steps))
    ensures u.Last().client == Idle && u.Last().flags == t.Last().flags && u.Last().events.completion
  {
    hide IsRun;
    u := t;
    if !cfg.atomic {
      u := Go(cfg, u, ByProcess(SignalEnd));
    }
    u := Go(cfg, u, ByCall(Pass));
  }

  /** A cancel that answers OK need not end its ticket as CANCELLED, however the two writes are taken. */
  lemma CancelCanComeTooLate(cfg: Config) returns (t: Trace)
    ensures t.IsOf(cfg) && Timely(t.run, t.steps)
    ensures var s := t.Last();
            s.client == Idle && s.flags.cancel && s.flags.control == Held(Complete) && s.events.completion
  {
    hide IsRun, Can, Do, Timely;
    t := FirstTicket(cfg);
    t := ClientBeginsCancel(cfg, t);
    t := WorkerClaims(cfg, t);
    t := WorkerSucceeds(cfg, t);
    t := ClientStoresCancel(cfg, t);
    t := WorkerStores(cfg, t);
    t := CancelPasses(cfg, t);
  }
}
