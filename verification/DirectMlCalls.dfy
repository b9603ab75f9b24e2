/** Whole calls of the DirectML provider: where the client's steps lead, alone or with the worker's help. */
module DirectMlCalls {
  import opened Statuses
  import opened DirectMlHandoff
  import opened DirectMlRuns
  import opened DirectMlTraces
  import opened DirectMlCallers

  /** u goes on where t ends, the client takes just these steps, and u is timely if t is. */
  ghost predicate Continues(cfg: Config, t: Trace, u: Trace, c: seq<Step>) {
    && u.IsOf(cfg) && u.Extends(t) && ClientSteps(u.steps) == ClientSteps(t.steps) + c
    && (Timely(t.run, t.steps) ==> Timely(u.run, u.steps))
  }

  lemma ContinuesFurther(cfg: Config, t: Trace, u: Trace, v: Trace, c: seq<Step>, d: seq<Step>)
    requires Continues(cfg, t, u, c) && Continues(cfg, u, v, d)
    ensures Continues(cfg, t, v, c + d)
  {
    hide IsRun, Timely;
    ExtendsTransitively(t, u, v);
  }

  /** One step more, of either thread. */
  lemma On(cfg: Config, t: Trace, u: Trace, c: seq<Step>, step: Step, after: State) returns (v: Trace)
    requires Continues(cfg, t, u, c) && Steps(cfg, u.Last(), step, after)
    ensures v.run != [] && Continues(cfg, t, v, if step.ByWorker() then c else c + [step])
    ensures v.Last() == after
  {
    hide Can, Do, TimelyStep;
    v := Go(cfg, u, step);
    ExtendsTransitively(t, u, v);
    ClientStepsOfGo(u.steps, step);
    assert ClientSteps(t.steps) + c + [step] == ClientSteps(t.steps) + (c + [step]);
  }

  lemma Still(cfg: Config, t: Trace)
    requires t.IsOf(cfg)
    ensures Continues(cfg, t, t, [])
  {
    assert ClientSteps(t.steps) + [] == ClientSteps(t.steps);
  }

  lemma First(cfg: Config, t: Trace, step: Step, after: State) returns (v: Trace)
    requires t.IsOf(cfg) && Steps(cfg, t.Last(), step, after) && !step.ByWorker()
    ensures v.run != [] && Continues(cfg, t, v, [step]) && v.Last() == after
  {
    Still(cfg, t);
    v := On(cfg, t, t, [], step, after);
    assert [step] == [step];
  }

  lemma LastInv(cfg: Config, t: Trace)
    requires t.IsOf(cfg) && Timely(t.run, t.steps)
    ensures Inv(cfg, true, t.Last())
  {
    hide Inv, Can, Do;
    RunKeepsInvariant(cfg, t.run, t.steps, true, |t.run| - 1);
  }

  // ---------------------------------------------------------------- single steps of calls

  predicate Steps(cfg: Config, s: State, step: Step, after: State) {
    Can(cfg, s, step) && TimelyStep(s, step) && Do(cfg, s, step) == after
  }

  lemma CollectSteps(cfg: Config, s: State)
    ensures s.client == Idle && s.ticket.active && s.flags.control.Ended() ==>
              Steps(cfg, s, ByRelease(BeginCollect),
                    s.(client := if s.flags.control == Held(Complete) then Copying else Release))
    ensures s.client == Copying ==>
              Steps(cfg, s, ByRelease(CopyOut),
                    s.(client := Release,
                       past := s.past.(deliveries := s.past.deliveries
                                       + [Delivery(s.ticket.dispatch, s.ticket.output)])))
  {
  }

  lemma CancelSteps(cfg: Config, s: State)
    ensures s.client == Idle && s.ticket.active && s.flags.control.Pending() ==>
              Steps(cfg, s, ByCall(BeginCancel), s.(client := RequestCancel(ForCancel)))
    ensures s.client == Idle && s.ticket.active && cfg.resets ==>
              Steps(cfg, s, ByCall(BeginReset),
                    s.(client := if s.flags.control.Pending() then RequestCancel(ForReset) else Release))
    ensures s.client.RequestCancel? ==>
              Steps(cfg, s, ByCall(StoreCancel),
                    s.(flags := s.flags.(cancel := true), client := Blocked(s.client.purpose)))
  {
  }

  lemma PassSteps(cfg: Config, s: State)
    ensures s.client == Idle && s.ticket.active && s.flags.control.Pending() ==>
              Steps(cfg, s, ByCall(BeginWait), s.(client := Blocked(ForWait)))
    ensures s.client.Blocked? && s.events.completion ==>
              Steps(cfg, s, ByCall(Pass), s.(client := AfterEvent(s.client.purpose)))
    ensures s.client == Reload ==> Steps(cfg, s, ByCall(ReadAgain), s.(client := Reporting(s.flags.control)))
    ensures s.client == Idle && s.ticket.active && s.flags.control.Pending() ==>
              Steps(cfg, s, ByCall(BeginSynchronize), s.(client := Blocked(ForSynchronize)))
    ensures s.client == Idle && s.ticket.active ==>
              Steps(cfg, s, ByCall(BeginReport), s.(client := Reporting(s.flags.control)))
    ensures s.client.Reporting? ==> Steps(cfg, s, ByCall(Report), s.(client := Idle))
  {
  }

  // ---------------------------------------------------------------- freeing the slot

  /** The state in which a ticket has been released: as before it was submitted, but one generation later. */
  predicate Freed(s: State, after: State, delivered: seq<Delivery>) {
    && after.client == Idle && !after.ticket.active && after.flags.control == Empty
    && !after.flags.cancel && !after.events.completion
    && after.life == s.life.(generation := if s.life.generation == 0xFFFF_FFFF then 1 else s.life.generation + 1)
    && after.past.deliveries == s.past.deliveries + delivered
    && after.past.submitted == s.past.submitted
  }

  lemma FreedAllows(cfg: Config, s: State, after: State, delivered: seq<Delivery>)
    requires Freed(s, after, delivered) && s.life.context && s.life.generation != 0
    ensures Can(cfg, after, BySubmit(Submit)) && Can(cfg, after, ByLife(DestroyContext))
    ensures !DecodeHandle(MakeHandle(s.life.generation), after.life.generation)
  {
  }

  lemma HeldIsLive(cfg: Config, s: State)
    requires Inv(cfg, true, s) && s.ticket.active
    ensures s.life.context && s.life.generation != 0 && s.ticket.dispatch == s.past.submitted
  {
    hide SeenOk, WorkerOk, WakeOk, Contents, HistoryOk, DeliveriesOk;
    GenerationIsCount(Releases(s));
  }

  lemma FinishRelease(cfg: Config, t: Trace, u: Trace, c: seq<Step>) returns (v: Trace)
    requires Continues(cfg, t, u, c) && u.Last().client == Release
    ensures Continues(cfg, t, v, c + RELEASING)
    ensures v.Last() == Released(u.Last())
  {
    hide IsRun, NextGeneration, Timely;
    v := ClientReleases(cfg, u);
    ReleasingByClient(u.steps);
    assert Continues(cfg, u, v, RELEASING);
    ContinuesFurther(cfg, t, u, v, c, RELEASING);
  }

  lemma ReleasingByClient(steps: seq<Step>)
    ensures ClientSteps(steps + RELEASING) == ClientSteps(steps) + RELEASING
  {
    hide ClientSteps;
    var a := Appended(steps, RELEASING[0]);
    var b := Appended(a, RELEASING[1]);
    var c := Appended(b, RELEASING[2]);
    var d := Appended(c, RELEASING[3]);
    var e := Appended(d, RELEASING[4]);
    assert e == steps + RELEASING;
    assert ClientSteps(e) == ClientSteps(steps) + RELEASING;
  }

  lemma Appended(steps: seq<Step>, step: Step) returns (more: seq<Step>)
    requires !step.ByWorker()
    ensures more == steps + [step] && ClientSteps(more) == ClientSteps(steps) + [step]
  {
    more := steps + [step];
    ClientStepsOfGo(steps, step);
  }

  function CollectingSteps(complete: bool): seq<Step> {
    [ByRelease(BeginCollect)] + if complete then [ByRelease(CopyOut)] else []
  }

  /** What collect delivers: the submission's own bytes if it is COMPLETE, else nothing. */
  function Delivering(s: State): seq<Delivery> {
    if s.flags.control == Held(Complete) then [Delivery(s.past.submitted, s.past.submitted)] else []
  }

  lemma CollectReachesRelease(cfg: Config, t: Trace) returns (u: Trace)
    requires t.IsOf(cfg) && Timely(t.run, t.steps)
    requires t.Last().client == Idle && t.Last().ticket.active && t.Last().flags.control.Ended()
    ensures Continues(cfg, t, u, CollectingSteps(t.Last().flags.control == Held(Complete)))
    ensures u.Last() == var s := t.Last();
                        s.(client := Release, past := s.past.(deliveries := s.past.deliveries + Delivering(s)))
  {
    var s := t.Last();
    hide IsRun, Timely, Inv, Steps, Continues, Can, Do;
    LastInv(cfg, t);
    EndedOutput(cfg, s);
    CollectSteps(cfg, s);
    var complete := s.flags.control == Held(Complete);
    var r := s.(client := if complete then Copying else Release);
    var c := [ByRelease(BeginCollect)];
    u := First(cfg, t, ByRelease(BeginCollect), r);
    if complete {
      CollectSteps(cfg, r);
      u := On(cfg, t, u, c, ByRelease(CopyOut),
              s.(client := Release, past := s.past.(deliveries := s.past.deliveries + Delivering(s))));
    } else {
      assert s.past.deliveries + [] == s.past.deliveries;
    }
    assert CollectingSteps(complete) == if complete then c + [ByRelease(CopyOut)] else c;
  }

  /** collect frees the slot of a ticket that has ended, whether COMPLETE, CANCELLED or FAILED, by its own steps alone:
      the handle goes stale and the next submission is possible. It delivers bytes exactly for a COMPLETE ticket, and
      then those of its submission. */
  lemma CollectFrees(cfg: Config, t: Trace) returns (u: Trace)
    requires t.IsOf(cfg) && Timely(t.run, t.steps)
    requires t.Last().client == Idle && t.Last().ticket.active && t.Last().flags.control.Ended()
    ensures Continues(cfg, t, u, CollectingSteps(t.Last().flags.control == Held(Complete)) + RELEASING)
    ensures Freed(t.Last(), u.Last(), Delivering(t.Last()))
    ensures Can(cfg, u.Last(), BySubmit(Submit)) && Can(cfg, u.Last(), ByLife(DestroyContext))
    ensures !DecodeHandle(MakeHandle(t.Last().life.generation), u.Last().life.generation)
  {
    var s := t.Last();
    hide IsRun, Timely, Inv, Steps, Continues, Can, Do, CollectingSteps, Delivering, Freed, DecodeHandle,
         NextGeneration;
    LastInv(cfg, t);
    HeldIsLive(cfg, s);
    u := CollectReachesRelease(cfg, t);
    var r := u.Last();
    u := FinishRelease(cfg, t, u, CollectingSteps(s.flags.control == Held(Complete)));
    ReleasedIsFreed(s, r, Delivering(s));
    FreedAllows(cfg, s, u.Last(), Delivering(s));
  }

  /** The state after the five steps of release_ticket. */
  function Released(s: State): State {
    s.(client := Idle, ticket := NO_TICKET, flags := s.flags.(control := Empty, cancel := false),
       events := s.events.(completion := false),
       life := s.life.(generation := NextGeneration(s.life.generation)))
  }

  lemma ReleasedIsFreed(s: State, r: State, delivered: seq<Delivery>)
    requires r.life == s.life && r.past.submitted == s.past.submitted && s.life.generation != 0
    requires r.past.deliveries == s.past.deliveries + delivered
    ensures Freed(s, Released(r), delivered)
  {
  }

  lemma EndedOutput(cfg: Config, s: State)
    requires Inv(cfg, true, s) && s.ticket.active && s.flags.control.Ended()
    ensures s.ticket.dispatch == s.past.submitted
    ensures s.flags.control == Held(Complete) ==> s.ticket.output == s.past.submitted
  {
    hide SeenOk, LiveOk, WorkerOk, WakeOk, EventOk, SignalOk, CancelOk, Ledger;
  }

  // ---------------------------------------------------------------- calls that wait for the worker

  lemma WorkerLeaves(cfg: Config, s: State, step: Step)
    requires Inv(cfg, true, s) && HandedOver(s) && step.ByWorker() && Can(cfg, s, step)
    ensures var t := Do(cfg, s, step);
            && HandedOver(t) && t.client == s.client && t.life == s.life && t.flags.cancel == s.flags.cancel
            && t.ticket.dispatch == s.ticket.dispatch
            && t.past.deliveries == s.past.deliveries && t.past.submitted == s.past.submitted
  {
    hide SeenOk, WakeOk, Contents, Ledger;
  }

  /** The worker alone sees a handed-over ticket to its end and sets its event. */
  lemma WorkerEnds(cfg: Config, t: Trace, u: Trace, c: seq<Step>) returns (v: Trace)
    requires Continues(cfg, t, u, c) && Timely(t.run, t.steps) && HandedOver(u.Last())
    ensures v.run != [] && Continues(cfg, t, v, c) && HandedOver(v.Last())
    ensures v.Last().flags.control.Ended() && v.Last().events.completion
    ensures v.Last().client == u.Last().client && v.Last().life == u.Last().life
    ensures v.Last().flags.cancel == u.Last().flags.cancel && v.Last().ticket.dispatch == u.Last().ticket.dispatch
    ensures v.Last().past.deliveries == u.Last().past.deliveries && v.Last().past.submitted == u.Last().past.submitted
    decreases Remaining(u.Last())
  {
    hide IsRun, Timely, Inv, HandedOver, Can, Do, Distance;
    var s := u.Last();
    RemainingIs(s);
    v := u;
    if Remaining(s) > 0 {
      LastInv(cfg, u);
      WorkerCanMove(cfg, true, s);
      var step := NextStep(s.worker);
      WorkerProgress(cfg, true, s, step);
      WorkerLeaves(cfg, s, step);
      WorkerIsTimely(s, step);
      v := On(cfg, t, u, c, step, Do(cfg, s, step));
      v := WorkerEnds(cfg, t, v, c);
    }
  }

  lemma WorkerIsTimely(s: State, step: Step)
    requires step.ByWorker()
    ensures TimelyStep(s, step)
  {
  }

  /** cancel of a pending ticket comes back, with the worker's help alone, to an ended ticket that collect can take. */
  lemma CancelReturns(cfg: Config, t: Trace) returns (u: Trace)
    requires t.IsOf(cfg) && Timely(t.run, t.steps)
    requires t.Last().client == Idle && t.Last().ticket.active && t.Last().flags.control.Pending()
    ensures Continues(cfg, t, u, [ByCall(BeginCancel)] + [ByCall(StoreCancel)] + [ByCall(Pass)])
    ensures u.Last().client == Idle && u.Last().ticket.active && u.Last().flags.control.Ended()
    ensures u.Last().ticket.dispatch == t.Last().ticket.dispatch && u.Last().life == t.Last().life
  {
    var s := t.Last();
    hide IsRun, Timely, Inv, Steps, Continues, Can, Do, Distance;
    CancelSteps(cfg, s);
    u := First(cfg, t, ByCall(BeginCancel), s.(client := RequestCancel(ForCancel)));
    u := RequestEnds(cfg, t, u, [ByCall(BeginCancel)]);
  }

  /** From the request on: the flag is stored, the worker ends the ticket, and the event lets the client through. */
  lemma RequestEnds(cfg: Config, t: Trace, u: Trace, c: seq<Step>) returns (v: Trace)
    requires Continues(cfg, t, u, c) && Timely(t.run, t.steps)
    requires u.Last().client.RequestCancel? && u.Last().ticket.active && u.Last().flags.control.Held?
    ensures Continues(cfg, t, v, c + [ByCall(StoreCancel)] + [ByCall(Pass)])
    ensures v.Last().client == AfterEvent(u.Last().client.purpose)
    ensures v.Last().ticket.active && v.Last().flags.control.Ended() && v.Last().events.completion
    ensures v.Last().life == u.Last().life && v.Last().ticket.dispatch == u.Last().ticket.dispatch
    ensures v.Last().past.deliveries == u.Last().past.deliveries && v.Last().past.submitted == u.Last().past.submitted
  {
    var s := u.Last();
    hide IsRun, Timely, Inv, Steps, Continues, Can, Do, Distance;
    CancelSteps(cfg, s);
    v := On(cfg, t, u, c, ByCall(StoreCancel),
            s.(flags := s.flags.(cancel := true), client := Blocked(s.client.purpose)));
    v := WorkerEnds(cfg, t, v, c + [ByCall(StoreCancel)]);
    var e := v.Last();
    PassSteps(cfg, e);
    v := On(cfg, t, v, c + [ByCall(StoreCancel)], ByCall(Pass), e.(client := AfterEvent(s.client.purpose)));
  }

  /** wait on a pending ticket comes back, with the worker's help alone, and reports its final state. */
  lemma WaitReturns(cfg: Config, t: Trace) returns (u: Trace)
    requires t.IsOf(cfg) && Timely(t.run, t.steps)
    requires t.Last().client == Idle && t.Last().ticket.active && t.Last().flags.control.Pending()
    ensures Continues(cfg, t, u, [ByCall(BeginWait)] + [ByCall(Pass)] + [ByCall(ReadAgain)])
    ensures u.Last().client == Reporting(u.Last().flags.control) && u.Last().flags.control.Ended()
    ensures u.Last().ticket.active && u.Last().ticket.dispatch == t.Last().ticket.dispatch
    ensures u.Last().life == t.Last().life
  {
    var s := t.Last();
    hide IsRun, Timely, Inv, Steps, Continues, Can, Do, Distance;
    PassSteps(cfg, s);
    u := First(cfg, t, ByCall(BeginWait), s.(client := Blocked(ForWait)));
    u := WaitEnds(cfg, t, u, [ByCall(BeginWait)]);
  }

  lemma WaitEnds(cfg: Config, t: Trace, u: Trace, c: seq<Step>) returns (v: Trace)
    requires Continues(cfg, t, u, c) && Timely(t.run, t.steps)
    requires u.Last().client == Blocked(ForWait) && u.Last().ticket.active && u.Last().flags.control.Held?
    ensures Continues(cfg, t, v, c + [ByCall(Pass)] + [ByCall(ReadAgain)])
    ensures v.Last().client == Reporting(v.Last().flags.control) && v.Last().flags.control.Ended()
    ensures v.Last().ticket.active && v.Last().ticket.dispatch == u.Last().ticket.dispatch
    ensures v.Last().life == u.Last().life
  {
    hide IsRun, Timely, Inv, Steps, Continues, Can, Do, Distance;
    v := WorkerEnds(cfg, t, u, c);
    var e := v.Last();
    PassSteps(cfg, e);
    var r := e.(client := Reload);
    v := On(cfg, t, v, c, ByCall(Pass), r);
    PassSteps(cfg, r);
    v := On(cfg, t, v, c + [ByCall(Pass)], ByCall(ReadAgain), r.(client := Reporting(e.flags.control)));
  }

  /** synchronize on a pending ticket comes back, with the worker's help alone, and leaves the ended ticket in place. */
  lemma SynchronizeReturns(cfg: Config, t: Trace) returns (u: Trace)
    requires t.IsOf(cfg) && Timely(t.run, t.steps)
    requires t.Last().client == Idle && t.Last().ticket.active && t.Last().flags.control.Pending()
    ensures Continues(cfg, t, u, [ByCall(BeginSynchronize)] + [ByCall(Pass)])
    ensures u.Last().client == Idle && u.Last().flags.control.Ended()
    ensures u.Last().ticket.active && u.Last().ticket.dispatch == t.Last().ticket.dispatch
    ensures u.Last().life == t.Last().life
  {
    var s := t.Last();
    hide IsRun, Timely, Inv, Steps, Continues, Can, Do, Distance;
    PassSteps(cfg, s);
    u := First(cfg, t, ByCall(BeginSynchronize), s.(client := Blocked(ForSynchronize)));
    u := WorkerEnds(cfg, t, u, [ByCall(BeginSynchronize)]);
    var e := u.Last();
    PassSteps(cfg, e);
    u := On(cfg, t, u, [ByCall(BeginSynchronize)], ByCall(Pass), e.(client := Idle));
  }

  /** poll reads the state word, reports and changes nothing. */
  lemma PollReports(cfg: Config, t: Trace) returns (u: Trace, v: Trace)
    requires t.IsOf(cfg) && t.Last().client == Idle && t.Last().ticket.active
    ensures Continues(cfg, t, u, [ByCall(BeginReport)])
    ensures u.Last() == t.Last().(client := Reporting(t.Last().flags.control))
    ensures Continues(cfg, t, v, [ByCall(BeginReport)] + [ByCall(Report)]) && v.Last() == t.Last()
  {
    var s := t.Last();
    hide IsRun, Timely, Steps, Continues, Can, Do;
    PassSteps(cfg, s);
    var r := s.(client := Reporting(s.flags.control));
    u := First(cfg, t, ByCall(BeginReport), r);
    PassSteps(cfg, r);
    v := On(cfg, t, u, [ByCall(BeginReport)], ByCall(Report), r.(client := Idle));
    assert r.(client := Idle) == s;
  }

  function ResetSteps(pending: bool): seq<Step> {
    [ByCall(BeginReset)] + if pending then [ByCall(StoreCancel)] + [ByCall(Pass)] else []
  }

  lemma ResetReachesRelease(cfg: Config, t: Trace) returns (u: Trace)
    requires cfg.resets && t.IsOf(cfg) && Timely(t.run, t.steps)
    requires t.Last().client == Idle && t.Last().ticket.active
    ensures Continues(cfg, t, u, ResetSteps(t.Last().flags.control.Pending()))
    ensures u.Last().client == Release && u.Last().life == t.Last().life
    ensures u.Last().past.deliveries == t.Last().past.deliveries && u.Last().past.submitted == t.Last().past.submitted
  {
    var s := t.Last();
    hide IsRun, Timely, Inv, Steps, Continues, Can, Do, Distance;
    LastInv(cfg, t);
    IdleIsHeld(cfg, s);
    CancelSteps(cfg, s);
    var pending := s.flags.control.Pending();
    u := First(cfg, t, ByCall(BeginReset), s.(client := if pending then RequestCancel(ForReset) else Release));
    var c := [ByCall(BeginReset)];
    if pending {
      u := RequestEnds(cfg, t, u, c);
    }
    assert ResetSteps(pending) == if pending then c + [ByCall(StoreCancel)] + [ByCall(Pass)] else c;
  }

  /** reset frees the slot whatever state its ticket is in: by its own steps alone if the ticket has ended, else by
      requesting cancellation and with the worker's help. It delivers nothing. */
  lemma ResetFrees(cfg: Config, t: Trace) returns (u: Trace)
    requires cfg.resets && t.IsOf(cfg) && Timely(t.run, t.steps)
    requires t.Last().client == Idle && t.Last().ticket.active
    ensures Continues(cfg, t, u, ResetSteps(t.Last().flags.control.Pending()) + RELEASING)
    ensures Freed(t.Last(), u.Last(), [])
    ensures Can(cfg, u.Last(), BySubmit(Submit)) && Can(cfg, u.Last(), ByLife(DestroyContext))
    ensures !DecodeHandle(MakeHandle(t.Last().life.generation), u.Last().life.generation)
  {
    var s := t.Last();
    hide IsRun, Timely, Inv, Steps, Continues, Can, Do, ResetSteps, Freed, DecodeHandle, NextGeneration;
    LastInv(cfg, t);
    HeldIsLive(cfg, s);
    u := ResetReachesRelease(cfg, t);
    var r := u.Last();
    u := FinishRelease(cfg, t, u, ResetSteps(s.flags.control.Pending()));
    ReleasedIsFreed(s, r, []);
    FreedAllows(cfg, s, u.Last(), []);
  }

  lemma IdleIsHeld(cfg: Config, s: State)
    requires Inv(cfg, true, s) && s.client == Idle && s.ticket.active
    ensures s.flags.control.Held?
  {
    hide SeenOk, LiveOk, WorkerOk, WakeOk, Contents, Ledger;
  }

  /** Inside a call the client has one way on, unless it waits for an event or for a worker to start. */
  lemma OneWayOn(cfg: Config, s: State, a: Step, b: Step)
    requires Can(cfg, s, a) && Can(cfg, s, b) && !a.ByWorker() && !b.ByWorker()
    requires !s.client.Idle? && !s.client.Blocked? && !s.client.Starting?
    ensures a == b
  {
  }

  // ---------------------------------------------------------------- submitting and serving

  const SUBMITTING := FILLING + [BySubmit(SubmitResetEvent)] + [BySubmit(StoreQueued)] + [BySubmit(SignalCommand)]

  lemma SubmitSteps(cfg: Config, s: State)
    ensures s.client == Idle && s.life.context && !s.ticket.active ==>
              Steps(cfg, s, BySubmit(Submit),
                    s.(ticket := Ticket.Ticket(true, s.past.submitted + 1, 0, Ok),
                       past := s.past.(submitted := s.past.submitted + 1), client := SubmitCancel))
    ensures s.client == SubmitCancel ==>
              Steps(cfg, s, BySubmit(SubmitClearCancel), s.(flags := s.flags.(cancel := false), client := SubmitEvent))
    ensures s.client == SubmitEvent && !s.worker.Signalling? ==>
              Steps(cfg, s, BySubmit(SubmitResetEvent),
                    s.(events := s.events.(completion := false), client := SubmitControl))
    ensures s.client == SubmitControl ==>
              Steps(cfg, s, BySubmit(StoreQueued),
                    s.(flags := s.flags.(control := Held(Queued)), client := SubmitCommand))
    ensures s.client == SubmitCommand ==>
              Steps(cfg, s, BySubmit(SignalCommand), s.(events := s.events.(command := true), client := Idle))
  {
  }

  /** submit into a live context with an empty slot always succeeds, by the client's steps alone: the next submission
      is QUEUED, not cancelled, its event is not set and the worker is signalled. */
  lemma SubmitHandsOver(cfg: Config, t: Trace) returns (u: Trace)
    requires t.IsOf(cfg) && t.Last().client == Idle && t.Last().life.context && !t.Last().ticket.active
    requires !t.Last().worker.Signalling?
    ensures Continues(cfg, t, u, SUBMITTING)
    ensures u.Last() == var s := t.Last();
                        s.(ticket := Ticket.Ticket(true, s.past.submitted + 1, 0, Ok),
                           past := s.past.(submitted := s.past.submitted + 1),
                           flags := s.flags.(control := Held(Queued), cancel := false),
                           events := s.events.(command := true, completion := false))
    ensures HandedOver(u.Last())
  {
    var s := t.Last();
    hide IsRun, Timely, Steps, Continues, Can, Do;
    SubmitSteps(cfg, s);
    var a := s.(ticket := Ticket.Ticket(true, s.past.submitted + 1, 0, Ok),
                past := s.past.(submitted := s.past.submitted + 1), client := SubmitCancel);
    u := First(cfg, t, BySubmit(Submit), a);
    SubmitSteps(cfg, a);
    var b := a.(flags := a.flags.(cancel := false), client := SubmitEvent);
    u := On(cfg, t, u, [BySubmit(Submit)], BySubmit(SubmitClearCancel), b);
    assert [BySubmit(Submit)] + [BySubmit(SubmitClearCancel)] == FILLING;
    u := HandsOver(cfg, t, u, FILLING);
  }

  lemma HandsOver(cfg: Config, t: Trace, u: Trace, c: seq<Step>) returns (v: Trace)
    requires Continues(cfg, t, u, c) && u.Last().client == SubmitEvent && !u.Last().worker.Signalling?
    ensures Continues(cfg, t, v, c + [BySubmit(SubmitResetEvent)] + [BySubmit(StoreQueued)] + [BySubmit(SignalCommand)])
    ensures v.Last() == var s := u.Last();
                        s.(client := Idle, flags := s.flags.(control := Held(Queued)),
                           events := s.events.(command := true, completion := false))
  {
    var s := u.Last();
    hide IsRun, Timely, Steps, Continues, Can, Do;
    SubmitSteps(cfg, s);
    var a := s.(events := s.events.(completion := false), client := SubmitControl);
    v := On(cfg, t, u, c, BySubmit(SubmitResetEvent), a);
    SubmitSteps(cfg, a);
    var b := a.(flags := a.flags.(control := Held(Queued)), client := SubmitCommand);
    var d := c + [BySubmit(SubmitResetEvent)];
    v := On(cfg, t, v, d, BySubmit(StoreQueued), b);
    SubmitSteps(cfg, b);
    v := On(cfg, t, v, d + [BySubmit(StoreQueued)], BySubmit(SignalCommand),
            b.(events := b.events.(command := true), client := Idle));
  }

  lemma LoopSteps(cfg: Config, s: State)
    ensures s.worker == Listening && s.events.command ==>
              Steps(cfg, s, ByLoop(Wake), s.(events := s.events.(command := false), worker := Woken))
    ensures s.worker == Woken && !s.flags.stop ==> Steps(cfg, s, ByLoop(ReadStop), s.(worker := Checking))
    ensures s.worker == Checking && s.flags.control == Held(Queued) ==>
              Steps(cfg, s, ByLoop(ReadControl),
                    s.(worker := Claimed, past := s.past.(claimed := s.ticket.dispatch)))
  {
  }

  lemma WorkSteps(cfg: Config, s: State, outcome: Status)
    ensures s.worker == Claimed ==>
              Steps(cfg, s, ByProcess(StoreRunning),
                    s.(flags := s.flags.(control := Held(Running)), worker := FirstCheck,
                       past := s.past.(runs := s.past.runs + [s.ticket.dispatch])))
    ensures s.worker == FirstCheck ==>
              Steps(cfg, s, ByProcess(ReadCancel),
                    s.(worker := if s.flags.cancel then Finishing(TicketCancelled, Cancelled) else Working))
    ensures s.worker == Working ==>
              Steps(cfg, s, ByProcess(Work(outcome)),
                    s.(ticket := s.ticket.(output := if outcome == Ok then s.ticket.dispatch else s.ticket.output),
                       worker := SecondCheck(outcome)))
    ensures s.worker == SecondCheck(outcome) && !s.flags.cancel ==>
              Steps(cfg, s, ByProcess(ReadCancelAgain),
                    s.(worker := if outcome == Ok then Finishing(Complete, Ok) else Finishing(Failed, outcome)))
  {
  }

  lemma FinishSteps(cfg: Config, s: State)
    ensures s.worker.Finishing? ==>
              Steps(cfg, s, ByProcess(StoreResult),
                    s.(ticket := s.ticket.(result := s.worker.result),
                       worker := Storing(s.worker.end, s.worker.result)))
    ensures s.worker.Storing? ==>
              Steps(cfg, s, ByProcess(StoreEnd),
                    s.(flags := s.flags.(control := Held(s.worker.end)),
                       events := s.events.(completion := cfg.atomic || s.events.completion),
                       worker := if cfg.atomic then Listening else Signalling,
                       past := s.past.(ends := s.past.ends + [Ended(s.past.claimed, s.worker.end)],
                                       signalFor := if cfg.atomic then s.past.claimed else s.past.signalFor)))
    ensures s.worker == Signalling ==>
              Steps(cfg, s, ByProcess(SignalEnd),
                    s.(events := s.events.(completion := true), past := s.past.(signalFor := s.past.claimed),
                       worker := Listening))
  {
  }

  /** What serving a queued ticket makes of it, when the GPU work answers `outcome`: a request to cancel that stood
      already wins; else success is COMPLETE with the submission's bytes, and a failure is FAILED with that result. */
  predicate ServedAs(s: State, after: State, outcome: Status) {
    && after.client == s.client && after.life == s.life && after.worker == Listening && after.events.completion
    && after.flags.cancel == s.flags.cancel && !after.flags.stop && after.ticket.active == s.ticket.active
    && after.ticket.dispatch == s.ticket.dispatch
    && after.past.submitted == s.past.submitted && after.past.deliveries == s.past.deliveries
    && (if s.flags.cancel then
          after.flags.control == Held(TicketCancelled) && after.ticket.result == Cancelled
          && after.ticket.output == s.ticket.output
        else if outcome == Ok then
          after.flags.control == Held(Complete) && after.ticket.result == Ok
          && after.ticket.output == s.ticket.dispatch
        else
          after.flags.control == Held(Failed) && after.ticket.result == outcome
          && after.ticket.output == s.ticket.output)
  }

  lemma WorkerTakes(cfg: Config, t: Trace, u: Trace, c: seq<Step>) returns (v: Trace)
    requires Continues(cfg, t, u, c)
    requires u.Last().worker == Listening && u.Last().events.command && !u.Last().flags.stop
    requires u.Last().flags.control == Held(Queued)
    ensures Continues(cfg, t, v, c)
    ensures v.Last() == var s := u.Last();
                        s.(worker := FirstCheck, flags := s.flags.(control := Held(Running)),
                           events := s.events.(command := false),
                           past := s.past.(claimed := s.ticket.dispatch, runs := s.past.runs + [s.ticket.dispatch]))
  {
    var s := u.Last();
    hide IsRun, Timely, Steps, Continues, Can, Do;
    LoopSteps(cfg, s);
    var a := s.(events := s.events.(command := false), worker := Woken);
    v := On(cfg, t, u, c, ByLoop(Wake), a);
    LoopSteps(cfg, a);
    v := On(cfg, t, v, c, ByLoop(ReadStop), a.(worker := Checking));
    LoopSteps(cfg, a.(worker := Checking));
    var b := a.(worker := Claimed, past := a.past.(claimed := a.ticket.dispatch));
    v := On(cfg, t, v, c, ByLoop(ReadControl), b);
    WorkSteps(cfg, b, Ok);
    v := On(cfg, t, v, c, ByProcess(StoreRunning),
            b.(flags := b.flags.(control := Held(Running)), worker := FirstCheck,
               past := b.past.(runs := b.past.runs + [b.ticket.dispatch])));
  }

  lemma WorkerWorks(cfg: Config, t: Trace, u: Trace, c: seq<Step>, outcome: Status) returns (v: Trace)
    requires Continues(cfg, t, u, c) && u.Last().worker == FirstCheck
    ensures Continues(cfg, t, v, c)
    ensures v.Last() == var s := u.Last();
                        var done := !s.flags.cancel && outcome == Ok;
                        s.(worker := if s.flags.cancel then Finishing(TicketCancelled, Cancelled)
                                     else if outcome == Ok then Finishing(Complete, Ok)
                                     else Finishing(Failed, outcome),
                           ticket := s.ticket.(output := if done then s.ticket.dispatch else s.ticket.output))
  {
    var s := u.Last();
    hide IsRun, Timely, Steps, Continues, Can, Do;
    WorkSteps(cfg, s, outcome);
    var a := s.(worker := if s.flags.cancel then Finishing(TicketCancelled, Cancelled) else Working);
    v := On(cfg, t, u, c, ByProcess(ReadCancel), a);
    if !s.flags.cancel {
      WorkSteps(cfg, a, outcome);
      var b := a.(ticket := a.ticket.(output := if outcome == Ok then a.ticket.dispatch else a.ticket.output),
                  worker := SecondCheck(outcome));
      v := On(cfg, t, v, c, ByProcess(Work(outcome)), b);
      WorkSteps(cfg, b, outcome);
      v := On(cfg, t, v, c, ByProcess(ReadCancelAgain),
              b.(worker := if outcome == Ok then Finishing(Complete, Ok) else Finishing(Failed, outcome)));
    }
  }

  lemma WorkerFinishes(cfg: Config, t: Trace, u: Trace, c: seq<Step>) returns (v: Trace)
    requires Continues(cfg, t, u, c) && u.Last().worker.Finishing?
    ensures Continues(cfg, t, v, c)
    ensures v.Last() == var s := u.Last();
                        s.(worker := Listening, ticket := s.ticket.(result := s.worker.result),
                           flags := s.flags.(control := Held(s.worker.end)),
                           events := s.events.(completion := true),
                           past := s.past.(ends := s.past.ends + [Ended(s.past.claimed, s.worker.end)],
                                           signalFor := s.past.claimed))
  {
    var s := u.Last();
    hide IsRun, Timely, Steps, Continues, Can, Do;
    FinishSteps(cfg, s);
    var a := s.(ticket := s.ticket.(result := s.worker.result), worker := Storing(s.worker.end, s.worker.result));
    v := On(cfg, t, u, c, ByProcess(StoreResult), a);
    FinishSteps(cfg, a);
    var b := a.(flags := a.flags.(control := Held(s.worker.end)),
                events := a.events.(completion := cfg.atomic || a.events.completion),
                worker := if cfg.atomic then Listening else Signalling,
                past := a.past.(ends := a.past.ends + [Ended(a.past.claimed, s.worker.end)],
                                signalFor := if cfg.atomic then a.past.claimed else a.past.signalFor));
    v := On(cfg, t, v, c, ByProcess(StoreEnd), b);
    if !cfg.atomic {
      FinishSteps(cfg, b);
      v := On(cfg, t, v, c, ByProcess(SignalEnd),
              b.(events := b.events.(completion := true), past := b.past.(signalFor := b.past.claimed),
                 worker := Listening));
    }
  }

  /** The worker alone takes up a queued ticket and ends it as its work and the cancel flag say. */
  lemma WorkerServes(cfg: Config, t: Trace, u: Trace, c: seq<Step>, outcome: Status) returns (v: Trace)
    requires Continues(cfg, t, u, c)
    requires u.Last().worker == Listening && u.Last().events.command && !u.Last().flags.stop
    requires u.Last().flags.control == Held(Queued)
    ensures Continues(cfg, t, v, c) && ServedAs(u.Last(), v.Last(), outcome)
  {
    hide IsRun, Timely, Continues;
    v := WorkerTakes(cfg, t, u, c);
    v := WorkerWorks(cfg, t, v, c, outcome);
    v := WorkerFinishes(cfg, t, v, c);
  }

  // ---------------------------------------------------------------- contexts begin and end

  lemma WorkerKeepsJoin(cfg: Config, s: State, step: Step)
    requires Inv(cfg, true, s) && s.client.Joining? && step.ByWorker() && Can(cfg, s, step)
    ensures var t := Do(cfg, s, step);
            t.client == s.client && t.ticket == s.ticket && t.past.submitted == s.past.submitted
            && t.life.generation == s.life.generation && t.life.model == s.life.model
            && t.life.context == s.life.context
  {
    hide SeenOk, WakeOk, Contents, Ledger;
  }

  /** A worker that is told to stop comes to its exit by its own steps. */
  lemma WorkerExits(cfg: Config, t: Trace, u: Trace, c: seq<Step>) returns (v: Trace)
    requires Continues(cfg, t, u, c) && Timely(t.run, t.steps) && u.Last().client.Joining?
    ensures Continues(cfg, t, v, c) && v.Last().worker.Exited? && v.Last().client == u.Last().client
    ensures v.Last().ticket == u.Last().ticket && v.Last().past.submitted == u.Last().past.submitted
    ensures v.Last().life.generation == u.Last().life.generation && v.Last().life.model == u.Last().life.model
    ensures v.Last().life.context == u.Last().life.context
    decreases UntilExit(u.Last().worker)
  {
    var s := u.Last();
    hide IsRun, Timely, Inv, Can, Do, Continues, Distance;
    v := u;
    if !s.worker.Exited? {
      ContinuesTimely(cfg, t, u, c);
      LastInv(cfg, u);
      WorkerCanMove(cfg, true, s);
      var step := NextStep(s.worker);
      StopIsSeen(cfg, true, s, step);
      WorkerKeepsJoin(cfg, s, step);
      WorkerIsTimely(s, step);
      v := On(cfg, t, u, c, step, Do(cfg, s, step));
      v := WorkerExits(cfg, t, v, c);
    }
  }

  lemma ContinuesTimely(cfg: Config, t: Trace, u: Trace, c: seq<Step>)
    requires Continues(cfg, t, u, c) && Timely(t.run, t.steps)
    ensures u.IsOf(cfg) && Timely(u.run, u.steps)
  {
  }

  lemma StopSteps(cfg: Config, s: State)
    ensures s.client == Idle && s.life.context && !s.ticket.active ==>
              Steps(cfg, s, ByLife(DestroyContext), s.(client := StopFlag(true)))
    ensures s.client.StopFlag? ==>
              Steps(cfg, s, ByLife(StoreStop),
                    s.(flags := s.flags.(stop := true), client := StopCommand(s.client.retire)))
    ensures s.client.StopCommand? ==>
              Steps(cfg, s, ByLife(SignalStop),
                    s.(events := s.events.(command := true), client := Joining(s.client.retire)))
    ensures s.client.Joining? && s.worker.Exited? ==>
              Steps(cfg, s, ByLife(Join), s.(worker := NoWorker, client := StopDone(s.client.retire)))
    ensures s.client.StopDone? ==>
              Steps(cfg, s, ByLife(ClearStop),
                    s.(flags := s.flags.(stop := false), client := Idle,
                       life := s.life.(context := s.life.context && !s.client.retire)))
  {
  }

  /** stop_worker comes back, with the worker's help alone. */
  lemma StopReturns(cfg: Config, t: Trace, u: Trace, c: seq<Step>) returns (v: Trace)
    requires Continues(cfg, t, u, c) && Timely(t.run, t.steps) && u.Last().client.StopFlag?
    ensures Continues(cfg, t, v, c + [ByLife(StoreStop)] + [ByLife(SignalStop)] + [ByLife(Join)] + [ByLife(ClearStop)])
    ensures v.Last().client == Idle && v.Last().worker == NoWorker && !v.Last().flags.stop
    ensures v.Last().ticket == u.Last().ticket && v.Last().past.submitted == u.Last().past.submitted
    ensures v.Last().life.context == (u.Last().life.context && !u.Last().client.retire)
    ensures v.Last().life.model == u.Last().life.model && v.Last().life.generation == u.Last().life.generation
  {
    var s := u.Last();
    hide IsRun, Timely, Inv, Steps, Continues, Can, Do;
    StopSteps(cfg, s);
    var a := s.(flags := s.flags.(stop := true), client := StopCommand(s.client.retire));
    v := On(cfg, t, u, c, ByLife(StoreStop), a);
    StopSteps(cfg, a);
    var d := c + [ByLife(StoreStop)];
    v := On(cfg, t, v, d, ByLife(SignalStop),
            a.(events := a.events.(command := true), client := Joining(s.client.retire)));
    d := d + [ByLife(SignalStop)];
    v := WorkerExits(cfg, t, v, d);
    var e := v.Last();
    StopSteps(cfg, e);
    var f := e.(worker := NoWorker, client := StopDone(s.client.retire));
    v := On(cfg, t, v, d, ByLife(Join), f);
    StopSteps(cfg, f);
    v := On(cfg, t, v, d + [ByLife(Join)], ByLife(ClearStop),
            f.(flags := f.flags.(stop := false), client := Idle,
               life := f.life.(context := f.life.context && !s.client.retire)));
  }

  /** destroy_context of a context without a ticket comes back, with the worker's help alone, to where no worker runs,
      a context can be created again and the model can be destroyed. */
  lemma ContextEnds(cfg: Config, t: Trace) returns (u: Trace)
    requires t.IsOf(cfg) && Timely(t.run, t.steps)
    requires t.Last().client == Idle && t.Last().life.context && !t.Last().ticket.active
    ensures Continues(cfg, t, u, [ByLife(DestroyContext)] + [ByLife(StoreStop)] + [ByLife(SignalStop)]
                                 + [ByLife(Join)] + [ByLife(ClearStop)])
    ensures u.Last().client == Idle && u.Last().worker == NoWorker && !u.Last().life.context
    ensures Can(cfg, u.Last(), ByLife(CreateContext)) && Can(cfg, u.Last(), ByLife(DestroyModel))
  {
    var s := t.Last();
    hide IsRun, Timely, Inv, Steps, Continues, Do;
    LastInv(cfg, t);
    LiveModel(cfg, s);
    StopSteps(cfg, s);
    u := First(cfg, t, ByLife(DestroyContext), s.(client := StopFlag(true)));
    u := StopReturns(cfg, t, u, [ByLife(DestroyContext)]);
  }

  lemma LiveModel(cfg: Config, s: State)
    requires Inv(cfg, true, s) && s.life.context
    ensures s.life.model
  {
    hide SeenOk, WorkerOk, WakeOk, Contents, Ledger;
  }

  lemma StartSteps(cfg: Config, s: State, ok: bool)
    ensures s.client == Idle && s.life.model && !s.life.context ==>
              Steps(cfg, s, ByLife(CreateContext),
                    s.(events := s.events.(ready := false), worker := Booting, client := Starting))
    ensures s.worker == Booting ==>
              Steps(cfg, s, ByLoop(Boot(ok)),
                    s.(events := s.events.(ready := true), life := s.life.(startedOk := ok),
                       worker := if ok then Listening else Exited))
    ensures s.client == Starting && s.events.ready && s.life.startedOk ==>
              Steps(cfg, s, ByLife(ContextReady), s.(life := s.life.(context := true), client := Idle))
    ensures s.client == Starting ==> Steps(cfg, s, ByLife(GiveUp), s.(client := StopFlag(false)))
  {
  }

  lemma IdleAllows(cfg: Config, s: State)
    requires s.client == Idle && !s.ticket.active
    ensures s.life.context ==> Can(cfg, s, BySubmit(Submit)) && Can(cfg, s, ByLife(DestroyContext))
    ensures s.life.model && !s.life.context ==> Can(cfg, s, ByLife(CreateContext)) && Can(cfg, s, ByLife(DestroyModel))
  {
  }

  lemma WorkerBoots(cfg: Config, t: Trace, ok: bool) returns (u: Trace)
    requires t.IsOf(cfg) && t.Last().client == Idle && t.Last().life.model && !t.Last().life.context
    ensures Continues(cfg, t, u, [ByLife(CreateContext)])
    ensures u.Last() == var s := t.Last();
                        s.(events := s.events.(ready := true), life := s.life.(startedOk := ok), client := Starting,
                           worker := if ok then Listening else Exited)
  {
    var s := t.Last();
    hide IsRun, Timely, Steps, Continues, Can, Do;
    StartSteps(cfg, s, ok);
    var a := s.(events := s.events.(ready := false), worker := Booting, client := Starting);
    u := First(cfg, t, ByLife(CreateContext), a);
    StartSteps(cfg, a, ok);
    u := On(cfg, t, u, [ByLife(CreateContext)], ByLoop(Boot(ok)),
            a.(events := a.events.(ready := true), life := a.life.(startedOk := ok),
               worker := if ok then Listening else Exited));
  }

  /** create_context comes back with a live context and a listening worker if the worker starts. */
  lemma ContextBegins(cfg: Config, t: Trace) returns (u: Trace)
    requires t.IsOf(cfg)
    requires t.Last().client == Idle && t.Last().life.model && !t.Last().life.context && !t.Last().ticket.active
    ensures Continues(cfg, t, u, [ByLife(CreateContext)] + [ByLife(ContextReady)])
    ensures u.Last().client == Idle && u.Last().life.context && u.Last().worker == Listening
    ensures Can(cfg, u.Last(), BySubmit(Submit))
  {
    hide Timely, Steps, Can, Do;
    u := WorkerBoots(cfg, t, true);
    var b := u.Last();
    StartSteps(cfg, b, true);
    u := On(cfg, t, u, [ByLife(CreateContext)], ByLife(ContextReady),
            b.(life := b.life.(context := true), client := Idle));
    IdleAllows(cfg, u.Last());
  }

  /** It comes back with neither, ready to be tried again, if the worker does not start. */
  lemma ContextGivesUp(cfg: Config, t: Trace) returns (u: Trace)
    requires t.IsOf(cfg) && Timely(t.run, t.steps)
    requires t.Last().client == Idle && t.Last().life.model && !t.Last().life.context && !t.Last().ticket.active
    ensures Continues(cfg, t, u, [ByLife(CreateContext)] + [ByLife(GiveUp)] + [ByLife(StoreStop)]
                                 + [ByLife(SignalStop)] + [ByLife(Join)] + [ByLife(ClearStop)])
    ensures u.Last().client == Idle && !u.Last().life.context && u.Last().worker == NoWorker
    ensures Can(cfg, u.Last(), ByLife(CreateContext))
  {
    hide Timely, Steps, Can, Do;
    u := WorkerBoots(cfg, t, false);
    var b := u.Last();
    StartSteps(cfg, b, false);
    var c := [ByLife(CreateContext)];
    u := On(cfg, t, u, c, ByLife(GiveUp), b.(client := StopFlag(false)));
    u := StopReturns(cfg, t, u, c + [ByLife(GiveUp)]);
    IdleAllows(cfg, u.Last());
  }

  /** A model that no context uses can be destroyed, and then created anew, in one step each. */
  lemma ModelComesAndGoes(cfg: Config, s: State)
    requires s.client == Idle && !s.life.context && !s.ticket.active
    ensures s.life.model ==> Steps(cfg, s, ByLife(DestroyModel), s.(life := s.life.(model := false)))
    ensures !s.life.model ==> Steps(cfg, s, ByLife(CreateModel), s.(life := s.life.(model := true)))
  {
  }

  /** A wait or synchronize that times out leaves everything as it is; wait reports a pending state. */
  lemma TimesOut(cfg: Config, s: State)
    requires s.client.Blocked? && (s.client.purpose.ForWait? || s.client.purpose.ForSynchronize?)
    ensures s.client.purpose.ForSynchronize? ==> Steps(cfg, s, ByCall(TimeOut), s.(client := Idle))
    ensures s.client.purpose.ForWait? ==>
              exists seen: Control :: seen.Pending() && Steps(cfg, s, ByCall(TimeOut), s.(client := Reporting(seen)))
  {
    if s.client.purpose.ForWait? {
      assert Steps(cfg, s, ByCall(TimeOut), s.(client := Reporting(Held(Queued))));
    }
  }

  /** Which calls a client outside of any call can go into, exactly; the others are refused. */
  lemma IdleCallsExactly(cfg: Config, s: State)
    requires s.client == Idle
    ensures Can(cfg, s, ByLife(CreateModel)) <==> !s.life.model
    ensures Can(cfg, s, ByLife(DestroyModel)) <==> s.life.model && !s.life.context && !s.ticket.active
    ensures Can(cfg, s, ByLife(CreateContext)) <==> s.life.model && !s.life.context
    ensures Can(cfg, s, ByLife(DestroyContext)) <==> s.life.context && !s.ticket.active
    ensures Can(cfg, s, BySubmit(Submit)) <==> s.life.context && !s.ticket.active
    ensures Can(cfg, s, ByCall(BeginReport)) <==> s.ticket.active
    ensures Can(cfg, s, ByCall(BeginWait)) <==> s.ticket.active && s.flags.control.Pending()
    ensures Can(cfg, s, ByCall(BeginSynchronize)) <==> s.ticket.active && s.flags.control.Pending()
    ensures Can(cfg, s, ByCall(BeginCancel)) <==> s.ticket.active && s.flags.control.Pending()
    ensures Can(cfg, s, ByCall(BeginReset)) <==> cfg.resets && s.ticket.active
    ensures Can(cfg, s, ByRelease(BeginCollect)) <==> s.ticket.active && s.flags.control.Ended()
    ensures forall step: Step | Can(cfg, s, step) && !step.ByWorker() ::
              step in {ByLife(CreateModel), ByLife(DestroyModel), ByLife(CreateContext), ByLife(DestroyContext),
                       BySubmit(Submit), ByCall(BeginReport), ByCall(BeginWait), ByCall(BeginSynchronize),
                       ByCall(BeginCancel), ByCall(BeginReset), ByRelease(BeginCollect)}
  {
  }
}
