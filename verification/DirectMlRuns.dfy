/** What holds in every run of the DirectML hand-off. */
module DirectMlRuns {
  import opened Statuses
  import opened DirectMlHandoff

  /** The invariant holds in every state of every run, however the threads interleave. Runs with resets must
      be timely. */
  lemma {:induction false} RunKeepsInvariant(cfg: Config, run: seq<State>, steps: seq<Step>, timely: bool, i: nat)
    requires (cfg.resets ==> timely) && (timely ==> Timely(run, steps))
    requires IsRun(cfg, run, steps) && i < |run|
    ensures Inv(cfg, timely, run[i])
  {
    hide Inv, Can, Do, TimelyStep;
    if i == 0 {
      InitialInv(cfg, timely);
    } else {
      RunKeepsInvariant(cfg, run, steps, timely, i - 1);
      StepKeeps(cfg, timely, run[i - 1], steps[i - 1]);
    }
  }

  /** With the final store and its signal in one step every run is timely. */
  lemma AtomicRunsAreTimely(cfg: Config, run: seq<State>, steps: seq<Step>)
    requires cfg.atomic && IsRun(cfg, run, steps)
    ensures Timely(run, steps)
  {
    hide Can, Do;
    forall i | 0 <= i < |steps| ensures TimelyStep(run[i], steps[i]) {
      NeverSignalling(cfg, run, steps, i);
    }
  }

  lemma {:induction false} NeverSignalling(cfg: Config, run: seq<State>, steps: seq<Step>, i: nat)
    requires cfg.atomic && IsRun(cfg, run, steps) && i < |run|
    ensures !run[i].worker.Signalling?
  {
    hide Can, Do;
    if i > 0 {
      NeverSignalling(cfg, run, steps, i - 1);
      NoSignallingStep(cfg, run[i - 1], steps[i - 1]);
    }
  }

  lemma NoSignallingStep(cfg: Config, s: State, step: Step)
    requires cfg.atomic && !s.worker.Signalling? && Can(cfg, s, step)
    ensures !Do(cfg, s, step).worker.Signalling?
  {
  }

  // ---------------------------------------------------------------- when the event can be trusted

  /** Whoever is let through by the completion event finds the ticket ended, and a ticket is only released after the
      worker has let go of it. */
  predicate Right(s: State) {
    && (s.client.Blocked? && s.events.completion ==> s.ticket.active && s.flags.control.Ended())
    && (s.client.Reload? ==> s.flags.control.Ended())
    && (s.client.Release? || s.client.Cleared() ==> !s.worker.Owns() && !s.flags.control.Pending())
  }

  lemma InvIsRight(cfg: Config, s: State)
    requires Inv(cfg, true, s)
    ensures Right(s)
  {
    hide Ledger, LiveOk, WakeOk, DataOk, CancelOk;
  }

  /** In a timely run wait, synchronize, cancel and reset are let through only when their ticket has ended, and
      release_ticket never runs while the worker is inside the ticket: with the two writes of complete as two
      steps just as with one, and with resets. */
  lemma TimelyRunsAreRight(cfg: Config, run: seq<State>, steps: seq<Step>, i: nat)
    requires IsRun(cfg, run, steps) && Timely(run, steps) && i < |run|
    ensures Right(run[i])
  {
    hide Inv, Right;
    RunKeepsInvariant(cfg, run, steps, true, i);
    InvIsRight(cfg, run[i]);
  }

  /** With the two writes as one step this holds of every run. */
  lemma AtomicRunsAreRight(cfg: Config, run: seq<State>, steps: seq<Step>, i: nat)
    requires cfg.atomic && IsRun(cfg, run, steps) && i < |run|
    ensures Right(run[i])
  {
    AtomicRunsAreTimely(cfg, run, steps);
    TimelyRunsAreRight(cfg, run, steps, i);
  }

  // ---------------------------------------------------------------- releasing with the event set

  /** Tickets are released only when their completion event is set. No call of the provider reveals the event, so
      this is a condition on runs and not yet a rule that a caller could follow. */
  ghost predicate Patient(run: seq<State>, steps: seq<Step>) {
    |run| == |steps| + 1
    && forall i | 0 <= i < |steps| && steps[i] == ByRelease(ClearTicket) :: run[i].events.completion
  }

  /** An event still owed is owed to the ticket in the slot. */
  predicate OwedToSlot(s: State) {
    s.worker.Signalling? ==> s.ticket.active && s.flags.control.Ended() && !s.events.completion
  }

  lemma OwedStep(cfg: Config, s: State, step: Step)
    requires Inv(cfg, true, s) && OwedToSlot(s) && Can(cfg, s, step)
    requires step == ByRelease(ClearTicket) ==> s.events.completion
    ensures TimelyStep(s, step) && OwedToSlot(Do(cfg, s, step))
  {
    hide LiveOk, WakeOk, SignalOk, CancelOk, DataOk, Ledger;
  }

  lemma {:induction false} PatientUpTo(cfg: Config, run: seq<State>, steps: seq<Step>, n: nat)
    requires IsRun(cfg, run, steps) && Patient(run, steps) && n <= |steps|
    ensures forall i | 0 <= i < n :: TimelyStep(run[i], steps[i])
    ensures Inv(cfg, true, run[n]) && OwedToSlot(run[n])
  {
    hide Inv, Can, Do, TimelyStep, OwedToSlot;
    if n == 0 {
      InitialInv(cfg, true);
      NothingOwed();
    } else {
      PatientUpTo(cfg, run, steps, n - 1);
      OwedStep(cfg, run[n - 1], steps[n - 1]);
      StepKeeps(cfg, true, run[n - 1], steps[n - 1]);
      assert run[n - 1 + 1] == Do(cfg, run[n - 1], steps[n - 1]);
    }
  }

  lemma NothingOwed()
    ensures OwedToSlot(Initial())
  {
  }

  /** Runs in which every ticket is released with its event set are timely. */
  lemma PatientRunsAreTimely(cfg: Config, run: seq<State>, steps: seq<Step>)
    requires IsRun(cfg, run, steps) && Patient(run, steps)
    ensures Timely(run, steps)
  {
    hide Can, Do;
    PatientUpTo(cfg, run, steps, |steps|);
  }

  /** The completion event and the state word disagree only when the event was last set for an earlier submission:
      a signal for the present one means that it has ended. */
  lemma EarlyEventIsLateSignal(cfg: Config, run: seq<State>, steps: seq<Step>, i: nat)
    requires cfg.resets ==> Timely(run, steps)
    requires IsRun(cfg, run, steps) && i < |run| && run[i].ticket.active
    ensures var s := run[i];
            && s.past.signalFor <= s.ticket.dispatch
            && (s.past.signalFor == s.ticket.dispatch ==> s.flags.control.Ended())
            && (s.events.completion && s.flags.control.Pending() ==> s.past.signalFor < s.ticket.dispatch)
  {
    hide Ledger, LiveOk, WakeOk, DataOk, CancelOk, EventOk;
    RunKeepsInvariant(cfg, run, steps, Timely(run, steps), i);
  }

  // ---------------------------------------------------------------- each submission

  /** The worker reads and writes the slot only between the QUEUED store and the final store of one submission, the one
      it claimed. Meanwhile the client neither fills, copies out, nor releases the slot, and reads its result and
      output size only to report a pending state. */
  lemma WorkerOwnsItsSubmission(cfg: Config, run: seq<State>, steps: seq<Step>, i: nat)
    requires cfg.resets ==> Timely(run, steps)
    requires IsRun(cfg, run, steps) && i < |run| && run[i].worker.Owns()
    ensures var s := run[i];
            && s.ticket.active && s.ticket.dispatch == s.past.claimed == s.past.submitted && s.flags.control.Pending()
            && |s.past.ends| == s.past.submitted - 1
            && |s.past.runs| == s.past.submitted - (if s.worker.Claimed? then 1 else 0)
            && !s.client.Filling() && !s.client.Copying? && !s.client.Release? && !s.client.Cleared()
            && (s.client.Reporting? ==> s.client.seen.Pending())
  {
    hide LiveOk, WakeOk, Contents, DeliveriesOk, GenerationOk;
    RunKeepsInvariant(cfg, run, steps, Timely(run, steps), i);
  }

  /** Submissions are started and ended in the order they were made, each exactly once: none is skipped, none is
      repeated, and a slot is only freed for the next one when its own has ended. */
  lemma EachSubmissionOnce(cfg: Config, run: seq<State>, steps: seq<Step>, i: nat)
    requires cfg.resets ==> Timely(run, steps)
    requires IsRun(cfg, run, steps) && i < |run|
    ensures var h := run[i].past;
            && h.submitted - 1 <= |h.ends| <= |h.runs| <= h.submitted
            && (!run[i].ticket.active || run[i].flags.control.Ended() ==> |h.ends| == h.submitted)
            && (forall k | 0 <= k < |h.runs| :: h.runs[k] == k + 1)
            && (forall k | 0 <= k < |h.ends| :: h.ends[k].id == k + 1 && h.ends[k].state.Terminal())
  {
    hide LiveOk, WorkerOk, WakeOk, Contents, GenerationOk, DeliveriesOk;
    RunKeepsInvariant(cfg, run, steps, Timely(run, steps), i);
  }

  /** collect copies bytes only after COMPLETE was stored for the submission it collects, the bytes are that
      submission's packet, and no submission is copied out twice. */
  lemma DeliveriesAreComplete(cfg: Config, run: seq<State>, steps: seq<Step>, i: nat)
    requires cfg.resets ==> Timely(run, steps)
    requires IsRun(cfg, run, steps) && i < |run|
    ensures var h := run[i].past;
            && (forall k | 0 <= k < |h.deliveries| ::
                  var d := h.deliveries[k];
                  1 <= d.id <= |h.ends| && h.ends[d.id - 1] == Ended(d.id, Complete) && d.bytesOf == d.id)
            && (forall k | 0 <= k < |h.deliveries| - 1 :: h.deliveries[k].id < h.deliveries[k + 1].id)
    ensures var s := run[i];
            s.client.Copying? ==> 0 < |s.past.ends| == s.ticket.dispatch == s.ticket.output
                                  && s.past.ends[s.ticket.dispatch - 1] == Ended(s.ticket.dispatch, Complete)
  {
    hide LiveOk, WorkerOk, WakeOk, EventOk, SignalOk, CancelOk, GenerationOk;
    RunKeepsInvariant(cfg, run, steps, Timely(run, steps), i);
    var h := run[i].past;
    forall k | 0 <= k < |h.deliveries| ensures Delivered(h, h.deliveries[k]) {
    }
  }

  /** A ticket ends CANCELLED only if its cancellation was requested, COMPLETE exactly if its packet was written and
      its result is OK. */
  lemma EndsAsItShould(cfg: Config, run: seq<State>, steps: seq<Step>, i: nat)
    requires cfg.resets ==> Timely(run, steps)
    requires IsRun(cfg, run, steps) && i < |run| && run[i].ticket.active && run[i].flags.control.Ended()
    ensures var s := run[i];
            && (s.flags.control.state == TicketCancelled ==>
                  s.flags.cancel && s.ticket.result == Cancelled && s.ticket.output == 0)
            && (s.flags.control.state == Complete <==> s.ticket.result == Ok)
            && (s.flags.control.state == Complete <==> s.ticket.output == s.ticket.dispatch)
  {
    hide LiveOk, WorkerOk, WakeOk, EventOk, SignalOk, CancelOk, Ledger;
    RunKeepsInvariant(cfg, run, steps, Timely(run, steps), i);
  }

  /** A final state that poll or wait reports is the ticket's state for good, and the result and size reported with it
      are the ones it ended with. */
  lemma ReportsAreFinal(cfg: Config, run: seq<State>, steps: seq<Step>, i: nat)
    requires cfg.resets ==> Timely(run, steps)
    requires IsRun(cfg, run, steps) && i < |run| && run[i].client.Reporting? && run[i].client.seen.Ended()
    ensures var s := run[i];
            && s.ticket.active && s.flags.control == s.client.seen && !s.worker.Owns()
            && |s.past.ends| == s.ticket.dispatch > 0
            && s.past.ends[s.ticket.dispatch - 1] == Ended(s.ticket.dispatch, s.client.seen.state)
            && (s.client.seen.state == Complete <==> s.ticket.result == Ok)
            && s.ticket.output == if s.client.seen.state == Complete then s.ticket.dispatch else 0
  {
    hide LiveOk, WakeOk, EventOk, SignalOk, CancelOk, GenerationOk, DeliveriesOk;
    RunKeepsInvariant(cfg, run, steps, Timely(run, steps), i);
  }

  /** A ticket is active only under a live context, a context is live only under a live model, and only a live
      context has a worker that serves tickets once no call is starting or stopping one. */
  lemma LiveFlagsNest(cfg: Config, run: seq<State>, steps: seq<Step>, i: nat)
    requires cfg.resets ==> Timely(run, steps)
    requires IsRun(cfg, run, steps) && i < |run|
    ensures var s := run[i];
            && (s.ticket.active ==> s.life.context) && (s.life.context ==> s.life.model)
            && (s.client.Idle?
                ==> (s.life.context <==> s.worker.Serving()) && (!s.life.context <==> s.worker.NoWorker?))
  {
    hide WorkerOk, WakeOk, Contents, Ledger;
    RunKeepsInvariant(cfg, run, steps, Timely(run, steps), i);
  }

  /** The handle that submit returned for submission n matches while submission m is in the slot exactly when
      m - n is a multiple of 2^32 - 1: a released handle stays stale for a whole cycle. */
  lemma HandleNamesItsSubmission(cfg: Config, run: seq<State>, steps: seq<Step>, i: nat, j: nat)
    requires cfg.resets ==> Timely(run, steps)
    requires IsRun(cfg, run, steps) && i < |run| && j < |run| && run[i].ticket.active && run[j].ticket.active
    ensures DecodeHandle(MakeHandle(run[i].life.generation), run[j].life.generation)
       <==> (run[j].ticket.dispatch - run[i].ticket.dispatch) % CYCLE == 0
  {
    hide GenerationAfter, LiveOk, WorkerOk, WakeOk, Contents, DeliveriesOk, HistoryOk;
    RunKeepsInvariant(cfg, run, steps, Timely(run, steps), i);
    RunKeepsInvariant(cfg, run, steps, Timely(run, steps), j);
    HandleMatchesGeneration(run[i].life.generation, run[j].life.generation);
    GenerationsAreOneCycle(run[i].ticket.dispatch - 1, run[j].ticket.dispatch - 1);
    GenerationIsCount(run[j].ticket.dispatch - 1);
  }

  // ---------------------------------------------------------------- cancelling

  /** The ticket is bound to end CANCELLED, or already has. */
  predicate Doomed(s: State) {
    s.flags.control == Held(TicketCancelled)
    || (s.flags.control.Pending() && (s.worker.Decided() ==> s.worker.end == TicketCancelled))
  }

  /** It is not settled yet how the ticket will end. */
  predicate Undecided(s: State) { s.flags.control.Pending() && !s.worker.Decided() }

  lemma RequestDooms(cfg: Config, s: State, step: Step)
    requires Inv(cfg, true, s) && step == ByCall(StoreCancel) && Can(cfg, s, step)
    ensures Do(cfg, s, step).flags.cancel && (Doomed(Do(cfg, s, step)) <==> Undecided(s))
  {
    hide LiveOk, WakeOk, EventOk, SignalOk, Ledger;
  }

  /** While the caller waits its request stays up, and no step changes which way the ticket goes. */
  lemma FateStands(cfg: Config, s: State, step: Step)
    requires Inv(cfg, true, s) && s.client.Blocked? && s.flags.cancel && Can(cfg, s, step)
    requires Do(cfg, s, step).client.Blocked?
    ensures Do(cfg, s, step).flags.cancel && (Doomed(Do(cfg, s, step)) <==> Doomed(s))
  {
    hide LiveOk, WakeOk, EventOk, SignalOk, Ledger;
  }

  lemma {:induction false} FateStandsOn(cfg: Config, run: seq<State>, steps: seq<Step>, i: nat, j: nat)
    requires IsRun(cfg, run, steps) && Timely(run, steps) && i < j < |run| && steps[i] == ByCall(StoreCancel)
    requires forall k | i < k <= j :: run[k].client.Blocked?
    ensures run[j].flags.cancel && (Doomed(run[j]) <==> Undecided(run[i]))
    decreases j
  {
    hide Inv, Can, Do, Doomed, Undecided;
    RunKeepsInvariant(cfg, run, steps, true, j - 1);
    assert run[j - 1 + 1] == Do(cfg, run[j - 1], steps[j - 1]);
    if j == i + 1 {
      RequestDooms(cfg, run[i], steps[i]);
    } else {
      FateStandsOn(cfg, run, steps, i, j - 1);
      FateStands(cfg, run[j - 1], steps[j - 1]);
    }
  }

  /** When a cancel, or a reset, that stored its request in step i is let through in state j, its ticket has ended,
      and CANCELLED exactly if the worker had not yet settled the outcome when the request was stored. So an answer
      of OK means a cancelled ticket exactly when the request came before the worker's last look at the flag. */
  lemma CancelEndsCancelledExactly(cfg: Config, run: seq<State>, steps: seq<Step>, i: nat, j: nat)
    requires IsRun(cfg, run, steps) && Timely(run, steps) && i < j < |run| && steps[i] == ByCall(StoreCancel)
    requires forall k | i < k <= j :: run[k].client.Blocked?
    requires run[j].events.completion
    ensures run[j].flags.control.Ended()
    ensures run[j].flags.control == Held(TicketCancelled) <==> Undecided(run[i])
  {
    hide Can, Do;
    FateStandsOn(cfg, run, steps, i, j);
    TimelyRunsAreRight(cfg, run, steps, j);
  }

  // ---------------------------------------------------------------- no wakeup is lost

  /** A submission that the client has finished handing over. */
  predicate HandedOver(s: State) { s.ticket.active && s.flags.control.Held? && !s.client.SubmitCommand? }

  /** How far the worker's next steps are from the final store of a ticket that waits for it. */
  function Distance(w: Worker): nat {
    match w
    case Storing(_, _) => 2
    case Finishing(_, _) => 3
    case SecondCheck(_) => 4
    case Working => 5
    case FirstCheck => 6
    case Claimed => 7
    case Checking => 8
    case Woken => 9
    case Listening => 10
    case Signalling => 11
    case _ => 12
  }

  /** How many steps of the worker until the ticket has ended and its event is set. */
  function Remaining(s: State): nat {
    if s.flags.control.Ended() then (if s.events.completion then 0 else 1) else Distance(s.worker)
  }

  function NextStep(w: Worker): Step {
    match w
    case NoWorker | Exited | Listening => ByLoop(Wake)
    case Booting => ByLoop(Boot(true))
    case Woken => ByLoop(ReadStop)
    case Checking => ByLoop(ReadControl)
    case Claimed => ByProcess(StoreRunning)
    case FirstCheck => ByProcess(ReadCancel)
    case Working => ByProcess(Work(Ok))
    case SecondCheck(_) => ByProcess(ReadCancelAgain)
    case Finishing(_, _) => ByProcess(StoreResult)
    case Storing(_, _) => ByProcess(StoreEnd)
    case Signalling => ByProcess(SignalEnd)
  }

  lemma EndedHasSignal(cfg: Config, timely: bool, s: State)
    requires Inv(cfg, timely, s) && s.flags.control.Ended() && !s.events.completion
    ensures s.worker.Signalling?
  {
    hide Threads, Ledger, SignalOk, CancelOk, DataOk;
  }

  /** No deadlock: when the client waits for an event, for a starting worker or for a stopping one, and what it waits
      for has not happened, then the worker can take a step. A handed-over ticket never waits for the client. */
  lemma WorkerCanMove(cfg: Config, timely: bool, s: State)
    requires Inv(cfg, timely, s)
    requires (HandedOver(s) && Remaining(s) > 0) || (s.client.Blocked? && !s.events.completion)
             || (s.client.Joining? && !s.worker.Exited?) || (s.client.Starting? && !s.events.ready)
    ensures NextStep(s.worker).ByWorker() && Can(cfg, s, NextStep(s.worker))
  {
    hide Contents, Ledger;
    if s.flags.control.Ended() && !s.events.completion {
      EndedHasSignal(cfg, timely, s);
    }
  }

  lemma HandedOverIsServed(cfg: Config, timely: bool, s: State)
    requires Inv(cfg, timely, s) && HandedOver(s)
    ensures Distance(s.worker) <= 11 && s.worker.Serving() && !s.flags.stop
    ensures s.worker.Decided() ==> s.worker.end.Terminal()
    ensures s.life.context && s.life.model && !s.client.Starting? && !s.client.Stopping()
  {
    hide WakeOk, Contents, Ledger;
  }

  /** Each step of the worker brings a handed-over ticket nearer its end. */
  lemma LoopProgress(cfg: Config, timely: bool, s: State, step: LoopStep)
    requires Inv(cfg, timely, s) && HandedOver(s) && s.flags.control.Pending() && LoopCan(s, step)
    ensures LoopDo(s, step).flags == s.flags && Distance(LoopDo(s, step).worker) < Distance(s.worker)
  {
    hide SeenOk, LiveOk, WakeOk, Contents, Ledger;
    HandedOverIsServed(cfg, timely, s);
  }

  lemma ProcessProgress(cfg: Config, timely: bool, s: State, step: ProcessStep)
    requires Inv(cfg, timely, s) && HandedOver(s) && s.flags.control.Pending() && ProcessCan(s, step)
    ensures var t := ProcessDo(cfg, s, step);
            if step.StoreEnd? then t.flags.control.Ended()
            else t.flags.control.Pending() && Distance(t.worker) < Distance(s.worker)
  {
    hide SeenOk, LiveOk, WakeOk, Contents, Ledger;
  }

  /** What is left once the final state is stored is its signal. */
  lemma EndedProgress(cfg: Config, timely: bool, s: State, step: Step)
    requires Inv(cfg, timely, s) && HandedOver(s) && s.flags.control.Ended() && step.ByWorker() && Can(cfg, s, step)
    ensures var t := Do(cfg, s, step);
            t.flags.control == s.flags.control && t.events.completion
  {
    hide SeenOk, LiveOk, WakeOk, Contents, Ledger;
    if !s.events.completion {
      EndedHasSignal(cfg, timely, s);
    }
  }

  lemma WorkerProgress(cfg: Config, timely: bool, s: State, step: Step)
    requires Inv(cfg, timely, s) && HandedOver(s) && step.ByWorker() && Can(cfg, s, step)
    ensures Remaining(Do(cfg, s, step)) < Remaining(s) || Remaining(Do(cfg, s, step)) == 0
  {
    hide Inv, HandedOver, Distance, LoopCan, LoopDo, ProcessCan, ProcessDo;
    AtLeastTwo(s.worker);
    if s.flags.control.Ended() {
      EndedProgress(cfg, timely, s, step);
    } else {
      PendingThen(s);
      match step
      case ByLoop(w) => LoopProgress(cfg, timely, s, w);
      case ByProcess(p) => ProcessProgress(cfg, timely, s, p);
    }
  }

  lemma PendingThen(s: State)
    requires HandedOver(s) && !s.flags.control.Ended()
    ensures s.flags.control.Pending()
  {
  }

  lemma AtLeastTwo(w: Worker)
    ensures Distance(w) >= 2
  {
  }

  /** No step of the client concerns the worker, nor the state word or the event of a ticket it holds. */
  lemma LifeLeaves(cfg: Config, timely: bool, s: State, step: LifeStep)
    requires Inv(cfg, timely, s) && HandedOver(s)
    ensures !LifeCan(s, step)
  {
    hide Inv, Distance;
    HandedOverIsServed(cfg, timely, s);
  }

  lemma SubmitLeaves(cfg: Config, timely: bool, s: State, step: SubmitStep)
    requires Inv(cfg, timely, s) && HandedOver(s)
    ensures !SubmitCan(s, step)
  {
    hide SeenOk, LiveOk, WorkerOk, WakeOk, Contents, Ledger;
  }

  lemma CallLeaves(cfg: Config, s: State, step: CallStep)
    requires CallCan(cfg, s, step)
    ensures var t := CallDo(cfg, s, step);
            t.worker == s.worker && t.flags.control == s.flags.control && t.events == s.events
  {
  }

  lemma ReleaseLeaves(cfg: Config, timely: bool, s: State, step: ReleaseStep)
    requires Inv(cfg, timely, s) && HandedOver(s) && ReleaseCan(s, step)
    ensures var t := ReleaseDo(s, step);
            t.worker == s.worker && t.flags.control == s.flags.control && t.events == s.events
  {
    hide SeenOk, LiveOk, WorkerOk, WakeOk, Contents, Ledger, NextGeneration;
  }

  function WorkerSteps(steps: seq<Step>): nat {
    if steps == [] then 0 else WorkerSteps(steps[..|steps| - 1]) + if steps[|steps| - 1].ByWorker() then 1 else 0
  }

  lemma OneStepNearer(cfg: Config, timely: bool, s: State, step: Step)
    requires Inv(cfg, timely, s) && HandedOver(s) && Can(cfg, s, step)
    ensures Remaining(Do(cfg, s, step)) == 0
            || Remaining(Do(cfg, s, step)) + (if step.ByWorker() then 1 else 0) <= Remaining(s)
  {
    hide Inv, Distance, HandedOver, LifeCan, SubmitCan, CallCan, ReleaseCan, LoopCan, ProcessCan,
         LifeDo, SubmitDo, CallDo, ReleaseDo, LoopDo, ProcessDo;
    match step
    case ByLife(l) => LifeLeaves(cfg, timely, s, l);
    case BySubmit(b) => SubmitLeaves(cfg, timely, s, b);
    case ByCall(c) => CallLeaves(cfg, s, c);
    case ByRelease(r) => ReleaseLeaves(cfg, timely, s, r);
    case ByLoop(w) => WorkerProgress(cfg, timely, s, step);
    case ByProcess(p) => WorkerProgress(cfg, timely, s, step);
  }

  /** No wakeup is lost: from the moment a ticket is handed over, eleven steps of the worker, however the client's
      steps fall between them, see it ended with its event set. */
  lemma {:induction false} EndsWithinElevenSteps(cfg: Config, run: seq<State>, steps: seq<Step>, i: nat, j: nat)
    requires cfg.resets ==> Timely(run, steps)
    requires IsRun(cfg, run, steps) && i <= j < |run|
    requires forall k | i <= k <= j :: HandedOver(run[k])
    ensures Remaining(run[j]) == 0 || Remaining(run[j]) + WorkerSteps(steps[i..j]) <= Remaining(run[i]) <= 11
    ensures WorkerSteps(steps[i..j]) >= 11 ==> run[j].flags.control.Ended() && run[j].events.completion
    decreases j
  {
    hide Can, Do, HandedOver, Inv, Remaining, Distance;
    var timely := Timely(run, steps);
    RunKeepsInvariant(cfg, run, steps, timely, i);
    HandedOverIsServed(cfg, timely, run[i]);
    RemainingIs(run[i]);
    if i < j {
      EndsWithinElevenSteps(cfg, run, steps, i, j - 1);
      RunKeepsInvariant(cfg, run, steps, timely, j - 1);
      assert steps[i..j][..j - i - 1] == steps[i..j - 1];
      assert run[j - 1 + 1] == Do(cfg, run[j - 1], steps[j - 1]);
      OneStepNearer(cfg, timely, run[j - 1], steps[j - 1]);
    }
    RemainingIs(run[j]);
  }

  lemma RemainingIs(s: State)
    ensures Remaining(s) == 0 <==> s.flags.control.Ended() && s.events.completion
    ensures Remaining(s) <= 1 || Remaining(s) == Distance(s.worker)
  {
    AtLeastTwo(s.worker);
  }

  /** A worker that is told to stop exits within three of its own steps. */
  function UntilExit(w: Worker): nat {
    match w
    case Exited => 0
    case Woken => 1
    case Listening => 2
    case _ => 3
  }

  lemma StopIsSeen(cfg: Config, timely: bool, s: State, step: Step)
    requires Inv(cfg, timely, s) && s.client.Joining? && step.ByWorker() && Can(cfg, s, step)
    ensures Do(cfg, s, step).client == s.client && UntilExit(Do(cfg, s, step).worker) < UntilExit(s.worker)
  {
    hide SeenOk, WakeOk, Contents, Ledger;
    assert s.flags.stop && !s.worker.Owns() && s.flags.control.Empty?;
  }
}
