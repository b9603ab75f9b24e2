/** The hand-off between a client thread and the worker thread of the DirectML provider. They share one
    ticket slot, an atomic state word, a cancel flag, an auto-reset command event and a manual-reset completion
    event. Every shared access is a step of its own and the two threads' steps interleave freely. */
module DirectMlHandoff {
  import opened Statuses

  /** `atomic`: storing the final state and setting the completion event is one step.
      `resets`: the client calls `reset`. */
  datatype Config = Config(atomic: bool, resets: bool)

  /** The state word: 0 when there is no ticket. */
  datatype Control = Empty | Held(state: TicketState) {
    predicate Pending() { Held? && state.Pending() }
    predicate Ended() { Held? && state.Terminal() }
  }

  datatype Purpose = ForWait | ForSynchronize | ForCancel | ForReset

  /** Where the client is inside its current call. `Reporting`: it has read the state word and is about to read
      the ticket's result and output size. */
  datatype Client =
    | Idle
    | Starting
    | StopFlag(retire: bool) | StopCommand(retire: bool) | Joining(retire: bool) | StopDone(retire: bool)
    | SubmitCancel | SubmitEvent | SubmitControl | SubmitCommand
    | RequestCancel(purpose: Purpose) | Blocked(purpose: Purpose) | Reload | Reporting(seen: Control)
    | Copying | Release | ReleaseCancel | ReleaseControl | ReleaseEvent | Advance
  {
    predicate Filling() { SubmitCancel? || SubmitEvent? || SubmitControl? }
    predicate Stopping() { StopFlag? || StopCommand? || Joining? || StopDone? }
    predicate Cleared() { ReleaseCancel? || ReleaseControl? || ReleaseEvent? || Advance? }
    predicate UsesTicket() {
      RequestCancel? || Blocked? || Reload? || Reporting? || Copying? || Release? || SubmitCommand?
    }
  }

  datatype Worker =
    | NoWorker | Booting | Listening | Woken | Checking
    | Claimed | FirstCheck | Working | SecondCheck(outcome: Status)
    | Finishing(end: TicketState, result: Status) | Storing(end: TicketState, result: Status)
    | Signalling | Exited
  {
    /** The worker may read or write the ticket. */
    predicate Owns() { Claimed? || FirstCheck? || Working? || SecondCheck? || Finishing? || Storing? }
    predicate Serving() { !NoWorker? && !Booting? && !Exited? }
    /** It is settled how the ticket will end. */
    predicate Decided() { Finishing? || Storing? }
  }

  /** The slot. Submissions are numbered from 1; `dispatch` is the number of the one in the slot, `output` that of
      the one whose packet the bytes are, 0 for none. */
  datatype Ticket = Ticket(active: bool, dispatch: nat, output: nat, result: Status)

  datatype Flags = Flags(control: Control, cancel: bool, stop: bool)
  datatype Events = Events(command: bool, completion: bool, ready: bool)
  datatype Life = Life(model: bool, context: bool, startedOk: bool, generation: U32)

  datatype Ended = Ended(id: nat, state: TicketState)
  datatype Delivery = Delivery(id: nat, bytesOf: nat)

  /** A record of what has happened, which no step looks at: the number of submissions, the one the worker claimed
      last, the one the completion event was last set for, and what was started, ended and copied out, in order. */
  datatype Past = Past(submitted: nat, claimed: nat, signalFor: nat,
                       runs: seq<nat>, ends: seq<Ended>, deliveries: seq<Delivery>)

  datatype State = State(
    client: Client, worker: Worker, ticket: Ticket, flags: Flags, events: Events, life: Life, past: Past)

  // ---------------------------------------------------------------- generations

  function NextGeneration(value: U32): (next: U32)
    ensures next != 0
  {
    var raised := (value + 1) % U32_LIMIT;
    if raised == 0 then 1 else raised
  }

  const CYCLE := 0xFFFF_FFFF

  /** The generation after n releases. */
  function GenerationAfter(n: nat): U32 {
    if n == 0 then 1 else NextGeneration(GenerationAfter(n - 1))
  }

  lemma NextGenerationCounts(value: U32)
    requires value != 0
    ensures NextGeneration(value) == if value == CYCLE then 1 else value + 1
  {
  }

  lemma NextRemainder(n: nat)
    ensures (n + 1) % CYCLE == if n % CYCLE == CYCLE - 1 then 0 else n % CYCLE + 1
  {
  }

  lemma {:induction false} GenerationIsCount(n: nat)
    ensures GenerationAfter(n) == n % CYCLE + 1
  {
    if n > 0 {
      GenerationIsCount(n - 1);
      NextGenerationCounts(GenerationAfter(n - 1));
      NextRemainder(n - 1);
    }
  }

  lemma SameRemainder(n: nat, m: nat, d: nat)
    requires d > 0
    ensures n % d == m % d <==> (m - n) % d == 0
  {
    assert n == d * (n / d) + n % d && m == d * (m / d) + m % d;
    var q := m / d - n / d;
    assert m - n == d * q + (m % d - n % d);
    MultipleBetween(m - n, d, q, m % d - n % d);
  }

  lemma TimesIsFar(d: int, k: int)
    requires d > 0
    ensures k >= 1 ==> d * k >= d
    ensures k <= -2 ==> d * k <= -2 * d
  {
  }

  /** The only multiple of d within d of zero is zero. */
  lemma MultipleBetween(v: int, d: int, q: int, rest: int)
    requires d > 0 && v == d * q + rest && -d < rest < d
    ensures v % d == 0 <==> rest == 0
  {
    var w := v / d;
    assert v == d * w + v % d;
    var k := w - q;
    assert d * k == d * w - d * q;
    assert d * k == rest - v % d;
    TimesIsFar(d, k);
  }

  /** The generations run once through all nonzero 32-bit values before they repeat: two of them agree exactly
      when the number of releases between them is a multiple of 2^32 - 1. */
  lemma GenerationsAreOneCycle(n: nat, m: nat)
    ensures GenerationAfter(n) == GenerationAfter(m) <==> (m - n) % CYCLE == 0
  {
    GenerationIsCount(n);
    GenerationIsCount(m);
    SameRemainder(n, m, CYCLE);
  }

  /** Every nonzero value is the generation at some point of the cycle. */
  lemma EveryGenerationOccurs(value: U32) returns (n: nat)
    requires value != 0
    ensures n < CYCLE && GenerationAfter(n) == value
  {
    n := value - 1;
    GenerationIsCount(n);
  }

  const SLOT := 1

  function MakeHandle(generation: U32): nat { generation * U32_LIMIT + SLOT }

  predicate DecodeHandle(handle: nat, generation: U32) {
    handle % U32_LIMIT == SLOT && handle / U32_LIMIT == generation && generation != 0
  }

  lemma HandleMatchesGeneration(a: U32, b: U32)
    ensures DecodeHandle(MakeHandle(a), b) <==> a == b && b != 0
  {
  }

  // ---------------------------------------------------------------- steps

  const NO_TICKET := Ticket.Ticket(false, 0, 0, Ok)

  function Initial(): State {
    State.State(Idle, NoWorker, NO_TICKET, Flags(Empty, false, false), Events(false, false, false),
                Life(false, false, true, 1), Past(0, 0, 0, [], [], []))
  }

  /** create_model, destroy_model, create_context, destroy_context, stop_worker */
  datatype LifeStep =
    | CreateModel | DestroyModel | CreateContext | ContextReady | GiveUp | DestroyContext
    | StoreStop | SignalStop | Join | ClearStop

  /** submit */
  datatype SubmitStep = Submit | SubmitClearCancel | SubmitResetEvent | StoreQueued | SignalCommand

  /** poll, wait, synchronize, cancel, reset */
  datatype CallStep =
    | BeginReport | Report | BeginWait | BeginSynchronize | BeginCancel | BeginReset
    | StoreCancel | TimeOut | Pass | ReadAgain

  /** collect, release_ticket */
  datatype ReleaseStep =
    | BeginCollect | CopyOut | ClearTicket | ReleaseClearCancel | StoreEmpty | ReleaseResetEvent | AdvanceGeneration

  /** worker_loop */
  datatype LoopStep = Boot(ok: bool) | Wake | ReadStop | ReadControl

  /** process_ticket, complete */
  datatype ProcessStep =
    | StoreRunning | ReadCancel | Work(outcome: Status) | ReadCancelAgain | StoreResult | StoreEnd | SignalEnd

  datatype Step =
    | ByLife(l: LifeStep) | BySubmit(b: SubmitStep) | ByCall(c: CallStep) | ByRelease(r: ReleaseStep)
    | ByLoop(w: LoopStep) | ByProcess(p: ProcessStep)
  {
    predicate ByWorker() { ByLoop? || ByProcess? }
  }

  predicate LifeCan(s: State, step: LifeStep) {
    match step
    case CreateModel => s.client.Idle? && !s.life.model
    case DestroyModel => s.client.Idle? && s.life.model && !s.life.context && !s.ticket.active
    case CreateContext => s.client.Idle? && s.life.model && !s.life.context
    case ContextReady => s.client.Starting? && s.events.ready && s.life.startedOk
    case GiveUp => s.client.Starting?
    case DestroyContext => s.client.Idle? && s.life.context && !s.ticket.active
    case StoreStop => s.client.StopFlag?
    case SignalStop => s.client.StopCommand?
    case Join => s.client.Joining? && s.worker.Exited?
    case ClearStop => s.client.StopDone?
  }

  function LifeDo(s: State, step: LifeStep): State
    requires LifeCan(s, step)
  {
    match step
    case CreateModel => s.(life := s.life.(model := true))
    case DestroyModel => s.(life := s.life.(model := false))
    case CreateContext => s.(events := s.events.(ready := false), worker := Booting, client := Starting)
    case ContextReady => s.(life := s.life.(context := true), client := Idle)
    case GiveUp => s.(client := StopFlag(false))
    case DestroyContext => s.(client := StopFlag(true))
    case StoreStop => s.(flags := s.flags.(stop := true), client := StopCommand(s.client.retire))
    case SignalStop => s.(events := s.events.(command := true), client := Joining(s.client.retire))
    case Join => s.(worker := NoWorker, client := StopDone(s.client.retire))
    case ClearStop =>
      s.(flags := s.flags.(stop := false), client := Idle,
         life := s.life.(context := s.life.context && !s.client.retire))
  }

  predicate SubmitCan(s: State, step: SubmitStep) {
    match step
    case Submit => s.client.Idle? && s.life.context && !s.ticket.active
    case SubmitClearCancel => s.client.SubmitCancel?
    case SubmitResetEvent => s.client.SubmitEvent?
    case StoreQueued => s.client.SubmitControl?
    case SignalCommand => s.client.SubmitCommand?
  }

  function SubmitDo(s: State, step: SubmitStep): State
    requires SubmitCan(s, step)
  {
    match step
    case Submit =>
      s.(ticket := Ticket.Ticket(true, s.past.submitted + 1, 0, Ok),
         past := s.past.(submitted := s.past.submitted + 1), client := SubmitCancel)
    case SubmitClearCancel => s.(flags := s.flags.(cancel := false), client := SubmitEvent)
    case SubmitResetEvent => s.(events := s.events.(completion := false), client := SubmitControl)
    case StoreQueued => s.(flags := s.flags.(control := Held(Queued)), client := SubmitCommand)
    case SignalCommand => s.(events := s.events.(command := true), client := Idle)
  }

  predicate CallCan(cfg: Config, s: State, step: CallStep) {
    match step
    case BeginReport => s.client.Idle? && s.ticket.active
    case Report => s.client.Reporting?
    case BeginWait => s.client.Idle? && s.ticket.active && s.flags.control.Pending()
    case BeginSynchronize => s.client.Idle? && s.ticket.active && s.flags.control.Pending()
    case BeginCancel => s.client.Idle? && s.ticket.active && s.flags.control.Pending()
    case BeginReset => cfg.resets && s.client.Idle? && s.ticket.active
    case StoreCancel => s.client.RequestCancel?
    case TimeOut => s.client.Blocked? && (s.client.purpose.ForWait? || s.client.purpose.ForSynchronize?)
    case Pass => s.client.Blocked? && s.events.completion
    case ReadAgain => s.client.Reload?
  }

  /** What a call does once its event has let it through. A wait that times out reports the pending state it saw. */
  function AfterEvent(purpose: Purpose): Client {
    match purpose
    case ForWait => Reload
    case ForSynchronize | ForCancel => Idle
    case ForReset => Release
  }

  function CallDo(cfg: Config, s: State, step: CallStep): State
    requires CallCan(cfg, s, step)
  {
    match step
    case BeginReport => s.(client := Reporting(s.flags.control))
    case Report => s.(client := Idle)
    case BeginWait => s.(client := Blocked(ForWait))
    case BeginSynchronize => s.(client := Blocked(ForSynchronize))
    case BeginCancel => s.(client := RequestCancel(ForCancel))
    case BeginReset => s.(client := if s.flags.control.Pending() then RequestCancel(ForReset) else Release)
    case StoreCancel => s.(flags := s.flags.(cancel := true), client := Blocked(s.client.purpose))
    case TimeOut => s.(client := if s.client.purpose.ForWait? then Reporting(Held(Queued)) else Idle)
    case Pass => s.(client := AfterEvent(s.client.purpose))
    case ReadAgain => s.(client := Reporting(s.flags.control))
  }

  predicate ReleaseCan(s: State, step: ReleaseStep) {
    match step
    case BeginCollect => s.client.Idle? && s.ticket.active && s.flags.control.Ended()
    case CopyOut => s.client.Copying?
    case ClearTicket => s.client.Release?
    case ReleaseClearCancel => s.client.ReleaseCancel?
    case StoreEmpty => s.client.ReleaseControl?
    case ReleaseResetEvent => s.client.ReleaseEvent?
    case AdvanceGeneration => s.client.Advance?
  }

  function ReleaseDo(s: State, step: ReleaseStep): State
    requires ReleaseCan(s, step)
  {
    match step
    case BeginCollect => s.(client := if s.flags.control == Held(Complete) then Copying else Release)
    case CopyOut =>
      s.(past := s.past.(deliveries := s.past.deliveries + [Delivery(s.ticket.dispatch, s.ticket.output)]),
         client := Release)
    case ClearTicket => s.(ticket := NO_TICKET, client := ReleaseCancel)
    case ReleaseClearCancel => s.(flags := s.flags.(cancel := false), client := ReleaseControl)
    case StoreEmpty => s.(flags := s.flags.(control := Empty), client := ReleaseEvent)
    case ReleaseResetEvent => s.(events := s.events.(completion := false), client := Advance)
    case AdvanceGeneration =>
      s.(life := s.life.(generation := NextGeneration(s.life.generation)), client := Idle)
  }

  predicate LoopCan(s: State, step: LoopStep) {
    match step
    case Boot(_) => s.worker.Booting?
    case Wake => s.worker.Listening? && s.events.command
    case ReadStop => s.worker.Woken?
    case ReadControl => s.worker.Checking?
  }

  function LoopDo(s: State, step: LoopStep): State
    requires LoopCan(s, step)
  {
    match step
    case Boot(ok) =>
      s.(events := s.events.(ready := true), life := s.life.(startedOk := ok),
         worker := if ok then Listening else Exited)
    case Wake => s.(events := s.events.(command := false), worker := Woken)
    case ReadStop => s.(worker := if s.flags.stop then Exited else Checking)
    case ReadControl =>
      var queued := s.flags.control == Held(Queued);
      s.(worker := if queued then Claimed else Listening,
         past := s.past.(claimed := if queued then s.ticket.dispatch else s.past.claimed))
  }

  predicate ProcessCan(s: State, step: ProcessStep) {
    match step
    case StoreRunning => s.worker.Claimed?
    case ReadCancel => s.worker.FirstCheck?
    case Work(_) => s.worker.Working?
    case ReadCancelAgain => s.worker.SecondCheck?
    case StoreResult => s.worker.Finishing?
    case StoreEnd => s.worker.Storing?
    case SignalEnd => s.worker.Signalling?
  }

  function ProcessDo(cfg: Config, s: State, step: ProcessStep): State
    requires ProcessCan(s, step)
  {
    match step
    case StoreRunning =>
      s.(flags := s.flags.(control := Held(Running)), worker := FirstCheck,
         past := s.past.(runs := s.past.runs + [s.ticket.dispatch]))
    case ReadCancel => s.(worker := if s.flags.cancel then Finishing(TicketCancelled, Cancelled) else Working)
    case Work(outcome) =>
      s.(ticket := s.ticket.(output := if outcome == Ok then s.ticket.dispatch else s.ticket.output),
         worker := SecondCheck(outcome))
    case ReadCancelAgain =>
      s.(ticket := s.ticket.(output := if s.flags.cancel then 0 else s.ticket.output),
         worker := if s.flags.cancel then Finishing(TicketCancelled, Cancelled)
                   else if s.worker.outcome != Ok then Finishing(Failed, s.worker.outcome)
                   else Finishing(Complete, Ok))
    case StoreResult =>
      s.(ticket := s.ticket.(result := s.worker.result), worker := Storing(s.worker.end, s.worker.result))
    case StoreEnd =>
      s.(flags := s.flags.(control := Held(s.worker.end)),
         events := s.events.(completion := cfg.atomic || s.events.completion),
         worker := if cfg.atomic then Listening else Signalling,
         past := s.past.(ends := s.past.ends + [Ended(s.past.claimed, s.worker.end)],
                         signalFor := if cfg.atomic then s.past.claimed else s.past.signalFor))
    case SignalEnd =>
      s.(events := s.events.(completion := true), past := s.past.(signalFor := s.past.claimed), worker := Listening)
  }

  predicate Can(cfg: Config, s: State, step: Step) {
    match step
    case ByLife(l) => LifeCan(s, l)
    case BySubmit(b) => SubmitCan(s, b)
    case ByCall(c) => CallCan(cfg, s, c)
    case ByRelease(r) => ReleaseCan(s, r)
    case ByLoop(w) => LoopCan(s, w)
    case ByProcess(p) => ProcessCan(s, p)
  }

  function Do(cfg: Config, s: State, step: Step): State
    requires Can(cfg, s, step)
  {
    match step
    case ByLife(l) => LifeDo(s, l)
    case BySubmit(b) => SubmitDo(s, b)
    case ByCall(c) => CallDo(cfg, s, c)
    case ByRelease(r) => ReleaseDo(s, r)
    case ByLoop(w) => LoopDo(s, w)
    case ByProcess(p) => ProcessDo(cfg, s, p)
  }

  /** The states of a run: each comes from the one before it by a step of either thread. */
  ghost predicate IsRun(cfg: Config, run: seq<State>, steps: seq<Step>) {
    && |run| == |steps| + 1 && run[0] == Initial()
    && forall i | 0 <= i < |steps| :: Can(cfg, run[i], steps[i]) && run[i + 1] == Do(cfg, run[i], steps[i])
  }

  /** submit clears the completion event only after the worker has set it for the ticket before. */
  predicate TimelyStep(s: State, step: Step) {
    step == BySubmit(SubmitResetEvent) ==> !s.worker.Signalling?
  }

  /** All submissions of the run are made like that from step n on. */
  ghost predicate TimelyFrom(run: seq<State>, steps: seq<Step>, n: nat) {
    |run| == |steps| + 1 && forall i | n <= i < |steps| :: TimelyStep(run[i], steps[i])
  }

  ghost predicate Timely(run: seq<State>, steps: seq<Step>) { TimelyFrom(run, steps, 0) }

  // ---------------------------------------------------------------- the invariant

  predicate SlotOk(s: State) {
    && (s.ticket.active ==> s.ticket.dispatch == s.past.submitted > 0)
    && (!s.ticket.active ==> s.ticket.dispatch == 0 && s.ticket.output == 0)
    && (s.flags.control.Empty?
        <==> s.client.Filling() || (!s.ticket.active && !s.client.ReleaseCancel? && !s.client.ReleaseControl?))
    && (s.client.Filling() || s.client.UsesTicket() ==> s.ticket.active)
    && (s.client.Cleared() || s.client.Starting? || s.client.Stopping() ==> !s.ticket.active)
    && (s.client.Cleared() ==> s.past.submitted > 0)
  }

  /** What the client learnt from the state word still holds when it acts on it. */
  predicate SeenOk(s: State) {
    && (s.client.Copying? ==> s.flags.control == Held(Complete))
    && (s.client.Release? || s.client.ReleaseCancel? || s.client.ReleaseControl? ==> s.flags.control.Ended())
    && (s.client.Reporting? ==> s.client.seen.Held? && (s.client.seen.Ended() ==> s.flags.control == s.client.seen))
  }

  /** A ticket needs a live context and a context a live model, and the worker runs while a context is live. */
  predicate LiveOk(s: State) {
    && (s.ticket.active || s.client.Cleared() ==> s.life.context)
    && (s.life.context || s.client.Starting? || s.client.Stopping() ==> s.life.model)
    && (s.client.Starting? ==> !s.life.context)
    && (s.client.Stopping() ==> (s.client.retire <==> s.life.context))
    && (s.life.context && !s.client.Stopping() ==> s.worker.Serving())
    && (s.flags.stop <==> s.client.StopCommand? || s.client.Joining? || s.client.StopDone?)
    && (s.worker.NoWorker?
        <==> s.client.StopDone? || (!s.life.context && !s.client.Starting? && !s.client.Stopping()))
    && (s.client.Starting? ==>
          && (s.events.ready <==> !s.worker.Booting?)
          && (s.events.ready ==> (s.life.startedOk <==> s.worker.Serving())))
  }

  predicate WorkerOk(s: State) {
    && (s.worker.Owns() ==> s.ticket.active && s.past.claimed == s.ticket.dispatch
                            && s.flags.control == Held(if s.worker.Claimed? then Queued else Running))
    && (s.flags.control == Held(Running) ==> s.worker.Owns())
    && (s.worker.Decided() ==> s.worker.end.Terminal())
  }

  /** No wakeup is lost: a ticket that waits for the worker, or a stop that waits for it, has the command event set
      or a worker that is on its way to look. */
  predicate WakeOk(s: State) {
    && (s.flags.control == Held(Queued) && !s.client.SubmitCommand? && !s.worker.Claimed?
        ==> s.events.command || s.worker.Woken? || s.worker.Checking?)
    && (s.client.Joining? && !s.worker.Exited? ==> s.events.command || s.worker.Woken?)
  }

  /** When submissions are timely, the completion event speaks of the ticket in the slot once that is handed over. */
  predicate EventOk(cfg: Config, timely: bool, s: State) {
    && (s.worker.Signalling? ==> !cfg.atomic)
    && (timely && (s.events.completion || s.worker.Signalling?)
        ==> s.flags.control.Ended() || !s.ticket.active || s.client.SubmitCancel? || s.client.SubmitEvent?)
    && (timely && s.client.Reload? ==> s.flags.control.Ended())
    && (s.flags.control.Ended() && !s.events.completion ==> s.worker.Signalling?)
  }

  predicate SignalOk(cfg: Config, s: State) {
    && ((s.client.RequestCancel? || s.client.Blocked?) && s.client.purpose.ForReset? ==> cfg.resets)
    && s.past.claimed <= s.past.submitted && s.past.signalFor <= s.past.submitted
    && (s.ticket.active && s.past.submitted == s.past.signalFor ==> s.flags.control.Ended())
    && (s.ticket.active && s.worker.Signalling? && s.past.submitted == s.past.claimed ==> s.flags.control.Ended())
  }

  /** A cancel request concerns the ticket in the slot, and whoever made it is still waiting for the end. */
  predicate CancelOk(timely: bool, s: State) {
    && (s.flags.cancel && !s.ticket.active ==> s.client.ReleaseCancel?)
    && (s.flags.cancel ==> !s.client.Filling())
    && (timely && s.flags.cancel && s.flags.control.Pending()
        ==> s.client.Blocked? && (s.client.purpose.ForCancel? || s.client.purpose.ForReset?))
    && (s.client.RequestCancel? ==>
          (s.client.purpose.ForCancel? || s.client.purpose.ForReset?) && (timely ==> !s.flags.cancel))
  }

  predicate DataOk(s: State) {
    && (s.flags.control == Held(Queued) || s.client.Filling() ==> s.ticket.output == 0 && s.ticket.result == Ok)
    && (s.ticket.active && s.flags.control.Ended() ==>
          EndOk(s, s.flags.control.state) && ResultOk(s.flags.control.state, s.ticket.result))
    && (s.worker.FirstCheck? || s.worker.Working? ==> s.ticket.output == 0)
    && (s.worker.SecondCheck? ==> s.ticket.output == if s.worker.outcome == Ok then s.ticket.dispatch else 0)
    && (s.worker.Decided() ==> EndOk(s, s.worker.end) && ResultOk(s.worker.end, s.worker.result))
    && (s.worker.Storing? ==> s.ticket.result == s.worker.result)
  }

  predicate EndOk(s: State, end: TicketState) {
    && s.ticket.output == (if end == Complete then s.ticket.dispatch else 0)
    && (end == TicketCancelled ==> s.flags.cancel)
  }

  predicate ResultOk(end: TicketState, result: Status) {
    && (end == Complete <==> result == Ok)
    && (end == TicketCancelled ==> result == Cancelled)
  }

  predicate HistoryOk(s: State) {
    && |s.past.runs| == s.past.submitted - (if s.client.Filling() || s.flags.control == Held(Queued) then 1 else 0)
    && |s.past.ends| == s.past.submitted - (if s.client.Filling() || s.flags.control.Pending() then 1 else 0)
    && (forall i | 0 <= i < |s.past.runs| :: s.past.runs[i] == i + 1)
    && (forall i | 0 <= i < |s.past.ends| :: s.past.ends[i].id == i + 1 && s.past.ends[i].state.Terminal())
    && (s.flags.control.Ended() ==>
          |s.past.ends| > 0 && s.past.ends[|s.past.ends| - 1].state == s.flags.control.state)
  }

  predicate GenerationOk(s: State) {
    s.life.generation == GenerationAfter(Releases(s))
  }

  /** How many tickets have been released: all but the one still held. */
  function Releases(s: State): nat {
    if (s.ticket.active || s.client.Cleared()) && s.past.submitted > 0 then s.past.submitted - 1 else s.past.submitted
  }

  predicate Delivered(p: Past, d: Delivery) {
    1 <= d.id <= |p.ends| && p.ends[d.id - 1].state == Complete && d.bytesOf == d.id
  }

  predicate DeliveriesOk(s: State) {
    && (forall i | 0 <= i < |s.past.deliveries| :: Delivered(s.past, s.past.deliveries[i]))
    && (forall i | 0 <= i < |s.past.deliveries| - 1 :: s.past.deliveries[i].id < s.past.deliveries[i + 1].id)
    && (s.past.deliveries != [] && s.ticket.active && !s.client.Release? ==>
          s.past.deliveries[|s.past.deliveries| - 1].id < s.past.submitted)
  }

  predicate Threads(s: State) { SlotOk(s) && SeenOk(s) && LiveOk(s) && WorkerOk(s) && WakeOk(s) }

  predicate Contents(cfg: Config, timely: bool, s: State) {
    EventOk(cfg, timely, s) && SignalOk(cfg, s) && CancelOk(timely, s) && DataOk(s)
  }

  predicate Ledger(s: State) { HistoryOk(s) && GenerationOk(s) && DeliveriesOk(s) }

  /** What every step keeps: how the threads stand to the slot, what the slot and the events hold, and the record. */
  predicate Inv(cfg: Config, timely: bool, s: State) { Threads(s) && Contents(cfg, timely, s) && Ledger(s) }

  lemma InitialInv(cfg: Config, timely: bool)
    ensures Inv(cfg, timely, Initial())
  {
  }

  lemma LifeKeepsThreads(cfg: Config, timely: bool, s: State, step: LifeStep)
    requires Inv(cfg, timely, s) && LifeCan(s, step)
    ensures Threads(LifeDo(s, step))
  {
    hide Contents, Ledger;
  }

  lemma LifeKeepsContents(cfg: Config, timely: bool, s: State, step: LifeStep)
    requires Inv(cfg, timely, s) && LifeCan(s, step)
    ensures Contents(cfg, timely, LifeDo(s, step))
  {
    hide WakeOk, Ledger;
  }

  lemma LifeKeepsLedger(cfg: Config, timely: bool, s: State, step: LifeStep)
    requires Inv(cfg, timely, s) && LifeCan(s, step)
    ensures Ledger(LifeDo(s, step))
  {
    hide WakeOk, EventOk, SignalOk, CancelOk, DataOk, GenerationAfter, NextGeneration;
  }

  lemma SubmitKeepsThreads(cfg: Config, timely: bool, s: State, step: SubmitStep)
    requires Inv(cfg, timely, s) && SubmitCan(s, step)
    ensures Threads(SubmitDo(s, step))
  {
    hide Contents, Ledger;
  }

  lemma SubmitKeepsContents(cfg: Config, timely: bool, s: State, step: SubmitStep)
    requires timely ==> TimelyStep(s, BySubmit(step))
    requires Inv(cfg, timely, s) && SubmitCan(s, step)
    ensures Contents(cfg, timely, SubmitDo(s, step))
  {
    hide WakeOk, Ledger;
  }

  lemma SubmitKeepsLedger(cfg: Config, timely: bool, s: State, step: SubmitStep)
    requires Inv(cfg, timely, s) && SubmitCan(s, step)
    ensures Ledger(SubmitDo(s, step))
  {
    hide WakeOk, EventOk, SignalOk, CancelOk, LiveOk, DataOk, NextGeneration;
  }

  lemma CallKeepsThreads(cfg: Config, timely: bool, s: State, step: CallStep)
    requires cfg.resets ==> timely
    requires Inv(cfg, timely, s) && CallCan(cfg, s, step)
    ensures Threads(CallDo(cfg, s, step))
  {
    hide Ledger, DataOk, CancelOk;
  }

  lemma CallKeepsContents(cfg: Config, timely: bool, s: State, step: CallStep)
    requires Inv(cfg, timely, s) && CallCan(cfg, s, step)
    ensures Contents(cfg, timely, CallDo(cfg, s, step))
  {
    hide WakeOk, Ledger;
  }

  lemma CallKeepsLedger(cfg: Config, timely: bool, s: State, step: CallStep)
    requires Inv(cfg, timely, s) && CallCan(cfg, s, step)
    ensures Ledger(CallDo(cfg, s, step))
  {
    hide WakeOk, EventOk, SignalOk, CancelOk, LiveOk, DataOk, GenerationAfter, NextGeneration;
  }

  lemma ReleaseKeepsThreads(cfg: Config, timely: bool, s: State, step: ReleaseStep)
    requires Inv(cfg, timely, s) && ReleaseCan(s, step)
    ensures Threads(ReleaseDo(s, step))
  {
    hide Contents, Ledger;
  }

  lemma ReleaseKeepsContents(cfg: Config, timely: bool, s: State, step: ReleaseStep)
    requires Inv(cfg, timely, s) && ReleaseCan(s, step)
    ensures Contents(cfg, timely, ReleaseDo(s, step))
  {
    hide WakeOk, Ledger;
  }

  lemma ReleaseKeepsRecord(cfg: Config, timely: bool, s: State, step: ReleaseStep)
    requires Inv(cfg, timely, s) && ReleaseCan(s, step)
    ensures HistoryOk(ReleaseDo(s, step)) && GenerationOk(ReleaseDo(s, step))
  {
    hide LiveOk, WorkerOk, WakeOk, Contents, DeliveriesOk;
  }

  lemma ReleaseKeepsDeliveries(cfg: Config, timely: bool, s: State, step: ReleaseStep)
    requires Inv(cfg, timely, s) && ReleaseCan(s, step)
    ensures DeliveriesOk(ReleaseDo(s, step))
  {
    hide LiveOk, WorkerOk, WakeOk, EventOk, SignalOk, CancelOk, GenerationOk, NextGeneration;
  }

  lemma ReleaseKeepsLedger(cfg: Config, timely: bool, s: State, step: ReleaseStep)
    requires Inv(cfg, timely, s) && ReleaseCan(s, step)
    ensures Ledger(ReleaseDo(s, step))
  {
    hide Inv, HistoryOk, GenerationOk, DeliveriesOk, ReleaseCan, ReleaseDo;
    ReleaseKeepsRecord(cfg, timely, s, step);
    ReleaseKeepsDeliveries(cfg, timely, s, step);
  }

  lemma LoopKeepsThreads(cfg: Config, timely: bool, s: State, step: LoopStep)
    requires Inv(cfg, timely, s) && LoopCan(s, step)
    ensures Threads(LoopDo(s, step))
  {
    hide Contents, Ledger;
  }

  lemma LoopKeepsContents(cfg: Config, timely: bool, s: State, step: LoopStep)
    requires Inv(cfg, timely, s) && LoopCan(s, step)
    ensures Contents(cfg, timely, LoopDo(s, step))
  {
    hide WakeOk, Ledger;
  }

  lemma LoopKeepsLedger(cfg: Config, timely: bool, s: State, step: LoopStep)
    requires Inv(cfg, timely, s) && LoopCan(s, step)
    ensures Ledger(LoopDo(s, step))
  {
    hide WakeOk, EventOk, SignalOk, CancelOk, LiveOk, DataOk, GenerationAfter, NextGeneration;
  }

  lemma ProcessKeepsThreads(cfg: Config, timely: bool, s: State, step: ProcessStep)
    requires Inv(cfg, timely, s) && ProcessCan(s, step)
    ensures Threads(ProcessDo(cfg, s, step))
  {
    hide Contents, Ledger;
  }

  lemma ProcessKeepsContents(cfg: Config, timely: bool, s: State, step: ProcessStep)
    requires Inv(cfg, timely, s) && ProcessCan(s, step)
    ensures Contents(cfg, timely, ProcessDo(cfg, s, step))
  {
    hide WakeOk, Ledger;
  }

  lemma ProcessKeepsLedger(cfg: Config, timely: bool, s: State, step: ProcessStep)
    requires Inv(cfg, timely, s) && ProcessCan(s, step)
    ensures Ledger(ProcessDo(cfg, s, step))
  {
    hide WakeOk, EventOk, SignalOk, CancelOk, LiveOk, DataOk, GenerationAfter, NextGeneration;
  }

  lemma StepKeeps(cfg: Config, timely: bool, s: State, step: Step)
    requires (cfg.resets ==> timely) && (timely ==> TimelyStep(s, step))
    requires Inv(cfg, timely, s) && Can(cfg, s, step)
    ensures Inv(cfg, timely, Do(cfg, s, step))
  {
    hide Threads, Contents, Ledger, LifeCan, SubmitCan, CallCan, ReleaseCan, LoopCan, ProcessCan,
         LifeDo, SubmitDo, CallDo, ReleaseDo, LoopDo, ProcessDo;
    match step
    case ByLife(l) =>
      LifeKeepsThreads(cfg, timely, s, l);
      LifeKeepsContents(cfg, timely, s, l);
      LifeKeepsLedger(cfg, timely, s, l);
    case BySubmit(b) =>
      SubmitKeepsThreads(cfg, timely, s, b);
      SubmitKeepsContents(cfg, timely, s, b);
      SubmitKeepsLedger(cfg, timely, s, b);
    case ByCall(c) =>
      CallKeepsThreads(cfg, timely, s, c);
      CallKeepsContents(cfg, timely, s, c);
      CallKeepsLedger(cfg, timely, s, c);
    case ByRelease(r) =>
      ReleaseKeepsThreads(cfg, timely, s, r);
      ReleaseKeepsContents(cfg, timely, s, r);
      ReleaseKeepsLedger(cfg, timely, s, r);
    case ByLoop(w) =>
      LoopKeepsThreads(cfg, timely, s, w);
      LoopKeepsContents(cfg, timely, s, w);
      LoopKeepsLedger(cfg, timely, s, w);
    case ByProcess(p) =>
      ProcessKeepsThreads(cfg, timely, s, p);
      ProcessKeepsContents(cfg, timely, s, p);
      ProcessKeepsLedger(cfg, timely, s, p);
  }
}
