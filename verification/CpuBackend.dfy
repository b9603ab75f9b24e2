/** The reference CPU provider's ticket machine: models, contexts and tickets in bounded tables,
    with counts that say how many contexts use a model and how many tickets occupy a context. */
module CpuBackend {
  import opened Statuses
  import opened Rasters
  import opened Labelling
  import opened Frames
  import opened Targets
  import opened Detector
  import opened Scopes
  import opened TargetPackets
  import ModelFiles
  import opened HandleTables

  datatype Model = Model(parameters: ModelParameters, contextCount: nat)
  datatype Context = Context(model: nat, queueCapacity: nat, activeTickets: nat)

  datatype Ticket = Ticket(
    context: nat, frame: FrameView, scope: Rect, epochs: Epochs,
    state: TicketState, result: Status, counted: bool, output: seq<Byte>)
  {
    /** What submit lets through: the scope lies in the frame and starts in the frame's buffer. */
    ghost predicate Dispatchable() {
      && frame.Addressable() && InsideFrame(scope, frame) && frame.PixelOffset(scope.x, scope.y) <= |frame.data|
      && epochs.frameId == frame.frameId
    }
  }

  // ---------------------------------------------------------------- what the counters count

  ghost function CountedFor(c: nat): Ticket -> bool { (t: Ticket) => t.counted && t.context == c }
  ghost function Using(m: nat): Context -> bool { (c: Context) => c.model == m }

  // ---------------------------------------------------------------- outcomes

  ghost function Parameters(models: Table<Model>, contexts: Table<Context>, t: Ticket): ModelParameters
    requires Live(contexts, t.context) && Live(models, Get(contexts, t.context).model)
  {
    Get(models, Get(contexts, t.context).model).parameters
  }

  ghost function Report(t: Ticket, p: ModelParameters): Detection
    requires t.Dispatchable()
  {
    ScopedReport(t.frame, t.scope, p)
  }

  /** A finished ticket: what running it with these parameters leads to. */
  ghost function Finished(t: Ticket, p: ModelParameters): Ticket
    requires t.Dispatchable()
  {
    var report := Report(t, p);
    if report.status == Ok then t.(state := Complete, result := Ok, output := PacketBytes(t.epochs, report.targets))
    else t.(state := Failed, result := report.status)
  }

  ghost predicate TicketOk(models: Table<Model>, contexts: Table<Context>, t: Ticket) {
    && t.Dispatchable() && t.state != Running
    && (t.counted <==> t.state != TicketCancelled)
    && (t.counted ==> Live(contexts, t.context) && Live(models, Get(contexts, t.context).model))
    && (t.state == Queued ==> t.result == Ok && t.output == [])
    && (t.state == TicketCancelled ==> t.result == Cancelled && t.output == [])
    && (t.state in {Complete, Failed} ==>
          t == Finished(t.(state := Queued, result := Ok, output := []), Parameters(models, contexts, t)))
  }

  /** The ticket as running it leaves it. */
  ghost function AfterRun(models: Table<Model>, contexts: Table<Context>, t: Ticket): Ticket
    requires TicketOk(models, contexts, t)
  {
    if t.state == Queued then Finished(t, Parameters(models, contexts, t)) else t
  }

  ghost predicate ContextOk(models: Table<Model>, tickets: Table<Ticket>, h: nat, c: Context) {
    && 1 <= c.queueCapacity <= 8 && c.activeTickets <= c.queueCapacity
    && c.activeTickets == |Where(tickets, CountedFor(h))| && Live(models, c.model)
  }

  ghost predicate ModelOk(contexts: Table<Context>, h: nat, m: Model) {
    m.contextCount == |Where(contexts, Using(h))| && m.parameters.minimumArea > 0
  }

  /** The invariant of every run. */
  ghost predicate Consistent(models: Table<Model>, contexts: Table<Context>, tickets: Table<Ticket>) {
    && models.Valid() && contexts.Valid() && tickets.Valid()
    && |models.slots| == 4 && |contexts.slots| == 4 && |tickets.slots| == 8
    && (forall h | Live(models, h) :: ModelOk(contexts, h, Get(models, h)))
    && (forall h | Live(contexts, h) :: ContextOk(models, tickets, h, Get(contexts, h)))
    && (forall h | Live(tickets, h) :: TicketOk(models, contexts, Get(tickets, h)))
  }

  // ---------------------------------------------------------------- runs

  ghost predicate SameSubmission(a: Ticket, b: Ticket) {
    a.context == b.context && a.frame == b.frame && a.scope == b.scope && a.epochs == b.epochs
  }

  /** How the tickets of one state relate to those of any later one: a handle once issued stays issued and
      never comes back to life, a ticket keeps the data it was submitted with, a terminal ticket does not change. */
  ghost predicate Evolves(a: Table<Ticket>, b: Table<Ticket>) {
    forall h | Issued(a, h) ::
      && Issued(b, h)
      && (Live(b, h) ==> Live(a, h) && SameSubmission(Get(a, h), Get(b, h))
                         && (Get(a, h).state.Terminal() ==> Get(b, h) == Get(a, h)))
  }

  lemma EvolvesTransitively(a: Table<Ticket>, b: Table<Ticket>, c: Table<Ticket>)
    requires Evolves(a, b) && Evolves(b, c)
    ensures Evolves(a, c)
  {
  }

  lemma PutEvolves(t: Table<Ticket>, h: nat, v: Ticket)
    requires t.Valid() && Live(t, h) && SameSubmission(Get(t, h), v)
    requires Get(t, h).state.Terminal() ==> v == Get(t, h)
    ensures Evolves(t, Put(t, h, v))
  {
    forall k | Issued(t, k)
      ensures Issued(Put(t, h, v), k)
      ensures Live(Put(t, h, v), k) ==> Live(t, k) && Get(Put(t, h, v), k) == if k == h then v else Get(t, k)
    {
      PutLaws(t, h, v, k);
      HandlesAreNeverReused(t, v, h, k);
    }
  }

  lemma EraseEvolves(t: Table<Ticket>, h: nat)
    requires t.Valid() && Live(t, h)
    ensures Evolves(t, Erase(t, h))
  {
    forall k | Issued(t, k)
      ensures Issued(Erase(t, h), k)
      ensures Live(Erase(t, h), k) ==> Live(t, k) && Get(Erase(t, h), k) == Get(t, k)
    {
      EraseLaws(t, h, k);
      HandlesAreNeverReused(t, Get(t, h), h, k);
    }
  }

  lemma EmplaceEvolves(t: Table<Ticket>, v: Ticket)
    requires t.Valid() && HasRoom(t)
    ensures Evolves(t, Emplace(t, v))
  {
    forall k | Issued(t, k)
      ensures Issued(Emplace(t, v), k)
      ensures Live(Emplace(t, v), k) ==> Live(t, k) && Get(Emplace(t, v), k) == Get(t, k)
    {
      EmplaceLaws(t, v, k);
      HandlesAreNeverReused(t, v, k, k);
    }
  }

  // ---------------------------------------------------------------- how the counts move

  /** What a ticket needs of the other tables is that its context and model stay what they were. */
  lemma TicketOkKept(models: Table<Model>, contexts: Table<Context>, models': Table<Model>, contexts': Table<Context>,
                     t: Ticket)
    requires TicketOk(models, contexts, t)
    requires t.counted
             ==> Live(contexts', t.context) && Get(contexts', t.context).model == Get(contexts, t.context).model
    requires t.counted ==> var m := Get(contexts, t.context).model;
                           Live(models', m) && Get(models', m).parameters == Get(models, m).parameters
    ensures TicketOk(models', contexts', t)
  {
  }

  /** Give back the place a counted ticket takes in its context. */
  function Released(contexts: Table<Context>, t: Ticket): Table<Context>
    requires t.counted && Live(contexts, t.context) ==> Get(contexts, t.context).activeTickets > 0
  {
    if t.counted && Live(contexts, t.context) then
      var c := Get(contexts, t.context);
      Put(contexts, t.context, c.(activeTickets := c.activeTickets - 1))
    else contexts
  }

  lemma CountedHasPlace(models: Table<Model>, contexts: Table<Context>, tickets: Table<Ticket>, h: nat)
    requires Consistent(models, contexts, tickets) && Live(tickets, h) && Get(tickets, h).counted
    ensures Live(contexts, Get(tickets, h).context) && Get(contexts, Get(tickets, h).context).activeTickets > 0
  {
    var t := Get(tickets, h);
    assert TicketOk(models, contexts, t);
    assert ContextOk(models, tickets, t.context, Get(contexts, t.context));
    assert IndexOf(h) in Where(tickets, CountedFor(t.context));
  }

  /** Tickets may change as long as each stays in order and no context's count changes. */
  lemma Steady(models: Table<Model>, contexts: Table<Context>, tickets: Table<Ticket>, after: Table<Ticket>)
    requires Consistent(models, contexts, tickets) && after.Valid() && |after.slots| == 8
    requires forall k | Live(contexts, k) :: |Where(after, CountedFor(k))| == |Where(tickets, CountedFor(k))|
    requires forall h | Live(after, h) :: TicketOk(models, contexts, Get(after, h))
    ensures Consistent(models, contexts, after)
  {
    hide TicketOk, Where;
    forall k | Live(contexts, k) ensures ContextOk(models, after, k, Get(contexts, k)) {
      assert ContextOk(models, tickets, k, Get(contexts, k));
    }
  }

  lemma UsingPut(contexts: Table<Context>, h: nat, c: Context, m: nat)
    requires contexts.Valid() && Live(contexts, h) && c.model == Get(contexts, h).model
    ensures |Where(Put(contexts, h, c), Using(m))| == |Where(contexts, Using(m))|
  {
    CountPut(contexts, h, c, Using(m));
  }

  /** They may also change one context's count, when the context is told. */
  lemma Rebalance(models: Table<Model>, contexts: Table<Context>, tickets: Table<Ticket>, c: nat, active: nat,
                  after: Table<Ticket>)
    requires Consistent(models, contexts, tickets) && Live(contexts, c) && after.Valid() && |after.slots| == 8
    requires active == |Where(after, CountedFor(c))| <= Get(contexts, c).queueCapacity
    requires forall k | Live(contexts, k) && k != c ::
               |Where(after, CountedFor(k))| == |Where(tickets, CountedFor(k))|
    requires forall h | Live(after, h) :: TicketOk(models, contexts, Get(after, h))
    ensures Consistent(models, Put(contexts, c, Get(contexts, c).(activeTickets := active)), after)
  {
    hide TicketOk, Where;
    var context := Get(contexts, c).(activeTickets := active);
    var contexts' := Put(contexts, c, context);
    PutLaws(contexts, c, context, c);
    forall m | Live(models, m) ensures ModelOk(contexts', m, Get(models, m)) {
      assert ModelOk(contexts, m, Get(models, m));
      UsingPut(contexts, c, context, m);
    }
    forall k | Live(contexts', k) ensures ContextOk(models, after, k, Get(contexts', k)) {
      PutLaws(contexts, c, context, k);
      assert ContextOk(models, tickets, k, Get(contexts, k));
    }
    forall h | Live(after, h) ensures TicketOk(models, contexts', Get(after, h)) {
      var t := Get(after, h);
      PutLaws(contexts, c, context, t.context);
      if t.counted {
        TicketNeeds(models, contexts, t);
      }
      TicketOkKept(models, contexts, models, contexts', t);
    }
  }

  lemma FinishedOk(models: Table<Model>, contexts: Table<Context>, t: Ticket)
    requires TicketOk(models, contexts, t) && t.state == Queued
    ensures var done := Finished(t, Parameters(models, contexts, t));
            && TicketOk(models, contexts, done) && done.counted && t.counted && SameSubmission(t, done)
            && done.context == t.context
  {
    hide Report, PacketBytes;
    var done := Finished(t, Parameters(models, contexts, t));
    assert done.(state := Queued, result := Ok, output := []) == t;
  }

  /** A queued ticket may be finished in place. */
  lemma FinishKeeps(models: Table<Model>, contexts: Table<Context>, tickets: Table<Ticket>, h: nat)
    requires Consistent(models, contexts, tickets) && Live(tickets, h) && Get(tickets, h).state == Queued
    ensures TicketOk(models, contexts, Get(tickets, h)) && Get(tickets, h).counted
    ensures var done := Finished(Get(tickets, h), Parameters(models, contexts, Get(tickets, h)));
            Consistent(models, contexts, Put(tickets, h, done)) && Evolves(tickets, Put(tickets, h, done))
  {
    hide Finished, Where, Evolves, SameSubmission;
    var t := Get(tickets, h);
    assert TicketOk(models, contexts, t);
    hide TicketOk;
    FinishedOk(models, contexts, t);
    var done := Finished(t, Parameters(models, contexts, t));
    var after := Put(tickets, h, done);
    PutLaws(tickets, h, done, h);
    PutEvolves(tickets, h, done);
    forall k | Live(contexts, k) ensures |Where(after, CountedFor(k))| == |Where(tickets, CountedFor(k))| {
      CountPut(tickets, h, done, CountedFor(k));
    }
    forall k | Live(after, k) ensures TicketOk(models, contexts, Get(after, k)) {
      PutLaws(tickets, h, done, k);
    }
    Steady(models, contexts, tickets, after);
  }

  lemma PlaceCounts(models: Table<Model>, contexts: Table<Context>, tickets: Table<Ticket>, h: nat)
    requires Consistent(models, contexts, tickets) && Live(tickets, h)
    ensures TicketOk(models, contexts, Get(tickets, h))
    ensures Get(tickets, h).counted ==>
              var c := Get(tickets, h).context;
              && Live(contexts, c) && 0 < Get(contexts, c).activeTickets <= Get(contexts, c).queueCapacity
              && Get(contexts, c).activeTickets == |Where(tickets, CountedFor(c))|
  {
    var t := Get(tickets, h);
    assert TicketOk(models, contexts, t);
    if t.counted {
      CountedHasPlace(models, contexts, tickets, h);
      assert ContextOk(models, tickets, t.context, Get(contexts, t.context));
    }
  }

  /** A ticket's place is given back and the ticket erased. */
  lemma EraseKeeps(models: Table<Model>, contexts: Table<Context>, tickets: Table<Ticket>, h: nat)
    requires Consistent(models, contexts, tickets) && Live(tickets, h)
    ensures Get(tickets, h).counted ==> Live(contexts, Get(tickets, h).context)
                                        && Get(contexts, Get(tickets, h).context).activeTickets > 0
    ensures Consistent(models, Released(contexts, Get(tickets, h)), Erase(tickets, h))
    ensures Evolves(tickets, Erase(tickets, h))
  {
    hide TicketOk, Where, Evolves;
    var t, after := Get(tickets, h), Erase(tickets, h);
    PlaceCounts(models, contexts, tickets, h);
    EraseEvolves(tickets, h);
    EraseLaws(tickets, h, h);
    forall k | Live(contexts, k)
      ensures |Where(after, CountedFor(k))| == |Where(tickets, CountedFor(k))| - Bit(CountedFor(k)(t))
    {
      CountErase(tickets, h, CountedFor(k));
    }
    forall k | Live(after, k) ensures TicketOk(models, contexts, Get(after, k)) {
      EraseLaws(tickets, h, k);
    }
    if t.counted {
      Rebalance(models, contexts, tickets, t.context, Get(contexts, t.context).activeTickets - 1, after);
    } else {
      Steady(models, contexts, tickets, after);
    }
  }

  function CancelledTicket(t: Ticket): Ticket { t.(state := TicketCancelled, result := Cancelled, counted := false) }

  lemma CancelledOk(models: Table<Model>, contexts: Table<Context>, t: Ticket, v: Ticket)
    requires TicketOk(models, contexts, t) && t.state == Queued
    requires v == CancelledTicket(t)
    ensures t.counted && TicketOk(models, contexts, v) && SameSubmission(t, v)
  {
  }

  /** A ticket's place is given back and the ticket left behind, cancelled. */
  lemma CancelKeeps(models: Table<Model>, contexts: Table<Context>, tickets: Table<Ticket>, h: nat, v: Ticket)
    requires Consistent(models, contexts, tickets) && Live(tickets, h) && Get(tickets, h).state == Queued
    requires v == CancelledTicket(Get(tickets, h))
    ensures Get(tickets, h).counted && Live(contexts, Get(tickets, h).context)
                                    && Get(contexts, Get(tickets, h).context).activeTickets > 0
    ensures Consistent(models, Released(contexts, Get(tickets, h)), Put(tickets, h, v))
    ensures Evolves(tickets, Put(tickets, h, v))
  {
    hide TicketOk, Where, Evolves, SameSubmission;
    var t, after := Get(tickets, h), Put(tickets, h, v);
    PlaceCounts(models, contexts, tickets, h);
    CancelledOk(models, contexts, t, v);
    PutEvolves(tickets, h, v);
    PutLaws(tickets, h, v, h);
    forall k | Live(contexts, k)
      ensures |Where(after, CountedFor(k))| == |Where(tickets, CountedFor(k))| - Bit(CountedFor(k)(t))
    {
      CountPut(tickets, h, v, CountedFor(k));
    }
    forall k | Live(after, k) ensures TicketOk(models, contexts, Get(after, k)) {
      PutLaws(tickets, h, v, k);
    }
    Rebalance(models, contexts, tickets, t.context, Get(contexts, t.context).activeTickets - 1, after);
  }

  lemma NewTicketOk(models: Table<Model>, contexts: Table<Context>, v: Ticket)
    requires v.Dispatchable() && v.state == Queued && v.result == Ok && v.counted && v.output == []
    requires Live(contexts, v.context) && Live(models, Get(contexts, v.context).model)
    ensures TicketOk(models, contexts, v)
  {
  }

  lemma SubmitKeeps(models: Table<Model>, contexts: Table<Context>, tickets: Table<Ticket>, v: Ticket)
    requires Consistent(models, contexts, tickets) && HasRoom(tickets) && Live(contexts, v.context)
    requires v.Dispatchable() && v.state == Queued && v.result == Ok && v.counted && v.output == []
    requires Get(contexts, v.context).activeTickets < Get(contexts, v.context).queueCapacity
    ensures var c := Get(contexts, v.context);
            Consistent(models, Put(contexts, v.context, c.(activeTickets := c.activeTickets + 1)), Emplace(tickets, v))
    ensures Evolves(tickets, Emplace(tickets, v))
  {
    hide TicketOk, Where, Evolves;
    var c, after := Get(contexts, v.context), Emplace(tickets, v);
    assert ContextOk(models, tickets, v.context, c);
    NewTicketOk(models, contexts, v);
    EmplaceEvolves(tickets, v);
    EmplaceLaws(tickets, v, 0);
    forall k | Live(contexts, k)
      ensures |Where(after, CountedFor(k))| == |Where(tickets, CountedFor(k))| + Bit(CountedFor(k)(v))
    {
      CountEmplace(tickets, v, CountedFor(k));
    }
    forall k | Live(after, k) ensures TicketOk(models, contexts, Get(after, k)) {
      EmplaceLaws(tickets, v, k);
    }
    Rebalance(models, contexts, tickets, v.context, c.activeTickets + 1, after);
  }

  // ---------------------------------------------------------------- models and contexts come and go

  lemma CreateModelKeeps(models: Table<Model>, contexts: Table<Context>, tickets: Table<Ticket>, m: Model)
    requires Consistent(models, contexts, tickets) && HasRoom(models)
    requires m.contextCount == 0 && m.parameters.minimumArea > 0
    ensures Consistent(Emplace(models, m), contexts, tickets)
  {
    hide TicketOk, Where;
    var after := Emplace(models, m);
    EmplaceLaws(models, m, 0);
    forall h | Live(after, h) ensures ModelOk(contexts, h, Get(after, h)) {
      EmplaceLaws(models, m, h);
      if h == NextHandle(models) {
        forall i ensures i !in Where(contexts, Using(h)) {
          if i in Where(contexts, Using(h)) {
            UsedModelIsLive(models, contexts, tickets, h, i);
          }
        }
        assert Where(contexts, Using(h)) == {};
      } else {
        assert ModelOk(contexts, h, Get(models, h));
      }
    }
    forall h | Live(contexts, h) ensures ContextOk(after, tickets, h, Get(contexts, h)) {
      assert ContextOk(models, tickets, h, Get(contexts, h));
      EmplaceLaws(models, m, Get(contexts, h).model);
    }
    forall h | Live(tickets, h) ensures TicketOk(after, contexts, Get(tickets, h)) {
      var t := Get(tickets, h);
      assert TicketOk(models, contexts, t);
      if t.counted {
        TicketNeeds(models, contexts, t);
        EmplaceLaws(models, m, Get(contexts, t.context).model);
      }
      TicketOkKept(models, contexts, after, contexts, t);
    }
  }

  lemma ContextUsesModel(contexts: Table<Context>, h: nat)
    requires Live(contexts, h)
    ensures IndexOf(h) in Where(contexts, Using(Get(contexts, h).model))
  {
  }

  lemma DestroyModelKeeps(models: Table<Model>, contexts: Table<Context>, tickets: Table<Ticket>, m: nat)
    requires Consistent(models, contexts, tickets) && Live(models, m) && Get(models, m).contextCount == 0
    ensures Consistent(Erase(models, m), contexts, tickets)
  {
    hide TicketOk, Where;
    var after := Erase(models, m);
    EraseLaws(models, m, m);
    assert ModelOk(contexts, m, Get(models, m));
    forall h | Live(after, h) ensures ModelOk(contexts, h, Get(after, h)) {
      EraseLaws(models, m, h);
      assert ModelOk(contexts, h, Get(models, h));
    }
    forall h | Live(contexts, h) ensures ContextOk(after, tickets, h, Get(contexts, h)) {
      assert ContextOk(models, tickets, h, Get(contexts, h));
      ContextUsesModel(contexts, h);
      EraseLaws(models, m, Get(contexts, h).model);
    }
    forall h | Live(tickets, h) ensures TicketOk(after, contexts, Get(tickets, h)) {
      var t := Get(tickets, h);
      assert TicketOk(models, contexts, t);
      if t.counted {
        TicketNeeds(models, contexts, t);
        ContextUsesModel(contexts, t.context);
        EraseLaws(models, m, Get(contexts, t.context).model);
      }
      TicketOkKept(models, contexts, after, contexts, t);
    }
  }

  lemma CreateContextKeeps(models: Table<Model>, contexts: Table<Context>, tickets: Table<Ticket>, c: Context)
    requires Consistent(models, contexts, tickets) && HasRoom(contexts) && Live(models, c.model)
    requires 1 <= c.queueCapacity <= 8 && c.activeTickets == 0
    ensures var m := Get(models, c.model);
            Consistent(Put(models, c.model, m.(contextCount := m.contextCount + 1)), Emplace(contexts, c), tickets)
  {
    hide TicketOk, Where;
    var m := Get(models, c.model);
    var m' := m.(contextCount := m.contextCount + 1);
    var models', after := Put(models, c.model, m'), Emplace(contexts, c);
    PutLaws(models, c.model, m', c.model);
    EmplaceLaws(contexts, c, 0);
    forall h | Live(models', h) ensures ModelOk(after, h, Get(models', h)) {
      PutLaws(models, c.model, m', h);
      assert ModelOk(contexts, h, Get(models, h));
      WhereEmplace(contexts, c, Using(h));
    }
    forall h | Live(after, h) ensures ContextOk(models', tickets, h, Get(after, h)) {
      EmplaceLaws(contexts, c, h);
      PutLaws(models, c.model, m', Get(after, h).model);
      if h == NextHandle(contexts) {
        NoTicketYet(models, contexts, tickets, h);
      } else {
        assert ContextOk(models, tickets, h, Get(contexts, h));
      }
    }
    forall h | Live(tickets, h) ensures TicketOk(models', after, Get(tickets, h)) {
      var t := Get(tickets, h);
      assert TicketOk(models, contexts, t);
      if t.counted {
        TicketNeeds(models, contexts, t);
        EmplaceLaws(contexts, c, t.context);
        PutLaws(models, c.model, m', Get(contexts, t.context).model);
      }
      TicketOkKept(models, contexts, models', after, t);
    }
  }

  lemma NoTicketYet(models: Table<Model>, contexts: Table<Context>, tickets: Table<Ticket>, h: nat)
    requires Consistent(models, contexts, tickets) && !Live(contexts, h)
    ensures Where(tickets, CountedFor(h)) == {}
  {
    forall i ensures i !in Where(tickets, CountedFor(h)) {
      if i in Where(tickets, CountedFor(h)) {
        OccupiedContextIsLive(models, contexts, tickets, h, i);
      }
    }
  }

  lemma OccupiedContextIsLive(models: Table<Model>, contexts: Table<Context>, tickets: Table<Ticket>, c: nat, i: int)
    requires Consistent(models, contexts, tickets) && i in Where(tickets, CountedFor(c))
    ensures Live(contexts, c)
  {
    LiveAt(tickets, i);
    assert TicketOk(models, contexts, Get(tickets, HandleAt(tickets, i)));
  }

  lemma UsedModelIsLive(models: Table<Model>, contexts: Table<Context>, tickets: Table<Ticket>, m: nat, i: int)
    requires Consistent(models, contexts, tickets) && i in Where(contexts, Using(m))
    ensures Live(models, m)
  {
    LiveAt(contexts, i);
    assert ContextOk(models, tickets, HandleAt(contexts, i), Get(contexts, HandleAt(contexts, i)));
  }

  lemma ContextFacts(models: Table<Model>, contexts: Table<Context>, tickets: Table<Ticket>, h: nat)
    requires Consistent(models, contexts, tickets) && Live(contexts, h)
    ensures ContextOk(models, tickets, h, Get(contexts, h))
  {
  }

  lemma TicketTakesPlace(tickets: Table<Ticket>, h: nat)
    requires Live(tickets, h) && Get(tickets, h).counted
    ensures IndexOf(h) in Where(tickets, CountedFor(Get(tickets, h).context))
  {
  }

  lemma TicketNeeds(models: Table<Model>, contexts: Table<Context>, t: Ticket)
    requires TicketOk(models, contexts, t) && t.counted
    ensures Live(contexts, t.context) && Live(models, Get(contexts, t.context).model)
  {
  }

  lemma DestroyContextKeeps(models: Table<Model>, contexts: Table<Context>, tickets: Table<Ticket>, h: nat)
    requires Consistent(models, contexts, tickets) && Live(contexts, h) && Get(contexts, h).activeTickets == 0
    ensures Live(models, Get(contexts, h).model) && Get(models, Get(contexts, h).model).contextCount > 0
    ensures var m := Get(models, Get(contexts, h).model);
            Consistent(Put(models, Get(contexts, h).model, m.(contextCount := m.contextCount - 1)),
                       Erase(contexts, h), tickets)
  {
    hide TicketOk, Where;
    var c := Get(contexts, h);
    assert ContextOk(models, tickets, h, c);
    var m := Get(models, c.model);
    assert ModelOk(contexts, c.model, m);
    ContextUsesModel(contexts, h);
    var m' := m.(contextCount := m.contextCount - 1);
    var models', after := Put(models, c.model, m'), Erase(contexts, h);
    PutLaws(models, c.model, m', c.model);
    EraseLaws(contexts, h, h);
    forall k | Live(models', k) ensures ModelOk(after, k, Get(models', k)) {
      PutLaws(models, c.model, m', k);
      assert ModelOk(contexts, k, Get(models, k));
      WhereErase(contexts, h, Using(k));
    }
    forall k | Live(after, k) ensures ContextOk(models', tickets, k, Get(after, k)) {
      EraseLaws(contexts, h, k);
      PutLaws(models, c.model, m', Get(after, k).model);
      assert ContextOk(models, tickets, k, Get(contexts, k));
    }
    forall k | Live(tickets, k) ensures TicketOk(models', after, Get(tickets, k)) {
      var t := Get(tickets, k);
      assert TicketOk(models, contexts, t);
      if t.counted {
        TicketNeeds(models, contexts, t);
        if t.context == h {
          TicketTakesPlace(tickets, k);
        }
        EraseLaws(contexts, h, t.context);
        PutLaws(models, c.model, m', Get(contexts, t.context).model);
      }
      TicketOkKept(models, contexts, models', after, t);
    }
  }

  // ---------------------------------------------------------------- the provider

  datatype TicketInfo = NoInfo | TicketInfo(state: TicketState, result: Status, epochs: Epochs, produced: nat,
                                            required: nat)

  function InfoOf(t: Ticket): TicketInfo {
    TicketInfo(t.state, t.result, t.epochs, if t.state == Complete then |t.output| else 0, |t.output|)
  }

  /** What a status report tells about a ticket, field by field. */
  ghost predicate Tells(info: TicketInfo, t: Ticket) {
    && info.TicketInfo? && info.state == t.state && info.result == t.result
    && info.epochs.frameId == t.epochs.frameId && info.epochs.modelEpoch == t.epochs.modelEpoch
    && info.epochs.sessionEpoch == t.epochs.sessionEpoch && info.epochs.transformEpoch == t.epochs.transformEpoch
    && info.epochs.topologyEpoch == t.epochs.topologyEpoch && info.epochs.sourceId == t.epochs.sourceId
    && info.required == |t.output|
    && (t.state == Complete ==> info.produced == |t.output|) && (t.state != Complete ==> info.produced == 0)
  }

  lemma ReportIsSmall(t: Ticket, p: ModelParameters)
    requires t.Dispatchable()
    ensures |Report(t, p).targets| <= MAXIMUM_TARGETS
    ensures Report(t, p).status != Ok ==> Report(t, p).targets == []
  {
    SortKeepsLength(t, p);
  }

  lemma SortKeepsLength(t: Ticket, p: ModelParameters)
    requires t.Dispatchable()
    ensures |DetectSpec(ScopedView(t.frame, t.scope), p).targets| <= MAXIMUM_TARGETS
    ensures DetectSpec(ScopedView(t.frame, t.scope), p).status != Ok
            ==> DetectSpec(ScopedView(t.frame, t.scope), p).targets == []
  {
    var view := ScopedView(t.frame, t.scope);
    if p.minimumArea != 0 && ValidateFrame(view) == Ok {
      ValidateFrameExact(view);
      var r := ImageOf(view, p.lumaThreshold);
      var found := DescribeAll(r, view.frameId, Found(r, p.minimumArea));
      SortedTargetsStable(found);
      assert |multiset(SortedTargets(found))| == |multiset(found)|;
    }
  }

  // ---------------------------------------------------------------- what a reader of the collected bytes learns

  /** The list holds each component of at least the minimum area once. */
  ghost predicate Listed(r: Image, minimumArea: nat, components: seq<set<Pixel>>) {
    && (forall C :: C in components <==> IsComponent(LitPixels(r), C) && |C| >= minimumArea)
    && (forall i, j | 0 <= i < j < |components| :: components[i] != components[j])
    && (forall i | 0 <= i < |components| :: components[i] != {})
  }

  /** The targets are the descriptions of the components seen through the ticket's scope, one each in stable (y, x)
      order, moved by the scope's origin. */
  ghost predicate ShowsComponents(t: Ticket, p: ModelParameters, targets: seq<Target>)
    requires t.Dispatchable()
  {
    var view, id := ScopedView(t.frame, t.scope), t.frame.frameId;
    && view.Fits() && BytesPerPixel(view.format) > 0
    && exists components: seq<set<Pixel>> ::
         && Listed(ImageOf(view, p.lumaThreshold), p.minimumArea, components)
         && targets == ShiftAll(SortedTargets(DescribeAll(ImageOf(view, p.lumaThreshold), id, components)),
                                id, t.scope.x, t.scope.y)
  }

  /** Coordinates seen through the scope fit the packet's fixed-point fields. */
  predicate BelowLimit(scope: Rect) {
    scope.x + scope.width <= 0x80_0000 && scope.y + scope.height <= 0x80_0000
  }

  /** The targets with every area replaced by that of the box. */
  function WithBoxAreas(ts: seq<Target>): (out: seq<Target>)
    ensures |out| == |ts| && forall i | 0 <= i < |ts| :: out[i] == ts[i].(area := ts[i].width * ts[i].height)
  {
    seq(|ts|, i requires 0 <= i < |ts| => ts[i].(area := ts[i].width * ts[i].height))
  }

  /** What a ticket's bytes tell: they are the packet of the submission's own frame, scope and epochs, its targets are
      the components inside the scope, and while coordinates stay below 2^23 reading the packet gives back the frame
      id, the epochs and the targets, each area replaced by width times height and so never below the true one. */
  ghost predicate Delivers(t: Ticket, p: ModelParameters, bytes: seq<Byte>)
    requires t.Dispatchable()
  {
    var report := Report(t, p);
    && report.status == Ok && |report.targets| <= MAXIMUM_TARGETS && bytes == PacketBytes(t.epochs, report.targets)
    && ShowsComponents(t, p, report.targets)
    && (BelowLimit(t.scope) ==>
          && ReadsAs(bytes, t.epochs, WithBoxAreas(report.targets))
          && forall i | 0 <= i < |report.targets| ::
               report.targets[i].area <= report.targets[i].width * report.targets[i].height < U32_LIMIT)
  }

  ghost predicate SurvivesPacket(t: Target) {
    Representable(t) && t.area <= t.width * t.height < U32_LIMIT && BoxArea(t).area == t.width * t.height
  }

  lemma SurvivingPacketReads(e: Epochs, ts: seq<Target>)
    requires |ts| <= MAXIMUM_TARGETS && forall i | 0 <= i < |ts| :: SurvivesPacket(ts[i])
    ensures ReadsAs(PacketBytes(e, ts), e, WithBoxAreas(ts))
  {
    hide PacketBytes, ReadsAs, Representable;
    forall i | 0 <= i < |ts| ensures Representable(ts[i]) && BoxArea(ts[i]) == WithBoxAreas(ts)[i] {
      assert SurvivesPacket(ts[i]);
    }
    PacketRoundTrip(e, ts);
    assert BoxAreas(ts) == WithBoxAreas(ts);
  }

  lemma ExtentInside(r: Image, C: set<Pixel>)
    requires C != {} && C <= LitPixels(r)
    ensures 0 <= Left(C) <= Right(C) < r.width && 0 <= Top(C) <= Bottom(C) < r.height
  {
    hide Left, Right, Top, Bottom;
    var left, right, top, bottom := BoxIsTight(C);
    InsideBox(C, left);
    InsideBox(C, top);
  }

  /** The description of a component, moved to a scope that stays below 2^23, survives the packet. */
  lemma ReadBack(r: Image, id: U64, scope: Rect, C: set<Pixel>)
    requires C != {} && C <= LitPixels(r) && r.width == scope.width <= MAXIMUM_WIDTH
    requires r.height == scope.height <= MAXIMUM_HEIGHT && 0 <= scope.x && 0 <= scope.y && BelowLimit(scope)
    ensures SurvivesPacket(Shifted(Describe(r, id, C), id, scope.x, scope.y))
  {
    hide Left, Right, Top, Bottom, TargetId, LumaSum, Confidence, LitPixels;
    ExtentInside(r, C);
    BoxCoversComponent(r, id, C);
    LumaSumBounds(r, C);
    NonemptyCard(C);
    LumaNonnegative(r, C);
    ConfidenceRounds(|C|, LumaSum(r, C), 0);
    var t := Describe(r, id, C);
    ProductBelow(t.width, t.height, 1024, 1024);
  }

  lemma TargetsReadBack(r: Image, id: U64, scope: Rect, minimumArea: nat, components: seq<set<Pixel>>)
    requires Listed(r, minimumArea, components) && r.width == scope.width <= MAXIMUM_WIDTH
    requires r.height == scope.height <= MAXIMUM_HEIGHT && 0 <= scope.x && 0 <= scope.y && BelowLimit(scope)
    ensures var targets := ShiftAll(SortedTargets(DescribeAll(r, id, components)), id, scope.x, scope.y);
            forall i | 0 <= i < |targets| :: SurvivesPacket(targets[i])
  {
    hide SortedTargets, IsComponent, Describe, SurvivesPacket, Shifted, LitPixels;
    var found := DescribeAll(r, id, components);
    var sorted := SortedTargets(found);
    SortedTargetsStable(found);
    forall i | 0 <= i < |sorted| ensures SurvivesPacket(Shifted(sorted[i], id, scope.x, scope.y)) {
      assert sorted[i] in multiset(sorted);
      var j :| 0 <= j < |found| && found[j] == sorted[i];
      assert components[j] in components;
      ComponentLit(LitPixels(r), components[j]);
      ReadBack(r, id, scope, components[j]);
    }
  }

  lemma FoundIsListed(r: Image, minimumArea: nat)
    ensures Listed(r, minimumArea, Found(r, minimumArea))
  {
    hide IsComponent, Found, LitPixels;
    FoundIsLargeComponents(r, minimumArea);
  }

  /** What a successful report is made of. */
  lemma ReportParts(t: Ticket, p: ModelParameters)
    requires t.Dispatchable() && Report(t, p).status == Ok
    ensures var view, id := ScopedView(t.frame, t.scope), t.frame.frameId;
            && view.Fits() && BytesPerPixel(view.format) > 0
            && view.width == t.scope.width <= MAXIMUM_WIDTH && view.height == t.scope.height <= MAXIMUM_HEIGHT
            && var r := ImageOf(view, p.lumaThreshold);
               Report(t, p).targets
               == ShiftAll(SortedTargets(DescribeAll(r, id, Found(r, p.minimumArea))), id, t.scope.x, t.scope.y)
  {
    hide ImageOf, SortedTargets, DescribeAll, Found, Blobs, ValidateFrame;
    ValidateFrameExact(ScopedView(t.frame, t.scope));
  }

  lemma ReportDelivers(t: Ticket, p: ModelParameters)
    requires t.Dispatchable() && Report(t, p).status == Ok
    ensures Delivers(t, p, PacketBytes(t.epochs, Report(t, p).targets))
  {
    hide Report, ImageOf, SortedTargets, DescribeAll, ShiftAll, Found, Listed, SurvivesPacket, PacketBytes, ReadsAs;
    ReportParts(t, p);
    ReportIsSmall(t, p);
    var r := ImageOf(ScopedView(t.frame, t.scope), p.lumaThreshold);
    FoundIsListed(r, p.minimumArea);
    if BelowLimit(t.scope) {
      TargetsReadBack(r, t.frame.frameId, t.scope, p.minimumArea, Found(r, p.minimumArea));
      SurvivingPacketReads(t.epochs, Report(t, p).targets);
      AreasCover(Report(t, p).targets);
    }
  }

  lemma AreasCover(ts: seq<Target>)
    requires forall i | 0 <= i < |ts| :: SurvivesPacket(ts[i])
    ensures forall i | 0 <= i < |ts| :: ts[i].area <= ts[i].width * ts[i].height < U32_LIMIT
  {
  }

  /** What is known of a ticket that is about to be collected. */
  lemma CollectFacts(models: Table<Model>, contexts: Table<Context>, tickets: Table<Ticket>, h: nat)
    requires Consistent(models, contexts, tickets) && Live(tickets, h)
    ensures var t := Get(tickets, h);
            && TicketOk(models, contexts, t)
            && (t.counted ==> Live(contexts, t.context) && Get(contexts, t.context).activeTickets > 0
                              && Live(models, Get(contexts, t.context).model) && t.Dispatchable())
            && t.state != Running && (t.state == TicketCancelled ==> t.result == Cancelled)
            && (t.state == Failed ==> t.result != Ok)
            && (t.state == Complete ==> t.counted && Delivers(t, Parameters(models, contexts, t), t.output))
  {
    hide Report, PacketBytes, Delivers;
    var t := Get(tickets, h);
    assert TicketOk(models, contexts, t);
    if t.counted {
      CountedHasPlace(models, contexts, tickets, h);
    }
    if t.state == Complete {
      var q := t.(state := Queued, result := Ok, output := []);
      var p := Parameters(models, contexts, t);
      SameReport(t, q, p);
      ReportDelivers(t, p);
    }
  }

  lemma SameReport(t: Ticket, q: Ticket, p: ModelParameters)
    requires t.Dispatchable() && q.Dispatchable() && t.frame == q.frame && t.scope == q.scope
    ensures Report(t, p) == Report(q, p)
  {
  }

  // ---------------------------------------------------------------- all tickets of one context

  ghost predicate OnlyMissing(before: Table<Ticket>, now: Table<Ticket>, gone: seq<nat>) {
    forall h: nat :: && (Live(now, h) <==> Live(before, h) && h !in gone)
                     && (Live(now, h) ==> Get(now, h) == Get(before, h))
  }

  /** `after` holds exactly the tickets of `before` that belong to other contexts. */
  ghost predicate Without(before: Table<Ticket>, after: Table<Ticket>, execution: nat) {
    forall h: nat :: && (Live(after, h) <==> Live(before, h) && Get(before, h).context != execution)
                     && (Live(after, h) ==> Get(after, h) == Get(before, h))
  }

  ghost predicate SamePlacesBut(a: Table<Context>, b: Table<Context>, c: nat) {
    Live(a, c) && Live(b, c) && b == Put(a, c, Get(a, c).(activeTickets := Get(b, c).activeTickets))
  }

  lemma SpineOf(models: Table<Model>, contexts: Table<Context>, tickets: Table<Ticket>)
    requires Consistent(models, contexts, tickets)
    ensures contexts.Valid() && tickets.Valid() && |tickets.slots| == 8
  {
  }

  lemma PlacesSame(places: Table<Context>, c: nat)
    requires Live(places, c)
    ensures SamePlacesBut(places, places, c)
  {
    var i := IndexOf(c);
    assert places.slots[i].(value := Some(Get(places, c))) == places.slots[i];
  }

  lemma NextIsLive(before: Table<Ticket>, now: Table<Ticket>, handles: seq<nat>, index: nat, execution: nat)
    requires index < |handles| && OnlyMissing(before, now, handles[..index])
    requires forall h: nat :: h in handles <==> Live(before, h) && Get(before, h).context == execution
    requires forall i, j | 0 <= i < j < |handles| :: handles[i] != handles[j]
    ensures Live(now, handles[index]) && Get(now, handles[index]).context == execution
  {
    assert handles[index] in handles && handles[index] !in handles[..index];
  }

  lemma MissingOneMore(before: Table<Ticket>, now: Table<Ticket>, handles: seq<nat>, index: nat)
    requires now.Valid() && index < |handles| && Live(now, handles[index]) && OnlyMissing(before, now, handles[..index])
    ensures OnlyMissing(before, Erase(now, handles[index]), handles[..index + 1])
  {
    assert handles[..index + 1] == handles[..index] + [handles[index]];
    forall h: nat
      ensures Live(Erase(now, handles[index]), h) <==> Live(now, h) && h != handles[index]
      ensures Live(Erase(now, handles[index]), h) ==> Get(Erase(now, handles[index]), h) == Get(now, h)
    {
      EraseLaws(now, handles[index], h);
    }
  }

  lemma ReleasedPlaces(a: Table<Context>, b: Table<Context>, c: nat, t: Ticket)
    requires SamePlacesBut(a, b, c) && t.context == c && (t.counted ==> Get(b, c).activeTickets > 0)
    ensures SamePlacesBut(a, Released(b, t), c)
  {
  }

  lemma NoneLeft(before: Table<Ticket>, now: Table<Ticket>, handles: seq<nat>, execution: nat)
    requires OnlyMissing(before, now, handles)
    requires forall h: nat :: h in handles <==> Live(before, h) && Get(before, h).context == execution
    ensures Without(before, now, execution)
    ensures forall h: nat | Live(now, h) :: Get(now, h).context != execution
  {
  }

  lemma PlaceIsEmpty(models: Table<Model>, contexts: Table<Context>, tickets: Table<Ticket>, execution: nat)
    requires Consistent(models, contexts, tickets) && Live(contexts, execution)
    requires forall h: nat | Live(tickets, h) :: Get(tickets, h).context != execution
    ensures Get(contexts, execution).activeTickets == 0
  {
    assert ContextOk(models, tickets, execution, Get(contexts, execution));
    forall i ensures i !in Where(tickets, CountedFor(execution)) {
      if i in Where(tickets, CountedFor(execution)) {
        LiveAt(tickets, i);
      }
    }
  }

  lemma PutZero(a: Table<Context>, b: Table<Context>, c: nat)
    requires SamePlacesBut(a, b, c) && Get(b, c).activeTickets == 0
    ensures Put(b, c, Get(b, c).(activeTickets := 0)) == b
    ensures b == Put(a, c, Get(a, c).(activeTickets := 0))
  {
    var i := IndexOf(c);
    assert b.slots[i].(value := Some(Get(b, c))) == b.slots[i];
  }

  ghost predicate HasQueuedBelow(t: Table<Ticket>, execution: nat, n: nat)
    requires n <= |t.slots|
  {
    exists i :: 0 <= i < n && t.slots[i].value.Some? && t.slots[i].value.value.context == execution
                && t.slots[i].value.value.state == Queued
  }

  ghost predicate HasQueued(t: Table<Ticket>, execution: nat) { HasQueuedBelow(t, execution, |t.slots|) }

  /** The tickets of one context in the first n slots have been run; nothing else has changed. */
  ghost predicate Swept(models: Table<Model>, contexts: Table<Context>, before: Table<Ticket>, now: Table<Ticket>,
                        execution: nat, n: nat)
  {
    forall h: nat ::
      && (Live(now, h) <==> Live(before, h))
      && (Live(before, h) ==>
            && TicketOk(models, contexts, Get(before, h))
            && Get(now, h) == if Get(before, h).context == execution && IndexOf(h) < n
                              then AfterRun(models, contexts, Get(before, h)) else Get(before, h))
  }

  lemma NothingSwept(models: Table<Model>, contexts: Table<Context>, tickets: Table<Ticket>, execution: nat)
    requires Consistent(models, contexts, tickets)
    ensures Swept(models, contexts, tickets, tickets, execution, 0)
  {
    hide TicketOk;
  }

  /** Running the ticket in slot n, or passing it by because it has no work, sweeps one slot more. */
  lemma SweptOneMore(models: Table<Model>, contexts: Table<Context>, before: Table<Ticket>, now: Table<Ticket>,
                     execution: nat, n: nat, after: Table<Ticket>)
    requires now.Valid() && n < |now.slots| && Swept(models, contexts, before, now, execution, n)
    requires var h := HandleAt(now, n);
             if Live(now, h) && Get(now, h).context == execution && Get(now, h).state == Queued then
               TicketOk(models, contexts, Get(now, h)) && after == Put(now, h, AfterRun(models, contexts, Get(now, h)))
             else after == now
    ensures Swept(models, contexts, before, after, execution, n + 1)
  {
    hide TicketOk, Finished, Parameters;
    var handle := HandleAt(now, n);
    LiveAt(now, n);
    forall h: nat
      ensures Live(after, h) <==> Live(now, h)
      ensures Live(now, h) && IndexOf(h) != n ==> Get(after, h) == Get(now, h)
      ensures Live(now, h) && IndexOf(h) == n ==> h == handle
    {
      HandleIsPair(h, handle);
      if after != now {
        PutLaws(now, handle, AfterRun(models, contexts, Get(now, handle)), h);
      }
    }
  }

  lemma SweptAll(models: Table<Model>, contexts: Table<Context>, before: Table<Ticket>, now: Table<Ticket>,
                 execution: nat, n: nat)
    requires Swept(models, contexts, before, now, execution, n) && now.Valid() && |now.slots| <= n
    ensures forall h | Live(now, h) && Get(now, h).context == execution :: Get(now, h).state.Terminal()
  {
    hide Report, PacketBytes, Parameters;
    forall h | Live(now, h) && Get(now, h).context == execution ensures Get(now, h).state.Terminal() {
      assert TicketOk(models, contexts, Get(before, h));
      FinishedIsTerminal(models, contexts, Get(before, h));
    }
  }

  lemma FinishedIsTerminal(models: Table<Model>, contexts: Table<Context>, t: Ticket)
    requires TicketOk(models, contexts, t)
    ensures AfterRun(models, contexts, t).state.Terminal() && SameSubmission(t, AfterRun(models, contexts, t))
  {
  }

  const DEVICE: U64 := 0x5245_4643_5055_1001

  /** What submit is given, besides the context: the frame and where it lives, the scope, and what to do with it. */
  datatype Dispatch = Dispatch(hostStorage: bool, frame: FrameView, scope: Rect, epochs: Epochs, outputCapacity: U32,
                               flags: U32, regionCount: U32, regionsPresent: bool)

  /** The checks on the description that look neither at the context nor at the frame's far edges. */
  predicate Described(d: Dispatch) {
    && d.hostStorage && d.frame.present && d.frame.frameId != 0 && d.frame.width > 0 && d.frame.height > 0
    && d.scope.x >= 0 && d.scope.y >= 0 && d.scope.width > 0 && d.scope.height > 0
    && d.outputCapacity >= MAXIMUM_OUTPUT_SIZE && d.epochs.modelEpoch != 0 && d.epochs.sessionEpoch != 0
    && d.epochs.transformEpoch != 0 && d.epochs.topologyEpoch != 0 && d.epochs.sourceId != 0 && d.flags == 0
    && (d.regionCount != 0 ==> d.regionsPresent)
  }

  function TicketFor(execution: nat, d: Dispatch): Ticket {
    Ticket(execution, d.frame, d.scope, d.epochs.(frameId := d.frame.frameId), Queued, Ok, true, [])
  }

  /** A ticket carries what the caller described: frame, scope, the five epochs and ids, and the frame's own id. */
  ghost predicate Carries(t: Ticket, execution: nat, d: Dispatch) {
    && t.context == execution && t.frame == d.frame && t.scope == d.scope
    && t.epochs.frameId == d.frame.frameId
    && t.epochs.modelEpoch == d.epochs.modelEpoch && t.epochs.sessionEpoch == d.epochs.sessionEpoch
    && t.epochs.transformEpoch == d.epochs.transformEpoch && t.epochs.topologyEpoch == d.epochs.topologyEpoch
    && t.epochs.sourceId == d.epochs.sourceId
  }

  // ---------------------------------------------------------------- runs of the provider

  datatype Books = Books(models: Table<Model>, contexts: Table<Context>, tickets: Table<Ticket>)

  /** The changes that the operations make to the books. An operation makes none, one, or, when it runs or erases
      all tickets of a context, several in a row. */
  datatype Change =
    | AddModel(parameters: ModelParameters) | DropModel(h: nat)
    | AddContext(context: Context) | DropContext(h: nat)
    | AddTicket(ticket: Ticket) | RunTicket(h: nat) | CancelTicket(h: nat) | DropTicket(h: nat)

  ghost predicate Balanced(b: Books) { Consistent(b.models, b.contexts, b.tickets) }

  ghost predicate CanMake(b: Books, change: Change) {
    match change
    case AddModel(p) => HasRoom(b.models) && p.minimumArea > 0
    case DropModel(h) => Live(b.models, h) && Get(b.models, h).contextCount == 0
    case AddContext(c) =>
      HasRoom(b.contexts) && Live(b.models, c.model) && 1 <= c.queueCapacity <= 8 && c.activeTickets == 0
    case DropContext(h) =>
      && Live(b.contexts, h) && Get(b.contexts, h).activeTickets == 0
      && Live(b.models, Get(b.contexts, h).model) && Get(b.models, Get(b.contexts, h).model).contextCount > 0
    case AddTicket(t) =>
      && HasRoom(b.tickets) && Live(b.contexts, t.context)
      && Get(b.contexts, t.context).activeTickets < Get(b.contexts, t.context).queueCapacity
      && t.Dispatchable() && t.state == Queued && t.result == Ok && t.counted && t.output == []
    case RunTicket(h) => Live(b.tickets, h) && TicketOk(b.models, b.contexts, Get(b.tickets, h))
    case CancelTicket(h) => Live(b.tickets, h) && Get(b.tickets, h).state == Queued && Releasable(b, h)
    case DropTicket(h) => Live(b.tickets, h) && Releasable(b, h)
  }

  /** The context of a counted ticket has a place to give back. */
  ghost predicate Releasable(b: Books, h: nat)
    requires Live(b.tickets, h)
  {
    var t := Get(b.tickets, h);
    t.counted ==> Live(b.contexts, t.context) && Get(b.contexts, t.context).activeTickets > 0
  }

  ghost function Made(b: Books, change: Change): Books
    requires CanMake(b, change)
  {
    match change
    case AddModel(p) => b.(models := Emplace(b.models, Model(p, 0)))
    case DropModel(h) => b.(models := Erase(b.models, h))
    case AddContext(c) =>
      var m := Get(b.models, c.model);
      b.(models := Put(b.models, c.model, m.(contextCount := m.contextCount + 1)), contexts := Emplace(b.contexts, c))
    case DropContext(h) =>
      var m := Get(b.models, Get(b.contexts, h).model);
      b.(models := Put(b.models, Get(b.contexts, h).model, m.(contextCount := m.contextCount - 1)),
         contexts := Erase(b.contexts, h))
    case AddTicket(t) =>
      var c := Get(b.contexts, t.context);
      b.(contexts := Put(b.contexts, t.context, c.(activeTickets := c.activeTickets + 1)),
         tickets := Emplace(b.tickets, t))
    case RunTicket(h) =>
      b.(tickets := Put(b.tickets, h, AfterRun(b.models, b.contexts, Get(b.tickets, h))))
    case CancelTicket(h) =>
      b.(contexts := Released(b.contexts, Get(b.tickets, h)),
         tickets := Put(b.tickets, h, CancelledTicket(Get(b.tickets, h))))
    case DropTicket(h) =>
      b.(contexts := Released(b.contexts, Get(b.tickets, h)), tickets := Erase(b.tickets, h))
  }

  lemma ChangeKeeps(b: Books, change: Change)
    requires Balanced(b) && CanMake(b, change)
    ensures Balanced(Made(b, change)) && Evolves(b.tickets, Made(b, change).tickets)
  {
    hide Consistent, Evolves, TicketOk, Finished;
    SameEvolves(b.tickets);
    match change
    case AddModel(p) => CreateModelKeeps(b.models, b.contexts, b.tickets, Model(p, 0));
    case DropModel(h) => DestroyModelKeeps(b.models, b.contexts, b.tickets, h);
    case AddContext(c) => CreateContextKeeps(b.models, b.contexts, b.tickets, c);
    case DropContext(h) => DestroyContextKeeps(b.models, b.contexts, b.tickets, h);
    case AddTicket(t) => SubmitKeeps(b.models, b.contexts, b.tickets, t);
    case RunTicket(h) =>
      if Get(b.tickets, h).state == Queued {
        FinishKeeps(b.models, b.contexts, b.tickets, h);
      } else {
        PutSame(b.tickets, h);
      }
    case CancelTicket(h) => CancelKeeps(b.models, b.contexts, b.tickets, h, CancelledTicket(Get(b.tickets, h)));
    case DropTicket(h) => EraseKeeps(b.models, b.contexts, b.tickets, h);
  }

  /** Books that come one from the other by the changes of the operations. */
  ghost predicate Linked(run: seq<Books>, changes: seq<Change>) {
    && |run| == |changes| + 1
    && forall i | 0 <= i < |changes| :: CanMake(run[i], changes[i]) && run[i + 1] == Made(run[i], changes[i])
  }

  const NO_BOOKS := Books(EmptyTable(4), EmptyTable(4), EmptyTable(8))

  /** In every run of the provider, from empty tables and by any sequence of operations, the books balance at all
      times, tickets keep the submission they were made with, terminal tickets do not change and erased ones do not
      return. */
  lemma {:induction false} RunsEvolve(run: seq<Books>, changes: seq<Change>, i: nat, j: nat)
    requires Linked(run, changes) && run[0] == NO_BOOKS && i <= j < |run|
    ensures Balanced(run[j]) && Evolves(run[i].tickets, run[j].tickets)
    decreases j
  {
    hide Consistent, Evolves, CanMake, Made, Balanced;
    SameEvolves(run[i].tickets);
    if j == 0 {
      NoBooksBalance();
    } else {
      RunsEvolve(run, changes, if i < j then i else j - 1, j - 1);
      ChangeKeeps(run[j - 1], changes[j - 1]);
      assert run[j - 1 + 1] == Made(run[j - 1], changes[j - 1]);
      if i < j {
        EvolvesTransitively(run[i].tickets, run[j - 1].tickets, run[j].tickets);
      }
    }
  }

  lemma NoBooksBalance()
    ensures Balanced(NO_BOOKS)
  {
  }

  /** Some changes of the operations lead from a to b. */
  ghost predicate Reaches(a: Books, b: Books) {
    exists run: seq<Books>, changes: seq<Change> ::
      Linked(run, changes) && run[0] == a && run[|run| - 1] == b
  }

  lemma ReachesItself(a: Books)
    ensures Reaches(a, a)
  {
    assert Linked([a], []);
  }

  lemma ReachesBy(a: Books, b: Books, change: Change)
    requires Reaches(a, b) && CanMake(b, change)
    ensures Reaches(a, Made(b, change))
  {
    hide CanMake, Made;
    var run, changes :| Linked(run, changes) && run[0] == a && run[|run| - 1] == b;
    var longer, more := run + [Made(b, change)], changes + [change];
    forall i | 0 <= i < |more| ensures CanMake(longer[i], more[i]) && longer[i + 1] == Made(longer[i], more[i]) {
      if i < |changes| {
        assert CanMake(run[i], changes[i]) && run[i + 1] == Made(run[i], changes[i]);
      }
    }
    assert Linked(longer, more);
  }

  lemma ReachesDirectly(b: Books, change: Change)
    requires CanMake(b, change)
    ensures Reaches(b, Made(b, change))
  {
    hide CanMake, Made;
    ReachesItself(b);
    ReachesBy(b, b, change);
  }

  lemma ReachesKeeps(a: Books, b: Books)
    requires Balanced(a) && Reaches(a, b)
    ensures Balanced(b) && Evolves(a.tickets, b.tickets)
  {
    hide CanMake, Made, Balanced, Evolves;
    var run: seq<Books>, changes: seq<Change> :| Linked(run, changes) && run[0] == a && run[|run| - 1] == b;
    SameEvolves(a.tickets);
    for n := 0 to |changes|
      invariant Balanced(run[n]) && Evolves(a.tickets, run[n].tickets)
    {
      assert CanMake(run[n], changes[n]) && run[n + 1] == Made(run[n], changes[n]);
      ChangeKeeps(run[n], changes[n]);
      EvolvesTransitively(a.tickets, run[n].tickets, run[n + 1].tickets);
    }
  }

  lemma ReachesTransitively(a: Books, b: Books, c: Books)
    requires Reaches(a, b) && Reaches(b, c)
    ensures Reaches(a, c)
  {
    hide CanMake, Made;
    var run, changes :| Linked(run, changes) && run[0] == b && run[|run| - 1] == c;
    for n := 0 to |changes|
      invariant Reaches(a, run[n])
    {
      assert CanMake(run[n], changes[n]) && run[n + 1] == Made(run[n], changes[n]);
      ReachesBy(a, run[n], changes[n]);
    }
  }

  class Backend {
    var models: Table<Model>
    var contexts: Table<Context>
    var tickets: Table<Ticket>

    ghost function Now(): Books
      reads this
    {
      Books(models, contexts, tickets)
    }

    ghost predicate Valid()
      reads this
    {
      Consistent(models, contexts, tickets)
    }

    constructor ()
      ensures Valid()
      ensures Now() == NO_BOOKS
    {
      models := EmptyTable(4);
      contexts := EmptyTable(4);
      tickets := EmptyTable(8);
    }

    /** A model is described by its bytes, a stable id, the device it is for, and flags. */
    method CreateModel(bytes: Option<seq<Byte>>, stableId: U64, device: U64, flags: U32)
      returns (status: Status, handle: nat)
      requires Valid()
      modifies this`models
      ensures Valid() && Reaches(old(Now()), Now())
      ensures status == if stableId == 0 || device != DEVICE || flags != 0 || ModelFiles.ParseModel(bytes).None?
                        then InvalidArgument
                        else if HasRoom(old(models)) then Ok else Capacity
      ensures status == Ok ==> handle == NextHandle(old(models))
                               && models == Emplace(old(models), Model(ModelFiles.ParseModel(bytes).value, 0))
      ensures status != Ok ==> handle == 0 && models == old(models)
    {
      handle := 0;
      ReachesItself(Now());
      if stableId == 0 || device != DEVICE || flags != 0 {
        return InvalidArgument, 0;
      }
      var parameters := ModelFiles.ParseModel(bytes);
      if parameters.None? {
        return InvalidArgument, 0;
      }
      if !HasRoom(models) {
        return Capacity, 0;
      }
      ModelFiles.ModelRoundTrip(bytes, parameters.value);
      ReachesDirectly(Now(), AddModel(parameters.value));
      CreateModelKeeps(models, contexts, tickets, Model(parameters.value, 0));
      handle := NextHandle(models);
      models := Emplace(models, Model(parameters.value, 0));
      status := Ok;
    }

    method DestroyModel(handle: nat) returns (status: Status)
      requires Valid()
      modifies this`models
      ensures Valid() && Reaches(old(Now()), Now())
      ensures status == if !Live(old(models), handle) then StaleHandle
                        else if Where(contexts, Using(handle)) != {} then Busy else Ok
      ensures models == if status == Ok then Erase(old(models), handle) else old(models)
    {
      ReachesItself(Now());
      if !Live(models, handle) {
        return StaleHandle;
      }
      assert ModelOk(contexts, handle, Get(models, handle));
      if Get(models, handle).contextCount != 0 {
        return Busy;
      }
      ReachesDirectly(Now(), DropModel(handle));
      DestroyModelKeeps(models, contexts, tickets, handle);
      models := Erase(models, handle);
      status := Ok;
    }

    method CreateContext(model: nat, device: U64, queueCapacity: U32, maxInFlight: U32, flags: U32)
      returns (status: Status, handle: nat)
      requires Valid()
      modifies this`models, this`contexts
      ensures Valid() && Reaches(old(Now()), Now())
      ensures status ==
              if model == 0 || device != DEVICE || queueCapacity == 0 || queueCapacity > 8 || maxInFlight == 0 ||
                 maxInFlight > queueCapacity || flags != 0
              then InvalidArgument
              else if !Live(old(models), model) then StaleHandle
              else if HasRoom(old(contexts)) then Ok else Capacity
      ensures status == Ok ==> handle == NextHandle(old(contexts))
                               && contexts == Emplace(old(contexts), Context(model, queueCapacity, 0))
                               && var m := Get(old(models), model);
                                  models == Put(old(models), model, m.(contextCount := m.contextCount + 1))
      ensures status != Ok ==> handle == 0 && contexts == old(contexts) && models == old(models)
    {
      handle := 0;
      ReachesItself(Now());
      if model == 0 || device != DEVICE || queueCapacity == 0 || queueCapacity > 8 || maxInFlight == 0 ||
         maxInFlight > queueCapacity || flags != 0
      {
        return InvalidArgument, 0;
      }
      if !Live(models, model) {
        return StaleHandle, 0;
      }
      if !HasRoom(contexts) {
        return Capacity, 0;
      }
      ReachesDirectly(Now(), AddContext(Context(model, queueCapacity, 0)));
      CreateContextKeeps(models, contexts, tickets, Context(model, queueCapacity, 0));
      handle := NextHandle(contexts);
      contexts := Emplace(contexts, Context(model, queueCapacity, 0));
      var m := Get(models, model);
      models := Put(models, model, m.(contextCount := m.contextCount + 1));
      status := Ok;
    }

    method DestroyContext(handle: nat) returns (status: Status)
      requires Valid()
      modifies this`models, this`contexts
      ensures Valid() && Reaches(old(Now()), Now())
      ensures status == if !Live(old(contexts), handle) then StaleHandle
                        else if Where(tickets, CountedFor(handle)) != {} then Busy else Ok
      ensures contexts == if status == Ok then Erase(old(contexts), handle) else old(contexts)
      ensures status == Ok ==>
                var model := Get(old(contexts), handle).model;
                && Live(old(models), model) && Get(old(models), model).contextCount > 0
                && var m := Get(old(models), model);
                   models == Put(old(models), model, m.(contextCount := m.contextCount - 1))
      ensures status != Ok ==> models == old(models)
    {
      ReachesItself(Now());
      if !Live(contexts, handle) {
        return StaleHandle;
      }
      assert ContextOk(models, tickets, handle, Get(contexts, handle));
      if Get(contexts, handle).activeTickets != 0 {
        return Busy;
      }
      DestroyContextKeeps(models, contexts, tickets, handle);
      ReachesDirectly(Now(), DropContext(handle));
      var model := Get(contexts, handle).model;
      var m := Get(models, model);
      models := Put(models, model, m.(contextCount := m.contextCount - 1));
      contexts := Erase(contexts, handle);
      status := Ok;
    }

    /** A scope inside the frame must start inside the frame's buffer, which the runtime's import check establishes
        for all of the frame's pixels. The ticket takes its frame id from the frame. */
    method Submit(execution: nat, d: Dispatch) returns (status: Status, handle: nat)
      requires Valid() && d.frame.Addressable()
      requires InsideFrame(d.scope, d.frame) ==> d.frame.PixelOffset(d.scope.x, d.scope.y) <= |d.frame.data|
      modifies this`contexts, this`tickets
      ensures Valid() && Evolves(old(tickets), tickets) && Reaches(old(Now()), Now())
      ensures status == if !Described(d) then InvalidArgument
                        else if !Live(old(contexts), execution) then StaleHandle
                        else if !InsideFrame(d.scope, d.frame) then InvalidArgument
                        else if |Where(old(tickets), CountedFor(execution))|
                                >= Get(old(contexts), execution).queueCapacity
                        then Busy
                        else if HasRoom(old(tickets)) then Ok else Capacity
      ensures status == Ok ==>
                && handle == NextHandle(old(tickets))
                && Live(tickets, handle) && Carries(Get(tickets, handle), execution, d)
                && Get(tickets, handle).state == Queued && Get(tickets, handle).output == []
                && tickets == Emplace(old(tickets), Get(tickets, handle))
                && var c := Get(old(contexts), execution);
                   contexts == Put(old(contexts), execution, c.(activeTickets := c.activeTickets + 1))
      ensures status != Ok ==> handle == 0 && tickets == old(tickets) && contexts == old(contexts)
    {
      hide Consistent, Where, TicketOk, Evolves, Reaches;
      handle := 0;
      ReachesItself(Now());
      SameEvolves(tickets);
      var frame, scope, epochs := d.frame, d.scope, d.epochs;
      if !d.hostStorage || !frame.present || frame.frameId == 0 || frame.width == 0 || frame.height == 0 ||
         scope.x < 0 || scope.y < 0 || scope.width <= 0 || scope.height <= 0 ||
         d.outputCapacity < MAXIMUM_OUTPUT_SIZE || epochs.modelEpoch == 0 || epochs.sessionEpoch == 0 ||
         epochs.transformEpoch == 0 || epochs.topologyEpoch == 0 || epochs.sourceId == 0 || d.flags != 0 ||
         (d.regionCount != 0 && !d.regionsPresent)
      {
        return InvalidArgument, 0;
      }
      if !Live(contexts, execution) {
        return StaleHandle, 0;
      }
      if scope.x + scope.width > frame.width || scope.y + scope.height > frame.height {
        return InvalidArgument, 0;
      }
      var c := Get(contexts, execution);
      ContextFacts(models, contexts, tickets, execution);
      if c.activeTickets >= c.queueCapacity {
        return Busy, 0;
      }
      var ticket := TicketFor(execution, d);
      if !HasRoom(tickets) {
        return Capacity, 0;
      }
      ReachesDirectly(Now(), AddTicket(ticket));
      SubmitKeeps(models, contexts, tickets, ticket);
      handle := NextHandle(tickets);
      SpineOf(models, contexts, tickets);
      EmplaceLaws(tickets, ticket, handle);
      tickets := Emplace(tickets, ticket);
      contexts := Put(contexts, execution, c.(activeTickets := c.activeTickets + 1));
      status := Ok;
    }

    /** Detect through the ticket's scope and write the packet. A queued ticket's context and model
        are always live and the packet always fits, so those two failures never happen. */
    method RunTicket(handle: nat)
      requires Valid() && Live(tickets, handle)
      modifies this`tickets
      ensures Valid() && Evolves(old(tickets), tickets) && Reaches(old(Now()), Now())
      ensures TicketOk(models, contexts, Get(old(tickets), handle))
      ensures tickets == Put(old(tickets), handle, AfterRun(models, contexts, Get(old(tickets), handle)))
    {
      var t := Get(tickets, handle);
      assert TicketOk(models, contexts, t);
      PutSame(tickets, handle);
      ReachesDirectly(Now(), Change.RunTicket(handle));
      if t.state != Queued {
        SameEvolves(tickets);
        return;
      }
      if !Live(contexts, t.context) || !Live(models, Get(contexts, t.context).model) {
        assert false;
      }
      var context := Get(contexts, t.context);
      var model := Get(models, context.model);
      FinishKeeps(models, contexts, tickets, handle);
      ReportIsSmall(t, model.parameters);
      var status, found := Detect(ScopedView(t.frame, t.scope), model.parameters);
      if status != Ok {
        tickets := Put(tickets, handle, t.(state := Failed, result := status));
        return;
      }
      var shifted := ShiftAll(found, t.frame.frameId, t.scope.x, t.scope.y);
      assert shifted == Report(t, model.parameters).targets;
      var buffer := new Byte[MAXIMUM_OUTPUT_SIZE](_ => 0);
      var size := SerializeOutput(buffer, t.epochs, shifted);
      if size == 0 {
        assert false;
      }
      tickets := Put(tickets, handle, t.(state := Complete, result := Ok, output := buffer[..size]));
    }

    method Poll(execution: nat, handle: nat) returns (status: Status, info: TicketInfo)
      requires Valid()
      modifies this`tickets
      ensures Valid() && Evolves(old(tickets), tickets) && Reaches(old(Now()), Now())
      ensures status == if Live(old(tickets), handle) && Get(old(tickets), handle).context == execution then Ok
                        else StaleHandle
      ensures status == Ok ==> TicketOk(models, contexts, Get(old(tickets), handle))
                               && tickets == Put(old(tickets), handle,
                                                 AfterRun(models, contexts, Get(old(tickets), handle)))
                               && info == InfoOf(AfterRun(models, contexts, Get(old(tickets), handle)))
      ensures status == Ok ==> Live(tickets, handle) && Tells(info, Get(tickets, handle))
      ensures status != Ok ==> tickets == old(tickets)
    {
      SameEvolves(tickets);
      ReachesItself(Now());
      if !Live(tickets, handle) || Get(tickets, handle).context != execution {
        return StaleHandle, NoInfo;
      }
      ghost var before := tickets;
      RunTicket(handle);
      PutTwice(before, handle, Get(tickets, handle), Get(tickets, handle));
      return Ok, InfoOf(Get(tickets, handle));
    }

    /** With a zero timeout a queued ticket is reported as it stands; otherwise it is run first. */
    method Wait(execution: nat, handle: nat, timeout: nat) returns (status: Status, info: TicketInfo)
      requires Valid()
      modifies this`tickets
      ensures Valid() && Evolves(old(tickets), tickets) && Reaches(old(Now()), Now())
      ensures status == if !Live(old(tickets), handle) || Get(old(tickets), handle).context != execution
                        then StaleHandle
                        else if Get(old(tickets), handle).state == Queued && timeout == 0 then Timeout else Ok
      ensures status == Ok ==> TicketOk(models, contexts, Get(old(tickets), handle))
                               && tickets == Put(old(tickets), handle,
                                                 AfterRun(models, contexts, Get(old(tickets), handle)))
                               && info == InfoOf(AfterRun(models, contexts, Get(old(tickets), handle)))
                                  && info.state.Terminal()
      ensures status == Timeout ==> info == InfoOf(Get(old(tickets), handle))
      ensures status in {Ok, Timeout} ==> Live(tickets, handle) && Tells(info, Get(tickets, handle))
      ensures status != Ok ==> tickets == old(tickets)
    {
      SameEvolves(tickets);
      ReachesItself(Now());
      if !Live(tickets, handle) || Get(tickets, handle).context != execution {
        return StaleHandle, NoInfo;
      }
      assert TicketOk(models, contexts, Get(tickets, handle));
      if Get(tickets, handle).state == Queued && timeout == 0 {
        return Timeout, InfoOf(Get(tickets, handle));
      }
      ghost var before := tickets;
      RunTicket(handle);
      PutTwice(before, handle, Get(tickets, handle), Get(tickets, handle));
      return Ok, InfoOf(Get(tickets, handle));
    }

    /** Hand a terminal ticket over and free it. The bytes of a completed ticket are the packet of its own
        submission. */
    method Collect(execution: nat, handle: nat, buffer: Option<nat>)
      returns (status: Status, required: nat, bytes: seq<Byte>)
      requires Valid()
      modifies this`tickets, this`contexts
      ensures Valid() && Evolves(old(tickets), tickets) && Reaches(old(Now()), Now())
      ensures !Live(old(tickets), handle) || Get(old(tickets), handle).context != execution ==>
                status == StaleHandle && tickets == old(tickets) && contexts == old(contexts)
      ensures status != Ok ==> bytes == []
      ensures Live(old(tickets), handle) && Get(old(tickets), handle).context == execution ==>
                var t := Get(old(tickets), handle);
                && required == |t.output|
                && status == (if t.state.Pending() then Busy
                              else if t.state != Complete then t.result
                              else if buffer.None? || buffer.value < |t.output| then Capacity else Ok)
                && (t.state == TicketCancelled ==> status == Cancelled)
                && (t.counted ==> Live(old(contexts), t.context) && Get(old(contexts), t.context).activeTickets > 0)
                && (if t.state in {TicketCancelled, Failed} || status == Ok
                    then tickets == Erase(old(tickets), handle) && contexts == Released(old(contexts), t)
                    else tickets == old(tickets) && contexts == old(contexts))
                && (status == Ok ==> TicketOk(old(models), old(contexts), t) && t.counted
                                     && Delivers(t, Parameters(old(models), old(contexts), t), bytes))
    {
      hide Consistent, Evolves, TicketOk, Delivers, Reaches;
      required, bytes := 0, [];
      SameEvolves(tickets);
      ReachesItself(Now());
      if !Live(tickets, handle) || Get(tickets, handle).context != execution {
        return StaleHandle, 0, [];
      }
      var t := Get(tickets, handle);
      CollectFacts(models, contexts, tickets, handle);
      required := |t.output|;
      if t.state == TicketCancelled || t.state == Failed {
        Release(handle);
        return t.result, required, [];
      }
      if t.state != Complete {
        return Busy, required, [];
      }
      if buffer.None? || buffer.value < |t.output| {
        return Capacity, required, [];
      }
      bytes := t.output;
      Release(handle);
      status := Ok;
    }

    /** Give up the ticket's place and erase it. */
    method Release(handle: nat)
      requires Valid() && Live(tickets, handle)
      modifies this`tickets, this`contexts
      ensures Valid() && Evolves(old(tickets), tickets) && Reaches(old(Now()), Now())
      ensures tickets == Erase(old(tickets), handle)
      ensures var t := Get(old(tickets), handle);
              && (t.counted ==> Live(old(contexts), t.context) && Get(old(contexts), t.context).activeTickets > 0)
              && contexts == Released(old(contexts), t)
    {
      EraseKeeps(models, contexts, tickets, handle);
      ReachesDirectly(Now(), DropTicket(handle));
      contexts := Released(contexts, Get(tickets, handle));
      tickets := Erase(tickets, handle);
    }

    method Cancel(execution: nat, handle: nat) returns (status: Status)
      requires Valid()
      modifies this`tickets, this`contexts
      ensures Valid() && Evolves(old(tickets), tickets) && Reaches(old(Now()), Now())
      ensures status == if !Live(old(tickets), handle) || Get(old(tickets), handle).context != execution
                        then StaleHandle
                        else if Get(old(tickets), handle).state != Queued then State else Ok
      ensures status == Ok ==>
                var t := Get(old(tickets), handle);
                && tickets == Put(old(tickets), handle, CancelledTicket(t))
                && Live(old(contexts), t.context) && Get(old(contexts), t.context).activeTickets > 0
                && contexts == Released(old(contexts), t)
      ensures status != Ok ==> tickets == old(tickets) && contexts == old(contexts)
    {
      SameEvolves(tickets);
      ReachesItself(Now());
      if !Live(tickets, handle) || Get(tickets, handle).context != execution {
        return StaleHandle;
      }
      var t := Get(tickets, handle);
      if t.state != Queued {
        return State;
      }
      var cancelled := CancelledTicket(t);
      CancelKeeps(models, contexts, tickets, handle, cancelled);
      ReachesDirectly(Now(), CancelTicket(handle));
      tickets := Put(tickets, handle, cancelled);
      contexts := Released(contexts, t);
      status := Ok;
    }

    /** Run every queued ticket of the context, or only report that there is one when there is no time. */
    method Synchronize(execution: nat, timeout: nat) returns (status: Status)
      requires Valid()
      modifies this`tickets
      ensures Valid() && Evolves(old(tickets), tickets) && Reaches(old(Now()), Now())
      ensures status == if !Live(contexts, execution) then StaleHandle
                        else if timeout == 0 && HasQueued(old(tickets), execution) then Timeout else Ok
      ensures status == StaleHandle || timeout == 0 ==> tickets == old(tickets)
      ensures status == Ok && timeout != 0 ==>
                && Swept(models, contexts, old(tickets), tickets, execution, 8)
                && forall h | Live(tickets, h) && Get(tickets, h).context == execution ::
                     Get(tickets, h).state.Terminal()
    {
      hide Consistent, Evolves, Swept, TicketOk, Reaches;
      SameEvolves(tickets);
      ReachesItself(Now());
      SpineOf(models, contexts, tickets);
      if !Live(contexts, execution) {
        return StaleHandle;
      }
      ghost var before, start := tickets, Now();
      var queued := false;
      NothingSwept(models, contexts, tickets, execution);
      for index := 0 to 8
        invariant Valid() && Evolves(before, tickets) && Reaches(start, Now()) && |tickets.slots| == 8
        invariant timeout == 0 ==> tickets == before
        invariant timeout == 0 ==> (queued <==> HasQueuedBelow(tickets, execution, index))
        invariant timeout != 0 ==> Swept(models, contexts, before, tickets, execution, index)
      {
        ghost var now, was := tickets, Now();
        SpineOf(models, contexts, tickets);
        LiveAt(tickets, index);
        if tickets.slots[index].value.Some? {
          var handle := HandleAt(tickets, index);
          if Get(tickets, handle).context == execution && Get(tickets, handle).state == Queued {
            queued := true;
            if timeout != 0 {
              RunTicket(handle);
              EvolvesTransitively(before, now, tickets);
              ReachesTransitively(start, was, Now());
            }
          }
        }
        if timeout != 0 {
          SweptOneMore(models, contexts, before, now, execution, index, tickets);
        }
      }
      if timeout != 0 {
        SpineOf(models, contexts, tickets);
        SweptAll(models, contexts, before, tickets, execution, 8);
      }
      status := if queued && timeout == 0 then Timeout else Ok;
    }

    /** Erase every ticket of the context. The books are already balanced when its count is then zeroed. */
    method Reset(execution: nat) returns (status: Status)
      requires Valid()
      modifies this`tickets, this`contexts
      ensures Valid() && Evolves(old(tickets), tickets) && Reaches(old(Now()), Now())
      ensures status == if Live(old(contexts), execution) then Ok else StaleHandle
      ensures status != Ok ==> tickets == old(tickets) && contexts == old(contexts)
      ensures status == Ok ==>
                && Without(old(tickets), tickets, execution)
                && contexts == Put(old(contexts), execution, Get(old(contexts), execution).(activeTickets := 0))
    {
      SameEvolves(tickets);
      ReachesItself(Now());
      if !Live(contexts, execution) {
        return StaleHandle;
      }
      ghost var before, start := tickets, Now();
      var handles := HandlesWhere(tickets, (t: Ticket) => t.context == execution);
      ghost var places := contexts;
      PlacesSame(places, execution);
      for index := 0 to |handles|
        invariant Valid() && Evolves(before, tickets) && Reaches(start, Now()) && Live(places, execution)
        invariant OnlyMissing(before, tickets, handles[..index])
        invariant SamePlacesBut(places, contexts, execution)
      {
        hide Consistent, Evolves, OnlyMissing, SamePlacesBut, Reaches;
        ghost var now, counts, was := tickets, contexts, Now();
        SpineOf(models, contexts, tickets);
        var handle := handles[index];
        NextIsLive(before, now, handles, index, execution);
        Release(handle);
        EvolvesTransitively(before, now, tickets);
        ReachesTransitively(start, was, Now());
        MissingOneMore(before, now, handles, index);
        ReleasedPlaces(places, counts, execution, Get(now, handle));
      }
      assert handles[..|handles|] == handles;
      NoneLeft(before, tickets, handles, execution);
      PlaceIsEmpty(models, contexts, tickets, execution);
      PutZero(places, contexts, execution);
      contexts := Put(contexts, execution, Get(contexts, execution).(activeTickets := 0));
      status := Ok;
    }
  }

  lemma SameEvolves(t: Table<Ticket>)
    ensures Evolves(t, t)
  {
  }
}
