/** The mock provider's inference machine: contexts with a queue bound and an in-flight bound, tickets that take a
    number of polls to complete, and an injected fault. */
module MockInference {
  import opened Statuses
  import opened HandleTables
  import opened MockFaults
  import opened Words
  import opened TargetPackets
  import opened PacketLayouts

  datatype Model = Model(contextCount: nat)

  datatype Context = Context(model: nat, queueCapacity: nat, maxInFlight: nat, activeTickets: nat, runningTickets: nat)

  datatype Ticket = Ticket(context: nat, epochs: Epochs, remainingPolls: nat, state: TicketState, result: Status,
                           counted: bool, runningCounted: bool, output: seq<Byte>)

  datatype Books = Books(models: Table<Model>, contexts: Table<Context>, tickets: Table<Ticket>)

  const DEVICE: U64 := 0x4D4F_434B_1001
  const OUTPUT_SIZE := 32

  /** What submit is given, besides the context. */
  datatype Dispatch = Dispatch(epochs: Epochs, frameWidth: U32, frameHeight: U32, scopeWidth: I32, scopeHeight: I32,
                               outputCapacity: U32, flags: U32, regionCount: U32, regionsPresent: bool)

  /** The checks on the description, none of which looks at the provider. */
  predicate Described(d: Dispatch) {
    && d.epochs.frameId != 0 && d.frameWidth != 0 && d.frameHeight != 0 && d.scopeWidth > 0 && d.scopeHeight > 0
    && (d.regionCount != 0 ==> d.regionsPresent) && d.outputCapacity >= OUTPUT_SIZE
    && d.epochs.modelEpoch != 0 && d.epochs.sessionEpoch != 0 && d.epochs.transformEpoch != 0
    && d.epochs.topologyEpoch != 0 && d.epochs.sourceId != 0 && d.flags == 0
  }

  // ---------------------------------------------------------------- the output

  function OutputWidths(): seq<nat> { Repeat(8, 4) }

  function OutputFields(e: Epochs): seq<nat> { [e.frameId, e.modelEpoch, e.sessionEpoch, e.transformEpoch] }

  /** Four words, little-endian: the frame id and three of the epochs the frame was submitted with. */
  function OutputBytes(e: Epochs): (bytes: seq<Byte>)
    ensures |bytes| == OUTPUT_SIZE == TotalWidth(OutputWidths())
  {
    RepeatWidth(8, 4);
    EncodeFields(OutputWidths(), OutputFields(e))
  }

  /** Where the words stand in the output. */
  lemma OutputStands(e: Epochs)
    ensures var bytes := OutputBytes(e);
            && |bytes| == 32
            && Read64(bytes, 0) == e.frameId && Read64(bytes, 8) == e.modelEpoch
            && Read64(bytes, 16) == e.sessionEpoch && Read64(bytes, 24) == e.transformEpoch
  {
    hide DecodeFields, EncodeFields, Read64, Repeat;
    var bytes := OutputBytes(e);
    OutputDecodes(e);
    assert bytes[0..32] == bytes;
    FieldsFrom(bytes, 0, 8, 4, 0);
    FieldsFrom(bytes, 0, 8, 4, 1);
    FieldsFrom(bytes, 0, 8, 4, 2);
    FieldsFrom(bytes, 0, 8, 4, 3);
  }

  /** The output read back word by word is what was submitted. */
  lemma OutputDecodes(e: Epochs)
    ensures DecodeFields(OutputWidths(), OutputBytes(e)) == OutputFields(e)
  {
    hide EncodeFields, DecodeFields, Power256;
    Powers();
    FieldsRoundTrip(OutputWidths(), OutputFields(e));
  }

  // ---------------------------------------------------------------- what the counters count

  ghost function CountedFor(c: nat): Ticket -> bool { (t: Ticket) => t.counted && t.context == c }
  ghost function RunningFor(c: nat): Ticket -> bool { (t: Ticket) => t.state == Running && t.context == c }
  ghost function PendingFor(c: nat): Ticket -> bool { (t: Ticket) => t.state.Pending() && t.context == c }
  ghost function Using(m: nat): Context -> bool { (c: Context) => c.model == m }

  ghost predicate TicketOk(contexts: Table<Context>, t: Ticket) {
    && (t.counted <==> t.state != TicketCancelled)
    && (t.counted ==> Live(contexts, t.context))
    && (t.runningCounted <==> t.state == Running)
    && t.state != Failed
    && (t.state.Pending() ==> t.remainingPolls > 0)
    && t.result == (if t.state == TicketCancelled then Cancelled else Ok)
    && t.output == OutputBytes(t.epochs)
  }

  ghost predicate ContextOk(models: Table<Model>, tickets: Table<Ticket>, h: nat, c: Context) {
    && 1 <= c.maxInFlight <= c.queueCapacity <= 8
    && c.activeTickets == |Where(tickets, CountedFor(h))| <= c.queueCapacity
    && c.runningTickets == |Where(tickets, RunningFor(h))| <= c.maxInFlight
    && Live(models, c.model)
  }

  ghost predicate ModelOk(contexts: Table<Context>, h: nat, m: Model) {
    m.contextCount == |Where(contexts, Using(h))|
  }

  /** The invariant of every run. */
  ghost predicate Consistent(b: Books) {
    && b.models.Valid() && b.contexts.Valid() && b.tickets.Valid()
    && |b.models.slots| == 4 && |b.contexts.slots| == 4 && |b.tickets.slots| == 8
    && (forall h: nat | Live(b.models, h) :: ModelOk(b.contexts, h, Get(b.models, h)))
    && (forall h: nat | Live(b.contexts, h) :: ContextOk(b.models, b.tickets, h, Get(b.contexts, h)))
    && (forall h: nat | Live(b.tickets, h) :: TicketOk(b.contexts, Get(b.tickets, h)))
  }

  /** Running tickets are a part of the active ones: running <= active in every state. */
  lemma RunningWithinActive(b: Books, h: nat)
    requires Consistent(b) && Live(b.contexts, h)
    ensures var c := Get(b.contexts, h);
            && c.runningTickets <= c.activeTickets <= c.queueCapacity && c.runningTickets <= c.maxInFlight
  {
    assert ContextOk(b.models, b.tickets, h, Get(b.contexts, h));
    RunningIsCounted(b, h);
  }

  // ---------------------------------------------------------------- what the operations keep

  lemma TicketOkKept(a: Table<Context>, b: Table<Context>, t: Ticket)
    requires TicketOk(a, t) && (t.counted && Live(a, t.context) ==> Live(b, t.context))
    ensures TicketOk(b, t)
  {
  }

  lemma CountedIsLive(b: Books, h: nat)
    requires Consistent(b) && Live(b.tickets, h)
    ensures TicketOk(b.contexts, Get(b.tickets, h))
    ensures var t := Get(b.tickets, h);
            t.counted ==> Live(b.contexts, t.context)
                          && ContextOk(b.models, b.tickets, t.context, Get(b.contexts, t.context))
                          && Get(b.contexts, t.context).activeTickets > 0
                          && (t.state == Running ==> Get(b.contexts, t.context).runningTickets > 0)
  {
    var t := Get(b.tickets, h);
    assert TicketOk(b.contexts, t);
    if t.counted {
      assert ContextOk(b.models, b.tickets, t.context, Get(b.contexts, t.context));
      assert IndexOf(h) in Where(b.tickets, CountedFor(t.context));
      assert t.state == Running ==> IndexOf(h) in Where(b.tickets, RunningFor(t.context));
    }
  }

  /** The context's counters after one of its tickets went from t to v; erasing is going to an uncounted ticket. */
  function Recount(c: Context, t: Ticket, v: Ticket): Context
    requires c.activeTickets + Bit(v.counted) >= Bit(t.counted)
    requires c.runningTickets + Bit(v.state == Running) >= Bit(t.state == Running)
  {
    c.(activeTickets := c.activeTickets + Bit(v.counted) - Bit(t.counted),
       runningTickets := c.runningTickets + Bit(v.state == Running) - Bit(t.state == Running))
  }

  lemma UsingPut(contexts: Table<Context>, h: nat, c: Context, m: nat)
    requires contexts.Valid() && Live(contexts, h) && c.model == Get(contexts, h).model
    ensures Where(Put(contexts, h, c), Using(m)) == Where(contexts, Using(m))
  {
    WherePut(contexts, h, c, Using(m));
  }

  /** Whatever happens to the tickets, the books balance again when each context's counters follow them. */
  lemma Rebalance(b: Books, c: nat, context: Context, tickets: Table<Ticket>)
    requires Consistent(b) && Live(b.contexts, c) && tickets.Valid() && |tickets.slots| == 8
    requires context
             == Get(b.contexts, c).(activeTickets := context.activeTickets, runningTickets := context.runningTickets)
    requires ContextOk(b.models, tickets, c, context)
    requires forall k: nat | Live(b.contexts, k) && k != c :: ContextOk(b.models, tickets, k, Get(b.contexts, k))
    requires forall h: nat | Live(tickets, h) :: TicketOk(b.contexts, Get(tickets, h))
    ensures Consistent(Books(b.models, Put(b.contexts, c, context), tickets))
  {
    hide TicketOk, ContextOk;
    var contexts := Put(b.contexts, c, context);
    PutLaws(b.contexts, c, context, c);
    forall m: nat | Live(b.models, m) ensures ModelOk(contexts, m, Get(b.models, m)) {
      assert ModelOk(b.contexts, m, Get(b.models, m));
      UsingPut(b.contexts, c, context, m);
    }
    forall k: nat | Live(contexts, k) ensures ContextOk(b.models, tickets, k, Get(contexts, k)) {
      PutLaws(b.contexts, c, context, k);
    }
    forall h: nat | Live(tickets, h) ensures TicketOk(contexts, Get(tickets, h)) {
      PutLaws(b.contexts, c, context, Get(tickets, h).context);
      TicketOkKept(b.contexts, contexts, Get(tickets, h));
    }
  }

  lemma CountsPut(t: Table<Ticket>, h: nat, v: Ticket, k: nat)
    requires t.Valid() && Live(t, h) && v.context == Get(t, h).context
    ensures k != v.context ==> |Where(Put(t, h, v), CountedFor(k))| == |Where(t, CountedFor(k))|
                               && |Where(Put(t, h, v), RunningFor(k))| == |Where(t, RunningFor(k))|
    ensures k == v.context ==>
              && |Where(Put(t, h, v), CountedFor(k))|
                 == |Where(t, CountedFor(k))| + Bit(v.counted) - Bit(Get(t, h).counted)
              && |Where(Put(t, h, v), RunningFor(k))|
                 == |Where(t, RunningFor(k))| + Bit(v.state == Running) - Bit(Get(t, h).state == Running)
  {
    hide Where;
    CountPut(t, h, v, CountedFor(k));
    CountPut(t, h, v, RunningFor(k));
  }

  lemma CountsErase(t: Table<Ticket>, h: nat, k: nat)
    requires t.Valid() && Live(t, h)
    ensures k != Get(t, h).context ==> |Where(Erase(t, h), CountedFor(k))| == |Where(t, CountedFor(k))|
                                       && |Where(Erase(t, h), RunningFor(k))| == |Where(t, RunningFor(k))|
    ensures k == Get(t, h).context ==>
              && |Where(Erase(t, h), CountedFor(k))| == |Where(t, CountedFor(k))| - Bit(Get(t, h).counted)
              && |Where(Erase(t, h), RunningFor(k))| == |Where(t, RunningFor(k))| - Bit(Get(t, h).state == Running)
  {
    hide Where;
    CountErase(t, h, CountedFor(k));
    CountErase(t, h, RunningFor(k));
  }

  lemma CountsEmplace(t: Table<Ticket>, v: Ticket, k: nat)
    requires t.Valid() && HasRoom(t) && v.state != Running
    ensures |Where(Emplace(t, v), CountedFor(k))| == |Where(t, CountedFor(k))| + Bit(v.counted && v.context == k)
    ensures |Where(Emplace(t, v), RunningFor(k))| == |Where(t, RunningFor(k))|
  {
    hide Where;
    CountEmplace(t, v, CountedFor(k));
    CountEmplace(t, v, RunningFor(k));
  }

  /** A counted ticket may go to any other proper state, within the in-flight bound. */
  lemma MoveKeeps(b: Books, h: nat, v: Ticket)
    requires Consistent(b) && Live(b.tickets, h) && Get(b.tickets, h).counted
    requires v.context == Get(b.tickets, h).context && TicketOk(b.contexts, v)
    requires Live(b.contexts, v.context)
    requires Get(b.contexts, v.context).activeTickets > 0
    requires Get(b.tickets, h).state == Running ==> Get(b.contexts, v.context).runningTickets > 0
    requires v.state == Running && Get(b.tickets, h).state != Running ==>
               Get(b.contexts, v.context).runningTickets < Get(b.contexts, v.context).maxInFlight
    ensures Consistent(Books(b.models,
                             Put(b.contexts, v.context, Recount(Get(b.contexts, v.context), Get(b.tickets, h), v)),
                             Put(b.tickets, h, v)))
  {
    hide TicketOk, Where;
    var t, c := Get(b.tickets, h), v.context;
    var tickets := Put(b.tickets, h, v);
    PutLaws(b.tickets, h, v, h);
    assert ContextOk(b.models, b.tickets, c, Get(b.contexts, c));
    CountsPut(b.tickets, h, v, c);
    forall k: nat | Live(b.contexts, k) && k != c ensures ContextOk(b.models, tickets, k, Get(b.contexts, k)) {
      assert ContextOk(b.models, b.tickets, k, Get(b.contexts, k));
      CountsPut(b.tickets, h, v, k);
    }
    forall k: nat | Live(tickets, k) ensures TicketOk(b.contexts, Get(tickets, k)) {
      PutLaws(b.tickets, h, v, k);
    }
    Rebalance(b, c, Recount(Get(b.contexts, c), t, v), tickets);
  }

  function Gone(t: Ticket): (g: Ticket)
    ensures g.context == t.context && g.epochs == t.epochs && g.state == TicketCancelled && g.result == Cancelled
  {
    t.(state := TicketCancelled, result := Cancelled, counted := false, runningCounted := false)
  }

  /** A ticket may be erased once its counts are given back. */
  lemma EraseKeeps(b: Books, h: nat)
    requires Consistent(b) && Live(b.tickets, h)
    ensures var t := Get(b.tickets, h);
            if t.counted then
              && Live(b.contexts, t.context)
              && Get(b.contexts, t.context).activeTickets > 0
              && (t.state == Running ==> Get(b.contexts, t.context).runningTickets > 0)
              && Consistent(Books(b.models, Put(b.contexts, t.context, Recount(Get(b.contexts, t.context), t, Gone(t))),
                                  Erase(b.tickets, h)))
            else Consistent(b.(tickets := Erase(b.tickets, h)))
  {
    hide TicketOk, Where;
    CountedIsLive(b, h);
    var t, tickets := Get(b.tickets, h), Erase(b.tickets, h);
    EraseLaws(b.tickets, h, h);
    forall k: nat | Live(b.contexts, k) && (t.counted ==> k != t.context)
      ensures ContextOk(b.models, tickets, k, Get(b.contexts, k))
    {
      assert ContextOk(b.models, b.tickets, k, Get(b.contexts, k));
      CountsErase(b.tickets, h, k);
      if !t.counted {
        UncountedDoesNotRun(b, h);
      }
    }
    forall k: nat | Live(tickets, k) ensures TicketOk(b.contexts, Get(tickets, k)) {
      EraseLaws(b.tickets, h, k);
    }
    if t.counted {
      CountsErase(b.tickets, h, t.context);
      Rebalance(b, t.context, Recount(Get(b.contexts, t.context), t, Gone(t)), tickets);
    }
  }

  lemma UncountedDoesNotRun(b: Books, h: nat)
    requires Consistent(b) && Live(b.tickets, h) && !Get(b.tickets, h).counted
    ensures Get(b.tickets, h).state == TicketCancelled
  {
    assert TicketOk(b.contexts, Get(b.tickets, h));
  }

  lemma SubmitKeeps(b: Books, v: Ticket)
    requires Consistent(b) && HasRoom(b.tickets) && Live(b.contexts, v.context)
    requires v.counted && v.state in {Queued, Complete} && TicketOk(b.contexts, v)
    requires Get(b.contexts, v.context).activeTickets < Get(b.contexts, v.context).queueCapacity
    ensures var c := Get(b.contexts, v.context);
            Consistent(Books(b.models, Put(b.contexts, v.context, c.(activeTickets := c.activeTickets + 1)),
                             Emplace(b.tickets, v)))
  {
    hide TicketOk, Where;
    var c, tickets := Get(b.contexts, v.context), Emplace(b.tickets, v);
    EmplaceLaws(b.tickets, v, 0);
    assert ContextOk(b.models, b.tickets, v.context, c);
    CountsEmplace(b.tickets, v, v.context);
    forall k: nat | Live(b.contexts, k) && k != v.context ensures ContextOk(b.models, tickets, k, Get(b.contexts, k)) {
      assert ContextOk(b.models, b.tickets, k, Get(b.contexts, k));
      CountsEmplace(b.tickets, v, k);
    }
    forall k: nat | Live(tickets, k) ensures TicketOk(b.contexts, Get(tickets, k)) {
      EmplaceLaws(b.tickets, v, k);
    }
    Rebalance(b, v.context, c.(activeTickets := c.activeTickets + 1), tickets);
  }

  // ---------------------------------------------------------------- models and contexts come and go

  lemma ContextsElsewhere(b: Books, models: Table<Model>, contexts: Table<Context>)
    requires Consistent(b)
    requires models.Valid() && contexts.Valid() && |models.slots| == 4 && |contexts.slots| == 4
    requires forall m: nat | Live(models, m) :: ModelOk(contexts, m, Get(models, m))
    requires forall k: nat | Live(contexts, k) :: ContextOk(models, b.tickets, k, Get(contexts, k))
    requires forall k: nat | Live(b.contexts, k) && |Where(b.tickets, CountedFor(k))| > 0 :: Live(contexts, k)
    ensures Consistent(Books(models, contexts, b.tickets))
  {
    hide ContextOk, ModelOk;
    forall h: nat | Live(b.tickets, h) ensures TicketOk(contexts, Get(b.tickets, h)) {
      assert TicketOk(b.contexts, Get(b.tickets, h));
      if Get(b.tickets, h).counted {
        assert IndexOf(h) in Where(b.tickets, CountedFor(Get(b.tickets, h).context));
      }
    }
  }

  lemma ContextOkElsewhere(a: Table<Model>, b: Table<Model>, tickets: Table<Ticket>, h: nat, c: Context)
    requires ContextOk(a, tickets, h, c) && Live(b, c.model)
    ensures ContextOk(b, tickets, h, c)
  {
  }

  lemma UsedModelIsLive(b: Books, m: nat)
    requires Consistent(b) && |Where(b.contexts, Using(m))| > 0
    ensures Live(b.models, m)
  {
    NoneWhere(b.contexts, Using(m));
    var k: nat :| Live(b.contexts, k) && Using(m)(Get(b.contexts, k));
    assert ContextOk(b.models, b.tickets, k, Get(b.contexts, k));
  }

  lemma OccupiedIsLive(b: Books, c: nat)
    requires Consistent(b) && |Where(b.tickets, CountedFor(c))| > 0
    ensures Live(b.contexts, c)
  {
    NoneWhere(b.tickets, CountedFor(c));
    var h: nat :| Live(b.tickets, h) && CountedFor(c)(Get(b.tickets, h));
    assert TicketOk(b.contexts, Get(b.tickets, h));
  }

  lemma RunningIsCounted(b: Books, c: nat)
    requires Consistent(b)
    ensures |Where(b.tickets, RunningFor(c))| <= |Where(b.tickets, CountedFor(c))|
  {
    hide Where, Consistent;
    var running, counted := Where(b.tickets, RunningFor(c)), Where(b.tickets, CountedFor(c));
    forall i | i in running ensures i in counted {
      RunsIsCounted(b, c, i);
    }
    assert counted == running + (counted - running);
  }

  lemma RunsIsCounted(b: Books, c: nat, i: int)
    requires Consistent(b) && i in Where(b.tickets, RunningFor(c))
    ensures i in Where(b.tickets, CountedFor(c))
  {
    hide Consistent, Where, Live, Get, HandleAt, OutputBytes;
    SpineOf(b);
    WhereLive(b.tickets, RunningFor(c), i);
    WhereLive(b.tickets, CountedFor(c), i);
    TicketIsOk(b, HandleAt(b.tickets, i));
  }

  lemma CreateModelKeeps(b: Books)
    requires Consistent(b) && HasRoom(b.models)
    ensures Consistent(b.(models := Emplace(b.models, Model(0))))
  {
    hide ContextOk, Where, TicketOk;
    var models := Emplace(b.models, Model(0));
    EmplaceLaws(b.models, Model(0), 0);
    forall m: nat | Live(models, m) ensures ModelOk(b.contexts, m, Get(models, m)) {
      EmplaceLaws(b.models, Model(0), m);
      if !Live(b.models, m) {
        if |Where(b.contexts, Using(m))| > 0 {
          UsedModelIsLive(b, m);
        }
      } else {
        assert ModelOk(b.contexts, m, Get(b.models, m));
      }
    }
    forall k: nat | Live(b.contexts, k) ensures ContextOk(models, b.tickets, k, Get(b.contexts, k)) {
      ContextModelLive(b, k);
      EmplaceLaws(b.models, Model(0), Get(b.contexts, k).model);
      ContextOkElsewhere(b.models, models, b.tickets, k, Get(b.contexts, k));
    }
    ContextsElsewhere(b, models, b.contexts);
  }

  lemma ContextModelLive(b: Books, k: nat)
    requires Consistent(b) && Live(b.contexts, k)
    ensures ContextOk(b.models, b.tickets, k, Get(b.contexts, k)) && Live(b.models, Get(b.contexts, k).model)
    ensures ModelOk(b.contexts, Get(b.contexts, k).model, Get(b.models, Get(b.contexts, k).model))
    ensures Get(b.models, Get(b.contexts, k).model).contextCount > 0
  {
    var m := Get(b.contexts, k).model;
    assert ContextOk(b.models, b.tickets, k, Get(b.contexts, k));
    assert ModelOk(b.contexts, m, Get(b.models, m));
    assert IndexOf(k) in Where(b.contexts, Using(m));
  }

  lemma DestroyModelKeeps(b: Books, m: nat)
    requires Consistent(b) && Live(b.models, m) && Get(b.models, m).contextCount == 0
    ensures Consistent(b.(models := Erase(b.models, m)))
  {
    hide ContextOk, Where, TicketOk;
    var models := Erase(b.models, m);
    EraseLaws(b.models, m, m);
    forall k: nat | Live(models, k) ensures ModelOk(b.contexts, k, Get(models, k)) {
      EraseLaws(b.models, m, k);
      assert ModelOk(b.contexts, k, Get(b.models, k));
    }
    forall k: nat | Live(b.contexts, k) ensures ContextOk(models, b.tickets, k, Get(b.contexts, k)) {
      ContextModelLive(b, k);
      EraseLaws(b.models, m, Get(b.contexts, k).model);
      ContextOkElsewhere(b.models, models, b.tickets, k, Get(b.contexts, k));
    }
    ContextsElsewhere(b, models, b.contexts);
  }

  lemma CreateContextKeeps(b: Books, c: Context)
    requires Consistent(b) && HasRoom(b.contexts) && Live(b.models, c.model)
    requires 1 <= c.maxInFlight <= c.queueCapacity <= 8 && c.activeTickets == 0 && c.runningTickets == 0
    ensures var m := Get(b.models, c.model);
            Consistent(Books(Put(b.models, c.model, Model(m.contextCount + 1)), Emplace(b.contexts, c), b.tickets))
  {
    hide Where, TicketOk;
    var models := Put(b.models, c.model, Model(Get(b.models, c.model).contextCount + 1));
    var contexts := Emplace(b.contexts, c);
    PutLaws(b.models, c.model, Model(Get(b.models, c.model).contextCount + 1), c.model);
    EmplaceLaws(b.contexts, c, 0);
    forall m: nat | Live(models, m) ensures ModelOk(contexts, m, Get(models, m)) {
      PutLaws(b.models, c.model, Model(Get(b.models, c.model).contextCount + 1), m);
      assert ModelOk(b.contexts, m, Get(b.models, m));
      WhereEmplace(b.contexts, c, Using(m));
    }
    forall k: nat | Live(contexts, k) ensures ContextOk(models, b.tickets, k, Get(contexts, k)) {
      EmplaceLaws(b.contexts, c, k);
      PutLaws(b.models, c.model, Model(Get(b.models, c.model).contextCount + 1), Get(contexts, k).model);
      if Live(b.contexts, k) {
        ContextModelLive(b, k);
      } else {
        RunningIsCounted(b, k);
        if |Where(b.tickets, CountedFor(k))| > 0 {
          OccupiedIsLive(b, k);
        }
      }
    }
    forall k: nat | Live(b.contexts, k) ensures Live(contexts, k) {
      EmplaceLaws(b.contexts, c, k);
    }
    ContextsElsewhere(b, models, contexts);
  }

  lemma DestroyContextKeeps(b: Books, h: nat)
    requires Consistent(b) && Live(b.contexts, h) && Get(b.contexts, h).activeTickets == 0
    ensures var m := Get(b.contexts, h).model;
            && Live(b.models, m) && Get(b.models, m).contextCount > 0
            && Consistent(Books(Put(b.models, m, Model(Get(b.models, m).contextCount - 1)),
                                Erase(b.contexts, h), b.tickets))
  {
    hide Where, TicketOk;
    ContextModelLive(b, h);
    var m := Get(b.contexts, h).model;
    var model := Model(Get(b.models, m).contextCount - 1);
    var models, contexts := Put(b.models, m, model), Erase(b.contexts, h);
    PutLaws(b.models, m, model, m);
    EraseLaws(b.contexts, h, h);
    forall k: nat | Live(models, k) ensures ModelOk(contexts, k, Get(models, k)) {
      PutLaws(b.models, m, model, k);
      assert ModelOk(b.contexts, k, Get(b.models, k));
      WhereErase(b.contexts, h, Using(k));
    }
    forall k: nat | Live(contexts, k) ensures ContextOk(models, b.tickets, k, Get(contexts, k)) {
      EraseLaws(b.contexts, h, k);
      ContextModelLive(b, k);
      PutLaws(b.models, m, model, Get(contexts, k).model);
    }
    forall k: nat | Live(b.contexts, k) && |Where(b.tickets, CountedFor(k))| > 0 ensures Live(contexts, k) {
      EraseLaws(b.contexts, h, k);
    }
    ContextsElsewhere(b, models, contexts);
  }

  // ---------------------------------------------------------------- the provider

  /** No context has been added, removed or given other terms; only counters differ. */
  ghost predicate SameTerms(a: Table<Context>, b: Table<Context>) {
    forall h: nat ::
      && (Live(a, h) <==> Live(b, h))
      && (Live(a, h) ==> var c, d := Get(a, h), Get(b, h);
                         c.model == d.model && c.queueCapacity == d.queueCapacity && c.maxInFlight == d.maxInFlight)
  }

  lemma SameTermsPut(a: Table<Context>, h: nat, c: Context)
    requires a.Valid() && Live(a, h)
    requires c == Get(a, h).(activeTickets := c.activeTickets, runningTickets := c.runningTickets)
    ensures SameTerms(a, Put(a, h, c))
  {
    forall k: nat
      ensures Live(Put(a, h, c), k) <==> Live(a, k)
      ensures Live(a, k) ==> Get(Put(a, h, c), k) == if k == h then c else Get(a, k)
    {
      PutLaws(a, h, c, k);
    }
  }

  lemma SameTermsTransitively(a: Table<Context>, b: Table<Context>, c: Table<Context>)
    requires SameTerms(a, b) && SameTerms(b, c)
    ensures SameTerms(a, c)
  {
  }

  /** Whether the ticket runs or its context has room for one more running ticket. */
  ghost predicate MayRun(b: Books, t: Ticket)
    requires t.state.Pending() ==> Live(b.contexts, t.context)
  {
    t.state == Running
    || (t.state == Queued && |Where(b.tickets, RunningFor(t.context))| < Get(b.contexts, t.context).maxInFlight)
  }

  function CompletedTicket(t: Ticket): (c: Ticket)
    ensures c.context == t.context && c.epochs == t.epochs && c.output == t.output && c.result == t.result
    ensures c.state == Complete && c.counted == t.counted && !c.runningCounted
  {
    t.(state := Complete, remainingPolls := 0, runningCounted := false)
  }

  /** One poll of a ticket that may run. */
  function PolledTicket(t: Ticket): Ticket
    requires t.remainingPolls > 0
  {
    if t.remainingPolls == 1 then CompletedTicket(t)
    else t.(state := Running, remainingPolls := t.remainingPolls - 1, runningCounted := true)
  }

  /** The ticket a submission becomes; one that needs no polls is complete at once. */
  function Submitted(execution: nat, d: Dispatch, polls: nat): Ticket {
    Ticket(execution, d.epochs, polls, if polls == 0 then Complete else Queued, Ok, true, false, OutputBytes(d.epochs))
  }

  class Provider {
    const queueCapacity: nat
    const completionPolls: nat
    var models: Table<Model>
    var contexts: Table<Context>
    var tickets: Table<Ticket>
    var fault: Fault

    ghost function Now(): Books
      reads this
    {
      Books(models, contexts, tickets)
    }

    ghost predicate Valid()
      reads this
    {
      1 <= queueCapacity <= 8 && Consistent(Now())
    }

    /** The queue capacity is clamped into 1..8. */
    constructor (capacity: U32, polls: U32)
      ensures Valid() && queueCapacity == (if capacity < 1 then 1 else if capacity > 8 then 8 else capacity)
      ensures completionPolls == polls && fault == Fault(NoFault, Ok, 0)
      ensures models == EmptyTable(4) && contexts == EmptyTable(4) && tickets == EmptyTable(8)
    {
      queueCapacity := if capacity < 1 then 1 else if capacity > 8 then 8 else capacity;
      completionPolls := polls;
      models := EmptyTable(4);
      contexts := EmptyTable(4);
      tickets := EmptyTable(8);
      fault := Fault(NoFault, Ok, 0);
    }

    /** A model is described by its bytes, a stable id, the device it is for, and flags. */
    method CreateModel(bytes: Option<seq<Byte>>, stableId: U64, device: U64, flags: U32)
      returns (status: Status, handle: nat)
      requires Valid()
      modifies this`models
      ensures Valid()
      ensures status == if bytes.None? || bytes.value == [] || stableId == 0 || device != DEVICE || flags != 0
                        then InvalidArgument
                        else if HasRoom(old(models)) then Ok else Capacity
      ensures status == Ok ==> handle == NextHandle(old(models)) && models == Emplace(old(models), Model(0))
      ensures status != Ok ==> handle == 0 && models == old(models)
    {
      if bytes.None? || |bytes.value| == 0 || stableId == 0 || device != DEVICE || flags != 0 {
        return InvalidArgument, 0;
      }
      if !HasRoom(models) {
        return Capacity, 0;
      }
      CreateModelKeeps(Now());
      handle := NextHandle(models);
      models := Emplace(models, Model(0));
      status := Ok;
    }

    method DestroyModel(handle: nat) returns (status: Status)
      requires Valid()
      modifies this`models
      ensures Valid()
      ensures status == if !Live(old(models), handle) then StaleHandle
                        else if exists k: nat :: Live(contexts, k) && Get(contexts, k).model == handle then Busy else Ok
      ensures models == if status == Ok then Erase(old(models), handle) else old(models)
    {
      if !Live(models, handle) {
        return StaleHandle;
      }
      assert ModelOk(contexts, handle, Get(models, handle));
      NoneWhere(contexts, Using(handle));
      if Get(models, handle).contextCount != 0 {
        return Busy;
      }
      DestroyModelKeeps(Now(), handle);
      models := Erase(models, handle);
      status := Ok;
    }

    method CreateContext(model: nat, device: U64, capacity: U32, maxInFlight: U32, flags: U32)
      returns (status: Status, handle: nat)
      requires Valid()
      modifies this`models, this`contexts
      ensures Valid()
      ensures status ==
              if model == 0 || device != DEVICE || capacity == 0 || maxInFlight == 0 || capacity > queueCapacity ||
                 maxInFlight > capacity || flags != 0
              then InvalidArgument
              else if !Live(old(models), model) then StaleHandle
              else if HasRoom(old(contexts)) then Ok else Capacity
      ensures status == Ok ==> handle == NextHandle(old(contexts))
                               && contexts == Emplace(old(contexts), Context(model, capacity, maxInFlight, 0, 0))
                               && models == Put(old(models), model, Model(Get(old(models), model).contextCount + 1))
      ensures status != Ok ==> handle == 0 && contexts == old(contexts) && models == old(models)
    {
      if model == 0 || device != DEVICE || capacity == 0 || maxInFlight == 0 || capacity > queueCapacity ||
         maxInFlight > capacity || flags != 0
      {
        return InvalidArgument, 0;
      }
      if !Live(models, model) {
        return StaleHandle, 0;
      }
      if !HasRoom(contexts) {
        return Capacity, 0;
      }
      CreateContextKeeps(Now(), Context(model, capacity, maxInFlight, 0, 0));
      handle := NextHandle(contexts);
      contexts := Emplace(contexts, Context(model, capacity, maxInFlight, 0, 0));
      models := Put(models, model, Model(Get(models, model).contextCount + 1));
      status := Ok;
    }

    method DestroyContext(handle: nat) returns (status: Status)
      requires Valid()
      modifies this`models, this`contexts
      ensures Valid()
      ensures status == if !Live(old(contexts), handle) then StaleHandle
                        else if exists k: nat :: Live(tickets, k) && CountedFor(handle)(Get(tickets, k)) then Busy
                        else Ok
      ensures contexts == if status == Ok then Erase(old(contexts), handle) else old(contexts)
      ensures status == Ok ==>
                var model := Get(old(contexts), handle).model;
                && Live(old(models), model) && Get(old(models), model).contextCount > 0
                && models == Put(old(models), model, Model(Get(old(models), model).contextCount - 1))
      ensures status != Ok ==> models == old(models)
    {
      if !Live(contexts, handle) {
        return StaleHandle;
      }
      assert ContextOk(models, tickets, handle, Get(contexts, handle));
      NoneWhere(tickets, CountedFor(handle));
      if Get(contexts, handle).activeTickets != 0 {
        return Busy;
      }
      DestroyContextKeeps(Now(), handle);
      var model := Get(contexts, handle).model;
      models := Put(models, model, Model(Get(models, model).contextCount - 1));
      contexts := Erase(contexts, handle);
      status := Ok;
    }

    method Submit(execution: nat, d: Dispatch) returns (status: Status, handle: nat)
      requires Valid()
      modifies this`contexts, this`tickets, this`fault
      ensures Valid() && SameTerms(old(contexts), contexts)
      ensures var reached := Described(d) && Live(old(contexts), execution)
                             && |Where(old(tickets), CountedFor(execution))|
                                < Get(old(contexts), execution).queueCapacity;
              && fault == (if reached then FaultAfter(old(fault), InferenceSubmit) else old(fault))
              && status == if !Described(d) then InvalidArgument
                           else if !Live(old(contexts), execution) then StaleHandle
                           else if !reached then Busy
                           else if FaultResult(old(fault), InferenceSubmit) != Ok
                           then FaultResult(old(fault), InferenceSubmit)
                           else if HasRoom(old(tickets)) then Ok else Capacity
      ensures status == Ok ==>
                && handle == NextHandle(old(tickets))
                && tickets == Emplace(old(tickets), Submitted(execution, d, completionPolls))
                && var c := Get(old(contexts), execution);
                   contexts == Put(old(contexts), execution, c.(activeTickets := c.activeTickets + 1))
      ensures status != Ok ==> handle == 0 && tickets == old(tickets) && contexts == old(contexts)
    {
      hide Consistent, SameTerms, Where;
      handle := 0;
      SpineOf(Now());
      SameTermsReflexive(contexts);
      var epochs := d.epochs;
      if epochs.frameId == 0 || d.frameWidth == 0 || d.frameHeight == 0 || d.scopeWidth <= 0 || d.scopeHeight <= 0 ||
         (d.regionCount != 0 && !d.regionsPresent) || d.outputCapacity < OUTPUT_SIZE || epochs.modelEpoch == 0 ||
         epochs.sessionEpoch == 0 || epochs.transformEpoch == 0 || epochs.topologyEpoch == 0 ||
         epochs.sourceId == 0 || d.flags != 0
      {
        return InvalidArgument, 0;
      }
      if !Live(contexts, execution) {
        return StaleHandle, 0;
      }
      var c := Get(contexts, execution);
      ContextIsOk(Now(), execution);
      if c.activeTickets >= c.queueCapacity {
        return Busy, 0;
      }
      var result := FaultResult(fault, InferenceSubmit);
      fault := FaultAfter(fault, InferenceSubmit);
      if result != Ok {
        return result, 0;
      }
      var ticket := Ticket(execution, epochs, completionPolls, Queued, Ok, true, false, OutputBytes(epochs));
      if ticket.remainingPolls == 0 {
        ticket := ticket.(state := Complete);
      }
      if !HasRoom(tickets) {
        return Capacity, 0;
      }
      SubmitKeeps(Now(), ticket);
      handle := NextHandle(tickets);
      EmplaceLaws(tickets, ticket, handle);
      tickets := Emplace(tickets, ticket);
      SameTermsPut(contexts, execution, c.(activeTickets := c.activeTickets + 1));
      contexts := Put(contexts, execution, c.(activeTickets := c.activeTickets + 1));
      status := Ok;
    }

    /** Make a queued ticket run if its context's in-flight bound allows. */
    method StartInference(handle: nat) returns (started: bool)
      requires Valid() && Live(tickets, handle)
      modifies this`contexts, this`tickets
      ensures Valid() && SameTerms(old(contexts), contexts)
      ensures TicketOk(old(contexts), Get(old(tickets), handle))
      ensures started == MayRun(old(Now()), Get(old(tickets), handle))
      ensures tickets == if !started then old(tickets)
                         else Put(old(tickets), handle,
                                  Get(old(tickets), handle).(state := Running, runningCounted := true))
      ensures !started ==> contexts == old(contexts)
    {
      hide Consistent, SameTerms, Where;
      var t := Get(tickets, handle);
      SpineOf(Now());
      CountedIsLive(Now(), handle);
      SameTermsReflexive(contexts);
      if t.state != Queued {
        PutSame(tickets, handle);
        return t.state == Running;
      }
      var c := Get(contexts, t.context);
      if c.runningTickets >= c.maxInFlight {
        return false;
      }
      var v := t.(state := Running, runningCounted := true);
      MoveKeeps(Now(), handle, v);
      tickets := Put(tickets, handle, v);
      SameTermsPut(contexts, t.context, c.(runningTickets := c.runningTickets + 1));
      contexts := Put(contexts, t.context, c.(runningTickets := c.runningTickets + 1));
      started := true;
    }

    /** Complete a pending ticket at once, if it may run. */
    method CompleteInference(handle: nat) returns (done: bool)
      requires Valid() && Live(tickets, handle) && Get(tickets, handle).state.Pending()
      modifies this`contexts, this`tickets
      ensures Valid() && SameTerms(old(contexts), contexts)
      ensures TicketOk(old(contexts), Get(old(tickets), handle))
      ensures done == MayRun(old(Now()), Get(old(tickets), handle))
      ensures tickets == if done then Put(old(tickets), handle, CompletedTicket(Get(old(tickets), handle)))
                         else old(tickets)
      ensures !done ==> contexts == old(contexts)
    {
      hide Consistent, SameTerms, MayRun, Where;
      ghost var was, terms := tickets, contexts;
      var t := Get(tickets, handle);
      SpineOf(Now());
      done := StartInference(handle);
      if done {
        PutTwice(was, handle, t.(state := Running, runningCounted := true), CompletedTicket(t));
        ghost var run := contexts;
        ReplaceTicket(handle, CompletedTicket(t));
        SameTermsTransitively(terms, run, contexts);
      }
    }

    /** Replace a counted ticket by a later state of itself that does not run anew, with its context's counters. */
    method ReplaceTicket(handle: nat, v: Ticket)
      requires Valid() && Live(tickets, handle) && Get(tickets, handle).counted
               && Get(tickets, handle).context == v.context
      requires v.state == Running ==> Get(tickets, handle).state == Running
      requires Live(contexts, v.context) ==> TicketOk(contexts, v)
      modifies this`contexts, this`tickets
      ensures Valid() && SameTerms(old(contexts), contexts)
      ensures tickets == Put(old(tickets), handle, v)
    {
      hide SameTerms;
      var t := Get(tickets, handle);
      CountedIsLive(Now(), handle);
      MoveKeeps(Now(), handle, v);
      var c := Recount(Get(contexts, t.context), t, v);
      SameTermsPut(contexts, t.context, c);
      tickets := Put(tickets, handle, v);
      contexts := Put(contexts, t.context, c);
    }

    /** One poll: a ticket that may run comes one poll nearer to completion. */
    method FinishInference(handle: nat)
      requires Valid() && Live(tickets, handle)
      modifies this`contexts, this`tickets
      ensures Valid() && SameTerms(old(contexts), contexts)
      ensures TicketOk(old(contexts), Get(old(tickets), handle))
      ensures var t := Get(old(tickets), handle);
              tickets == if t.state.Pending() && MayRun(old(Now()), t) then Put(old(tickets), handle, PolledTicket(t))
                         else old(tickets)
    {
      hide Consistent, SameTerms, MayRun, Where;
      ghost var was, terms := tickets, contexts;
      var t := Get(tickets, handle);
      SameTermsReflexive(contexts);
      TicketIsOk(Now(), handle);
      SpineOf(Now());
      if t.state != Queued && t.state != Running {
        return;
      }
      var started := StartInference(handle);
      if !started {
        return;
      }
      PutTwice(was, handle, t.(state := Running, runningCounted := true), PolledTicket(t));
      var v := Get(tickets, handle);
      if v.remainingPolls > 0 {
        v := v.(remainingPolls := v.remainingPolls - 1);
      }
      if v.remainingPolls == 0 {
        v := v.(state := Complete, runningCounted := false);
      } else {
        v := v.(state := Running);
      }
      ghost var run := contexts;
      ReplaceTicket(handle, v);
      SameTermsTransitively(terms, run, contexts);
    }

    method Poll(execution: nat, handle: nat) returns (status: Status, state: TicketState)
      requires Valid()
      modifies this`contexts, this`tickets
      ensures Valid() && SameTerms(old(contexts), contexts)
      ensures status == if Live(old(tickets), handle) && Get(old(tickets), handle).context == execution then Ok
                        else StaleHandle
      ensures status == Ok ==>
                && TicketOk(old(contexts), Get(old(tickets), handle)) && Live(tickets, handle)
                && state == Get(tickets, handle).state
                && var t := Get(old(tickets), handle);
                   tickets == if t.state.Pending() && MayRun(old(Now()), t)
                              then Put(old(tickets), handle, PolledTicket(t))
                              else old(tickets)
      ensures status != Ok ==> tickets == old(tickets) && contexts == old(contexts)
    {
      hide Consistent, SameTerms, MayRun, Where, TicketOk;
      SameTermsReflexive(contexts);
      if !Live(tickets, handle) || Get(tickets, handle).context != execution {
        return StaleHandle, Failed;
      }
      FinishInference(handle);
      return Ok, Get(tickets, handle).state;
    }

    /** A ticket that may not run is left alone: wait answers BUSY although it was given time. */
    method Wait(execution: nat, handle: nat, timeout: nat) returns (status: Status, state: TicketState)
      requires Valid()
      modifies this`contexts, this`tickets
      ensures Valid() && SameTerms(old(contexts), contexts)
      ensures status == StaleHandle <==> !(Live(old(tickets), handle) && Get(old(tickets), handle).context == execution)
      ensures status != StaleHandle ==>
                && TicketOk(old(contexts), Get(old(tickets), handle)) && Live(tickets, handle)
                && state == Get(tickets, handle).state
                && var t := Get(old(tickets), handle);
                   && status == (if !t.state.Pending() then Ok else if timeout == 0 then Timeout
                                 else if MayRun(old(Now()), t) then Ok else Busy)
                   && tickets == (if t.state.Pending() && status == Ok
                                  then Put(old(tickets), handle, CompletedTicket(t)) else old(tickets))
                   && (status == Ok <==> !state.Pending())
      ensures status != Ok ==> contexts == old(contexts)
    {
      hide Consistent, SameTerms, MayRun, Where, TicketOk;
      SameTermsReflexive(contexts);
      if !Live(tickets, handle) || Get(tickets, handle).context != execution {
        return StaleHandle, Failed;
      }
      TicketIsOk(Now(), handle);
      if Get(tickets, handle).state.Pending() {
        if timeout == 0 {
          return Timeout, Get(tickets, handle).state;
        }
        var done := CompleteInference(handle);
        if !done {
          return Busy, Get(tickets, handle).state;
        }
      }
      return Ok, Get(tickets, handle).state;
    }

    /** Give back a ticket's counts and erase it. */
    method Release(handle: nat)
      requires Valid() && Live(tickets, handle)
      modifies this`contexts, this`tickets
      ensures Valid() && SameTerms(old(contexts), contexts)
      ensures tickets == Erase(old(tickets), handle)
    {
      hide Consistent, SameTerms, Where, TicketOk;
      EraseKeeps(Now(), handle);
      SpineOf(Now());
      SameTermsReflexive(contexts);
      var t := Get(tickets, handle);
      if t.counted {
        var c := Recount(Get(contexts, t.context), t, Gone(t));
        SameTermsPut(contexts, t.context, c);
        contexts := Put(contexts, t.context, c);
      }
      tickets := Erase(tickets, handle);
    }

    method Collect(execution: nat, handle: nat, capacity: Option<nat>)
      returns (status: Status, bytes: Option<seq<Byte>>)
      requires Valid()
      modifies this`contexts, this`tickets
      ensures Valid() && SameTerms(old(contexts), contexts)
      ensures status == StaleHandle <==> !(Live(old(tickets), handle) && Get(old(tickets), handle).context == execution)
      ensures status != StaleHandle ==>
                var t := Get(old(tickets), handle);
                && status == (match t.state
                              case Queued => Busy
                              case Running => Busy
                              case TicketCancelled => Cancelled
                              case Failed => t.result
                              case Complete => if capacity.None? || capacity.value < OUTPUT_SIZE then Capacity else Ok)
                && tickets == (if status in {Ok, Cancelled} then Erase(old(tickets), handle) else old(tickets))
                && bytes == (if status == Ok then Some(t.output) else None)
                && (status == Ok ==>
                      && |bytes.value| == 32
                      && Read64(bytes.value, 0) == t.epochs.frameId && Read64(bytes.value, 8) == t.epochs.modelEpoch
                      && Read64(bytes.value, 16) == t.epochs.sessionEpoch
                      && Read64(bytes.value, 24) == t.epochs.transformEpoch)
      ensures status == StaleHandle ==> tickets == old(tickets)
      ensures status !in {Ok, Cancelled} ==> contexts == old(contexts)
    {
      hide Consistent, SameTerms, Where, OutputBytes, Read64;
      SameTermsReflexive(contexts);
      if !Live(tickets, handle) || Get(tickets, handle).context != execution {
        return StaleHandle, None;
      }
      TicketIsOk(Now(), handle);
      var t := Get(tickets, handle);
      OutputStands(t.epochs);
      if t.state == TicketCancelled || t.state == Failed {
        Release(handle);
        return t.result, None;
      }
      if t.state != Complete {
        return Busy, None;
      }
      if capacity.None? || capacity.value < OUTPUT_SIZE {
        return Capacity, None;
      }
      Release(handle);
      return Ok, Some(t.output);
    }

    method Cancel(execution: nat, handle: nat) returns (status: Status)
      requires Valid()
      modifies this`contexts, this`tickets
      ensures Valid() && SameTerms(old(contexts), contexts)
      ensures status == if !(Live(old(tickets), handle) && Get(old(tickets), handle).context == execution)
                        then StaleHandle
                        else if Get(old(tickets), handle).state.Pending() then Ok else State
      ensures status == Ok ==> tickets == Put(old(tickets), handle, Gone(Get(old(tickets), handle)))
      ensures status != Ok ==> tickets == old(tickets) && contexts == old(contexts)
    {
      hide Consistent, SameTerms, Where;
      SameTermsReflexive(contexts);
      if !Live(tickets, handle) || Get(tickets, handle).context != execution {
        return StaleHandle;
      }
      var t := Get(tickets, handle);
      if t.state != Queued && t.state != Running {
        return State;
      }
      TicketIsOk(Now(), handle);
      ReplaceTicket(handle, Gone(t));
      status := Ok;
    }

    /** One pass over the table: try to complete each pending ticket of the context, in slot order. */
    method SweepOnce(execution: nat) returns (pending: bool, progressed: bool)
      requires Valid() && Live(contexts, execution)
      modifies this`contexts, this`tickets
      ensures Valid() && SameTerms(old(contexts), contexts)
      ensures pending <==> HasPending(old(tickets), execution)
      ensures progressed <==> pending
      ensures Completed(old(tickets), tickets, execution)
      ensures |Where(tickets, RunningFor(execution))| == 0
      ensures |Where(old(tickets), RunningFor(execution))| == 0 ==> !HasPending(tickets, execution)
    {
      hide Consistent, SameTerms, TicketOk, Where, Completed, Swept;
      pending, progressed := false, false;
      ghost var before, terms := tickets, contexts;
      SpineOf(Now());
      SweepStarts(Now(), execution);
      SameTermsReflexive(contexts);
      for index := 0 to 8
        invariant Valid() && SameTerms(terms, contexts) && Live(contexts, execution)
        invariant Swept(Books(models, terms, before), Now(), execution, index, pending, progressed)
      {
        ghost var now, b := tickets, Now();
        SpineOf(Now());
        LiveAt(tickets, index);
        if tickets.slots[index].value.Some? {
          var handle := HandleAt(tickets, index);
          if Get(tickets, handle).context == execution && Get(tickets, handle).state.Pending() {
            pending := true;
            ghost var was := contexts;
            var done := CompleteInference(handle);
            SameTermsTransitively(terms, was, contexts);
            TermsKeepLife(was, contexts, execution);
            SweepsOne(Books(models, terms, before), b, Now(), execution, index, progressed, done);
            progressed := done || progressed;
          } else {
            SweepPasses(Books(models, terms, before), b, execution, index, pending, progressed);
          }
        } else {
          SweepPasses(Books(models, terms, before), b, execution, index, pending, progressed);
        }
      }
      SweepEnds(Books(models, terms, before), Now(), execution, pending, progressed);
    }

    /** With time to wait and no fault armed, synchronize completes every pending ticket of the context, and so
        never answers BUSY; `passes` counts the walks over the table, the last of which finds nothing to do. */
    method Synchronize(execution: nat, timeout: nat) returns (status: Status, ghost passes: nat)
      requires Valid()
      modifies this`contexts, this`tickets, this`fault
      ensures Valid() && SameTerms(old(contexts), contexts)
      ensures !Live(old(contexts), execution) ==> status == StaleHandle && fault == old(fault)
      ensures Live(old(contexts), execution) ==>
                && fault == FaultAfter(old(fault), InferenceSynchronize)
                && status == if FaultResult(old(fault), InferenceSynchronize) != Ok
                             then FaultResult(old(fault), InferenceSynchronize)
                             else if timeout == 0 && HasPending(old(tickets), execution) then Timeout else Ok
      ensures !Live(old(contexts), execution) || FaultResult(old(fault), InferenceSynchronize) != Ok || timeout == 0
              ==> tickets == old(tickets) && contexts == old(contexts)
      ensures Live(old(contexts), execution) && FaultResult(old(fault), InferenceSynchronize) == Ok && timeout != 0
              ==> Completed(old(tickets), tickets, execution) && !HasPending(tickets, execution) && passes <= 3
    {
      hide Consistent, SameTerms, TicketOk, Where, Completed, HasPending;
      SameTermsReflexive(contexts);
      passes := 0;
      if !Live(contexts, execution) {
        return StaleHandle, 0;
      }
      var result := FaultResult(fault, InferenceSynchronize);
      fault := FaultAfter(fault, InferenceSynchronize);
      if result != Ok {
        return result, 0;
      }
      if timeout == 0 {
        var waiting := AnyPending(execution);
        return if waiting then Timeout else Ok, 0;
      }
      ghost var before, terms := tickets, contexts;
      CompletedReflexive(tickets, execution);
      while true
        invariant Valid() && SameTerms(terms, contexts) && Completed(before, tickets, execution)
                  && Live(contexts, execution)
        invariant passes <= 2 && fault == FaultAfter(old(fault), InferenceSynchronize)
        invariant passes >= 1 ==> |Where(tickets, RunningFor(execution))| == 0
        invariant passes >= 2 ==> !HasPending(tickets, execution)
        decreases 3 - passes
      {
        ghost var now, was := tickets, contexts;
        var pending, progressed := SweepOnce(execution);
        passes := passes + 1;
        SameTermsTransitively(terms, was, contexts);
        CompletedTransitively(before, now, tickets, execution);
        TermsKeepLife(was, contexts, execution);
        if !pending {
          NothingToComplete(now, tickets, execution);
          return Ok, passes;
        }
        if !progressed {
          return Busy, passes;
        }
      }
    }

    /** Whether some ticket of the context is pending. */
    method AnyPending(execution: nat) returns (pending: bool)
      requires Valid()
      ensures pending <==> HasPending(tickets, execution)
    {
      hide Consistent;
      SpineOf(Now());
      pending := false;
      for index := 0 to 8
        invariant pending <==>
                  exists h: nat :: Live(tickets, h) && IndexOf(h) < index && PendingFor(execution)(Get(tickets, h))
      {
        LiveAt(tickets, index);
        forall h: nat | Live(tickets, h) && IndexOf(h) == index ensures h == HandleAt(tickets, index) {
          HandleIsPair(h, HandleAt(tickets, index));
        }
        var slot := tickets.slots[index];
        if slot.value.Some? && slot.value.value.context == execution && slot.value.value.state.Pending() {
          pending := true;
        }
      }
    }

    /** Erase every ticket of the context; its counters are already zero when they are set to zero. */
    method Reset(execution: nat) returns (status: Status)
      requires Valid()
      modifies this`contexts, this`tickets
      ensures Valid() && SameTerms(old(contexts), contexts)
      ensures status == if Live(old(contexts), execution) then Ok else StaleHandle
      ensures status != Ok ==> tickets == old(tickets) && contexts == old(contexts)
      ensures status == Ok ==> forall h: nat ::
                && (Live(tickets, h) <==> Live(old(tickets), h) && Get(old(tickets), h).context != execution)
                && (Live(tickets, h) ==> Get(tickets, h) == Get(old(tickets), h))
    {
      hide Consistent, SameTerms, TicketOk, Where;
      SameTermsReflexive(contexts);
      if !Live(contexts, execution) {
        return StaleHandle;
      }
      SpineOf(Now());
      var handles := HandlesWhere(tickets, (t: Ticket) => t.context == execution);
      ghost var before, terms := tickets, contexts;
      for index := 0 to |handles|
        invariant Valid() && SameTerms(terms, contexts)
        invariant forall h: nat :: (Live(tickets, h) <==> Live(before, h) && h !in handles[..index])
                                   && (Live(tickets, h) ==> Get(tickets, h) == Get(before, h))
      {
        ghost var now, was := tickets, contexts;
        SpineOf(Now());
        assert handles[index] in handles && handles[index] !in handles[..index];
        Release(handles[index]);
        SameTermsTransitively(terms, was, contexts);
        assert handles[..index + 1] == handles[..index] + [handles[index]];
        forall h: nat
          ensures Live(tickets, h) <==> Live(now, h) && h != handles[index]
          ensures Live(tickets, h) ==> Get(tickets, h) == Get(now, h)
        {
          EraseLaws(now, handles[index], h);
        }
      }
      assert handles[..|handles|] == handles;
      TermsKeepLife(terms, contexts, execution);
      EmptyContext(Now(), execution);
      PutSame(contexts, execution);
      contexts := Put(contexts, execution, Get(contexts, execution).(activeTickets := 0, runningTickets := 0));
      status := Ok;
    }
  }

  // ---------------------------------------------------------------- synchronizing

  ghost predicate HasPending(t: Table<Ticket>, execution: nat) {
    exists h: nat :: Live(t, h) && PendingFor(execution)(Get(t, h))
  }

  /** From a to b only pending tickets of the context have changed, each by being completed. */
  ghost predicate Completed(a: Table<Ticket>, b: Table<Ticket>, execution: nat) {
    forall h: nat ::
      && (Live(a, h) <==> Live(b, h))
      && (Live(a, h) && Get(a, h) != Get(b, h) ==>
            PendingFor(execution)(Get(a, h)) && Get(b, h) == CompletedTicket(Get(a, h)))
  }

  /** The first n slots have been visited. As long as nothing was completed, every pending ticket met so far was
      queued and found the context full; once something was completed there is room for one more. */
  ghost predicate Swept(a: Books, b: Books, execution: nat, n: nat, pending: bool, progressed: bool) {
    && Completed(a.tickets, b.tickets, execution)
    && Live(b.contexts, execution)
    && (forall h: nat | Live(a.tickets, h) && IndexOf(h) >= n :: Get(b.tickets, h) == Get(a.tickets, h))
    && (forall h: nat | Live(b.tickets, h) && IndexOf(h) < n :: !RunningFor(execution)(Get(b.tickets, h)))
    && (pending <==> exists h: nat :: Live(a.tickets, h) && IndexOf(h) < n && PendingFor(execution)(Get(a.tickets, h)))
    && var running, bound := |Where(b.tickets, RunningFor(execution))|, Get(b.contexts, execution).maxInFlight;
       && (progressed ==> pending && running < bound)
       && (!progressed && pending ==> running >= bound)
       && (|Where(a.tickets, RunningFor(execution))| == 0 ==>
             && |Where(b.tickets, RunningFor(execution))| == 0
             && forall h: nat | Live(b.tickets, h) && IndexOf(h) < n :: !PendingFor(execution)(Get(b.tickets, h)))
  }

  lemma SweepStarts(b: Books, execution: nat)
    requires Live(b.contexts, execution)
    ensures Swept(b, b, execution, 0, false, false)
  {
  }

  lemma SweepPasses(a: Books, b: Books, execution: nat, n: nat, pending: bool, progressed: bool)
    requires b.tickets.Valid() && n < |b.tickets.slots| && Swept(a, b, execution, n, pending, progressed)
    requires Live(b.tickets, HandleAt(b.tickets, n)) ==> !PendingFor(execution)(Get(b.tickets, HandleAt(b.tickets, n)))
    ensures Swept(a, b, execution, n + 1, pending, progressed)
  {
    hide Where;
    forall h: nat | Live(b.tickets, h) && IndexOf(h) == n ensures h == HandleAt(b.tickets, n) {
      LiveAt(b.tickets, n);
      HandleIsPair(h, HandleAt(b.tickets, n));
    }
  }

  lemma RoomForOne(b: Books, execution: nat)
    requires Consistent(b) && Live(b.contexts, execution)
    ensures 1 <= Get(b.contexts, execution).maxInFlight
    ensures |Where(b.tickets, RunningFor(execution))| <= Get(b.contexts, execution).maxInFlight
  {
    assert ContextOk(b.models, b.tickets, execution, Get(b.contexts, execution));
  }

  /** What completing a ticket that may run does to the number of running ones. */
  lemma CompletingFrees(b: Books, h: nat, execution: nat)
    requires Consistent(b) && Live(b.contexts, execution) && Live(b.tickets, h)
             && PendingFor(execution)(Get(b.tickets, h))
    requires MayRun(b, Get(b.tickets, h))
    ensures var after := Put(b.tickets, h, CompletedTicket(Get(b.tickets, h)));
            && |Where(after, RunningFor(execution))| < Get(b.contexts, execution).maxInFlight
            && |Where(after, RunningFor(execution))| <= |Where(b.tickets, RunningFor(execution))|
  {
    hide Where;
    var v := CompletedTicket(Get(b.tickets, h));
    CountsPut(b.tickets, h, v, execution);
    RoomForOne(b, execution);
  }

  lemma SweepsOne(a: Books, b: Books, b': Books, execution: nat, n: nat, progressed: bool, done: bool)
    requires Consistent(b) && n < |b.tickets.slots|
    requires exists pending :: Swept(a, b, execution, n, pending, progressed)
    requires var h := HandleAt(b.tickets, n);
             && Live(b.tickets, h) && PendingFor(execution)(Get(b.tickets, h))
             && Live(b.contexts, execution) && done == MayRun(b, Get(b.tickets, h))
             && b'.tickets == if done then Put(b.tickets, h, CompletedTicket(Get(b.tickets, h))) else b.tickets
    requires SameTerms(b.contexts, b'.contexts)
    ensures Swept(a, b', execution, n + 1, true, done || progressed)
  {
    hide Where, Consistent;
    var h := HandleAt(b.tickets, n);
    SpineOf(b);
    LiveAt(b.tickets, n);
    RoomForOne(b, execution);
    if done {
      CompletingFrees(b, h, execution);
    }
    forall k: nat
      ensures Live(b'.tickets, k) <==> Live(b.tickets, k)
      ensures Live(b.tickets, k) ==>
                Get(b'.tickets, k) == if k == h && done then CompletedTicket(Get(b.tickets, h)) else Get(b.tickets, k)
      ensures Live(b.tickets, k) && IndexOf(k) == n ==> k == h
    {
      HandleIsPair(k, h);
      PutLaws(b.tickets, h, CompletedTicket(Get(b.tickets, h)), k);
    }
  }

  /** After a whole pass nothing runs, so a pass that met a pending ticket has completed one. */
  lemma SweepEnds(a: Books, b: Books, execution: nat, pending: bool, progressed: bool)
    requires Consistent(b) && |a.tickets.slots| == 8
    requires Swept(a, b, execution, 8, pending, progressed)
    ensures pending <==> HasPending(a.tickets, execution)
    ensures progressed <==> pending
    ensures |Where(b.tickets, RunningFor(execution))| == 0
    ensures Completed(a.tickets, b.tickets, execution)
    ensures |Where(a.tickets, RunningFor(execution))| == 0 ==> !HasPending(b.tickets, execution)
  {
    hide Where, Consistent;
    SpineOf(b);
    RoomForOne(b, execution);
    NoneWhere(b.tickets, RunningFor(execution));
  }

  lemma CompletedReflexive(t: Table<Ticket>, execution: nat)
    ensures Completed(t, t, execution)
  {
  }

  lemma CompletedTransitively(a: Table<Ticket>, b: Table<Ticket>, c: Table<Ticket>, execution: nat)
    requires Completed(a, b, execution) && Completed(b, c, execution)
    ensures Completed(a, c, execution)
  {
  }

  lemma NothingToComplete(a: Table<Ticket>, b: Table<Ticket>, execution: nat)
    requires Completed(a, b, execution) && !HasPending(a, execution)
    ensures !HasPending(b, execution)
  {
  }

  lemma TermsKeepLife(a: Table<Context>, b: Table<Context>, execution: nat)
    requires SameTerms(a, b)
    ensures Live(a, execution) <==> Live(b, execution)
  {
  }

  lemma EmptyContext(b: Books, execution: nat)
    requires Consistent(b) && Live(b.contexts, execution)
    requires forall h: nat | Live(b.tickets, h) :: Get(b.tickets, h).context != execution
    ensures Get(b.contexts, execution).activeTickets == 0 && Get(b.contexts, execution).runningTickets == 0
  {
    assert ContextOk(b.models, b.tickets, execution, Get(b.contexts, execution));
    NoneWhere(b.tickets, CountedFor(execution));
    NoneWhere(b.tickets, RunningFor(execution));
  }

  lemma SpineOf(b: Books)
    requires Consistent(b)
    ensures b.contexts.Valid() && b.tickets.Valid() && |b.tickets.slots| == 8
  {
  }

  lemma ContextIsOk(b: Books, h: nat)
    requires Consistent(b) && Live(b.contexts, h)
    ensures ContextOk(b.models, b.tickets, h, Get(b.contexts, h))
  {
  }

  lemma TicketIsOk(b: Books, h: nat)
    requires Consistent(b) && Live(b.tickets, h)
    ensures TicketOk(b.contexts, Get(b.tickets, h))
  {
  }

  lemma SameTermsReflexive(a: Table<Context>)
    ensures SameTerms(a, a)
  {
  }
}
