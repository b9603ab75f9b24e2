/** From a description to the bytes collected for it, over any run of the reference provider. */
module CpuDeliveries {
  import opened Statuses
  import Sets
  import opened Rasters
  import opened Labelling
  import opened Frames
  import opened Targets
  import opened Detector
  import opened Scopes
  import opened TargetPackets
  import opened HandleTables
  import opened CpuBackend

  /** The targets are about the components of the picture's lit pixels inside the scope, one for each component of at
      least the minimum area, from top to bottom, and each says what is true of its component. */
  ghost predicate SeenInScope(r: Image, frameId: U64, scope: Rect, minimumArea: nat, targets: seq<Target>) {
    && TopDown(targets)
    && exists components: seq<set<Pixel>> :: Matched(r, frameId, scope, minimumArea, targets, components)
  }

  ghost predicate Matched(r: Image, frameId: U64, scope: Rect, minimumArea: nat, targets: seq<Target>,
                          components: seq<set<Pixel>>)
  {
    && |components| == |targets|
    && (forall C :: C in components <==> IsComponent(LitInside(r, scope), C) && |C| >= minimumArea)
    && (forall i, j | 0 <= i < j < |components| :: components[i] != components[j])
    && (forall i | 0 <= i < |components| :: Portrays(r, frameId, targets[i], components[i]))
  }

  lemma SeenFrom(r: Image, frameId: U64, scope: Rect, minimumArea: nat, targets: seq<Target>,
                 components: seq<set<Pixel>>, ordered: seq<set<Pixel>>)
    requires forall C :: C in components <==> IsComponent(LitInside(r, scope), C) && |C| >= minimumArea
    requires forall i, j | 0 <= i < j < |components| :: components[i] != components[j]
    requires PortraysAll(r, frameId, targets, components, ordered)
    ensures SeenInScope(r, frameId, scope, minimumArea, targets)
  {
    hide LitInside, IsComponent, Portrays, TopDown;
    Sets.RearrangedOnce(components, ordered);
    assert Matched(r, frameId, scope, minimumArea, targets, ordered);
  }

  lemma ReportIsSeen(f: FrameView, scope: Rect, p: ModelParameters)
    requires f.Fits() && BytesPerPixel(f.format) > 0 && InsideFrame(scope, f)
    requires f.PixelOffset(scope.x, scope.y) <= |f.data| && ScopedReport(f, scope, p).status == Ok
    ensures SeenInScope(ImageOf(f, p.lumaThreshold), f.frameId, scope, p.minimumArea, ScopedReport(f, scope, p).targets)
  {
    hide ScopedReport, LitInside, IsComponent, PortraysAll, ImageOf, SeenInScope, SortedTargets, DescribeAll,
         OpeningRuns, Crop, ValidateFrame;
    var components, ordered := ScopedReportIsComponents(f, scope, p);
    SeenFrom(ImageOf(f, p.lumaThreshold), f.frameId, scope, p.minimumArea, ScopedReport(f, scope, p).targets,
             components, ordered);
  }

  /** The bytes answer the description: they are a packet with the description's epochs and ids and the frame's id,
      about the components of the frame's own pixels inside the description's scope. */
  ghost predicate Answers(bytes: seq<Byte>, d: Dispatch, p: ModelParameters)
    requires d.frame.Fits() && BytesPerPixel(d.frame.format) > 0
  {
    exists targets: seq<Target> :: AnswersWith(bytes, d, p, targets)
  }

  ghost predicate AnswersWith(bytes: seq<Byte>, d: Dispatch, p: ModelParameters, targets: seq<Target>)
    requires d.frame.Fits() && BytesPerPixel(d.frame.format) > 0
  {
    var epochs := Epochs(d.frame.frameId, d.epochs.modelEpoch, d.epochs.sessionEpoch, d.epochs.transformEpoch,
                         d.epochs.topologyEpoch, d.epochs.sourceId);
    && |targets| <= 32 && bytes == PacketBytes(epochs, targets)
    && SeenInScope(ImageOf(d.frame, p.lumaThreshold), d.frame.frameId, d.scope, p.minimumArea, targets)
    && (BelowLimit(d.scope) ==> ReadsAs(bytes, epochs, WithBoxAreas(targets)))
  }

  lemma DeliveredAnswers(t: Ticket, p: ModelParameters, bytes: seq<Byte>, execution: nat, d: Dispatch)
    requires t.Dispatchable() && Delivers(t, p, bytes) && Carries(t, execution, d) && d.frame.Fits()
    ensures BytesPerPixel(d.frame.format) > 0 && Answers(bytes, d, p)
  {
    hide PacketBytes, ReadsAs, ScopedReport, ShowsComponents, SeenInScope;
    var report := Report(t, p);
    ReportFormat(t, p);
    ReportIsSeen(t.frame, t.scope, p);
    assert AnswersWith(bytes, d, p, report.targets);
  }

  lemma ReportFormat(t: Ticket, p: ModelParameters)
    requires t.Dispatchable() && Report(t, p).status == Ok
    ensures BytesPerPixel(t.frame.format) > 0
  {
    ReportParts(t, p);
  }

  /** From submit to collect: if in books a the ticket h carries a description, as submit leaves it, then in whatever
      books b the provider comes to from there, by any operations for any tickets, h is still that description's: and
      once it is COMPLETE the bytes that collect hands over answer that description. */
  lemma SubmissionIsDelivered(a: Books, b: Books, h: nat, execution: nat, d: Dispatch)
    requires Balanced(a) && Live(a.tickets, h) && Carries(Get(a.tickets, h), execution, d)
    requires Reaches(a, b) && Live(b.tickets, h)
    ensures Balanced(b) && Carries(Get(b.tickets, h), execution, d)
    ensures var t := Get(b.tickets, h);
            t.state == Complete && d.frame.Fits() ==>
              && Live(b.contexts, execution) && Live(b.models, Get(b.contexts, execution).model)
              && BytesPerPixel(d.frame.format) > 0
              && Answers(t.output, d, Get(b.models, Get(b.contexts, execution).model).parameters)
  {
    hide Consistent, Answers, Delivers, Evolves, Reaches, TicketOk;
    ReachesKeeps(a, b);
    KeepsSubmission(a, b, h);
    CollectFacts(b.models, b.contexts, b.tickets, h);
    var t := Get(b.tickets, h);
    if t.state == Complete && d.frame.Fits() {
      DeliveredAnswers(t, Parameters(b.models, b.contexts, t), t.output, execution, d);
    }
  }

  lemma KeepsSubmission(a: Books, b: Books, h: nat)
    requires Balanced(a) && Evolves(a.tickets, b.tickets) && Live(a.tickets, h) && Live(b.tickets, h)
    ensures SameSubmission(Get(a.tickets, h), Get(b.tickets, h))
  {
    hide TicketOk, ContextOk, ModelOk;
    assert Issued(a.tickets, h);
  }
}
