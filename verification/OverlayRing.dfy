/** The overlay renderer's ring of three slots. The CPU writes a slot's upload buffers and queues work; the GPU runs
    the queued work in order, some time later, reading the buffers as they are then, and advances a fence. Static
    instances are only expanded again when the slot holds another scene or transform epoch. */
module OverlayRing {
  import opened Statuses
  import opened OverlayScenes

  const SLOT_COUNT := 3

  datatype Slot = Slot(
    buffers: Buffers, drawn: nat, readback: seq<Instance>,
    sequence: nat, fence: nat, scene: U64, transform: U64, count: nat)

  /** Work on the GPU's queue, with the fence value it signals when done. */
  datatype Job =
    | Render(slot: nat, fence: nat, expand: bool, targets: nat, active: Option<nat>)
    | ReadBack(slot: nat, fence: nat)

  /** The handle a submission is known by. */
  datatype Submission = Submission(sequence: nat, scene: U64, slot: nat, count: nat)

  datatype Frame = Frame(address: nat, packet: Packet, scene: U64, transform: U64, active: Option<nat>)

  /** The last three only record: every handle given out, the frame it was given out for, and each slot's active
      target. */
  datatype Ring = Ring(
    slots: seq<Slot>, queue: seq<Job>, completed: nat, nextSlot: nat, nextFence: nat, nextSequence: nat,
    issued: seq<Submission>, frames: seq<Frame>, shown: seq<Option<nat>>)

  const BLANK_INSTANCE := Instance(0, 0, 0, 0, 0, 0, Blank)

  function FreshSlot(): Slot {
    Slot.Slot(Buffers(seq(MAX_TARGETS, _ => Target(0, 0, 0, 0, 0, 0, 0, 0)), seq(MAX_STYLES, _ => Style(0, 0, 0, 0)),
                      seq(INSTANCE_CAPACITY, _ => BLANK_INSTANCE)),
              0, seq(INSTANCE_CAPACITY, _ => BLANK_INSTANCE), 0, 0, 0, 0, 0)
  }

  function FreshRing(): Ring {
    Ring([FreshSlot(), FreshSlot(), FreshSlot()], [], 0, 0, 1, 1, [], [], [None, None, None])
  }

  /** Bytes written over the front of a mapped buffer. */
  function Over<T>(front: seq<T>, buffer: seq<T>): (after: seq<T>)
    requires |front| <= |buffer|
    ensures |after| == |buffer| && after[..|front|] == front
  {
    front + buffer[|front|..]
  }

  // ---------------------------------------------------------------- the GPU

  predicate Runnable(job: Job) {
    && job.slot < SLOT_COUNT
    && (job.Render? ==> job.targets <= MAX_TARGETS && (job.active.Some? ==> job.active.value < MAX_TARGETS))
  }

  /** A job with its static kernel's threads in the given order. */
  function Ran(s: Slot, job: Job, order: seq<nat>): (after: Slot)
    requires s.buffers.Sized() && Runnable(job)
    ensures after.buffers.Sized()
  {
    match job
    case Render(_, _, expand, n, active) =>
      var expanded := if expand && n != 0 then Threads(s.buffers, order, n) else s.buffers;
      s.(buffers := ActiveThread(expanded, n, active),
         drawn := INSTANCES_PER_TARGET * n + if active.Some? then 1 else 0)
    case ReadBack(_, _) => s.(readback := s.buffers.instances)
  }

  predicate HasWork(r: Ring) {
    && |r.slots| == SLOT_COUNT && (forall i | 0 <= i < SLOT_COUNT :: r.slots[i].buffers.Sized())
    && r.queue != [] && Runnable(r.queue[0])
  }

  ghost predicate Schedules(order: seq<nat>, job: Job) { job.Render? ==> Dispatched(order, job.targets) }

  /** The GPU finishes the job at the head of its queue and advances the fence. */
  function Advanced(r: Ring, order: seq<nat>): Ring
    requires HasWork(r)
  {
    var job := r.queue[0];
    r.(slots := r.slots[job.slot := Ran(r.slots[job.slot], job, order)], queue := r.queue[1..], completed := job.fence)
  }

  // ---------------------------------------------------------------- the CPU

  predicate Fits(f: Frame) {
    f.packet.Valid() && (f.active.Some? ==> f.active.value < |f.packet.targets|)
  }

  function Filled(s: Slot, f: Frame, sequence: nat, fence: nat): Slot
    requires s.buffers.Sized() && Fits(f)
  {
    var update, b := s.scene != f.scene || s.transform != f.transform, s.buffers;
    s.(buffers := b.(targets := if update then Over(f.packet.targets, b.targets) else b.targets,
                     styles := if update then Over(f.packet.styles, b.styles) else b.styles),
       scene := f.scene, transform := f.transform, sequence := sequence, fence := fence,
       count := SceneSize(f.packet, f.active))
  }

  /** A frame goes into the next slot. */
  function Submitted(r: Ring, f: Frame): Ring
    requires |r.slots| == |r.shown| == SLOT_COUNT && r.nextSlot < SLOT_COUNT
    requires r.slots[r.nextSlot].buffers.Sized() && Fits(f)
  {
    var i, s := r.nextSlot, r.slots[r.nextSlot];
    var update, after := s.scene != f.scene || s.transform != f.transform, Filled(s, f, r.nextSequence, r.nextFence);
    Ring(r.slots[i := after],
         r.queue + [Render(i, r.nextFence, update, |f.packet.targets|, f.active)],
         r.completed, (i + 1) % SLOT_COUNT, r.nextFence + 1, r.nextSequence + 1,
         r.issued + [Submission(r.nextSequence, f.scene, i, after.count)], r.frames + [f], r.shown[i := f.active])
  }

  /** Work that copies a slot's instances out is queued, and the slot waits for it under a new fence value. */
  function ReadBackQueued(r: Ring, i: nat): Ring
    requires |r.slots| == SLOT_COUNT && i < SLOT_COUNT
  {
    r.(slots := r.slots[i := r.slots[i].(fence := r.nextFence)], queue := r.queue + [ReadBack(i, r.nextFence)],
       nextFence := r.nextFence + 1)
  }

  // ---------------------------------------------------------------- fences and handles

  predicate InFlight(r: Ring, i: nat)
    requires i < |r.slots|
  {
    r.slots[i].fence > r.completed
  }

  /** The last of n submissions that went round robin into slot i, 0 if none did. */
  function LastInto(i: nat, n: nat): nat {
    if n <= i then 0 else n - (n - 1 - i) % SLOT_COUNT
  }

  predicate Counters(r: Ring) {
    && |r.slots| == |r.shown| == SLOT_COUNT && (forall i | 0 <= i < SLOT_COUNT :: r.slots[i].buffers.Sized())
    && |r.frames| == |r.issued| && r.nextSequence == |r.issued| + 1 && r.nextSlot == |r.issued| % SLOT_COUNT
    && r.nextFence == r.completed + 1 + |r.queue|
    && (forall j | 0 <= j < |r.queue| :: Runnable(r.queue[j]) && r.queue[j].fence == r.completed + 1 + j)
  }

  /** A slot in flight has exactly one job queued, the one its fence value stands for. */
  predicate Fences(r: Ring)
    requires Counters(r)
  {
    && (forall j | 0 <= j < |r.queue| :: r.slots[r.queue[j].slot].fence == r.queue[j].fence)
    && (forall i | 0 <= i < SLOT_COUNT :: r.slots[i].fence < r.nextFence)
    && (forall i {:trigger InFlight(r, i)} | 0 <= i < SLOT_COUNT && InFlight(r, i) :: JobOf(r, i).slot == i)
  }

  /** The queued job that the slot's fence value stands for. */
  function JobOf(r: Ring, i: nat): Job
    requires Counters(r) && i < SLOT_COUNT && InFlight(r, i) && r.slots[i].fence < r.nextFence
  {
    r.queue[r.slots[i].fence - r.completed - 1]
  }

  /** Slots come free in the order in which they are taken again. */
  predicate Rotation(r: Ring)
    requires Counters(r)
  {
    var a, b := r.slots[r.nextSlot].fence, r.slots[(r.nextSlot + 1) % SLOT_COUNT].fence;
    var c := r.slots[(r.nextSlot + 2) % SLOT_COUNT].fence;
    (a > r.completed ==> a < b && a < c) && (b > r.completed ==> b < c)
  }

  predicate ShowsFrame(s: Slot, active: Option<nat>, f: Frame) {
    s.scene == f.scene && s.transform == f.transform && active == f.active
  }

  predicate HandleOk(r: Ring, i: nat)
    requires Counters(r) && i < SLOT_COUNT
  {
    var s := r.slots[i];
    && s.sequence == LastInto(i, |r.issued|) <= |r.issued|
    && (s.sequence > 0 ==>
          && r.issued[s.sequence - 1] == Submission(s.sequence, s.scene, i, s.count)
          && ShowsFrame(s, r.shown[i], r.frames[s.sequence - 1]))
  }

  ghost predicate Handles(r: Ring)
    requires Counters(r)
  {
    && (forall s | 0 <= s < |r.issued| :: r.issued[s].sequence == s + 1 && r.issued[s].slot == s % SLOT_COUNT)
    && (forall i | 0 <= i < SLOT_COUNT :: HandleOk(r, i))
  }

  // ---------------------------------------------------------------- what the slots hold

  type Library = (U64, U64) -> Packet

  predicate NonzeroEpochs(f: Frame) { f.scene != 0 || f.transform != 0 }

  /** Some frame that went into slot i had epochs that are not both zero, the values a slot starts with. */
  ghost predicate Uploaded(frames: seq<Frame>, i: nat) {
    exists k :: 0 <= k < |frames| && k % SLOT_COUNT == i && NonzeroEpochs(frames[k])
  }

  /** The slot is right: packets do get uploaded into it, or there is nothing to upload. */
  ghost predicate Trusted(lib: Library, r: Ring, i: nat) { Uploaded(r.frames, i) || lib(0, 0).targets == [] }

  ghost predicate Shaped(lib: Library, s: Slot, active: Option<nat>) {
    var p := lib(s.scene, s.transform);
    && p.Valid() && (active.Some? ==> active.value < |p.targets|) && s.count == SceneSize(p, active)
  }

  /** The front of the slot's upload buffers holds the packet of the slot's epochs. */
  ghost predicate Loaded(lib: Library, s: Slot, active: Option<nat>)
    requires s.buffers.Sized()
  {
    var p := lib(s.scene, s.transform);
    && Shaped(lib, s, active)
    && s.buffers.targets[..|p.targets|] == p.targets && s.buffers.styles[..|p.styles|] == p.styles
  }

  /** The slot holds exactly what expanding its packet afresh gives. */
  ghost predicate Settled(lib: Library, s: Slot, active: Option<nat>)
    requires s.buffers.Sized() && Shaped(lib, s, active)
  {
    s.buffers.instances[..s.count] == Scene(lib(s.scene, s.transform), active)
  }

  ghost predicate Promised(lib: Library, s: Slot, active: Option<nat>, job: Job)
    requires s.buffers.Sized() && Shaped(lib, s, active)
  {
    var p := lib(s.scene, s.transform);
    match job
    case Render(_, _, expand, n, a) =>
      && n == |p.targets| && a == active
      && (!expand ==> s.buffers.instances[..INSTANCES_PER_TARGET * n] == StaticScene(p))
    case ReadBack(_, _) => Settled(lib, s, active)
  }

  /** The first n instances have never been written. */
  predicate BlankUpTo(b: Buffers, n: nat) {
    n <= |b.instances| && forall k | 0 <= k < n :: b.instances[k].kind == Blank
  }

  /** Only frames with zero epochs have come, and nothing has been uploaded or expanded for them. */
  ghost predicate Hollow(lib: Library, s: Slot, active: Option<nat>) {
    && Shaped(lib, s, active) && s.scene == 0 && s.transform == 0
    && BlankUpTo(s.buffers, INSTANCES_PER_TARGET * |lib(0, 0).targets|)
  }

  predicate Skips(job: Job, n: nat, active: Option<nat>) {
    job.Render? ==> !job.expand && job.targets == n && job.active == active
  }

  predicate Unused(s: Slot) {
    s.scene == 0 && s.transform == 0 && s.fence == 0 && BlankUpTo(s.buffers, INSTANCE_CAPACITY)
  }

  ghost predicate SlotOk(lib: Library, r: Ring, i: nat)
    requires Counters(r) && Fences(r) && i < SLOT_COUNT
  {
    var s, active := r.slots[i], r.shown[i];
    if s.sequence == 0 then Unused(s) && !Uploaded(r.frames, i)
    else if Trusted(lib, r, i) then
      && Loaded(lib, s, active) && (!Uploaded(r.frames, i) ==> s.scene == 0 && s.transform == 0)
      && if InFlight(r, i) then Promised(lib, s, active, JobOf(r, i)) else Settled(lib, s, active)
    else Hollow(lib, s, active) && (InFlight(r, i) ==> Skips(JobOf(r, i), |lib(0, 0).targets|, active))
  }

  /** What holds even while instances are being read back. */
  ghost predicate Sound(lib: Library, r: Ring) {
    && Counters(r) && Fences(r) && Handles(r)
    && forall i | 0 <= i < SLOT_COUNT :: SlotOk(lib, r, i)
  }

  ghost predicate Inv(lib: Library, r: Ring) { Sound(lib, r) && Rotation(r) }

  lemma FreshInv(lib: Library)
    ensures Inv(lib, FreshRing())
  {
  }

  // ---------------------------------------------------------------- the GPU keeps it

  lemma InFlightJob(r: Ring, i: nat)
    requires Counters(r) && Fences(r) && i < SLOT_COUNT && InFlight(r, i)
    ensures var j := r.slots[i].fence - r.completed - 1;
            && 0 <= j < |r.queue| && JobOf(r, i) == r.queue[j]
            && r.queue[j].slot == i && r.queue[j].fence == r.slots[i].fence
  {
  }

  /** When the promised job runs, the slot settles: it then holds what expanding its packet afresh gives. */
  lemma RunSettles(lib: Library, s: Slot, active: Option<nat>, job: Job, order: seq<nat>)
    requires s.buffers.Sized() && Loaded(lib, s, active) && Runnable(job) && Schedules(order, job)
    requires Promised(lib, s, active, job)
    ensures Loaded(lib, Ran(s, job, order), active) && Settled(lib, Ran(s, job, order), active)
    ensures job.Render? ==> Ran(s, job, order).drawn == s.count
  {
    hide Threads, ExpandedUpTo, StaticScene;
    if job.Render? {
      var p := lib(s.scene, s.transform);
      var n := |p.targets|;
      if job.expand && n != 0 {
        KernelExpands(s.buffers, p, order);
      }
      var b := if job.expand && n != 0 then Threads(s.buffers, order, n) else s.buffers;
      NothingToExpand(p);
      assert b.instances[..INSTANCES_PER_TARGET * n] == StaticScene(p);
      var out := ActiveThread(b, n, active).instances;
      assert out[..INSTANCES_PER_TARGET * n] == StaticScene(p);
      if active.Some? {
        assert s.buffers.targets[active.value] == s.buffers.targets[..n][active.value];
        assert out[..s.count] == out[..INSTANCES_PER_TARGET * n] + [out[INSTANCES_PER_TARGET * n]];
      }
    }
  }

  lemma NothingToExpand(p: Packet)
    ensures |p.targets| == 0 ==> StaticScene(p) == []
  {
  }

  lemma RunStaysHollow(lib: Library, s: Slot, active: Option<nat>, job: Job, order: seq<nat>)
    requires s.buffers.Sized() && Hollow(lib, s, active) && Runnable(job) && Skips(job, |lib(0, 0).targets|, active)
    ensures Hollow(lib, Ran(s, job, order), active)
  {
    hide Threads;
  }

  lemma RanKeepsBooks(s: Slot, job: Job, order: seq<nat>)
    requires s.buffers.Sized() && Runnable(job)
    ensures var t := Ran(s, job, order);
            && t.fence == s.fence && t.sequence == s.sequence && t.scene == s.scene && t.transform == s.transform
            && t.count == s.count
  {
    hide Threads;
  }

  lemma AdvancedSlots(r: Ring, order: seq<nat>)
    requires Counters(r) && r.queue != []
    ensures Counters(Advanced(r, order)) && Advanced(r, order).completed == r.completed + 1
    ensures forall i | 0 <= i < SLOT_COUNT :: Advanced(r, order).slots[i].fence == r.slots[i].fence
  {
    hide Ran;
    RanKeepsBooks(r.slots[r.queue[0].slot], r.queue[0], order);
    var after := Advanced(r, order);
    forall j | 0 <= j < |after.queue| ensures after.queue[j] == r.queue[j + 1] {
    }
  }

  lemma FencesAfterJob(r: Ring, after: Ring)
    requires Counters(r) && Fences(r) && Counters(after) && r.queue != []
    requires after.queue == r.queue[1..] && after.completed == r.completed + 1 && after.nextFence == r.nextFence
    requires forall i | 0 <= i < SLOT_COUNT :: after.slots[i].fence == r.slots[i].fence
    ensures Fences(after)
  {
    forall j | 0 <= j < |after.queue| ensures after.slots[after.queue[j].slot].fence == after.queue[j].fence {
      assert after.queue[j] == r.queue[j + 1] && Runnable(r.queue[j + 1]);
    }
    forall i | 0 <= i < SLOT_COUNT && InFlight(after, i) ensures JobOf(after, i).slot == i {
      InFlightJob(r, i);
    }
  }

  lemma RotationAfterJob(r: Ring, after: Ring)
    requires Counters(r) && Rotation(r) && Counters(after)
    requires after.completed >= r.completed && after.nextSlot == r.nextSlot
    requires forall i | 0 <= i < SLOT_COUNT :: after.slots[i].fence == r.slots[i].fence
    ensures Rotation(after)
  {
    hide Runnable;
  }

  lemma AdvancedFences(r: Ring, order: seq<nat>)
    requires Counters(r) && Fences(r) && r.queue != []
    ensures Counters(Advanced(r, order)) && Fences(Advanced(r, order))
    ensures Rotation(r) ==> Rotation(Advanced(r, order))
  {
    hide Fences, Rotation;
    AdvancedSlots(r, order);
    FencesAfterJob(r, Advanced(r, order));
    if Rotation(r) {
      RotationAfterJob(r, Advanced(r, order));
    }
  }

  lemma AdvancedHandles(r: Ring, order: seq<nat>)
    requires Counters(r) && r.queue != [] && Counters(Advanced(r, order)) && Handles(r)
    ensures Handles(Advanced(r, order))
  {
    hide Ran;
    RanKeepsBooks(r.slots[r.queue[0].slot], r.queue[0], order);
    forall i | 0 <= i < SLOT_COUNT ensures HandleOk(Advanced(r, order), i) {
      assert HandleOk(r, i);
    }
  }

  lemma AdvancedSlotOk(lib: Library, r: Ring, order: seq<nat>, i: nat)
    requires Counters(r) && Fences(r) && r.queue != [] && Schedules(order, r.queue[0])
    requires Counters(Advanced(r, order)) && Fences(Advanced(r, order)) && i < SLOT_COUNT && SlotOk(lib, r, i)
    ensures SlotOk(lib, Advanced(r, order), i)
  {
    hide Ran, Loaded, Settled, Promised, Hollow, Uploaded, BlankUpTo;
    var job := r.queue[0];
    if i == job.slot {
      RanKeepsBooks(r.slots[i], job, order);
      if Trusted(lib, r, i) {
        RunSettles(lib, r.slots[i], r.shown[i], job, order);
      } else {
        RunStaysHollow(lib, r.slots[i], r.shown[i], job, order);
      }
    } else if InFlight(r, i) {
      InFlightJob(r, i);
    }
  }

  lemma AdvancedKeeps(lib: Library, r: Ring, order: seq<nat>)
    requires Sound(lib, r) && r.queue != [] && Schedules(order, r.queue[0])
    ensures Sound(lib, Advanced(r, order)) && (Rotation(r) ==> Rotation(Advanced(r, order)))
  {
    hide Ran, SlotOk, Rotation, Handles, Fences;
    AdvancedFences(r, order);
    AdvancedHandles(r, order);
    forall i | 0 <= i < SLOT_COUNT ensures SlotOk(lib, Advanced(r, order), i) {
      AdvancedSlotOk(lib, r, order, i);
    }
  }

  // ---------------------------------------------------------------- submitting keeps it

  /** The packet bytes depend on the two epochs alone. */
  ghost predicate Published(lib: Library, f: Frame) { f.packet == lib(f.scene, f.transform) }

  lemma UploadedNext(frames: seq<Frame>, f: Frame, i: nat)
    requires i < SLOT_COUNT
    ensures Uploaded(frames + [f], i) <==> Uploaded(frames, i) || (|frames| % SLOT_COUNT == i && NonzeroEpochs(f))
  {
    var after := frames + [f];
    if Uploaded(frames, i) {
      var k :| 0 <= k < |frames| && k % SLOT_COUNT == i && NonzeroEpochs(frames[k]);
      assert NonzeroEpochs(after[k]);
    }
    if |frames| % SLOT_COUNT == i && NonzeroEpochs(f) {
      assert NonzeroEpochs(after[|frames|]);
    }
  }

  /** Skipping the upload and the expansion is sound: the slot's buffers hold the packet either way, and when the
      expansion is skipped its result is already there. The one exception is a slot that only frames with zero
      epochs have come to, as those look like the epochs of an unused slot. */
  lemma FilledPromises(lib: Library, s: Slot, shown: Option<nat>, f: Frame, sequence: nat, fence: nat, slot: nat)
    requires s.buffers.Sized() && Fits(f) && Published(lib, f)
    requires s.sequence > 0 || NonzeroEpochs(f) || f.packet.targets == []
    requires if s.sequence == 0 then s.scene == 0 && s.transform == 0
             else (Loaded(lib, s, shown) && Settled(lib, s, shown)) || s.scene != f.scene || s.transform != f.transform
    ensures var after, update := Filled(s, f, sequence, fence), s.scene != f.scene || s.transform != f.transform;
            && after.buffers.Sized() && Loaded(lib, after, f.active)
            && Promised(lib, after, f.active, Render(slot, fence, update, |f.packet.targets|, f.active))
  {
    hide ExpandedUpTo, StaticScene;
    NothingToExpand(f.packet);
    if s.scene == f.scene && s.transform == f.transform && s.sequence > 0 {
      var n := |f.packet.targets|;
      assert s.buffers.instances[..INSTANCES_PER_TARGET * n]
          == s.buffers.instances[..s.count][..INSTANCES_PER_TARGET * n];
    }
  }

  lemma FilledStaysHollow(lib: Library, s: Slot, f: Frame, sequence: nat, fence: nat)
    requires s.buffers.Sized() && Fits(f) && Published(lib, f) && !NonzeroEpochs(f)
    requires s.scene == 0 && s.transform == 0 && BlankUpTo(s.buffers, INSTANCES_PER_TARGET * |lib(0, 0).targets|)
    ensures Hollow(lib, Filled(s, f, sequence, fence), f.active)
  {
  }

  lemma FilledBooks(s: Slot, f: Frame, sequence: nat, fence: nat)
    requires s.buffers.Sized() && Fits(f)
    ensures var t := Filled(s, f, sequence, fence);
            && t.sequence == sequence && t.fence == fence && t.scene == f.scene && t.transform == f.transform
            && t.count == SceneSize(f.packet, f.active) && t.buffers.Sized()
  {
  }

  lemma SubmittedCounters(r: Ring, f: Frame)
    requires Counters(r) && Fits(f)
    ensures Counters(Submitted(r, f))
    ensures forall i | 0 <= i < SLOT_COUNT && i != r.nextSlot ::
              Submitted(r, f).slots[i] == r.slots[i] && Submitted(r, f).shown[i] == r.shown[i]
    ensures Submitted(r, f).slots[r.nextSlot].fence == r.nextFence
  {
    hide Filled;
    FilledBooks(r.slots[r.nextSlot], f, r.nextSequence, r.nextFence);
  }

  /** Queueing one more job for a slot that is not in flight. */
  lemma FencesAfterQueueing(r: Ring, after: Ring, i: nat, job: Job)
    requires Counters(r) && Fences(r) && Counters(after) && i < SLOT_COUNT && !InFlight(r, i)
    requires after.queue == r.queue + [job] && after.completed == r.completed && after.nextFence == r.nextFence + 1
    requires job.slot == i && after.slots[i].fence == r.nextFence
    requires forall k | 0 <= k < SLOT_COUNT && k != i :: after.slots[k].fence == r.slots[k].fence
    ensures Fences(after)
    ensures forall k | 0 <= k < SLOT_COUNT && k != i && InFlight(r, k) ::
              InFlight(after, k) && JobOf(after, k) == JobOf(r, k)
    ensures forall k | 0 <= k < SLOT_COUNT && k != i && !InFlight(r, k) :: !InFlight(after, k)
    ensures InFlight(after, i) && JobOf(after, i) == job
  {
    var n := |r.queue|;
    assert after.queue[n] == job && after.queue[n].fence == r.completed + 1 + n == r.nextFence;
    forall j | 0 <= j < |after.queue| ensures after.slots[after.queue[j].slot].fence == after.queue[j].fence {
      if j < n {
        assert after.queue[j] == r.queue[j];
        assert r.slots[r.queue[j].slot].fence == r.queue[j].fence;
        assert r.queue[j].fence == r.completed + 1 + j;
      }
    }
    forall k | 0 <= k < SLOT_COUNT && k != i && InFlight(r, k)
      ensures InFlight(after, k) && JobOf(after, k) == JobOf(r, k)
    {
      InFlightJob(r, k);
    }
    forall k | 0 <= k < SLOT_COUNT && InFlight(after, k) ensures JobOf(after, k).slot == k {
      if k != i {
        InFlightJob(r, k);
      }
    }
  }

  lemma SubmittedRotates(r: Ring, f: Frame)
    requires Counters(r) && Fences(r) && Rotation(r) && Fits(f) && !InFlight(r, r.nextSlot)
    requires Counters(Submitted(r, f))
    ensures Rotation(Submitted(r, f))
  {
    hide Runnable, Filled;
    var after := Submitted(r, f);
    SubmittedCounters(r, f);
    var a := (r.nextSlot + 1) % SLOT_COUNT;
    assert after.nextSlot == a && (a + 2) % SLOT_COUNT == r.nextSlot;
    assert (a + 1) % SLOT_COUNT == (r.nextSlot + 2) % SLOT_COUNT;
  }

  lemma LastIntoNext(i: nat, n: nat)
    requires i < SLOT_COUNT
    ensures LastInto(i, n + 1) == if n % SLOT_COUNT == i then n + 1 else LastInto(i, n)
    ensures LastInto(i, n) <= n
  {
  }

  lemma SubmittedHandles(r: Ring, f: Frame)
    requires Counters(r) && Handles(r) && Fits(f) && Counters(Submitted(r, f))
    ensures Handles(Submitted(r, f))
  {
    hide Runnable, LastInto, Filled;
    var after := Submitted(r, f);
    SubmittedCounters(r, f);
    FilledBooks(r.slots[r.nextSlot], f, r.nextSequence, r.nextFence);
    forall i | 0 <= i < SLOT_COUNT ensures HandleOk(after, i) {
      LastIntoNext(i, |r.issued|);
      assert HandleOk(r, i);
    }
  }

  lemma SubmittedSlotOk(lib: Library, r: Ring, f: Frame)
    requires Counters(r) && Fences(r) && Fits(f) && Published(lib, f) && !InFlight(r, r.nextSlot)
    requires SlotOk(lib, r, r.nextSlot)
    requires Counters(Submitted(r, f)) && Fences(Submitted(r, f)) && InFlight(Submitted(r, f), r.nextSlot)
    requires JobOf(Submitted(r, f), r.nextSlot) == Submitted(r, f).queue[|r.queue|]
    ensures SlotOk(lib, Submitted(r, f), r.nextSlot)
  {
    hide Loaded, Settled, Promised, Filled, Uploaded, BlankUpTo, Counters, Fences, Fits;
    NextIsNext(r);
    var i, s := r.nextSlot, r.slots[r.nextSlot];
    UploadedNext(r.frames, f, i);
    FilledBooks(s, f, r.nextSequence, r.nextFence);
    if Trusted(lib, Submitted(r, f), i) {
      FilledPromises(lib, s, r.shown[i], f, r.nextSequence, r.nextFence, i);
    } else {
      if s.sequence == 0 {
        FittingIsSmall(f);
        BlankLess(s.buffers, INSTANCE_CAPACITY, INSTANCES_PER_TARGET * |f.packet.targets|);
      }
      FilledStaysHollow(lib, s, f, r.nextSequence, r.nextFence);
    }
  }

  lemma NextIsNext(r: Ring)
    requires Counters(r)
    ensures |r.slots| == |r.shown| == SLOT_COUNT
    ensures r.nextSlot == |r.frames| % SLOT_COUNT < SLOT_COUNT && r.nextSequence > 0
    ensures forall i | 0 <= i < SLOT_COUNT :: r.slots[i].buffers.Sized()
  {
  }

  lemma FittingIsSmall(f: Frame)
    requires Fits(f)
    ensures INSTANCES_PER_TARGET * |f.packet.targets| <= INSTANCE_CAPACITY
  {
  }

  lemma BlankLess(b: Buffers, m: nat, n: nat)
    requires BlankUpTo(b, m) && n <= m
    ensures BlankUpTo(b, n)
  {
  }

  lemma SubmittedKeeps(lib: Library, r: Ring, f: Frame)
    requires Inv(lib, r) && Fits(f) && Published(lib, f) && !InFlight(r, r.nextSlot)
    ensures Inv(lib, Submitted(r, f))
  {
    hide Rotation, Handles, Loaded, Settled, Promised, Hollow, Published, Filled, Fits, Uploaded, Fences, Unused;
    var after, i := Submitted(r, f), r.nextSlot;
    SubmittedCounters(r, f);
    FencesAfterQueueing(r, after, i, after.queue[|r.queue|]);
    SubmittedRotates(r, f);
    SubmittedHandles(r, f);
    assert SlotOk(lib, r, i);
    hide SlotOk;
    SubmittedSlotOk(lib, r, f);
    forall k | 0 <= k < SLOT_COUNT && k != i ensures SlotOk(lib, after, k) {
      assert SlotOk(lib, r, k);
      SlotOkElsewhere(lib, r, f, k);
    }
  }

  lemma SlotOkElsewhere(lib: Library, r: Ring, f: Frame, k: nat)
    requires Counters(r) && Fences(r) && Fits(f) && k < SLOT_COUNT && k != r.nextSlot && SlotOk(lib, r, k)
    requires Counters(Submitted(r, f)) && Fences(Submitted(r, f))
    requires InFlight(Submitted(r, f), k) <==> InFlight(r, k)
    requires InFlight(r, k) ==> JobOf(Submitted(r, f), k) == JobOf(r, k)
    ensures SlotOk(lib, Submitted(r, f), k)
  {
    hide Loaded, Settled, Promised, Hollow, Filled, Uploaded, Unused;
    NextIsNext(r);
    UploadedNext(r.frames, f, k);
    SubmittedCounters(r, f);
  }

  // ---------------------------------------------------------------- reading instances back

  lemma ReadBackCounters(r: Ring, i: nat)
    requires Counters(r) && i < SLOT_COUNT
    ensures Counters(ReadBackQueued(r, i))
  {
  }

  /** The rotation is broken only until the read-back is done: then no slot is in flight. */
  lemma NothingInFlight(r: Ring)
    requires Counters(r) && Fences(r) && r.queue == []
    ensures Rotation(r) && forall i | 0 <= i < SLOT_COUNT :: !InFlight(r, i)
  {
  }

  lemma ReadBackHandles(r: Ring, i: nat)
    requires Counters(r) && Handles(r) && i < SLOT_COUNT && Counters(ReadBackQueued(r, i))
    ensures Handles(ReadBackQueued(r, i))
  {
    forall k | 0 <= k < SLOT_COUNT ensures HandleOk(ReadBackQueued(r, i), k) {
      assert HandleOk(r, k);
    }
  }

  lemma ReadBackKeeps(lib: Library, r: Ring, i: nat)
    requires Sound(lib, r) && i < SLOT_COUNT && !InFlight(r, i) && r.slots[i].sequence > 0
    ensures Sound(lib, ReadBackQueued(r, i))
  {
    hide Rotation, Loaded, Settled, Promised, Hollow, Uploaded, Unused, Handles, Fences;
    var after := ReadBackQueued(r, i);
    ReadBackCounters(r, i);
    FencesAfterQueueing(r, after, i, ReadBack(i, r.nextFence));
    ReadBackHandles(r, i);
    forall k | 0 <= k < SLOT_COUNT ensures SlotOk(lib, after, k) {
      assert SlotOk(lib, r, k);
      if k == i {
        SameContents(lib, r.slots[i], r.nextFence, r.shown[i]);
      }
    }
  }

  lemma SameContents(lib: Library, s: Slot, fence: nat, active: Option<nat>)
    requires s.buffers.Sized()
    ensures Loaded(lib, s, active) && Settled(lib, s, active)
            ==> Loaded(lib, s.(fence := fence), active)
                && Promised(lib, s.(fence := fence), active, ReadBack(0, fence))
                && forall i :: Promised(lib, s.(fence := fence), active, ReadBack(i, fence))
    ensures Hollow(lib, s, active) ==> Hollow(lib, s.(fence := fence), active)
  {
  }

  // ---------------------------------------------------------------- what callers can rely on

  /** The three-slot scan is round robin: if the slot it starts at is in flight, all three are. */
  lemma BusyMeansAllBusy(lib: Library, r: Ring)
    requires Inv(lib, r) && InFlight(r, r.nextSlot)
    ensures forall i | 0 <= i < SLOT_COUNT :: InFlight(r, i)
  {
    hide SlotOk, Handles, Runnable;
    var n := r.nextSlot;
    forall i | 0 <= i < SLOT_COUNT ensures InFlight(r, i) {
      assert i == n || i == (n + 1) % SLOT_COUNT || i == (n + 2) % SLOT_COUNT;
    }
  }

  predicate Matches(r: Ring, h: Submission)
    requires h.slot < |r.slots|
  {
    r.slots[h.slot].sequence == h.sequence && r.slots[h.slot].scene == h.scene
  }

  /** A handle goes stale exactly when its slot is used again, which is at the third submission after it. */
  lemma StaleExactly(lib: Library, r: Ring, h: Submission)
    requires Inv(lib, r) && h in r.issued
    ensures h.slot < SLOT_COUNT && 1 <= h.sequence <= |r.issued|
    ensures Matches(r, h) <==> |r.issued| - h.sequence < 3
    ensures Matches(r, h) <==> forall k | h.sequence <= k < |r.issued| :: r.issued[k].slot != h.slot
    ensures Matches(r, h) ==> h.count == r.slots[h.slot].count
  {
    hide SlotOk, Rotation, Fences, Runnable;
    var s: nat :| s < |r.issued| && r.issued[s] == h;
    assert h.sequence == s + 1 && h.slot == s % SLOT_COUNT;
    assert HandleOk(r, h.slot);
    LastMatches(s, |r.issued|);
    if |r.issued| - h.sequence < SLOT_COUNT {
      forall k | h.sequence <= k < |r.issued| ensures r.issued[k].slot != h.slot {
        assert r.issued[k].slot == k % SLOT_COUNT;
      }
    } else {
      assert r.issued[s + 3].slot == (s + 3) % SLOT_COUNT == h.slot;
    }
  }

  lemma LastMatches(s: nat, n: nat)
    requires s < n
    ensures LastInto(s % SLOT_COUNT, n) == s + 1 <==> n - (s + 1) < SLOT_COUNT
  {
  }

  /** What a slot that is not in flight should show, and whether it does. */
  ghost predicate Shows(lib: Library, r: Ring, i: nat, f: Frame)
    requires i < |r.slots|
  {
    var s, p := r.slots[i], lib(f.scene, f.transform);
    && p.Valid() && (f.active.Some? ==> f.active.value < |p.targets|)
    && s.count == SceneSize(p, f.active) <= |s.buffers.instances|
    && s.buffers.instances[..s.count] == Scene(p, f.active)
  }

  /** For every reachable ring and every slot that is not in flight: the slot shows its last frame, exactly as if
      the packet had been expanded afresh, if and only if some frame with nonzero epochs has come to the slot or the
      frame's packet has no targets. */
  lemma SlotShowsExactly(lib: Library, r: Ring, i: nat)
    requires Inv(lib, r) && i < SLOT_COUNT && r.slots[i].sequence > 0 && !InFlight(r, i)
    ensures 1 <= r.slots[i].sequence <= |r.frames|
    ensures var f := r.frames[r.slots[i].sequence - 1];
            && lib(f.scene, f.transform).Valid()
            && (f.active.Some? ==> f.active.value < |lib(f.scene, f.transform).targets|)
            && r.slots[i].count == SceneSize(lib(f.scene, f.transform), f.active)
            && r.slots[i].count <= INSTANCE_CAPACITY == |r.slots[i].buffers.instances|
            && (Shows(lib, r, i, f) <==> Uploaded(r.frames, i) || lib(f.scene, f.transform).targets == [])
  {
    hide Rotation, Fences, Uploaded, StaticScene, Runnable;
    var s := r.slots[i];
    assert HandleOk(r, i) && SlotOk(lib, r, i);
    var f := r.frames[s.sequence - 1];
    if !Trusted(lib, r, i) {
      FirstIsOutline(lib(0, 0), f.active);
      assert 0 < s.count <= |s.buffers.instances|;
      assert s.buffers.instances[..s.count][0] == s.buffers.instances[0];
    }
  }

  lemma FirstIsOutline(p: Packet, active: Option<nat>)
    requires p.targets != [] && (active.Some? ==> active.value < |p.targets|)
    ensures Scene(p, active)[0].kind == Outline
  {
    ExpandedAt(p.targets, p.styles, |p.targets|, 0, 0);
  }

  /** A handle that matches names the last frame of its slot. */
  lemma MatchingNamesLastFrame(lib: Library, r: Ring, h: Submission)
    requires Inv(lib, r) && h.slot < SLOT_COUNT && h.sequence > 0 && Matches(r, h)
    ensures h.sequence <= |r.issued| == |r.frames| && h.sequence == r.slots[h.slot].sequence
    ensures r.issued[h.sequence - 1].slot == h.slot && r.issued[h.sequence - 1].count == r.slots[h.slot].count
  {
    hide SlotOk, Rotation, Fences, Runnable;
    assert HandleOk(r, h.slot);
  }

  /** The frame that makes a slot wrong is the first one to come to it: with zero epochs and something to show. Once a
      frame with nonzero epochs has come, the slot is right for good. */
  lemma WrongFromTheFirst(lib: Library, r: Ring, f: Frame)
    requires Inv(lib, r) && Fits(f) && Published(lib, f) && !InFlight(r, r.nextSlot)
    ensures var i := r.nextSlot;
            && (r.slots[i].sequence == 0 ==>
                  (Trusted(lib, Submitted(r, f), i) <==> NonzeroEpochs(f) || f.packet.targets == []))
            && (r.slots[i].sequence > 0 ==>
                  (Trusted(lib, Submitted(r, f), i) <==> Trusted(lib, r, i) || NonzeroEpochs(f)))
  {
    hide Uploaded, Rotation, Fences, Handles, Filled;
    NextIsNext(r);
    UploadedNext(r.frames, f, r.nextSlot);
    assert SlotOk(lib, r, r.nextSlot);
  }

  /** Such slots exist: the first frame of a fresh ring, with zero epochs and something to show, is not shown. */
  lemma ZeroEpochsSkipTheFirstFrame(lib: Library, f: Frame, order: seq<nat>)
    requires Fits(f) && Published(lib, f) && !NonzeroEpochs(f) && f.packet.targets != []
    requires Dispatched(order, |f.packet.targets|)
    ensures var r := Submitted(FreshRing(), f);
            && HasWork(r) && Inv(lib, Advanced(r, order)) && !InFlight(Advanced(r, order), 0)
            && !Shows(lib, Advanced(r, order), 0, f)
  {
    hide Inv, Sound, Ran, Filled, Shows;
    var fresh0, r := FreshRing(), Submitted(FreshRing(), f);
    FreshInv(lib);
    SubmittedKeeps(lib, fresh0, f);
    InvHasWork(lib, r);
    AdvancedKeeps(lib, r, order);
    FilledBooks(fresh0.slots[0], f, 1, 1);
    RanKeepsBooks(r.slots[0], r.queue[0], order);
    InvHasWork(lib, Advanced(r, order));
    SlotShowsExactly(lib, Advanced(r, order), 0);
    assert r.frames == [f];
  }

  lemma InvHasWork(lib: Library, r: Ring)
    requires Sound(lib, r) || Inv(lib, r)
    ensures Sound(lib, r) && Counters(r) && (r.queue != [] ==> HasWork(r))
    ensures Rotation(r) ==> Inv(lib, r)
  {
  }
}
