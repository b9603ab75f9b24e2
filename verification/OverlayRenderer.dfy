/** The overlay renderer over the ring: submitting frames, waiting for them and reading their instances back. */
module OverlayRenderer {
  import opened Statuses
  import opened OverlayScenes
  import opened OverlayRing

  /** The threads of whole groups for n targets, in number order. */
  function InOrder(n: nat): seq<nat> {
    seq((n + THREADS_PER_GROUP - 1) / THREADS_PER_GROUP * THREADS_PER_GROUP, i => i)
  }

  lemma InOrderRunsAll(n: nat)
    ensures Dispatched(InOrder(n), n)
  {
    forall i | 0 <= i < |InOrder(n)| ensures i in InOrder(n) {
      assert InOrder(n)[i] == i;
    }
  }

  lemma SoundParts(lib: Library, r: Ring)
    requires Sound(lib, r)
    ensures Counters(r) && Fences(r) && |r.slots| == SLOT_COUNT && (r.queue != [] ==> HasWork(r))
  {
  }

  lemma InvParts(lib: Library, r: Ring)
    requires Inv(lib, r)
    ensures Sound(lib, r) && Counters(r) && Fences(r) && Rotation(r) && |r.slots| == SLOT_COUNT
    ensures r.nextSlot < SLOT_COUNT && |r.frames| == |r.issued| && r.nextSequence == |r.issued| + 1
  {
  }

  lemma InvMade(lib: Library, r: Ring)
    requires Sound(lib, r) && Counters(r) && Rotation(r)
    ensures Inv(lib, r)
  {
  }

  lemma SizedSlots(r: Ring)
    requires Counters(r)
    ensures |r.slots| == |r.shown| == SLOT_COUNT && r.nextSlot < SLOT_COUNT && r.nextSequence == |r.issued| + 1
    ensures forall i | 0 <= i < SLOT_COUNT :: r.slots[i].buffers.Sized()
    ensures |r.frames| == |r.issued|
  {
  }

  lemma QueueFront(r: Ring)
    requires Counters(r) && Fences(r) && r.queue != []
    ensures r.queue[0].fence == r.completed + 1
  {
  }

  lemma QueueReaches(r: Ring, i: nat)
    requires Counters(r) && Fences(r) && i < SLOT_COUNT && InFlight(r, i)
    ensures r.queue != []
  {
  }

  lemma MatchesMeans(r: Ring, h: Submission)
    requires h.slot < |r.slots|
    ensures Matches(r, h) <==> r.slots[h.slot].sequence == h.sequence && r.slots[h.slot].scene == h.scene
  {
  }

  /** What a finished job leaves of a slot. */
  predicate SameSlot(a: Slot, b: Slot) {
    && a.sequence == b.sequence && a.fence == b.fence && a.scene == b.scene && a.transform == b.transform
    && a.count == b.count
  }

  lemma AdvancedLeaves(r: Ring, order: seq<nat>, i: nat)
    requires HasWork(r) && i < SLOT_COUNT
    ensures var after, job := Advanced(r, order), r.queue[0];
            && |after.slots| == SLOT_COUNT && after.queue == r.queue[1..] && after.completed == job.fence
            && SameSlot(after.slots[i], r.slots[i])
            && (job == ReadBack(i, job.fence) ==> after.slots[i].readback == after.slots[i].buffers.instances)
  {
    hide Threads;
    RanKeepsBooks(r.slots[r.queue[0].slot], r.queue[0], order);
  }

  class Renderer {
    ghost const lib: Library
    const slots: array<Slot>
    var queue: seq<Job>
    var completed: nat
    var nextSlot: nat
    var nextFence: nat
    var nextSequence: nat
    var validated: Option<Frame>
    ghost var issued: seq<Submission>
    ghost var frames: seq<Frame>
    ghost var shown: seq<Option<nat>>

    ghost function Now(): Ring
      reads this, slots
    {
      Ring(slots[..], queue, completed, nextSlot, nextFence, nextSequence, issued, frames, shown)
    }

    ghost predicate Valid()
      reads this, slots
    {
      && Inv(lib, Now())
      && (validated.Some? ==> var p := validated.value.packet; p.Valid() && p == lib(p.scene, p.transform))
    }

    /** The packet was validated before, at the same address and for the same epochs. */
    predicate Cached(f: Frame)
      reads this
    {
      && validated.Some? && validated.value.address == f.address
      && validated.value.packet.scene == f.scene && validated.value.packet.transform == f.transform
    }

    /** The caller's side: packets are immutable snapshots named by their epochs. */
    ghost predicate HonoursContract(f: Frame)
      reads this
    {
      && (f.packet.Valid() ==> f.packet == lib(f.packet.scene, f.packet.transform))
      && (Cached(f) ==> f.packet == validated.value.packet)
    }

    constructor (ghost lib: Library)
      ensures Valid() && fresh(slots) && this.lib == lib && Now() == FreshRing() && validated == None
    {
      this.lib := lib;
      var blank := FreshSlot();
      slots := new Slot[SLOT_COUNT](_ => blank);
      queue := [];
      completed, nextSlot, nextFence, nextSequence := 0, 0, 1, 1;
      validated := None;
      issued, frames, shown := [], [], [None, None, None];
      new;
      FreshInv(lib);
      assert slots[..] == FreshRing().slots;
    }

    /** The GPU finishes its next job, running a static kernel's threads in any order. */
    method Advance(order: seq<nat>)
      requires Sound(lib, Now()) && queue != [] && Schedules(order, queue[0])
      modifies this`queue, this`completed, slots
      ensures HasWork(old(Now())) && Now() == Advanced(old(Now()), order)
      ensures Sound(lib, Now()) && (Counters(old(Now())) && Rotation(old(Now())) ==> Rotation(Now()))
    {
      hide Sound, Ran, Schedules;
      ghost var r := Now();
      SoundParts(lib, r);
      AdvancedKeeps(lib, r, order);
      var job := queue[0];
      slots[job.slot] := Ran(slots[job.slot], job, order);
      queue := queue[1..];
      completed := job.fence;
      assert slots[..] == r.slots[job.slot := Ran(r.slots[job.slot], job, order)];
    }

    /** The next job, with its threads in number order. */
    method AdvanceInOrder()
      requires Sound(lib, Now()) && queue != []
      modifies this`queue, this`completed, slots
      ensures Sound(lib, Now()) && (Counters(old(Now())) && Rotation(old(Now())) ==> Rotation(Now()))
      ensures |old(slots[..])| == |slots[..]| == SLOT_COUNT && queue == old(queue[1..])
              && completed == old(queue[0].fence)
      ensures forall i | 0 <= i < SLOT_COUNT :: SameSlot(slots[i], old(slots[i]))
      ensures forall i | 0 <= i < SLOT_COUNT && old(queue[0]) == ReadBack(i, old(queue[0].fence)) ::
                slots[i].readback == slots[i].buffers.instances
    {
      hide Sound, Rotation, Counters, Fences, Advanced, SameSlot;
      ghost var r := Now();
      SoundParts(lib, r);
      var order := if queue[0].Render? then InOrder(queue[0].targets) else [];
      if queue[0].Render? {
        InOrderRunsAll(queue[0].targets);
      }
      Advance(order);
      forall i | 0 <= i < SLOT_COUNT
        ensures SameSlot(Now().slots[i], r.slots[i])
        ensures r.queue[0] == ReadBack(i, r.queue[0].fence)
                ==> Now().slots[i].readback == Now().slots[i].buffers.instances
      {
        AdvancedLeaves(r, order, i);
      }
      AdvancedLeaves(r, order, 0);
    }

    method FenceStatus(value: nat) returns (status: Status)
      ensures status == if value <= completed then Ok else Busy
    {
      if value == 0 {
        return Ok;
      }
      status := if completed >= value then Ok else Busy;
    }

    /** Scan the slots from the next one on for one that is not in flight: it is the next one, or there is none. */
    method FreeSlot() returns (found: bool, index: nat)
      requires Valid()
      ensures |slots[..]| == SLOT_COUNT && nextSlot < SLOT_COUNT
      ensures found <==> !InFlight(Now(), nextSlot)
      ensures if found then index == nextSlot else forall i | 0 <= i < SLOT_COUNT :: InFlight(Now(), i)
    {
      ghost var r := Now();
      hide Inv, Sound, Rotation, Counters, Fences;
      InvParts(lib, r);
      if InFlight(r, r.nextSlot) {
        BusyMeansAllBusy(lib, r);
      }
      found, index := false, 0;
      for offset := 0 to SLOT_COUNT
        invariant offset > 0 ==> InFlight(r, r.nextSlot)
      {
        index := (nextSlot + offset) % SLOT_COUNT;
        assert offset > 0 ==> InFlight(r, index);
        var status := FenceStatus(slots[index].fence);
        if status == Ok {
          return true, index;
        }
      }
    }

    /** Fill the next slot and queue its work. */
    method Enqueue(f: Frame) returns (submission: Submission)
      requires Valid() && Fits(f) && Published(lib, f) && nextSlot < slots.Length && !InFlight(Now(), nextSlot)
      modifies this`queue, this`nextSlot, this`nextFence, this`nextSequence, this`issued, this`frames, this`shown, slots
      ensures Valid()
      ensures Counters(old(Now())) && Now() == Submitted(old(Now()), f)
      ensures submission in issued && submission.sequence == old(nextSequence) == |frames|
      ensures frames[submission.sequence - 1] == f && submission.slot == old(nextSlot) < SLOT_COUNT
      ensures Matches(Now(), submission)
      ensures forall i | 0 <= i < slots.Length && i != old(nextSlot) :: slots[i] == old(slots[i])
    {
      ghost var r := Now();
      hide Inv, Sound, Filled, Fits, Published, Fences, Rotation, Counters;
      InvParts(lib, r);
      SizedSlots(r);
      SubmittedKeeps(lib, r, f);
      var index, s := nextSlot, slots[nextSlot];
      var update := s.scene != f.scene || s.transform != f.transform;
      var filled := Filled(s, f, nextSequence, nextFence);
      FilledBooks(s, f, nextSequence, nextFence);
      slots[index] := filled;
      queue := queue + [Render(index, nextFence, update, |f.packet.targets|, f.active)];
      submission := Submission(nextSequence, f.scene, index, filled.count);
      issued, frames, shown := issued + [submission], frames + [f], shown[index := f.active];
      nextSlot := (index + 1) % SLOT_COUNT;
      nextFence, nextSequence := nextFence + 1, nextSequence + 1;
      assert slots[..] == r.slots[index := filled];
      assert issued[|r.issued|] == submission;
    }

    /** Take the next slot, or answer BUSY. Slots in flight are not touched. */
    method Submit(f: Frame) returns (status: Status, submission: Submission)
      requires Valid() && HonoursContract(f)
      modifies this, slots
      ensures Valid()
      ensures |old(slots[..])| == SLOT_COUNT && old(nextSlot) < SLOT_COUNT
      ensures status == if !f.packet.Valid() || f.scene != f.packet.scene || f.transform != f.packet.transform
                        then InvalidArgument
                        else if f.active.Some? && f.active.value >= |f.packet.targets| then InvalidArgument
                        else if InFlight(old(Now()), old(nextSlot)) then Busy else Ok
      ensures status == Busy ==> forall i | 0 <= i < SLOT_COUNT :: InFlight(old(Now()), i)
      ensures status == Ok ==>
                && Fits(f) && Counters(old(Now())) && Now() == Submitted(old(Now()), f)
                && submission in issued && submission.sequence == old(nextSequence) == |frames|
                && frames[submission.sequence - 1] == f && submission.slot == old(nextSlot)
                && Matches(Now(), submission)
      ensures status != Ok ==> Now() == old(Now())
      ensures forall i | 0 <= i < SLOT_COUNT && InFlight(old(Now()), i) :: slots[i] == old(slots[i])
    {
      ghost var r := Now();
      hide Inv, Sound, Counters, Submitted, Matches;
      submission := Submission(0, 0, 0, 0);
      InvParts(lib, r);
      if !Cached(f) {
        if !f.packet.Valid() || f.scene != f.packet.scene || f.transform != f.packet.transform {
          return InvalidArgument, submission;
        }
        validated := Some(f);
      }
      if f.active.Some? && f.active.value >= |f.packet.targets| {
        return InvalidArgument, submission;
      }
      var found, index := FreeSlot();
      if !found {
        return Busy, submission;
      }
      submission := Enqueue(f);
      InvParts(lib, Now());
      status := Ok;
    }

    method Poll(h: Submission) returns (status: Status, complete: bool)
      requires Valid()
      ensures |slots[..]| == SLOT_COUNT
      ensures status == if h.sequence == 0 || h.slot >= SLOT_COUNT then InvalidArgument
                        else if Matches(Now(), h) then Ok else StaleHandle
      ensures status == Ok ==> (complete <==> !InFlight(Now(), h.slot))
      ensures h in issued ==> h.sequence <= |issued|
                              && status == if |issued| - h.sequence < SLOT_COUNT then Ok else StaleHandle
    {
      hide Inv, Sound, Counters, Matches;
      complete := false;
      InvParts(lib, Now());
      if h in issued {
        StaleExactly(lib, Now(), h);
      }
      if h.sequence == 0 || h.slot >= SLOT_COUNT {
        return InvalidArgument, false;
      }
      MatchesMeans(Now(), h);
      if slots[h.slot].sequence != h.sequence || slots[h.slot].scene != h.scene {
        return StaleHandle, false;
      }
      var fence := FenceStatus(slots[h.slot].fence);
      return Ok, fence == Ok;
    }

    /** The GPU finishes up to `budget` jobs, until the slot is no longer in flight. */
    method RunFor(i: nat, budget: nat)
      requires Valid() && i < SLOT_COUNT
      modifies this`queue, this`completed, slots
      ensures Valid() && |old(slots[..])| == |slots[..]| == SLOT_COUNT
      ensures forall k | 0 <= k < SLOT_COUNT :: SameSlot(slots[k], old(slots[k]))
      ensures InFlight(Now(), i) <==> old(slots[i].fence) > old(completed) + budget
    {
      hide Inv, Sound, Counters, Fences, Rotation;
      InvParts(lib, Now());
      ghost var before := slots[..];
      for n := 0 to budget
        invariant Valid() && |slots[..]| == SLOT_COUNT
        invariant forall k | 0 <= k < SLOT_COUNT :: SameSlot(slots[k], before[k])
        invariant completed == old(completed) + n && (n > 0 ==> before[i].fence >= completed)
      {
        ghost var r := Now();
        InvParts(lib, r);
        var status := FenceStatus(slots[i].fence);
        if status == Ok {
          return;
        }
        QueueReaches(r, i);
        QueueFront(r);
        AdvanceInOrder();
        SoundParts(lib, Now());
        InvMade(lib, Now());
      }
    }

    /** While the caller waits, the GPU finishes up to `budget` jobs. */
    method Wait(h: Submission, budget: nat) returns (status: Status)
      requires Valid()
      modifies this`queue, this`completed, slots
      ensures Valid() && |old(slots[..])| == |slots[..]| == SLOT_COUNT
      ensures forall k | 0 <= k < SLOT_COUNT :: SameSlot(slots[k], old(slots[k]))
      ensures status == if h.sequence == 0 || h.slot >= SLOT_COUNT then InvalidArgument
                        else if !Matches(old(Now()), h) then StaleHandle
                        else if old(slots[h.slot].fence) > old(completed) + budget then Timeout else Ok
      ensures status == Ok ==> Matches(Now(), h) && !InFlight(Now(), h.slot)
    {
      hide Inv;
      InvParts(lib, Now());
      var complete;
      status, complete := Poll(h);
      if status != Ok || complete {
        return;
      }
      RunFor(h.slot, budget);
      var now := FenceStatus(slots[h.slot].fence);
      status := if now == Ok then Ok else Timeout;
    }

    method QueueReadBack(i: nat)
      requires Valid() && i < |slots[..]| == SLOT_COUNT && !InFlight(Now(), i) && slots[i].sequence > 0
      modifies this`queue, this`nextFence, slots
      ensures Sound(lib, Now()) && |slots[..]| == SLOT_COUNT
      ensures queue != [] && queue[|queue| - 1] == ReadBack(i, slots[i].fence)
      ensures SameSlot(slots[i].(fence := 0), old(slots[i]).(fence := 0))
    {
      hide Inv, Sound, Rotation, Counters, Fences;
      ghost var r := Now();
      InvParts(lib, r);
      ReadBackKeeps(lib, r, i);
      slots[i] := slots[i].(fence := nextFence);
      queue := queue + [ReadBack(i, nextFence)];
      nextFence := nextFence + 1;
      assert slots[..] == ReadBackQueued(r, i).slots;
    }

    /** Wait for a read-back that is the last job on the queue; by then every other job is done too. */
    method AwaitReadBack(i: nat)
      requires Sound(lib, Now()) && i < |slots[..]|
      requires queue != [] && queue[|queue| - 1] == ReadBack(i, slots[i].fence)
      modifies this`queue, this`completed, slots
      ensures Inv(lib, Now()) && queue == [] && |slots[..]| == SLOT_COUNT && i < SLOT_COUNT
      ensures slots[i].readback == slots[i].buffers.instances && SameSlot(slots[i], old(slots[i]))
    {
      hide Inv, Sound, Rotation, Counters, Fences;
      SoundParts(lib, Now());
      ghost var before := slots[i];
      while slots[i].fence > completed
        invariant Sound(lib, Now()) && |slots[..]| == SLOT_COUNT && SameSlot(slots[i], before)
        invariant queue != [] ==> queue[|queue| - 1] == ReadBack(i, before.fence)
        invariant queue == [] ==> slots[i].readback == slots[i].buffers.instances
        decreases |queue|
      {
        SoundParts(lib, Now());
        QueueReaches(Now(), i);
        AdvanceInOrder();
      }
      SoundParts(lib, Now());
      LastIsDone(Now(), i);
      NothingInFlight(Now());
      InvMade(lib, Now());
    }

    /** Queue a copy behind the rest, and take what it read. */
    method ReadOut(i: nat) returns (instances: seq<Instance>)
      requires Valid() && i < |slots[..]| == SLOT_COUNT && !InFlight(Now(), i) && 0 < slots[i].sequence <= |frames|
      modifies this`queue, this`completed, this`nextFence, slots
      ensures Valid() && |slots[..]| == SLOT_COUNT
      ensures var f := frames[old(slots[i].sequence) - 1];
              && lib(f.scene, f.transform).Valid()
              && (f.active.Some? ==> f.active.value < |lib(f.scene, f.transform).targets|)
              && |instances| == old(slots[i].count) == SceneSize(lib(f.scene, f.transform), f.active)
              && (instances == Scene(lib(f.scene, f.transform), f.active)
                  <==> Uploaded(frames, i) || lib(f.scene, f.transform).targets == [])
    {
      hide Inv, Sound, Rotation, Counters, Fences, Scene, Uploaded;
      QueueReadBack(i);
      AwaitReadBack(i);
      InvParts(lib, Now());
      FlightMeans(Now(), i);
      SlotShowsExactly(lib, Now(), i);
      ShowsMeans(lib, Now(), i, frames[slots[i].sequence - 1]);
      instances := slots[i].readback[..slots[i].count];
    }

    /** Copy the instances out of a finished slot: the copy is queued behind the rest, and waited for. What comes
        back is what expanding the frame's packet afresh gives, exactly if packets get uploaded into the slot or this
        one has no targets. */
    method CopyInstances(h: Submission, budget: nat, capacity: Option<nat>)
      returns (status: Status, count: nat, instances: seq<Instance>)
      requires Valid()
      modifies this`queue, this`completed, this`nextFence, slots
      ensures Valid() && |old(slots[..])| == |slots[..]| == SLOT_COUNT
      ensures status == if h.sequence == 0 || h.slot >= SLOT_COUNT then InvalidArgument
                        else if !Matches(old(Now()), h) then StaleHandle
                        else if old(slots[h.slot].fence) > old(completed) + budget then Timeout
                        else if capacity.None? || capacity.value < old(slots[h.slot].count) then Capacity else Ok
      ensures status in {Capacity, Ok} ==> count == old(slots[h.slot].count)
      ensures status == Ok ==>
                && h.sequence <= |frames| && h.slot < SLOT_COUNT
                && var f := frames[h.sequence - 1];
                   && lib(f.scene, f.transform).Valid()
                   && (f.active.Some? ==> f.active.value < |lib(f.scene, f.transform).targets|)
                   && |instances| == count == SceneSize(lib(f.scene, f.transform), f.active)
                   && (instances == Scene(lib(f.scene, f.transform), f.active)
                       <==> Uploaded(frames, h.slot) || lib(f.scene, f.transform).targets == [])
    {
      hide Inv, Sound, Rotation, Counters, Fences, Matches, Scene, Uploaded;
      count, instances := 0, [];
      InvParts(lib, Now());
      status := Wait(h, budget);
      if status != Ok {
        return;
      }
      MatchingNamesLastFrame(lib, Now(), h);
      count := slots[h.slot].count;
      if capacity.None? || capacity.value < count {
        return Capacity, count, [];
      }
      instances := ReadOut(h.slot);
      status := Ok;
    }
  }

  lemma LastIsDone(r: Ring, i: nat)
    requires Counters(r) && Fences(r) && i < SLOT_COUNT && r.slots[i].fence <= r.completed
    requires r.queue != [] ==> r.queue[|r.queue| - 1] == ReadBack(i, r.slots[i].fence)
    ensures r.queue == []
  {
  }

  lemma FlightMeans(r: Ring, i: nat)
    requires Counters(r) && Fences(r) && r.queue == [] && i < SLOT_COUNT
    ensures !InFlight(r, i)
  {
  }

  lemma ShowsMeans(lib: Library, r: Ring, i: nat, f: Frame)
    requires i < |r.slots|
    ensures var s, p := r.slots[i], lib(f.scene, f.transform);
            p.Valid() && (f.active.Some? ==> f.active.value < |p.targets|)
            && s.count == SceneSize(p, f.active) <= |s.buffers.instances|
            ==> (Shows(lib, r, i, f) <==> s.buffers.instances[..s.count] == Scene(p, f.active))
  {
  }
}