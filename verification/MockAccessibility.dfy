/** The mock provider's accessibility machine: requests become tickets, and each completed ticket owns one snapshot. */
module MockAccessibility {
  import opened Statuses
  import Sets
  import opened HandleTables
  import opened MockFaults
  import opened Words
  import opened TargetPackets
  import opened PacketLayouts

  datatype Query = Query(window: U64, sessionEpoch: U64, transformEpoch: U64, topologyEpoch: U64, frameId: U64)

  datatype Ticket = Ticket(query: Query, remainingPolls: nat, state: TicketState, result: Status, snapshot: nat,
                           counted: bool)

  datatype Snapshot = Snapshot(ticket: nat, query: Query)

  datatype Books = Books(tickets: Table<Ticket>, snapshots: Table<Snapshot>, active: nat)

  const WINDOW: U64 := 0x4D4F_434B_3001
  const PROVIDER_ID: U64 := 0x4D4F_434B_0004
  const OUTPUT_SIZE := HEADER_SIZE + RECORD_SIZE

  /** What a request is given: the query and what to look at. */
  datatype Description = Description(query: Query, scopeWidth: I32, scopeHeight: I32, targetCapacity: U32, flags: U32)

  /** The checks on the description, none of which looks at the provider. */
  predicate Described(d: Description) {
    && d.query.window == WINDOW && d.scopeWidth > 0 && d.scopeHeight > 0 && d.targetCapacity != 0 && d.flags == 0
    && d.query.sessionEpoch != 0 && d.query.transformEpoch != 0 && d.query.topologyEpoch != 0 && d.query.frameId != 0
  }

  // ---------------------------------------------------------------- the packet of a snapshot

  const DESKTOP_Q8 := 3
  const SOURCE_ACCESSIBILITY := 2
  const ROLE_BUTTON := 1
  const POINTER_MOVE_BUTTON_AND_INVOKE := 67

  function TargetIdOf(window: U64): U64 { ((window as bv64) ^ 0xA11_CE55_1B1E) as int }

  function SnapshotHeader(handle: nat, q: Query): (fields: seq<nat>)
    ensures |fields| == 16
  {
    [HEADER_SIZE, PACKET_VERSION, 1, RECORD_SIZE, 0, DESKTOP_Q8, handle, q.frameId, 0, PROVIDER_ID, q.sessionEpoch,
     q.transformEpoch, q.topologyEpoch, q.window, HEADER_SIZE, OUTPUT_SIZE]
  }

  /** One button of 64 by 32 pixels at the origin, to be clicked in its middle. */
  function SnapshotRecord(q: Query): (fields: seq<nat>)
    ensures |fields| == 18
  {
    [TargetIdOf(q.window), 0, q.window, 1, 0, 0, ToQ8(64), ToQ8(32), ToQ8(32), ToQ8(16), 0xFFFF, ROLE_BUTTON,
     SOURCE_ACCESSIBILITY, POINTER_MOVE_BUTTON_AND_INVOKE, ACTIONABLE, 0, 0, 0]
  }

  function SnapshotPacket(handle: nat, q: Query): (bytes: seq<Byte>)
    ensures |bytes| == OUTPUT_SIZE
  {
    LayoutSizes();
    EncodeFields(HeaderWidths(), SnapshotHeader(handle, q)) + EncodeFields(RecordWidths(), SnapshotRecord(q))
  }

  lemma LiveHandleFits<T>(t: Table<T>, h: nat)
    requires t.Valid() && Live(t, h)
    ensures h < U64_LIMIT
  {
  }

  lemma SnapshotFieldsFit(handle: U64, q: Query)
    ensures Fit(HeaderWidths(), SnapshotHeader(handle, q)) && Fit(RecordWidths(), SnapshotRecord(q))
  {
    hide Power256, TargetIdOf;
    Powers();
    var widths, header := HeaderWidths(), SnapshotHeader(handle, q);
    forall i | 0 <= i < 16 ensures header[i] < Power256(widths[i]) {
      assert widths[i] == if i < 6 then 4 else 8;
    }
    var shape, record := RecordWidths(), SnapshotRecord(q);
    forall i | 0 <= i < 18 ensures record[i] < Power256(shape[i]) {
      assert shape[i] == if i < 4 then 8 else if i < 11 then 4 else if i < 13 then 2 else if i < 16 then 4 else 2;
    }
  }

  /** Header and record read back field by field; the inference reader refuses the packet for its coordinate space. */
  lemma SnapshotPacketDecodes(handle: U64, q: Query)
    ensures HeaderOf(SnapshotPacket(handle, q)) == SnapshotHeader(handle, q)
    ensures RecordAt(SnapshotPacket(handle, q), 0) == SnapshotRecord(q)
    ensures !Accepts(SnapshotPacket(handle, q))
  {
    hide DecodeFields, EncodeFields, HeaderWidths, RecordWidths, SnapshotRecord, Fit;
    LayoutSizes();
    SnapshotFieldsFit(handle, q);
    FieldsRoundTrip(HeaderWidths(), SnapshotHeader(handle, q));
    FieldsRoundTrip(RecordWidths(), SnapshotRecord(q));
    var bytes := SnapshotPacket(handle, q);
    assert bytes[..HEADER_SIZE] == EncodeFields(HeaderWidths(), SnapshotHeader(handle, q));
    assert bytes[HEADER_SIZE..OUTPUT_SIZE] == EncodeFields(RecordWidths(), SnapshotRecord(q));
  }

  /** The packet of a snapshot, offset by offset: header with the snapshot's handle as its scene, the provider as its
      model and the query's epochs and window; then one actionable button of 64 by 32 pixels at the desktop's origin,
      to be clicked at (32, 16) or invoked, of full confidence, on display 1 of the query's window. */
  ghost predicate SnapshotStands(bytes: seq<Byte>, handle: nat, q: Query) {
    && |bytes| == 184
    && Read32(bytes, 0) == 104 && Read32(bytes, 4) == 0x0001_0002 && Read32(bytes, 8) == 1
    && Read32(bytes, 12) == 80 && Read32(bytes, 16) == 0 && Read32(bytes, 20) == 3
    && Read64(bytes, 24) == handle && Read64(bytes, 32) == q.frameId && Read64(bytes, 40) == 0
    && Read64(bytes, 48) == 0x4D4F_434B_0004 && Read64(bytes, 56) == q.sessionEpoch
    && Read64(bytes, 64) == q.transformEpoch && Read64(bytes, 72) == q.topologyEpoch
    && Read64(bytes, 80) == q.window && Read64(bytes, 88) == 104 && Read64(bytes, 96) == 184
    && Read64(bytes, 112) == 0 && Read64(bytes, 120) == q.window && Read64(bytes, 128) == 1
    && Read32(bytes, 136) == 0 && Read32(bytes, 140) == 0
    && Read32(bytes, 144) == 64 * 256 && Read32(bytes, 148) == 32 * 256
    && Read32(bytes, 152) == 32 * 256 && Read32(bytes, 156) == 16 * 256
    && Read32(bytes, 160) == 0xFFFF && Read16(bytes, 164) == 1 && Read16(bytes, 166) == 2
    && Read32(bytes, 168) == 1 + 2 + 64 && Read32(bytes, 172) == 1 && Read32(bytes, 176) == 0
    && Read16(bytes, 180) == 0 && Read16(bytes, 182) == 0
    && (q.window == 0x4D4F_434B_3001 ==> Read64(bytes, 104) == 0x475E_8D1E_2B1F)
  }

  lemma WindowTarget()
    ensures TargetIdOf(0x4D4F_434B_3001) == 0x475E_8D1E_2B1F
  {
    var window: bv64 := 0x4D4F_434B_3001;
    assert window ^ 0xA11_CE55_1B1E == 0x475E_8D1E_2B1F;
    var id: bv64 := 0x475E_8D1E_2B1F;
    assert id as int == 0x475E_8D1E_2B1F;
    assert (0x4D4F_434B_3001 as bv64) == window;
  }

  lemma SnapshotPacketStands(handle: U64, q: Query)
    ensures SnapshotStands(SnapshotPacket(handle, q), handle, q)
  {
    hide HeaderOf, RecordAt, SnapshotPacket, TargetIdOf, Read16, Read32, Read64, Accepts;
    WindowTarget();
    SnapshotPacketDecodes(handle, q);
    var bytes := SnapshotPacket(handle, q);
    SnapshotHeaderStands(bytes, handle, q);
    SnapshotRecordStands(bytes, q);
  }

  lemma SnapshotHeaderStands(bytes: seq<Byte>, handle: U64, q: Query)
    requires |bytes| == 184 && HeaderOf(bytes) == SnapshotHeader(handle, q)
    ensures Read32(bytes, 0) == 104 && Read32(bytes, 4) == 0x0001_0002 && Read32(bytes, 8) == 1
    ensures Read32(bytes, 12) == 80 && Read32(bytes, 16) == 0 && Read32(bytes, 20) == 3
    ensures Read64(bytes, 24) == handle && Read64(bytes, 32) == q.frameId && Read64(bytes, 40) == 0
    ensures Read64(bytes, 48) == 0x4D4F_434B_0004 && Read64(bytes, 56) == q.sessionEpoch
    ensures Read64(bytes, 64) == q.transformEpoch && Read64(bytes, 72) == q.topologyEpoch
    ensures Read64(bytes, 80) == q.window && Read64(bytes, 88) == 104 && Read64(bytes, 96) == 184
  {
    hide HeaderOf, Read16, Read32, Read64;
    forall k: nat | k < 16
      ensures HeaderOf(bytes)[k] == if k < 6 then Read32(bytes, 4 * k) else Read64(bytes, 24 + 8 * (k - 6))
    {
      HeaderWords(bytes, k);
    }
    var h := SnapshotHeader(handle, q);
    assert h[0] == Read32(bytes, 0) && h[1] == Read32(bytes, 4) && h[2] == Read32(bytes, 8);
    assert h[3] == Read32(bytes, 12) && h[4] == Read32(bytes, 16) && h[5] == Read32(bytes, 20);
    assert h[6] == Read64(bytes, 24) && h[7] == Read64(bytes, 32) && h[8] == Read64(bytes, 40);
    assert h[9] == Read64(bytes, 48) && h[10] == Read64(bytes, 56) && h[11] == Read64(bytes, 64);
    assert h[12] == Read64(bytes, 72) && h[13] == Read64(bytes, 80) && h[14] == Read64(bytes, 88);
    assert h[15] == Read64(bytes, 96);
  }

  lemma SnapshotRecordStands(bytes: seq<Byte>, q: Query)
    requires |bytes| == 184 && RecordAt(bytes, 0) == SnapshotRecord(q)
    ensures Read64(bytes, 104) == TargetIdOf(q.window) && Read64(bytes, 112) == 0 && Read64(bytes, 120) == q.window
    ensures Read64(bytes, 128) == 1 && Read32(bytes, 136) == 0 && Read32(bytes, 140) == 0
    ensures Read32(bytes, 144) == 64 * 256 && Read32(bytes, 148) == 32 * 256
    ensures Read32(bytes, 152) == 32 * 256 && Read32(bytes, 156) == 16 * 256
    ensures Read32(bytes, 160) == 0xFFFF && Read16(bytes, 164) == 1 && Read16(bytes, 166) == 2
    ensures Read32(bytes, 168) == 1 + 2 + 64 && Read32(bytes, 172) == 1 && Read32(bytes, 176) == 0
    ensures Read16(bytes, 180) == 0 && Read16(bytes, 182) == 0
  {
    hide RecordAt, TargetIdOf, Read16, Read32, Read64;
    forall k: nat | k < 18 ensures RecordAt(bytes, 0)[k] == RecordWord(bytes, 104, k) {
      RecordWords(bytes, 0, k);
    }
    var f := SnapshotRecord(q);
    assert f[0] == Read64(bytes, 104) && f[1] == Read64(bytes, 112) && f[2] == Read64(bytes, 120);
    assert f[3] == Read64(bytes, 128) && f[4] == Read32(bytes, 136) && f[5] == Read32(bytes, 140);
    assert f[6] == Read32(bytes, 144) && f[7] == Read32(bytes, 148) && f[8] == Read32(bytes, 152);
    assert f[9] == Read32(bytes, 156) && f[10] == Read32(bytes, 160) && f[11] == Read16(bytes, 164);
    assert f[12] == Read16(bytes, 166) && f[13] == Read32(bytes, 168) && f[14] == Read32(bytes, 172);
    assert f[15] == Read32(bytes, 176) && f[16] == Read16(bytes, 180) && f[17] == Read16(bytes, 182);
  }

  // ---------------------------------------------------------------- the invariant

  ghost function IsPending(): Ticket -> bool { (t: Ticket) => t.state.Pending() }
  ghost function IsComplete(): Ticket -> bool { (t: Ticket) => t.state == Complete }
  ghost function Any(): Snapshot -> bool { (s: Snapshot) => true }

  /** A slot has been used up: its generations ran out, after 2^32 - 1 releases of that one slot. */
  ghost predicate SomeRetired<T>(t: Table<T>) { exists i :: 0 <= i < |t.slots| && t.slots[i].retired }

  /** What is true of the ticket with handle h: a complete one owns a snapshot that points back to it. */
  ghost predicate TicketOk(snapshots: Table<Snapshot>, h: nat, t: Ticket) {
    && t.query.window == WINDOW
    && (t.counted <==> t.state.Pending())
    && (t.state == Complete ==> Live(snapshots, t.snapshot) && Get(snapshots, t.snapshot) == Snapshot(h, t.query))
    && (t.state != Complete ==> t.snapshot == 0)
    && (t.state == Failed ==> SomeRetired(snapshots))
    && t.result == (if t.state == TicketCancelled then Cancelled else if t.state == Failed then Capacity else Ok)
  }

  ghost predicate SnapshotOk(tickets: Table<Ticket>, h: nat, s: Snapshot) {
    Live(tickets, s.ticket) && Get(tickets, s.ticket).state == Complete && Get(tickets, s.ticket).snapshot == h
  }

  ghost predicate Consistent(b: Books) {
    && b.tickets.Valid() && b.snapshots.Valid() && |b.tickets.slots| == 8 && |b.snapshots.slots| == 8
    && (forall h: nat | Live(b.tickets, h) :: TicketOk(b.snapshots, h, Get(b.tickets, h)))
    && (forall h: nat | Live(b.snapshots, h) :: SnapshotOk(b.tickets, h, Get(b.snapshots, h)))
    && b.active == |Where(b.tickets, IsPending())|
  }

  // ---------------------------------------------------------------- the pairing

  ghost function TicketSlotOf(b: Books): int -> int {
    (i: int) => if 0 <= i < |b.snapshots.slots| && b.snapshots.slots[i].value.Some?
                then IndexOf(b.snapshots.slots[i].value.value.ticket) else -1
  }

  ghost function SnapshotSlotOf(b: Books): int -> int {
    (i: int) => if 0 <= i < |b.tickets.slots| && b.tickets.slots[i].value.Some?
                then IndexOf(b.tickets.slots[i].value.value.snapshot) else -1
  }

  lemma SnapshotSlotPoints(b: Books, i: int)
    requires Consistent(b) && i in Where(b.snapshots, Any())
    ensures TicketSlotOf(b)(i) in Where(b.tickets, IsComplete()) && SnapshotSlotOf(b)(TicketSlotOf(b)(i)) == i
  {
    LiveAt(b.snapshots, i);
    var h := HandleAt(b.snapshots, i);
    assert SnapshotOk(b.tickets, h, Get(b.snapshots, h));
  }

  lemma TicketSlotPoints(b: Books, i: int)
    requires Consistent(b) && i in Where(b.tickets, IsComplete())
    ensures SnapshotSlotOf(b)(i) in Where(b.snapshots, Any()) && TicketSlotOf(b)(SnapshotSlotOf(b)(i)) == i
  {
    LiveAt(b.tickets, i);
    var h := HandleAt(b.tickets, i);
    assert TicketOk(b.snapshots, h, Get(b.tickets, h));
  }

  /** Live snapshots and completed tickets are in bijection: each names the other. */
  lemma SnapshotsPairWithTickets(b: Books)
    requires Consistent(b)
    ensures |Where(b.snapshots, Any())| == |Where(b.tickets, IsComplete())|
    ensures forall h: nat | Live(b.snapshots, h) ::
              var t := Get(b.snapshots, h).ticket;
              Live(b.tickets, t) && Get(b.tickets, t).state == Complete && Get(b.tickets, t).snapshot == h
    ensures forall t: nat | Live(b.tickets, t) && Get(b.tickets, t).state == Complete ::
              var h := Get(b.tickets, t).snapshot;
              Live(b.snapshots, h) && Get(b.snapshots, h) == Snapshot(t, Get(b.tickets, t).query)
    ensures b.active == |Where(b.tickets, IsPending())|
  {
    hide Where, TicketSlotOf, SnapshotSlotOf;
    var snapshots, complete := Where(b.snapshots, Any()), Where(b.tickets, IsComplete());
    forall i | i in snapshots ensures TicketSlotOf(b)(i) in complete && SnapshotSlotOf(b)(TicketSlotOf(b)(i)) == i {
      SnapshotSlotPoints(b, i);
    }
    forall i | i in complete ensures SnapshotSlotOf(b)(i) in snapshots && TicketSlotOf(b)(SnapshotSlotOf(b)(i)) == i {
      TicketSlotPoints(b, i);
    }
    Sets.InjectionCount(snapshots, complete, TicketSlotOf(b));
    Sets.InjectionCount(complete, snapshots, SnapshotSlotOf(b));
    assert forall t: nat | Live(b.tickets, t) :: TicketOk(b.snapshots, t, Get(b.tickets, t));
    assert forall h: nat | Live(b.snapshots, h) :: SnapshotOk(b.tickets, h, Get(b.snapshots, h));
  }

  /** While a ticket is pending there is a free snapshot slot, unless a slot has been retired. */
  lemma PendingLeavesRoom(b: Books, h: nat)
    requires Consistent(b) && Live(b.tickets, h) && Get(b.tickets, h).state.Pending()
    ensures |Where(b.snapshots, Any())| < 8
    ensures HasRoom(b.snapshots) || SomeRetired(b.snapshots)
  {
    hide Where, Consistent;
    SnapshotsPairWithTickets(b);
    SpineOf(b);
    NotAllComplete(b.tickets, h);
    if !HasRoom(b.snapshots) && !SomeRetired(b.snapshots) {
      FullTable(b.snapshots);
    }
  }

  lemma NotAllComplete(t: Table<Ticket>, h: nat)
    requires t.Valid() && |t.slots| == 8 && Live(t, h) && Get(t, h).state.Pending()
    ensures |Where(t, IsComplete())| < 8
  {
    var complete, all := Where(t, IsComplete()), {0, 1, 2, 3, 4, 5, 6, 7};
    assert complete <= all - {IndexOf(h)};
    Sets.SubsetCount(complete, all - {IndexOf(h)});
  }

  lemma FullTable(t: Table<Snapshot>)
    requires |t.slots| == 8 && !HasRoom(t) && !SomeRetired(t)
    ensures |Where(t, Any())| >= 8
  {
    FullExactly(t);
    var all := {0, 1, 2, 3, 4, 5, 6, 7};
    forall i | i in all ensures i in Where(t, Any()) {
      assert t.slots[i].value.Some?;
    }
    Sets.SubsetCount(all, Where(t, Any()));
  }

  // ---------------------------------------------------------------- what one poll does

  /** The books after finish_accessibility. */
  function Finished(b: Books, h: nat): Books
    requires Live(b.tickets, h) && (Get(b.tickets, h).state.Pending() ==> b.active > 0)
  {
    var t := Get(b.tickets, h);
    var polls := if t.remainingPolls > 0 then t.remainingPolls - 1 else 0;
    if !t.state.Pending() then b
    else if polls != 0 then b.(tickets := Put(b.tickets, h, t.(remainingPolls := polls, state := Running)))
    else if HasRoom(b.snapshots) then
      Books(Put(b.tickets, h,
                t.(remainingPolls := 0, state := Complete, snapshot := NextHandle(b.snapshots), counted := false)),
            Emplace(b.snapshots, Snapshot(h, t.query)), b.active - 1)
    else
      Books(Put(b.tickets, h, t.(remainingPolls := 0, state := Failed, result := Capacity, counted := false)),
            b.snapshots, b.active - 1)
  }

  lemma PendingIsActive(b: Books, h: nat)
    requires Consistent(b) && Live(b.tickets, h) && Get(b.tickets, h).state.Pending()
    ensures b.active > 0 && TicketOk(b.snapshots, h, Get(b.tickets, h))
  {
    assert IndexOf(h) in Where(b.tickets, IsPending());
  }

  lemma ActivePut(t: Table<Ticket>, h: nat, v: Ticket)
    requires t.Valid() && Live(t, h) && Get(t, h).state.Pending()
    ensures |Where(Put(t, h, v), IsPending())| == |Where(t, IsPending())| - (if v.state.Pending() then 0 else 1)
  {
    hide Where;
    CountPut(t, h, v, IsPending());
  }

  lemma RetiredStays<T>(t: Table<T>, v: T)
    requires HasRoom(t)
    ensures SomeRetired(t) ==> SomeRetired(Emplace(t, v))
  {
    if SomeRetired(t) {
      var i :| 0 <= i < |t.slots| && t.slots[i].retired;
      assert Emplace(t, v).slots[i].retired;
    }
  }

  lemma ErasedRetiredStays<T>(t: Table<T>, h: nat)
    requires t.Valid() && Live(t, h)
    ensures SomeRetired(t) ==> SomeRetired(Erase(t, h))
  {
    if SomeRetired(t) {
      var i :| 0 <= i < |t.slots| && t.slots[i].retired;
      assert Erase(t, h).slots[i].retired;
    }
  }

  /** A pending ticket may change to any state that has no snapshot. */
  lemma MoveKeeps(b: Books, h: nat, v: Ticket)
    requires Consistent(b) && Live(b.tickets, h) && Get(b.tickets, h).state.Pending()
    requires v.state != Complete && TicketOk(b.snapshots, h, v)
    ensures b.active > 0
    ensures Consistent(b.(tickets := Put(b.tickets, h, v),
                          active := if v.state.Pending() then b.active else b.active - 1))
  {
    hide Where, TicketOk;
    PendingIsActive(b, h);
    var tickets := Put(b.tickets, h, v);
    PutLaws(b.tickets, h, v, h);
    ActivePut(b.tickets, h, v);
    forall k: nat | Live(tickets, k) ensures TicketOk(b.snapshots, k, Get(tickets, k)) {
      PutLaws(b.tickets, h, v, k);
    }
    forall k: nat | Live(b.snapshots, k) ensures SnapshotOk(tickets, k, Get(b.snapshots, k)) {
      assert SnapshotOk(b.tickets, k, Get(b.snapshots, k));
      PutLaws(b.tickets, h, v, Get(b.snapshots, k).ticket);
    }
  }

  lemma CompleteKeeps(b: Books, h: nat, v: Ticket)
    requires Consistent(b) && Live(b.tickets, h) && Get(b.tickets, h).state.Pending() && HasRoom(b.snapshots)
    requires v == Get(b.tickets, h).(remainingPolls := 0, state := Complete, snapshot := NextHandle(b.snapshots),
                                     counted := false)
    ensures b.active > 0
    ensures Consistent(Books(Put(b.tickets, h, v), Emplace(b.snapshots, Snapshot(h, v.query)), b.active - 1))
  {
    hide Where;
    PendingIsActive(b, h);
    var s := Snapshot(h, v.query);
    var tickets, snapshots := Put(b.tickets, h, v), Emplace(b.snapshots, s);
    PutLaws(b.tickets, h, v, h);
    EmplaceLaws(b.snapshots, s, NextHandle(b.snapshots));
    ActivePut(b.tickets, h, v);
    RetiredStays(b.snapshots, s);
    hide SomeRetired;
    forall k: nat | Live(tickets, k) ensures TicketOk(snapshots, k, Get(tickets, k)) {
      PutLaws(b.tickets, h, v, k);
      if k != h {
        assert TicketOk(b.snapshots, k, Get(b.tickets, k));
        EmplaceLaws(b.snapshots, s, Get(b.tickets, k).snapshot);
      }
    }
    forall k: nat | Live(snapshots, k) ensures SnapshotOk(tickets, k, Get(snapshots, k)) {
      EmplaceLaws(b.snapshots, s, k);
      if k != NextHandle(b.snapshots) {
        assert SnapshotOk(b.tickets, k, Get(b.snapshots, k));
        PutLaws(b.tickets, h, v, Get(b.snapshots, k).ticket);
      }
    }
  }

  /** A poll keeps the invariant, and as long as no snapshot slot has been retired it never fails a ticket:
      creating the snapshot of a pending ticket cannot meet a full table. */
  lemma FinishedKeeps(b: Books, h: nat)
    requires Consistent(b) && Live(b.tickets, h)
    ensures Get(b.tickets, h).state.Pending() ==> b.active > 0
    ensures Consistent(Finished(b, h))
    ensures Live(Finished(b, h).tickets, h)
    ensures !SomeRetired(b.snapshots) && Get(b.tickets, h).state != Failed
            ==> Get(Finished(b, h).tickets, h).state != Failed
  {
    hide Where, SomeRetired, Consistent;
    var t := Get(b.tickets, h);
    if t.state.Pending() {
      PendingIsActive(b, h);
      PendingLeavesRoom(b, h);
      SpineOf(b);
      var polls := if t.remainingPolls > 0 then t.remainingPolls - 1 else 0;
      var v := if polls != 0 then t.(remainingPolls := polls, state := Running)
               else if HasRoom(b.snapshots)
               then t.(remainingPolls := 0, state := Complete, snapshot := NextHandle(b.snapshots), counted := false)
               else t.(remainingPolls := 0, state := Failed, result := Capacity, counted := false);
      PutLaws(b.tickets, h, v, h);
      if v.state == Complete {
        CompleteKeeps(b, h, v);
      } else {
        MoveKeeps(b, h, v);
      }
    }
  }

  /** A poll fails a ticket exactly if it is the last poll of a pending one and the snapshot table has no room, which
      takes a retired slot. */
  lemma PollFailsExactly(b: Books, h: nat)
    requires Consistent(b) && Live(b.tickets, h)
    requires Get(b.tickets, h).state.Pending() ==> b.active > 0
    ensures Live(Finished(b, h).tickets, h)
    ensures var t := Get(b.tickets, h);
            && (Get(Finished(b, h).tickets, h).state == Failed
                <==> t.state == Failed || (t.state.Pending() && t.remainingPolls <= 1 && !HasRoom(b.snapshots)))
            && (t.state.Pending() && !HasRoom(b.snapshots) ==> SomeRetired(b.snapshots))
  {
    hide Where, SomeRetired, Consistent;
    SpineOf(b);
    FinishedKeeps(b, h);
    if Get(b.tickets, h).state.Pending() {
      PendingLeavesRoom(b, h);
    }
  }

  /** Books in which the next poll fails a ticket: it is the only one, and every snapshot slot is retired. */
  lemma PollCanFail(query: Query) returns (b: Books, h: nat)
    ensures Consistent(b) && Live(b.tickets, h) && Get(b.tickets, h).state == Queued && b.active > 0
    ensures Live(Finished(b, h).tickets, h) && Get(Finished(b, h).tickets, h).state == Failed
  {
    hide Where;
    var used := Slot(LAST_GENERATION, None, true);
    var snapshots := Table([used, used, used, used, used, used, used, used]);
    var none := Books(EmptyTable(8), snapshots, 0);
    NoneWhere(none.tickets, IsPending());
    assert none.tickets.slots[0].value.None? && !none.tickets.slots[0].retired;
    var ticket := Ticket(query.(window := WINDOW), 1, Queued, Ok, 0, true);
    RequestKeeps(none, ticket);
    b, h := none.(tickets := Emplace(none.tickets, ticket), active := 1), NextHandle(none.tickets);
    EmplaceLaws(none.tickets, ticket, h);
    FullExactly(snapshots);
    PollFailsExactly(b, h);
  }

  lemma SpineOf(b: Books)
    requires Consistent(b)
    ensures b.tickets.Valid() && b.snapshots.Valid() && |b.tickets.slots| == 8 && |b.snapshots.slots| == 8
  {
  }

  lemma RequestKeeps(b: Books, v: Ticket)
    requires Consistent(b) && HasRoom(b.tickets) && v.state.Pending() && TicketOk(b.snapshots, NextHandle(b.tickets), v)
    ensures Consistent(b.(tickets := Emplace(b.tickets, v), active := b.active + 1))
  {
    hide Where, TicketOk;
    var tickets := Emplace(b.tickets, v);
    EmplaceLaws(b.tickets, v, NextHandle(b.tickets));
    CountEmplace(b.tickets, v, IsPending());
    forall k: nat | Live(tickets, k) ensures TicketOk(b.snapshots, k, Get(tickets, k)) {
      EmplaceLaws(b.tickets, v, k);
    }
    forall k: nat | Live(b.snapshots, k) ensures SnapshotOk(tickets, k, Get(b.snapshots, k)) {
      assert SnapshotOk(b.tickets, k, Get(b.snapshots, k));
      EmplaceLaws(b.tickets, v, Get(b.snapshots, k).ticket);
    }
  }

  /** A cancelled or failed ticket, which has no snapshot, may be erased on its own. */
  lemma EraseKeeps(b: Books, h: nat)
    requires Consistent(b) && Live(b.tickets, h) && Get(b.tickets, h).state in {TicketCancelled, Failed}
    ensures Consistent(b.(tickets := Erase(b.tickets, h)))
  {
    hide Where, TicketOk;
    var tickets := Erase(b.tickets, h);
    EraseLaws(b.tickets, h, h);
    NotPending(b.tickets, h);
    forall k: nat | Live(tickets, k) ensures TicketOk(b.snapshots, k, Get(tickets, k)) {
      EraseLaws(b.tickets, h, k);
    }
    forall k: nat | Live(b.snapshots, k) ensures SnapshotOk(tickets, k, Get(b.snapshots, k)) {
      assert SnapshotOk(b.tickets, k, Get(b.snapshots, k));
      EraseLaws(b.tickets, h, Get(b.snapshots, k).ticket);
    }
  }

  lemma NotPending(t: Table<Ticket>, h: nat)
    requires t.Valid() && Live(t, h) && !Get(t, h).state.Pending()
    ensures |Where(Erase(t, h), IsPending())| == |Where(t, IsPending())|
  {
    hide Where;
    CountErase(t, h, IsPending());
  }

  /** A snapshot and its ticket go together. */
  lemma ReleaseKeeps(b: Books, h: nat)
    requires Consistent(b) && Live(b.snapshots, h)
    ensures var t := Get(b.snapshots, h).ticket;
            && Live(b.tickets, t) && Get(b.tickets, t).state == Complete && Get(b.tickets, t).snapshot == h
            && Consistent(Books(Erase(b.tickets, t), Erase(b.snapshots, h), b.active))
  {
    hide Where;
    var t := Get(b.snapshots, h).ticket;
    assert SnapshotOk(b.tickets, h, Get(b.snapshots, h));
    var tickets, snapshots := Erase(b.tickets, t), Erase(b.snapshots, h);
    EraseLaws(b.tickets, t, t);
    EraseLaws(b.snapshots, h, h);
    NotPending(b.tickets, t);
    ErasedRetiredStays(b.snapshots, h);
    hide SomeRetired;
    forall k: nat | Live(tickets, k) ensures TicketOk(snapshots, k, Get(tickets, k)) {
      EraseLaws(b.tickets, t, k);
      assert TicketOk(b.snapshots, k, Get(b.tickets, k));
      EraseLaws(b.snapshots, h, Get(b.tickets, k).snapshot);
    }
    forall k: nat | Live(snapshots, k) ensures SnapshotOk(tickets, k, Get(snapshots, k)) {
      EraseLaws(b.snapshots, h, k);
      assert SnapshotOk(b.tickets, k, Get(b.snapshots, k));
      EraseLaws(b.tickets, t, Get(b.snapshots, k).ticket);
    }
  }

  // ---------------------------------------------------------------- completing everything

  function Hurried(b: Books, h: nat): Books
    requires Live(b.tickets, h)
  {
    b.(tickets := Put(b.tickets, h, Get(b.tickets, h).(remainingPolls := 0)))
  }

  /** The books after complete_accessibility on a pending ticket. */
  function CompletedBooks(b: Books, h: nat): Books
    requires b.tickets.Valid() && Live(b.tickets, h) && b.active > 0
  {
    PutLaws(b.tickets, h, Get(b.tickets, h).(remainingPolls := 0), h);
    Finished(Hurried(b, h), h)
  }

  lemma HurriedKeeps(b: Books, h: nat)
    requires Consistent(b) && Live(b.tickets, h) && Get(b.tickets, h).state.Pending()
    ensures b.active > 0 && Consistent(Hurried(b, h)) && Live(Hurried(b, h).tickets, h)
    ensures Get(Hurried(b, h).tickets, h) == Get(b.tickets, h).(remainingPolls := 0)
  {
    PendingIsActive(b, h);
    var v := Get(b.tickets, h).(remainingPolls := 0);
    MoveKeeps(b, h, v);
    PutLaws(b.tickets, h, v, h);
  }

  /** From a to b some pending tickets have ended; every other ticket and every snapshot is as it was. A ticket
      can only have failed if a snapshot slot has been retired. */
  ghost predicate Ended(a: Books, b: Books) {
    && (forall h: nat | Live(a.tickets, h) || Live(b.tickets, h) ::
          && Live(a.tickets, h) && Live(b.tickets, h)
          && Get(b.tickets, h).query == Get(a.tickets, h).query
          && (Get(b.tickets, h) != Get(a.tickets, h) ==>
                && Get(a.tickets, h).state.Pending() && !Get(b.tickets, h).state.Pending()
                && Get(b.tickets, h).state in {Complete, Failed}
                && (!SomeRetired(a.snapshots) ==> Get(b.tickets, h).state == Complete)))
    && (forall h: nat | Live(a.snapshots, h) :: Live(b.snapshots, h) && Get(b.snapshots, h) == Get(a.snapshots, h))
    && (SomeRetired(b.snapshots) ==> SomeRetired(a.snapshots))
  }

  lemma EmplaceRetiresNone<T>(t: Table<T>, v: T)
    requires HasRoom(t)
    ensures SomeRetired(Emplace(t, v)) ==> SomeRetired(t)
  {
    if SomeRetired(Emplace(t, v)) {
      var i :| 0 <= i < |t.slots| && Emplace(t, v).slots[i].retired;
      assert t.slots[i].retired;
    }
  }

  lemma CompletedEnds(b: Books, h: nat)
    requires Consistent(b) && Live(b.tickets, h) && Get(b.tickets, h).state.Pending() && b.active > 0
    ensures Ended(b, CompletedBooks(b, h)) && Consistent(CompletedBooks(b, h))
    ensures !Get(CompletedBooks(b, h).tickets, h).state.Pending()
    ensures |CompletedBooks(b, h).tickets.slots| == |b.tickets.slots|
  {
    hide Where, SomeRetired;
    HurriedKeeps(b, h);
    var m := Hurried(b, h);
    FinishedKeeps(m, h);
    var c := Finished(m, h);
    var s := Snapshot(h, Get(b.tickets, h).query);
    hide Consistent;
    SpineOf(b);
    SpineOf(m);
    if HasRoom(b.snapshots) {
      EmplaceRetiresNone(b.snapshots, s);
    } else {
      PendingLeavesRoom(b, h);
    }
    forall k: nat
      ensures Live(c.tickets, k) <==> Live(b.tickets, k)
      ensures Live(b.tickets, k) && k != h ==> Get(c.tickets, k) == Get(b.tickets, k)
    {
      PutLaws(b.tickets, h, Get(b.tickets, h).(remainingPolls := 0), k);
      PutLaws(m.tickets, h, Get(c.tickets, h), k);
    }
    forall k: nat | Live(b.snapshots, k) ensures Live(c.snapshots, k) && Get(c.snapshots, k) == Get(b.snapshots, k) {
      if HasRoom(b.snapshots) {
        EmplaceLaws(b.snapshots, s, k);
      }
    }
  }

  lemma EndedTransitively(a: Books, b: Books, c: Books)
    requires Ended(a, b) && Ended(b, c)
    ensures Ended(a, c)
  {
    hide SomeRetired;
  }

  lemma EndedReflexive(a: Books)
    ensures Ended(a, a)
  {
  }

  // ---------------------------------------------------------------- the provider

  class Provider {
    const queueCapacity: nat
    const completionPolls: nat
    var tickets: Table<Ticket>
    var snapshots: Table<Snapshot>
    var active: nat
    var fault: Fault

    ghost function Now(): Books
      reads this
    {
      Books(tickets, snapshots, active)
    }

    ghost predicate Valid()
      reads this
    {
      Consistent(Now()) && active <= queueCapacity
    }

    constructor (capacity: U32, polls: U32)
      ensures Valid() && queueCapacity == (if capacity < 1 then 1 else if capacity > 8 then 8 else capacity)
      ensures completionPolls == polls && fault == Fault(NoFault, Ok, 0)
      ensures Now() == Books(EmptyTable(8), EmptyTable(8), 0)
    {
      queueCapacity := if capacity < 1 then 1 else if capacity > 8 then 8 else capacity;
      completionPolls := polls;
      tickets := EmptyTable(8);
      snapshots := EmptyTable(8);
      active := 0;
      fault := Fault(NoFault, Ok, 0);
      new;
      NoneWhere(tickets, IsPending());
    }

    /** finish_accessibility */
    method Finish(handle: nat)
      requires Valid() && Live(tickets, handle)
      modifies this`tickets, this`snapshots, this`active
      ensures Valid() && Live(tickets, handle)
      ensures Get(old(tickets), handle).state.Pending() ==> old(active) > 0
      ensures Now() == Finished(old(Now()), handle)
    {
      hide Consistent;
      ghost var b := Now();
      FinishedKeeps(b, handle);
      SpineOf(b);
      var t := Get(tickets, handle);
      if t.state != Queued && t.state != Running {
        return;
      }
      if t.remainingPolls > 0 {
        t := t.(remainingPolls := t.remainingPolls - 1);
      }
      if t.remainingPolls != 0 {
        tickets := Put(tickets, handle, t.(state := Running));
        return;
      }
      PendingIsActive(b, handle);
      if t.snapshot == 0 {
        if HasRoom(snapshots) {
          t := t.(snapshot := NextHandle(snapshots));
          snapshots := Emplace(snapshots, Snapshot(handle, t.query));
        } else {
          t := t.(state := Failed, result := Capacity);
        }
      }
      if t.result == Ok {
        t := t.(state := Complete);
      }
      if t.counted {
        active := active - 1;
        t := t.(counted := false);
      }
      tickets := Put(tickets, handle, t);
    }

    /** complete_accessibility */
    method CompleteNow(handle: nat)
      requires Valid() && Live(tickets, handle) && Get(tickets, handle).state.Pending()
      modifies this`tickets, this`snapshots, this`active
      ensures Valid() && Live(tickets, handle)
      ensures old(tickets).Valid() && old(active) > 0 && Now() == CompletedBooks(old(Now()), handle)
    {
      hide Consistent, Finished;
      ghost var b := Now();
      SpineOf(b);
      HurriedKeeps(b, handle);
      tickets := Put(tickets, handle, Get(tickets, handle).(remainingPolls := 0));
      Finish(handle);
    }

    method Request(d: Description) returns (status: Status, handle: nat)
      requires Valid()
      modifies this
      ensures Valid()
      ensures status == if !Described(d) then InvalidArgument
                        else if |Where(old(tickets), IsPending())| >= queueCapacity then Busy
                        else if FaultResult(old(fault), AccessibilityRequest) != Ok
                        then FaultResult(old(fault), AccessibilityRequest)
                        else if HasRoom(old(tickets)) then Ok else Capacity
      ensures fault == if Described(d) && |Where(old(tickets), IsPending())| < queueCapacity
                       then FaultAfter(old(fault), AccessibilityRequest) else old(fault)
      ensures handle != 0 ==> status == Ok && handle == NextHandle(old(tickets))
      ensures handle == 0 ==> status != Ok && Now() == old(Now())
      ensures status == Ok ==>
                var queued := Books(Emplace(old(tickets), Ticket(d.query, completionPolls, Queued, Ok, 0, true)),
                                    old(snapshots), old(active) + 1);
                && queued.tickets.Valid() && Live(queued.tickets, handle)
                && Now() == if completionPolls == 0 then CompletedBooks(queued, handle) else queued
    {
      hide Consistent, Where, CompletedBooks;
      ghost var b := Now();
      SpineOf(b);
      ActiveIsPending(b);
      handle := 0;
      var query := d.query;
      if query.window != WINDOW || d.scopeWidth <= 0 || d.scopeHeight <= 0 || d.targetCapacity == 0 || d.flags != 0 ||
         query.sessionEpoch == 0 || query.transformEpoch == 0 || query.topologyEpoch == 0 || query.frameId == 0
      {
        return InvalidArgument, 0;
      }
      if active >= queueCapacity {
        return Busy, 0;
      }
      var result := FaultResult(fault, AccessibilityRequest);
      fault := FaultAfter(fault, AccessibilityRequest);
      if result != Ok {
        return result, 0;
      }
      var ticket := Ticket(d.query, completionPolls, Queued, Ok, 0, true);
      if !HasRoom(tickets) {
        return Capacity, 0;
      }
      RequestKeeps(b, ticket);
      handle := NextHandle(tickets);
      EmplaceLaws(tickets, ticket, handle);
      tickets := Emplace(tickets, ticket);
      active := active + 1;
      if ticket.remainingPolls == 0 {
        CompleteNow(handle);
      }
      status := Ok;
    }

    /** A cancelled ticket, or a failed one, is erased once its status has been reported. */
    method Poll(handle: nat) returns (status: Status, report: Option<Ticket>)
      requires Valid()
      modifies this`tickets, this`snapshots, this`active
      ensures Valid()
      ensures status == if Live(old(tickets), handle) then Ok else StaleHandle
      ensures status != Ok ==> report == None && Now() == old(Now())
      ensures status == Ok ==>
                && (Get(old(tickets), handle).state.Pending() ==> old(active) > 0)
                && var b := Finished(old(Now()), handle);
                   && Live(b.tickets, handle) && report == Some(Get(b.tickets, handle))
                   && Now() == (if report.value.state in {TicketCancelled, Failed}
                                then b.(tickets := Erase(b.tickets, handle)) else b)
    {
      hide Consistent, Finished;
      if !Live(tickets, handle) {
        return StaleHandle, None;
      }
      FinishedKeeps(Now(), handle);
      Finish(handle);
      report := Some(Get(tickets, handle));
      DropEnded(handle);
      status := Ok;
    }

    method DropEnded(handle: nat)
      requires Valid() && Live(tickets, handle)
      modifies this`tickets
      ensures Valid()
      ensures tickets == if Get(old(tickets), handle).state in {TicketCancelled, Failed}
                         then Erase(old(tickets), handle)
                         else old(tickets)
    {
      hide Consistent;
      var t := Get(tickets, handle);
      if t.state == TicketCancelled || (t.state == Failed && t.snapshot == 0) {
        EraseKeeps(Now(), handle);
        tickets := Erase(tickets, handle);
      } else {
        TicketIsOk(Now(), handle);
      }
    }

    method Wait(handle: nat, timeout: nat) returns (status: Status, report: Option<Ticket>)
      requires Valid()
      modifies this`tickets, this`snapshots, this`active
      ensures Valid()
      ensures status == if !Live(old(tickets), handle) then StaleHandle
                        else if Get(old(tickets), handle).state.Pending() && timeout == 0 then Timeout else Ok
      ensures status == StaleHandle ==> report == None
      ensures status == Timeout ==> report == Some(Get(old(tickets), handle))
      ensures status != Ok ==> Now() == old(Now())
      ensures status == Ok ==>
                && old(tickets).Valid() && (Get(old(tickets), handle).state.Pending() ==> old(active) > 0)
                && var b := if Get(old(tickets), handle).state.Pending() then CompletedBooks(old(Now()), handle)
                            else old(Now());
                   && Live(b.tickets, handle) && report == Some(Get(b.tickets, handle)) && !report.value.state.Pending()
                   && Now() == (if report.value.state in {TicketCancelled, Failed}
                                then b.(tickets := Erase(b.tickets, handle)) else b)
    {
      hide Consistent, CompletedBooks;
      if !Live(tickets, handle) {
        return StaleHandle, None;
      }
      if Get(tickets, handle).state.Pending() && timeout == 0 {
        return Timeout, Some(Get(tickets, handle));
      }
      ghost var b := Now();
      SpineOf(b);
      if Get(tickets, handle).state.Pending() {
        PendingIsActive(b, handle);
        CompletedEnds(b, handle);
        CompleteNow(handle);
      }
      report := Some(Get(tickets, handle));
      DropEnded(handle);
      status := Ok;
    }

    /** A snapshot can be read any number of times; its packet names the snapshot and carries the query of the
        completed ticket that owns it. */
    method Collect(handle: nat, capacity: Option<nat>) returns (status: Status, bytes: Option<seq<Byte>>)
      requires Valid()
      ensures status == if !Live(snapshots, handle) then StaleHandle
                        else if capacity.None? || capacity.value < OUTPUT_SIZE then Capacity else Ok
      ensures bytes.Some? <==> status == Ok
      ensures status == Ok ==>
                && |bytes.value| == OUTPUT_SIZE
                && var t := Get(snapshots, handle).ticket;
                   && Live(tickets, t) && Get(tickets, t).state == Complete && Get(tickets, t).snapshot == handle
                   && Get(tickets, t).query.window == WINDOW
                   && SnapshotStands(bytes.value, handle, Get(tickets, t).query)
    {
      hide SnapshotStands, SnapshotPacket, Consistent;
      if !Live(snapshots, handle) {
        return StaleHandle, None;
      }
      if capacity.None? || capacity.value < OUTPUT_SIZE {
        return Capacity, None;
      }
      var query := Get(snapshots, handle).query;
      SpineOf(Now());
      SnapshotsPairWithTickets(Now());
      LiveHandleFits(snapshots, handle);
      SnapshotPacketStands(handle, query);
      TicketIsOk(Now(), Get(snapshots, handle).ticket);
      return Ok, Some(SnapshotPacket(handle, query));
    }

    method Cancel(handle: nat) returns (status: Status)
      requires Valid()
      modifies this`tickets, this`active
      ensures Valid()
      ensures status == if !Live(old(tickets), handle) then StaleHandle
                        else if Get(old(tickets), handle).state.Pending() then Ok else State
      ensures status == Ok ==>
                && active == old(active) - 1
                && tickets == Put(old(tickets), handle,
                                  Get(old(tickets), handle).(state := TicketCancelled, result := Cancelled,
                                                             counted := false))
      ensures status != Ok ==> Now() == old(Now())
    {
      hide Consistent;
      if !Live(tickets, handle) {
        return StaleHandle;
      }
      var t := Get(tickets, handle);
      if t.state != Queued && t.state != Running {
        return State;
      }
      PendingIsActive(Now(), handle);
      var v := t.(state := TicketCancelled, result := Cancelled, counted := false);
      MoveKeeps(Now(), handle, v);
      tickets := Put(tickets, handle, v);
      if t.counted {
        active := active - 1;
      }
      status := Ok;
    }

    method ReleaseSnapshot(handle: nat) returns (status: Status)
      requires Valid()
      modifies this`tickets, this`snapshots
      ensures Valid()
      ensures status == if Live(old(snapshots), handle) then Ok else StaleHandle
      ensures status == Ok ==>
                && Live(old(tickets), Get(old(snapshots), handle).ticket)
                && snapshots == Erase(old(snapshots), handle)
                && tickets == Erase(old(tickets), Get(old(snapshots), handle).ticket)
      ensures status != Ok ==> Now() == old(Now())
    {
      hide Consistent;
      if !Live(snapshots, handle) {
        return StaleHandle;
      }
      ReleaseKeeps(Now(), handle);
      var ticket := Get(snapshots, handle).ticket;
      snapshots := Erase(snapshots, handle);
      tickets := Erase(tickets, ticket);
      status := Ok;
    }

    /** With time to wait, every pending ticket ends. */
    method Synchronize(timeout: nat) returns (status: Status)
      requires Valid()
      modifies this
      ensures Valid() && fault == FaultAfter(old(fault), AccessibilitySynchronize)
      ensures status == if FaultResult(old(fault), AccessibilitySynchronize) != Ok
                        then FaultResult(old(fault), AccessibilitySynchronize)
                        else if |Where(old(tickets), IsPending())| != 0 && timeout == 0 then Timeout else Ok
      ensures status == Timeout || FaultResult(old(fault), AccessibilitySynchronize) != Ok ==> Now() == old(Now())
      ensures FaultResult(old(fault), AccessibilitySynchronize) == Ok && status == Ok ==>
                && Ended(old(Now()), Now()) && active == 0
                && (forall h: nat | Live(tickets, h) :: !Get(tickets, h).state.Pending())
    {
      hide Consistent, Ended, Where, CompletedBooks;
      ghost var b := Now();
      ActiveIsPending(b);
      var result := FaultResult(fault, AccessibilitySynchronize);
      fault := FaultAfter(fault, AccessibilitySynchronize);
      if result != Ok {
        return result;
      }
      if active != 0 && timeout == 0 {
        return Timeout;
      }
      EndedReflexive(b);
      SpineOf(b);
      for index := 0 to 8
        invariant Valid() && Ended(b, Now()) && |tickets.slots| == 8
                  && fault == FaultAfter(old(fault), AccessibilitySynchronize)
        invariant forall h: nat | Live(tickets, h) && IndexOf(h) < index :: !Get(tickets, h).state.Pending()
      {
        ghost var now := Now();
        SpineOf(now);
        LiveAt(tickets, index);
        var handle := HandleAt(tickets, index);
        forall h: nat | Live(tickets, h) && IndexOf(h) == index ensures h == handle {
          HandleIsPair(h, handle);
        }
        if tickets.slots[index].value.Some? && Get(tickets, handle).state.Pending() {
          PendingIsActive(now, handle);
          CompletedEnds(now, handle);
          CompleteNow(handle);
          EndedTransitively(b, now, Now());
          EndedStays(now, Now(), handle, index);
        }
      }
      SpineOf(Now());
      ActiveIsPending(Now());
      NoneWhere(tickets, IsPending());
      status := Ok;
    }
  }

  lemma EndedStays(a: Books, b: Books, h: nat, n: nat)
    requires Ended(a, b) && Live(a.tickets, h) && Live(b.tickets, h) && IndexOf(h) == n
             && !Get(b.tickets, h).state.Pending()
    requires forall k: nat | Live(a.tickets, k) && IndexOf(k) < n :: !Get(a.tickets, k).state.Pending()
    requires forall k: nat | Live(a.tickets, k) && IndexOf(k) == n :: k == h
    ensures forall k: nat | Live(b.tickets, k) && IndexOf(k) < n + 1 :: !Get(b.tickets, k).state.Pending()
  {
  }

  lemma ActiveIsPending(b: Books)
    requires Consistent(b)
    ensures b.active == |Where(b.tickets, IsPending())|
  {
  }

  lemma TicketIsOk(b: Books, h: nat)
    requires Consistent(b) && Live(b.tickets, h)
    ensures TicketOk(b.snapshots, h, Get(b.tickets, h))
  {
  }
}
