/** Fixed-capacity tables addressed by generation-checked handles (src/core/handle_table.hpp). */
module HandleTables {
  import opened Statuses

  const LAST_GENERATION: nat := 0xFFFF_FFFF

  /** A slot is retired when its generations are used up; it then stays empty for good. */
  datatype Slot<T> = Slot(generation: nat, value: Option<T>, retired: bool)

  datatype Table<T> = Table(slots: seq<Slot<T>>) {
    ghost predicate Valid() {
      && |slots| <= 0xFFFF_FFFF
      && forall i | 0 <= i < |slots| ::
           1 <= slots[i].generation <= LAST_GENERATION && (slots[i].retired ==> slots[i].value.None?)
    }
  }

  function EmptyTable<T>(capacity: nat): (t: Table<T>)
    requires capacity <= 0xFFFF_FFFF
    ensures t.Valid()
  {
    Table(seq(capacity, _ => Slot(1, None, false)))
  }

  function Encode(index: nat, generation: nat): nat {
    generation * U32_LIMIT + index + 1
  }

  function IndexOf(handle: nat): int { handle % U32_LIMIT - 1 }
  function GenerationOf(handle: nat): nat { handle / U32_LIMIT }

  lemma EncodeDecodes(index: nat, generation: nat)
    requires index < 0xFFFF_FFFF
    ensures IndexOf(Encode(index, generation)) == index && GenerationOf(Encode(index, generation)) == generation
  {
  }

  predicate Live<T>(t: Table<T>, handle: nat) {
    var i := IndexOf(handle);
    0 <= i < |t.slots| && t.slots[i].value.Some? && t.slots[i].generation == GenerationOf(handle)
  }

  function Get<T>(t: Table<T>, handle: nat): T
    requires Live(t, handle)
  {
    t.slots[IndexOf(handle)].value.value
  }

  function Put<T>(t: Table<T>, handle: nat, value: T): Table<T>
    requires Live(t, handle)
  {
    var i := IndexOf(handle);
    Table(t.slots[i := t.slots[i].(value := Some(value))])
  }

  /** The first slot that is neither occupied nor retired, or the capacity when there is none. */
  function FreeFrom<T>(t: Table<T>, i: nat): (free: nat)
    requires i <= |t.slots|
    ensures i <= free <= |t.slots|
    ensures free < |t.slots| ==> t.slots[free].value.None? && !t.slots[free].retired
    ensures forall k | i <= k < free :: t.slots[k].value.Some? || t.slots[k].retired
    decreases |t.slots| - i
  {
    if i == |t.slots| || (t.slots[i].value.None? && !t.slots[i].retired) then i else FreeFrom(t, i + 1)
  }

  /** A table has room when some slot is free; retired slots do not count as free. */
  predicate HasRoom<T>(t: Table<T>) { FreeFrom(t, 0) < |t.slots| }

  function NextHandle<T>(t: Table<T>): nat
    requires HasRoom(t)
  {
    Encode(FreeFrom(t, 0), t.slots[FreeFrom(t, 0)].generation)
  }

  function Emplace<T>(t: Table<T>, value: T): Table<T>
    requires HasRoom(t)
  {
    var i := FreeFrom(t, 0);
    Table(t.slots[i := t.slots[i].(value := Some(value))])
  }

  function Vacated<T>(s: Slot<T>): Slot<T> {
    if s.generation == LAST_GENERATION then Slot(s.generation, None, true)
    else Slot(s.generation + 1, None, false)
  }

  function Erase<T>(t: Table<T>, handle: nat): Table<T>
    requires Live(t, handle)
  {
    var i := IndexOf(handle);
    Table(t.slots[i := Vacated(t.slots[i])])
  }

  // ---------------------------------------------------------------- the table as a finite map

  /** The handle a slot answers to while it is occupied. */
  function HandleAt<T>(t: Table<T>, i: nat): nat
    requires i < |t.slots|
  {
    Encode(i, t.slots[i].generation)
  }

  lemma LiveAt<T>(t: Table<T>, i: nat)
    requires t.Valid() && i < |t.slots|
    ensures Live(t, HandleAt(t, i)) <==> t.slots[i].value.Some?
    ensures t.slots[i].value.Some? ==> Get(t, HandleAt(t, i)) == t.slots[i].value.value
    ensures IndexOf(HandleAt(t, i)) == i
    ensures HandleAt(t, i) != 0
  {
    EncodeDecodes(i, t.slots[i].generation);
  }

  lemma HandleIsPair(h: nat, k: nat)
    ensures h == k <==> IndexOf(h) == IndexOf(k) && GenerationOf(h) == GenerationOf(k)
  {
    assert h == GenerationOf(h) * U32_LIMIT + IndexOf(h) + 1;
    assert k == GenerationOf(k) * U32_LIMIT + IndexOf(k) + 1;
  }

  lemma PutLaws<T>(t: Table<T>, h: nat, value: T, k: nat)
    requires t.Valid() && Live(t, h)
    ensures Put(t, h, value).Valid()
    ensures Live(Put(t, h, value), k) <==> Live(t, k)
    ensures Live(t, k) ==> Get(Put(t, h, value), k) == if k == h then value else Get(t, k)
  {
    HandleIsPair(h, k);
  }

  lemma EraseLaws<T>(t: Table<T>, h: nat, k: nat)
    requires t.Valid() && Live(t, h)
    ensures Erase(t, h).Valid()
    ensures Live(Erase(t, h), k) <==> Live(t, k) && k != h
    ensures Live(t, k) && k != h ==> Get(Erase(t, h), k) == Get(t, k)
  {
    HandleIsPair(h, k);
  }

  lemma EmplaceLaws<T>(t: Table<T>, value: T, k: nat)
    requires t.Valid() && HasRoom(t)
    ensures var h := NextHandle(t);
            && h != 0 && !Live(t, h)
            && Emplace(t, value).Valid()
            && (Live(Emplace(t, value), k) <==> Live(t, k) || k == h)
            && (Live(Emplace(t, value), k) ==> Get(Emplace(t, value), k) == if k == h then value else Get(t, k))
  {
    var i := FreeFrom(t, 0);
    EncodeDecodes(i, t.slots[i].generation);
    HandleIsPair(NextHandle(t), k);
  }

  // ---------------------------------------------------------------- handles are never issued twice

  /** Whether some run of the table's operations up to now has handed this handle out. */
  ghost predicate Issued<T>(t: Table<T>, handle: nat) {
    var i, g := IndexOf(handle), GenerationOf(handle);
    && 0 <= i < |t.slots| && 1 <= g
    && (g < t.slots[i].generation
        || (g == t.slots[i].generation && (t.slots[i].value.Some? || t.slots[i].retired)))
  }

  /** A handle is new when it is handed out, erasing does not make it new again, and nothing else touches
      the record: so a handle that went stale stays stale in every run, through slot reuse and retirement. */
  lemma HandlesAreNeverReused<T>(t: Table<T>, value: T, h: nat, k: nat)
    requires t.Valid()
    ensures Live(t, k) ==> Issued(t, k)
    ensures HasRoom(t) ==> !Issued(t, NextHandle(t))
                           && (Issued(Emplace(t, value), k) <==> Issued(t, k) || k == NextHandle(t))
    ensures Live(t, h) ==> (Issued(Erase(t, h), k) <==> Issued(t, k)) && (Issued(Put(t, h, value), k) <==> Issued(t, k))
  {
    HandleIsPair(h, k);
    if HasRoom(t) {
      var i := FreeFrom(t, 0);
      EncodeDecodes(i, t.slots[i].generation);
      HandleIsPair(NextHandle(t), k);
    }
  }

  /** Emplacing fails exactly when every slot is occupied or has used up its generations. */
  lemma FullExactly<T>(t: Table<T>)
    ensures HasRoom(t) <==> exists i :: 0 <= i < |t.slots| && t.slots[i].value.None? && !t.slots[i].retired
  {
  }

  /** A handle is its slot's generation in the upper 32 bits and the slot's number plus one in the lower ones; erasing
      raises the slot's generation, and retires the slot exactly when there is no higher 32-bit generation. */
  lemma HandleLayout<T>(t: Table<T>, h: nat)
    requires t.Valid() && Live(t, h)
    ensures var i := h % 0x1_0000_0000 - 1;
            && 0 <= i < |t.slots| && h / 0x1_0000_0000 == t.slots[i].generation
            && Get(t, h) == t.slots[i].value.value
            && var after := Erase(t, h).slots[i];
               && after.value.None?
               && (after.retired <==> h / 0x1_0000_0000 == 0xFFFF_FFFF)
               && (!after.retired ==> after.generation == h / 0x1_0000_0000 + 1)
    ensures HasRoom(t) ==>
              var i := NextHandle(t) % 0x1_0000_0000 - 1;
              && 0 <= i < |t.slots| && t.slots[i].value.None? && !t.slots[i].retired
              && NextHandle(t) / 0x1_0000_0000 == t.slots[i].generation
              && forall k | 0 <= k < i :: t.slots[k].value.Some? || t.slots[k].retired
  {
  }

  // ---------------------------------------------------------------- counting records

  /** The slots whose record satisfies p. */
  ghost function Where<T(!new)>(t: Table<T>, p: T -> bool): set<int> {
    set i | 0 <= i < |t.slots| && t.slots[i].value.Some? && p(t.slots[i].value.value)
  }

  ghost function If(c: bool, i: int): set<int> { if c then {i} else {} }

  lemma WherePut<T(!new)>(t: Table<T>, h: nat, v: T, p: T -> bool)
    requires t.Valid() && Live(t, h)
    ensures Where(Put(t, h, v), p) == Where(t, p) - {IndexOf(h)} + If(p(v), IndexOf(h))
    ensures IndexOf(h) in Where(t, p) <==> p(Get(t, h))
  {
  }

  lemma WhereErase<T(!new)>(t: Table<T>, h: nat, p: T -> bool)
    requires t.Valid() && Live(t, h)
    ensures Where(Erase(t, h), p) == Where(t, p) - {IndexOf(h)}
    ensures IndexOf(h) in Where(t, p) <==> p(Get(t, h))
  {
  }

  lemma WhereEmplace<T(!new)>(t: Table<T>, v: T, p: T -> bool)
    requires t.Valid() && HasRoom(t)
    ensures Where(Emplace(t, v), p) == Where(t, p) + If(p(v), FreeFrom(t, 0))
    ensures FreeFrom(t, 0) !in Where(t, p)
  {
  }

  function Bit(c: bool): nat { if c then 1 else 0 }

  lemma CountPut<T(!new)>(t: Table<T>, h: nat, v: T, p: T -> bool)
    requires t.Valid() && Live(t, h)
    ensures |Where(Put(t, h, v), p)| == |Where(t, p)| + Bit(p(v)) - Bit(p(Get(t, h)))
  {
    hide Where;
    WherePut(t, h, v, p);
  }

  lemma CountErase<T(!new)>(t: Table<T>, h: nat, p: T -> bool)
    requires t.Valid() && Live(t, h)
    ensures |Where(Erase(t, h), p)| == |Where(t, p)| - Bit(p(Get(t, h)))
  {
    hide Where;
    WhereErase(t, h, p);
  }

  lemma CountEmplace<T(!new)>(t: Table<T>, v: T, p: T -> bool)
    requires t.Valid() && HasRoom(t)
    ensures |Where(Emplace(t, v), p)| == |Where(t, p)| + Bit(p(v))
  {
    hide Where;
    WhereEmplace(t, v, p);
  }

  /** Where as a statement about live handles. */
  lemma WhereLive<T(!new)>(t: Table<T>, p: T -> bool, i: int)
    requires t.Valid()
    ensures i in Where(t, p) <==> 0 <= i < |t.slots| && Live(t, HandleAt(t, i)) && p(Get(t, HandleAt(t, i)))
  {
    if 0 <= i < |t.slots| {
      LiveAt(t, i);
    }
  }

  /** Nothing is counted exactly when no live record satisfies p. */
  lemma NoneWhere<T(!new)>(t: Table<T>, p: T -> bool)
    requires t.Valid()
    ensures |Where(t, p)| == 0 <==> forall h: nat | Live(t, h) :: !p(Get(t, h))
  {
    if |Where(t, p)| == 0 {
      forall h: nat | Live(t, h) ensures !p(Get(t, h)) {
        assert IndexOf(h) !in Where(t, p);
      }
    } else {
      var i :| i in Where(t, p);
      WhereLive(t, p, i);
    }
  }

  /** The handles of the records that satisfy p, as a walk over the table meets them. */
  method HandlesWhere<T(!new)>(t: Table<T>, p: T -> bool) returns (handles: seq<nat>)
    requires t.Valid()
    ensures forall h: nat :: h in handles <==> Live(t, h) && p(Get(t, h))
    ensures forall i, j | 0 <= i < j < |handles| :: handles[i] != handles[j]
  {
    handles := [];
    for index := 0 to |t.slots|
      invariant forall h: nat :: h in handles <==> Live(t, h) && p(Get(t, h)) && IndexOf(h) < index
      invariant forall i, j | 0 <= i < j < |handles| :: handles[i] != handles[j]
    {
      LiveAt(t, index);
      var handle := HandleAt(t, index);
      forall h: nat | Live(t, h) && IndexOf(h) == index ensures h == handle {
        HandleIsPair(h, handle);
      }
      if t.slots[index].value.Some? && p(t.slots[index].value.value) {
        handles := handles + [handle];
      }
    }
  }

  lemma PutSame<T>(t: Table<T>, h: nat)
    requires Live(t, h)
    ensures Put(t, h, Get(t, h)) == t
  {
    var i := IndexOf(h);
    assert t.slots[i].(value := Some(Get(t, h))) == t.slots[i];
  }

  lemma PutTwice<T>(t: Table<T>, h: nat, u: T, v: T)
    requires t.Valid() && Live(t, h)
    ensures Live(Put(t, h, u), h) && Get(Put(t, h, u), h) == u && Put(Put(t, h, u), h, v) == Put(t, h, v)
  {
  }
}
