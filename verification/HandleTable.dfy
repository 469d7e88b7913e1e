/**
 The handle table on values: a generational slot array whose empty slots form an embedded free
 list. A handle packs a generation and an index.
 */
module HandleTable {
  import opened Numbers
  import opened Options
  import opened Rights
  import Words

  const WORD := 0x1_0000_0000

  type Handle = h: nat | h < WORD * WORD

  function Index(h: Handle): (i: nat)
    ensures i < WORD
  {
    h % WORD
  }

  function Generation(h: Handle): (g: nat)
    ensures g < WORD
  {
    h / WORD
  }

  function Pack(gen: nat, idx: nat): (h: Handle)
    requires gen < WORD && idx < WORD
    ensures Index(h) == idx && Generation(h) == gen
  {
    gen * WORD + idx
  }

  /** The shift and the or of the code compute exactly this number. */
  lemma PackBits(gen: bv32, idx: bv32)
    ensures gen as nat < WORD && idx as nat < WORD
    ensures Pack(gen as nat, idx as nat) == (((gen as bv64) << 32) | (idx as bv64)) as nat
  {
    Words.Join64(gen, idx);
  }

  /** The mask and the shift of the code take it apart again. */
  lemma UnpackBits(w: bv64, h: Handle)
    requires h == Words.Value64(w)
    ensures Index(h) == Words.LowValue(w) && Generation(h) == Words.HighValue(w)
  {
    hide Words.Value64, Words.LowValue, Words.HighValue;
    Words.HighAndLow(w);
    assert h == Pack(Words.HighValue(w), Words.LowValue(w));
  }

  lemma HandleIsItsParts(h: Handle)
    ensures Pack(Generation(h), Index(h)) == h
  {
  }

  datatype Error = InvalidHandle | AccessDenied | TableFull

  datatype Result<T> = Ok(value: T) | Err(error: Error)

  /** `granted` is history: the rights given to the create this entry descends from. */
  datatype Entry<O> = Entry(obj: O, rights: Rights, granted: Rights)

  datatype Slot<O> = Slot(generation: nat, entry: Option<Entry<O>>, nextFree: Option<nat>)

  datatype Table<O> = Table(slots: seq<Slot<O>>, freeHead: Option<nat>, count: nat)

  function Occupied<O>(slot: Slot<O>): nat {
    if slot.entry.Some? then 1 else 0
  }

  // ---- well-formedness ----

  function First(path: seq<nat>): Option<nat> {
    if path == [] then None else Some(path[0])
  }

  /** path is the chain from freeHead: acyclic, and through exactly the empty slots. */
  ghost predicate IsFreeList<O>(t: Table<O>, path: seq<nat>) {
    && t.freeHead == First(path)
    && (forall k :: 0 <= k < |path| ==> path[k] < |t.slots|)
    && (forall k :: 0 <= k < |path| ==> t.slots[path[k]].nextFree == First(path[k + 1..]))
    && (forall j, k :: 0 <= j < k < |path| ==> path[j] != path[k])
    && (forall i :: 0 <= i < |t.slots| ==> (t.slots[i].entry.None? <==> i in path))
  }

  ghost predicate WellFormed<O>(t: Table<O>) {
    && 1 <= |t.slots| < WORD
    && (forall i :: 0 <= i < |t.slots| ==> t.slots[i].generation < WORD)
    && t.count == Tally(t.slots, Occupied)
    && exists path :: IsFreeList(t, path) && t.count + |path| == |t.slots|
  }

  /** The table `new` builds. Its head is Some(0) whatever the capacity. */
  function Fresh<O>(capacity: nat): Table<O> {
    Table(seq(capacity, i requires 0 <= i => Slot(0, None, LinkAfter(i, capacity))), Some(0), 0)
  }

  function LinkAfter(i: nat, capacity: nat): Option<nat> {
    if i + 1 < capacity then Some(i + 1) else None
  }

  lemma {:induction false} TallyZero<O>(s: seq<Slot<O>>)
    requires forall i :: 0 <= i < |s| ==> s[i].entry.None?
    ensures Tally(s, Occupied) == 0
  {
    if s != [] {
      TallyZero(s[..|s| - 1]);
    }
  }

  /** `new` builds a well-formed empty table exactly when the capacity is at least one (and fits an index). */
  lemma FreshWellFormed<O>(capacity: nat)
    ensures WellFormed(Fresh<O>(capacity)) <==> 1 <= capacity < 0x1_0000_0000
  {
    if 1 <= capacity < WORD {
      var t := Fresh<O>(capacity);
      TallyZero(t.slots);
      FreshList<O>(capacity);
    }
  }

  lemma FreshList<O>(capacity: nat)
    requires capacity >= 1
    ensures IsFreeList(Fresh<O>(capacity), seq(capacity, i requires 0 <= i => i))
    ensures |seq(capacity, i requires 0 <= i => i)| == capacity
  {
    var t := Fresh<O>(capacity);
    var path: seq<nat> := seq(capacity, i requires 0 <= i => i);
    forall i | 0 <= i < |t.slots| ensures t.slots[i].entry.None? <==> i in path {
      assert path[i] == i;
    }
  }

  // ---- operations ----

  function SetSlot<O>(t: Table<O>, idx: nat, slot: Slot<O>): Table<O>
    requires idx < |t.slots|
  {
    t.(slots := t.slots[idx := slot])
  }

  /** Pop the head of the free list and put an entry there. */
  function Alloc<O>(t: Table<O>, e: Entry<O>): Table<O>
    requires t.freeHead.Some? && t.freeHead.value < |t.slots|
  {
    var idx := t.freeHead.value;
    var slot := t.slots[idx];
    SetSlot(t, idx, Slot(slot.generation, Some(e), None)).(freeHead := slot.nextFree, count := t.count + 1)
  }

  function HandleOf<O>(t: Table<O>, idx: nat): Handle
    requires idx < |t.slots| && idx < WORD && t.slots[idx].generation < WORD
  {
    Pack(t.slots[idx].generation, idx)
  }

  /** A 32-bit generation counter wraps. */
  function Bump(gen: nat): nat {
    (gen + 1) % WORD
  }

  /** That is the addition of 32-bit words. */
  lemma BumpBits(gen: bv32)
    ensures Bump(Words.Value32(gen)) == Words.Value32(Words.Next32(gen))
  {
    hide Words.Value32, Words.Next32;
    Words.NextValue32(gen);
  }

  /** Empty a slot, invalidate its handles, and push it on the free list. */
  function Free<O>(t: Table<O>, idx: nat): Table<O>
    requires idx < |t.slots| && t.count > 0
  {
    SetSlot(t, idx, Slot(Bump(t.slots[idx].generation), None, t.freeHead)).(freeHead := Some(idx), count := t.count - 1)
  }

  /** What a handle leads to, or why not. */
  function Lookup<O>(t: Table<O>, h: Handle): Result<Entry<O>> {
    if Index(h) >= |t.slots| then Err(InvalidHandle)
    else if t.slots[Index(h)].generation != Generation(h) then Err(InvalidHandle)
    else match t.slots[Index(h)].entry
      case None => Err(InvalidHandle)
      case Some(e) => Ok(e)
  }

  /** Common to create, duplicate and the destination of a transfer. */
  function Insert<O>(t: Table<O>, e: Entry<O>): (Table<O>, Result<Handle>)
    requires WellFormed(t)
  {
    if t.freeHead.None? then (t, Err(TableFull))
    else
      HeadInRange(t);
      (Alloc(t, e), Ok(HandleOf(t, t.freeHead.value)))
  }

  function Create<O>(t: Table<O>, obj: O, rights: Rights): (Table<O>, Result<Handle>)
    requires WellFormed(t)
  {
    Insert(t, Entry(obj, rights, rights))
  }

  function Duplicate<O>(t: Table<O>, h: Handle, rights: Rights): (Table<O>, Result<Handle>)
    requires WellFormed(t)
  {
    match Lookup(t, h)
    case Err(error) => (t, Err(error))
    case Ok(e) =>
      if !e.rights.Contains(DUPLICATE) then (t, Err(AccessDenied))
      else Insert(t, e.(rights := e.rights.Downgrade(rights)))
  }

  /** Closing a handle whose generation matches an empty slot succeeds and changes nothing. */
  function Close<O>(t: Table<O>, h: Handle): (Table<O>, Result<()>)
    requires WellFormed(t)
  {
    if Index(h) >= |t.slots| then (t, Err(InvalidHandle))
    else if t.slots[Index(h)].generation != Generation(h) then (t, Err(InvalidHandle))
    else if t.slots[Index(h)].entry.None? then (t, Ok(()))
    else
      CountPositive(t, Index(h));
      (Free(t, Index(h)), Ok(()))
  }

  /** The code looks the handle up in the table locked first and inserts into the other. */
  function Move<O>(first: Table<O>, second: Table<O>, h: Handle): (Table<O>, Table<O>, Result<Handle>)
    requires WellFormed(first) && WellFormed(second)
  {
    match Lookup(first, h)
    case Err(error) => (first, second, Err(error))
    case Ok(e) =>
      if !e.rights.Contains(TRANSFER) then (first, second, Err(AccessDenied))
      else
        var (second', r) := Insert(second, e);
        if r.Err? then (first, second, r)
        else
          CountPositive(first, Index(h));
          (Free(first, Index(h)), second', r)
  }

  /** `self.transfer(h, dest)`: the table at the lower address is locked, and searched, first. */
  function Transfer<O>(self: Table<O>, dest: Table<O>, h: Handle, selfLower: bool): (Table<O>, Table<O>, Result<Handle>)
    requires WellFormed(self) && WellFormed(dest)
  {
    if selfLower then Move(self, dest, h)
    else
      var (d, s, r) := Move(dest, self, h);
      (s, d, r)
  }

  lemma HeadInRange<O>(t: Table<O>)
    requires WellFormed(t) && t.freeHead.Some?
    ensures t.freeHead.value < |t.slots| < WORD && t.slots[t.freeHead.value].entry.None?
    ensures t.slots[t.freeHead.value].generation < WORD
  {
    var path :| IsFreeList(t, path) && t.count + |path| == |t.slots|;
    assert path[0] == t.freeHead.value;
  }

  lemma CountPositive<O>(t: Table<O>, i: nat)
    requires WellFormed(t) && i < |t.slots| && t.slots[i].entry.Some?
    ensures t.count > 0
  {
    TallyPositive(t.slots, i, Occupied);
  }
}
