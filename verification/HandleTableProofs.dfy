/** What every operation keeps of one handle table, and how it agrees with a plain map. */
module HandleTableProofs {
  import opened HandleTable
  import opened Numbers
  import opened Options
  import opened Rights

  // ---- the free list ----

  lemma AllocKeepsList<O>(t: Table<O>, e: Entry<O>, path: seq<nat>)
    requires IsFreeList(t, path) && path != []
    ensures IsFreeList(Alloc(t, e), path[1..])
  {
    var t', rest := Alloc(t, e), path[1..];
    forall k | 0 <= k < |rest| ensures t'.slots[rest[k]].nextFree == First(rest[k + 1..]) {
      assert rest[k] == path[k + 1] && rest[k + 1..] == path[k + 2..];
    }
    forall i | 0 <= i < |t'.slots| ensures t'.slots[i].entry.None? <==> i in rest {
      assert i in path <==> i == path[0] || i in rest;
    }
  }

  lemma FreeKeepsLinks<O>(t: Table<O>, idx: nat, path: seq<nat>, k: nat)
    requires IsFreeList(t, path) && idx < |t.slots| && idx !in path && t.count > 0 && k <= |path|
    ensures var more := [idx] + path;
      more[k] < |t.slots| && Free(t, idx).slots[more[k]].nextFree == First(more[k + 1..])
  {
    var more := [idx] + path;
    if k == 0 {
      assert more[1..] == path;
    } else {
      assert path[k - 1] in path;
      assert more[k] == path[k - 1] && more[k + 1..] == path[k..];
    }
  }

  lemma FreeKeepsMembers<O>(t: Table<O>, idx: nat, path: seq<nat>, i: nat)
    requires IsFreeList(t, path) && idx < |t.slots| && t.slots[idx].entry.Some? && t.count > 0 && i < |t.slots|
    ensures Free(t, idx).slots[i].entry.None? <==> i in [idx] + path
  {
    assert i in [idx] + path <==> i == idx || i in path;
  }

  lemma ConsIsDistinct(idx: nat, path: seq<nat>)
    requires idx !in path && forall j, k :: 0 <= j < k < |path| ==> path[j] != path[k]
    ensures var more := [idx] + path; forall j, k :: 0 <= j < k < |more| ==> more[j] != more[k]
  {
    var more := [idx] + path;
    forall j, k | 0 <= j < k < |more| ensures more[j] != more[k] {
      assert more[k] == path[k - 1] && path[k - 1] in path;
    }
  }

  lemma FreeKeepsList<O>(t: Table<O>, idx: nat, path: seq<nat>)
    requires IsFreeList(t, path) && idx < |t.slots| && t.slots[idx].entry.Some? && t.count > 0
    ensures IsFreeList(Free(t, idx), [idx] + path)
  {
    hide First;
    var t', more := Free(t, idx), [idx] + path;
    assert idx !in path;
    forall k | 0 <= k < |more| ensures more[k] < |t'.slots| && t'.slots[more[k]].nextFree == First(more[k + 1..]) {
      FreeKeepsLinks(t, idx, path, k);
    }
    FirstOfCons(idx, path);
    ConsIsDistinct(idx, path);
    forall i | 0 <= i < |t'.slots| ensures t'.slots[i].entry.None? <==> i in more {
      FreeKeepsMembers(t, idx, path, i);
    }
  }

  lemma FirstOfCons(idx: nat, path: seq<nat>)
    ensures First([idx] + path) == Some(idx)
  {
  }

  lemma AllocWellFormed<O>(t: Table<O>, e: Entry<O>)
    requires WellFormed(t) && t.freeHead.Some?
    ensures t.freeHead.value < |t.slots| && WellFormed(Alloc(t, e))
  {
    HeadInRange(t);
    var path :| IsFreeList(t, path) && t.count + |path| == |t.slots|;
    AllocKeepsList(t, e, path);
    var t' := Alloc(t, e);
    TallyUpdate(t.slots, t.freeHead.value, t'.slots[t.freeHead.value], Occupied);
    assert t'.count + |path[1..]| == |t'.slots|;
  }

  lemma FreeWellFormed<O>(t: Table<O>, idx: nat)
    requires WellFormed(t) && idx < |t.slots| && t.slots[idx].entry.Some?
    ensures t.count > 0 && WellFormed(Free(t, idx))
  {
    CountPositive(t, idx);
    var path :| IsFreeList(t, path) && t.count + |path| == |t.slots|;
    FreeKeepsList(t, idx, path);
    var t' := Free(t, idx);
    TallyUpdate(t.slots, idx, t'.slots[idx], Occupied);
    assert t'.count + |[idx] + path| == |t'.slots|;
  }

  /** A table is full exactly when every slot is occupied. */
  lemma FullIffNoHead<O>(t: Table<O>)
    requires WellFormed(t)
    ensures t.freeHead.None? <==> t.count == |t.slots|
  {
  }

  // ---- agreement with a plain map ----

  ghost predicate Agrees<O(!new)>(t: Table<O>, m: map<Handle, Entry<O>>) {
    forall h: Handle :: (h in m <==> Lookup(t, h).Ok?) && (h in m ==> Lookup(t, h) == Ok(m[h]))
  }

  lemma FreshAgrees<O(!new)>(capacity: nat)
    ensures Agrees(Fresh<O>(capacity), map[])
  {
  }

  /** A handle found in an updated table: the slot's own handle, or one that was there before. */
  lemma LookupElsewhere<O>(t: Table<O>, idx: nat, slot: Slot<O>, t': Table<O>, h: Handle)
    requires idx < |t.slots| && t'.slots == t.slots[idx := slot] && Index(h) != idx
    ensures Lookup(t', h) == Lookup(t, h)
  {
  }

  lemma SameHandle(h: Handle, g: Handle)
    requires Index(h) == Index(g) && Generation(h) == Generation(g)
    ensures h == g
  {
    HandleIsItsParts(h);
    HandleIsItsParts(g);
  }

  /** Inserting returns a handle that was not live and adds exactly it, or fails and changes nothing. */
  lemma InsertAgrees<O(!new)>(t: Table<O>, e: Entry<O>, m: map<Handle, Entry<O>>)
    requires WellFormed(t) && Agrees(t, m)
    ensures var (t', r) := Insert(t, e);
      match r
      case Ok(h) => t.count < |t.slots| && h !in m && WellFormed(t') && Agrees(t', m[h := e])
      case Err(error) => error == TableFull && t.count == |t.slots| && t' == t
  {
    hide IsFreeList, Tally, Lookup, Alloc, WellFormed;
    FullIffNoHead(t);
    if t.freeHead.Some? {
      HeadInRange(t);
      AllocWellFormed(t, e);
      TallyBound(t, t.freeHead.value);
      forall g: Handle ensures
        Lookup(Alloc(t, e), g) == if g == HandleOf(t, t.freeHead.value) then Ok(e) else Lookup(t, g)
      {
        AllocLookup(t, e, g);
      }
      FreeHandleFails(t);
    }
  }

  lemma FreeHandleFails<O>(t: Table<O>)
    requires WellFormed(t) && t.freeHead.Some? && t.freeHead.value < |t.slots| < WORD
    requires t.slots[t.freeHead.value].generation < WORD
    ensures Lookup(t, HandleOf(t, t.freeHead.value)).Err?
  {
    HeadInRange(t);
  }

  lemma AllocLookup<O>(t: Table<O>, e: Entry<O>, g: Handle)
    requires t.freeHead.Some? && t.freeHead.value < |t.slots| < WORD
    requires t.slots[t.freeHead.value].generation < WORD && t.slots[t.freeHead.value].entry.None?
    ensures Lookup(Alloc(t, e), g) == if g == HandleOf(t, t.freeHead.value) then Ok(e) else Lookup(t, g)
  {
    HandleIsItsParts(g);
  }

  lemma TallyBound<O>(t: Table<O>, idx: nat)
    requires WellFormed(t) && idx < |t.slots| && t.slots[idx].entry.None?
    ensures t.count < |t.slots|
  {
    var path :| IsFreeList(t, path) && t.count + |path| == |t.slots|;
    assert idx in path;
  }

  /** Emptying a live handle's slot removes exactly that handle. */
  lemma FreeAgrees<O(!new)>(t: Table<O>, h: Handle, m: map<Handle, Entry<O>>)
    requires WellFormed(t) && Agrees(t, m) && h in m
    ensures Index(h) < |t.slots| && t.slots[Index(h)].entry == Some(m[h]) && t.count > 0
    ensures WellFormed(Free(t, Index(h))) && Agrees(Free(t, Index(h)), m - {h})
  {
    assert Lookup(t, h) == Ok(m[h]);
    var idx := Index(h);
    FreeWellFormed(t, idx);
    var t' := Free(t, idx);
    forall g: Handle ensures
      (g in m - {h} <==> Lookup(t', g).Ok?) && (g in m - {h} ==> Lookup(t', g) == Ok((m - {h})[g]))
    {
      if Index(g) != idx {
        LookupElsewhere(t, idx, t'.slots[idx], t', g);
      } else if g in m {
        assert Lookup(t, g).Ok?;
        SameHandle(g, h);
      }
    }
  }

  /** create on the table is create on the map. */
  lemma CreateAgrees<O(!new)>(t: Table<O>, obj: O, rights: Rights, m: map<Handle, Entry<O>>)
    requires WellFormed(t) && Agrees(t, m)
    ensures var (t', r) := Create(t, obj, rights);
      && WellFormed(t')
      && match r
         case Ok(h) => h !in m && Agrees(t', m[h := Entry(obj, rights, rights)])
         case Err(error) => error == TableFull && t.count == |t.slots| && t' == t
  {
    InsertAgrees(t, Entry(obj, rights, rights), m);
  }

  /**
   duplicate adds one handle for the same object with the meet of the rights; it fails, changing
   nothing, exactly when the source is not live, lacks DUPLICATE, or the table is full, in that order.
   */
  lemma DuplicateAgrees<O(!new)>(t: Table<O>, h: Handle, rights: Rights, m: map<Handle, Entry<O>>)
    requires WellFormed(t) && Agrees(t, m)
    ensures var (t', r) := Duplicate(t, h, rights);
      && WellFormed(t')
      && match r
         case Ok(g) =>
           && h in m && g !in m
           && Agrees(t', m[g := Entry(m[h].obj, Rights(m[h].rights.bits & rights.bits), m[h].granted)])
         case Err(error) =>
           && t' == t
           && (error == InvalidHandle <==> h !in m)
           && (error == AccessDenied <==> h in m && m[h].rights.bits & 0x10 == 0)
           && (error == TableFull <==> h in m && m[h].rights.bits & 0x10 != 0 && t.count == |t.slots|)
  {
    if h in m {
      MayDuplicate(m[h].rights);
      hide Rights.Contains;
      InsertAgrees(t, m[h].(rights := m[h].rights.Downgrade(rights)), m);
    }
  }

  /**
   close removes a live handle; otherwise it changes nothing, and reports success exactly when the
   handle is the one an empty slot will issue next.
   */
  lemma CloseAgrees<O(!new)>(t: Table<O>, h: Handle, m: map<Handle, Entry<O>>)
    requires WellFormed(t) && Agrees(t, m)
    ensures var (t', r) := Close(t, h);
      && WellFormed(t') && Agrees(t', m - {h})
      && (h in m ==> r.Ok? && t'.count == t.count - 1)
      && (h !in m ==> t' == t && (r == Ok(()) || r == Err(InvalidHandle)) && (r.Ok? <==> NamesEmptySlot(t, h)))
  {
    assert h in m <==> Lookup(t, h).Ok?;
    if h in m {
      FreeAgrees(t, h, m);
    } else {
      assert m - {h} == m;
      if Index(h) < |t.slots| && t.slots[Index(h)].generation == Generation(h) {
        HandleIsItsParts(h);
        assert h == HandleOf(t, Index(h));
      }
    }
  }

  /** h is the handle that some empty slot will issue when it is next filled. */
  ghost predicate NamesEmptySlot<O>(t: Table<O>, h: Handle)
    requires WellFormed(t)
  {
    exists i :: 0 <= i < |t.slots| && t.slots[i].entry.None? && h == HandleOf(t, i)
  }

  /**
   The documentation has close fail on an invalid handle. It fails on every handle that is not live,
   in every well-formed table, exactly if the table is full.
   */
  lemma CloseRejectsInvalidIffFull<O(!new)>(t: Table<O>, m: map<Handle, Entry<O>>)
    requires WellFormed(t) && Agrees(t, m)
    ensures (forall h: Handle :: h !in m ==> Close(t, h).1.Err?) <==> t.count == |t.slots|
  {
    FullIffNoHead(t);
    if t.count == |t.slots| {
      forall h: Handle | h !in m ensures Close(t, h).1.Err? {
        CloseAgrees(t, h, m);
        if NamesEmptySlot(t, h) {
          var i :| 0 <= i < |t.slots| && t.slots[i].entry.None? && h == HandleOf(t, i);
          TallyBound(t, i);
        }
      }
    } else {
      HeadInRange(t);
      var h := HandleOf(t, t.freeHead.value);
      assert Lookup(t, h).Err?;
      CloseAgrees(t, h, m);
      assert NamesEmptySlot(t, h);
    }
  }

  /** On a new table, closing the handle of slot 0, which was never issued, succeeds. */
  lemma CloseNeverIssued()
    ensures WellFormed(Fresh<nat>(1)) && Close(Fresh<nat>(1), 0) == (Fresh<nat>(1), Ok(()))
    ensures Agrees(Fresh<nat>(1), map[]) && Recorded(Fresh<nat>(1), Ledger([0], {}))
  {
    FreshWellFormed<nat>(1);
    FreshRecorded<nat>(1);
    assert seq(1, i => 0) == [0];
  }

  /**
   Moving between two distinct tables takes exactly one entry, unchanged, from the table searched to
   the other; every failure changes neither.
   */
  lemma MoveAgrees<O(!new)>(first: Table<O>, second: Table<O>, h: Handle,
                            m: map<Handle, Entry<O>>, n: map<Handle, Entry<O>>)
    requires WellFormed(first) && WellFormed(second) && Agrees(first, m) && Agrees(second, n)
    ensures var (first', second', r) := Move(first, second, h);
      && WellFormed(first') && WellFormed(second')
      && match r
         case Ok(g) =>
           && h in m && g !in n && Agrees(first', m - {h}) && Agrees(second', n[g := m[h]])
           && first'.count == first.count - 1 && second'.count == second.count + 1
         case Err(error) =>
           && first' == first && second' == second
           && (error == InvalidHandle <==> h !in m)
           && (error == AccessDenied <==> h in m && m[h].rights.bits & 0x20 == 0)
           && (error == TableFull <==> h in m && m[h].rights.bits & 0x20 != 0 && second.count == |second.slots|)
  {
    hide IsFreeList, Tally;
    assert h in m <==> Lookup(first, h).Ok?;
    if h in m {
      MayTransfer(m[h].rights);
      hide Rights.Contains;
      InsertAgrees(second, m[h], n);
      FreeAgrees(first, h, m);
    }
  }

  /**
   transfer between distinct tables, in either address order: one entry leaves the table at the lower
   address for the other, and its rights, its object and all other handles stay as they are.
   */
  lemma TransferAgrees<O(!new)>(self: Table<O>, dest: Table<O>, h: Handle, selfLower: bool,
                                m: map<Handle, Entry<O>>, n: map<Handle, Entry<O>>)
    requires WellFormed(self) && WellFormed(dest) && Agrees(self, m) && Agrees(dest, n)
    ensures var (self', dest', r) := Transfer(self, dest, h, selfLower);
      var into, source := if selfLower then dest else self, if selfLower then m else n;
      && WellFormed(self') && WellFormed(dest')
      && match r
         case Ok(g) =>
           if selfLower
           then h in m && g !in n && Agrees(self', m - {h}) && Agrees(dest', n[g := m[h]])
           else h in n && g !in m && Agrees(dest', n - {h}) && Agrees(self', m[g := n[h]])
         case Err(error) =>
           && self' == self && dest' == dest
           && (error == InvalidHandle <==> h !in source)
           && (error == AccessDenied <==> h in source && source[h].rights.bits & 0x20 == 0)
           && (error == TableFull <==> h in source && source[h].rights.bits & 0x20 != 0 && into.count == |into.slots|)
  {
    hide WellFormed, Agrees, Move;
    if selfLower {
      MoveAgrees(self, dest, h, m, n);
    } else {
      MoveAgrees(dest, self, h, n, m);
    }
  }

  /**
   The documented transfer moves the handle from self to dest. The code does that for every pair of
   tables and every handle if and only if self is at the lower address.
   */
  lemma TransferDirection(selfLower: bool)
    ensures (forall self: Table<nat>, dest: Table<nat>, h: Handle | WellFormed(self) && WellFormed(dest) ::
               Transfer(self, dest, h, selfLower) == Move(self, dest, h)) <==> selfLower
  {
    if !selfLower {
      var empty := Fresh<nat>(1);
      FreshWellFormed<nat>(1);
      var (one, r) := Create(empty, 7, ALL);
      InsertAgrees(empty, Entry(7, ALL, ALL), map[]);
      HeadInRange(empty);
      assert r == Ok(HandleOf(empty, 0));
      var h := r.value;
      assert Lookup(one, h) == Ok(Entry(7, ALL, ALL)) && Lookup(empty, h).Err?;
      assert ALL.Contains(TRANSFER);
      assert Move(one, empty, h).2.Ok?;
      assert Transfer(one, empty, h, false).2 == Err(InvalidHandle);
    }
  }

  // ---- generations ----

  /** History of one table: how often each slot's generation was bumped, and every handle issued. */
  datatype Ledger = Ledger(bumps: seq<nat>, issued: set<Handle>)

  /** Slot idx has issued, or is about to have issued, generation g within its first n incarnations. */
  ghost predicate InIncarnation(g: nat, n: nat) {
    exists k: nat :: k < n && g == k % WORD
  }

  function Incarnations<O>(t: Table<O>, l: Ledger, i: nat): nat
    requires i < |t.slots| == |l.bumps|
  {
    l.bumps[i] + Occupied(t.slots[i])
  }

  ghost predicate Recorded<O>(t: Table<O>, l: Ledger) {
    && |l.bumps| == |t.slots|
    && (forall i :: 0 <= i < |t.slots| ==> t.slots[i].generation == l.bumps[i] % WORD)
    && (forall h: Handle :: h in l.issued <==>
          Index(h) < |t.slots| && InIncarnation(Generation(h), Incarnations(t, l, Index(h))))
  }

  lemma FreshRecorded<O>(capacity: nat)
    ensures Recorded(Fresh<O>(capacity), Ledger(seq(capacity, i => 0), {}))
  {
  }

  lemma OneMore(g: nat, n: nat)
    ensures InIncarnation(g, n + 1) <==> InIncarnation(g, n) || g == n % WORD
  {
    if InIncarnation(g, n) {
      var k: nat :| k < n && g == k % WORD;
      assert k < n + 1;
    }
  }

  /** The n-th incarnation repeats an earlier generation exactly when the 32-bit counter has wrapped. */
  lemma RepeatsIffWrapped(n: nat)
    ensures InIncarnation(n % WORD, n) <==> n >= WORD
  {
    if n >= WORD {
      var k: nat := n - WORD;
      assert k < n && k % WORD == n % WORD;
    }
  }

  /**
   The handle the next create, duplicate or incoming transfer issues was issued before if and only
   if its slot has been emptied at least 2^32 times.
   */
  lemma ReissuedIffWrapped<O>(t: Table<O>, l: Ledger)
    requires WellFormed(t) && Recorded(t, l) && t.freeHead.Some?
    ensures t.freeHead.value < |l.bumps|
    ensures HandleOf(t, t.freeHead.value) in l.issued <==> l.bumps[t.freeHead.value] >= 0x1_0000_0000
  {
    HeadInRange(t);
    RepeatsIffWrapped(l.bumps[t.freeHead.value]);
  }

  /** A handle of an empty slot, which close accepts, was issued before exactly when the slot has wrapped. */
  lemma ClosedEmptyIssuedIffWrapped<O>(t: Table<O>, l: Ledger, h: Handle)
    requires WellFormed(t) && Recorded(t, l) && NamesEmptySlot(t, h)
    ensures Index(h) < |l.bumps| && (h in l.issued <==> l.bumps[Index(h)] >= 0x1_0000_0000)
  {
    var i :| 0 <= i < |t.slots| && t.slots[i].entry.None? && h == HandleOf(t, i);
    RepeatsIffWrapped(l.bumps[i]);
  }

  lemma AllocRecorded<O>(t: Table<O>, e: Entry<O>, l: Ledger)
    requires WellFormed(t) && Recorded(t, l) && t.freeHead.Some?
    ensures t.freeHead.value < |t.slots| < WORD
    ensures Recorded(Alloc(t, e), l.(issued := l.issued + {HandleOf(t, t.freeHead.value)}))
  {
    HeadInRange(t);
    var idx := t.freeHead.value;
    var t', h := Alloc(t, e), HandleOf(t, idx);
    var l' := l.(issued := l.issued + {h});
    forall g: Handle ensures g in l'.issued <==>
      Index(g) < |t'.slots| && InIncarnation(Generation(g), Incarnations(t', l', Index(g)))
    {
      if Index(g) == idx {
        OneMore(Generation(g), l.bumps[idx]);
        if Generation(g) == Generation(h) {
          SameHandle(g, h);
        }
      }
    }
  }

  lemma BumpCounts(n: nat)
    ensures Bump(n % WORD) == (n + 1) % WORD
  {
  }

  /** Emptying a slot ends its incarnation, so the number of them so far stays what it was. */
  lemma FreeIncarnations<O>(t: Table<O>, idx: nat, l: Ledger, i: nat)
    requires |l.bumps| == |t.slots| && idx < |t.slots| && t.slots[idx].entry.Some? && t.count > 0 && i < |t.slots|
    ensures Incarnations(Free(t, idx), l.(bumps := l.bumps[idx := l.bumps[idx] + 1]), i) == Incarnations(t, l, i)
  {
  }

  lemma FreeRecorded<O>(t: Table<O>, idx: nat, l: Ledger)
    requires WellFormed(t) && Recorded(t, l) && idx < |t.slots| && t.slots[idx].entry.Some?
    ensures t.count > 0 && idx < |l.bumps| && Recorded(Free(t, idx), l.(bumps := l.bumps[idx := l.bumps[idx] + 1]))
  {
    hide WellFormed, InIncarnation, Tally, Incarnations;
    CountPositive(t, idx);
    BumpCounts(l.bumps[idx]);
    forall i: nat | i < |t.slots|
      ensures Incarnations(Free(t, idx), l.(bumps := l.bumps[idx := l.bumps[idx] + 1]), i) == Incarnations(t, l, i)
    {
      FreeIncarnations(t, idx, l, i);
    }
  }

  /** A handle whose incarnation is over. */
  ghost predicate Retired(l: Ledger, h: Handle) {
    Index(h) < |l.bumps| && InIncarnation(Generation(h), l.bumps[Index(h)])
  }

  /** While its slot has been emptied fewer than 2^32 times, a retired handle is refused everywhere. */
  lemma RetiredIsRefused<O>(t: Table<O>, other: Table<O>, l: Ledger, h: Handle, rights: Rights)
    requires WellFormed(t) && WellFormed(other) && Recorded(t, l) && Retired(l, h) && l.bumps[Index(h)] < 0x1_0000_0000
    ensures Lookup(t, h) == Err(InvalidHandle)
    ensures Duplicate(t, h, rights) == (t, Err(InvalidHandle))
    ensures Close(t, h) == (t, Err(InvalidHandle))
    ensures Move(t, other, h) == (t, other, Err(InvalidHandle))
  {
    EarlierDiffers(Generation(h), l.bumps[Index(h)]);
    hide InIncarnation, Tally;
  }

  lemma EarlierDiffers(g: nat, n: nat)
    requires InIncarnation(g, n) && n < WORD
    ensures g != n % WORD
  {
  }
}
