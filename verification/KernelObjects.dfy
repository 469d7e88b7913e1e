/** The handle table and the object header in their own form, proved against the table on values. */
module KernelObjects {
  import Spec = HandleTable
  import SpecProofs = HandleTableProofs
  import opened Options
  import opened Rights

  class ObjectHeader {
    var refcount: nat
    var destroyed: nat   // how often on_destroy ran

    constructor ()
      ensures refcount == 1 && destroyed == 0
    {
      refcount, destroyed := 1, 0;
    }

    method AddRef()
      modifies `refcount
      ensures refcount == old(refcount) + 1
    {
      refcount := refcount + 1;
    }

    /** Returns the previous count. */
    method Release() returns (before: nat)
      requires refcount > 0
      modifies `refcount
      ensures before == old(refcount) && refcount == before - 1
    {
      before := refcount;
      refcount := refcount - 1;
    }

    /** Drop of one reference: the last one destroys the object. */
    method DropRef()
      requires refcount > 0
      modifies this
      ensures refcount == old(refcount) - 1
      ensures destroyed == old(destroyed) + if refcount == 0 then 1 else 0
    {
      var before := Release();
      if before == 1 {
        destroyed := destroyed + 1;
      }
    }
  }

  type Entry = Spec.Entry<ObjectHeader>
  type Slot = Spec.Slot<ObjectHeader>
  type Table = Spec.Table<ObjectHeader>

  ghost predicate IsInsert(t: Table, e: Entry, t': Table, r: Spec.Result<Spec.Handle>) {
    Spec.WellFormed(t) && Spec.WellFormed(t') && (t', r) == Spec.Insert(t, e)
  }

  ghost predicate IsCreate(t: Table, ko: ObjectHeader, rights: Rights, t': Table, r: Spec.Result<Spec.Handle>) {
    Spec.WellFormed(t) && (t', r) == Spec.Create(t, ko, rights)
  }

  ghost predicate IsDuplicate(t: Table, h: Spec.Handle, rights: Rights, t': Table, r: Spec.Result<Spec.Handle>) {
    Spec.WellFormed(t) && (t', r) == Spec.Duplicate(t, h, rights)
  }

  ghost predicate IsClose(t: Table, h: Spec.Handle, t': Table, r: Spec.Result<()>) {
    Spec.WellFormed(t) && (t', r) == Spec.Close(t, h)
  }

  ghost predicate IsMove(first: Table, second: Table, h: Spec.Handle,
                         first': Table, second': Table, r: Spec.Result<Spec.Handle>) {
    Spec.WellFormed(first) && Spec.WellFormed(second) && (first', second', r) == Spec.Move(first, second, h)
  }

  ghost predicate IsTransfer(self: Table, dest: Table, h: Spec.Handle, selfLower: bool,
                             self': Table, dest': Table, r: Spec.Result<Spec.Handle>) {
    && Spec.WellFormed(self) && Spec.WellFormed(dest)
    && (self', dest', r) == Spec.Transfer(self, dest, h, selfLower)
  }

  class HandleTable {
    var slots: seq<Slot>
    var freeHead: Option<nat>
    var count: nat

    ghost function State(): Table
      reads this
    {
      Spec.Table(slots, freeHead, count)
    }

    ghost predicate Valid()
      reads this
    {
      Spec.WellFormed(State())
    }

    /** The object a handle leads to, if any. */
    ghost function Target(h: Spec.Handle): ObjectHeader?
      reads this
    {
      match Spec.Lookup(State(), h)
      case Ok(e) => e.obj
      case Err(_) => null
    }

    constructor (capacity: nat)
      ensures State() == Spec.Fresh(capacity)
      ensures Valid() <==> 1 <= capacity < 0x1_0000_0000
    {
      var built: seq<Slot> := [];
      var i := 0;
      while i < capacity
        invariant 0 <= i <= capacity && |built| == i
        invariant forall j :: 0 <= j < i ==> built[j] == Spec.Slot(0, None, Spec.LinkAfter(j, capacity))
      {
        built := built + [Spec.Slot(0, None, if i + 1 < capacity then Some(i + 1) else None)];
        i := i + 1;
      }
      slots, freeHead, count := built, Some(0), 0;
      new;
      Spec.FreshWellFormed<ObjectHeader>(capacity);
      assert slots == Spec.Fresh<ObjectHeader>(capacity).slots;
    }

    /** Pop the free list and put an entry in the slot. */
    method Insert(e: Entry) returns (r: Spec.Result<Spec.Handle>)
      requires Valid()
      modifies this
      ensures Valid() && IsInsert(old(State()), e, State(), r)
    {
      hide Spec.WellFormed;
      if freeHead.None? {
        return Spec.Err(Spec.TableFull);
      }
      Spec.HeadInRange(State());
      SpecProofs.AllocWellFormed(State(), e);
      var idx := freeHead.value;
      var slot := slots[idx];
      freeHead := slot.nextFree;
      slots := slots[idx := slot.(nextFree := None)];
      var gen := slots[idx].generation;
      slots := slots[idx := slots[idx].(entry := Some(e))];
      count := count + 1;
      r := Spec.Ok(Spec.Pack(gen, idx));
      assert slots == Spec.Alloc(old(State()), e).slots;
    }

    /** Empty a slot, bump its generation, and link it at the head of the free list. */
    method Vacate(idx: nat)
      requires Valid() && idx < |slots| && slots[idx].entry.Some?
      modifies this
      ensures old(count) > 0 && Valid() && State() == Spec.Free(old(State()), idx)
    {
      hide Spec.WellFormed, Spec.Bump;
      SpecProofs.FreeWellFormed(State(), idx);
      slots := slots[idx := slots[idx].(entry := None)];
      slots := slots[idx := slots[idx].(generation := Spec.Bump(slots[idx].generation))];
      count := count - 1;
      slots := slots[idx := slots[idx].(nextFree := freeHead)];
      freeHead := Some(idx);
      assert slots == Spec.Free(old(State()), idx).slots;
    }

    /** Takes over the caller's reference; on a full table that reference is dropped. */
    method Create(ko: ObjectHeader, rights: Rights) returns (r: Spec.Result<Spec.Handle>)
      requires Valid() && ko.refcount > 0
      modifies this, ko
      ensures Valid() && IsCreate(old(State()), ko, rights, State(), r)
      ensures r.Ok? ==> ko.refcount == old(ko.refcount) && ko.destroyed == old(ko.destroyed)
      ensures r.Err? ==> ko.refcount == old(ko.refcount) - 1
      ensures r.Err? ==> ko.destroyed == old(ko.destroyed) + if ko.refcount == 0 then 1 else 0
    {
      r := Insert(Spec.Entry(ko, rights, rights));
      if r.Err? {
        ko.DropRef();
      }
    }

    /** A clone of the reference and the rights, when the handle is live. */
    method Get(h: Spec.Handle) returns (r: Option<(ObjectHeader, Rights)>)
      modifies Target(h)
      ensures State() == old(State())
      ensures r.Some? <==> Spec.Lookup(State(), h).Ok?
      ensures r.Some? ==>
        && r.value == (Spec.Lookup(State(), h).value.obj, Spec.Lookup(State(), h).value.rights)
        && r.value.0.refcount == old(r.value.0.refcount) + 1 && r.value.0.destroyed == old(r.value.0.destroyed)
    {
      var idx, gen := Spec.Index(h), Spec.Generation(h);
      if idx >= |slots| || slots[idx].generation != gen || slots[idx].entry.None? {
        return None;
      }
      var e := slots[idx].entry.value;
      e.obj.AddRef();
      r := Some((e.obj, e.rights));
    }

    /** A second handle for the same object, with no right the first lacks. */
    method Duplicate(h: Spec.Handle, rights: Rights) returns (r: Spec.Result<Spec.Handle>)
      requires Valid()
      modifies this, Target(h)
      ensures Valid() && IsDuplicate(old(State()), h, rights, State(), r)
      ensures var o := old(Target(h)); o != null ==>
        o.refcount == old(o.refcount) + (if r.Ok? then 1 else 0) && o.destroyed == old(o.destroyed)
    {
      var idx, gen := Spec.Index(h), Spec.Generation(h);
      if idx >= |slots| || slots[idx].generation != gen || slots[idx].entry.None? {
        return Spec.Err(Spec.InvalidHandle);
      }
      var e := slots[idx].entry.value;
      if !e.rights.Contains(DUPLICATE) {
        return Spec.Err(Spec.AccessDenied);
      }
      hide Spec.WellFormed, Spec.Insert, Both;
      r := Insert(Spec.Entry(e.obj, e.rights.Downgrade(rights), e.granted));
      if r.Ok? {
        e.obj.AddRef();
      }
    }

    /** Empties a live handle's slot and drops its reference. */
    method Close(h: Spec.Handle) returns (r: Spec.Result<()>)
      requires Valid() && (Target(h) != null ==> Target(h).refcount > 0)
      modifies this, Target(h)
      ensures Valid() && IsClose(old(State()), h, State(), r)
      ensures var o := old(Target(h)); o != null ==>
        o.refcount == old(o.refcount) - 1 && o.destroyed == old(o.destroyed) + if o.refcount == 0 then 1 else 0
    {
      var idx, gen := Spec.Index(h), Spec.Generation(h);
      if idx >= |slots| || slots[idx].generation != gen {
        return Spec.Err(Spec.InvalidHandle);
      }
      if slots[idx].entry.Some? {
        var o := slots[idx].entry.value.obj;
        Vacate(idx);
        o.DropRef();
      }
      r := Spec.Ok(());
    }

    /**
     The body of transfer, on the table locked first: clone, insert into the other table, then empty
     the slot here. A full destination drops the clone.
     */
    method MoveTo(h: Spec.Handle, second: HandleTable) returns (r: Spec.Result<Spec.Handle>)
      requires Valid() && second.Valid() && this != second
      requires Target(h) != null ==> Target(h).refcount > 0
      modifies this, second, Target(h)
      ensures Valid() && second.Valid()
      ensures IsMove(old(State()), old(second.State()), h, State(), second.State(), r)
      ensures var o := old(Target(h)); o != null ==>
        o.refcount == old(o.refcount) && o.destroyed == old(o.destroyed)
    {
      var idx, gen := Spec.Index(h), Spec.Generation(h);
      if idx >= |slots| || slots[idx].generation != gen || slots[idx].entry.None? {
        return Spec.Err(Spec.InvalidHandle);
      }
      var e := slots[idx].entry.value;
      if !e.rights.Contains(TRANSFER) {
        return Spec.Err(Spec.AccessDenied);
      }
      hide Spec.WellFormed, Spec.Insert, Spec.Free, Both;
      e.obj.AddRef();
      r := second.Insert(e);
      if r.Ok? {
        Vacate(idx);
      }
      e.obj.DropRef();
    }

    /** Both tables are locked, the one at the lower address first; the handle is looked up in that one. */
    method Transfer(h: Spec.Handle, dest: HandleTable, selfLower: bool) returns (r: Spec.Result<Spec.Handle>)
      requires Valid() && dest.Valid() && this != dest
      requires selfLower && Target(h) != null ==> Target(h).refcount > 0
      requires !selfLower && dest.Target(h) != null ==> dest.Target(h).refcount > 0
      modifies this, dest, if selfLower then Target(h) else dest.Target(h)
      ensures Valid() && dest.Valid()
      ensures IsTransfer(old(State()), old(dest.State()), h, selfLower, State(), dest.State(), r)
      ensures var o := old(if selfLower then Target(h) else dest.Target(h)); o != null ==>
        o.refcount == old(o.refcount) && o.destroyed == old(o.destroyed)
    {
      hide Spec.WellFormed, Spec.Move;
      if selfLower {
        r := MoveTo(h, dest);
      } else {
        r := dest.MoveTo(h, this);
      }
    }
  }
}
