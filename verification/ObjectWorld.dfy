/**
 Several handle tables sharing reference-counted objects. Every table carries its plain map of
 live handles and its ledger; every object its count, the references held outside the tables, and
 how often on_destroy ran.
 */
module ObjectWorld {
  import opened HandleTable
  import opened HandleTableProofs
  import opened Numbers
  import opened Options
  import opened Rights

  type Obj = nat

  /** A table, the plain map it stands for, and its history. */
  datatype Tab = Tab(table: Table<Obj>, live: map<Handle, Entry<Obj>>, ledger: Ledger)

  datatype Object = Object(refs: nat, outside: nat, destroyed: nat)

  datatype World = World(tabs: seq<Tab>, objects: map<Obj, Object>)

  datatype Op =
    | NewObject(o: Obj)
    | CloneRef(o: Obj)                 // KoRef::new or clone, from a reference held outside
    | DropRef(o: Obj)                  // drop of a reference held outside
    | Create(k: nat, o: Obj, rights: Rights)  // takes over a reference held outside
    | Get(k: nat, h: Handle)
    | Duplicate(k: nat, h: Handle, rights: Rights)
    | Close(k: nat, h: Handle)
    | Transfer(self: nat, dest: nat, h: Handle, selfLower: bool)

  ghost predicate Enabled(w: World, op: Op) {
    match op
    case NewObject(o) => o !in w.objects
    case CloneRef(o) => o in w.objects && w.objects[o].outside > 0
    case DropRef(o) => o in w.objects && w.objects[o].outside > 0
    case Create(k, o, _) => k < |w.tabs| && o in w.objects && w.objects[o].outside > 0
    case Get(k, _) => k < |w.tabs|
    case Duplicate(k, _, _) => k < |w.tabs|
    case Close(k, _) => k < |w.tabs|
    case Transfer(a, b, _, _) => a < |w.tabs| && b < |w.tabs| && a != b
  }

  // ---- reference counts ----

  /** ObjectHeader::add_ref. */
  function AddRef(w: World, o: Obj): World
    requires o in w.objects
  {
    w.(objects := w.objects[o := w.objects[o].(refs := w.objects[o].refs + 1)])
  }

  /** Drop of a KoRef: release, and on_destroy when the previous count was 1. */
  function Release(w: World, o: Obj): World
    requires o in w.objects && w.objects[o].refs > 0
  {
    var c := w.objects[o];
    w.(objects := w.objects[o :=
      Object(c.refs - 1, c.outside, c.destroyed + if c.refs == 1 then 1 else 0)])
  }

  function Outside(w: World, o: Obj, more: int): World
    requires o in w.objects && w.objects[o].outside + more >= 0
  {
    w.(objects := w.objects[o := w.objects[o].(outside := w.objects[o].outside + more)])
  }

  // ---- tables with their histories ----

  function Issued(tab: Tab, t: Table<Obj>, h: Handle, e: Entry<Obj>): Tab {
    Tab(t, tab.live[h := e], tab.ledger.(issued := tab.ledger.issued + {h}))
  }

  function Emptied(tab: Tab, t: Table<Obj>, h: Handle): Tab {
    var idx := Index(h);
    var bumps := tab.ledger.bumps;
    Tab(t, tab.live - {h},
        tab.ledger.(bumps := if idx < |bumps| then bumps[idx := bumps[idx] + 1] else bumps))
  }

  function SetTab(w: World, k: nat, tab: Tab): World
    requires k < |w.tabs|
  {
    w.(tabs := w.tabs[k := tab])
  }

  // ---- the invariant ----

  function Names(o: Obj): Slot<Obj> -> nat {
    (slot: Slot<Obj>) => if slot.entry.Some? && slot.entry.value.obj == o then 1 else 0
  }

  /** How many entries of a table name an object. */
  function NamedIn(t: Table<Obj>, o: Obj): nat {
    Tally(t.slots, Names(o))
  }

  function NamedInTab(o: Obj): Tab -> nat {
    (tab: Tab) => NamedIn(tab.table, o)
  }

  function Named(tabs: seq<Tab>, o: Obj): nat {
    Tally(tabs, NamedInTab(o))
  }

  ghost predicate RightsOk(t: Table<Obj>) {
    forall i :: 0 <= i < |t.slots| && t.slots[i].entry.Some? ==>
      t.slots[i].entry.value.granted.Contains(t.slots[i].entry.value.rights)
  }

  ghost predicate TabOk(tab: Tab) {
    && WellFormed(tab.table) && Agrees(tab.table, tab.live) && Recorded(tab.table, tab.ledger)
    && RightsOk(tab.table)
  }

  ghost predicate Known(t: Table<Obj>, objects: map<Obj, Object>) {
    forall i :: 0 <= i < |t.slots| && t.slots[i].entry.Some? ==> t.slots[i].entry.value.obj in objects
  }

  ghost predicate CountOk(c: Object, named: nat) {
    c.refs == c.outside + named && c.destroyed == if c.refs == 0 then 1 else 0
  }

  ghost predicate Inv(w: World) {
    && (forall k :: 0 <= k < |w.tabs| ==> TabOk(w.tabs[k]) && Known(w.tabs[k].table, w.objects))
    && (forall o <- w.objects :: CountOk(w.objects[o], Named(w.tabs, o)))
  }

  // ---- one step ----

  function Apply(w: World, op: Op): World
    requires Inv(w) && Enabled(w, op)
  {
    match op
    case NewObject(o) => NoNames(w, o); w.(objects := w.objects[o := Object(1, 1, 0)])
    case CloneRef(o) => Outside(AddRef(w, o), o, 1)
    case DropRef(o) => Release(Outside(w, o, -1), o)
    case Create(k, o, rights) =>
      var (t, r) := HandleTable.Create(w.tabs[k].table, o, rights);
      if r.Ok?
      then SetTab(Outside(w, o, -1), k, Issued(w.tabs[k], t, r.value, Entry(o, rights, rights)))
      else Release(Outside(w, o, -1), o)
    case Get(k, h) => (
      match Lookup(w.tabs[k].table, h)
      case Ok(e) => EntryKnown(w, k, h); Outside(AddRef(w, e.obj), e.obj, 1)
      case Err(_) => w)
    case Duplicate(k, h, rights) => (
      var (t, r) := HandleTable.Duplicate(w.tabs[k].table, h, rights);
      match r
      case Ok(g) =>
        EntryKnown(w, k, h);
        var e := Lookup(w.tabs[k].table, h).value;
        SetTab(AddRef(w, e.obj), k, Issued(w.tabs[k], t, g, e.(rights := e.rights.Downgrade(rights))))
      case Err(_) => w)
    case Close(k, h) => (
      var (t, r) := HandleTable.Close(w.tabs[k].table, h);
      match Lookup(w.tabs[k].table, h)
      case Ok(e) => EntryKnown(w, k, h); Release(SetTab(w, k, Emptied(w.tabs[k], t, h)), e.obj)
      case Err(_) => w)
    case Transfer(a, b, h, selfLower) =>
      var first, second := if selfLower then a else b, if selfLower then b else a;
      MoveApply(w, first, second, h)
  }

  /** Clone the reference; on a full destination drop the clone, otherwise drop the source's. */
  function MoveApply(w: World, first: nat, second: nat, h: Handle): World
    requires Inv(w) && first < |w.tabs| && second < |w.tabs| && first != second
  {
    var (s, d, r) := Move(w.tabs[first].table, w.tabs[second].table, h);
    match Lookup(w.tabs[first].table, h)
    case Err(_) => w
    case Ok(e) =>
      if !e.rights.Contains(TRANSFER) then w
      else
        EntryKnown(w, first, h);
        var w1 := AddRef(w, e.obj);
        match r
        case Err(_) => Release(w1, e.obj)
        case Ok(g) =>
          var w2 := SetTab(w1, second, Issued(w.tabs[second], d, g, e));
          Release(SetTab(w2, first, Emptied(w.tabs[first], s, h)), e.obj)
  }

  // ---- lemmas ----

  lemma EntryKnown(w: World, k: nat, h: Handle)
    requires Inv(w) && k < |w.tabs| && Lookup(w.tabs[k].table, h).Ok?
    ensures var e := Lookup(w.tabs[k].table, h).value;
      && e.obj in w.objects && w.objects[e.obj].refs > 0 && NamedIn(w.tabs[k].table, e.obj) > 0
      && e.granted.Contains(e.rights)
  {
    var e := Lookup(w.tabs[k].table, h).value;
    TallyPositive(w.tabs[k].table.slots, Index(h), Names(e.obj));
    TallyPositive(w.tabs, k, NamedInTab(e.obj));
  }

  lemma {:induction false} NoNamesIn(s: seq<Slot<Obj>>, o: Obj)
    requires forall i :: 0 <= i < |s| && s[i].entry.Some? ==> s[i].entry.value.obj != o
    ensures Tally(s, Names(o)) == 0
  {
    if s != [] {
      NoNamesIn(s[..|s| - 1], o);
    }
  }

  lemma {:induction false} NoNamesInTabs(tabs: seq<Tab>, o: Obj)
    requires forall k :: 0 <= k < |tabs| ==> NamedIn(tabs[k].table, o) == 0
    ensures Named(tabs, o) == 0
  {
    if tabs != [] {
      NoNamesInTabs(tabs[..|tabs| - 1], o);
    }
  }

  lemma NoNames(w: World, o: Obj)
    requires Inv(w) && o !in w.objects
    ensures Named(w.tabs, o) == 0
  {
    forall k | 0 <= k < |w.tabs| ensures NamedIn(w.tabs[k].table, o) == 0 {
      assert Known(w.tabs[k].table, w.objects);
      NoNamesIn(w.tabs[k].table.slots, o);
    }
    NoNamesInTabs(w.tabs, o);
  }

  /** Inserting an entry keeps the table's books and adds one name. */
  lemma IssueOk(tab: Tab, e: Entry<Obj>)
    requires TabOk(tab) && e.granted.Contains(e.rights)
    ensures var (t, r) := Insert(tab.table, e);
      match r
      case Err(_) => t == tab.table
      case Ok(h) =>
        && TabOk(Issued(tab, t, h, e))
        && (forall o :: NamedIn(t, o) == NamedIn(tab.table, o) + if e.obj == o then 1 else 0)
        && (forall objects: map<Obj, Object> :: Known(tab.table, objects) && e.obj in objects ==> Known(t, objects))
  {
    InsertAgrees(tab.table, e, tab.live);
    if tab.table.freeHead.Some? {
      AllocRecorded(tab.table, e, tab.ledger);
      hide WellFormed, Agrees, Recorded, Both;
      var idx := tab.table.freeHead.value;
      var t := Alloc(tab.table, e);
      HeadInRange(tab.table);
      forall o ensures NamedIn(t, o) == NamedIn(tab.table, o) + if e.obj == o then 1 else 0 {
        TallyUpdate(tab.table.slots, idx, t.slots[idx], Names(o));
      }
    }
  }

  lemma FreeNames(t: Table<Obj>, idx: nat)
    requires idx < |t.slots| && t.slots[idx].entry.Some? && t.count > 0
    ensures forall o :: NamedIn(Free(t, idx), o) ==
                        NamedIn(t, o) - if t.slots[idx].entry.value.obj == o then 1 else 0
  {
    hide Tally;
    var t' := Free(t, idx);
    forall o ensures NamedIn(t', o) == NamedIn(t, o) - if t.slots[idx].entry.value.obj == o then 1 else 0 {
      TallyUpdate(t.slots, idx, t'.slots[idx], Names(o));
    }
  }

  lemma FreeRights(t: Table<Obj>, idx: nat)
    requires RightsOk(t) && idx < |t.slots| && t.count > 0
    ensures RightsOk(Free(t, idx))
    ensures forall objects: map<Obj, Object> :: Known(t, objects) ==> Known(Free(t, idx), objects)
  {
    hide Both;
  }

  /** Emptying a live handle's slot keeps the table's books and removes one name. */
  lemma EmptyOk(tab: Tab, h: Handle)
    requires TabOk(tab) && Lookup(tab.table, h).Ok?
    ensures tab.table.count > 0
    ensures var t, e := Free(tab.table, Index(h)), Lookup(tab.table, h).value;
      && TabOk(Emptied(tab, t, h))
      && (forall o :: NamedIn(t, o) == NamedIn(tab.table, o) - if e.obj == o then 1 else 0)
      && (forall objects: map<Obj, Object> :: Known(tab.table, objects) ==> Known(t, objects))
  {
    hide WellFormed, Agrees, Recorded, NamedIn, RightsOk, Known, HandleTable.Free, HandleTable.Lookup, Index;
    var t, idx := tab.table, Index(h);
    LiveLookup(t, tab.live, h);
    FreeAgrees(t, h, tab.live);
    FreeRecorded(t, idx, tab.ledger);
    FreeNames(t, idx);
    FreeRights(t, idx);
    assert Emptied(tab, Free(t, idx), h) ==
      Tab(Free(t, idx), tab.live - {h}, tab.ledger.(bumps := tab.ledger.bumps[idx := tab.ledger.bumps[idx] + 1]));
  }

  lemma LiveLookup(t: Table<Obj>, m: map<Handle, Entry<Obj>>, h: Handle)
    requires Agrees(t, m) && Lookup(t, h).Ok?
    ensures h in m && m[h] == Lookup(t, h).value
    ensures Index(h) < |t.slots| && t.slots[Index(h)].entry == Some(m[h])
  {
  }

  /** Replacing one table changes the number of names by what that table changed. */
  lemma NamedUpdate(tabs: seq<Tab>, k: nat, tab: Tab, o: Obj)
    requires k < |tabs|
    ensures Named(tabs[k := tab], o) + NamedIn(tabs[k].table, o) == Named(tabs, o) + NamedIn(tab.table, o)
  {
    TallyUpdate(tabs, k, tab, NamedInTab(o));
  }

  lemma RefOpsKeep(w: World, op: Op)
    requires Inv(w) && Enabled(w, op) && (op.NewObject? || op.CloneRef? || op.DropRef? || op.Get?)
    ensures Inv(Apply(w, op))
  {
    hide TabOk;
    if op.NewObject? {
      NoNames(w, op.o);
    } else if op.Get? && Lookup(w.tabs[op.k].table, op.h).Ok? {
      EntryKnown(w, op.k, op.h);
    }
  }

  /** One table changes by d names of object o, and the counts follow. */
  lemma TabChange(w: World, k: nat, tab: Tab, objects: map<Obj, Object>, o: Obj, d: int)
    requires Inv(w) && k < |w.tabs| && TabOk(tab) && Known(tab.table, objects)
    requires objects.Keys == w.objects.Keys
    requires forall p :: NamedIn(tab.table, p) == NamedIn(w.tabs[k].table, p) + if p == o then d else 0
    requires forall p <- objects :: p != o ==> objects[p] == w.objects[p]
    requires o in objects && objects[o].refs - objects[o].outside == w.objects[o].refs - w.objects[o].outside + d
    requires objects[o].destroyed == if objects[o].refs == 0 then 1 else 0
    ensures Inv(World(w.tabs[k := tab], objects))
    ensures forall p :: Named(w.tabs[k := tab], p) == Named(w.tabs, p) + if p == o then d else 0
  {
    hide TabOk, Named;
    forall p ensures Named(w.tabs[k := tab], p) == Named(w.tabs, p) + if p == o then d else 0 {
      NamedUpdate(w.tabs, k, tab, p);
    }
    var w' := World(w.tabs[k := tab], objects);
    forall j | 0 <= j < |w'.tabs| ensures TabOk(w'.tabs[j]) && Known(w'.tabs[j].table, objects) {
      assert j != k ==> TabOk(w.tabs[j]) && Known(w.tabs[j].table, w.objects);
    }
    forall p <- objects ensures CountOk(objects[p], Named(w'.tabs, p)) {
      assert CountOk(w.objects[p], Named(w.tabs, p));
    }
  }

  lemma Books(w: World, k: nat)
    requires Inv(w) && k < |w.tabs|
    ensures WellFormed(w.tabs[k].table) && TabOk(w.tabs[k]) && Known(w.tabs[k].table, w.objects)
    ensures forall o <- w.objects :: CountOk(w.objects[o], Named(w.tabs, o))
  {
  }

  /** Dropping a reference held outside the tables. */
  lemma DropOutside(w: World, o: Obj)
    requires Inv(w) && o in w.objects && w.objects[o].outside > 0
    ensures w.objects[o].refs > 0 && Inv(Release(Outside(w, o, -1), o))
  {
    hide TabOk, Named;
    assert CountOk(w.objects[o], Named(w.tabs, o));
  }

  lemma CreateKeeps(w: World, k: nat, o: Obj, rights: Rights)
    requires Inv(w) && Enabled(w, Create(k, o, rights))
    ensures Inv(Apply(w, Create(k, o, rights)))
  {
    var e := Entry(o, rights, rights);
    Books(w, k);
    hide Inv, TabOk, Known, Named, NamedIn, HandleTable.Insert, WellFormed, Both, Tally;
    ContainsReflexive(rights);
    IssueOk(w.tabs[k], e);
    var (t, r) := Insert(w.tabs[k].table, e);
    if r.Ok? {
      TabChange(w, k, Issued(w.tabs[k], t, r.value, e), Outside(w, o, -1).objects, o, 1);
    } else {
      DropOutside(w, o);
    }
  }

  /** A clone of a reference goes into a table: the common part of duplicate and transfer. */
  function Cloned(w: World, k: nat, e: Entry<Obj>): (r: World)
    requires k < |w.tabs| && WellFormed(w.tabs[k].table) && e.obj in w.objects
    ensures |r.tabs| == |w.tabs| && r.objects.Keys == w.objects.Keys
  {
    var (t, res) := Insert(w.tabs[k].table, e);
    if res.Ok? then SetTab(AddRef(w, e.obj), k, Issued(w.tabs[k], t, res.value, e)) else w
  }

  /** A live handle's slot is emptied and its reference dropped: the common part of close and transfer. */
  function Dropped(w: World, k: nat, h: Handle): World
    requires k < |w.tabs| && Index(h) < |w.tabs[k].table.slots| && w.tabs[k].table.count > 0
    requires Lookup(w.tabs[k].table, h).Ok? && Lookup(w.tabs[k].table, h).value.obj in w.objects
    requires w.objects[Lookup(w.tabs[k].table, h).value.obj].refs > 0
  {
    var e := Lookup(w.tabs[k].table, h).value;
    Release(SetTab(w, k, Emptied(w.tabs[k], Free(w.tabs[k].table, Index(h)), h)), e.obj)
  }

  lemma CloneKeeps(w: World, k: nat, e: Entry<Obj>)
    requires Inv(w) && k < |w.tabs| && e.obj in w.objects && w.objects[e.obj].refs > 0 && e.granted.Contains(e.rights)
    ensures WellFormed(w.tabs[k].table)
    ensures Insert(w.tabs[k].table, e).1.Ok? ==>
      && Inv(Cloned(w, k, e))
      && forall p :: Named(Cloned(w, k, e).tabs, p) == Named(w.tabs, p) + if p == e.obj then 1 else 0
  {
    hide Inv, TabOk, Named, NamedIn, WellFormed, Tally, HandleTable.Insert;
    Books(w, k);
    IssueOk(w.tabs[k], e);
    var (t, r) := Insert(w.tabs[k].table, e);
    if r.Ok? {
      TabChange(w, k, Issued(w.tabs[k], t, r.value, e), AddRef(w, e.obj).objects, e.obj, 1);
    }
  }

  lemma DropKeeps(w: World, k: nat, h: Handle)
    requires Inv(w) && k < |w.tabs| && Lookup(w.tabs[k].table, h).Ok?
    ensures var e := Lookup(w.tabs[k].table, h).value;
      && w.tabs[k].table.count > 0 && e.obj in w.objects && w.objects[e.obj].refs > 0
      && Inv(Dropped(w, k, h))
      && forall p :: Named(Dropped(w, k, h).tabs, p) == Named(w.tabs, p) - if p == e.obj then 1 else 0
  {
    hide Inv, TabOk, Named, NamedIn, Free, WellFormed, Tally, Both, Index, Generation;
    Books(w, k);
    EntryKnown(w, k, h);
    EmptyOk(w.tabs[k], h);
    var t, e := Free(w.tabs[k].table, Index(h)), Lookup(w.tabs[k].table, h).value;
    TabChange(w, k, Emptied(w.tabs[k], t, h), Dropped(w, k, h).objects, e.obj, -1);
  }

  lemma DuplicateKeeps(w: World, k: nat, h: Handle, rights: Rights)
    requires Inv(w) && Enabled(w, Duplicate(k, h, rights))
    ensures Inv(Apply(w, Duplicate(k, h, rights)))
  {
    hide Inv, TabOk, Both, WellFormed, Named, NamedIn, HandleTable.Insert, HandleTable.Lookup, Tally;
    if Lookup(w.tabs[k].table, h).Ok? {
      EntryKnown(w, k, h);
      var e := Lookup(w.tabs[k].table, h).value;
      var e' := e.(rights := e.rights.Downgrade(rights));
      DowngradeIsMeet(e.rights, rights, e'.rights);
      ContainsTransitive(e.granted, e.rights, e'.rights);
      CloneKeeps(w, k, e');
    }
  }

  lemma CloseKeeps(w: World, k: nat, h: Handle)
    requires Inv(w) && Enabled(w, Close(k, h))
    ensures Inv(Apply(w, Close(k, h)))
  {
    if Lookup(w.tabs[k].table, h).Ok? {
      EntryKnown(w, k, h);
      DropKeeps(w, k, h);
    }
  }

  /** A move into a full table clones the reference and drops the clone: nothing has changed. */
  lemma FullMoveIsNoOp(w: World, first: nat, second: nat, h: Handle)
    requires Inv(w) && first < |w.tabs| && second < |w.tabs| && first != second
    requires Move(w.tabs[first].table, w.tabs[second].table, h).2.Err?
    ensures MoveApply(w, first, second, h) == w
  {
    hide Inv, TabOk, Both, Named, NamedIn, WellFormed, HandleTable.Insert, HandleTable.Lookup, Tally, Free;
    if Lookup(w.tabs[first].table, h).Ok? && Lookup(w.tabs[first].table, h).value.rights.Contains(TRANSFER) {
      EntryKnown(w, first, h);
      var o := Lookup(w.tabs[first].table, h).value.obj;
      assert Release(AddRef(w, o), o).objects == w.objects;
    }
  }

  /** A successful move clones into the second table, then drops from the first. */
  lemma MoveIsCloneThenDrop(w: World, first: nat, second: nat, h: Handle)
    requires Inv(w) && first < |w.tabs| && second < |w.tabs| && first != second
    requires WellFormed(w.tabs[first].table) && WellFormed(w.tabs[second].table)
    requires Move(w.tabs[first].table, w.tabs[second].table, h).2.Ok?
    ensures var e := Lookup(w.tabs[first].table, h).value;
      && Lookup(w.tabs[first].table, h).Ok? && e.obj in w.objects && w.tabs[first].table.count > 0
      && Insert(w.tabs[second].table, e).1.Ok?
      && (var w1 := Cloned(w, second, e);
          && w1.tabs[first] == w.tabs[first] && w1.objects[e.obj].refs > 0
          && MoveApply(w, first, second, h) == Dropped(w1, first, h))
  {
    hide TabOk, Named, NamedIn, HandleTable.Insert, Both, Inv, WellFormed, Tally, Free, Agrees, Recorded;
    EntryKnown(w, first, h);
    CountPositive(w.tabs[first].table, Index(h));
  }

  lemma CloneThenDropKeeps(w: World, first: nat, second: nat, h: Handle)
    requires Inv(w) && first < |w.tabs| && second < |w.tabs| && Lookup(w.tabs[first].table, h).Ok?
    requires WellFormed(w.tabs[second].table)
    requires var e := Lookup(w.tabs[first].table, h).value;
      && e.obj in w.objects && Insert(w.tabs[second].table, e).1.Ok?
      && Cloned(w, second, e).tabs[first] == w.tabs[first]
    ensures var e := Lookup(w.tabs[first].table, h).value;
      var w1 := Cloned(w, second, e);
      && w1.tabs[first].table.count > 0 && e.obj in w1.objects && w1.objects[e.obj].refs > 0
      && Inv(Dropped(w1, first, h))
      && forall o :: Named(Dropped(w1, first, h).tabs, o) == Named(w.tabs, o)
  {
    hide TabOk, Known, Named, NamedIn, Insert, HandleTable.Lookup, Both, Inv, WellFormed, Tally, Dropped, Cloned;
    EntryKnown(w, first, h);
    var e := Lookup(w.tabs[first].table, h).value;
    CloneKeeps(w, second, e);
    DropKeeps(Cloned(w, second, e), first, h);
  }

  lemma MoveKeeps(w: World, first: nat, second: nat, h: Handle)
    requires Inv(w) && first < |w.tabs| && second < |w.tabs| && first != second
    ensures Inv(MoveApply(w, first, second, h))
    ensures forall o :: Named(MoveApply(w, first, second, h).tabs, o) == Named(w.tabs, o)
  {
    Books(w, first);
    Books(w, second);
    hide TabOk, Known, Named, NamedIn, Insert, HandleTable.Lookup, Both, Inv, WellFormed, Tally, Move;
    hide MoveApply, Dropped, Cloned;
    if Move(w.tabs[first].table, w.tabs[second].table, h).2.Err? {
      FullMoveIsNoOp(w, first, second, h);
    } else {
      MoveIsCloneThenDrop(w, first, second, h);
      CloneThenDropKeeps(w, first, second, h);
    }
  }

  // ---- conservation of entries ----

  function IsHeld(o: Obj, r: Rights): Slot<Obj> -> nat {
    (slot: Slot<Obj>) => if slot.entry.Some? && slot.entry.value.obj == o && slot.entry.value.rights == r then 1 else 0
  }

  /** How many entries of a table give these rights to an object. */
  function HeldIn(t: Table<Obj>, o: Obj, r: Rights): nat {
    Tally(t.slots, IsHeld(o, r))
  }

  function HeldInTab(o: Obj, r: Rights): Tab -> nat {
    (tab: Tab) => HeldIn(tab.table, o, r)
  }

  function Held(tabs: seq<Tab>, o: Obj, r: Rights): nat {
    Tally(tabs, HeldInTab(o, r))
  }

  lemma AllocHolds(t: Table<Obj>, e: Entry<Obj>, o: Obj, r: Rights)
    requires WellFormed(t) && t.freeHead.Some?
    ensures t.freeHead.value < |t.slots|
    ensures HeldIn(Alloc(t, e), o, r) == HeldIn(t, o, r) + if (e.obj, e.rights) == (o, r) then 1 else 0
  {
    hide WellFormed, Tally;
    HeadInRange(t);
    TallyUpdate(t.slots, t.freeHead.value, Alloc(t, e).slots[t.freeHead.value], IsHeld(o, r));
  }

  lemma FreeHolds(t: Table<Obj>, idx: nat, o: Obj, r: Rights)
    requires idx < |t.slots| && t.slots[idx].entry.Some? && t.count > 0
    ensures var e := t.slots[idx].entry.value;
      HeldIn(Free(t, idx), o, r) == HeldIn(t, o, r) - if (e.obj, e.rights) == (o, r) then 1 else 0
  {
    hide Tally;
    TallyUpdate(t.slots, idx, Free(t, idx).slots[idx], IsHeld(o, r));
  }

  lemma CloneHolds(w: World, k: nat, e: Entry<Obj>, o: Obj, r: Rights)
    requires k < |w.tabs| && WellFormed(w.tabs[k].table) && e.obj in w.objects
    requires Insert(w.tabs[k].table, e).1.Ok?
    ensures Held(Cloned(w, k, e).tabs, o, r) == Held(w.tabs, o, r) + if (e.obj, e.rights) == (o, r) then 1 else 0
  {
    hide WellFormed, Tally, HeldIn;
    AllocHolds(w.tabs[k].table, e, o, r);
    TallyUpdate(w.tabs, k, Cloned(w, k, e).tabs[k], HeldInTab(o, r));
  }

  lemma DropHolds(w: World, k: nat, h: Handle, o: Obj, r: Rights)
    requires k < |w.tabs| && Index(h) < |w.tabs[k].table.slots| && w.tabs[k].table.count > 0
    requires Lookup(w.tabs[k].table, h).Ok? && Lookup(w.tabs[k].table, h).value.obj in w.objects
    requires w.objects[Lookup(w.tabs[k].table, h).value.obj].refs > 0
    ensures var e := Lookup(w.tabs[k].table, h).value;
      Held(Dropped(w, k, h).tabs, o, r) == Held(w.tabs, o, r) - if (e.obj, e.rights) == (o, r) then 1 else 0
  {
    hide Tally, HeldIn;
    FreeHolds(w.tabs[k].table, Index(h), o, r);
    TallyUpdate(w.tabs, k, Dropped(w, k, h).tabs[k], HeldInTab(o, r));
  }

  /** A transfer, in either direction and failing or not, conserves the multiset of (object, rights) over all tables. */
  lemma MoveConserves(w: World, first: nat, second: nat, h: Handle, o: Obj, r: Rights)
    requires Inv(w) && first < |w.tabs| && second < |w.tabs| && first != second
    ensures Held(MoveApply(w, first, second, h).tabs, o, r) == Held(w.tabs, o, r)
  {
    hide Inv, TabOk, Known, WellFormed, Tally, Held, Cloned, Dropped, MoveApply, Move, Insert;
    Books(w, first);
    Books(w, second);
    if Move(w.tabs[first].table, w.tabs[second].table, h).2.Err? {
      FullMoveIsNoOp(w, first, second, h);
    } else {
      MoveIsCloneThenDrop(w, first, second, h);
      var e := Lookup(w.tabs[first].table, h).value;
      CloneHolds(w, second, e, o, r);
      DropHolds(Cloned(w, second, e), first, h, o, r);
    }
  }

  lemma StepKeeps(w: World, op: Op)
    requires Inv(w) && Enabled(w, op)
    ensures Inv(Apply(w, op))
  {
    hide Inv;
    match op {
      case Create(k, o, rights) => CreateKeeps(w, k, o, rights);
      case Duplicate(k, h, rights) => DuplicateKeeps(w, k, h, rights);
      case Close(k, h) => CloseKeeps(w, k, h);
      case Transfer(a, b, h, selfLower) => MoveKeeps(w, if selfLower then a else b, if selfLower then b else a, h);
      case NewObject(_) => RefOpsKeep(w, op);
      case CloneRef(_) => RefOpsKeep(w, op);
      case DropRef(_) => RefOpsKeep(w, op);
      case Get(_, _) => RefOpsKeep(w, op);
    }
  }

  // ---- what each operation does ----

  ghost predicate AllWellFormed(w: World) {
    forall k :: 0 <= k < |w.tabs| ==> WellFormed(w.tabs[k].table)
  }

  lemma InvWellFormed(w: World)
    requires Inv(w)
    ensures AllWellFormed(w)
  {
    hide Named, Tally, Agrees, Recorded;
  }

  /** Table k after the operation, as the operation on handle tables has it. */
  function TableAfter(w: World, op: Op, k: nat): Table<Obj>
    requires AllWellFormed(w) && Enabled(w, op) && k < |w.tabs|
  {
    var t := w.tabs[k].table;
    match op
    case Create(j, o, rights) => if k == j then HandleTable.Create(t, o, rights).0 else t
    case Duplicate(j, h, rights) => if k == j then HandleTable.Duplicate(t, h, rights).0 else t
    case Close(j, h) => if k == j then HandleTable.Close(t, h).0 else t
    case Transfer(a, b, h, selfLower) =>
      var moved := HandleTable.Transfer(w.tabs[a].table, w.tabs[b].table, h, selfLower);
      if k == a then moved.0 else if k == b then moved.1 else t
    case _ => t
  }

  /** How many more references to an object are held outside the tables after the operation. */
  function MoreOutside(w: World, op: Op, o: Obj): int
    requires Enabled(w, op)
  {
    match op
    case CloneRef(p) => if p == o then 1 else 0
    case DropRef(p) => if p == o then -1 else 0
    case Create(_, p, _) => if p == o then -1 else 0
    case Get(k, h) =>
      var r := Lookup(w.tabs[k].table, h);
      if r.Ok? && r.value.obj == o then 1 else 0
    case _ => 0
  }

  ghost predicate IsTableOp(w: World, op: Op, w': World)
    requires AllWellFormed(w) && Enabled(w, op)
  {
    && |w'.tabs| == |w.tabs|
    && (forall k: nat :: k < |w.tabs| ==> w'.tabs[k].table == TableAfter(w, op, k))
    && (forall o <- w.objects ::
          o in w'.objects && w'.objects[o].outside == w.objects[o].outside + MoreOutside(w, op, o))
  }

  lemma CreateIsTableOp(w: World, op: Op)
    requires Inv(w) && AllWellFormed(w) && Enabled(w, op) && op.Create?
    ensures IsTableOp(w, op, Apply(w, op))
  {
    hide Inv, AllWellFormed, WellFormed, Alloc, HandleOf, Lookup;
  }

  lemma DuplicateIsTableOp(w: World, op: Op)
    requires Inv(w) && AllWellFormed(w) && Enabled(w, op) && op.Duplicate?
    ensures IsTableOp(w, op, Apply(w, op))
  {
    hide Inv, AllWellFormed, WellFormed, Alloc, HandleOf, Rights.Contains;
    EntryKnownIfLive(w, op.k, op.h);
  }

  lemma CloseIsTableOp(w: World, op: Op)
    requires Inv(w) && AllWellFormed(w) && Enabled(w, op) && op.Close?
    ensures IsTableOp(w, op, Apply(w, op))
  {
    hide Inv, AllWellFormed, WellFormed, Free;
    EntryKnownIfLive(w, op.k, op.h);
  }

  lemma TransferIsTableOp(w: World, op: Op)
    requires Inv(w) && AllWellFormed(w) && Enabled(w, op) && op.Transfer?
    ensures IsTableOp(w, op, Apply(w, op))
  {
    hide Inv, AllWellFormed, WellFormed, Free, Insert, Rights.Contains;
    EntryKnownIfLive(w, if op.selfLower then op.self else op.dest, op.h);
  }

  lemma RefIsTableOp(w: World, op: Op)
    requires Inv(w) && AllWellFormed(w) && Enabled(w, op)
    requires op.NewObject? || op.CloneRef? || op.DropRef? || op.Get?
    ensures IsTableOp(w, op, Apply(w, op))
  {
    hide Inv, AllWellFormed, WellFormed, Lookup;
    if op.Get? {
      EntryKnownIfLive(w, op.k, op.h);
    }
  }

  lemma EntryKnownIfLive(w: World, k: nat, h: Handle)
    requires Inv(w) && k < |w.tabs|
    ensures var r := Lookup(w.tabs[k].table, h);
      r.Ok? ==> r.value.obj in w.objects && w.objects[r.value.obj].refs > 0
  {
    if Lookup(w.tabs[k].table, h).Ok? {
      EntryKnown(w, k, h);
    }
  }

  /**
   A step of the world is the operation on its tables; create takes over a reference held outside, get
   hands one out, and nothing else but cloning and dropping them changes how many there are.
   */
  lemma StepIsTableOp(w: World, op: Op)
    requires Inv(w) && Enabled(w, op)
    ensures AllWellFormed(w) && IsTableOp(w, op, Apply(w, op))
  {
    InvWellFormed(w);
    hide Inv, AllWellFormed, IsTableOp, Enabled, Apply;
    match op {
      case Create(_, _, _) => CreateIsTableOp(w, op);
      case Duplicate(_, _, _) => DuplicateIsTableOp(w, op);
      case Close(_, _) => CloseIsTableOp(w, op);
      case Transfer(_, _, _, _) => TransferIsTableOp(w, op);
      case _ => RefIsTableOp(w, op);
    }
  }

  // ---- runs ----

  /** Empty tables, each with room for at least one entry, and no objects. */
  ghost predicate Init(w: World) {
    && w.objects == map[]
    && forall k :: 0 <= k < |w.tabs| ==>
         var cap := |w.tabs[k].table.slots|;
         1 <= cap < 0x1_0000_0000 && w.tabs[k] == Tab(Fresh(cap), map[], Ledger(seq(cap, i => 0), {}))
  }

  lemma InitInv(w: World)
    requires Init(w)
    ensures Inv(w)
  {
    forall k | 0 <= k < |w.tabs| ensures TabOk(w.tabs[k]) && Known(w.tabs[k].table, w.objects) {
      var cap := |w.tabs[k].table.slots|;
      FreshWellFormed<Obj>(cap);
      FreshAgrees<Obj>(cap);
      FreshRecorded<Obj>(cap);
    }
  }

  ghost predicate Run(w: World, ops: seq<Op>)
    decreases |ops|
  {
    ops == [] || (Inv(w) && Enabled(w, ops[0]) && Run(Apply(w, ops[0]), ops[1..]))
  }

  ghost function Exec(w: World, ops: seq<Op>): World
    requires Run(w, ops)
    decreases |ops|
  {
    if ops == [] then w else Exec(Apply(w, ops[0]), ops[1..])
  }

  lemma {:induction false} RunKeeps(w: World, ops: seq<Op>)
    requires Inv(w) && Run(w, ops)
    ensures Inv(Exec(w, ops))
    decreases |ops|
  {
    hide Inv;
    if ops != [] {
      StepKeeps(w, ops[0]);
      RunKeeps(Apply(w, ops[0]), ops[1..]);
    }
  }

  /** The invariant never stands in the way: whatever is enabled can be run. */
  lemma {:induction false} RunExtends(w: World, ops: seq<Op>, op: Op)
    requires Inv(w) && Run(w, ops) && Enabled(Exec(w, ops), op)
    ensures Run(w, ops + [op])
    decreases |ops|
  {
    hide Inv;
    var more := ops + [op];
    if ops == [] {
      assert more[1..] == [];
    } else {
      StepKeeps(w, ops[0]);
      RunExtends(Apply(w, ops[0]), ops[1..], op);
      assert more[1..] == ops[1..] + [op];
    }
  }

  /**
   Over every run across all tables, failures included: an object's count is its outside references
   plus the entries naming it; on_destroy has run at most once, and exactly when nothing refers to
   the object any more.
   */
  lemma RefcountsExact(w: World, ops: seq<Op>, o: Obj)
    requires Init(w) && Run(w, ops) && o in Exec(w, ops).objects
    ensures var f := Exec(w, ops);
      && f.objects[o].refs == f.objects[o].outside + Named(f.tabs, o)
      && f.objects[o].destroyed <= 1
      && (f.objects[o].destroyed == 1 <==> f.objects[o].outside == 0 && Named(f.tabs, o) == 0)
  {
    InitInv(w);
    RunKeeps(w, ops);
    hide TabOk, Named;
  }

  /**
   Over every run each table agrees with the plain map its operations describe, its free list is
   sound, and no entry's rights exceed those of the create it descends from.
   */
  lemma TablesAgree(w: World, ops: seq<Op>, k: nat)
    requires Init(w) && Run(w, ops) && k < |Exec(w, ops).tabs|
    ensures var tab := Exec(w, ops).tabs[k];
      && WellFormed(tab.table) && Agrees(tab.table, tab.live)
      && (forall h <- tab.live :: tab.live[h].rights.bits & !tab.live[h].granted.bits == 0)
  {
    hide Inv, WellFormed, Recorded, Exec, Apply, Rights.Contains;
    InitInv(w);
    RunKeeps(w, ops);
    var tab := Exec(w, ops).tabs[k];
    Books(Exec(w, ops), k);
    forall h <- tab.live ensures tab.live[h].rights.bits & !tab.live[h].granted.bits == 0 {
      assert Lookup(tab.table, h).Ok?;
      ContainsBits(tab.live[h].granted, tab.live[h].rights);
    }
  }

  /** In every reachable state, the next handle a table issues was issued before iff the slot's counter wrapped. */
  lemma NeverIssuedTwice(w: World, ops: seq<Op>, k: nat)
    requires Init(w) && Run(w, ops) && k < |Exec(w, ops).tabs|
    requires Exec(w, ops).tabs[k].table.freeHead.Some?
    ensures var tab := Exec(w, ops).tabs[k];
      var idx := tab.table.freeHead.value;
      && idx < |tab.table.slots| < WORD && idx < |tab.ledger.bumps| && tab.table.slots[idx].generation < WORD
      && (HandleOf(tab.table, idx) in tab.ledger.issued <==> tab.ledger.bumps[idx] >= 0x1_0000_0000)
  {
    InitInv(w);
    RunKeeps(w, ops);
    Books(Exec(w, ops), k);
    var tab := Exec(w, ops).tabs[k];
    HeadInRange(tab.table);
    ReissuedIffWrapped(tab.table, tab.ledger);
  }

  // ---- stale handles ----

  ghost predicate LedgerGrows(l: Ledger, l': Ledger) {
    && |l'.bumps| == |l.bumps|
    && (forall i :: 0 <= i < |l.bumps| ==> l.bumps[i] <= l'.bumps[i])
    && l.issued <= l'.issued
  }

  lemma StepGrows(w: World, op: Op, k: nat)
    requires Inv(w) && Enabled(w, op) && k < |w.tabs|
    ensures |Apply(w, op).tabs| == |w.tabs| && LedgerGrows(w.tabs[k].ledger, Apply(w, op).tabs[k].ledger)
  {
    hide Inv;
  }

  lemma {:induction false} RunGrows(w: World, ops: seq<Op>, k: nat)
    requires Inv(w) && Run(w, ops) && k < |w.tabs|
    ensures |Exec(w, ops).tabs| == |w.tabs| && LedgerGrows(w.tabs[k].ledger, Exec(w, ops).tabs[k].ledger)
    decreases |ops|
  {
    hide Inv;
    if ops != [] {
      StepKeeps(w, ops[0]);
      StepGrows(w, ops[0], k);
      RunGrows(Apply(w, ops[0]), ops[1..], k);
    }
  }

  lemma InIncarnationGrows(g: nat, n: nat, n': nat)
    requires InIncarnation(g, n) && n <= n'
    ensures InIncarnation(g, n')
  {
    var k: nat :| k < n && g == k % WORD;
    assert k < n';
  }

  /** Closing a live handle, or moving it out, retires it. */
  lemma EmptyingRetires(tab: Tab, h: Handle)
    requires TabOk(tab) && Lookup(tab.table, h).Ok?
    ensures tab.table.count > 0
    ensures Retired(Emptied(tab, Free(tab.table, Index(h)), h).ledger, h)
  {
    CountPositive(tab.table, Index(h));
    OneMore(Generation(h), tab.ledger.bumps[Index(h)]);
  }

  /** Every operation on the table that takes the handle fails, and changes nothing. */
  ghost predicate Refused(t: Table<Obj>, h: Handle)
    requires WellFormed(t)
  {
    && Lookup(t, h) == Err(InvalidHandle)
    && (forall rights :: HandleTable.Duplicate(t, h, rights) == (t, Err(InvalidHandle)))
    && HandleTable.Close(t, h) == (t, Err(InvalidHandle))
    && (forall other: Table<Obj> | WellFormed(other) :: Move(t, other, h) == (t, other, Err(InvalidHandle)))
  }

  /** Once retired, a handle is refused while its slot has been emptied fewer than 2^32 times. */
  lemma RetiredRefused(tab: Tab, h: Handle)
    requires TabOk(tab) && Retired(tab.ledger, h) && tab.ledger.bumps[Index(h)] < WORD
    ensures Refused(tab.table, h)
  {
    EarlierDiffers(Generation(h), tab.ledger.bumps[Index(h)]);
    hide InIncarnation, WellFormed, Agrees, RightsOk;
  }

  /** From any consistent state, once a handle is retired it is refused ever after, until the slot's counter wraps. */
  lemma RetiredForever(w: World, ops: seq<Op>, k: nat, h: Handle)
    requires Inv(w) && Run(w, ops) && k < |w.tabs| && Retired(w.tabs[k].ledger, h)
    ensures |Exec(w, ops).tabs| == |w.tabs|
    ensures var tab := Exec(w, ops).tabs[k];
      && WellFormed(tab.table) && Retired(tab.ledger, h)
      && (tab.ledger.bumps[Index(h)] < 0x1_0000_0000 ==> Refused(tab.table, h))
  {
    hide Inv, TabOk, WellFormed, Refused, Apply, InIncarnation, Exec;
    RunKeeps(w, ops);
    RunGrows(w, ops, k);
    var tab := Exec(w, ops).tabs[k];
    Books(Exec(w, ops), k);
    InIncarnationGrows(Generation(h), w.tabs[k].ledger.bumps[Index(h)], tab.ledger.bumps[Index(h)]);
    if tab.ledger.bumps[Index(h)] < WORD {
      RetiredRefused(tab, h);
    }
  }

  /**
   op takes the live handle h out of table k: a close, or a transfer that searches k, of an entry that may
   be transferred, into a table with room.
   */
  ghost predicate TakesOut(w: World, op: Op, k: nat, h: Handle)
    requires k < |w.tabs|
  {
    && Lookup(w.tabs[k].table, h).Ok?
    && match op
       case Close(j, g) => (j, g) == (k, h)
       case Transfer(a, b, g, selfLower) =>
         var first, second := if selfLower then a else b, if selfLower then b else a;
         && (first, g) == (k, h) && Lookup(w.tabs[k].table, h).value.rights.bits & 0x20 != 0
         && second < |w.tabs| && w.tabs[second].table.freeHead.Some?
       case _ => false
  }

  lemma TakingOutEmpties(w: World, op: Op, k: nat, h: Handle)
    requires Inv(w) && k < |w.tabs| && Enabled(w, op) && TakesOut(w, op, k, h)
    ensures w.tabs[k].table.count > 0 && |Apply(w, op).tabs| == |w.tabs|
    ensures Apply(w, op).tabs[k] == Emptied(w.tabs[k], Free(w.tabs[k].table, Index(h)), h)
  {
    hide Inv, TabOk, Known, Named, NamedIn, WellFormed, Tally, Rights.Contains, Emptied, Issued, Free, Alloc;
    Books(w, k);
    MayTransfer(Lookup(w.tabs[k].table, h).value.rights);
    CountPositive(w.tabs[k].table, Index(h));
  }

  /**
   Once close or transfer has taken a handle out of its table, that table refuses it in every later
   state of every run, until the slot has been emptied 2^32 times.
   */
  lemma TakenOutRefusedForever(w: World, op: Op, k: nat, h: Handle, ops: seq<Op>)
    requires Inv(w) && k < |w.tabs| && Enabled(w, op) && TakesOut(w, op, k, h) && Run(Apply(w, op), ops)
    ensures |Exec(Apply(w, op), ops).tabs| == |w.tabs|
    ensures var tab := Exec(Apply(w, op), ops).tabs[k];
      && WellFormed(tab.table) && Retired(tab.ledger, h)
      && (tab.ledger.bumps[Index(h)] < 0x1_0000_0000 ==> Refused(tab.table, h))
  {
    hide Apply, Exec, TabOk, Refused, WellFormed, InIncarnation;
    StepKeeps(w, op);
    Books(w, k);
    TakingOutEmpties(w, op, k, h);
    EmptyingRetires(w.tabs[k], h);
    hide Inv;
    RetiredForever(Apply(w, op), ops, k, h);
  }
}
