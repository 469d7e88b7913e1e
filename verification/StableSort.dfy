/** Stable sorting by descending key: the order both priority queues promise. */
module StableSort {

  datatype Item<T> = Item(val: T, key: int)

  ghost predicate Sorted<T>(s: seq<Item<T>>) {
    forall i, j :: 0 <= i < j < |s| ==> s[i].key >= s[j].key
  }

  /** The items with one key, in order. */
  ghost function Class<T>(s: seq<Item<T>>, key: int): seq<Item<T>> {
    if s == [] then []
    else Class(s[..|s| - 1], key) + if s[|s| - 1].key == key then [s[|s| - 1]] else []
  }

  /** out holds the items of s in descending order of key, equal keys in their order in s. */
  ghost predicate IsStableSort<T>(s: seq<Item<T>>, out: seq<Item<T>>) {
    Sorted(out) && forall key :: Class(out, key) == Class(s, key)
  }

  lemma {:induction false} ClassConcat<T>(a: seq<Item<T>>, b: seq<Item<T>>, key: int)
    ensures Class(a + b, key) == Class(a, key) + Class(b, key)
    decreases |b|
  {
    if b == [] {
      assert a + b == a;
    } else {
      ClassConcat(a, b[..|b| - 1], key);
      assert (a + b)[..|a + b| - 1] == a + b[..|b| - 1];
    }
  }

  lemma ClassOne<T>(x: Item<T>, key: int)
    ensures Class([x], key) == if x.key == key then [x] else []
  {
    assert [x][..0] == [];
  }

  lemma {:induction false} ClassEmpty<T>(s: seq<Item<T>>, key: int)
    requires forall i :: 0 <= i < |s| ==> s[i].key != key
    ensures Class(s, key) == []
    decreases |s|
  {
    if s != [] {
      ClassEmpty(s[..|s| - 1], key);
    }
  }

  lemma {:induction false} ClassHas<T>(s: seq<Item<T>>, i: nat)
    requires i < |s|
    ensures s[i] in Class(s, s[i].key)
    decreases |s|
  {
    if i < |s| - 1 {
      ClassHas(s[..|s| - 1], i);
    }
  }

  lemma {:induction false} ClassIn<T>(s: seq<Item<T>>, key: int, x: Item<T>)
    requires x in Class(s, key)
    ensures x in s && x.key == key
    decreases |s|
  {
    if s[|s| - 1] != x || s[|s| - 1].key != key {
      ClassIn(s[..|s| - 1], key, x);
    }
  }

  /** A stable sort is unique. */
  lemma {:induction false} StableSortUnique<T>(s: seq<Item<T>>, a: seq<Item<T>>, b: seq<Item<T>>)
    requires IsStableSort(s, a) && IsStableSort(s, b)
    ensures a == b
    decreases |a|
  {
    if a == [] {
      if b != [] {
        LastIsLeast(s, b, a);
      }
    } else {
      SameLast(s, a, b);
      var n, x := |a| - 1, a[|a| - 1];
      forall key ensures Class(a[..n], key) == Class(b[..|b| - 1], key) {
        assert Class(a, key) == Class(b, key);
        CancelRight(Class(a[..n], key), Class(b[..|b| - 1], key), if x.key == key then [x] else []);
      }
      StableSortUnique(a[..n], a[..n], b[..|b| - 1]);
    }
  }

  lemma CancelRight<T>(a: seq<T>, b: seq<T>, t: seq<T>)
    requires a + t == b + t
    ensures a == b
  {
    assert a == (a + t)[..|a|] && b == (b + t)[..|b|];
  }

  lemma LastOfClass<T>(s: seq<Item<T>>)
    requires s != []
    ensures var c := Class(s, s[|s| - 1].key); c != [] && c[|c| - 1] == s[|s| - 1]
  {
  }

  /** A key present in one stable sort is at least the other's last key. */
  lemma LastIsLeast<T>(s: seq<Item<T>>, a: seq<Item<T>>, b: seq<Item<T>>)
    requires IsStableSort(s, a) && IsStableSort(s, b) && a != []
    ensures b != [] && b[|b| - 1].key <= a[|a| - 1].key
  {
    var x := a[|a| - 1];
    ClassHas(a, |a| - 1);
    assert Class(a, x.key) == Class(b, x.key);
    ClassIn(b, x.key, x);
  }

  lemma SameLast<T>(s: seq<Item<T>>, a: seq<Item<T>>, b: seq<Item<T>>)
    requires IsStableSort(s, a) && IsStableSort(s, b) && a != []
    ensures b != [] && b[|b| - 1] == a[|a| - 1]
  {
    LastIsLeast(s, a, b);
    LastIsLeast(s, b, a);
    LastOfClass(a);
    LastOfClass(b);
    assert Class(a, a[|a| - 1].key) == Class(b, a[|a| - 1].key);
  }

  /** The position after every item with a key at least as large. */
  ghost function Position<T>(s: seq<Item<T>>, key: int): (p: nat)
    ensures p <= |s|
    ensures Sorted(s) ==> forall i :: 0 <= i < p ==> s[i].key >= key
    ensures forall i :: p <= i < |s| ==> s[i].key < key
  {
    if s == [] then 0
    else if s[|s| - 1].key >= key then |s|
    else Position(s[..|s| - 1], key)
  }

  ghost function Insert<T>(s: seq<Item<T>>, x: Item<T>): seq<Item<T>> {
    var p := Position(s, x.key);
    s[..p] + [x] + s[p..]
  }

  /** Inserting behind all equals keeps the queue a stable sort of what has arrived. */
  lemma InsertIsStable<T>(arrivals: seq<Item<T>>, s: seq<Item<T>>, x: Item<T>)
    requires IsStableSort(arrivals, s)
    ensures IsStableSort(arrivals + [x], Insert(s, x))
  {
    forall key ensures Class(Insert(s, x), key) == Class(arrivals + [x], key) {
      assert Class(s, key) == Class(arrivals, key);
      InsertClass(s, x, key);
      hide Class;
      ClassConcat(arrivals, [x], key);
    }
    InsertIsSorted(s, x);
  }

  lemma InsertClass<T>(s: seq<Item<T>>, x: Item<T>, key: int)
    ensures Class(Insert(s, x), key) == Class(s, key) + Class([x], key)
  {
    hide Class, Position;
    var p := Position(s, x.key);
    ClassInsert(s, p, x, key);
    ClassOne(x, key);
    if key == x.key {
      ClassEmpty(s[p..], key);
    } else {
      assert Class(s[..p], key) + [] + Class(s[p..], key) == Class(s, key) + [];
    }
  }

  lemma InsertIsSorted<T>(s: seq<Item<T>>, x: Item<T>)
    requires Sorted(s)
    ensures Sorted(Insert(s, x))
  {
  }

  lemma ClassInsert<T>(s: seq<Item<T>>, p: nat, x: Item<T>, key: int)
    requires p <= |s|
    ensures Class(s, key) == Class(s[..p], key) + Class(s[p..], key)
    ensures Class(s[..p] + [x] + s[p..], key) == Class(s[..p], key) + Class([x], key) + Class(s[p..], key)
  {
    hide Class;
    ClassConcat(s[..p] + [x], s[p..], key);
    ClassConcat(s[..p], [x], key);
    ClassConcat(s[..p], s[p..], key);
    assert s[..p] + s[p..] == s;
  }

  /** The front of a stable sort is the oldest item of the highest key. */
  lemma FrontIsOldestOfHighest<T>(arrivals: seq<Item<T>>, s: seq<Item<T>>)
    requires IsStableSort(arrivals, s) && s != []
    ensures forall i :: 0 <= i < |arrivals| ==> arrivals[i].key <= s[0].key
    ensures Class(arrivals, s[0].key) != [] && Class(arrivals, s[0].key)[0] == s[0]
  {
    hide Class;
    forall i | 0 <= i < |arrivals| ensures arrivals[i].key <= s[0].key {
      ClassHas(arrivals, i);
      assert Class(s, arrivals[i].key) == Class(arrivals, arrivals[i].key);
      ClassIn(s, arrivals[i].key, arrivals[i]);
    }
    FirstInClass(s);
    assert Class(s, s[0].key) == Class(arrivals, s[0].key);
  }

  lemma FirstInClass<T>(s: seq<Item<T>>)
    requires s != []
    ensures Class(s, s[0].key) != [] && Class(s, s[0].key)[0] == s[0]
  {
    hide Class;
    ClassConcat([s[0]], s[1..], s[0].key);
    assert [s[0]] + s[1..] == s;
    ClassOne(s[0], s[0].key);
  }

  /** s without the item at index i. */
  function RemoveAt<T>(s: seq<T>, i: nat): seq<T>
    requires i < |s|
  {
    s[..i] + s[i + 1..]
  }

  lemma ClassRemoveAt<T>(s: seq<Item<T>>, i: nat, key: int)
    requires i < |s|
    ensures Class(s, key) == Class(s[..i], key) + Class([s[i]], key) + Class(s[i + 1..], key)
    ensures Class(RemoveAt(s, i), key) == Class(s[..i], key) + Class(s[i + 1..], key)
  {
    hide Class;
    ClassConcat(s[..i], s[i + 1..], key);
    ClassConcat(s[..i], [s[i]] + s[i + 1..], key);
    ClassConcat([s[i]], s[i + 1..], key);
    assert s == s[..i] + ([s[i]] + s[i + 1..]);
  }

  /** Removing the same item from the queue and from the arrivals leaves a stable sort. */
  lemma RemoveIsStable<T>(arrivals: seq<Item<T>>, s: seq<Item<T>>, i: nat, j: nat)
    requires IsStableSort(arrivals, s) && i < |s| && j < |arrivals| && arrivals[j] == s[i]
    requires forall k :: 0 <= k < |s| && k != i ==> s[k] != s[i]
    requires forall k :: 0 <= k < |arrivals| && k != j ==> arrivals[k] != arrivals[j]
    ensures IsStableSort(RemoveAt(arrivals, j), RemoveAt(s, i))
  {
    forall key ensures Class(RemoveAt(s, i), key) == Class(RemoveAt(arrivals, j), key) {
      ClassRemoveAt(s, i, key);
      ClassRemoveAt(arrivals, j, key);
      ClassOne(s[i], key);
      assert Class(s, key) == Class(arrivals, key);
      hide Class;
      if key == s[i].key {
        NotIn(s[..i], s[i], key);
        NotIn(arrivals[..j], s[i], key);
        SplitAtUnique(Class(s[..i], key), s[i], Class(s[i + 1..], key),
                      Class(arrivals[..j], key), Class(arrivals[j + 1..], key));
      } else {
        assert Class(s[..i], key) + [] == Class(s[..i], key);
        assert Class(arrivals[..j], key) + [] == Class(arrivals[..j], key);
      }
    }
    assert Sorted(RemoveAt(s, i));
  }

  lemma NotIn<T>(s: seq<Item<T>>, x: Item<T>, key: int)
    requires x !in s
    ensures x !in Class(s, key)
  {
    if x in Class(s, key) {
      ClassIn(s, key, x);
    }
  }

  lemma SplitAtUnique<T>(a: seq<T>, x: T, b: seq<T>, c: seq<T>, d: seq<T>)
    requires a + [x] + b == c + [x] + d && x !in a && x !in c
    ensures a == c && b == d
  {
    if |a| < |c| {
      LaterCopy(a, x, b, c, d);
    } else if |c| < |a| {
      LaterCopy(c, x, d, a, b);
    }
    var s := a + [x] + b;
    assert a == s[..|a|] && c == s[..|c|] && b == s[|a| + 1..] && d == s[|c| + 1..];
  }

  lemma LaterCopy<T>(a: seq<T>, x: T, b: seq<T>, c: seq<T>, d: seq<T>)
    requires a + [x] + b == c + [x] + d && |a| < |c|
    ensures x in c
  {
    assert (a + [x] + b)[|a|] == x && (c + [x] + d)[|a|] == c[|a|];
  }

  ghost predicate Distinct<T>(s: seq<T>) {
    forall i, j :: 0 <= i < j < |s| ==> s[i] != s[j]
  }

  ghost function Vals<T>(s: seq<Item<T>>): (r: seq<T>)
    ensures |r| == |s| && forall i :: 0 <= i < |s| ==> r[i] == s[i].val
  {
    seq(|s|, i requires 0 <= i < |s| => s[i].val)
  }

  // A queue and what has arrived in it.

  ghost predicate DistinctItems<T>(a: seq<Item<T>>) {
    forall i, j :: 0 <= i < j < |a| ==> a[i].val != a[j].val
  }

  /** What has arrived is what is queued. */
  lemma Queued<T>(a: seq<Item<T>>, v: seq<Item<T>>)
    requires IsStableSort(a, v)
    ensures forall i :: 0 <= i < |a| ==> a[i] in v
    ensures forall i :: 0 <= i < |v| ==> v[i] in a
  {
    forall i | 0 <= i < |a| ensures a[i] in v {
      ClassHas(a, i);
      assert Class(v, a[i].key) == Class(a, a[i].key);
      ClassIn(v, a[i].key, a[i]);
    }
    forall i | 0 <= i < |v| ensures v[i] in a {
      ClassHas(v, i);
      assert Class(v, v[i].key) == Class(a, v[i].key);
      ClassIn(a, v[i].key, v[i]);
    }
  }

  /** Taking the i-th queued item away takes one arrival away. */
  lemma Departs<T>(a: seq<Item<T>>, v: seq<Item<T>>, i: nat) returns (j: nat)
    requires IsStableSort(a, v) && DistinctItems(a) && DistinctItems(v) && i < |v|
    ensures j < |a| && a[j] == v[i]
    ensures IsStableSort(RemoveAt(a, j), RemoveAt(v, i)) && DistinctItems(RemoveAt(a, j))
  {
    hide IsStableSort;
    Queued(a, v);
    assert v[i] in a;
    j :| 0 <= j < |a| && a[j] == v[i];
    RemoveIsStable(a, v, i, j);
  }

  /** x arrived at j, nothing outranks it, and nothing of its priority arrived before it. */
  ghost predicate IsOldestOfHighest<T>(a: seq<Item<T>>, j: nat, x: Item<T>) {
    && j < |a| && a[j] == x
    && forall k :: 0 <= k < |a| ==> a[k].key < x.key || (a[k].key == x.key && j <= k)
  }

  lemma FrontIsOldest<T>(a: seq<Item<T>>, v: seq<Item<T>>, j: nat)
    requires IsStableSort(a, v) && DistinctItems(a) && v != [] && j < |a| && a[j] == v[0]
    ensures IsOldestOfHighest(a, j, v[0])
  {
    FrontIsOldestOfHighest(a, v);
    hide IsStableSort, Class;
    forall k | 0 <= k < j ensures a[k].key != v[0].key {
      if a[k].key == v[0].key {
        ClassHas(a[..j], k);
        ClassConcat(a[..j], a[j..], v[0].key);
        assert a == a[..j] + a[j..];
        ClassIn(a[..j], v[0].key, v[0]);
      }
    }
  }

  /** The first item of the highest class is the oldest of the highest. */
  lemma {:induction false} FirstOfClass<T>(a: seq<Item<T>>, key: int) returns (j: nat)
    requires Class(a, key) != [] && forall i :: 0 <= i < |a| ==> a[i].key <= key
    ensures IsOldestOfHighest(a, j, Class(a, key)[0])
    decreases |a|
  {
    var n, x := |a| - 1, Class(a, key)[0];
    ClassIn(a, key, x);
    if Class(a[..n], key) == [] {
      j := n;
      forall k | 0 <= k < n ensures a[k].key != key {
        if a[..n][k].key == key {
          ClassHas(a[..n], k);
        }
      }
    } else {
      j := FirstOfClass(a[..n], key);
    }
    forall k | 0 <= k < |a| ensures a[k].key < x.key || (a[k].key == x.key && j <= k) {
      assert k < n ==> a[k] == a[..n][k];
    }
  }

  /** x arrived at j, it outranks nothing, and nothing of its priority arrived after it. */
  ghost predicate IsNewestOfLowest<T>(a: seq<Item<T>>, j: nat, x: Item<T>) {
    && j < |a| && a[j] == x
    && forall k :: 0 <= k < |a| ==> a[k].key > x.key || (a[k].key == x.key && k <= j)
  }

  /** The last item of the lowest class is the newest of the lowest. */
  lemma {:induction false} LastOfLowest<T>(a: seq<Item<T>>, key: int) returns (j: nat)
    requires Class(a, key) != [] && forall i :: 0 <= i < |a| ==> a[i].key >= key
    ensures IsNewestOfLowest(a, j, Class(a, key)[|Class(a, key)| - 1])
    decreases |a|
  {
    var n := |a| - 1;
    ClassIn(a, key, Class(a, key)[|Class(a, key)| - 1]);
    if a[n].key == key {
      j := n;
    } else {
      j := LastOfLowest(a[..n], key);
      assert forall k :: 0 <= k < n ==> a[k] == a[..n][k];
    }
  }

  /** The back of a stable sort is the newest item of the lowest key. */
  lemma BackIsNewestOfLowest<T>(a: seq<Item<T>>, out: seq<Item<T>>) returns (j: nat)
    requires IsStableSort(a, out) && out != []
    ensures IsNewestOfLowest(a, j, out[|out| - 1])
  {
    var x := out[|out| - 1];
    LastOfClass(out);
    hide Class;
    assert Class(out, x.key) == Class(a, x.key);
    forall i | 0 <= i < |a| ensures a[i].key >= x.key {
      ClassHas(a, i);
      assert Class(out, a[i].key) == Class(a, a[i].key);
      ClassIn(out, a[i].key, a[i]);
    }
    j := LastOfLowest(a, x.key);
  }

  /** Taking the oldest of the highest takes the first item of its class and no other. */
  lemma OldestLeaves<T>(a: seq<Item<T>>, j: nat, x: Item<T>, key: int)
    requires IsOldestOfHighest(a, j, x)
    ensures Class(a, key) == (if key == x.key then [x] else []) + Class(RemoveAt(a, j), key)
  {
    hide Class, RemoveAt;
    ClassRemoveAt(a, j, key);
    ClassOne(x, key);
    if key == x.key {
      ClassEmpty(a[..j], key);
    }
  }

  /** The items of out were taken from those of arrivals, oldest of the highest first; rest is left. */
  ghost predicate Drained<T>(arrivals: seq<Item<T>>, out: seq<Item<T>>, rest: seq<Item<T>>) {
    && Sorted(out)
    && (forall i, k :: 0 <= i < |out| && 0 <= k < |rest| ==> out[i].key >= rest[k].key)
    && forall key :: Class(arrivals, key) == Class(out, key) + Class(rest, key)
  }

  lemma DrainClass<T>(out: seq<Item<T>>, rest: seq<Item<T>>, j: nat, x: Item<T>, key: int)
    requires IsOldestOfHighest(rest, j, x)
    ensures Class(out, key) + Class(rest, key) == Class(out + [x], key) + Class(RemoveAt(rest, j), key)
  {
    hide Class, RemoveAt;
    OldestLeaves(rest, j, x, key);
    ClassConcat(out, [x], key);
    ClassOne(x, key);
    Reassociate(Class(out, key), Class([x], key), Class(RemoveAt(rest, j), key));
  }

  lemma Reassociate<T>(a: seq<T>, b: seq<T>, c: seq<T>)
    ensures a + (b + c) == (a + b) + c
  {
  }

  lemma DrainStep<T>(arrivals: seq<Item<T>>, out: seq<Item<T>>, rest: seq<Item<T>>, j: nat, x: Item<T>)
    requires Drained(arrivals, out, rest) && IsOldestOfHighest(rest, j, x)
    ensures Drained(arrivals, out + [x], RemoveAt(rest, j))
  {
    hide Class;
    forall key ensures Class(arrivals, key) == Class(out + [x], key) + Class(RemoveAt(rest, j), key) {
      DrainClass(out, rest, j, x, key);
    }
    assert x in rest;
  }

  /** Taking out the oldest of the highest until nothing is left is a stable sort. */
  lemma DrainedIsStableSort<T>(arrivals: seq<Item<T>>, out: seq<Item<T>>)
    requires Drained(arrivals, out, [])
    ensures IsStableSort(arrivals, out)
  {
    forall key ensures Class(out, key) == Class(arrivals, key) {
      assert Class(arrivals, key) == Class(out, key) + [];
    }
  }
}
