/** The circular storage under the deque and the rings: an absolute index is reduced modulo the capacity. */
module CircularBuffer {

  function Get<T>(slots: seq<T>, i: nat): T
    requires |slots| > 0
  {
    slots[i % |slots|]
  }

  function Put<T>(slots: seq<T>, i: nat, val: T): (r: seq<T>)
    requires |slots| > 0
    ensures |r| == |slots|
    ensures Get(r, i) == val
  {
    slots[i % |slots| := val]
  }

  /** The elements at the indices [from, to). */
  function Window<T>(slots: seq<T>, from: nat, to: nat): (r: seq<T>)
    requires |slots| > 0 && from <= to
    ensures |r| == to - from
    ensures forall k :: 0 <= k < |r| ==> r[k] == Get(slots, from + k)
  {
    seq(to - from, k requires 0 <= k => Get(slots, from + k))
  }

  function Pow2(k: nat): (r: nat)
    ensures r >= 1
  {
    if k == 0 then 1 else 2 * Pow2(k - 1)
  }

  /** Bitwise conjunction of two unsigned words, digit by digit. */
  function And(x: nat, y: nat): nat {
    if x == 0 || y == 0 then 0 else x % 2 * (y % 2) + 2 * And(x / 2, y / 2)
  }

  /** The code masks an index with capacity - 1; for a power of two that is reduction modulo the capacity. */
  lemma {:induction false} MaskIsModulo(i: nat, k: nat)
    ensures And(i, Pow2(k) - 1) == i % Pow2(k)
  {
    if k == 0 {
      assert i % 1 == 0;
    } else {
      var p := Pow2(k - 1);
      MaskIsModulo(i / 2, k - 1);
      MaskDoubles(i, p);
    }
  }

  lemma MaskDoubles(i: nat, p: nat)
    requires p > 0 && And(i / 2, p - 1) == i / 2 % p
    ensures And(i, 2 * p - 1) == i % (2 * p)
  {
    hide And;
    AndOdd(i, p - 1);
    DoubleModulo(i, p);
    assert 2 * (p - 1) + 1 == 2 * p - 1;
  }

  /** One digit of a conjunction with an odd word. */
  lemma AndOdd(x: nat, y: nat)
    ensures And(x, 2 * y + 1) == x % 2 + 2 * And(x / 2, y)
  {
    assert (2 * y + 1) / 2 == y && (2 * y + 1) % 2 == 1;
  }

  lemma DoubleModulo(i: nat, p: nat)
    requires p > 0
    ensures i % (2 * p) == 2 * (i / 2 % p) + i % 2
  {
    var q := i / 2 / p;
    assert i == 2 * (q * p + i / 2 % p) + i % 2;
    assert q * (2 * p) == 2 * (q * p);
    RemainderIs(i, 2 * p, q, 2 * (i / 2 % p) + i % 2);
  }

  lemma RemainderIs(i: nat, m: nat, q: nat, r: nat)
    requires m > 0 && r < m && i == q * m + r
    ensures i % m == r
  {
    var d := i / m - q;
    assert d * m == r - i % m;
    assert (d >= 1 ==> d * m >= m) && (d <= -1 ==> d * m + m <= 0);
  }

  /** Two indices closer than the capacity never share a slot. */
  lemma DistinctSlots(i: nat, j: nat, cap: nat)
    requires i < j < i + cap
    ensures i % cap != j % cap
  {
    if i % cap == j % cap {
      RemainderIs(j - i, cap, j / cap - i / cap, 0);
    }
  }

  /** One capacity further on, the same slot comes round again. */
  lemma GetWraps<T>(slots: seq<T>, i: nat)
    requires |slots| > 0
    ensures Get(slots, i + |slots|) == Get(slots, i)
  {
    RemainderIs(i + |slots|, |slots|, i / |slots| + 1, i % |slots|);
  }

  /** Writing index i leaves every other index within one capacity of it alone. */
  lemma PutElsewhere<T>(slots: seq<T>, i: nat, val: T, j: nat)
    requires |slots| > 0
    requires j < i < j + |slots| || i < j < i + |slots|
    ensures Get(Put(slots, i, val), j) == Get(slots, j)
  {
    if j < i {
      DistinctSlots(j, i, |slots|);
    } else {
      DistinctSlots(i, j, |slots|);
    }
  }
}
