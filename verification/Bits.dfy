/** Multi-word bitmaps: word-mask loops against their meaning bit by bit. */
module Bits {
  import opened Options

  const WORD := 64
  const ONES: bv64 := 0xFFFF_FFFF_FFFF_FFFF

  // Shifts take amounts below the word size, held in seven bits.

  function OneAt(k: bv7): bv64
    requires k < 64
  {
    (1 as bv64) << k
  }

  function OnesFrom(k: bv7): bv64
    requires k < 64
  {
    ONES << k
  }

  function OnesBelow(k: bv7): bv64
    requires k < 64
  {
    ((1 as bv64) << k) - 1
  }

  function Amount(k: nat): (b: bv7)
    requires k < WORD
    ensures b < 64
  {
    k as bv7
  }

  function One(k: nat): bv64
    requires k < WORD
  {
    OneAt(Amount(k))
  }

  predicate Meets(w: bv64, m: bv64) {
    w & m != 0
  }

  /** Exactly one bit is set. */
  predicate Single(m: bv64) {
    m != 0 && m & (m - 1) == 0
  }

  predicate AtMost(s: bv7, k: bv7) {
    s <= k
  }

  function Or(w: bv64, m: bv64): bv64 {
    w | m
  }

  function And(w: bv64, m: bv64): bv64 {
    w & m
  }

  function AndNot(w: bv64, m: bv64): bv64 {
    w & !m
  }

  predicate HasBit(w: bv64, k: nat)
    requires k < WORD
  {
    Meets(w, One(k))
  }

  function FirstWordMask(start: nat): bv64 {
    OnesFrom(Amount(start % WORD))
  }

  function LastWordMask(nbits: nat): bv64 {
    if nbits % WORD != 0 then OnesBelow(Amount(nbits % WORD)) else ONES
  }

  /** The meaning of a bitmap: whether bit i is set. */
  predicate IsSet(words: seq<bv64>, i: nat)
    requires i < WORD * |words|
  {
    HasBit(words[i / WORD], i % WORD)
  }

  // Facts about single words, stated over bit vectors alone before they meet integers.

  lemma CastBack(k: nat)
    requires k < WORD
    ensures Amount(k) as nat == k
  {
  }

  lemma CastOrder(s: bv7, k: bv7)
    ensures AtMost(s, k) <==> s as nat <= k as nat
  {
  }

  lemma HighBit(s: bv7, k: bv7)
    requires s < 64 && k < 64
    ensures Meets(OnesFrom(s), OneAt(k)) <==> AtMost(s, k)
  {
  }

  lemma LowBit(s: bv7, k: bv7)
    requires s < 64 && k < 64
    ensures Meets(OnesBelow(s), OneAt(k)) <==> !AtMost(s, k)
  {
  }

  lemma SingleBit(k: bv7)
    requires k < 64
    ensures Single(OneAt(k)) && Meets(ONES, OneAt(k))
  {
  }

  lemma SameBit(s: bv7, k: bv7)
    requires s < 64 && k < 64
    ensures Meets(OneAt(s), OneAt(k)) <==> s == k
  {
  }

  lemma OrBit(w: bv64, m: bv64, o: bv64)
    ensures Meets(w | m, o) <==> Meets(w, o) || Meets(m, o)
  {
    assert (w | m) & o == (w & o) | (m & o);
  }

  lemma OneOrNone(w: bv64, o: bv64)
    requires Single(o)
    ensures w & o == if Meets(w, o) then o else 0
  {
  }

  lemma AndBit(w: bv64, m: bv64, o: bv64)
    requires Single(o)
    ensures Meets(w & m, o) <==> Meets(w, o) && Meets(m, o)
  {
    OneOrNone(w, o);
    OneOrNone(m, o);
    assert (w & m) & o == (w & o) & (m & o);
  }

  lemma AndNotBit(w: bv64, m: bv64, o: bv64)
    requires Single(o)
    ensures Meets(w & !m, o) <==> Meets(w, o) && !Meets(m, o)
  {
    OneOrNone(w, o);
    OneOrNone(m, o);
    assert (w & !m) & o == (w & o) & !(m & o);
  }

  lemma Ordered(s: nat, k: nat)
    requires s < WORD && k < WORD
    ensures s <= k <==> AtMost(Amount(s), Amount(k))
  {
    CastBack(s);
    CastBack(k);
    CastOrder(Amount(s), Amount(k));
  }

  // The same over positions.

  lemma FirstMaskBit(start: nat, k: nat)
    requires k < WORD
    ensures HasBit(FirstWordMask(start), k) <==> start % WORD <= k
  {
    hide Amount, OneAt, OnesFrom, Meets, AtMost;
    Ordered(start % WORD, k);
    HighBit(Amount(start % WORD), Amount(k));
  }

  lemma LastMaskBit(nbits: nat, k: nat)
    requires k < WORD
    ensures HasBit(LastWordMask(nbits), k) <==> nbits % WORD == 0 || k < nbits % WORD
  {
    hide Amount, OneAt, OnesBelow, Meets, AtMost, Single;
    Ordered(nbits % WORD, k);
    LowBit(Amount(nbits % WORD), Amount(k));
    SingleBit(Amount(k));
  }

  lemma OnesHas(k: nat)
    requires k < WORD
    ensures HasBit(ONES, k)
  {
    hide OneAt, Amount, Meets, Single;
    SingleBit(Amount(k));
  }

  lemma OneHas(k: nat, n: nat)
    requires k < WORD && n < WORD
    ensures HasBit(One(k), n) <==> n == k
  {
    hide OneAt, Amount, Meets;
    CastBack(k);
    CastBack(n);
    SameBit(Amount(k), Amount(n));
  }

  lemma OrHas(w: bv64, m: bv64, k: nat)
    requires k < WORD
    ensures HasBit(Or(w, m), k) <==> HasBit(w, k) || HasBit(m, k)
  {
    hide One, Meets;
    OrBit(w, m, One(k));
  }

  lemma AndHas(w: bv64, m: bv64, k: nat)
    requires k < WORD
    ensures HasBit(And(w, m), k) <==> HasBit(w, k) && HasBit(m, k)
  {
    hide Amount, OneAt, Meets, Single;
    SingleBit(Amount(k));
    AndBit(w, m, One(k));
  }

  lemma AndNotHas(w: bv64, m: bv64, k: nat)
    requires k < WORD
    ensures HasBit(AndNot(w, m), k) <==> HasBit(w, k) && !HasBit(m, k)
  {
    hide Amount, OneAt, Meets, Single;
    SingleBit(Amount(k));
    AndNotBit(w, m, One(k));
  }

  // Ranges of bits.

  /** Word p after writing the value on to the bits in [lo, hi). */
  ghost predicate Painted(now: bv64, was: bv64, p: nat, lo: int, hi: int, on: bool) {
    forall k: nat :: k < WORD ==>
      (HasBit(now, k) <==> if lo <= WORD * p + k < hi then on else HasBit(was, k))
  }

  /** Exactly the bits in [lo, hi) have been overwritten with the value on. */
  ghost predicate RangeWritten(now: seq<bv64>, was: seq<bv64>, lo: int, hi: int, on: bool) {
    && |now| == |was|
    && forall i: nat :: i < WORD * |now| ==>
      (IsSet(now, i) <==> if lo <= i < hi then on else IsSet(was, i))
  }

  /** The mask covers the bits of word p from position lo on. */
  ghost predicate Covers(mask: bv64, p: nat, lo: int, hi: int) {
    forall k: nat :: k < WORD ==> (HasBit(mask, k) <==> lo <= WORD * p + k < hi)
  }

  lemma FirstCovers(start: nat)
    ensures Covers(FirstWordMask(start), start / WORD, start, WORD * (start / WORD + 1))
  {
    hide HasBit, FirstWordMask;
    forall k: nat | k < WORD
      ensures HasBit(FirstWordMask(start), k) <==> start <= WORD * (start / WORD) + k < WORD * (start / WORD + 1)
    {
      FirstMaskBit(start, k);
    }
  }

  lemma OnesCovers(p: nat)
    ensures Covers(ONES, p, WORD * p, WORD * (p + 1))
  {
    hide HasBit;
    forall k: nat | k < WORD ensures HasBit(ONES, k) {
      OnesHas(k);
    }
  }

  lemma LastCovers(mask: bv64, p: nat, lo: int, size: nat)
    requires Covers(mask, p, lo, WORD * (p + 1)) && WORD * p <= lo < size < WORD * (p + 1)
    ensures Covers(And(mask, LastWordMask(size)), p, lo, size)
  {
    hide HasBit, And, LastWordMask;
    forall k: nat | k < WORD
      ensures HasBit(And(mask, LastWordMask(size)), k) <==> lo <= WORD * p + k < size
    {
      AndHas(mask, LastWordMask(size), k);
      LastMaskBit(size, k);
    }
  }

  lemma OrPaints(w: bv64, mask: bv64, p: nat, lo: int, hi: int)
    requires Covers(mask, p, lo, hi)
    ensures Painted(Or(w, mask), w, p, lo, hi, true)
  {
    hide HasBit, Or;
    forall k: nat | k < WORD ensures HasBit(Or(w, mask), k) <==> HasBit(w, k) || HasBit(mask, k) {
      OrHas(w, mask, k);
    }
  }

  lemma AndNotPaints(w: bv64, mask: bv64, p: nat, lo: int, hi: int)
    requires Covers(mask, p, lo, hi)
    ensures Painted(AndNot(w, mask), w, p, lo, hi, false)
  {
    hide HasBit, AndNot;
    forall k: nat | k < WORD ensures HasBit(AndNot(w, mask), k) <==> HasBit(w, k) && !HasBit(mask, k) {
      AndNotHas(w, mask, k);
    }
  }

  /** Painting the part of one word that follows what is already written extends the range. */
  lemma Extends(now: seq<bv64>, was: seq<bv64>, w: bv64, p: nat, lo: int, mid: int, hi: int, on: bool)
    requires RangeWritten(now, was, lo, mid, on) && p < |now|
    requires Painted(w, now[p], p, mid, hi, on) && WORD * p <= mid <= hi <= WORD * (p + 1) && lo <= mid
    ensures RangeWritten(now[p := w], was, lo, hi, on)
  {
    hide HasBit;
    assert |now[p := w]| == |was|;
    forall i: nat | i < WORD * |now|
      ensures IsSet(now[p := w], i) <==> if lo <= i < hi then on else IsSet(was, i)
    {
      var q, k := i / WORD, i % WORD;
      assert i == WORD * q + k;
      assert IsSet(now, i) <==> if lo <= i < mid then on else IsSet(was, i);
      if q == p {
        assert HasBit(w, k) <==> if mid <= i < hi then on else HasBit(now[p], k);
      } else {
        assert now[p := w][q] == now[q];
        assert !(mid <= i < hi);
      }
    }
  }

  /** Set nr bits from start on. */
  method BitmapSet(bitmap: array<bv64>, start: nat, nr: nat)
    requires start + nr <= WORD * bitmap.Length
    modifies bitmap
    ensures RangeWritten(bitmap[..], old(bitmap[..]), start, start + nr, true)
  {
    hide HasBit, Or, And, AndNot, IsSet, FirstWordMask, LastWordMask, RangeWritten, Covers, Painted;
    var p := start / WORD;
    var size := start + nr;
    var bitsToSet := WORD - start % WORD;
    var maskToSet := FirstWordMask(start);
    var remaining := nr;
    ghost var was := bitmap[..];
    FirstCovers(start);
    NothingWritten(was, start, true);
    while remaining >= bitsToSet
      invariant 0 <= remaining && 0 < bitsToSet && WORD * (p + 1) == size - remaining + bitsToSet
      invariant start <= size - remaining && WORD * p <= size - remaining
      invariant Covers(maskToSet, p, size - remaining, WORD * (p + 1))
      invariant RangeWritten(bitmap[..], was, start, size - remaining, true)
    {
      ghost var now := bitmap[..];
      OrPaints(now[p], maskToSet, p, size - remaining, WORD * (p + 1));
      Extends(now, was, Or(now[p], maskToSet), p, start, size - remaining, WORD * (p + 1), true);
      bitmap[p] := Or(bitmap[p], maskToSet);
      assert bitmap[..] == now[p := Or(now[p], maskToSet)];
      remaining := remaining - bitsToSet;
      bitsToSet := WORD;
      maskToSet := ONES;
      p := p + 1;
      OnesCovers(p);
    }
    if remaining > 0 {
      ghost var now, mask := bitmap[..], And(maskToSet, LastWordMask(size));
      LastCovers(maskToSet, p, size - remaining, size);
      OrPaints(now[p], mask, p, size - remaining, size);
      Extends(now, was, Or(now[p], mask), p, start, size - remaining, size, true);
      bitmap[p] := Or(bitmap[p], And(maskToSet, LastWordMask(size)));
      assert bitmap[..] == now[p := Or(now[p], mask)];
    }
  }

  lemma NothingWritten(was: seq<bv64>, lo: int, on: bool)
    ensures RangeWritten(was, was, lo, lo, on)
  {
  }

  /** Clear nr bits from start on. */
  method BitmapClear(bitmap: array<bv64>, start: nat, nr: nat)
    requires start + nr <= WORD * bitmap.Length
    modifies bitmap
    ensures RangeWritten(bitmap[..], old(bitmap[..]), start, start + nr, false)
  {
    hide HasBit, Or, And, AndNot, IsSet, FirstWordMask, LastWordMask, RangeWritten, Covers, Painted;
    var p := start / WORD;
    var size := start + nr;
    var bitsToClear := WORD - start % WORD;
    var maskToClear := FirstWordMask(start);
    var remaining := nr;
    ghost var was := bitmap[..];
    FirstCovers(start);
    NothingWritten(was, start, false);
    while remaining >= bitsToClear
      invariant 0 <= remaining && 0 < bitsToClear && WORD * (p + 1) == size - remaining + bitsToClear
      invariant start <= size - remaining && WORD * p <= size - remaining
      invariant Covers(maskToClear, p, size - remaining, WORD * (p + 1))
      invariant RangeWritten(bitmap[..], was, start, size - remaining, false)
    {
      ghost var now := bitmap[..];
      AndNotPaints(now[p], maskToClear, p, size - remaining, WORD * (p + 1));
      Extends(now, was, AndNot(now[p], maskToClear), p, start, size - remaining, WORD * (p + 1), false);
      bitmap[p] := AndNot(bitmap[p], maskToClear);
      assert bitmap[..] == now[p := AndNot(now[p], maskToClear)];
      remaining := remaining - bitsToClear;
      bitsToClear := WORD;
      maskToClear := ONES;
      p := p + 1;
      OnesCovers(p);
    }
    if remaining > 0 {
      ghost var now, mask := bitmap[..], And(maskToClear, LastWordMask(size));
      LastCovers(maskToClear, p, size - remaining, size);
      AndNotPaints(now[p], mask, p, size - remaining, size);
      Extends(now, was, AndNot(now[p], mask), p, start, size - remaining, size, false);
      bitmap[p] := AndNot(bitmap[p], And(maskToClear, LastWordMask(size)));
      assert bitmap[..] == now[p := AndNot(now[p], mask)];
    }
  }

  /** Test one bit. */
  method BitmapTest(bitmap: array<bv64>, bit: nat) returns (r: bool)
    requires bit < WORD * bitmap.Length
    ensures r <==> IsSet(bitmap[..], bit)
  {
    r := bitmap[bit / WORD] & One(bit % WORD) != 0;
  }

  // The first clear bit.

  /** The number of clear bits below the lowest set one at or after k; 64 if there is none. */
  function TrailingZeros(x: bv64, k: nat := 0): (n: nat)
    requires k <= WORD
    ensures k <= n <= WORD
    ensures forall j :: k <= j < n ==> !HasBit(x, j)
    ensures n < WORD ==> HasBit(x, n)
    decreases WORD - k
  {
    if k == WORD || HasBit(x, k) then k else TrailingZeros(x, k + 1)
  }

  function Ffz(x: bv64): nat {
    TrailingZeros(AndNot(ONES, x))
  }

  lemma NextOnes(k: bv7)
    requires k < 63
    ensures OnesBelow(k + 1) == Or(OnesBelow(k), OneAt(k))
  {
  }

  lemma NextCast(b: bv7)
    requires b < 127
    ensures (b + 1) as nat == b as nat + 1
  {
  }

  lemma NextAmount(k: nat)
    requires k < WORD - 1
    ensures Amount(k + 1) == Amount(k) + 1 && Amount(k) < 63
  {
    hide Amount;
    CastBack(k);
    CastBack(k + 1);
    NextCast(Amount(k));
    CastOrder(Amount(k + 1), Amount(k) + 1);
    CastOrder(Amount(k) + 1, Amount(k + 1));
    CastOrder(63, Amount(k));
  }

  lemma NextMask(k: nat)
    requires k < WORD - 1
    ensures OnesBelow(Amount(k + 1)) == Or(OnesBelow(Amount(k)), One(k))
  {
    hide Amount, OnesBelow, OneAt, Or;
    NextAmount(k);
    NextOnes(Amount(k));
  }

  lemma DisjointOr(x: bv64, a: bv64, b: bv64)
    requires !Meets(x, a) && !Meets(x, b)
    ensures !Meets(x, Or(a, b))
  {
  }

  lemma {:induction false} NoBitsBelow(x: bv64, k: nat)
    requires k < WORD && forall j: nat :: j < k ==> !HasBit(x, j)
    ensures !Meets(x, OnesBelow(Amount(k)))
  {
    if k == 0 {
      assert OnesBelow(Amount(0)) == 0;
    } else {
      NoBitsBelow(x, k - 1);
      NextMask(k - 1);
      hide Meets, Or, OnesBelow, Amount, One;
      assert !HasBit(x, k - 1);
      DisjointOr(x, OnesBelow(Amount(k - 1)), One(k - 1));
    }
  }

  lemma TopBit(x: bv64)
    requires !Meets(x, OnesBelow(63)) && !Meets(x, OneAt(63))
    ensures x == 0
  {
  }

  /** A word with no bit set is zero. */
  lemma ZeroIffNone(x: bv64)
    ensures x == 0 <==> forall k: nat :: k < WORD ==> !HasBit(x, k)
  {
    if forall k: nat :: k < WORD ==> !HasBit(x, k) {
      NoBitsBelow(x, 63);
      assert !HasBit(x, 63);
      TopBit(x);
    }
  }

  /** A word with a clear bit has its first clear bit inside the word. */
  lemma FfzInWord(w: bv64)
    requires w != ONES
    ensures Ffz(w) < WORD && !HasBit(w, Ffz(w))
    ensures forall k: nat :: k < Ffz(w) ==> HasBit(w, k)
  {
    var x := AndNot(ONES, w);
    forall k: nat | k < WORD ensures HasBit(x, k) <==> !HasBit(w, k) {
      AndNotHas(ONES, w, k);
      OnesHas(k);
    }
    ZeroIffNone(x);
  }

  /** r is the least clear bit below numbits, or None when there is none. */
  ghost predicate IsFirstClear(words: seq<bv64>, numbits: nat, r: Option<nat>)
    requires numbits <= WORD * |words|
  {
    match r
    case Some(b) => b < numbits && !IsSet(words, b) && forall i: nat :: i < b ==> IsSet(words, i)
    case None => forall i: nat :: i < numbits ==> IsSet(words, i)
  }

  method BitmapFfz(bitmap: array<bv64>, numbits: nat) returns (r: Option<nat>)
    requires numbits <= WORD * bitmap.Length
    ensures IsFirstClear(bitmap[..], numbits, r)
  {
    hide HasBit, Ffz;
    for i := 0 to (numbits + WORD - 1) / WORD
      invariant forall j: nat :: j < WORD * i ==> IsSet(bitmap[..], j)
    {
      if bitmap[i] != ONES {
        FfzInWord(bitmap[i]);
        var bit := i * WORD + Ffz(bitmap[i]);
        assert forall j: nat :: WORD * i <= j < bit ==> IsSet(bitmap[..], j);
        if bit < numbits {
          return Some(bit);
        }
        return None;
      }
      forall j: nat | WORD * i <= j < WORD * (i + 1) ensures IsSet(bitmap[..], j) {
        OnesHas(j % WORD);
      }
    }
    return None;
  }

  // Taking the first clear bit and setting it, over and over.

  datatype Taking = Taking(before: seq<bv64>, got: Option<nat>, after: seq<bv64>)

  ghost predicate IsTaking(t: Taking, numbits: nat) {
    && numbits <= WORD * |t.before|
    && IsFirstClear(t.before, numbits, t.got)
    && match t.got
       case Some(b) => RangeWritten(t.after, t.before, b, b + 1, true)
       case None => t.after == t.before
  }

  /** Find the first clear bit and set it. */
  method TakeFirst(bitmap: array<bv64>, numbits: nat) returns (r: Option<nat>, ghost t: Taking)
    requires numbits <= WORD * bitmap.Length
    modifies bitmap
    ensures t == Taking(old(bitmap[..]), r, bitmap[..]) && IsTaking(t, numbits)
  {
    ghost var before := bitmap[..];
    r := BitmapFfz(bitmap, numbits);
    if r.Some? {
      BitmapSet(bitmap, r.value, 1);
    }
    t := Taking(before, r, bitmap[..]);
  }

  ghost predicate TakingRun(run: seq<Taking>, numbits: nat) {
    && (forall i :: 0 <= i < |run| ==> IsTaking(run[i], numbits))
    && forall i :: 0 < i < |run| ==> run[i].before == run[i - 1].after
  }

  /** Bits only ever become set. */
  lemma {:induction false} StaysSet(run: seq<Taking>, numbits: nat, i: nat, j: nat, bit: nat)
    requires TakingRun(run, numbits) && i < j < |run|
    requires bit < WORD * |run[i].after| && IsSet(run[i].after, bit)
    ensures bit < WORD * |run[j].before| && IsSet(run[j].before, bit)
    decreases j
  {
    if i < j - 1 {
      StaysSet(run, numbits, i, j - 1, bit);
      assert IsTaking(run[j - 1], numbits);
    }
  }

  /** No bit is ever handed out twice, and once one call finds none, neither does any later one. */
  lemma NeverTakenTwice(run: seq<Taking>, numbits: nat, i: nat, j: nat)
    requires TakingRun(run, numbits) && i < j < |run|
    ensures run[i].got.Some? ==> run[j].got != run[i].got
    ensures run[i].got.None? ==> run[j].got.None?
  {
    assert IsTaking(run[i], numbits) && IsTaking(run[j], numbits);
    if run[i].got.Some? {
      StaysSet(run, numbits, i, j, run[i].got.value);
    } else if run[j].got.Some? {
      StaysSet(run, numbits, i, j, run[j].got.value);
    }
  }
}
