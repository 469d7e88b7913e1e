/** The 32-bit occupancy word: setting, clearing and finding the highest bit. */
module Occupancy {
  import Bits

  const LEVELS := 32

  /** The word as the low half of one of twice the width. */
  function Wide(w: bv32): bv64 {
    w as bv64
  }

  function OneAt(k: bv7): bv32
    requires k < 32
  {
    (1 as bv32) << k
  }

  function One(k: nat): bv32
    requires k < LEVELS
  {
    LevelAmount(k);
    OneAt(Bits.Amount(k))
  }

  predicate HasLevel(w: bv32, k: nat)
    requires k < LEVELS
  {
    Bits.HasBit(Wide(w), k)
  }

  function Add(w: bv32, k: nat): bv32
    requires k < LEVELS
  {
    w | One(k)
  }

  function Remove(w: bv32, k: nat): bv32
    requires k < LEVELS
  {
    w & !One(k)
  }

  /** The number of clear bits above the highest set one among the lowest n. */
  function LeadingZeros(x: bv32, n: nat := LEVELS): (z: nat)
    requires n <= LEVELS
    ensures z <= n && (z < n ==> HasLevel(x, n - 1 - z))
    ensures forall k: nat :: n - z <= k < n ==> !HasLevel(x, k)
  {
    if n == 0 || HasLevel(x, n - 1) then 0 else 1 + LeadingZeros(x, n - 1)
  }

  lemma LevelAmount(k: nat)
    requires k < LEVELS
    ensures Bits.Amount(k) < 32
  {
  }

  // Widening commutes with everything done to the word.

  lemma WideOne(k: bv7)
    requires k < 32
    ensures Wide(OneAt(k)) == Bits.OneAt(k)
  {
  }

  lemma WideOr(w: bv32, m: bv32)
    ensures Wide(w | m) == Bits.Or(Wide(w), Wide(m))
  {
  }

  lemma WideAndNot(w: bv32, m: bv32)
    ensures Wide(w & !m) == Bits.AndNot(Wide(w), Wide(m))
  {
  }

  lemma WideHigh(w: bv32, k: bv7)
    requires 32 <= k < 64
    ensures !Bits.Meets(Wide(w), Bits.OneAt(k))
  {
  }

  lemma WideZero(w: bv32)
    ensures w == 0 <==> Wide(w) == 0
  {
  }

  lemma HighAmount(k: nat)
    requires LEVELS <= k < Bits.WORD
    ensures 32 <= Bits.Amount(k) < 64
  {
  }

  lemma LevelBit(k: nat, n: nat)
    requires k < LEVELS && n < LEVELS
    ensures HasLevel(One(k), n) <==> n == k
  {
    hide OneAt, Bits.OneAt, Bits.Amount, Bits.Meets, Wide;
    LevelAmount(k);
    WideOne(Bits.Amount(k));
    Bits.OneHas(k, n);
  }

  lemma WideAdd(w: bv32, k: nat)
    requires k < LEVELS
    ensures Wide(Add(w, k)) == Bits.Or(Wide(w), Wide(One(k)))
  {
    hide Wide, One, Bits.Or;
    WideOr(w, One(k));
  }

  lemma WideRemove(w: bv32, k: nat)
    requires k < LEVELS
    ensures Wide(Remove(w, k)) == Bits.AndNot(Wide(w), Wide(One(k)))
  {
    hide Wide, One, Bits.AndNot;
    WideAndNot(w, One(k));
  }

  lemma AddHas(w: bv32, k: nat, n: nat)
    requires k < LEVELS && n < LEVELS
    ensures HasLevel(Add(w, k), n) <==> n == k || HasLevel(w, n)
  {
    hide One, Bits.HasBit, Bits.Or, Wide, Add;
    LevelBit(k, n);
    WideAdd(w, k);
    Bits.OrHas(Wide(w), Wide(One(k)), n);
  }

  lemma RemoveHas(w: bv32, k: nat, n: nat)
    requires k < LEVELS && n < LEVELS
    ensures HasLevel(Remove(w, k), n) <==> n != k && HasLevel(w, n)
  {
    hide One, Bits.HasBit, Bits.AndNot, Wide, Remove;
    LevelBit(k, n);
    WideRemove(w, k);
    Bits.AndNotHas(Wide(w), Wide(One(k)), n);
  }

  lemma OrHas(w: bv32, m: bv32, n: nat)
    requires n < LEVELS
    ensures HasLevel(w | m, n) <==> HasLevel(w, n) || HasLevel(m, n)
  {
    hide Bits.HasBit, Bits.Or, Wide;
    WideOr(w, m);
    Bits.OrHas(Wide(w), Wide(m), n);
  }

  lemma AndNotHas(w: bv32, m: bv32, n: nat)
    requires n < LEVELS
    ensures HasLevel(w & !m, n) <==> HasLevel(w, n) && !HasLevel(m, n)
  {
    hide Bits.HasBit, Bits.AndNot, Wide;
    WideAndNot(w, m);
    Bits.AndNotHas(Wide(w), Wide(m), n);
  }

  lemma AndIsTwoDifferences(w: bv32, m: bv32)
    ensures w & m == w & !(w & !m)
  {
  }

  lemma AndHas(w: bv32, m: bv32, n: nat)
    requires n < LEVELS
    ensures HasLevel(w & m, n) <==> HasLevel(w, n) && HasLevel(m, n)
  {
    hide HasLevel;
    AndIsTwoDifferences(w, m);
    AndNotHas(w, m, n);
    AndNotHas(w, w & !m, n);
  }

  lemma HighClear(x: bv32, k: nat)
    requires LEVELS <= k < Bits.WORD
    ensures !Bits.HasBit(Wide(x), k)
  {
    HighAmount(k);
    WideHigh(x, Bits.Amount(k));
  }

  /** A word with no level set is zero. */
  lemma ZeroIffNone(x: bv32)
    ensures x == 0 <==> forall k: nat :: k < LEVELS ==> !HasLevel(x, k)
  {
    hide Wide, Bits.HasBit;
    WideZero(x);
    Bits.ZeroIffNone(Wide(x));
    if forall k: nat :: k < LEVELS ==> !HasLevel(x, k) {
      forall k: nat | k < Bits.WORD ensures !Bits.HasBit(Wide(x), k) {
        if k < LEVELS {
          assert !HasLevel(x, k);
        } else {
          HighClear(x, k);
        }
      }
    }
  }

  /** In a word that is not zero, 31 minus the leading zeros is the highest bit set. */
  lemma HighestLevel(x: bv32)
    requires x != 0
    ensures LeadingZeros(x) < LEVELS && HasLevel(x, 31 - LeadingZeros(x))
    ensures forall k: nat :: 31 - LeadingZeros(x) < k < LEVELS ==> !HasLevel(x, k)
  {
    hide HasLevel;
    ZeroIffNone(x);
  }
}
