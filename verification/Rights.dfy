/** Capability rights: a 32-bit mask ordered by inclusion. */
module Rights {
  import Occupancy

  function Both(a: bv32, b: bv32): bv32 {
    a & b
  }

  function Either(a: bv32, b: bv32): bv32 {
    a | b
  }

  function Except(a: bv32, b: bv32): bv32 {
    a & !b
  }

  datatype Rights = Rights(bits: bv32) {

    /** Is bit k set? */
    predicate Has(k: nat)
      requires k < 32
    {
      Occupancy.HasLevel(bits, k)
    }

    /** Does this contain all of other? */
    predicate Contains(other: Rights) {
      Both(bits, other.bits) == other.bits
    }

    predicate Intersects(other: Rights) {
      Both(bits, other.bits) != 0
    }

    function Intersection(other: Rights): Rights {
      Rights(Both(bits, other.bits))
    }

    function Union(other: Rights): Rights {
      Rights(Either(bits, other.bits))
    }

    function Difference(other: Rights): Rights {
      Rights(Except(bits, other.bits))
    }

    function Downgrade(allowed: Rights): Rights {
      Intersection(allowed)
    }
  }

  const DUPLICATE := Rights(1 << 4)
  const TRANSFER := Rights(1 << 5)
  const ALL := Rights((1 << 14) - 1)

  // What the code asks of a mask, bit by bit.

  lemma MayDuplicate(r: Rights)
    ensures r.Contains(DUPLICATE) <==> r.bits & 0x10 != 0
  {
  }

  lemma MayTransfer(r: Rights)
    ensures r.Contains(TRANSFER) <==> r.bits & 0x20 != 0
  {
  }

  lemma ContainsBits(a: Rights, b: Rights)
    ensures a.Contains(b) <==> b.bits & !a.bits == 0
  {
    hide Both;
    if a.Contains(b) {
      Absorbed(a.bits, b.bits);
    } else if b.bits & !a.bits == 0 {
      Subset(a.bits, b.bits);
    }
  }

  lemma Absorbed(a: bv32, b: bv32)
    requires Both(a, b) == b
    ensures b & !a == 0
  {
  }

  lemma Subset(a: bv32, b: bv32)
    requires b & !a == 0
    ensures Both(a, b) == b
  {
  }

  /** Containment is inclusion of the sets of bits, and so a partial order. */
  lemma ContainsIsInclusion(a: Rights, b: Rights)
    ensures a.Contains(b) <==> forall k: nat :: k < 32 && b.Has(k) ==> a.Has(k)
  {
    hide Occupancy.HasLevel, Rights.Contains;
    ContainsBits(a, b);
    var left := b.bits & !a.bits;
    Occupancy.ZeroIffNone(left);
    forall k: nat | k < 32 ensures Occupancy.HasLevel(left, k) <==> b.Has(k) && !a.Has(k) {
      Occupancy.AndNotHas(b.bits, a.bits, k);
    }
    if left != 0 {
      var k: nat :| k < 32 && Occupancy.HasLevel(left, k);
      assert b.Has(k) && !a.Has(k);
    }
  }

  lemma ContainsAntisymmetric(a: Rights, b: Rights)
    requires a.Contains(b) && b.Contains(a)
    ensures a == b
  {
    Commute(a.bits, b.bits);
  }

  // The operations on masks are those on sets of bits.

  lemma BothHas(a: bv32, b: bv32, k: nat)
    requires k < 32
    ensures Occupancy.HasLevel(Both(a, b), k) <==> Occupancy.HasLevel(a, k) && Occupancy.HasLevel(b, k)
  {
    hide Occupancy.HasLevel;
    Occupancy.AndHas(a, b, k);
  }

  lemma EitherHas(a: bv32, b: bv32, k: nat)
    requires k < 32
    ensures Occupancy.HasLevel(Either(a, b), k) <==> Occupancy.HasLevel(a, k) || Occupancy.HasLevel(b, k)
  {
    hide Occupancy.HasLevel;
    Occupancy.OrHas(a, b, k);
  }

  lemma ExceptHas(a: bv32, b: bv32, k: nat)
    requires k < 32
    ensures Occupancy.HasLevel(Except(a, b), k) <==> Occupancy.HasLevel(a, k) && !Occupancy.HasLevel(b, k)
  {
    hide Occupancy.HasLevel;
    Occupancy.AndNotHas(a, b, k);
  }

  lemma IntersectionHas(a: Rights, b: Rights, k: nat)
    requires k < 32
    ensures a.Intersection(b).Has(k) <==> a.Has(k) && b.Has(k)
  {
    hide Occupancy.HasLevel, Both;
    BothHas(a.bits, b.bits, k);
  }

  lemma UnionHas(a: Rights, b: Rights, k: nat)
    requires k < 32
    ensures a.Union(b).Has(k) <==> a.Has(k) || b.Has(k)
  {
    hide Occupancy.HasLevel, Either;
    EitherHas(a.bits, b.bits, k);
  }

  lemma DifferenceHas(a: Rights, b: Rights, k: nat)
    requires k < 32
    ensures a.Difference(b).Has(k) <==> a.Has(k) && !b.Has(k)
  {
    hide Occupancy.HasLevel, Except;
    ExceptHas(a.bits, b.bits, k);
  }

  lemma IntersectsIfShared(a: Rights, b: Rights)
    ensures a.Intersects(b) <==> exists k: nat :: k < 32 && a.Has(k) && b.Has(k)
  {
    hide Occupancy.HasLevel, Both;
    var both := Both(a.bits, b.bits);
    Occupancy.ZeroIffNone(both);
    forall k: nat | k < 32 ensures Occupancy.HasLevel(both, k) <==> a.Has(k) && b.Has(k) {
      BothHas(a.bits, b.bits, k);
    }
    if both != 0 {
      var k: nat :| k < 32 && Occupancy.HasLevel(both, k);
      assert a.Has(k) && b.Has(k);
    }
  }

  /** Downgrading yields the greatest rights below both arguments: nothing is added, no more is dropped than asked. */
  lemma DowngradeIsMeet(r: Rights, allowed: Rights, x: Rights)
    ensures r.Contains(r.Downgrade(allowed)) && allowed.Contains(r.Downgrade(allowed))
    ensures r.Contains(x) && allowed.Contains(x) <==> r.Downgrade(allowed).Contains(x)
  {
    hide Both;
    var a, b, c := r.bits, allowed.bits, x.bits;
    Absorb(a, b);
    Absorb(b, a);
    Commute(a, b);
    Associate(a, b, c);
    Absorb(a, Both(b, c));
    Associate(b, a, c);
    Absorb(b, Both(a, c));
  }

  lemma Absorb(a: bv32, b: bv32)
    ensures Both(a, Both(a, b)) == Both(a, b)
  {
  }

  lemma Commute(a: bv32, b: bv32)
    ensures Both(a, b) == Both(b, a)
  {
  }

  lemma Associate(a: bv32, b: bv32, c: bv32)
    ensures Both(Both(a, b), c) == Both(a, Both(b, c))
  {
  }

  lemma ContainsTransitive(x: Rights, y: Rights, z: Rights)
    requires x.Contains(y) && y.Contains(z)
    ensures x.Contains(z)
  {
    hide Both;
    Associate(x.bits, y.bits, z.bits);
  }

  lemma ContainsReflexive(x: Rights)
    ensures x.Contains(x)
  {
  }

  /** A set splits into what a mask keeps and what it removes. */
  lemma DifferenceSplits(r: Rights, mask: Rights)
    ensures r.Difference(mask).Union(r.Intersection(mask)) == r
    ensures !r.Difference(mask).Intersects(mask)
  {
    SplitBits(r.bits, mask.bits);
  }

  lemma SplitBits(a: bv32, m: bv32)
    ensures (a & !m) | (a & m) == a
    ensures (a & !m) & m == 0
  {
  }
}
