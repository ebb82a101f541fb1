/** The presence word `_has_bits_[0]`: one bit per field, tested singly or a byte at a time. */
module HasBits {

  type Index = i: int | 0 <= i < 32

  function Mask(i: Index): bv32 { (1 as bv32) << i }

  /** The eight bits from start on; bits past the word are shifted out. */
  function GroupMask(start: Index): bv32 { (0xff as bv32) << start }

  predicate Hit(h: bv32, mask: bv32) { h & mask != 0 }

  predicate Has(h: bv32, i: Index) { Hit(h, Mask(i)) }

  predicate GroupHit(h: bv32, start: Index) { Hit(h, GroupMask(start)) }

  function Set(h: bv32, i: Index): (r: bv32)
    ensures forall j: Index :: Has(r, j) <==> i == j || Has(h, j)
  {
    forall j: Index ensures Has(h | Mask(i), j) <==> i == j || Has(h, j) {
      if i == j { SetOwn(h, i); } else { SetOther(h, i, j); }
    }
    h | Mask(i)
  }

  function Unset(h: bv32, i: Index): (r: bv32)
    ensures forall j: Index :: Has(r, j) <==> i != j && Has(h, j)
  {
    forall j: Index ensures Has(h & !Mask(i), j) <==> i != j && Has(h, j) {
      if i == j { UnsetOwn(h, i); } else { UnsetOther(h, i, j); }
    }
    h & !Mask(i)
  }

  lemma MaskApart(i: Index, j: Index)
    requires i != j
    ensures Mask(i) & Mask(j) == 0
  {
  }

  lemma SetOwn(h: bv32, i: Index)
    ensures Has(h | Mask(i), i)
  {
  }

  lemma SetOther(h: bv32, i: Index, j: Index)
    requires i != j
    ensures Has(h | Mask(i), j) <==> Has(h, j)
  {
    MaskApart(i, j);
  }

  lemma UnsetOwn(h: bv32, i: Index)
    ensures !Has(h & !Mask(i), i)
  {
  }

  lemma UnsetApart(h: bv32, a: bv32, b: bv32)
    requires a & b == 0
    ensures (h & !a) & b == h & b
  {
    assert (h & !a) & b == h & (!a & b);
    assert !a & b == b;
  }

  lemma UnsetOther(h: bv32, i: Index, j: Index)
    requires i != j
    ensures Has(h & !Mask(i), j) <==> Has(h, j)
  {
    MaskApart(i, j);
    UnsetApart(h, Mask(i), Mask(j));
  }

  lemma NoBits(i: Index)
    ensures !Has(0, i)
  {
  }

  /** A group test is not missed: a bit set within eight of the start hits the group mask. */
  lemma MemberHitsGroup(h: bv32, start: Index, i: Index)
    requires start <= i < start + 8 && Has(h, i)
    ensures GroupHit(h, start)
  {
  }
}
