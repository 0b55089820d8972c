// The Bloom filter of uthash.h: one bit for each masked hash value, set on add and never cleared.
module Bloom {
  import opened Bits

  // 1 << i in a byte
  function Bit(i: nat): bv8
    requires i < 8
  {
    if i == 0 then 1 else if i == 1 then 2 else if i == 2 then 4 else if i == 3 then 8
    else if i == 4 then 16 else if i == 5 then 32 else if i == 6 then 64 else 128
  }

  lemma SetBit(x: bv8, i: nat, j: nat)
    requires i < 8 && j < 8
    ensures (x | Bit(i)) & Bit(j) != 0 <==> i == j || x & Bit(j) != 0
  {
  }

  lemma SetBits(x: bv8, i: nat)
    requires i < 8
    ensures forall j :: 0 <= j < 8 ==> ((x | Bit(i)) & Bit(j) != 0 <==> i == j || x & Bit(j) != 0)
  {
    forall j | 0 <= j < 8 ensures (x | Bit(i)) & Bit(j) != 0 <==> i == j || x & Bit(j) != 0 {
      SetBit(x, i, j);
    }
  }

  class Filter {
    const nbits: nat
    const bv: array<bv8>
    ghost var marked: set<nat>  // the bits that are set

    // The bit that stands for a hash value.
    function Slot(hashv: nat): (r: nat)
      ensures r < Pow2(nbits)
    {
      AndMask(hashv, nbits);
      And(hashv, Pow2(nbits) - 1)
    }

    ghost predicate Valid()
      reads this, bv
    {
      && 8 * bv.Length >= Pow2(nbits)
      && forall i :: 0 <= i < Pow2(nbits) ==> (bv[i / 8] & Bit(i % 8) != 0 <==> i in marked)
    }

    // HASH_BLOOM_MAKE
    constructor (nbits: nat)
      ensures Valid() && this.nbits == nbits && marked == {} && fresh(bv)
    {
      this.nbits := nbits;
      bv := new bv8[Pow2(nbits) / 8 + (if Pow2(nbits) % 8 != 0 then 1 else 0)](_ => 0);
      marked := {};
    }

    // HASH_BLOOM_ADD
    method Add(hashv: nat)
      requires Valid()
      modifies this, bv
      ensures Valid() && marked == old(marked) + {Slot(hashv)}
    {
      var idx := Slot(hashv);
      SetBits(bv[idx / 8], idx % 8);
      bv[idx / 8] := bv[idx / 8] | Bit(idx % 8);
      marked := marked + {idx};
    }

    // HASH_BLOOM_TEST
    method Test(hashv: nat) returns (r: bool)
      requires Valid()
      ensures r <==> Slot(hashv) in marked
    {
      var idx := Slot(hashv);
      r := bv[idx / 8] & Bit(idx % 8) != 0;
    }
  }
}
