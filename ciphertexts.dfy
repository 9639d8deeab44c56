/** The homomorphic-encryption library as the search uses it. A ciphertext is
    modelled by the plaintext slot vector it encrypts, so encryption and
    decryption are the identity; what is kept is that the library's operations
    change a handle in place. */
module Ciphertexts {
  import opened Field

  /** A ciphertext handle (`CTile`). Its operations overwrite it. */
  class Ciphertext {
    var slots: seq<int>

    constructor (v: seq<int>)
      ensures slots == v
    {
      slots := v;
    }

    /** `copy.deepcopy`: an independent handle with the same contents. */
    method Copy() returns (c: Ciphertext)
      ensures fresh(c) && c.slots == slots
    {
      c := new Ciphertext(slots);
    }

    method Sub(other: Ciphertext)
      requires |other.slots| == |slots|
      modifies this
      ensures slots == SubSlots(old(slots), old(other.slots))
    {
      slots := SubSlots(slots, other.slots);
    }

    method Negate()
      modifies this
      ensures slots == NegateSlots(old(slots))
    {
      slots := NegateSlots(slots);
    }

    method AddScalar(c: int)
      modifies this
      ensures slots == AddScalarSlots(old(slots), c)
    {
      slots := AddScalarSlots(slots, c);
    }

    method Add(other: Ciphertext)
      requires |other.slots| == |slots|
      modifies this
      ensures slots == AddSlots(old(slots), old(other.slots))
    {
      slots := AddSlots(slots, other.slots);
    }

    method Multiply(other: Ciphertext)
      requires |other.slots| == |slots|
      modifies this
      ensures slots == MultiplySlots(old(slots), old(other.slots))
    {
      slots := MultiplySlots(slots, other.slots);
    }

    method Rotate(k: int)
      requires |slots| > 0
      modifies this
      ensures slots == RotateSlots(old(slots), k)
    {
      slots := RotateSlots(slots, k);
    }
  }

  /** `eval.power_in_place`: raises every slot of c to e. */
  method PowerInPlace(c: Ciphertext, e: nat)
    modifies c
    ensures c.slots == PowerSlots(old(c.slots), e)
  {
    c.slots := PowerSlots(c.slots, e);
  }

  /** A vector of ciphertexts (`CTileVector`). It holds its own copies of the
      handles it was built from; indexing it and rotating the element rotates
      the copy held in the vector. */
  class CiphertextVector {
    var tiles: seq<seq<int>>

    /** `CTileVector([c] * count)`: count copies of c. */
    constructor OfCopies(c: Ciphertext, count: nat)
      ensures |tiles| == count && forall t :: 0 <= t < count ==> tiles[t] == c.slots
    {
      var v := c.slots;
      tiles := seq(count, t => v);
    }

    /** `vector[i].rotate(k)`. */
    method RotateAt(i: nat, k: int)
      requires i < |tiles| && |tiles[i]| > 0
      modifies this
      ensures tiles == old(tiles)[i := RotateSlots(old(tiles)[i], k)]
    {
      tiles := tiles[i := RotateSlots(tiles[i], k)];
    }
  }

  /** `eval.total_product`: a fresh ciphertext holding the slotwise product of
      all elements of the vector. */
  method TotalProduct(vec: CiphertextVector, n: nat) returns (r: Ciphertext)
    requires |vec.tiles| > 0
    requires forall t :: 0 <= t < |vec.tiles| ==> IsSlotVector(vec.tiles[t], n)
    ensures fresh(r) && r.slots == ProductSlots(vec.tiles, n)
  {
    r := new Ciphertext(vec.tiles[0]);
    MultiplyOnes(vec.tiles[0], n);
    assert vec.tiles[..1][..0] == [];
    for i := 1 to |vec.tiles|
      invariant r.slots == ProductSlots(vec.tiles[..i], n)
    {
      var tile := new Ciphertext(vec.tiles[i]);
      r.Multiply(tile);
      assert vec.tiles[..i + 1][..i] == vec.tiles[..i];
    }
    assert vec.tiles[..|vec.tiles|] == vec.tiles;
  }
}
