/** Combining the n slots of a per-slot match indicator into one all-or-nothing
    mask: the slot-count test that picks the algorithm, the rotate-and-multiply
    loop used when n is a power of two, and the product of all n rotations used
    otherwise. Both leave the product of all original slots in every slot. */
module Reduction {
  import opened Field
  import opened Ciphertexts

  // ---------------------------------------------------------------------------
  // Choosing the algorithm: `n & (n - 1) == 0`

  function Pow2(k: nat): (r: nat)
    ensures r >= 1
  {
    if k == 0 then 1 else 2 * Pow2(k - 1)
  }

  /** n is 1, 2, 4, 8, ... */
  predicate IsPow2(n: nat)
    decreases n
  {
    n == 1 || (n > 1 && n % 2 == 0 && IsPow2(n / 2))
  }

  /** The exponent of a power of two: the number of doublings from 1 to n. */
  function Log2(n: nat): (k: nat)
    requires IsPow2(n)
    ensures Pow2(k) == n
    decreases n
  {
    if n == 1 then 0 else 1 + Log2(n / 2)
  }

  lemma {:induction false} Pow2IsPow2(k: nat)
    ensures IsPow2(Pow2(k))
  {
    if k > 0 {
      Pow2IsPow2(k - 1);
      assert Pow2(k) / 2 == Pow2(k - 1);
    }
  }

  lemma {:induction false} Pow2Increasing(a: nat, b: nat)
    ensures a < b ==> Pow2(a) < Pow2(b)
    decreases b
  {
    if a < b - 1 {
      Pow2Increasing(a, b - 1);
    }
  }

  /** Bitwise AND of two non-negative integers (Python's `&`), bit by bit from
      the least significant one. */
  function BitAnd(a: nat, b: nat): (r: nat)
    decreases a
  {
    if a == 0 || b == 0 then 0
    else 2 * BitAnd(a / 2, b / 2) + (if a % 2 == 1 && b % 2 == 1 then 1 else 0)
  }

  lemma {:induction false} BitAndSelf(a: nat)
    ensures BitAnd(a, a) == a
    decreases a
  {
    if a > 0 {
      BitAndSelf(a / 2);
    }
  }

  /** The test the search runs once on the slot count: it picks the
      rotate-and-multiply loop exactly for the powers of two. */
  function IsPowerOfTwoTest(n: nat): (r: bool)
    requires n >= 1
    ensures r <==> IsPow2(n)
  {
    PowerOfTwoTestCorrect(n);
    BitAnd(n, n - 1) == 0
  }

  /** `n & (n - 1) == 0` holds exactly for the powers of two. */
  lemma {:induction false} PowerOfTwoTestCorrect(n: nat)
    requires n >= 1
    ensures BitAnd(n, n - 1) == 0 <==> IsPow2(n)
    decreases n
  {
    if n == 1 {
    } else if n % 2 == 1 {
      BitAndSelf(n / 2);
      assert (n - 1) / 2 == n / 2 && (n - 1) % 2 == 0;
      assert BitAnd(n, n - 1) == 2 * (n / 2);
    } else {
      PowerOfTwoTestCorrect(n / 2);
      assert (n - 1) / 2 == n / 2 - 1 && n % 2 == 0;
      assert BitAnd(n, n - 1) == 2 * BitAnd(n / 2, n / 2 - 1);
    }
  }

  // ---------------------------------------------------------------------------
  // Products of cyclically consecutive slots

  /** The integer product of all elements. */
  function Prod(s: seq<int>): (r: int)
  {
    if |s| == 0 then 1 else Prod(s[..|s| - 1]) * s[|s| - 1]
  }

  lemma {:induction false} ProdAppend(a: seq<int>, b: seq<int>)
    ensures Prod(a + b) == Prod(a) * Prod(b)
    decreases |b|
  {
    if |b| > 0 {
      var b' := b[..|b| - 1];
      assert (a + b)[..|a + b| - 1] == a + b';
      ProdAppend(a, b');
      var x, y, z := Prod(a), Prod(b'), b[|b| - 1];
      assert (a + b)[|a + b| - 1] == z;
      assert Prod(b) == y * z;
      assert Prod(a + b) == (x * y) * z;
      assert (x * y) * z == x * (y * z);
    } else {
      assert a + b == a;
    }
  }

  /** The product of the len slots of v ending at index j and going backwards
      round the cycle: v[j] * v[j - 1] * ... * v[j - len + 1], indices mod |v|. */
  function Window(v: seq<int>, j: int, len: nat): (r: int)
    requires |v| > 0
    decreases len
  {
    if len == 0 then 1 else v[j % |v|] * Window(v, j - 1, len - 1)
  }

  lemma MulAssoc(x: int, y: int, z: int)
    ensures x * (y * z) == (x * y) * z
  {
  }

  /** A window of length a + b is the window of length a followed by the
      window of length b just before it. */
  lemma {:induction false} WindowSplit(v: seq<int>, j: int, a: nat, b: nat)
    requires |v| > 0
    ensures Window(v, j, a + b) == Window(v, j, a) * Window(v, j - a, b)
    decreases a
  {
    if a > 0 {
      WindowSplit(v, j - 1, a - 1, b);
      MulAssoc(v[j % |v|], Window(v, j - 1, a - 1), Window(v, j - a, b));
    }
  }

  /** Windows ending at indices equal modulo |v| are equal. */
  lemma {:induction false} WindowCongruent(v: seq<int>, j1: int, j2: int, len: nat)
    requires |v| > 0 && j1 % |v| == j2 % |v|
    ensures Window(v, j1, len) == Window(v, j2, len)
    decreases len
  {
    if len > 0 {
      ModPred(j1, |v|);
      ModPred(j2, |v|);
      WindowCongruent(v, j1 - 1, j2 - 1, len - 1);
    }
  }

  /** A window that does not wrap round is the product of a slice. */
  lemma {:induction false} WindowSlice(v: seq<int>, j: int, len: nat)
    requires 0 <= j < |v| && len <= j + 1
    ensures Window(v, j, len) == Prod(v[j + 1 - len..j + 1])
    decreases len
  {
    if len > 0 {
      ModUnique(j, |v|, 0, j);
      var s := v[j + 1 - len..j + 1];
      assert s[..|s| - 1] == v[j + 1 - len..j];
      if len > 1 {
        WindowSlice(v, j - 1, len - 1);
      }
    }
  }

  /** Any n consecutive slots of an n-slot cycle make up all of it. */
  lemma WindowFull(v: seq<int>, j: int)
    requires |v| > 0
    ensures Window(v, j, |v|) == Prod(v)
  {
    var n := |v|;
    var i := j % n;
    ModUnique(i, n, 0, i);
    WindowCongruent(v, j, i, n);
    WindowSplit(v, i, i + 1, n - i - 1);
    assert i - (i + 1) == -1;
    WindowSlice(v, i, i + 1);
    WindowWrap(v, i);
    ProdSplit(v, i + 1);
  }

  /** The part of a window that has wrapped round past index 0. */
  lemma WindowWrap(v: seq<int>, i: int)
    requires 0 <= i < |v|
    ensures Window(v, -1, |v| - i - 1) == Prod(v[i + 1..])
  {
    var n := |v|;
    var len := n - i - 1;
    assert -1 % n == n - 1 by {
      ModUnique(-1, n, -1, n - 1);
    }
    assert (n - 1) % n == n - 1 by {
      ModUnique(n - 1, n, 0, n - 1);
    }
    WindowCongruent(v, -1, n - 1, len);
    WindowSlice(v, n - 1, len);
    assert v[n - len..n] == v[i + 1..];
  }

  lemma ProdSplit(v: seq<int>, k: nat)
    requires k <= |v|
    ensures Prod(v) == Prod(v[..k]) * Prod(v[k..])
  {
    assert v[..k] + v[k..] == v;
    ProdAppend(v[..k], v[k..]);
  }

  /** The window of length one is the slot itself. */
  lemma WindowOne(v: seq<int>, j: int)
    requires 0 <= j < |v|
    ensures Window(v, j, 1) == v[j]
  {
    ModUnique(j, |v|, 0, j);
  }

  // ---------------------------------------------------------------------------
  // What the reduction computes on a match indicator

  /** Every slot is 0 or 1. */
  predicate IsIndicator(v: seq<int>) {
    forall i :: 0 <= i < |v| ==> v[i] == 0 || v[i] == 1
  }

  /** The product of 0/1 values is 1 exactly when every one of them is 1. */
  lemma {:induction false} IndicatorProduct(v: seq<int>)
    requires IsIndicator(v)
    ensures Prod(v) == if forall i :: 0 <= i < |v| ==> v[i] == 1 then 1 else 0
    decreases |v|
  {
    if |v| > 0 {
      var v' := v[..|v| - 1];
      IndicatorProduct(v');
      assert forall i :: 0 <= i < |v'| ==> v'[i] == v[i];
      if forall i :: 0 <= i < |v| ==> v[i] == 1 {
        assert forall i :: 0 <= i < |v'| ==> v'[i] == 1;
      }
    }
  }

  /** Replicating the reduced product of an indicator gives all ones when every
      slot matched and all zeros otherwise. */
  lemma AndReduction(v: seq<int>, n: nat)
    requires IsIndicator(v)
    ensures Replicate(Prod(v) % P, n)
            == if forall i :: 0 <= i < |v| ==> v[i] == 1 then Ones(n) else Zeros(n)
  {
    IndicatorProduct(v);
  }

  // ---------------------------------------------------------------------------
  // Rotate-and-multiply, for a power-of-two slot count

  /** The invariant of the loop: slot j of m holds, modulo P, the product of
      the len slots of v ending at j. */
  predicate HoldsWindows(m: seq<int>, v: seq<int>, len: nat)
    requires |v| > 0
  {
    |m| == |v| && forall j :: 0 <= j < |v| ==> m[j] == Window(v, j, len) % P
  }

  /** Before the first round every slot holds its own window of length one. */
  lemma WindowsStart(v: seq<int>)
    requires |v| > 0 && IsSlotVector(v, |v|)
    ensures HoldsWindows(v, v, 1)
  {
    forall j | 0 <= j < |v|
      ensures v[j] == Window(v, j, 1) % P
    {
      WindowOne(v, j);
    }
  }

  /** One round of the loop at lines 186-190: the mask times its copy rotated
      rot places backwards. */
  function Round(m: seq<int>, rot: nat): (r: seq<int>)
    requires |m| > 0
    ensures |r| == |m|
  {
    MultiplySlots(m, RotateSlots(m, -(rot as int)))
  }

  /** One round of the loop: multiplying slots holding windows of length rot by
      their copy rotated rot places backwards yields windows of length 2 * rot. */
  lemma RotateMultiplyStep(v: seq<int>, m: seq<int>, rot: nat)
    requires |v| > 0 && HoldsWindows(m, v, rot)
    ensures HoldsWindows(Round(m, rot), v, 2 * rot)
  {
    var n := |v|;
    forall j | 0 <= j < n
      ensures MultiplySlots(m, RotateSlots(m, -(rot as int)))[j] == Window(v, j, 2 * rot) % P
    {
      var k := (j - rot) % n;
      ModUnique(k, n, 0, k);
      WindowCongruent(v, k, j - rot, rot);
      assert RotateSlots(m, -(rot as int))[j] == Window(v, j - rot, rot) % P;
      MulMod(Window(v, j, rot), Window(v, j - rot, rot));
      WindowSplit(v, j, rot, rot);
    }
  }

  /** Once the windows cover the whole cycle every slot holds the full product. */
  lemma WindowsDone(m: seq<int>, v: seq<int>)
    requires |v| > 0 && HoldsWindows(m, v, |v|)
    ensures m == Replicate(Prod(v) % P, |v|)
  {
    forall j | 0 <= j < |v|
      ensures m[j] == Prod(v) % P
    {
      WindowFull(v, j);
    }
  }

  /** The mask after the given number of rounds of the loop: round r multiplies
      it by itself rotated by -2^r. */
  function Rounds(v: seq<int>, rounds: nat): (m: seq<int>)
    requires |v| > 0
    ensures |m| == |v|
    decreases rounds
  {
    if rounds == 0 then v
    else
      Round(Rounds(v, rounds - 1), Pow2(rounds - 1))
  }

  /** After r rounds every slot holds the product of the 2^r slots ending at it. */
  lemma {:induction false} RoundsHoldWindows(v: seq<int>, rounds: nat)
    requires |v| > 0 && IsSlotVector(v, |v|)
    ensures HoldsWindows(Rounds(v, rounds), v, Pow2(rounds))
    decreases rounds
  {
    if rounds == 0 {
      WindowsStart(v);
    } else {
      RoundsHoldWindows(v, rounds - 1);
      RotateMultiplyStep(v, Rounds(v, rounds - 1), Pow2(rounds - 1));
    }
  }

  /** After log2(n) rounds every slot holds the product of all slots. */
  lemma RoundsDone(v: seq<int>, k: nat)
    requires |v| > 0 && IsSlotVector(v, |v|) && Pow2(k) == |v|
    ensures Rounds(v, k) == Replicate(Prod(v) % P, |v|)
  {
    RoundsHoldWindows(v, k);
    WindowsDone(Rounds(v, k), v);
  }

  /** The body of the loop at lines 186-190: multiply the mask in place by a
      copy of itself rotated by -rot. */
  method RotateMultiplyRound(maskEntry: Ciphertext, rot: nat)
    requires |maskEntry.slots| > 0
    modifies maskEntry
    ensures maskEntry.slots == Round(old(maskEntry.slots), rot)
  {
    var tmp := maskEntry.Copy();
    tmp.Rotate(-(rot as int));
    maskEntry.Multiply(tmp);
  }

  /** The loop at lines 185-190: with rot = 1, 2, 4, ... below n, multiply the
      mask by a copy of itself rotated by -rot. It takes log2(n) rounds. */
  method RotateAndMultiply(maskEntry: Ciphertext, n: nat) returns (ghost rounds: nat)
    requires IsPow2(n) && IsSlotVector(maskEntry.slots, n)
    modifies maskEntry
    ensures Pow2(rounds) == n
    ensures maskEntry.slots == Replicate(Prod(old(maskEntry.slots)) % P, n)
  {
    ghost var v := maskEntry.slots;
    ghost var k := Log2(n);
    var rot := 1;
    rounds := 0;
    while rot < n
      invariant rot == Pow2(rounds) && rounds <= k
      invariant maskEntry.slots == Rounds(v, rounds)
      decreases n - rot
    {
      RotateMultiplyRound(maskEntry, rot);
      Pow2Increasing(k, rounds);
      rot := rot * 2;
      rounds := rounds + 1;
    }
    Pow2Increasing(rounds, k);
    RoundsDone(v, k);
  }

  // ---------------------------------------------------------------------------
  // All rotations, for any other slot count

  /** The rotations of v by 0, -1, ..., -(count - 1). */
  function Rotations(v: seq<int>, count: nat): (r: seq<seq<int>>)
    requires |v| > 0
    ensures |r| == count && forall t :: 0 <= t < count ==> r[t] == RotateSlots(v, -t)
  {
    seq(count, t => RotateSlots(v, -t))
  }

  /** Slot j of the product of c + 1 rotations is slot j of the product of the
      first c times slot j of the rotation by -c. */
  lemma LastRotationAt(v: seq<int>, n: nat, c: nat, j: int)
    requires IsSlotVector(v, n) && n > 0 && 0 <= j < n
    ensures ProductSlots(Rotations(v, c + 1), n)[j]
            == ProductSlots(Rotations(v, c), n)[j] * v[(j - c) % n] % P
  {
    var rs := Rotations(v, c + 1);
    assert rs[..c] == Rotations(v, c);
    assert ProductSlots(rs, n) == MultiplySlots(ProductSlots(Rotations(v, c), n), RotateSlots(v, -(c as int)));
  }

  /** The window of length c + 1 ending at j, reduced modulo P, is the reduced
      window of length c times the slot just before it. */
  lemma WindowExtend(v: seq<int>, n: nat, c: nat, j: int)
    requires IsSlotVector(v, n) && n > 0 && 0 <= j < n
    ensures Window(v, j, c + 1) % P == (Window(v, j, c) % P) * v[(j - c) % n] % P
  {
    var k := (j - c) % n;
    ModUnique(k, n, 0, k);
    WindowOne(v, k);
    WindowCongruent(v, k, j - c, 1);
    WindowSplit(v, j, c, 1);
    MulMod(Window(v, j, c), v[k]);
    assert InField(v[k]);
    ModUnique(v[k], P, 0, v[k]);
  }

  /** Multiplying in the rotation by -c extends, in slot j, the window of
      length c ending at j by one slot. */
  lemma RotationsProductAt(v: seq<int>, n: nat, c: nat, j: int)
    requires IsSlotVector(v, n) && n > 0 && 0 <= j < n
    requires ProductSlots(Rotations(v, c), n)[j] == Window(v, j, c) % P
    ensures ProductSlots(Rotations(v, c + 1), n)[j] == Window(v, j, c + 1) % P
  {
    LastRotationAt(v, n, c, j);
    WindowExtend(v, n, c, j);
  }

  /** The slotwise product of the first count rotations holds, in slot j, the
      window of length count ending at j. */
  lemma {:induction false} RotationsProduct(v: seq<int>, n: nat, count: nat)
    requires IsSlotVector(v, n) && n > 0
    ensures forall j :: 0 <= j < n ==> ProductSlots(Rotations(v, count), n)[j] == Window(v, j, count) % P
    decreases count
  {
    if count > 0 {
      RotationsProduct(v, n, count - 1);
      forall j | 0 <= j < n
        ensures ProductSlots(Rotations(v, count), n)[j] == Window(v, j, count) % P
      {
        RotationsProductAt(v, n, count - 1, j);
      }
    }
  }

  /** Rotating by zero changes nothing. */
  lemma RotateZero(v: seq<int>)
    requires |v| > 0
    ensures RotateSlots(v, 0) == v
  {
    forall i | 0 <= i < |v|
      ensures RotateSlots(v, 0)[i] == v[i]
    {
      ModUnique(i, |v|, 0, i);
    }
  }

  /** The vector of lines 197-199 once copies 1 to i - 1 are rotated: the
      first i rotations followed by untouched copies. */
  function PartlyRotated(v: seq<int>, i: nat): (r: seq<seq<int>>)
    requires 0 < |v| && i <= |v|
    ensures |r| == |v|
  {
    Rotations(v, i) + seq(|v| - i, t => v)
  }

  /** n plain copies are the vector with only copy 0 "rotated", by zero. */
  lemma PartlyRotatedStart(v: seq<int>, tiles: seq<seq<int>>)
    requires |v| > 0 && |tiles| == |v| && forall t :: 0 <= t < |tiles| ==> tiles[t] == v
    ensures tiles == PartlyRotated(v, 1)
  {
    RotateZero(v);
  }

  /** Rotating copy i of the partly rotated vector by -i moves on to i + 1. */
  lemma PartlyRotatedStep(v: seq<int>, tiles: seq<seq<int>>, i: nat)
    requires 1 <= i < |v| && tiles == PartlyRotated(v, i)
    ensures tiles[i := RotateSlots(tiles[i], -(i as int))] == PartlyRotated(v, i + 1)
  {
    assert tiles[i] == v;
  }

  /** Once every copy from 1 on is rotated, the vector holds the n rotations of v. */
  lemma PartlyRotatedDone(v: seq<int>)
    requires |v| > 0
    ensures PartlyRotated(v, |v|) == Rotations(v, |v|)
  {
  }

  /** The product of all n rotations holds the product of all slots in every slot. */
  lemma AllRotations(v: seq<int>, n: nat)
    requires n > 0 && IsSlotVector(v, n)
    ensures ProductSlots(Rotations(v, n), n) == Replicate(Prod(v) % P, n)
  {
    RotationsProduct(v, n, n);
    forall j | 0 <= j < n
      ensures ProductSlots(Rotations(v, n), n)[j] == Prod(v) % P
    {
      WindowFull(v, j);
    }
  }

  /** Line 199 for one copy: rotate copy i by -i. */
  method RotateCopy(rotated: CiphertextVector, ghost v: seq<int>, i: nat)
    requires 1 <= i < |v| && rotated.tiles == PartlyRotated(v, i)
    modifies rotated
    ensures rotated.tiles == PartlyRotated(v, i + 1)
  {
    PartlyRotatedStep(v, rotated.tiles, i);
    rotated.RotateAt(i, -(i as int));
  }

  /** Lines 197-199: a vector of n copies of the mask, copy i rotated by -i. */
  method RotateCopies(maskEntry: Ciphertext, n: nat) returns (rotated: CiphertextVector)
    requires n > 0 && |maskEntry.slots| == n
    ensures fresh(rotated) && rotated.tiles == Rotations(maskEntry.slots, n)
  {
    rotated := new CiphertextVector.OfCopies(maskEntry, n);
    ghost var v := maskEntry.slots;
    PartlyRotatedStart(v, rotated.tiles);
    for i := 1 to n
      invariant rotated.tiles == PartlyRotated(v, i)
    {
      RotateCopy(rotated, v, i);
    }
    PartlyRotatedDone(v);
  }

  /** Lines 197-200: the slotwise product of all n rotations of the mask, as a
      new ciphertext. */
  method AllRotationsProduct(maskEntry: Ciphertext, n: nat) returns (r: Ciphertext)
    requires n > 0 && IsSlotVector(maskEntry.slots, n)
    ensures fresh(r) && r.slots == Replicate(Prod(maskEntry.slots) % P, n)
  {
    var rotated := RotateCopies(maskEntry, n);
    r := TotalProduct(rotated, n);
    AllRotations(maskEntry.slots, n);
  }
}
