/** Arithmetic of one plaintext slot: integers modulo the BGV plaintext prime,
    and the slotwise operations that the encryption library offers on a
    ciphertext, stated on the plaintext vector the ciphertext encrypts. */
module Field {

  /** The plaintext prime modulus of the scheme (`conf.p`). */
  const P: int := 127

  predicate InField(x: int) {
    0 <= x < P
  }

  /** A decrypted ciphertext: exactly `n` slots, each a field element. */
  predicate IsSlotVector(v: seq<int>, n: nat) {
    |v| == n && forall i :: 0 <= i < |v| ==> InField(v[i])
  }

  function Zeros(n: nat): (r: seq<int>)
    ensures IsSlotVector(r, n)
  {
    seq(n, i => 0)
  }

  function Ones(n: nat): (r: seq<int>)
    ensures IsSlotVector(r, n)
  {
    seq(n, i => 1)
  }

  /** The all-equal vector: what a slot-replicated match/no-match value looks like. */
  function Replicate(x: int, n: nat): (r: seq<int>)
    ensures |r| == n && forall i :: 0 <= i < n ==> r[i] == x
  {
    seq(n, i => x)
  }

  // ---------------------------------------------------------------------------
  // The library's slotwise operations, on the plaintext each ciphertext encrypts

  function SubSlots(a: seq<int>, b: seq<int>): (r: seq<int>)
    requires |a| == |b|
    ensures IsSlotVector(r, |a|)
  {
    seq(|a|, i requires 0 <= i < |a| => (a[i] - b[i]) % P)
  }

  function NegateSlots(a: seq<int>): (r: seq<int>)
    ensures IsSlotVector(r, |a|)
  {
    seq(|a|, i requires 0 <= i < |a| => -a[i] % P)
  }

  function AddScalarSlots(a: seq<int>, c: int): (r: seq<int>)
    ensures IsSlotVector(r, |a|)
  {
    seq(|a|, i requires 0 <= i < |a| => (a[i] + c) % P)
  }

  function AddSlots(a: seq<int>, b: seq<int>): (r: seq<int>)
    requires |a| == |b|
    ensures IsSlotVector(r, |a|)
  {
    seq(|a|, i requires 0 <= i < |a| => (a[i] + b[i]) % P)
  }

  function MultiplySlots(a: seq<int>, b: seq<int>): (r: seq<int>)
    requires |a| == |b|
    ensures IsSlotVector(r, |a|)
  {
    seq(|a|, i requires 0 <= i < |a| => a[i] * b[i] % P)
  }

  /** Every slot raised to e (`power_in_place`). */
  function PowerSlots(a: seq<int>, e: nat): (r: seq<int>)
    ensures IsSlotVector(r, |a|)
  {
    seq(|a|, i requires 0 <= i < |a| => Pow(a[i], e) % P)
  }

  /** Cyclic rotation by k slots: a positive k moves every slot k places
      towards the front, so slot i receives slot (i + k) mod n. */
  function RotateSlots(a: seq<int>, k: int): (r: seq<int>)
    requires |a| > 0
    ensures |r| == |a|
    ensures forall i :: 0 <= i < |a| ==> r[i] == a[(i + k) % |a|]
    ensures IsSlotVector(a, |a|) ==> IsSlotVector(r, |a|)
  {
    seq(|a|, i requires 0 <= i < |a| => a[(i + k) % |a|])
  }

  /** The slotwise product of a list of vectors (`total_product`); the empty
      product is the all-ones vector. */
  function ProductSlots(vs: seq<seq<int>>, n: nat): (r: seq<int>)
    requires forall t :: 0 <= t < |vs| ==> IsSlotVector(vs[t], n)
    ensures IsSlotVector(r, n)
  {
    if |vs| == 0 then Ones(n)
    else
      assert IsSlotVector(vs[|vs| - 1], n);
      MultiplySlots(ProductSlots(vs[..|vs| - 1], n), vs[|vs| - 1])
  }

  /** Multiplying the all-ones vector by a slot vector gives it back. */
  lemma MultiplyOnes(v: seq<int>, n: nat)
    requires IsSlotVector(v, n)
    ensures MultiplySlots(Ones(n), v) == v
  {
  }

  // ---------------------------------------------------------------------------
  // Integer powers and reduction modulo P

  /** x raised to e, over the integers. */
  function Pow(x: int, e: nat): (r: int)
    decreases e
  {
    if e == 0 then 1 else x * Pow(x, e - 1)
  }

  lemma {:induction false} PowOne(e: nat)
    ensures Pow(1, e) == 1
  {
    if e > 0 {
      PowOne(e - 1);
    }
  }

  lemma {:induction false} PowAdd(x: int, m: nat, n: nat)
    ensures Pow(x, m + n) == Pow(x, m) * Pow(x, n)
    decreases m
  {
    if m > 0 {
      PowAdd(x, m - 1, n);
      calc {
        Pow(x, m + n);
        x * Pow(x, (m - 1) + n);
        x * (Pow(x, m - 1) * Pow(x, n));
        (x * Pow(x, m - 1)) * Pow(x, n);
      }
    }
  }

  lemma {:induction false} PowMul(x: int, m: nat, n: nat)
    ensures Pow(x, m * n) == Pow(Pow(x, m), n)
    decreases n
  {
    if n > 0 {
      PowMul(x, m, n - 1);
      PowAdd(x, m, m * (n - 1));
      assert m * n == m + m * (n - 1);
    }
  }

  lemma {:induction false} PowProduct(a: int, b: int, n: nat)
    ensures Pow(a * b, n) == Pow(a, n) * Pow(b, n)
    decreases n
  {
    if n > 0 {
      PowProduct(a, b, n - 1);
      calc {
        Pow(a * b, n);
        (a * b) * (Pow(a, n - 1) * Pow(b, n - 1));
        (a * Pow(a, n - 1)) * (b * Pow(b, n - 1));
      }
    }
  }

  /** Reducing the factors first does not change a product modulo P. */
  lemma MulMod(a: int, b: int)
    ensures a * b % P == (a % P) * (b % P) % P
  {
    var qa, ra := a / P, a % P;
    var qb, rb := b / P, b % P;
    assert a * b == P * (qa * b + ra * qb) + ra * rb by {
      assert a == P * qa + ra;
      assert b == P * qb + rb;
    }
    ModAddMultiple(ra * rb, qa * b + ra * qb, P);
  }

  /** A nonzero multiple of a positive m is at least m away from zero. */
  lemma {:induction false} MulMonotone(m: int, d: int)
    requires m > 0
    ensures d >= 1 ==> m * d >= m
    ensures d <= -1 ==> m * d <= -m
    decreases if d < 0 then -d else d
  {
    if d > 1 {
      MulMonotone(m, d - 1);
      assert m * d == m * (d - 1) + m;
    } else if d < -1 {
      MulMonotone(m, d + 1);
      assert m * d == m * (d + 1) - m;
    }
  }

  /** The remainder is the unique r in [0, m) with x == m * q + r. */
  lemma ModUnique(x: int, m: int, q: int, r: int)
    requires m > 0 && 0 <= r < m && x == m * q + r
    ensures x % m == r
  {
    var q', r' := x / m, x % m;
    assert m * (q - q') == r' - r;
    MulMonotone(m, q - q');
  }

  /** Adding a multiple of the modulus does not change a remainder. */
  lemma ModAddMultiple(x: int, k: int, m: int)
    requires m > 0
    ensures (m * k + x) % m == x % m
  {
    ModUnique(m * k + x, m, k + x / m, x % m);
  }

  /** Stepping one index back on a cycle of length m. */
  lemma ModPred(x: int, m: int)
    requires m > 0
    ensures (x - 1) % m == if x % m == 0 then m - 1 else x % m - 1
  {
    if x % m == 0 {
      ModUnique(x - 1, m, x / m - 1, m - 1);
    } else {
      ModUnique(x - 1, m, x / m, x % m - 1);
    }
  }

  /** Reducing the base first does not change a power modulo P. */
  lemma {:induction false} PowMod(a: int, n: nat)
    ensures Pow(a % P, n) % P == Pow(a, n) % P
    decreases n
  {
    if n > 0 {
      PowMod(a, n - 1);
      var x, y, z := a % P, Pow(a % P, n - 1), Pow(a, n - 1);
      assert Pow(a % P, n) == x * y;
      assert Pow(a, n) == a * z;
      MulMod(x, y);
      MulMod(a, z);
      assert x % P == x && y % P == z % P;
    }
  }


  // ---------------------------------------------------------------------------
  // Fermat's little theorem for P = 127

  /** x^(P-1) is 1 modulo P, written with the literal values of P - 1 and P
      (126 and 127), which keeps the verifier's case analysis below cheap. */
  predicate FermatHoldsAt(x: int) {
    Pow(x, 126) % 127 == 1
  }

  /** The property is closed under multiplication modulo P. */
  lemma FermatClosed(a: int, b: int)
    requires FermatHoldsAt(a) && FermatHoldsAt(b)
    ensures FermatHoldsAt(a * b % P)
  {
    calc {
      Pow(a * b % P, P - 1) % P;
      { PowMod(a * b, P - 1); }
      Pow(a * b, P - 1) % P;
      { PowProduct(a, b, P - 1); }
      Pow(a, P - 1) * Pow(b, P - 1) % P;
      { MulMod(Pow(a, P - 1), Pow(b, P - 1)); }
      1;
    }
  }

  /** 3^126 = (3^9)^14, 3^9 = 19683 which is -2 modulo 127, and 2^14 = 16384 = 129 * 127 + 1. */
  lemma FermatAtThree()
    ensures FermatHoldsAt(3)
  {
    assert Pow(3, 9) == 19683;
    assert Pow(-2, 14) == 16384;
    calc {
      Pow(3, 126) % P;
      { PowMul(3, 9, 14); }
      Pow(19683, 14) % P;
      { PowMod(19683, 14); }
      Pow(125, 14) % P;
      { PowMod(-2, 14); }
      Pow(-2, 14) % P;
      1;
    }
  }

  /** d follows c in the powers of 3 modulo P. */
  predicate OrbitStep(c: int, d: int) {
    d == 3 * c % P
  }

  /** The 126 powers of 3 modulo P, one step at a time: 1, 3, 9, 27, 81, 116, ...
      They are all distinct, so 3 generates the multiplicative group modulo 127. */
  lemma OrbitOfThree()
    ensures OrbitStep(1, 3)
    ensures OrbitStep(3, 9)
    ensures OrbitStep(9, 27)
    ensures OrbitStep(27, 81)
    ensures OrbitStep(81, 116)
    ensures OrbitStep(116, 94)
    ensures OrbitStep(94, 28)
    ensures OrbitStep(28, 84)
    ensures OrbitStep(84, 125)
    ensures OrbitStep(125, 121)
    ensures OrbitStep(121, 109)
    ensures OrbitStep(109, 73)
    ensures OrbitStep(73, 92)
    ensures OrbitStep(92, 22)
    ensures OrbitStep(22, 66)
    ensures OrbitStep(66, 71)
    ensures OrbitStep(71, 86)
    ensures OrbitStep(86, 4)
    ensures OrbitStep(4, 12)
    ensures OrbitStep(12, 36)
    ensures OrbitStep(36, 108)
    ensures OrbitStep(108, 70)
    ensures OrbitStep(70, 83)
    ensures OrbitStep(83, 122)
    ensures OrbitStep(122, 112)
    ensures OrbitStep(112, 82)
    ensures OrbitStep(82, 119)
    ensures OrbitStep(119, 103)
    ensures OrbitStep(103, 55)
    ensures OrbitStep(55, 38)
    ensures OrbitStep(38, 114)
    ensures OrbitStep(114, 88)
    ensures OrbitStep(88, 10)
    ensures OrbitStep(10, 30)
    ensures OrbitStep(30, 90)
    ensures OrbitStep(90, 16)
    ensures OrbitStep(16, 48)
    ensures OrbitStep(48, 17)
    ensures OrbitStep(17, 51)
    ensures OrbitStep(51, 26)
    ensures OrbitStep(26, 78)
    ensures OrbitStep(78, 107)
    ensures OrbitStep(107, 67)
    ensures OrbitStep(67, 74)
    ensures OrbitStep(74, 95)
    ensures OrbitStep(95, 31)
    ensures OrbitStep(31, 93)
    ensures OrbitStep(93, 25)
    ensures OrbitStep(25, 75)
    ensures OrbitStep(75, 98)
    ensures OrbitStep(98, 40)
    ensures OrbitStep(40, 120)
    ensures OrbitStep(120, 106)
    ensures OrbitStep(106, 64)
    ensures OrbitStep(64, 65)
    ensures OrbitStep(65, 68)
    ensures OrbitStep(68, 77)
    ensures OrbitStep(77, 104)
    ensures OrbitStep(104, 58)
    ensures OrbitStep(58, 47)
    ensures OrbitStep(47, 14)
    ensures OrbitStep(14, 42)
    ensures OrbitStep(42, 126)
    ensures OrbitStep(126, 124)
    ensures OrbitStep(124, 118)
    ensures OrbitStep(118, 100)
    ensures OrbitStep(100, 46)
    ensures OrbitStep(46, 11)
    ensures OrbitStep(11, 33)
    ensures OrbitStep(33, 99)
    ensures OrbitStep(99, 43)
    ensures OrbitStep(43, 2)
    ensures OrbitStep(2, 6)
    ensures OrbitStep(6, 18)
    ensures OrbitStep(18, 54)
    ensures OrbitStep(54, 35)
    ensures OrbitStep(35, 105)
    ensures OrbitStep(105, 61)
    ensures OrbitStep(61, 56)
    ensures OrbitStep(56, 41)
    ensures OrbitStep(41, 123)
    ensures OrbitStep(123, 115)
    ensures OrbitStep(115, 91)
    ensures OrbitStep(91, 19)
    ensures OrbitStep(19, 57)
    ensures OrbitStep(57, 44)
    ensures OrbitStep(44, 5)
    ensures OrbitStep(5, 15)
    ensures OrbitStep(15, 45)
    ensures OrbitStep(45, 8)
    ensures OrbitStep(8, 24)
    ensures OrbitStep(24, 72)
    ensures OrbitStep(72, 89)
    ensures OrbitStep(89, 13)
    ensures OrbitStep(13, 39)
    ensures OrbitStep(39, 117)
    ensures OrbitStep(117, 97)
    ensures OrbitStep(97, 37)
    ensures OrbitStep(37, 111)
    ensures OrbitStep(111, 79)
    ensures OrbitStep(79, 110)
    ensures OrbitStep(110, 76)
    ensures OrbitStep(76, 101)
    ensures OrbitStep(101, 49)
    ensures OrbitStep(49, 20)
    ensures OrbitStep(20, 60)
    ensures OrbitStep(60, 53)
    ensures OrbitStep(53, 32)
    ensures OrbitStep(32, 96)
    ensures OrbitStep(96, 34)
    ensures OrbitStep(34, 102)
    ensures OrbitStep(102, 52)
    ensures OrbitStep(52, 29)
    ensures OrbitStep(29, 87)
    ensures OrbitStep(87, 7)
    ensures OrbitStep(7, 21)
    ensures OrbitStep(21, 63)
    ensures OrbitStep(63, 62)
    ensures OrbitStep(62, 59)
    ensures OrbitStep(59, 50)
    ensures OrbitStep(50, 23)
    ensures OrbitStep(23, 69)
    ensures OrbitStep(69, 80)
    ensures OrbitStep(80, 113)
    ensures OrbitStep(113, 85)
  {
  }

  lemma FermatStep(c: int, d: int)
    requires FermatHoldsAt(c) && OrbitStep(c, d)
    ensures FermatHoldsAt(d)
  {
    FermatAtThree();
    FermatClosed(3, c);
  }

  /** The first 63 powers of 3 modulo P satisfy Fermat's little theorem. */
  lemma FermatOnOrbitFirstHalf()
    ensures FermatHoldsAt(1) && FermatHoldsAt(3) && FermatHoldsAt(9) && FermatHoldsAt(27) && FermatHoldsAt(81) && FermatHoldsAt(116) && FermatHoldsAt(94) && FermatHoldsAt(28)
    ensures FermatHoldsAt(84) && FermatHoldsAt(125) && FermatHoldsAt(121) && FermatHoldsAt(109) && FermatHoldsAt(73) && FermatHoldsAt(92) && FermatHoldsAt(22) && FermatHoldsAt(66)
    ensures FermatHoldsAt(71) && FermatHoldsAt(86) && FermatHoldsAt(4) && FermatHoldsAt(12) && FermatHoldsAt(36) && FermatHoldsAt(108) && FermatHoldsAt(70) && FermatHoldsAt(83)
    ensures FermatHoldsAt(122) && FermatHoldsAt(112) && FermatHoldsAt(82) && FermatHoldsAt(119) && FermatHoldsAt(103) && FermatHoldsAt(55) && FermatHoldsAt(38) && FermatHoldsAt(114)
    ensures FermatHoldsAt(88) && FermatHoldsAt(10) && FermatHoldsAt(30) && FermatHoldsAt(90) && FermatHoldsAt(16) && FermatHoldsAt(48) && FermatHoldsAt(17) && FermatHoldsAt(51)
    ensures FermatHoldsAt(26) && FermatHoldsAt(78) && FermatHoldsAt(107) && FermatHoldsAt(67) && FermatHoldsAt(74) && FermatHoldsAt(95) && FermatHoldsAt(31) && FermatHoldsAt(93)
    ensures FermatHoldsAt(25) && FermatHoldsAt(75) && FermatHoldsAt(98) && FermatHoldsAt(40) && FermatHoldsAt(120) && FermatHoldsAt(106) && FermatHoldsAt(64) && FermatHoldsAt(65)
    ensures FermatHoldsAt(68) && FermatHoldsAt(77) && FermatHoldsAt(104) && FermatHoldsAt(58) && FermatHoldsAt(47) && FermatHoldsAt(14) && FermatHoldsAt(42)
  {
    PowOne(126);
    OrbitOfThree();
    FermatStep(1, 3); FermatStep(3, 9); FermatStep(9, 27); FermatStep(27, 81); FermatStep(81, 116);
    FermatStep(116, 94); FermatStep(94, 28); FermatStep(28, 84); FermatStep(84, 125); FermatStep(125, 121);
    FermatStep(121, 109); FermatStep(109, 73); FermatStep(73, 92); FermatStep(92, 22); FermatStep(22, 66);
    FermatStep(66, 71); FermatStep(71, 86); FermatStep(86, 4); FermatStep(4, 12); FermatStep(12, 36);
    FermatStep(36, 108); FermatStep(108, 70); FermatStep(70, 83); FermatStep(83, 122); FermatStep(122, 112);
    FermatStep(112, 82); FermatStep(82, 119); FermatStep(119, 103); FermatStep(103, 55); FermatStep(55, 38);
    FermatStep(38, 114); FermatStep(114, 88); FermatStep(88, 10); FermatStep(10, 30); FermatStep(30, 90);
    FermatStep(90, 16); FermatStep(16, 48); FermatStep(48, 17); FermatStep(17, 51); FermatStep(51, 26);
    FermatStep(26, 78); FermatStep(78, 107); FermatStep(107, 67); FermatStep(67, 74); FermatStep(74, 95);
    FermatStep(95, 31); FermatStep(31, 93); FermatStep(93, 25); FermatStep(25, 75); FermatStep(75, 98);
    FermatStep(98, 40); FermatStep(40, 120); FermatStep(120, 106); FermatStep(106, 64); FermatStep(64, 65);
    FermatStep(65, 68); FermatStep(68, 77); FermatStep(77, 104); FermatStep(104, 58); FermatStep(58, 47);
    FermatStep(47, 14); FermatStep(14, 42);
  }

  /** The remaining 63 powers of 3 modulo P satisfy it too. */
  lemma FermatOnOrbitSecondHalf()
    ensures FermatHoldsAt(126) && FermatHoldsAt(124) && FermatHoldsAt(118) && FermatHoldsAt(100) && FermatHoldsAt(46) && FermatHoldsAt(11) && FermatHoldsAt(33) && FermatHoldsAt(99)
    ensures FermatHoldsAt(43) && FermatHoldsAt(2) && FermatHoldsAt(6) && FermatHoldsAt(18) && FermatHoldsAt(54) && FermatHoldsAt(35) && FermatHoldsAt(105) && FermatHoldsAt(61)
    ensures FermatHoldsAt(56) && FermatHoldsAt(41) && FermatHoldsAt(123) && FermatHoldsAt(115) && FermatHoldsAt(91) && FermatHoldsAt(19) && FermatHoldsAt(57) && FermatHoldsAt(44)
    ensures FermatHoldsAt(5) && FermatHoldsAt(15) && FermatHoldsAt(45) && FermatHoldsAt(8) && FermatHoldsAt(24) && FermatHoldsAt(72) && FermatHoldsAt(89) && FermatHoldsAt(13)
    ensures FermatHoldsAt(39) && FermatHoldsAt(117) && FermatHoldsAt(97) && FermatHoldsAt(37) && FermatHoldsAt(111) && FermatHoldsAt(79) && FermatHoldsAt(110) && FermatHoldsAt(76)
    ensures FermatHoldsAt(101) && FermatHoldsAt(49) && FermatHoldsAt(20) && FermatHoldsAt(60) && FermatHoldsAt(53) && FermatHoldsAt(32) && FermatHoldsAt(96) && FermatHoldsAt(34)
    ensures FermatHoldsAt(102) && FermatHoldsAt(52) && FermatHoldsAt(29) && FermatHoldsAt(87) && FermatHoldsAt(7) && FermatHoldsAt(21) && FermatHoldsAt(63) && FermatHoldsAt(62)
    ensures FermatHoldsAt(59) && FermatHoldsAt(50) && FermatHoldsAt(23) && FermatHoldsAt(69) && FermatHoldsAt(80) && FermatHoldsAt(113) && FermatHoldsAt(85)
  {
    FermatOnOrbitFirstHalf();
    OrbitOfThree();
    FermatStep(42, 126); FermatStep(126, 124); FermatStep(124, 118); FermatStep(118, 100); FermatStep(100, 46);
    FermatStep(46, 11); FermatStep(11, 33); FermatStep(33, 99); FermatStep(99, 43); FermatStep(43, 2);
    FermatStep(2, 6); FermatStep(6, 18); FermatStep(18, 54); FermatStep(54, 35); FermatStep(35, 105);
    FermatStep(105, 61); FermatStep(61, 56); FermatStep(56, 41); FermatStep(41, 123); FermatStep(123, 115);
    FermatStep(115, 91); FermatStep(91, 19); FermatStep(19, 57); FermatStep(57, 44); FermatStep(44, 5);
    FermatStep(5, 15); FermatStep(15, 45); FermatStep(45, 8); FermatStep(8, 24); FermatStep(24, 72);
    FermatStep(72, 89); FermatStep(89, 13); FermatStep(13, 39); FermatStep(39, 117); FermatStep(117, 97);
    FermatStep(97, 37); FermatStep(37, 111); FermatStep(111, 79); FermatStep(79, 110); FermatStep(110, 76);
    FermatStep(76, 101); FermatStep(101, 49); FermatStep(49, 20); FermatStep(20, 60); FermatStep(60, 53);
    FermatStep(53, 32); FermatStep(32, 96); FermatStep(96, 34); FermatStep(34, 102); FermatStep(102, 52);
    FermatStep(52, 29); FermatStep(29, 87); FermatStep(87, 7); FermatStep(7, 21); FermatStep(21, 63);
    FermatStep(63, 62); FermatStep(62, 59); FermatStep(59, 50); FermatStep(50, 23); FermatStep(23, 69);
    FermatStep(69, 80); FermatStep(80, 113); FermatStep(113, 85);
  }

  /** Fermat's little theorem for the modulus 127: every nonzero field element
      raised to P - 1 is 1. Starting from 1 and multiplying by 3 reaches every
      nonzero element, and each step keeps the property. */
  lemma Fermat(x: int)
    requires 0 < x < P
    ensures FermatHoldsAt(x)
  {
    FermatOnOrbitFirstHalf();
    FermatOnOrbitSecondHalf();
    match x
      case 1 => case 2 => case 3 => case 4 => case 5 => case 6 => case 7 => case 8 => case 9 => case 10 => case 11 => case 12 =>
      case 13 => case 14 => case 15 => case 16 => case 17 => case 18 => case 19 => case 20 => case 21 => case 22 => case 23 => case 24 =>
      case 25 => case 26 => case 27 => case 28 => case 29 => case 30 => case 31 => case 32 => case 33 => case 34 => case 35 => case 36 =>
      case 37 => case 38 => case 39 => case 40 => case 41 => case 42 => case 43 => case 44 => case 45 => case 46 => case 47 => case 48 =>
      case 49 => case 50 => case 51 => case 52 => case 53 => case 54 => case 55 => case 56 => case 57 => case 58 => case 59 => case 60 =>
      case 61 => case 62 => case 63 => case 64 => case 65 => case 66 => case 67 => case 68 => case 69 => case 70 => case 71 => case 72 =>
      case 73 => case 74 => case 75 => case 76 => case 77 => case 78 => case 79 => case 80 => case 81 => case 82 => case 83 => case 84 =>
      case 85 => case 86 => case 87 => case 88 => case 89 => case 90 => case 91 => case 92 => case 93 => case 94 => case 95 => case 96 =>
      case 97 => case 98 => case 99 => case 100 => case 101 => case 102 => case 103 => case 104 => case 105 => case 106 => case 107 => case 108 =>
      case 109 => case 110 => case 111 => case 112 => case 113 => case 114 => case 115 => case 116 => case 117 => case 118 => case 119 => case 120 =>
      case 121 => case 122 => case 123 => case 124 => case 125 => case 126 =>
  }

  /** What raising to P - 1 does to a field element: 0 stays 0, anything else becomes 1. */
  lemma PowerIndicator(x: int)
    requires InField(x)
    ensures Pow(x, P - 1) % P == if x == 0 then 0 else 1
  {
    if x != 0 {
      Fermat(x);
    }
  }
}
