/** The oblivious equality lookup: every record of the encrypted transaction
    database is compared with the encrypted query slot by slot, the comparison
    is reduced to an all-ones or all-zeros mask, the mask selects the record's
    value, and the selected values are summed into one aggregate. */
module Lookup {
  import opened Outcomes
  import opened Field
  import opened Ciphertexts
  import opened Reduction

  /** One database entry: the encrypted primary zone (the key) and the encrypted
      transaction zone (the value). */
  datatype Record = Record(key: seq<int>, value: seq<int>)

  datatype SearchError =
    /** `mask[0]` on an empty list of masks. */
    | EmptyDatabase

  predicate ValidDatabase(db: seq<Record>, n: nat) {
    forall t :: 0 <= t < |db| ==> IsSlotVector(db[t].key, n) && IsSlotVector(db[t].value, n)
  }

  predicate DistinctKeys(db: seq<Record>) {
    forall u, w :: 0 <= u < w < |db| ==> db[u].key != db[w].key
  }

  // ---------------------------------------------------------------------------
  // The per-slot equality indicator (lines 164-177)

  /** The intended per-slot comparison: 1 where the slots are equal, 0 elsewhere. */
  function MatchIndicator(a: seq<int>, b: seq<int>): (r: seq<int>)
    requires |a| == |b|
    ensures |r| == |a| && IsIndicator(r)
  {
    seq(|a|, i requires 0 <= i < |a| => if a[i] == b[i] then 1 else 0)
  }

  /** Subtracting, raising to P - 1, negating and adding 1 computes the match
      indicator, by Fermat's little theorem for P. */
  lemma EqualityIndicatorCorrect(a: seq<int>, b: seq<int>, n: nat)
    requires IsSlotVector(a, n) && IsSlotVector(b, n)
    ensures AddScalarSlots(NegateSlots(PowerSlots(SubSlots(a, b), P - 1)), 1) == MatchIndicator(a, b)
  {
    var d := SubSlots(a, b);
    var e := PowerSlots(d, P - 1);
    forall i | 0 <= i < n
      ensures AddScalarSlots(NegateSlots(e), 1)[i] == MatchIndicator(a, b)[i]
    {
      PowerIndicator(d[i]);
      assert d[i] == 0 <==> a[i] == b[i];
    }
  }

  /** Lines 164-177 (and 220-223): turns c into the match indicator of c and q. */
  method EqualityIndicator(c: Ciphertext, q: Ciphertext, ghost n: nat)
    requires c != q && IsSlotVector(c.slots, n) && IsSlotVector(q.slots, n)
    modifies c
    ensures c.slots == MatchIndicator(old(c.slots), q.slots)
  {
    EqualityIndicatorCorrect(c.slots, q.slots, n);
    c.Sub(q);
    PowerInPlace(c, P - 1);
    c.Negate();
    c.AddScalar(1);
  }

  // ---------------------------------------------------------------------------
  // Masking one record (lines 202-206)

  /** What a record contributes to the aggregate: its value when its key is the
      query, the zero vector otherwise. */
  function Masked(rec: Record, query: seq<int>, n: nat): (r: seq<int>)
    requires IsSlotVector(rec.value, n)
    ensures IsSlotVector(r, n)
  {
    if rec.key == query then rec.value else Zeros(n)
  }

  /** The reduced indicator is all ones exactly for the matching key, and
      multiplying it into the value keeps the value or clears it. */
  lemma MaskedEntryCorrect(rec: Record, query: seq<int>, n: nat)
    requires IsSlotVector(rec.key, n) && IsSlotVector(rec.value, n) && IsSlotVector(query, n)
    ensures MultiplySlots(Replicate(Prod(MatchIndicator(rec.key, query)) % P, n), rec.value)
            == Masked(rec, query, n)
  {
    var m := MatchIndicator(rec.key, query);
    AndReduction(m, n);
    if forall i :: 0 <= i < n ==> m[i] == 1 {
      assert rec.key == query by {
        forall i | 0 <= i < n
          ensures rec.key[i] == query[i]
        {
          assert m[i] == 1;
        }
      }
    } else {
      var i :| 0 <= i < n && m[i] != 1;
      assert rec.key[i] != query[i];
    }
  }

  // ---------------------------------------------------------------------------
  // The aggregate (lines 211-213)

  /** Slotwise sum of a list of vectors. */
  function SumSlots(vs: seq<seq<int>>, n: nat): (r: seq<int>)
    requires forall t :: 0 <= t < |vs| ==> IsSlotVector(vs[t], n)
    ensures IsSlotVector(r, n)
  {
    if |vs| == 0 then Zeros(n)
    else
      assert IsSlotVector(vs[|vs| - 1], n);
      AddSlots(SumSlots(vs[..|vs| - 1], n), vs[|vs| - 1])
  }

  /** The masked entries of the whole database, in order. */
  function Masks(db: seq<Record>, query: seq<int>, n: nat): (r: seq<seq<int>>)
    requires ValidDatabase(db, n)
    ensures |r| == |db| && forall t :: 0 <= t < |db| ==> r[t] == Masked(db[t], query, n)
  {
    seq(|db|, t requires 0 <= t < |db| => Masked(db[t], query, n))
  }

  /** The decrypted result of the search. */
  function Aggregate(db: seq<Record>, query: seq<int>, n: nat): (r: seq<int>)
    requires ValidDatabase(db, n)
    ensures IsSlotVector(r, n)
  {
    SumSlots(Masks(db, query, n), n)
  }

  lemma AddZerosLeft(v: seq<int>, n: nat)
    requires IsSlotVector(v, n)
    ensures AddSlots(Zeros(n), v) == v
  {
  }

  lemma AddZerosRight(v: seq<int>, n: nat)
    requires IsSlotVector(v, n)
    ensures AddSlots(v, Zeros(n)) == v
  {
  }

  /** The masked entries of records that do not match sum to zero. */
  lemma {:induction false} PrefixNoMatch(db: seq<Record>, query: seq<int>, n: nat, i: nat)
    requires ValidDatabase(db, n) && i <= |db|
    requires forall t :: 0 <= t < i ==> db[t].key != query
    ensures SumSlots(Masks(db, query, n)[..i], n) == Zeros(n)
    decreases i
  {
    if i > 0 {
      var ms := Masks(db, query, n);
      assert ms[..i][..i - 1] == ms[..i - 1];
      PrefixNoMatch(db, query, n, i - 1);
      AddZerosRight(Zeros(n), n);
    }
  }

  /** When record t is the only match among the first i records, their masked
      entries sum to its value. */
  lemma {:induction false} PrefixOneMatch(db: seq<Record>, query: seq<int>, n: nat, i: nat, t: nat)
    requires ValidDatabase(db, n) && t < i <= |db| && db[t].key == query
    requires forall s :: 0 <= s < i && s != t ==> db[s].key != query
    ensures SumSlots(Masks(db, query, n)[..i], n) == db[t].value
    decreases i
  {
    var ms := Masks(db, query, n);
    assert ms[..i][..i - 1] == ms[..i - 1];
    if i - 1 == t {
      PrefixNoMatch(db, query, n, i - 1);
      AddZerosLeft(db[t].value, n);
    } else {
      PrefixOneMatch(db, query, n, i - 1, t);
      AddZerosRight(db[t].value, n);
    }
  }

  /** With pairwise-distinct keys, the aggregate is the value of the record whose
      key is the query. */
  lemma AggregateOfMatch(db: seq<Record>, query: seq<int>, n: nat, t: nat)
    requires ValidDatabase(db, n) && DistinctKeys(db)
    requires t < |db| && db[t].key == query
    ensures Aggregate(db, query, n) == db[t].value
  {
    PrefixOneMatch(db, query, n, |db|, t);
    assert Masks(db, query, n)[..|db|] == Masks(db, query, n);
  }

  /** When no key is the query the aggregate is the zero vector. */
  lemma AggregateOfNoMatch(db: seq<Record>, query: seq<int>, n: nat)
    requires ValidDatabase(db, n)
    requires forall t :: 0 <= t < |db| ==> db[t].key != query
    ensures Aggregate(db, query, n) == Zeros(n)
  {
    PrefixNoMatch(db, query, n, |db|);
    assert Masks(db, query, n)[..|db|] == Masks(db, query, n);
  }

  // ---------------------------------------------------------------------------
  // The order of the records does not matter

  /** s with the element at index k taken out. */
  function RemoveAt<T>(s: seq<T>, k: nat): (r: seq<T>)
    requires k < |s|
    ensures |r| == |s| - 1
    ensures forall t :: 0 <= t < |r| ==> r[t] == if t < k then s[t] else s[t + 1]
  {
    s[..k] + s[k + 1..]
  }

  /** Removing element k takes exactly one copy of it out of the multiset. */
  lemma RemoveAtMultiset<T>(s: seq<T>, k: nat)
    requires k < |s|
    ensures multiset(RemoveAt(s, k)) + multiset{s[k]} == multiset(s)
  {
    assert s == s[..k] + [s[k]] + s[k + 1..];
  }

  /** The last two terms added into a sum modulo P can be swapped. */
  lemma AddModSwap(x: int, y: int, z: int)
    ensures ((x + y) % P + z) % P == ((x + z) % P + y) % P
  {
    var q1, r1 := (x + y) / P, (x + y) % P;
    var q2, r2 := (x + z) / P, (x + z) % P;
    assert x + y == P * q1 + r1 && x + z == P * q2 + r2;
    ModAddMultiple(r1 + z, q1, P);
    ModAddMultiple(r2 + y, q2, P);
    assert P * q1 + (r1 + z) == P * q2 + (r2 + y);
  }

  /** The last two vectors added into a sum can be swapped. */
  lemma AddSlotsSwap(a: seq<int>, b: seq<int>, c: seq<int>, n: nat)
    requires |a| == n && |b| == n && |c| == n
    ensures AddSlots(AddSlots(a, b), c) == AddSlots(AddSlots(a, c), b)
  {
    forall i | 0 <= i < n
      ensures AddSlots(AddSlots(a, b), c)[i] == AddSlots(AddSlots(a, c), b)[i]
    {
      AddModSwap(a[i], b[i], c[i]);
    }
  }

  /** Taking vector k out of a sum and adding it last gives the same sum. */
  lemma {:induction false} SumSlotsRemove(vs: seq<seq<int>>, n: nat, k: nat)
    requires k < |vs| && forall t :: 0 <= t < |vs| ==> IsSlotVector(vs[t], n)
    ensures SumSlots(vs, n) == AddSlots(SumSlots(RemoveAt(vs, k), n), vs[k])
    decreases |vs|
  {
    if k == |vs| - 1 {
      assert RemoveAt(vs, k) == vs[..k];
    } else {
      SumSlotsRemove(vs[..|vs| - 1], n, k);
      assert vs[..|vs| - 1][k] == vs[k];
      SumSlotsRemoveStep(vs, n, k);
    }
  }

  /** The inductive step of SumSlotsRemove: if taking vector k out of the sum
      of all but the last vector works, it works for the whole list. */
  lemma SumSlotsRemoveStep(vs: seq<seq<int>>, n: nat, k: nat)
    requires k < |vs| - 1 && forall t :: 0 <= t < |vs| ==> IsSlotVector(vs[t], n)
    requires SumSlots(vs[..|vs| - 1], n)
             == AddSlots(SumSlots(RemoveAt(vs[..|vs| - 1], k), n), vs[k])
    ensures SumSlots(vs, n) == AddSlots(SumSlots(RemoveAt(vs, k), n), vs[k])
  {
    var m := |vs| - 1;
    SumSlotsLast(vs, n);
    SumSlotsRemoveBeforeLast(vs, n, k);
    AddSlotsSwapSums(SumSlots(vs, n), SumSlots(vs[..m], n), SumSlots(RemoveAt(vs, k), n),
                     SumSlots(RemoveAt(vs[..m], k), n), vs[k], vs[m], n);
  }

  /** Without vector k, the last vector is still added last. */
  lemma SumSlotsRemoveBeforeLast(vs: seq<seq<int>>, n: nat, k: nat)
    requires k < |vs| - 1 && forall t :: 0 <= t < |vs| ==> IsSlotVector(vs[t], n)
    ensures IsSlotVector(vs[|vs| - 1], n)
    ensures SumSlots(RemoveAt(vs, k), n)
            == AddSlots(SumSlots(RemoveAt(vs[..|vs| - 1], k), n), vs[|vs| - 1])
  {
    RemoveAtBeforeLast(vs, k);
    SumSlotsLast(RemoveAt(vs, k), n);
  }

  /** The rearrangement behind SumSlotsRemoveStep, on plain vectors. */
  lemma AddSlotsSwapSums(whole: seq<int>, init: seq<int>, rest: seq<int>, base: seq<int>,
                         x: seq<int>, y: seq<int>, n: nat)
    requires |base| == n && |x| == n && |y| == n
    requires init == AddSlots(base, x) && whole == AddSlots(init, y) && rest == AddSlots(base, y)
    ensures whole == AddSlots(rest, x)
  {
    AddSlotsSwap(base, x, y, n);
  }

  /** A non-empty sum is the sum of all but the last vector plus the last. */
  lemma SumSlotsLast(vs: seq<seq<int>>, n: nat)
    requires |vs| > 0 && forall t :: 0 <= t < |vs| ==> IsSlotVector(vs[t], n)
    ensures SumSlots(vs, n) == AddSlots(SumSlots(vs[..|vs| - 1], n), vs[|vs| - 1])
  {
  }

  /** Removing an element before the last one keeps the last one last. */
  lemma RemoveAtBeforeLast<T>(s: seq<T>, k: nat)
    requires k < |s| - 1
    ensures RemoveAt(s, k)[..|s| - 2] == RemoveAt(s[..|s| - 1], k)
    ensures RemoveAt(s, k)[|s| - 2] == s[|s| - 1]
  {
  }

  /** Adding the same element to two multisets keeps them apart. */
  lemma MultisetCancel<T>(a: multiset<T>, b: multiset<T>, x: T)
    requires a + multiset{x} == b + multiset{x}
    ensures a == b
  {
    assert a == (a + multiset{x}) - multiset{x};
    assert b == (b + multiset{x}) - multiset{x};
  }

  /** The masked entries of the records without record k are the masked
      entries without entry k. */
  lemma MasksRemoveAt(db: seq<Record>, query: seq<int>, n: nat, k: nat)
    requires ValidDatabase(db, n) && k < |db|
    ensures ValidDatabase(RemoveAt(db, k), n)
    ensures RemoveAt(Masks(db, query, n), k) == Masks(RemoveAt(db, k), query, n)
  {
  }

  /** Removing the last record takes its masked entry off the end. */
  lemma MasksDropLast(db: seq<Record>, query: seq<int>, n: nat)
    requires ValidDatabase(db, n) && |db| > 0
    ensures ValidDatabase(db[..|db| - 1], n)
    ensures Masks(db, query, n)[..|db| - 1] == Masks(db[..|db| - 1], query, n)
  {
  }

  /** Any reordering of the records gives the same aggregate: the fold at lines
      211-213 adds the masked entries in list order, and the sum of slot vectors
      does not depend on that order. */
  lemma {:induction false} AggregatePermutation(db: seq<Record>, db': seq<Record>, query: seq<int>, n: nat)
    requires ValidDatabase(db, n) && ValidDatabase(db', n) && multiset(db) == multiset(db')
    ensures Aggregate(db, query, n) == Aggregate(db', query, n)
    decreases |db|
  {
    if |db| == 0 {
      assert |db'| == |multiset(db')| == 0;
    } else {
      var m := |db| - 1;
      var x := db[m];
      assert db == db[..m] + [x];
      assert multiset(db) == multiset(db[..m]) + multiset{x};
      assert x in multiset(db');
      var k :| 0 <= k < |db'| && db'[k] == x;
      var rest := RemoveAt(db', k);
      RemoveAtMultiset(db', k);
      MultisetCancel(multiset(db[..m]), multiset(rest), x);
      MasksDropLast(db, query, n);
      MasksRemoveAt(db', query, n, k);
      AggregatePermutation(db[..m], rest, query, n);
      SumSlotsRemove(Masks(db', query, n), n, k);
    }
  }

  // ---------------------------------------------------------------------------
  // The search (lines 152-213)

  /** The body of the loop at lines 158-207 for one record: a fresh ciphertext
      holding the record's masked value. The working handle starts as a copy of
      the key, so the record is left as it was. */
  method MaskRecord(rec: Record, encryptedQuery: Ciphertext, isPowerOf2: bool, n: nat)
    returns (maskEntry: Ciphertext)
    requires n > 0 && (isPowerOf2 <==> IsPow2(n))
    requires IsSlotVector(rec.key, n) && IsSlotVector(rec.value, n)
    requires IsSlotVector(encryptedQuery.slots, n)
    ensures fresh(maskEntry) && maskEntry.slots == Masked(rec, encryptedQuery.slots, n)
  {
    maskEntry := new Ciphertext(rec.key);
    EqualityIndicator(maskEntry, encryptedQuery, n);
    if isPowerOf2 {
      ghost var rounds := RotateAndMultiply(maskEntry, n);
    } else {
      maskEntry := AllRotationsProduct(maskEntry, n);
    }
    var transactionZone := new Ciphertext(rec.value);
    MaskedEntryCorrect(rec, encryptedQuery.slots, n);
    maskEntry.Multiply(transactionZone);
  }

  /** The loop at lines 158-208: one new masked ciphertext per record, in order. */
  method CollectMasks(db: seq<Record>, encryptedQuery: Ciphertext, isPowerOf2: bool, n: nat)
    returns (mask: seq<Ciphertext>)
    requires n > 0 && (isPowerOf2 <==> IsPow2(n))
    requires ValidDatabase(db, n) && IsSlotVector(encryptedQuery.slots, n)
    ensures |mask| == |db|
    ensures forall u :: 0 <= u < |mask| ==> fresh(mask[u])
    ensures forall u :: 0 <= u < |mask| ==> mask[u].slots == Masked(db[u], encryptedQuery.slots, n)
    ensures forall u, w :: 0 <= u < w < |mask| ==> mask[u] != mask[w]
  {
    mask := [];
    for t := 0 to |db|
      invariant |mask| == t
      invariant forall u :: 0 <= u < t ==> fresh(mask[u])
      invariant forall u :: 0 <= u < t ==> mask[u].slots == Masked(db[u], encryptedQuery.slots, n)
      invariant forall u, w :: 0 <= u < w < t ==> mask[u] != mask[w]
    {
      var maskEntry := MaskRecord(db[t], encryptedQuery, isPowerOf2, n);
      mask := mask + [maskEntry];
    }
  }

  /** The fold at lines 211-213: `value` is the first mask itself, and every
      other mask is added into it. */
  method SumMasks(mask: seq<Ciphertext>, ghost masks: seq<seq<int>>, ghost n: nat) returns (value: Ciphertext)
    requires |mask| == |masks| > 0
    requires forall u :: 0 <= u < |masks| ==> IsSlotVector(masks[u], n)
    requires forall u :: 0 <= u < |mask| ==> mask[u].slots == masks[u]
    requires forall u, w :: 0 <= u < w < |mask| ==> mask[u] != mask[w]
    modifies mask[0]
    ensures value == mask[0] && value.slots == SumSlots(masks, n)
  {
    value := mask[0];
    assert masks[..1][..0] == [];
    AddZerosLeft(masks[0], n);
    for i := 1 to |mask|
      invariant value.slots == SumSlots(masks[..i], n)
      invariant forall u :: 1 <= u < |mask| ==> mask[u].slots == masks[u]
    {
      value.Add(mask[i]);
      assert masks[..i + 1][..i] == masks[..i];
    }
    assert masks[..|mask|] == masks;
  }

  /** Runs the lookup of query over db with n slots per ciphertext and returns
      the decrypted aggregate (lines 152-213). */
  method Search(db: seq<Record>, query: seq<int>, n: nat) returns (r: Result<seq<int>, SearchError>)
    requires n > 0 && ValidDatabase(db, n) && IsSlotVector(query, n)
    ensures |db| == 0 ==> r == Failure(EmptyDatabase)
    ensures |db| > 0 ==> r == Success(Aggregate(db, query, n))
  {
    var encryptedQuery := new Ciphertext(query);
    var isPowerOf2 := IsPowerOfTwoTest(n);
    var mask := CollectMasks(db, encryptedQuery, isPowerOf2, n);
    if |mask| == 0 {
      return Failure(EmptyDatabase);
    }
    var value := SumMasks(mask, Masks(db, query, n), n);
    return Success(value.slots);
  }
}
