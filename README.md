# Project Maple: oblivious zone lookup, modelled in Dafny

Project Maple authorizes a card transaction by checking its location against
the card holder's known zones without decrypting either. The notebook keeps a
table of (primary zone, transaction zone) pairs, each name encrypted as a BGV
ciphertext of character codes with plaintext prime p = 127. Given an encrypted
primary zone, it looks up the matching transaction zone obliviously:

1. For every record it subtracts the query from the key, raises every slot to
   p - 1, negates and adds 1. This gives a per-slot indicator: 1 where the
   slots agree, 0 where they differ (Fermat's little theorem).
2. It multiplies all slots of that indicator together, so every slot holds the
   AND of the comparison. With a power-of-two slot count this is a
   rotate-and-multiply loop over rotations 1, 2, 4, .... Otherwise it is the
   product of all n cyclic rotations.
3. It multiplies the resulting mask (all ones or all zeros) into the record's
   value, and sums the masked values of all records into one aggregate.
4. `compare_encrypted_zones` recomputes the per-slot indicator between the
   aggregate and the query. It answers "Payment authorized" when no slot is 0
   and "Zones are different. Flagging." otherwise.

The model represents every ciphertext by the plaintext slot vector it encrypts:
a `seq<int>` of n field elements in [0, 127). Encryption and decryption are the
identity. The library's handles stay imperative. `Ciphertexts.Ciphertext` is a
class whose `Sub`, `Negate`, `AddScalar`, `Multiply`, `Add` and `Rotate`
overwrite its `slots`. `PowerInPlace` and `TotalProduct` play the evaluator.
`CiphertextVector` plays `CTileVector`.

Modules:

- `Field` (field.dfy): arithmetic modulo P = 127 and the slotwise operations as
  functions on vectors. It also holds Fermat's little theorem for 127, proved
  by computation: 3 is a primitive root, and the property x^126 ≡ 1 is closed
  under multiplication.
- `Ciphertexts` (ciphertexts.dfy): the in-place ciphertext handle, the vector
  of ciphertexts, `power_in_place` and `total_product`.
- `Reduction` (reduction.dfy):
  - the power-of-two test `n & (n - 1) == 0`, with `&` written out on naturals;
  - cyclic window products;
  - the two AND-reduction algorithms.
- `Lookup` (lookup.dfy): the per-slot indicator, masking one record, the
  aggregate, and the search loop with its fold.
- `Encoding` (encoding.dfy): `string_to_ascii`, slot encoding with zero
  padding, the zero-dropping decode, ingestion with its slot-width check, and
  encryption of the table.
- `Authorization` (authorization.dfy): `compare_encrypted_zones`, and the path
  from the zone table and the primary zone to the decision.
- `Outcomes` (outcomes.dfy): the `Result` type for operations that stop with an
  error.

Notes on the code as written:

- Line 160 binds `mask_entry` to the stored key itself, not to a copy, despite
  its comment. The in-place operations that follow overwrite the encrypted
  key. The model works on an explicit copy (`Lookup.MaskRecord`).
- Line 211 makes `value` the same handle as `mask[0]`, so the fold overwrites
  the first mask. The model keeps this aliasing and proves that the other masks
  are untouched.
- Neither aliasing changes the result of a single lookup.
- The comment at line 176 claims that adding 1 leaves "0 for match, -1 for
  mismatch". In fact it leaves 1 for a match and 0 for a mismatch
  (`Lookup.EqualityIndicatorCorrect`); the comment at line 202 is right.
- The loop rotates by `-rot`, whereas a description in terms of rotating by
  `+k` gives the same result. The model fixes the library's convention: a
  positive k moves slot i + k to slot i. The loop's invariant is that slot j
  holds the product of the `rot` slots ending at j, going backwards round the
  cycle (`Reduction.Window`).
- A slot-width violation stops reading the whole table at the first offending
  row (the `raise` at lines 106 and 108). It does not skip just that record.
  The name `RunTimeError` is undefined in Python, so the `raise` fails with a
  `NameError`. Either way the read is aborted, and that is what `Encoding.Ingest`
  models.
- The decode at line 280 drops every zero slot, wherever it is. It does not
  stop at the first zero.
- An empty database makes `mask[0]` fail (`IndexError`). `Lookup.Search`
  returns `Failure(EmptyDatabase)` in that case.
- Ingestion does not reject repeated primary zones. The search then adds up
  the transaction zones of all their rows, slot by slot, so a zone can be
  authorized by rows that do not list it (`Authorization.DuplicatePrimaryZones`).
  The verdict always means "the aggregate equals the zone"
  (`Authorization.AuthorizeTransaction`). It means "the table authorizes the
  zone" only when the primary zones are distinct.
- The order of the rows in the table does not change the aggregate
  (`Lookup.AggregatePermutation`).
- An empty primary zone that is not in the table is authorized: the search
  then returns all zeros, which equals the encoded empty name
  (`Authorization.AuthorizedByTable`, second case).

## Model

| member | source | states |
|---|---|---|
| Field.PowerIndicator | 001_Project_Maple_Zones_Mapping-Copy1.py:166-169 | raising a field element to p - 1 modulo p gives 0 for 0 and 1 for every other element |
| Field.Fermat | 001_Project_Maple_Zones_Mapping-Copy1.py:166-169 | Fermat's little theorem for p = 127: x^126 ≡ 1 (mod 127) for 0 < x < 127 |
| Ciphertexts.Ciphertext.Copy | 001_Project_Maple_Zones_Mapping-Copy1.py:187 | `deepcopy` gives a new handle with the same contents |
| Ciphertexts.Ciphertext.Sub | 001_Project_Maple_Zones_Mapping-Copy1.py:164 | the handle now holds the slotwise difference modulo p; nothing else changes |
| Ciphertexts.PowerInPlace | 001_Project_Maple_Zones_Mapping-Copy1.py:169 | the handle now holds every slot raised to e modulo p |
| Ciphertexts.Ciphertext.Negate | 001_Project_Maple_Zones_Mapping-Copy1.py:173 | the handle now holds every slot negated modulo p |
| Ciphertexts.Ciphertext.AddScalar | 001_Project_Maple_Zones_Mapping-Copy1.py:177 | the handle now holds every slot plus c modulo p |
| Ciphertexts.Ciphertext.Rotate | 001_Project_Maple_Zones_Mapping-Copy1.py:188 | the handle now holds its contents rotated by k |
| Ciphertexts.Ciphertext.Multiply | 001_Project_Maple_Zones_Mapping-Copy1.py:189 | the handle now holds the slotwise product modulo p; the other operand is unchanged |
| Ciphertexts.Ciphertext.Add | 001_Project_Maple_Zones_Mapping-Copy1.py:213 | the handle now holds the slotwise sum modulo p |
| Ciphertexts.CiphertextVector.OfCopies | 001_Project_Maple_Zones_Mapping-Copy1.py:197 | the vector holds count copies of the handle's contents |
| Ciphertexts.CiphertextVector.RotateAt | 001_Project_Maple_Zones_Mapping-Copy1.py:199 | only element i changes, and it is rotated by k |
| Ciphertexts.TotalProduct | 001_Project_Maple_Zones_Mapping-Copy1.py:200 | a new handle holding the slotwise product of all elements of the vector |
| Reduction.IsPowerOfTwoTest | 001_Project_Maple_Zones_Mapping-Copy1.py:155 | the test `n & (n - 1) == 0` on the slot count is true exactly when n is a power of two, so it picks the rotate-and-multiply branch for those n only |
| Reduction.PowerOfTwoTestCorrect | 001_Project_Maple_Zones_Mapping-Copy1.py:155 | for n ≥ 1, the bitwise AND of n and n - 1 is 0 if and only if n is a power of two |
| Reduction.Pow2IsPow2 | 001_Project_Maple_Zones_Mapping-Copy1.py:155 | every 2^k is a power of two, so it passes the test |
| Reduction.Log2 | 001_Project_Maple_Zones_Mapping-Copy1.py:155 | every power of two is 2^k for some k |
| Reduction.BitAndSelf | 001_Project_Maple_Zones_Mapping-Copy1.py:155 | `a & a == a`, which makes the test fail for odd n > 1 |
| Reduction.Pow2Increasing | 001_Project_Maple_Zones_Mapping-Copy1.py:186-190 | doubling rot strictly increases it, so the loop stops after exactly log2(n) rounds and never overshoots n |
| Reduction.WindowSplit | 001_Project_Maple_Zones_Mapping-Copy1.py:186-190 | the product of a + b consecutive slots is the product of the last a times the product of the b before them |
| Reduction.WindowFull | 001_Project_Maple_Zones_Mapping-Copy1.py:186-190 | any n cyclically consecutive slots of an n-slot vector multiply to the product of all slots |
| Reduction.RotateMultiplyStep | 001_Project_Maple_Zones_Mapping-Copy1.py:187-189 | one round turns products of rot consecutive slots into products of 2 * rot consecutive slots |
| Reduction.RotateMultiplyRound | 001_Project_Maple_Zones_Mapping-Copy1.py:187-189 | the handle now holds its old contents times a copy of them rotated by -rot |
| Reduction.RoundsHoldWindows | 001_Project_Maple_Zones_Mapping-Copy1.py:184-190 | after r rounds slot j holds the product of the 2^r slots ending at j |
| Reduction.WindowsDone | 001_Project_Maple_Zones_Mapping-Copy1.py:184-190 | once every slot holds a window as long as the vector, every slot holds the product of all slots |
| Reduction.RoundsDone | 001_Project_Maple_Zones_Mapping-Copy1.py:184-190 | after log2(n) rounds every slot holds the product of all original slots modulo p |
| Reduction.RotateAndMultiply | 001_Project_Maple_Zones_Mapping-Copy1.py:184-190 | for a power-of-two n the loop runs log2(n) rounds and leaves the product of all original slots (mod p) in every slot |
| Reduction.IndicatorProduct | 001_Project_Maple_Zones_Mapping-Copy1.py:181-183 | the product of 0/1 slots is 1 exactly when every slot is 1, and 0 otherwise |
| Reduction.AndReduction | 001_Project_Maple_Zones_Mapping-Copy1.py:202-203 | the reduced mask of an indicator is all ones when every slot matched and all zeros otherwise |
| Reduction.LastRotationAt | 001_Project_Maple_Zones_Mapping-Copy1.py:197-200 | slot j of the product of the first c + 1 rotations is slot j of the product of the first c times the slot c places before j, modulo p |
| Reduction.WindowExtend | 001_Project_Maple_Zones_Mapping-Copy1.py:197-200 | the reduced window of c + 1 slots ending at j is the reduced window of c slots times the slot c places before j, modulo p |
| Reduction.RotationsProductAt | 001_Project_Maple_Zones_Mapping-Copy1.py:197-200 | multiplying in the rotation by -c lengthens the window held in slot j from c to c + 1 slots |
| Reduction.RotationsProduct | 001_Project_Maple_Zones_Mapping-Copy1.py:197-200 | multiplying the rotations by 0, -1, ..., -(count - 1) puts in slot j the product of the count slots ending at j |
| Reduction.PartlyRotatedStart | 001_Project_Maple_Zones_Mapping-Copy1.py:197 | n untouched copies of the mask are the first rotation (by zero) followed by n - 1 copies |
| Reduction.PartlyRotatedStep | 001_Project_Maple_Zones_Mapping-Copy1.py:199 | rotating copy i by -i turns the first i rotations followed by copies into the first i + 1 rotations followed by copies |
| Reduction.PartlyRotatedDone | 001_Project_Maple_Zones_Mapping-Copy1.py:197-199 | after copies 1 to n - 1 are rotated, the vector holds exactly the rotations by 0, -1, ..., -(n - 1) |
| Reduction.RotateCopy | 001_Project_Maple_Zones_Mapping-Copy1.py:199 | only copy i changes, and the vector moves from i to i + 1 rotated copies |
| Reduction.RotateCopies | 001_Project_Maple_Zones_Mapping-Copy1.py:197-199 | a new vector holding exactly the rotations of the mask by 0, -1, ..., -(n - 1) |
| Reduction.AllRotations | 001_Project_Maple_Zones_Mapping-Copy1.py:197-200 | the product of all n rotations holds the product of all slots in every slot |
| Reduction.AllRotationsProduct | 001_Project_Maple_Zones_Mapping-Copy1.py:197-200 | for any n the non-power-of-two branch returns a new handle with the product of all original slots in every slot, the same result as the loop |
| Lookup.MatchIndicator | 001_Project_Maple_Zones_Mapping-Copy1.py:164-177 | the intended per-slot comparison has one 0/1 slot per input slot |
| Lookup.EqualityIndicatorCorrect | 001_Project_Maple_Zones_Mapping-Copy1.py:164-177 | sub, power p - 1, negate, add 1 gives 1 in every slot where key and query agree and 0 where they differ |
| Lookup.EqualityIndicator | 001_Project_Maple_Zones_Mapping-Copy1.py:164-177 | the handle ends holding the match indicator of its old contents against the query |
| Lookup.MaskedEntryCorrect | 001_Project_Maple_Zones_Mapping-Copy1.py:202-206 | multiplying the reduced mask into the value gives the value when the key equals the query in every slot, and the zero vector otherwise |
| Lookup.PrefixNoMatch | 001_Project_Maple_Zones_Mapping-Copy1.py:211-213 | the sum of the first i masked entries is the zero vector when none of their keys is the query |
| Lookup.PrefixOneMatch | 001_Project_Maple_Zones_Mapping-Copy1.py:211-213 | the sum of the first i masked entries is record t's value when t is the only one of them whose key is the query |
| Lookup.AggregateOfMatch | 001_Project_Maple_Zones_Mapping-Copy1.py:202-213 | with pairwise-distinct keys, the aggregate is the value of the record whose key is the query |
| Lookup.AggregateOfNoMatch | 001_Project_Maple_Zones_Mapping-Copy1.py:202-213 | when no key is the query, the aggregate is the zero vector |
| Lookup.AddSlotsSwap | 001_Project_Maple_Zones_Mapping-Copy1.py:211-213 | adding two vectors into a running sum in either order gives the same sum |
| Lookup.SumSlotsRemove | 001_Project_Maple_Zones_Mapping-Copy1.py:211-213 | the sum of a list of vectors equals the sum without vector k plus vector k, for every k |
| Lookup.AggregatePermutation | 001_Project_Maple_Zones_Mapping-Copy1.py:202-213 | any reordering of the records (the same multiset) gives the same aggregate |
| Lookup.MaskRecord | 001_Project_Maple_Zones_Mapping-Copy1.py:158-206 | one pass of the loop body returns a new handle with the record's masked value, using whichever reduction the test picked |
| Lookup.CollectMasks | 001_Project_Maple_Zones_Mapping-Copy1.py:158-208 | one new, distinct handle per record, in order, each holding that record's masked value |
| Lookup.SumMasks | 001_Project_Maple_Zones_Mapping-Copy1.py:211-213 | the fold returns `mask[0]` itself, now holding the slotwise sum of all masks; only `mask[0]` may change |
| Lookup.Search | 001_Project_Maple_Zones_Mapping-Copy1.py:152-213 | fails on an empty database; otherwise returns the slotwise sum of all masked entries |
| Encoding.StringToAscii | 001_Project_Maple_Zones_Mapping-Copy1.py:23-24 | exactly one character code per character of the string; the round trip back to the string is `Encoding.DecodeCodes` |
| Encoding.DecodeCodes | 001_Project_Maple_Zones_Mapping-Copy1.py:23-24 | the code list has one entry per character, and turning each code back into its character gives the string back |
| Encoding.Encode | 001_Project_Maple_Zones_Mapping-Copy1.py:124-125 | `encode_encrypt` of a code list that fits gives a valid n-slot vector; `Encoding.EncodeDecode` recovers the name from it |
| Encoding.DecodeNonZero | 001_Project_Maple_Zones_Mapping-Copy1.py:280 | the decoded string is no longer than the slot vector and contains no NUL character |
| Encoding.EncodeDecode | 001_Project_Maple_Zones_Mapping-Copy1.py:280 | encoding a plain-text name into n slots and decoding with zeros dropped gives the name back |
| Encoding.EncodeInjective | 001_Project_Maple_Zones_Mapping-Copy1.py:122-126 | two plain-text names that fit encode to the same slots if and only if they are equal |
| Encoding.Ingest | 001_Project_Maple_Zones_Mapping-Copy1.py:98-109 | succeeds exactly when every name fits in the slot count, and then holds every row's code lists in order; otherwise fails with the first offending row, primary zone checked first |
| Encoding.EncryptTable | 001_Project_Maple_Zones_Mapping-Copy1.py:122-126 | the encrypted table has one record per row and every record is a pair of valid slot vectors |
| Encoding.EncryptRows | 001_Project_Maple_Zones_Mapping-Copy1.py:122-126 | one record per row, its key the encoded primary zone and its value the encoded transaction zone, all valid slot vectors |
| Authorization.CompareEncryptedZones | 001_Project_Maple_Zones_Mapping-Copy1.py:218-233 | "Payment authorized" exactly when every slot of the first argument equals the query's slot, else "Zones are different. Flagging." |
| Authorization.EncryptedKeys | 001_Project_Maple_Zones_Mapping-Copy1.py:122-139 | distinct plain-text primary zones give distinct encrypted keys, and key t equals the encrypted query exactly when row t has the primary zone |
| Authorization.MeaningOfMatch | 001_Project_Maple_Zones_Mapping-Copy1.py:202-213 | when the zone is row t's primary zone, the aggregate equals the encoded zone exactly when row t's transaction zone is that same zone |
| Authorization.MeaningOfNoMatch | 001_Project_Maple_Zones_Mapping-Copy1.py:202-213 | when no row has the zone as primary zone, the aggregate equals the encoded zone exactly when the zone is empty |
| Authorization.LookupMeaning | 001_Project_Maple_Zones_Mapping-Copy1.py:202-235 | the aggregate equals the encrypted primary zone exactly when the zone's row lists that same zone as its transaction zone, or the zone is empty and absent |
| Authorization.AuthorizeTransaction | 001_Project_Maple_Zones_Mapping-Copy1.py:96-235 | fails exactly on a name that does not fit or on an empty table; otherwise answers one of the two verdicts, "Payment authorized" exactly when the aggregate of the encrypted table equals the encrypted zone, which for distinct plain-text primary zones means exactly when the table authorizes the zone |
| Authorization.DuplicatePrimaryZones | 001_Project_Maple_Zones_Mapping-Copy1.py:98-109 | a table with two rows for the primary zone "a", with transaction zones "0" and "1", fits the slots and does not authorize "a", yet the aggregate for "a" equals the encoded "a" (48 + 49 = 97) |

## Left out

- Key generation, BGV context setup, encryption, decryption, noise budget and the library's configuration (lines 58-87) are not modelled. A ciphertext is its plaintext.
- Field.Fermat: proved for the configured p = 127 only, not for an arbitrary prime, because `conf.p` is a fixed constant in the notebook.
- Reduction.IsPowerOfTwoTest: requires n ≥ 1. The slot count of a scheme is always positive, so the n = 0 case of `&` on a negative operand is left out.
- Ciphertexts.TotalProduct: models `total_product` as a left-to-right product of the elements. The library's internal evaluation order is not modelled; the result is the same because slotwise multiplication modulo p is associative and commutative.
- Ciphertexts.CiphertextVector.OfCopies: assumes `CTileVector([c] * n)` holds independent copies, so rotating one element leaves the others and the original handle as they were. The library's sharing behaviour is not part of this model.
- Lookup.MaskRecord: works on a copy of the encrypted key, so the overwriting of the stored keys caused by the aliasing at line 160 is not modelled. It does not affect the result of one lookup.
- Encoding.Encode: requires the code list to fit in n slots. What the library does with a longer list is not modelled; ingestion and the query length keep to this bound. Character codes are reduced modulo p, and only names of codes 1-126 are shown to round-trip.
- Encoding.Ingest: CSV parsing, file I/O and rows with fewer than two columns (an `IndexError`) are left out. Rows arrive as pairs of names. The error values carry only the offending name, not the message text.
- Authorization.AuthorizeTransaction: the primary zone is a parameter instead of the constant at line 46, and it must fit in n slots.
- Timers (`utils.start_timer`/`end_timer`) and all printing are left out as instrumentation.
- `debug_encrypted_zones` (lines 238-261) is left out. It repeats `compare_encrypted_zones` with diagnostic prints.
- The result printing at lines 292-302 is left out. Its "not in the database" branch compares a character with an integer at line 298 and never fires.
- The decryption of the aggregate at line 275 is not modelled beyond the identity.
- The map display, `pip install`, coordinate parsing and distance computation (lines 308-358) are left out as UI, shell calls and floating point.
