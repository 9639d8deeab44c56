/** Turning zone names into slot vectors and back: the character-code list of a
    string, the ingestion of the zone table with its slot-width check, the
    encoding of a code list into n slots, and the decode that drops the zero
    padding. */
module Encoding {
  import opened Outcomes
  import opened Field
  import opened Lookup

  /** `string_to_ascii`: the code of every character, in order. */
  function StringToAscii(s: string): (r: seq<int>)
    ensures |r| == |s|
  {
    seq(|s|, i requires 0 <= i < |s| => s[i] as int)
  }

  /** A zone name whose every character code is a nonzero field element, so it
      survives encoding and the zero-dropping decode. */
  predicate IsPlainText(s: string) {
    forall i :: 0 <= i < |s| ==> 0 < s[i] as int < P
  }

  /** `encode_encrypt` on a code list, as the plaintext it encrypts: the codes
      reduced modulo P, padded with zero slots up to n. */
  function Encode(codes: seq<int>, n: nat): (r: seq<int>)
    requires |codes| <= n
    ensures IsSlotVector(r, n)
  {
    seq(n, i requires 0 <= i < n => if i < |codes| then codes[i] % P else 0)
  }

  /** The decode at line 280: the characters of the nonzero slots, in order. */
  function DecodeNonZero(v: seq<int>): (r: string)
    requires forall i :: 0 <= i < |v| ==> InField(v[i])
    ensures |r| <= |v|
    ensures forall i :: 0 <= i < |r| ==> r[i] != 0 as char
  {
    if |v| == 0 then ""
    else
      assert InField(v[0]);
      (if v[0] != 0 then [v[0] as char] else []) + DecodeNonZero(v[1..])
  }

  lemma {:induction false} DecodeAppend(a: seq<int>, b: seq<int>)
    requires forall i :: 0 <= i < |a| ==> InField(a[i])
    requires forall i :: 0 <= i < |b| ==> InField(b[i])
    ensures DecodeNonZero(a + b) == DecodeNonZero(a) + DecodeNonZero(b)
    decreases |a|
  {
    if |a| == 0 {
      assert a + b == b;
    } else {
      assert (a + b)[1..] == a[1..] + b;
      DecodeAppend(a[1..], b);
    }
  }

  lemma {:induction false} DecodeZeros(k: nat)
    ensures DecodeNonZero(Zeros(k)) == ""
    decreases k
  {
    if k > 0 {
      assert Zeros(k)[1..] == Zeros(k - 1);
      DecodeZeros(k - 1);
    }
  }

  lemma {:induction false} DecodeCodes(s: string)
    requires IsPlainText(s)
    ensures forall i :: 0 <= i < |s| ==> InField(StringToAscii(s)[i])
    ensures DecodeNonZero(StringToAscii(s)) == s
    decreases |s|
  {
    if |s| > 0 {
      assert StringToAscii(s)[1..] == StringToAscii(s[1..]);
      DecodeCodes(s[1..]);
      assert s == [s[0]] + s[1..];
    }
  }

  /** Encoding a plain-text name into n slots and decoding drops exactly the
      padding: the name comes back. */
  lemma EncodeDecode(s: string, n: nat)
    requires IsPlainText(s) && |s| <= n
    ensures DecodeNonZero(Encode(StringToAscii(s), n)) == s
  {
    DecodeCodes(s);
    var codes := StringToAscii(s);
    assert Encode(codes, n) == codes + Zeros(n - |s|);
    DecodeAppend(codes, Zeros(n - |s|));
    DecodeZeros(n - |s|);
  }

  /** Two plain-text names that fit in n slots encode to the same slots only if
      they are the same name. */
  lemma EncodeInjective(s1: string, s2: string, n: nat)
    requires IsPlainText(s1) && |s1| <= n && IsPlainText(s2) && |s2| <= n
    ensures Encode(StringToAscii(s1), n) == Encode(StringToAscii(s2), n) <==> s1 == s2
  {
    EncodeDecode(s1, n);
    EncodeDecode(s2, n);
  }

  // ---------------------------------------------------------------------------
  // Reading the zone table (lines 96-109)

  /** One row of the zone table: a primary zone and its transaction zone. */
  datatype Row = Row(primaryZone: string, transactionZone: string)

  datatype IngestError =
    | PrimaryZoneTooLong(name: string)
    | TransactionZoneTooLong(name: string)

  /** Both names of the row fit in slotCount slots. */
  predicate RowFits(row: Row, slotCount: nat) {
    |row.primaryZone| <= slotCount && |row.transactionZone| <= slotCount
  }

  /** Every row of the table fits in slotCount slots. */
  predicate TableFits(rows: seq<Row>, slotCount: nat) {
    forall t {:trigger rows[t]} :: 0 <= t < |rows| ==> RowFits(rows[t], slotCount)
  }

  /** The error the width check raises for a row that does not fit; the primary
      zone is checked first. */
  function RowError(row: Row, slotCount: nat): (e: IngestError)
    requires !RowFits(row, slotCount)
  {
    if |row.primaryZone| > slotCount then PrimaryZoneTooLong(row.primaryZone)
    else TransactionZoneTooLong(row.transactionZone)
  }

  /** The code lists of one row, as the table stores them. */
  function AsciiRow(row: Row): (codes: (seq<int>, seq<int>)) {
    (StringToAscii(row.primaryZone), StringToAscii(row.transactionZone))
  }

  /** The table of code lists built from all of rows. */
  function Table(rows: seq<Row>): (table: seq<(seq<int>, seq<int>)>)
    ensures |table| == |rows| && forall t :: 0 <= t < |rows| ==> table[t] == AsciiRow(rows[t])
    ensures forall t :: 0 <= t < |rows| ==>
              |table[t].0| == |rows[t].primaryZone| && |table[t].1| == |rows[t].transactionZone|
  {
    seq(|rows|, t requires 0 <= t < |rows| => AsciiRow(rows[t]))
  }

  /** The loop at lines 98-109: each row's names become code lists and are
      appended, unless a name is longer than slotCount, which stops the
      reading at the first such row. */
  method Ingest(rows: seq<Row>, slotCount: nat) returns (r: Result<seq<(seq<int>, seq<int>)>, IngestError>)
    ensures r.Success? <==> TableFits(rows, slotCount)
    ensures r.Success? ==> r.value == Table(rows)
    ensures r.Failure? ==> exists t :: 0 <= t < |rows| && !RowFits(rows[t], slotCount)
                              && (forall u :: 0 <= u < t ==> RowFits(rows[u], slotCount))
                              && r.error == RowError(rows[t], slotCount)
  {
    var table: seq<(seq<int>, seq<int>)> := [];
    for t := 0 to |rows|
      invariant table == seq(t, u requires 0 <= u < t => AsciiRow(rows[u]))
      invariant forall u :: 0 <= u < t ==> RowFits(rows[u], slotCount)
    {
      var row := rows[t];
      var asciiPrimaryZone := StringToAscii(row.primaryZone);
      var asciiTransactionZone := StringToAscii(row.transactionZone);
      if |row.primaryZone| > slotCount {
        return Failure(PrimaryZoneTooLong(row.primaryZone));
      }
      if |row.transactionZone| > slotCount {
        return Failure(TransactionZoneTooLong(row.transactionZone));
      }
      table := table + [(asciiPrimaryZone, asciiTransactionZone)];
    }
    assert table == Table(rows);
    return Success(table);
  }

  /** Lines 120-127: every code list encoded into n slots. */
  function EncryptTable(table: seq<(seq<int>, seq<int>)>, n: nat): (db: seq<Record>)
    requires forall t :: 0 <= t < |table| ==> |table[t].0| <= n && |table[t].1| <= n
    ensures |db| == |table| && ValidDatabase(db, n)
  {
    seq(|table|, t requires 0 <= t < |table| => Record(Encode(table[t].0, n), Encode(table[t].1, n)))
  }

  /** The encrypted database of a table whose names all fit in n slots. */
  function EncryptRows(rows: seq<Row>, n: nat): (db: seq<Record>)
    requires TableFits(rows, n)
    ensures |db| == |rows| && ValidDatabase(db, n)
    ensures forall t :: 0 <= t < |rows| ==>
              db[t] == Record(Encode(StringToAscii(rows[t].primaryZone), n),
                              Encode(StringToAscii(rows[t].transactionZone), n))
  {
    EncryptTable(Table(rows), n)
  }
}
