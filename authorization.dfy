/** The authorization decision taken on the search result, and the whole
    lookup from the zone table and the primary zone to that decision. */
module Authorization {
  import opened Outcomes
  import opened Field
  import opened Ciphertexts
  import opened Lookup
  import opened Encoding

  const Authorized: string := "Payment authorized"
  const Flagged: string := "Zones are different. Flagging."

  /** `compare_encrypted_zones` (lines 218-233): the match indicator of a copy of
      the transaction zone against the primary zone, decrypted; any 0 slot flags
      the transaction. */
  method CompareEncryptedZones(transactionZone: Ciphertext, primaryZone: Ciphertext, ghost n: nat)
    returns (verdict: string)
    requires IsSlotVector(transactionZone.slots, n) && IsSlotVector(primaryZone.slots, n)
    ensures verdict == if transactionZone.slots == primaryZone.slots then Authorized else Flagged
  {
    var maskCheck := transactionZone.Copy();
    EqualityIndicator(maskCheck, primaryZone, n);
    var checkResult := maskCheck.slots;
    if exists i :: 0 <= i < |checkResult| && checkResult[i] == 0 {
      verdict := Flagged;
    } else {
      verdict := Authorized;
      assert transactionZone.slots == primaryZone.slots by {
        forall i | 0 <= i < n
          ensures transactionZone.slots[i] == primaryZone.slots[i]
        {
          assert checkResult[i] != 0;
        }
      }
    }
  }

  // ---------------------------------------------------------------------------
  // From the zone table to the decision (lines 96-228)

  datatype LookupError =
    | Unreadable(cause: IngestError)
    | NoRecords

  /** The zone names the lookup compares exactly: plain text, and distinct
      primary zones. */
  predicate WellFormedTable(rows: seq<Row>) {
    (forall t :: 0 <= t < |rows| ==>
       IsPlainText(rows[t].primaryZone) && IsPlainText(rows[t].transactionZone))
    && (forall u, w :: 0 <= u < w < |rows| ==> rows[u].primaryZone != rows[w].primaryZone)
  }

  /** What an authorization means for the names: the row of the primary zone
      lists that same zone as its transaction zone, or no row has the primary
      zone and the primary zone is empty (so it encodes to the all-zero result
      of a search that found nothing). */
  predicate AuthorizedByTable(rows: seq<Row>, zone: string) {
    (exists t :: 0 <= t < |rows| && rows[t].primaryZone == zone && rows[t].transactionZone == zone)
    || (zone == "" && forall t :: 0 <= t < |rows| ==> rows[t].primaryZone != zone)
  }

  /** The encrypted table has distinct keys, and its key t is the query exactly
      when row t has the primary zone. */
  lemma EncryptedKeys(rows: seq<Row>, zone: string, n: nat)
    requires WellFormedTable(rows) && TableFits(rows, n)
    requires IsPlainText(zone) && |zone| <= n
    ensures DistinctKeys(EncryptRows(rows, n))
    ensures forall t :: 0 <= t < |rows| ==>
              (EncryptRows(rows, n)[t].key == Encode(StringToAscii(zone), n)
               <==> rows[t].primaryZone == zone)
  {
    var db := EncryptRows(rows, n);
    forall u, w | 0 <= u < w < |rows|
      ensures db[u].key != db[w].key
    {
      EncodeInjective(rows[u].primaryZone, rows[w].primaryZone, n);
    }
    forall t | 0 <= t < |rows|
      ensures db[t].key == Encode(StringToAscii(zone), n) <==> rows[t].primaryZone == zone
    {
      EncodeInjective(rows[t].primaryZone, zone, n);
    }
  }

  /** When row t has the primary zone, the search returns its transaction zone,
      which equals the primary zone exactly when the names are equal. */
  lemma MeaningOfMatch(rows: seq<Row>, zone: string, n: nat, t: nat)
    requires WellFormedTable(rows) && TableFits(rows, n)
    requires IsPlainText(zone) && |zone| <= n
    requires t < |rows| && rows[t].primaryZone == zone
    ensures Aggregate(EncryptRows(rows, n), Encode(StringToAscii(zone), n), n)
              == Encode(StringToAscii(zone), n)
            <==> rows[t].transactionZone == zone
  {
    EncryptedKeys(rows, zone, n);
    AggregateOfMatch(EncryptRows(rows, n), Encode(StringToAscii(zone), n), n, t);
    EncodeInjective(rows[t].transactionZone, zone, n);
  }

  /** When no row has the primary zone, the search returns all zeros, which is
      the encoding of the empty name only. */
  lemma MeaningOfNoMatch(rows: seq<Row>, zone: string, n: nat)
    requires WellFormedTable(rows) && TableFits(rows, n)
    requires IsPlainText(zone) && |zone| <= n
    requires forall t :: 0 <= t < |rows| ==> rows[t].primaryZone != zone
    ensures Aggregate(EncryptRows(rows, n), Encode(StringToAscii(zone), n), n)
              == Encode(StringToAscii(zone), n)
            <==> zone == ""
  {
    EncryptedKeys(rows, zone, n);
    AggregateOfNoMatch(EncryptRows(rows, n), Encode(StringToAscii(zone), n), n);
    EncodeInjective("", zone, n);
    assert Encode(StringToAscii(""), n) == Zeros(n);
  }

  /** With plain-text names and distinct primary zones, the search result equals
      the encoded primary zone exactly when the table authorizes it. */
  lemma LookupMeaning(rows: seq<Row>, zone: string, n: nat)
    requires WellFormedTable(rows) && TableFits(rows, n)
    requires IsPlainText(zone) && |zone| <= n
    ensures Aggregate(EncryptRows(rows, n), Encode(StringToAscii(zone), n), n)
              == Encode(StringToAscii(zone), n)
            <==> AuthorizedByTable(rows, zone)
  {
    if t :| 0 <= t < |rows| && rows[t].primaryZone == zone {
      MeaningOfMatch(rows, zone, n, t);
      assert forall s :: 0 <= s < |rows| && rows[s].primaryZone == zone ==> s == t;
    } else {
      MeaningOfNoMatch(rows, zone, n);
    }
  }

  /** Ingestion accepts repeated primary zones, and then the search adds up the
      transaction zones of all their rows: "0" and "1" (codes 48 and 49) sum to
      the code of "a" (97), so the zone "a" is authorized although no row lists
      "a" as its transaction zone. */
  lemma DuplicatePrimaryZones()
    ensures var rows := [Row("a", "0"), Row("a", "1")];
            TableFits(rows, 1) && !AuthorizedByTable(rows, "a")
            && Aggregate(EncryptRows(rows, 1), Encode(StringToAscii("a"), 1), 1)
               == Encode(StringToAscii("a"), 1)
  {
    var rows := [Row("a", "0"), Row("a", "1")];
    var db := EncryptRows(rows, 1);
    var query := Encode(StringToAscii("a"), 1);
    assert query == [97];
    assert db[0] == Record([97], [48]) && db[1] == Record([97], [49]);
    MaskedEntryCorrect(db[0], query, 1);
    MaskedEntryCorrect(db[1], query, 1);
    var ms := Masks(db, query, 1);
    assert ms == [[48], [49]];
    assert ms[..1][..0] == [];
    assert SumSlots(ms[..1], 1) == [48];
    assert ms[..2] == ms;
  }

  /** Steps 4 to 7.5 of the notebook: read the table, encrypt it and the primary
      zone, search, and decide. */
  method AuthorizeTransaction(rows: seq<Row>, zone: string, n: nat) returns (r: Result<string, LookupError>)
    requires n > 0 && |zone| <= n
    ensures r.Failure? && r.error.Unreadable? <==> !TableFits(rows, n)
    ensures r.Failure? && r.error.NoRecords? <==> |rows| == 0
    ensures r.Success? ==> r.value == Authorized || r.value == Flagged
    ensures r.Success? ==>
              TableFits(rows, n) &&
              (r.value == Authorized <==>
                 Aggregate(EncryptRows(rows, n), Encode(StringToAscii(zone), n), n)
                 == Encode(StringToAscii(zone), n))
    ensures r.Success? && WellFormedTable(rows) && IsPlainText(zone)
            ==> (r.value == Authorized <==> AuthorizedByTable(rows, zone))
  {
    var ingested := Ingest(rows, n);
    if ingested.Failure? {
      return Failure(Unreadable(ingested.error));
    }
    var db := EncryptTable(ingested.value, n);
    assert db == EncryptRows(rows, n);
    var query := Encode(StringToAscii(zone), n);
    var found := Search(db, query, n);
    if found.Failure? {
      return Failure(NoRecords);
    }
    var value := new Ciphertext(found.value);
    var encryptedQuery := new Ciphertext(query);
    var verdict := CompareEncryptedZones(value, encryptedQuery, n);
    if WellFormedTable(rows) && IsPlainText(zone) {
      LookupMeaning(rows, zone, n);
    }
    return Success(verdict);
  }
}
