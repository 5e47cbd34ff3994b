/** update_records_asset.ts: the `updateRecords` transaction (asset id 3). */
module UpdateRecordsAsset {
  import opened LnsTypes
  import opened Constants
  import opened Decimal
  import opened Utils
  import opened Storage
  import opened Ledger

  datatype UpdateRecordsAssetProps = UpdateRecordsAssetProps(name: string, records: seq<RecordEntry>)

  /** The string `validate` puts in its Set for a record: `${type.toString()}:${label}`. */
  function RecordKey(r: RecordEntry): string
  {
    NatToString(r.recordType) + ":" + r.recordLabel
  }

  /** Position of the first ":" in a string, or its length when there is none. */
  function ColonIndex(x: string): (n: nat)
    ensures n <= |x|
  {
    if |x| == 0 || x[0] == ':' then 0 else 1 + ColonIndex(x[1..])
  }

  lemma {:induction false} ColonIndexAfterDigits(digits: string, rest: string)
    requires forall i :: 0 <= i < |digits| ==> '0' <= digits[i] <= '9'
    ensures ColonIndex(digits + ":" + rest) == |digits|
  {
    if |digits| > 0 {
      assert (digits + ":" + rest)[1..] == digits[1..] + ":" + rest;
      ColonIndexAfterDigits(digits[1..], rest);
    } else {
      assert digits + ":" + rest == ":" + rest;
    }
  }

  /** Since a number's decimal string has no ":", two records get the same key
      exactly when they have the same type and label. */
  lemma RecordKeyInjective(a: RecordEntry, b: RecordEntry)
    ensures RecordKey(a) == RecordKey(b) <==>
            a.recordType == b.recordType && a.recordLabel == b.recordLabel
  {
    var sa, sb := NatToString(a.recordType), NatToString(b.recordType);
    var k := RecordKey(a);
    if k == RecordKey(b) {
      ColonIndexAfterDigits(sa, a.recordLabel);
      ColonIndexAfterDigits(sb, b.recordLabel);
      assert sa == k[..|sa|] == sb;
      assert a.recordLabel == k[|sa| + 1..] == b.recordLabel;
      NatToStringInjective(a.recordType, b.recordType);
    }
  }

  /** `new Set(records.map(RecordKey))`. */
  function RecordKeys(records: seq<RecordEntry>): set<string>
  {
    if |records| == 0 then {}
    else RecordKeys(records[..|records| - 1]) + {RecordKey(records[|records| - 1])}
  }

  lemma {:induction false} RecordKeysMembership(records: seq<RecordEntry>, k: string)
    ensures k in RecordKeys(records) <==> exists i :: 0 <= i < |records| && RecordKey(records[i]) == k
  {
    if |records| > 0 {
      var p := records[..|records| - 1];
      RecordKeysMembership(p, k);
      if k in RecordKeys(p) {
        var i :| 0 <= i < |p| && RecordKey(p[i]) == k;
        assert records[i] == p[i];
      }
      if exists i :: 0 <= i < |records| && RecordKey(records[i]) == k {
        var i :| 0 <= i < |records| && RecordKey(records[i]) == k;
        if i < |p| {
          assert p[i] == records[i];
        }
      }
    }
  }

  predicate DistinctKeys(records: seq<RecordEntry>)
  {
    forall i, j :: 0 <= i < j < |records| ==> RecordKey(records[i]) != RecordKey(records[j])
  }

  /** No two records share a (type, label) pair. */
  predicate UniqueTypeLabel(records: seq<RecordEntry>)
  {
    forall i, j :: 0 <= i < j < |records| ==>
      records[i].recordType != records[j].recordType || records[i].recordLabel != records[j].recordLabel
  }

  /** The Set is as large as the list exactly when the keys are pairwise distinct. */
  lemma {:induction false} RecordKeysSize(records: seq<RecordEntry>)
    ensures |RecordKeys(records)| <= |records|
    ensures |RecordKeys(records)| == |records| <==> DistinctKeys(records)
  {
    if |records| > 0 {
      var n := |records| - 1;
      var p := records[..n];
      var x := RecordKey(records[n]);
      RecordKeysSize(p);
      RecordKeysMembership(p, x);
      assert forall i :: 0 <= i < n ==> p[i] == records[i];
      if DistinctKeys(records) {
        assert DistinctKeys(p);
        assert x !in RecordKeys(p);
      } else {
        if DistinctKeys(p) {
          var i, j :| 0 <= i < j < |records| && RecordKey(records[i]) == RecordKey(records[j]);
          assert j == n;
          assert RecordKey(p[i]) == x;
          assert RecordKeys(records) == RecordKeys(p);
        }
      }
    }
  }

  /** The Set-size test of `validate` accepts exactly the lists with unique (type, label). */
  lemma UniqueKeysIffUniqueTypeLabel(records: seq<RecordEntry>)
    ensures |RecordKeys(records)| == |records| <==> UniqueTypeLabel(records)
  {
    RecordKeysSize(records);
    forall i, j | 0 <= i < j < |records|
      ensures RecordKey(records[i]) == RecordKey(records[j]) <==>
              records[i].recordType == records[j].recordType && records[i].recordLabel == records[j].recordLabel
    {
      RecordKeyInjective(records[i], records[j]);
    }
  }

  /** The three checks of the loop body, in their order, for one record. */
  function RecordError(record: RecordEntry): (e: Option<Error>)
    ensures e.None? <==> ValidRecord(record)
  {
    if record.recordType !in VALID_RECORD_TYPES then Some(InvalidRecordType)
    else if |record.recordLabel| > MAX_RECORD_LABEL_LENGTH || |record.recordLabel| < MIN_RECORD_LABEL_LENGTH
    then Some(InvalidLabelLength)
    else if |record.value| > MAX_RECORD_VALUE_LENGTH || |record.value| < MIN_RECORD_VALUE_LENGTH
    then Some(InvalidValueLength)
    else None
  }

  /** A record with an allowed type and label and value lengths in bounds. */
  predicate ValidRecord(record: RecordEntry)
  {
    && record.recordType in VALID_RECORD_TYPES
    && MIN_RECORD_LABEL_LENGTH <= |record.recordLabel| <= MAX_RECORD_LABEL_LENGTH
    && MIN_RECORD_VALUE_LENGTH <= |record.value| <= MAX_RECORD_VALUE_LENGTH
  }

  /** The loop's verdict: the error of the first record that fails a check. */
  function FirstInvalid(records: seq<RecordEntry>): (o: Outcome<Error>)
    ensures o.Pass? <==> forall i :: 0 <= i < |records| ==> ValidRecord(records[i])
    ensures o.Fail? ==> exists i :: 0 <= i < |records| && RecordError(records[i]) == Some(o.error) &&
                                   forall j :: 0 <= j < i ==> ValidRecord(records[j])
  {
    if |records| == 0 then Pass
    else if RecordError(records[0]).Some? then Fail(RecordError(records[0]).value)
    else
      var rest := FirstInvalid(records[1..]);
      assert forall i :: 0 < i < |records| ==> records[i] == records[1..][i - 1];
      if rest.Fail? then
        var i :| 0 <= i < |records[1..]| && RecordError(records[1..][i]) == Some(rest.error) &&
                 forall j :: 0 <= j < i ==> ValidRecord(records[1..][j]);
        assert records[i + 1] == records[1..][i];
        rest
      else rest
  }

  /** A record list that `validate` accepts. */
  predicate WellFormedRecords(records: seq<RecordEntry>)
  {
    && |records| <= MAX_RECORDS
    && UniqueTypeLabel(records)
    && forall i :: 0 <= i < |records| ==> ValidRecord(records[i])
  }

  /** What `validate` throws, if anything: the count, then uniqueness, then each record. */
  function Verdict(records: seq<RecordEntry>): (v: Outcome<Error>)
    ensures v.Pass? <==> WellFormedRecords(records)
    ensures |records| > MAX_RECORDS ==> v == Fail(TooManyRecords)
    ensures |records| <= MAX_RECORDS && !UniqueTypeLabel(records) ==> v == Fail(DuplicateRecords)
    ensures |records| <= MAX_RECORDS && UniqueTypeLabel(records) ==>
            v == FirstInvalid(records)
  {
    UniqueKeysIffUniqueTypeLabel(records);
    if |records| > MAX_RECORDS then Fail(TooManyRecords)
    else if |RecordKeys(records)| != |records| then Fail(DuplicateRecords)
    else FirstInvalid(records)
  }

  /** `validate`: the count and Set checks, then one pass over the records. */
  method Validate(asset: UpdateRecordsAssetProps) returns (r: Outcome<Error>)
    ensures r == Verdict(asset.records)
  {
    var records := asset.records;
    if |records| > MAX_RECORDS {
      return Fail(TooManyRecords);
    }
    var recordKeys := RecordKeys(records);
    if |recordKeys| != |records| {
      return Fail(DuplicateRecords);
    }
    for i := 0 to |records|
      invariant FirstInvalid(records) == FirstInvalid(records[i..])
    {
      var record := records[i];
      assert records[i..][1..] == records[i + 1..];
      if record.recordType !in VALID_RECORD_TYPES {
        return Fail(InvalidRecordType);
      }
      if |record.recordLabel| > MAX_RECORD_LABEL_LENGTH || |record.recordLabel| < MIN_RECORD_LABEL_LENGTH {
        return Fail(InvalidLabelLength);
      }
      if |record.value| > MAX_RECORD_VALUE_LENGTH || |record.value| < MIN_RECORD_VALUE_LENGTH {
        return Fail(InvalidValueLength);
      }
    }
    assert records[|records|..] == [];
    r := Pass;
  }

  /** The state transition of `apply` at clock reading `nowMs`. The body of
      `updateLNSObject` is not part of this model: only its call-site effect,
      `records := asset.records`, is; every other field keeps its value. */
  function Transition(s: Snapshot, asset: UpdateRecordsAssetProps, sender: Address,
                      namehash: string -> Node, nowMs: int)
    : (t: Result<Snapshot, Error>)
    ensures LookupNode(s.chain, GetNodeForName(namehash, asset.name)).None? ==> t == Err(NotRegistered)
    ensures match LookupNode(s.chain, GetNodeForName(namehash, asset.name))
            case None => true
            case Some(o) =>
              && (o.ownerAddress != sender ==> t == Err(NotOwner))
              && (o.ownerAddress == sender && !IsTTLPassed(o, nowMs) ==> t == Err(MustWaitForTTL))
              && (t.Ok? <==> o.ownerAddress == sender && IsTTLPassed(o, nowMs))
              && (t.Ok? ==>
                    && LookupNode(t.value.chain, GetNodeForName(namehash, asset.name)) ==
                       Some(o.(records := asset.records))
                    && t.value.chain.Keys == s.chain.Keys
                    && t.value.accounts == s.accounts
                    && forall k :: k in s.chain && k != GetKeyForNode(GetNodeForName(namehash, asset.name)) ==>
                                   t.value.chain[k] == s.chain[k])
  {
    var node := GetNodeForName(namehash, asset.name);
    match LookupNode(s.chain, node)
    case None => Err(NotRegistered)
    case Some(lnsObject) =>
      if lnsObject.ownerAddress != sender then Err(NotOwner)
      else if !IsTTLPassed(lnsObject, nowMs) then Err(MustWaitForTTL)
      else Ok(s.(chain := s.chain[GetKeyForNode(node) := lnsObject.(records := asset.records)]))
  }

  /** `apply`: existence, then ownership, then the TTL gate; then the records are replaced. */
  method Apply(store: StateStore, asset: UpdateRecordsAssetProps, sender: Address,
               namehash: string -> Node, nowMs: nat)
    returns (r: Outcome<Error>)
    modifies store
    ensures Commits(Transition(old(store.View()), asset, sender, namehash, nowMs),
                    old(store.View()), r, store.View())
  {
    var node := GetNodeForName(namehash, asset.name);
    var lnsObject := GetLNSObject(store, node);
    if lnsObject.None? {
      return Fail(NotRegistered);
    }
    if lnsObject.value.ownerAddress != sender {
      return Fail(NotOwner);
    }
    if !IsTTLPassed(lnsObject.value, nowMs) {
      return Fail(MustWaitForTTL);
    }
    store.chain := store.chain[GetKeyForNode(node) := lnsObject.value.(records := asset.records)];
    r := Pass;
  }
}
