/**
 * The insert-or-update of assignment records keyed by call sign
 * (`upsert_assignments_batch`): a reference fold `Upsert`, the loop that
 * implements it with a position index, and what the fold guarantees.
 */
module RecordStore {
  import opened Wrappers
  import opened Records

  /** A record seen for the first time: both timestamps are `now`. */
  function Fresh(row: Row, now: Time): Assignment
  {
    Assignment(row.rowNumber, row.holder, row.callSign, row.assignNo, row.expiry, now, now)
  }

  /** `existing[idx].update(record)` followed by refreshing `last_updated_at`. */
  function Refresh(a: Assignment, row: Row, now: Time): Assignment
  {
    Assignment(row.rowNumber, row.holder, row.callSign, row.assignNo, row.expiry, a.firstSeenAt, now)
  }

  function CallSigns(s: seq<Assignment>): (keys: seq<string>)
    ensures |keys| == |s|
    ensures forall i :: 0 <= i < |s| ==> keys[i] == s[i].callSign
  {
    seq(|s|, i requires 0 <= i < |s| => s[i].callSign)
  }

  ghost predicate Distinct(keys: seq<string>)
  {
    forall i, j :: 0 <= i < j < |keys| ==> keys[i] != keys[j]
  }

  /** No key after position `i` equals the key at `i`. */
  ghost predicate LastAt(keys: seq<string>, i: nat)
    requires i < |keys|
  {
    forall j :: i < j < |keys| ==> keys[j] != keys[i]
  }

  /**
   * The lookup `{a["call_sign"]: i for i, a in enumerate(existing)}`: every
   * key maps to its LAST position, since later entries overwrite earlier ones.
   */
  function PositionIndex(keys: seq<string>): map<string, nat>
  {
    if keys == [] then map[]
    else PositionIndex(keys[..|keys| - 1])[keys[|keys| - 1] := |keys| - 1]
  }

  /** The index holds exactly the keys of the sequence, each at its last position. */
  lemma {:induction false} PositionIndexSpec(keys: seq<string>)
    ensures forall k :: k in PositionIndex(keys) <==> k in keys
    ensures forall k :: k in PositionIndex(keys) ==>
      && PositionIndex(keys)[k] < |keys| && keys[PositionIndex(keys)[k]] == k
      && LastAt(keys, PositionIndex(keys)[k])
  {
    if keys != [] {
      var n := |keys| - 1;
      PositionIndexSpec(keys[..n]);
      var pm := PositionIndex(keys[..n]);
      var m := PositionIndex(keys);
      assert m == pm[keys[n] := n];
      assert keys == keys[..n] + [keys[n]];
      forall k ensures k in m <==> k in keys {
        assert k in keys <==> k in keys[..n] || k == keys[n];
      }
      forall k | k in m
        ensures m[k] < |keys| && keys[m[k]] == k && LastAt(keys, m[k])
      {
        if k != keys[n] {
          assert m[k] == pm[k] && keys[pm[k]] == keys[..n][pm[k]];
          assert LastAt(keys[..n], pm[k]);
          forall j | m[k] < j < |keys| ensures keys[j] != keys[m[k]] {
            if j < n {
              assert keys[j] == keys[..n][j];
            }
          }
        }
      }
    }
  }

  datatype UpsertResult = UpsertResult(records: seq<Assignment>, added: nat, updated: nat)

  /** One iteration of the upsert loop. */
  function UpsertStep(r: UpsertResult, row: Row, now: Time): UpsertResult
  {
    var index := PositionIndex(CallSigns(r.records));
    PositionIndexSpec(CallSigns(r.records));
    if row.callSign in index then
      var i := index[row.callSign];
      UpsertResult(r.records[i := Refresh(r.records[i], row, now)], r.added, r.updated + 1)
    else
      UpsertResult(r.records + [Fresh(row, now)], r.added + 1, r.updated)
  }

  /** The records and the counts after upserting `batch` into `s`, row by row. */
  function Upsert(s: seq<Assignment>, batch: seq<Row>, now: Time): UpsertResult
    decreases |batch|
  {
    if batch == [] then UpsertResult(s, 0, 0)
    else UpsertStep(Upsert(s, batch[..|batch| - 1], now), batch[|batch| - 1], now)
  }

  lemma PositionIndexSnoc(keys: seq<string>, k: string)
    ensures PositionIndex(keys + [k]) == PositionIndex(keys)[k := |keys|]
  {
    assert (keys + [k])[..|keys|] == keys;
  }

  lemma CallSignsSnoc(s: seq<Assignment>, a: Assignment)
    ensures CallSigns(s + [a]) == CallSigns(s) + [a.callSign]
  {
  }

  lemma CallSignsUpdate(s: seq<Assignment>, i: nat, a: Assignment)
    requires i < |s| && a.callSign == s[i].callSign
    ensures CallSigns(s[i := a]) == CallSigns(s)
  {
  }

  lemma UpsertSnoc(s: seq<Assignment>, batch: seq<Row>, row: Row, now: Time)
    ensures Upsert(s, batch + [row], now) == UpsertStep(Upsert(s, batch, now), row, now)
  {
    assert (batch + [row])[..|batch|] == batch;
  }

  lemma StepOnIndexedKey(r: UpsertResult, row: Row, now: Time)
    requires row.callSign in PositionIndex(CallSigns(r.records))
    ensures var i := PositionIndex(CallSigns(r.records))[row.callSign];
      i < |r.records| && r.records[i].callSign == row.callSign &&
      UpsertStep(r, row, now) == UpsertResult(r.records[i := Refresh(r.records[i], row, now)], r.added, r.updated + 1)
  {
    PositionIndexSpec(CallSigns(r.records));
  }

  lemma StepOnUnindexedKey(r: UpsertResult, row: Row, now: Time)
    requires row.callSign !in PositionIndex(CallSigns(r.records))
    ensures UpsertStep(r, row, now) == UpsertResult(r.records + [Fresh(row, now)], r.added + 1, r.updated)
  {
  }

  /** The loop of `upsert_assignments_batch` over the loaded records. */
  method UpsertRecords(existing: seq<Assignment>, batch: seq<Row>, now: Time)
    returns (records: seq<Assignment>, added: nat, updated: nat)
    ensures UpsertResult(records, added, updated) == Upsert(existing, batch, now)
  {
    records := existing;
    var byCallSign := PositionIndex(CallSigns(existing));
    added, updated := 0, 0;
    for i := 0 to |batch|
      invariant UpsertResult(records, added, updated) == Upsert(existing, batch[..i], now)
      invariant byCallSign == PositionIndex(CallSigns(records))
    {
      var row := batch[i];
      ghost var prev := UpsertResult(records, added, updated);
      assert Upsert(existing, batch[..i + 1], now) == UpsertStep(prev, row, now) by {
        assert batch[..i + 1] == batch[..i] + [row];
        UpsertSnoc(existing, batch[..i], row, now);
      }
      if row.callSign in byCallSign {
        var idx := byCallSign[row.callSign];
        StepOnIndexedKey(prev, row, now);
        CallSignsUpdate(records, idx, Refresh(records[idx], row, now));
        records := records[idx := Refresh(records[idx], row, now)];
        updated := updated + 1;
      } else {
        StepOnUnindexedKey(prev, row, now);
        CallSignsSnoc(records, Fresh(row, now));
        PositionIndexSnoc(CallSigns(records), row.callSign);
        byCallSign := byCallSign[row.callSign := |records|];
        records := records + [Fresh(row, now)];
        added := added + 1;
      }
    }
    assert batch[..|batch|] == batch;
  }

  // ---------------------------------------------------------------------
  // A non-sequential description of the result

  /** Row `i` of `batch` has call sign `k` and no later row has it. */
  ghost predicate LastWithKey(batch: seq<Row>, k: string, i: int)
  {
    0 <= i < |batch| && batch[i].callSign == k && forall j :: i < j < |batch| ==> batch[j].callSign != k
  }

  /** `row` is a row of `batch` with call sign `k`, and no later row has it. */
  ghost predicate IsLastRowOf(batch: seq<Row>, k: string, row: Row)
  {
    exists i :: LastWithKey(batch, k, i) && batch[i] == row
  }

  /** The last row of `batch` with call sign `k`, if any. */
  function LastRow(batch: seq<Row>, k: string): (r: Option<Row>)
    ensures r.Some? ==> r.value.callSign == k && r.value in batch && IsLastRowOf(batch, k, r.value)
    ensures r.None? <==> forall i :: 0 <= i < |batch| ==> batch[i].callSign != k
  {
    if batch == [] then None
    else
      var n := |batch| - 1;
      var last := batch[n];
      if last.callSign == k then
        assert LastWithKey(batch, k, n);
        Some(last)
      else
        var prefix := batch[..n];
        assert forall i :: 0 <= i < n ==> prefix[i] == batch[i];
        var r := LastRow(prefix, k);
        assert r.Some? ==> IsLastRowOf(batch, k, r.value) by {
          if r.Some? {
            var i :| LastWithKey(prefix, k, i) && prefix[i] == r.value;
            assert LastWithKey(batch, k, i);
          }
        }
        r
  }

  /** The position of the first row of `batch` with call sign `k`, or `|batch|` when there is none. */
  function FirstIndex(batch: seq<Row>, k: string): (i: nat)
    ensures i <= |batch| && (i < |batch| ==> batch[i].callSign == k)
    ensures forall j :: 0 <= j < i ==> batch[j].callSign != k
  {
    if batch == [] || batch[0].callSign == k then 0
    else 1 + FirstIndex(batch[1..], k)
  }

  /** Adding a row at the end does not move the first occurrence of a key the batch already had. */
  lemma FirstIndexSnoc(prefix: seq<Row>, row: Row, k: string)
    requires FirstIndex(prefix, k) < |prefix|
    ensures FirstIndex(prefix + [row], k) == FirstIndex(prefix, k)
  {
    var p := FirstIndex(prefix, k);
    assert (prefix + [row])[p] == prefix[p];
  }

  /** Each key of `nk` occurs in `batch`, and the keys come in the order of their first row there. */
  ghost predicate InFirstOccurrenceOrder(batch: seq<Row>, nk: seq<string>)
  {
    && (forall i :: 0 <= i < |nk| ==> FirstIndex(batch, nk[i]) < |batch|)
    && (forall i, j :: 0 <= i < j < |nk| ==> FirstIndex(batch, nk[i]) < FirstIndex(batch, nk[j]))
  }

  /** The keys `nk` are the new keys of `batch` over `keys`, in the order of their first occurrence. */
  ghost predicate NewKeysOf(keys: seq<string>, batch: seq<Row>, nk: seq<string>)
  {
    && (forall i :: 0 <= i < |nk| ==> nk[i] !in keys && LastRow(batch, nk[i]).Some?)
    && InFirstOccurrenceOrder(batch, nk)
    && Distinct(nk)
    && (forall i :: 0 <= i < |batch| && batch[i].callSign !in keys ==> batch[i].callSign in nk)
  }

  /** The keys already new before `row` keep their first and last rows in `prefix + [row]`. */
  lemma NewKeysKept(keys: seq<string>, prefix: seq<Row>, row: Row, prev: seq<string>)
    requires NewKeysOf(keys, prefix, prev)
    ensures forall i :: 0 <= i < |prev| ==>
      FirstIndex(prefix + [row], prev[i]) == FirstIndex(prefix, prev[i]) && LastRow(prefix + [row], prev[i]).Some?
  {
    forall i | 0 <= i < |prev|
      ensures FirstIndex(prefix + [row], prev[i]) == FirstIndex(prefix, prev[i]) && LastRow(prefix + [row], prev[i]).Some?
    {
      FirstIndexSnoc(prefix, row, prev[i]);
      LastRowSnoc(prefix, row, prev[i]);
    }
  }

  /** One row more: its key joins the new keys at the end exactly when it is neither stored nor already new. */
  lemma NewKeysGrow(keys: seq<string>, prefix: seq<Row>, row: Row, prev: seq<string>)
    requires NewKeysOf(keys, prefix, prev)
    ensures NewKeysOf(keys, prefix + [row], if row.callSign in keys || row.callSign in prev then prev else prev + [row.callSign])
  {
    NewKeysKept(keys, prefix, row, prev);
    if row.callSign in keys || row.callSign in prev {
      NewKeyRepeated(keys, prefix, row, prev);
    } else {
      NewKeyAppended(keys, prefix, row, prev);
    }
  }

  /** A row whose key is stored or already new leaves the new keys as they were. */
  lemma NewKeyRepeated(keys: seq<string>, prefix: seq<Row>, row: Row, prev: seq<string>)
    requires NewKeysOf(keys, prefix, prev) && (row.callSign in keys || row.callSign in prev)
    requires forall i :: 0 <= i < |prev| ==>
      FirstIndex(prefix + [row], prev[i]) == FirstIndex(prefix, prev[i]) && LastRow(prefix + [row], prev[i]).Some?
    ensures NewKeysOf(keys, prefix + [row], prev)
  {
    var batch := prefix + [row];
    forall i | 0 <= i < |batch| && batch[i].callSign !in keys
      ensures batch[i].callSign in prev
    {
      if i < |prefix| {
        assert batch[i] == prefix[i];
      }
    }
  }

  /** A row whose key is neither stored nor already new adds that key at the end, at its own position. */
  lemma NewKeyAppended(keys: seq<string>, prefix: seq<Row>, row: Row, prev: seq<string>)
    requires NewKeysOf(keys, prefix, prev) && row.callSign !in keys && row.callSign !in prev
    requires forall i :: 0 <= i < |prev| ==>
      FirstIndex(prefix + [row], prev[i]) == FirstIndex(prefix, prev[i]) && LastRow(prefix + [row], prev[i]).Some?
    ensures NewKeysOf(keys, prefix + [row], prev + [row.callSign])
  {
    var batch, n, k, nk := prefix + [row], |prefix|, row.callSign, prev + [row.callSign];
    LastRowSnoc(prefix, row, k);
    assert FirstIndex(batch, k) == n;
    assert forall i :: 0 <= i < |prev| ==> nk[i] == prev[i];
    forall i | 0 <= i < |batch| && batch[i].callSign !in keys
      ensures batch[i].callSign in nk
    {
      if i < n {
        assert batch[i] == prefix[i];
      }
    }
  }

  /**
   * The call signs of `batch` that are not in `keys`, each once, in the
   * order of their first occurrence in the batch.
   */
  function NewKeys(keys: seq<string>, batch: seq<Row>): (nk: seq<string>)
    decreases |batch|
    ensures forall i :: 0 <= i < |nk| ==> nk[i] !in keys && LastRow(batch, nk[i]).Some?
    ensures Distinct(nk)
    ensures forall i :: 0 <= i < |batch| && batch[i].callSign !in keys ==> batch[i].callSign in nk
  {
    if batch == [] then []
    else
      var prev := NewKeys(keys, batch[..|batch| - 1]);
      var k := batch[|batch| - 1].callSign;
      assert forall i :: 0 <= i < |batch| - 1 ==> batch[i] == batch[..|batch| - 1][i];
      if k in keys || k in prev then prev else prev + [k]
  }

  /** The new keys come in the order in which their first rows occur in the batch. */
  lemma {:induction false} NewKeysInOrder(keys: seq<string>, batch: seq<Row>)
    decreases |batch|
    ensures InFirstOccurrenceOrder(batch, NewKeys(keys, batch))
  {
    if batch != [] {
      var n := |batch| - 1;
      var prefix, row := batch[..n], batch[n];
      assert batch == prefix + [row];
      NewKeysInOrder(keys, prefix);
      var prev := NewKeys(keys, prefix);
      NewKeysGrow(keys, prefix, row, prev);
      NewKeysSnoc(keys, prefix, row);
    }
  }


  /** Position `j` holds the last record with its call sign. */
  ghost predicate LastOfItsKey(s: seq<Assignment>, j: int)
    requires 0 <= j < |s|
  {
    forall i :: j < i < |s| ==> s[i].callSign != s[j].callSign
  }

  /**
   * The stored records after the batch: the record that the index points
   * at for a batch key takes the fields of that key's last row in the batch
   * and keeps its `first_seen_at`; every other record is unchanged.
   */
  ghost function Refreshed(s: seq<Assignment>, batch: seq<Row>, now: Time): seq<Assignment>
  {
    seq(|s|, j requires 0 <= j < |s| =>
      match LastRow(batch, s[j].callSign)
      case Some(row) => if LastOfItsKey(s, j) then Refresh(s[j], row, now) else s[j]
      case None => s[j])
  }

  /** The records appended: one fresh record per new key, in batch order, from its last row. */
  ghost function Appended(s: seq<Assignment>, batch: seq<Row>, now: Time): seq<Assignment>
  {
    var nk := NewKeys(CallSigns(s), batch);
    seq(|nk|, k requires 0 <= k < |nk| => Fresh(LastRow(batch, nk[k]).value, now))
  }

  // ---------------------------------------------------------------------
  // Properties of the upsert

  /** Every row is counted once, as added or as updated, and the store grows by `added`. */
  lemma {:induction false} UpsertCounts(s: seq<Assignment>, batch: seq<Row>, now: Time)
    ensures Upsert(s, batch, now).added + Upsert(s, batch, now).updated == |batch|
    ensures |Upsert(s, batch, now).records| == |s| + Upsert(s, batch, now).added
  {
    if batch != [] {
      UpsertCounts(s, batch[..|batch| - 1], now);
      PositionIndexSpec(CallSigns(Upsert(s, batch[..|batch| - 1], now).records));
    }
  }

  lemma LastRowSnoc(batch: seq<Row>, row: Row, k: string)
    ensures LastRow(batch + [row], k) == if row.callSign == k then Some(row) else LastRow(batch, k)
  {
    assert (batch + [row])[..|batch|] == batch;
  }

  lemma NewKeysSnoc(keys: seq<string>, batch: seq<Row>, row: Row)
    ensures NewKeys(keys, batch + [row]) ==
      var prev := NewKeys(keys, batch);
      if row.callSign in keys || row.callSign in prev then prev else prev + [row.callSign]
  {
    assert (batch + [row])[..|batch|] == batch;
  }

  /** The description's call signs: the old ones, then the new keys. */
  lemma DescribedCallSigns(s: seq<Assignment>, batch: seq<Row>, now: Time)
    ensures CallSigns(Refreshed(s, batch, now) + Appended(s, batch, now)) == CallSigns(s) + NewKeys(CallSigns(s), batch)
  {
    var R, A := Refreshed(s, batch, now), Appended(s, batch, now);
    var nk := NewKeys(CallSigns(s), batch);
    forall j | 0 <= j < |s|
      ensures R[j].callSign == s[j].callSign
    {
    }
    forall k | 0 <= k < |nk|
      ensures A[k].callSign == nk[k]
    {
      assert LastRow(batch, nk[k]).Some?;
    }
    assert CallSigns(R) == CallSigns(s);
    assert CallSigns(A) == nk;
    CallSignsConcat(R, A);
  }

  lemma CallSignsConcat(x: seq<Assignment>, y: seq<Assignment>)
    ensures CallSigns(x + y) == CallSigns(x) + CallSigns(y)
  {
  }

  /** For a stored key, the index over the old keys followed by new keys points into the old part, at its last occurrence. */
  lemma StoredKeyPosition(s: seq<Assignment>, nk: seq<string>, k: string) returns (i: nat)
    requires k in CallSigns(s)
    requires forall q :: 0 <= q < |nk| ==> nk[q] !in CallSigns(s)
    ensures k in PositionIndex(CallSigns(s) + nk) && i == PositionIndex(CallSigns(s) + nk)[k]
    ensures i < |s| && s[i].callSign == k && LastOfItsKey(s, i)
    ensures forall j :: 0 <= j < |s| && s[j].callSign == k && j != i ==> !LastOfItsKey(s, j)
  {
    var keys := CallSigns(s);
    var index := PositionIndex(keys + nk);
    PositionIndexSpec(keys + nk);
    i := index[k];
    assert i < |s|;
    forall j | i < j < |s| ensures s[j].callSign != s[i].callSign {
      assert (keys + nk)[j] == s[j].callSign;
    }
    forall j | 0 <= j < |s| && s[j].callSign == k && j != i ensures !LastOfItsKey(s, j) {
      assert (keys + nk)[j] == k;
      assert j < i;
    }
  }

  lemma RefreshedAfterStoredKey(s: seq<Assignment>, batch: seq<Row>, row: Row, now: Time, i: nat)
    requires i < |s| && s[i].callSign == row.callSign && LastOfItsKey(s, i)
    requires forall j :: 0 <= j < |s| && s[j].callSign == row.callSign && j != i ==> !LastOfItsKey(s, j)
    ensures Refreshed(s, batch + [row], now) == Refreshed(s, batch, now)[i := Refresh(s[i], row, now)]
  {
    var R := Refreshed(s, batch + [row], now);
    var R0 := Refreshed(s, batch, now);
    forall j | 0 <= j < |s| ensures R[j] == R0[i := Refresh(s[i], row, now)][j] {
      LastRowSnoc(batch, row, s[j].callSign);
    }
  }

  lemma AppendedAfterOldKey(s: seq<Assignment>, batch: seq<Row>, row: Row, now: Time)
    requires NewKeys(CallSigns(s), batch + [row]) == NewKeys(CallSigns(s), batch)
    requires row.callSign !in NewKeys(CallSigns(s), batch)
    ensures Appended(s, batch + [row], now) == Appended(s, batch, now)
  {
    var nk := NewKeys(CallSigns(s), batch);
    var A := Appended(s, batch + [row], now);
    forall q | 0 <= q < |A| ensures A[q] == Appended(s, batch, now)[q] {
      LastRowSnoc(batch, row, nk[q]);
    }
  }

  /** The step for a row whose call sign was already stored before the batch. */
  lemma StepOnStoredKey(s: seq<Assignment>, batch: seq<Row>, prev: UpsertResult, row: Row, now: Time)
    requires prev.records == Refreshed(s, batch, now) + Appended(s, batch, now)
    requires row.callSign in CallSigns(s)
    ensures UpsertStep(prev, row, now).records
      == Refreshed(s, batch + [row], now) + Appended(s, batch + [row], now)
    ensures NewKeys(CallSigns(s), batch + [row]) == NewKeys(CallSigns(s), batch)
    ensures UpsertStep(prev, row, now).added == prev.added
  {
    var keys := CallSigns(s);
    var nk := NewKeys(keys, batch);
    var R0, A0 := Refreshed(s, batch, now), Appended(s, batch, now);
    assert CallSigns(prev.records) == keys + nk by {
      DescribedCallSigns(s, batch, now);
    }
    var i := StoredKeyPosition(s, nk, row.callSign);
    assert NewKeys(keys, batch + [row]) == nk by {
      NewKeysSnoc(keys, batch, row);
    }
    assert Appended(s, batch + [row], now) == A0 by {
      AppendedAfterOldKey(s, batch, row, now);
    }
    assert Refreshed(s, batch + [row], now) == R0[i := Refresh(s[i], row, now)] by {
      RefreshedAfterStoredKey(s, batch, row, now, i);
    }
    assert UpsertStep(prev, row, now) == UpsertResult(prev.records[i := Refresh(prev.records[i], row, now)], prev.added, prev.updated + 1) by {
      StepOnIndexedKey(prev, row, now);
    }
    assert prev.records[i] == R0[i];
    assert Refresh(R0[i], row, now) == Refresh(s[i], row, now);
    UpdateInLeft(R0, A0, i, Refresh(s[i], row, now));
  }

  lemma UpdateInLeft<T>(a: seq<T>, b: seq<T>, i: nat, x: T)
    requires i < |a|
    ensures (a + b)[i := x] == a[i := x] + b
  {
  }

  lemma UpdateInRight<T>(a: seq<T>, b: seq<T>, i: nat, x: T)
    requires i < |b|
    ensures (a + b)[|a| + i := x] == a + b[i := x]
  {
  }

  lemma RefreshedAfterUnstoredKey(s: seq<Assignment>, batch: seq<Row>, row: Row, now: Time)
    requires row.callSign !in CallSigns(s)
    ensures Refreshed(s, batch + [row], now) == Refreshed(s, batch, now)
  {
    var R := Refreshed(s, batch + [row], now);
    forall j | 0 <= j < |s| ensures R[j] == Refreshed(s, batch, now)[j] {
      LastRowSnoc(batch, row, s[j].callSign);
      assert CallSigns(s)[j] == s[j].callSign;
    }
  }

  /** For a key added earlier in the batch, the index points at its appended record. */
  lemma PendingKeyPosition(s: seq<Assignment>, nk: seq<string>, k: string) returns (q: nat)
    requires k !in CallSigns(s) && k in nk && Distinct(nk)
    ensures k in PositionIndex(CallSigns(s) + nk) && |s| + q == PositionIndex(CallSigns(s) + nk)[k]
    ensures q < |nk| && nk[q] == k
  {
    var keys := CallSigns(s);
    PositionIndexSpec(keys + nk);
    var i := PositionIndex(keys + nk)[k];
    assert i >= |s|;
    q := i - |s|;
    assert (keys + nk)[i] == nk[q];
  }

  lemma AppendedAfterPendingKey(s: seq<Assignment>, batch: seq<Row>, row: Row, now: Time, q: nat)
    requires NewKeys(CallSigns(s), batch + [row]) == NewKeys(CallSigns(s), batch)
    requires q < |NewKeys(CallSigns(s), batch)| && NewKeys(CallSigns(s), batch)[q] == row.callSign
    ensures Appended(s, batch + [row], now) == Appended(s, batch, now)[q := Fresh(row, now)]
  {
    var nk := NewKeys(CallSigns(s), batch);
    var A := Appended(s, batch + [row], now);
    var A0 := Appended(s, batch, now);
    forall p | 0 <= p < |A| ensures A[p] == A0[q := Fresh(row, now)][p] {
      LastRowSnoc(batch, row, nk[p]);
      if p == q {
        assert A[p] == Fresh(row, now);
      } else {
        assert nk[p] != row.callSign;
        assert A[p] == A0[p];
      }
    }
  }

  /** The step for a row whose call sign an earlier row of the same batch added. */
  lemma StepOnPendingKey(s: seq<Assignment>, batch: seq<Row>, prev: UpsertResult, row: Row, now: Time)
    requires prev.records == Refreshed(s, batch, now) + Appended(s, batch, now)
    requires row.callSign !in CallSigns(s) && row.callSign in NewKeys(CallSigns(s), batch)
    ensures UpsertStep(prev, row, now).records
      == Refreshed(s, batch + [row], now) + Appended(s, batch + [row], now)
    ensures NewKeys(CallSigns(s), batch + [row]) == NewKeys(CallSigns(s), batch)
    ensures UpsertStep(prev, row, now).added == prev.added
  {
    var keys := CallSigns(s);
    var nk := NewKeys(keys, batch);
    var R0, A0 := Refreshed(s, batch, now), Appended(s, batch, now);
    assert CallSigns(prev.records) == keys + nk by {
      DescribedCallSigns(s, batch, now);
    }
    var q := PendingKeyPosition(s, nk, row.callSign);
    assert NewKeys(keys, batch + [row]) == nk by {
      NewKeysSnoc(keys, batch, row);
    }
    assert Refreshed(s, batch + [row], now) == R0 by {
      RefreshedAfterUnstoredKey(s, batch, row, now);
    }
    assert Appended(s, batch + [row], now) == A0[q := Fresh(row, now)] by {
      AppendedAfterPendingKey(s, batch, row, now, q);
    }
    assert UpsertStep(prev, row, now)
      == UpsertResult(prev.records[|s| + q := Refresh(prev.records[|s| + q], row, now)], prev.added, prev.updated + 1) by {
      StepOnIndexedKey(prev, row, now);
    }
    assert prev.records[|s| + q] == A0[q];
    assert Refresh(A0[q], row, now) == Fresh(row, now);
    UpdateInRight(R0, A0, q, Fresh(row, now));
  }

  /** The step for a row whose call sign is new to the store. */
  lemma StepOnNewKey(s: seq<Assignment>, batch: seq<Row>, prev: UpsertResult, row: Row, now: Time)
    requires prev.records == Refreshed(s, batch, now) + Appended(s, batch, now)
    requires row.callSign !in CallSigns(s) && row.callSign !in NewKeys(CallSigns(s), batch)
    ensures UpsertStep(prev, row, now).records
      == Refreshed(s, batch + [row], now) + Appended(s, batch + [row], now)
    ensures NewKeys(CallSigns(s), batch + [row]) == NewKeys(CallSigns(s), batch) + [row.callSign]
    ensures UpsertStep(prev, row, now).added == prev.added + 1
  {
    var keys := CallSigns(s);
    var nk := NewKeys(keys, batch);
    assert CallSigns(prev.records) == keys + nk by {
      DescribedCallSigns(s, batch, now);
    }
    assert row.callSign !in keys + nk;
    assert UpsertStep(prev, row, now) == UpsertResult(prev.records + [Fresh(row, now)], prev.added + 1, prev.updated) by {
      PositionIndexSpec(CallSigns(prev.records));
      StepOnUnindexedKey(prev, row, now);
    }
    assert NewKeys(keys, batch + [row]) == nk + [row.callSign] by {
      NewKeysSnoc(keys, batch, row);
    }
    assert Refreshed(s, batch + [row], now) == Refreshed(s, batch, now) by {
      RefreshedAfterUnstoredKey(s, batch, row, now);
    }
    assert Appended(s, batch + [row], now) == Appended(s, batch, now) + [Fresh(row, now)] by {
      AppendedAfterNewKey(s, batch, row, now);
    }
    SnocRegroups(Refreshed(s, batch, now), Appended(s, batch, now), Fresh(row, now));
  }

  lemma SnocRegroups(r: seq<Assignment>, a: seq<Assignment>, x: Assignment)
    ensures (r + a) + [x] == r + (a + [x])
  {
  }

  lemma AppendedAfterNewKey(s: seq<Assignment>, batch: seq<Row>, row: Row, now: Time)
    requires NewKeys(CallSigns(s), batch + [row]) == NewKeys(CallSigns(s), batch) + [row.callSign]
    requires row.callSign !in NewKeys(CallSigns(s), batch)
    ensures Appended(s, batch + [row], now) == Appended(s, batch, now) + [Fresh(row, now)]
  {
    var nk := NewKeys(CallSigns(s), batch);
    var A := Appended(s, batch + [row], now);
    var A0 := Appended(s, batch, now);
    forall p | 0 <= p < |A| ensures A[p] == (A0 + [Fresh(row, now)])[p] {
      LastRowSnoc(batch, row, (nk + [row.callSign])[p]);
      if p < |nk| {
        assert nk[p] != row.callSign;
      }
    }
  }

  /**
   * What the upsert does, stated without the loop: every stored record keeps
   * its position; the one the index finds for a batch key takes that key's
   * last row and keeps `first_seen_at`; others are untouched; new keys are
   * appended in batch order as fresh records; `added` counts them.
   */
  lemma {:induction false} UpsertCharacterized(s: seq<Assignment>, batch: seq<Row>, now: Time)
    ensures Upsert(s, batch, now).records == Refreshed(s, batch, now) + Appended(s, batch, now)
    ensures Upsert(s, batch, now).added == |NewKeys(CallSigns(s), batch)|
  {
    if batch == [] {
      assert Refreshed(s, batch, now) == s;
    } else {
      var n := |batch| - 1;
      var prefix, row := batch[..n], batch[n];
      assert batch == prefix + [row];
      UpsertCharacterized(s, prefix, now);
      var keys := CallSigns(s);
      DescribedCallSigns(s, prefix, now);
      if row.callSign in keys {
        StepOnStoredKey(s, prefix, Upsert(s, prefix, now), row, now);
      } else if row.callSign in NewKeys(keys, prefix) {
        StepOnPendingKey(s, prefix, Upsert(s, prefix, now), row, now);
      } else {
        StepOnNewKey(s, prefix, Upsert(s, prefix, now), row, now);
      }
    }
  }

  lemma DistinctJoin(a: seq<string>, b: seq<string>)
    requires Distinct(a) && Distinct(b)
    requires forall q :: 0 <= q < |b| ==> b[q] !in a
    ensures Distinct(a + b)
  {
    var all := a + b;
    forall i, j | 0 <= i < j < |all| ensures all[i] != all[j] {
      if j >= |a| && i < |a| {
        assert all[j] == b[j - |a|] && all[i] == a[i];
      } else if i >= |a| {
        assert all[j] == b[j - |a|] && all[i] == b[i - |a|];
      }
    }
  }

  /** Key uniqueness is preserved, every batch key ends up stored, and no other key appears. */
  lemma UpsertKeys(s: seq<Assignment>, batch: seq<Row>, now: Time)
    ensures CallSigns(Upsert(s, batch, now).records) == CallSigns(s) + NewKeys(CallSigns(s), batch)
    ensures Distinct(CallSigns(s)) ==> Distinct(CallSigns(Upsert(s, batch, now).records))
    ensures forall i :: 0 <= i < |batch| ==> batch[i].callSign in CallSigns(Upsert(s, batch, now).records)
    ensures forall k :: k in CallSigns(Upsert(s, batch, now).records) ==> k in CallSigns(s) || LastRow(batch, k).Some?
  {
    UpsertCharacterized(s, batch, now);
    DescribedCallSigns(s, batch, now);
    var keys := CallSigns(s);
    var nk := NewKeys(keys, batch);
    if Distinct(keys) {
      DistinctJoin(keys, nk);
    }
    forall k | k in keys + nk ensures k in keys || LastRow(batch, k).Some? {
      if k !in keys {
        assert k in nk;
      }
    }
  }

  /**
   * Stored records keep their position, call sign and `first_seen_at`; one
   * whose key is not in the batch is unchanged, any other is refreshed at
   * `now`; every appended record was first seen and last updated at `now`.
   */
  lemma UpsertKeepsPositions(s: seq<Assignment>, batch: seq<Row>, now: Time)
    ensures |Upsert(s, batch, now).records| >= |s|
    ensures forall j :: 0 <= j < |s| ==>
      var r := Upsert(s, batch, now).records[j];
      && r.callSign == s[j].callSign
      && r.firstSeenAt == s[j].firstSeenAt
      && (LastRow(batch, s[j].callSign).None? ==> r == s[j])
      && (r == s[j] || r.lastUpdatedAt == now)
    ensures forall j :: |s| <= j < |Upsert(s, batch, now).records| ==>
      var r := Upsert(s, batch, now).records[j];
      r.firstSeenAt == now && r.lastUpdatedAt == now
  {
    UpsertCharacterized(s, batch, now);
    var r := Upsert(s, batch, now).records;
    forall j | |s| <= j < |r| ensures r[j].firstSeenAt == now && r[j].lastUpdatedAt == now {
      assert r[j] == Appended(s, batch, now)[j - |s|];
    }
  }

  lemma {:induction false} NoNewKeysWhenAllStored(keys: seq<string>, batch: seq<Row>)
    requires forall i :: 0 <= i < |batch| ==> batch[i].callSign in keys
    ensures NewKeys(keys, batch) == []
  {
    if batch != [] {
      var prefix := batch[..|batch| - 1];
      assert forall i :: 0 <= i < |prefix| ==> prefix[i] == batch[i];
      NoNewKeysWhenAllStored(keys, prefix);
    }
  }

  /** Upserting a second time adds nothing; with the same timestamp it changes nothing. */
  lemma UpsertIdempotent(s: seq<Assignment>, batch: seq<Row>, now: Time, later: Time)
    ensures Upsert(Upsert(s, batch, now).records, batch, later).added == 0
    ensures Upsert(Upsert(s, batch, now).records, batch, later).updated == |batch|
    ensures CallSigns(Upsert(Upsert(s, batch, now).records, batch, later).records)
      == CallSigns(Upsert(s, batch, now).records)
    ensures later == now ==>
      Upsert(Upsert(s, batch, now).records, batch, later).records == Upsert(s, batch, now).records
  {
    var first := Upsert(s, batch, now).records;
    UpsertKeys(s, batch, now);
    NoNewKeysWhenAllStored(CallSigns(first), batch);
    UpsertCharacterized(first, batch, later);
    UpsertCounts(first, batch, later);
    UpsertKeys(first, batch, later);
    if later == now {
      assert Upsert(first, batch, now).records == Refreshed(first, batch, now);
      RefreshedIsFixed(s, batch, now);
    }
  }

  /** The records an upsert produced are left as they are by the same refresh. */
  lemma RefreshedIsFixed(s: seq<Assignment>, batch: seq<Row>, now: Time)
    ensures var first := Upsert(s, batch, now).records;
      Refreshed(first, batch, now) == first
  {
    var first := Upsert(s, batch, now).records;
    UpsertCharacterized(s, batch, now);
    var R := Refreshed(first, batch, now);
    forall j | 0 <= j < |first| ensures R[j] == first[j] {
      RefreshedFixedAt(s, batch, now, j);
    }
  }

  /** Record `j` of the described result is already what refreshing it from the same batch gives. */
  lemma RefreshedFixedAt(s: seq<Assignment>, batch: seq<Row>, now: Time, j: nat)
    requires j < |Refreshed(s, batch, now) + Appended(s, batch, now)|
    ensures var first := Refreshed(s, batch, now) + Appended(s, batch, now);
      Refreshed(first, batch, now)[j] == first[j]
  {
    var first := Refreshed(s, batch, now) + Appended(s, batch, now);
    assert CallSigns(first) == CallSigns(s) + NewKeys(CallSigns(s), batch) by {
      DescribedCallSigns(s, batch, now);
    }
    if j < |s| {
      StoredRecordFixed(s, batch, now, first, j);
    } else {
      AppendedRecordFixed(s, batch, now, first, j);
    }
  }

  /** A stored record, once refreshed, is not changed by refreshing it again. */
  lemma StoredRecordFixed(s: seq<Assignment>, batch: seq<Row>, now: Time, first: seq<Assignment>, j: nat)
    requires first == Refreshed(s, batch, now) + Appended(s, batch, now)
    requires CallSigns(first) == CallSigns(s) + NewKeys(CallSigns(s), batch)
    requires j < |s|
    ensures Refreshed(first, batch, now)[j] == first[j]
  {
    var keys := CallSigns(s);
    assert first[j] == Refreshed(s, batch, now)[j];
    assert first[j].callSign == keys[j] == s[j].callSign by {
      assert CallSigns(first)[j] == keys[j];
    }
    match LastRow(batch, first[j].callSign)
    case None =>
    case Some(row) =>
      if LastOfItsKey(first, j) {
        assert LastOfItsKey(s, j) by {
          forall i | j < i < |s| ensures s[i].callSign != s[j].callSign {
            assert CallSigns(first)[i] == keys[i];
          }
        }
        assert first[j] == Refresh(s[j], row, now);
      }
  }

  /** An appended record, refreshed from its own last row, is not changed by refreshing it again. */
  lemma AppendedRecordFixed(s: seq<Assignment>, batch: seq<Row>, now: Time, first: seq<Assignment>, j: nat)
    requires first == Refreshed(s, batch, now) + Appended(s, batch, now)
    requires CallSigns(first) == CallSigns(s) + NewKeys(CallSigns(s), batch)
    requires |s| <= j < |first|
    ensures Refreshed(first, batch, now)[j] == first[j]
  {
    var nk := NewKeys(CallSigns(s), batch);
    var p := j - |s|;
    var row := LastRow(batch, nk[p]).value;
    assert first[j] == Fresh(row, now) by {
      assert |Refreshed(s, batch, now)| == |s|;
      assert first[j] == Appended(s, batch, now)[p];
    }
    assert LastOfItsKey(first, j) by {
      var cs := CallSigns(first);
      assert LastAt(cs, j) by {
        NewKeyLast(CallSigns(s), nk, cs, p);
      }
      forall i | j < i < |first| ensures first[i].callSign != first[j].callSign {
        assert cs[i] != cs[j];
      }
    }
    assert LastRow(batch, first[j].callSign) == Some(row);
  }

  /** A new key, being distinct from the keys after it, is the last of its kind in the extended key list. */
  lemma NewKeyLast(keys: seq<string>, nk: seq<string>, cs: seq<string>, p: nat)
    requires cs == keys + nk && Distinct(nk) && p < |nk|
    ensures LastAt(cs, |keys| + p)
  {
    forall q | |keys| + p < q < |cs| ensures cs[q] != cs[|keys| + p] {
      assert cs[q] == nk[q - |keys|] && cs[|keys| + p] == nk[p];
    }
  }

}
