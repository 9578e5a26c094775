/** One sweep of the expiry index over a snapshot. */
module Sweep {
  import opened Common
  import opened Bytes
  import opened Keyspaces
  import opened Layout
  import opened Values
  import opened Time
  import opened StoreSpec

  /** A well-formed index key at or before the sweep's timestamp. */
  predicate DueKey(indexKey: Blob, nowTs: I64) {
    ParseExpiryIndexKey(indexKey).Some? && ParseExpiryIndexKey(indexKey).value.0 <= nowTs
  }

  function SweepFold(d: Disk, ks: seq<Blob>, nowTs: I64): Disk
    decreases |ks|
  {
    if ks == [] then d else SweepFold(SweepKey(d, ks[0], nowTs), ks[1..], nowTs)
  }

  /** The state a complete sweep should leave. */
  ghost function Swept(d: Disk, nowTs: I64): Disk {
    Disk(map k | k in d.data && !ExpiredBySecond(d.data[k], nowTs) :: d.data[k],
         set x | x in d.index && !DueKey(x, nowTs))
  }

  /** After a key beyond `nowTs` no due key follows, so stopping there loses nothing. */
  lemma NothingDueAfter(ks: seq<Blob>, i: nat, j: nat, nowTs: I64)
    requires StrictlyAscending(ks) && i <= j < |ks|
    requires ParseExpiryIndexKey(ks[i]).Some? && ParseExpiryIndexKey(ks[i]).value.0 > nowTs
    ensures !DueKey(ks[j], nowTs)
  {
    if i < j && DueKey(ks[j], nowTs) {
      var (t, k) := ParseExpiryIndexKey(ks[i]).value;
      var (u, l) := ParseExpiryIndexKey(ks[j]).value;
      ExpiryIndexKeyInverse(ks[i], t, k);
      ExpiryIndexKeyInverse(ks[j], u, l);
      ExpiryIndexKeyOrder(t, k, u, l);
    }
  }

  lemma {:induction false} FoldOfNothingDue(d: Disk, ks: seq<Blob>, nowTs: I64)
    requires forall i :: 0 <= i < |ks| ==> !DueKey(ks[i], nowTs)
    ensures SweepFold(d, ks, nowTs) == d
    decreases |ks|
  {
    if ks != [] {
      assert !DueKey(ks[0], nowTs);
      FoldOfNothingDue(d, ks[1..], nowTs);
    }
  }

  lemma FoldStep(d: Disk, ks: seq<Blob>, i: nat, nowTs: I64)
    requires i < |ks|
    ensures SweepFold(d, ks[i..], nowTs) == SweepFold(SweepKey(d, ks[i], nowTs), ks[i + 1..], nowTs)
  {
    assert ks[i..][1..] == ks[i + 1..];
  }

  lemma RestNotDue(d: Disk, ks: seq<Blob>, i: nat, nowTs: I64)
    requires StrictlyAscending(ks) && i < |ks|
    requires ParseExpiryIndexKey(ks[i]).Some? && ParseExpiryIndexKey(ks[i]).value.0 > nowTs
    ensures SweepFold(d, ks[i..], nowTs) == d
  {
    forall j | 0 <= j < |ks[i..]| ensures !DueKey(ks[i..][j], nowTs) { NothingDueAfter(ks, i, i + j, nowTs); }
    FoldOfNothingDue(d, ks[i..], nowTs);
  }

  /** Over any list of index keys, stale or repeated, an entry goes exactly when its own index key is listed and due. */
  lemma {:induction false} SweepFoldData(d: Disk, ks: seq<Blob>, nowTs: I64, k: Blob)
    requires [] !in d.data
    ensures Lookup(SweepFold(d, ks, nowTs).data, k)
            == (if k in d.data && ExpiredBySecond(d.data[k], nowTs)
                   && ExpiryIndexKey(d.data[k].expires.value, k) in ks
                then None else Lookup(d.data, k))
    decreases |ks|
  {
    if ks != [] {
      var d' := SweepKey(d, ks[0], nowTs);
      SweepFoldData(d', ks[1..], nowTs, k);
      if k in d.data && d.data[k].expires.Some? {
        ExpiryIndexKeyInverse(ks[0], d.data[k].expires.value, k);
      }
    }
  }

  lemma {:induction false} SweepFoldIndex(d: Disk, ks: seq<Blob>, nowTs: I64, x: Blob)
    ensures x in SweepFold(d, ks, nowTs).index <==> x in d.index && !(x in ks && DueKey(x, nowTs))
    decreases |ks|
  {
    if ks != [] { SweepFoldIndex(SweepKey(d, ks[0], nowTs), ks[1..], nowTs, x); }
  }

  /**
    * An uninterrupted sweep is complete and exact: every expired entry goes, every due index key
    * goes however many stale ones there are, nothing else changes, and the index stays complete.
    */
  lemma SweepExact(d: Disk, nowTs: I64)
    requires Indexed(d)
    ensures SweepFold(d, Sorted(d.index), nowTs) == Swept(d, nowTs)
    ensures Indexed(Swept(d, nowTs))
  {
    var ks := Sorted(d.index);
    var r, s := SweepFold(d, ks, nowTs), Swept(d, nowTs);
    forall k ensures Lookup(r.data, k) == Lookup(s.data, k) { SweepFoldData(d, ks, nowTs, k); }
    assert forall k :: k in r.data <==> Lookup(r.data, k).Some?;
    assert forall k :: k in s.data <==> Lookup(s.data, k).Some?;
    assert r.data == s.data;
    forall x ensures x in r.index <==> x in s.index { SweepFoldIndex(d, ks, nowTs, x); }
    forall k | k in s.data && s.data[k].expires.Some? ensures ExpiryIndexKey(s.data[k].expires.value, k) in s.index {
      var t := s.data[k].expires.value;
      ExpiryIndexKeyInverse(ExpiryIndexKey(t, k), t, k);
    }
  }

  // ---- reading back ------------------------------------------------------------------------------

  /** What a get of `k` at instant `u` finds: what a complete sweep at that second would leave. */
  ghost function Found(d: Disk, k: Blob, u: Instant): Option<Entry> { Lookup(Swept(d, UnixSeconds(u)).data, k) }

  /** Gets of `k` find `value` at every instant whose second is before that of `expiresAt`, and nothing from then on. */
  ghost predicate ReadsBack(d: Disk, k: Blob, value: StoredValue, expiresAt: Option<Instant>) {
    forall u: Instant ::
      if expiresAt.Some? && UnixSeconds(expiresAt.value) <= UnixSeconds(u) then Found(d, k, u).None?
      else Found(d, k, u).Some? && Found(d, k, u).value.value == value
  }

  lemma PutReadsBack(d: Disk, k: Blob, value: StoredValue, expiresAt: Option<Instant>)
    ensures ReadsBack(Put(d, k, EntryOf(value, expiresAt)), k, value, expiresAt)
  {
  }

  /** Operation `i` is the last of the batch on its key. */
  ghost predicate LastOf(ops: seq<TxnOp>, i: nat) {
    i < |ops| && forall j :: i < j < |ops| ==> ops[j].key != ops[i].key
  }

  /** After a batch each key reads back what the last operation on it asked for. */
  lemma BatchReadsBack(d: Disk, bucket: Blob, ops: seq<TxnOp>, i: nat)
    requires LastOf(ops, i)
    ensures var d', k := ApplyWrites(d, WritesOf(bucket, ops)), StorageKey(bucket, ops[i].key);
            if ops[i].TxnSet? then ReadsBack(d', k, ops[i].value, ops[i].expiresAt) else k !in d'.data
  {
    var ws := WritesOf(bucket, ops);
    forall j | i < j < |ws| ensures ws[j].key != ws[i].key {
      if ws[j].key == ws[i].key {
        UserKeyUnique(bucket, ops[i].key, ops[j].key);
      }
    }
    LastWriteWins(d, ws, i);
    var d' := ApplyWrites(d, ws);
    assert Lookup(d'.data, ws[i].key) == (if ops[i].TxnSet? then Some(EntryOf(ops[i].value, ops[i].expiresAt)) else None);
  }

  /** From `d` to `d'` every key has what the last operation on it asked for, and no other key has changed. */
  ghost predicate BatchTook(d: Disk, d': Disk, bucket: Blob, ops: seq<TxnOp>) {
    && (forall i :: 0 <= i < |ops| && LastOf(ops, i) ==>
          var k := StorageKey(bucket, ops[i].key);
          if ops[i].TxnSet? then ReadsBack(d', k, ops[i].value, ops[i].expiresAt) else k !in d'.data)
    && (forall x :: (forall i :: 0 <= i < |ops| ==> x != StorageKey(bucket, ops[i].key)) ==> Lookup(d'.data, x) == Lookup(d.data, x))
  }

  lemma WritesTook(d: Disk, bucket: Blob, ops: seq<TxnOp>)
    ensures BatchTook(d, ApplyWrites(d, WritesOf(bucket, ops)), bucket, ops)
  {
    var d' := ApplyWrites(d, WritesOf(bucket, ops));
    forall i | 0 <= i < |ops| && LastOf(ops, i)
      ensures var k := StorageKey(bucket, ops[i].key);
              if ops[i].TxnSet? then ReadsBack(d', k, ops[i].value, ops[i].expiresAt) else k !in d'.data
    {
      BatchReadsBack(d, bucket, ops, i);
    }
    forall x | forall i :: 0 <= i < |ops| ==> x != StorageKey(bucket, ops[i].key) ensures Lookup(d'.data, x) == Lookup(d.data, x) {
      BatchLeavesOthers(d, bucket, ops, x);
    }
  }

  lemma UserKeyUnique(bucket: Blob, key: Blob, other: Blob)
    requires StorageKey(bucket, key) == StorageKey(bucket, other)
    ensures key == other
  {
    assert StorageKey(bucket, key)[|bucket| + 1..] == key && StorageKey(bucket, other)[|bucket| + 1..] == other;
  }

  lemma BatchLeavesOthers(d: Disk, bucket: Blob, ops: seq<TxnOp>, x: Blob)
    requires forall i :: 0 <= i < |ops| ==> x != StorageKey(bucket, ops[i].key)
    ensures Lookup(ApplyWrites(d, WritesOf(bucket, ops)).data, x) == Lookup(d.data, x)
  {
    var ws := WritesOf(bucket, ops);
    assert x !in WriteKeys(ws) by {
      forall i | 0 <= i < |ws| ensures ws[i].key != x { assert ws[i] == WriteOf(bucket, ops[i]); }
    }
    ApplyWritesFrame(d, ws, x);
  }
}
