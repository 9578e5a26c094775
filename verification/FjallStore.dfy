/** The storage adapter: methods over the `data` and `expiry` keyspaces. */
module FjallStores {
  import opened Common
  import opened Bytes
  import opened Keyspaces
  import opened Layout
  import opened Values
  import opened Counter
  import opened Time
  import opened StoreSpec
  import opened Listing
  import opened Sweep
  import opened Runs

  datatype BatchItem = SetItem(storageKey: Blob, entry: Entry, idx: Option<Blob>) | DeleteItem(storageKey: Blob)

  /** A write queued in an engine batch. */
  datatype EngineWrite = InsertData(key: Blob, entry: Entry) | InsertIndex(indexKey: Blob) | RemoveData(key: Blob)

  /** Atomic commit: queued writes take effect in order. */
  function Commit(d: Disk, batch: seq<EngineWrite>): Disk
    decreases |batch|
  {
    if batch == [] then d
    else
      var before := Commit(d, batch[..|batch| - 1]);
      match batch[|batch| - 1]
      case InsertData(k, e) => before.(data := before.data[k := e])
      case InsertIndex(x) => before.(index := before.index + {x})
      case RemoveData(k) => before.(data := before.data - {k})
  }

  lemma CommitSnoc(d: Disk, batch: seq<EngineWrite>, w: EngineWrite)
    ensures Commit(d, batch + [w]) ==
            match w
            case InsertData(k, e) => Commit(d, batch).(data := Commit(d, batch).data[k := e])
            case InsertIndex(x) => Commit(d, batch).(index := Commit(d, batch).index + {x})
            case RemoveData(k) => Commit(d, batch).(data := Commit(d, batch).data - {k})
  {
    assert (batch + [w])[..|batch|] == batch;
  }

  /** An item is the write of its operation, with the index key already printed. */
  function ItemOf(w: Write): BatchItem {
    match w
    case PutWrite(k, e) =>
      SetItem(k, e, if e.expires.Some? then Some(ExpiryIndexKey(e.expires.value, k)) else None)
    case RemoveWrite(k) => DeleteItem(k)
  }

  /** The whole second an entry keeps of its expiry instant. */
  function SecondsOf(expiresAt: Option<Instant>): Option<I64> {
    if expiresAt.Some? then Some(UnixSeconds(expiresAt.value)) else None
  }

  ghost predicate Plan(data: map<Blob, Entry>, bucket: Blob, opts: ListOpts, ks: seq<Blob>, rests: seq<seq<ListEntry>>) {
    && |rests| == |ks| + 1 && rests[|ks|] == []
    && forall i :: 0 <= i < |ks| ==> PlanStep(data, bucket, opts, ks, rests, i)
  }

  /** The forward scan skips, collects and stops; it returns exactly the requested page. */
  method ForwardScan(data: map<Blob, Entry>, bucket: Blob, opts: ListOpts, scan: seq<Blob>, ghost rests: seq<seq<ListEntry>>)
    returns (out: seq<ListEntry>)
    requires Plan(data, bucket, opts, scan, rests)
    ensures out == Page(rests[0], opts.skip, opts.limit)
  {
    ghost var rows, met := rests[0], 0;
    var skipRemaining, taken, i := opts.skip, 0, 0;
    out := [];
    while i < |scan| && taken < opts.limit
      invariant i <= |scan| && met <= |rows| && rests[i] == rows[met..]
      invariant skipRemaining == (if met < opts.skip then opts.skip - met else 0)
      invariant taken == (if met < opts.skip then 0 else met - opts.skip) <= opts.limit
      invariant out == (if met < opts.skip then [] else rows[opts.skip..met])
    {
      assert PlanStep(data, bucket, opts, scan, rests, i);
      var row := ScanRow(data, bucket, opts, scan[i]);
      i := i + 1;
      if row.None? { continue; }
      assert row.value == rows[met] && rests[i] == rows[met + 1..];
      met := met + 1;
      if skipRemaining > 0 { skipRemaining := skipRemaining - 1; continue; }
      out := out + [row.value];
      taken := taken + 1;
    }
  }

  /** Pops from the front until at most `window` rows are left. */
  method TrimFront(deque: seq<ListEntry>, window: nat) returns (kept: seq<ListEntry>)
    ensures kept == LastN(deque, window)
  {
    var from := 0;
    kept := deque;
    while |kept| > window
      invariant from <= |deque| && kept == deque[from..]
      invariant from == 0 || |kept| >= window
    {
      kept, from := kept[1..], from + 1;
    }
  }

  lemma LastNPush<T>(s: seq<T>, x: T, n: nat)
    ensures LastN(LastN(s, n) + [x], n) == LastN(s + [x], n)
  {
  }

  /** The reverse scan keeps a bounded window of the last matches and reads it backwards. */
  method ReverseScan(data: map<Blob, Entry>, bucket: Blob, opts: ListOpts, scan: seq<Blob>, ghost rests: seq<seq<ListEntry>>)
    returns (out: seq<ListEntry>)
    requires Plan(data, bucket, opts, scan, rests) && |rests[0]| <= USIZE_MAX
    ensures out == Page(Reversed(rests[0]), opts.skip, opts.limit)
  {
    var window := SaturatingAdd(opts.skip, opts.limit);
    ghost var rows, met := rests[0], 0;
    var deque: seq<ListEntry> := [];
    for i := 0 to |scan|
      invariant met <= |rows| && rests[i] == rows[met..]
      invariant deque == LastN(rows[..met], window)
    {
      assert PlanStep(data, bucket, opts, scan, rests, i);
      var row := ScanRow(data, bucket, opts, scan[i]);
      if row.None? { continue; }
      assert row.value == rows[met] && rests[i + 1] == rows[met + 1..];
      assert rows[..met + 1] == rows[..met] + [row.value];
      LastNPush(rows[..met], row.value, window);
      met := met + 1;
      deque := TrimFront(deque + [row.value], window);
    }
    assert rows[..met] == rows;
    WindowSuffices(rows, opts.skip, opts.limit);
    out := Page(Reversed(deque), opts.skip, opts.limit);
  }

  class FjallStore {
    var data: map<Blob, Entry>
    var expiry: set<Blob>

    ghost function View(): Disk
      reads this
    {
      Disk(data, expiry)
    }

    ghost predicate Valid()
      reads this
    {
      Indexed(View())
    }

    constructor ()
      ensures Valid() && View() == Disk(map[], {})
    {
      data, expiry := map[], {};
    }

    method Get(bucket: Blob, key: Blob) returns (entry: Option<Entry>)
      ensures entry == Lookup(data, StorageKey(bucket, key))
    {
      var k := StorageKey(bucket, key);
      if k in data { entry := Some(data[k]); } else { entry := None; }
    }

    /** `KeyService::get`: a read at `now` answers as if a complete sweep at that second had just run. */
    method Read(bucket: Blob, key: Blob, now: Instant) returns (entry: Option<Entry>)
      ensures entry == Found(View(), StorageKey(bucket, key), now)
      ensures forall m :: OutcomeOf(m, View(), GetEvent(StorageKey(bucket, key), now)) == Got(entry)
    {
      entry := Get(bucket, key);
      if entry.Some? {
        ExpiryTestsAgree(entry.value, now);
        if entry.value.expires.Some? && entry.value.expires.value * NANOS <= now { entry := None; }
      }
    }

    method Set(bucket: Blob, key: Blob, value: StoredValue, expiresAt: Option<Instant>)
      requires Valid()
      modifies this
      ensures Valid()
      ensures View() == Put(old(View()), StorageKey(bucket, key), EntryOf(value, expiresAt))
      ensures ReadsBack(View(), StorageKey(bucket, key), value, expiresAt)
      ensures forall x :: x != StorageKey(bucket, key) ==> Lookup(data, x) == Lookup(old(data), x)
      ensures forall m :: View() == Effect(m, old(View()), SetEvent(StorageKey(bucket, key), Entry(value, SecondsOf(expiresAt))))
    {
      var k := StorageKey(bucket, key);
      var e := EntryOf(value, expiresAt);
      PutKeepsIndexed(View(), k, e);
      PutReadsBack(View(), k, value, expiresAt);
      if expiresAt.Some? {
        var idx := ExpiryIndexKey(UnixSeconds(expiresAt.value), k);
        data, expiry := data[k := e], expiry + {idx};
      } else {
        data := data[k := e];
      }
    }

    method Delete(bucket: Blob, key: Blob) returns (existed: bool)
      requires Valid()
      modifies this
      ensures Valid()
      ensures View() == Remove(old(View()), StorageKey(bucket, key))
      ensures existed <==> StorageKey(bucket, key) in old(data)
      ensures forall u :: Found(View(), StorageKey(bucket, key), u).None?
      ensures forall x :: x != StorageKey(bucket, key) ==> Lookup(data, x) == Lookup(old(data), x)
      ensures forall m :: View() == Effect(m, old(View()), DeleteEvent(StorageKey(bucket, key)))
      ensures forall m :: OutcomeOf(m, old(View()), DeleteEvent(StorageKey(bucket, key))) == Deleted(existed)
    {
      var k := StorageKey(bucket, key);
      existed := k in data;
      if existed { data := data - {k}; }
    }

    /** Read, merge and write back; `now` is the clock read under the lock. */
    method Increment(h: Host, bucket: Blob, key: Blob, op: CounterOp, expiresAt: Option<Instant>, now: Instant)
      returns (r: Result<StoredValue, DomainError>)
      requires Valid()
      modifies this
      ensures Valid()
      ensures r == CounterResult(MergerOf(h), Lookup(old(data), StorageKey(bucket, key)), op, now)
      ensures r.Ok? ==> ReadsBack(View(), StorageKey(bucket, key), r.value, expiresAt)
      ensures r.Err? ==> View() == old(View())
      ensures forall x :: x != StorageKey(bucket, key) ==> Lookup(data, x) == Lookup(old(data), x)
      ensures var e := IncrementEvent(StorageKey(bucket, key), op, SecondsOf(expiresAt), now);
              View() == Effect(MergerOf(h), old(View()), e) && OutcomeOf(MergerOf(h), old(View()), e) == Counted(r)
    {
      var k := StorageKey(bucket, key);
      var current := IntValue(0);
      if k in data {
        var entry := data[k];
        if !(entry.expires.Some? && entry.expires.value * NANOS <= now) {
          var c := FromStored(h, entry.value);
          if c.Err? { return Err(c.error); }
          current := c.value;
        }
      }
      var merged := Apply(h, op, current);
      if merged.Err? { return Err(merged.error); }
      var stored := IntoStored(h, merged.value);
      if stored.Err? { return Err(stored.error); }
      var e := EntryOf(stored.value, expiresAt);
      PutKeepsIndexed(View(), k, e);
      PutReadsBack(View(), k, stored.value, expiresAt);
      if expiresAt.Some? {
        data, expiry := data[k := e], expiry + {ExpiryIndexKey(UnixSeconds(expiresAt.value), k)};
      } else {
        data := data[k := e];
      }
      r := Ok(stored.value);
    }

    /** One commit has the effect of the operations one after the other, repeated keys included. */
    method ApplyBatch(bucket: Blob, ops: seq<TxnOp>)
      requires Valid()
      modifies this
      ensures Valid()
      ensures View() == ApplyWrites(old(View()), WritesOf(bucket, ops))
      ensures BatchTook(old(View()), View(), bucket, ops)
      ensures forall m :: View() == Effect(m, old(View()), BatchEvent(WritesOf(bucket, ops)))
    {
      if ops == [] {
        WritesTook(View(), bucket, ops);
        return;
      }
      ghost var ws := WritesOf(bucket, ops);
      var items: seq<BatchItem> := [];
      for i := 0 to |ops|
        invariant |items| == i
        invariant forall j :: 0 <= j < i ==> items[j] == ItemOf(ws[j])
      {
        match ops[i] {
          case TxnSet(key, value, expiresAt) =>
            var storageKey := StorageKey(bucket, key);
            var idx := if expiresAt.Some? then Some(ExpiryIndexKey(UnixSeconds(expiresAt.value), storageKey)) else None;
            items := items + [SetItem(storageKey, EntryOf(value, expiresAt), idx)];
          case TxnDelete(key) =>
            items := items + [DeleteItem(StorageKey(bucket, key))];
        }
      }
      var batch: seq<EngineWrite> := [];
      for i := 0 to |items|
        invariant Commit(View(), batch) == ApplyWrites(View(), ws[..i])
        invariant View() == old(View())
      {
        assert ws[..i + 1] == ws[..i] + [ws[i]];
        ApplyWritesSnoc(View(), ws[..i], ws[i]);
        match items[i] {
          case SetItem(storageKey, entry, idx) =>
            CommitSnoc(View(), batch, InsertData(storageKey, entry));
            batch := batch + [InsertData(storageKey, entry)];
            if idx.Some? {
              CommitSnoc(View(), batch, InsertIndex(idx.value));
              batch := batch + [InsertIndex(idx.value)];
            }
          case DeleteItem(storageKey) =>
            CommitSnoc(View(), batch, RemoveData(storageKey));
            batch := batch + [RemoveData(storageKey)];
        }
      }
      assert ws[..|items|] == ws;
      ApplyWritesKeepsIndexed(View(), ws);
      WritesTook(View(), bucket, ops);
      var after := Commit(Disk(data, expiry), batch);
      data, expiry := after.data, after.index;
    }

    /** `list_inner`: whatever the order and the shape, the result is the page of the ordered, filtered rows. */
    method List(bucket: Blob, opts: ListOpts) returns (out: seq<ListEntry>)
      requires |data| <= USIZE_MAX
      ensures out == ListSpec(data, bucket, opts)
      ensures forall m :: OutcomeOf(m, View(), ListEvent(bucket, opts)) == Listed(out)
    {
      var scan := Scan(data, DataKeyPrefix(bucket, opts.prefix));
      ghost var rests := ScanYieldsAllRows(data, bucket, opts);
      RowsFit(data, bucket, opts);
      if opts.limit == 0 {
        out := [];
      } else if opts.reverse {
        out := ReverseScan(data, bucket, opts, scan, rests);
      } else {
        out := ForwardScan(data, bucket, opts, scan, rests);
      }
    }

    /** Drops one due index key, then removes the entry it was written for unless that entry has changed. */
    method SweepIndexKey(expiryKey: Blob, expiresUnix: I64, storageKey: Blob, nowTs: I64) returns (removed: bool)
      requires ParseExpiryIndexKey(expiryKey) == Some((expiresUnix, storageKey)) && expiresUnix <= nowTs
      modifies this
      ensures View() == SweepKey(old(View()), expiryKey, nowTs)
      ensures forall m :: View() == Effect(m, old(View()), SweepEvent(expiryKey, nowTs))
      ensures removed <==> Due(Lookup(old(data), storageKey), expiresUnix, nowTs)
      ensures |data| + (if removed then 1 else 0) == |old(data)|
    {
      expiry := expiry - {expiryKey};
      if storageKey !in data { return false; }
      var actual := data[storageKey].expires;
      if actual.None? || actual.value > nowTs || actual.value != expiresUnix { return false; }
      assert (data - {storageKey}).Keys == data.Keys - {storageKey};
      data := data - {storageKey};
      removed := true;
    }

    /**
      * `sweep_keyspace` with the store to itself: scan the index in order, treat each due key, stop
      * at the first later one. Every expired entry and every due index key is gone afterwards.
      */
    method SweepOnce(nowTs: I64) returns (keysRemoved: nat)
      requires Valid()
      modifies this
      ensures Valid()
      ensures View() == Swept(old(View()), nowTs)
      ensures keysRemoved == |old(data)| - |data|
    {
      keysRemoved := 0;
      var ks := Sorted(expiry);
      ghost var goal := SweepFold(View(), ks, nowTs);
      SortedAscends(expiry);
      SweepExact(View(), nowTs);
      var i := 0;
      assert ks[0..] == ks;
      while i < |ks|
        invariant i <= |ks|
        invariant SweepFold(View(), ks[i..], nowTs) == goal
        invariant keysRemoved + |data| == |old(data)|
      {
        var expiryKey := ks[i];
        FoldStep(View(), ks, i, nowTs);
        var parsed := ParseExpiryIndexKey(expiryKey);
        if parsed.None? { i := i + 1; continue; }
        var (expiresUnix, storageKey) := parsed.value;
        if expiresUnix > nowTs {
          RestNotDue(View(), ks, i, nowTs);
          break;
        }
        i := i + 1;
        var removed := SweepIndexKey(expiryKey, expiresUnix, storageKey, nowTs);
        if removed { keysRemoved := keysRemoved + 1; }
      }
    }
  }
}
