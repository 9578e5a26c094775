/** Instants as nanoseconds since the Unix epoch, and TTL resolution. */
module Time {
  import opened Common
  import opened Values

  const NANOS: int := 1_000_000_000
  const MIN_UNIX: int := -377_705_116_800
  const MAX_UNIX: int := 253_402_300_799

  type Instant = x: int | MIN_UNIX * NANOS <= x < (MAX_UNIX + 1) * NANOS witness 0

  /** `unix_timestamp`: whole seconds, rounded down. */
  function UnixSeconds(t: Instant): I64 { t / NANOS }

  function CheckedAddSeconds(t: Instant, secs: I64): Option<Instant> {
    var u := t + secs * NANOS;
    if MIN_UNIX * NANOS <= u < (MAX_UNIX + 1) * NANOS then Some(u) else None
  }

  function ResolveTtl(now: Instant, ttlOverride: Option<U64>, defaultTtl: Option<U64>): Result<Option<Instant>, DomainError> {
    var effective := if ttlOverride.Some? then ttlOverride else defaultTtl;
    if effective.None? || effective.value == 0 then Ok(None)
    else if !FitsI64(effective.value) then Err(InvalidTtl)
    else
      match CheckedAddSeconds(now, effective.value)
      case None => Err(InvalidTtl)
      case Some(at) => Ok(Some(at))
  }
}

/** The two keyspaces as one value, and each repository operation as a function on it. */
module StoreSpec {
  import opened Common
  import opened Bytes
  import opened Layout
  import opened Values
  import opened Counter
  import opened Time

  datatype Entry = Entry(value: StoredValue, expires: Option<I64>)

  datatype Disk = Disk(data: map<Blob, Entry>, index: set<Blob>)

  /** What `encode_entry` keeps of a value and its expiry instant. */
  function EntryOf(value: StoredValue, expiresAt: Option<Instant>): Entry {
    Entry(value, if expiresAt.Some? then Some(UnixSeconds(expiresAt.value)) else None)
  }

  /** Instant-granular test of `get`, `increment` and listing with values. */
  predicate ExpiredAt(e: Entry, now: Instant) { e.expires.Some? && e.expires.value * NANOS <= now }

  /** Second-granular test of the keys-only listing and the sweeper. */
  predicate ExpiredBySecond(e: Entry, nowTs: int) { e.expires.Some? && e.expires.value <= nowTs }

  lemma ExpiryTestsAgree(e: Entry, now: Instant)
    ensures ExpiredAt(e, now) <==> ExpiredBySecond(e, UnixSeconds(now))
  {
  }

  function Lookup(data: map<Blob, Entry>, k: Blob): Option<Entry> { if k in data then Some(data[k]) else None }

  function IndexKeysOf(k: Blob, e: Entry): set<Blob> {
    if e.expires.Some? then {ExpiryIndexKey(e.expires.value, k)} else {}
  }

  function Put(d: Disk, k: Blob, e: Entry): Disk { Disk(d.data[k := e], d.index + IndexKeysOf(k, e)) }

  function Remove(d: Disk, k: Blob): Disk { d.(data := d.data - {k}) }

  /** `KeyService::get`: an expired entry reads as missing. */
  function LiveEntry(cell: Option<Entry>, now: Instant): Option<Entry> {
    if cell.Some? && !ExpiredAt(cell.value, now) then cell else None
  }

  function CounterResult(m: Merger, cell: Option<Entry>, op: CounterOp, now: Instant): Result<StoredValue, DomainError> {
    var live := LiveEntry(cell, now);
    m(op, if live.Some? then Some(live.value.value) else None)
  }

  function Increment(m: Merger, d: Disk, k: Blob, op: CounterOp, expires: Option<I64>, now: Instant): Disk {
    var r := CounterResult(m, Lookup(d.data, k), op, now);
    if r.Ok? then Put(d, k, Entry(r.value, expires)) else d
  }

  datatype Write = PutWrite(key: Blob, entry: Entry) | RemoveWrite(key: Blob)

  function ApplyWrite(d: Disk, w: Write): Disk {
    match w
    case PutWrite(k, e) => Put(d, k, e)
    case RemoveWrite(k) => Remove(d, k)
  }

  /** Writes one after the other. */
  function ApplyWrites(d: Disk, ws: seq<Write>): Disk
    decreases |ws|
  {
    if ws == [] then d else ApplyWrites(ApplyWrite(d, ws[0]), ws[1..])
  }

  lemma {:induction false} ApplyWritesSnoc(d: Disk, ws: seq<Write>, w: Write)
    ensures ApplyWrites(d, ws + [w]) == ApplyWrite(ApplyWrites(d, ws), w)
    decreases |ws|
  {
    if ws == [] {
      assert [w][1..] == [];
    } else {
      assert (ws + [w])[1..] == ws[1..] + [w];
      ApplyWritesSnoc(ApplyWrite(d, ws[0]), ws[1..], w);
    }
  }

  datatype TxnOp = TxnSet(key: Blob, value: StoredValue, expiresAt: Option<Instant>) | TxnDelete(key: Blob)

  function WriteOf(bucket: Blob, op: TxnOp): Write {
    match op
    case TxnSet(key, value, expiresAt) => PutWrite(StorageKey(bucket, key), EntryOf(value, expiresAt))
    case TxnDelete(key) => RemoveWrite(StorageKey(bucket, key))
  }

  function WritesOf(bucket: Blob, ops: seq<TxnOp>): (ws: seq<Write>)
    ensures |ws| == |ops| && forall i :: 0 <= i < |ops| ==> ws[i] == WriteOf(bucket, ops[i])
  {
    seq(|ops|, i requires 0 <= i < |ops| => WriteOf(bucket, ops[i]))
  }

  function WriteKeys(ws: seq<Write>): set<Blob> { set i | 0 <= i < |ws| :: ws[i].key }

  /** The data entry under `k` is the one index key (t, k) was written for, and it is due. */
  predicate Due(cell: Option<Entry>, t: I64, nowTs: I64) {
    cell.Some? && cell.value.expires.Some? && cell.value.expires.value <= nowTs && cell.value.expires.value == t
  }

  /** The sweeper's whole treatment of one index key. */
  function SweepKey(d: Disk, indexKey: Blob, nowTs: I64): Disk {
    match ParseExpiryIndexKey(indexKey)
    case None => d
    case Some((t, k)) =>
      if t > nowTs then d
      else Disk(if Due(Lookup(d.data, k), t, nowTs) then d.data - {k} else d.data, d.index - {indexKey})
  }

  /** Every entry that expires can be reached from the index. */
  ghost predicate Indexed(d: Disk) {
    && [] !in d.data
    && forall k :: k in d.data && d.data[k].expires.Some? ==> ExpiryIndexKey(d.data[k].expires.value, k) in d.index
  }

  // ---- invariant and frame of the operations --------------------------------------------

  lemma PutKeepsIndexed(d: Disk, k: Blob, e: Entry)
    requires Indexed(d) && k != []
    ensures Indexed(Put(d, k, e))
  {
  }

  lemma {:induction false} ApplyWritesKeepsIndexed(d: Disk, ws: seq<Write>)
    requires Indexed(d) && [] !in WriteKeys(ws)
    ensures Indexed(ApplyWrites(d, ws))
    decreases |ws|
  {
    if ws != [] {
      assert ws[0].key in WriteKeys(ws);
      assert WriteKeys(ws[1..]) <= WriteKeys(ws) by {
        forall i | 0 <= i < |ws| - 1 ensures ws[1..][i].key in WriteKeys(ws) { assert ws[1..][i] == ws[i + 1]; }
      }
      ApplyWritesKeepsIndexed(ApplyWrite(d, ws[0]), ws[1..]);
    }
  }

  /** A sweep step never strands an entry: an index key goes only with the data it points to, or when it is stale. */
  lemma SweepKeyKeepsIndexed(d: Disk, indexKey: Blob, nowTs: I64)
    requires Indexed(d)
    ensures Indexed(SweepKey(d, indexKey, nowTs))
  {
    var d' := SweepKey(d, indexKey, nowTs);
    forall k | k in d'.data && d'.data[k].expires.Some?
      ensures ExpiryIndexKey(d'.data[k].expires.value, k) in d'.index
    {
      var t := d'.data[k].expires.value;
      ExpiryIndexKeyInverse(indexKey, t, k);
    }
  }

  /** Keys a batch does not name keep their entries; new index keys belong to named keys. */
  lemma {:induction false} ApplyWritesFrame(d: Disk, ws: seq<Write>, k: Blob)
    ensures k !in WriteKeys(ws) ==> Lookup(ApplyWrites(d, ws).data, k) == Lookup(d.data, k)
    decreases |ws|
  {
    if ws != [] {
      assert ws[0].key in WriteKeys(ws);
      if k !in WriteKeys(ws) {
        forall i | 0 <= i < |ws[1..]| ensures ws[1..][i].key != k { assert ws[i + 1].key in WriteKeys(ws); }
      }
      ApplyWritesFrame(ApplyWrite(d, ws[0]), ws[1..], k);
    }
  }

  /** Of several operations on one key, the last decides. */
  lemma {:induction false} LastWriteWins(d: Disk, ws: seq<Write>, i: nat)
    requires i < |ws| && forall j :: i < j < |ws| ==> ws[j].key != ws[i].key
    ensures Lookup(ApplyWrites(d, ws).data, ws[i].key) == (if ws[i].PutWrite? then Some(ws[i].entry) else None)
    decreases |ws|
  {
    if i > 0 {
      LastWriteWins(ApplyWrite(d, ws[0]), ws[1..], i - 1);
    } else {
      assert ws[0].key !in WriteKeys(ws[1..]) by {
        forall j | 0 <= j < |ws[1..]| ensures ws[1..][j].key != ws[0].key { assert ws[1..][j] == ws[j + 1]; }
      }
      ApplyWritesFrame(ApplyWrite(d, ws[0]), ws[1..], ws[0].key);
    }
  }

  lemma {:induction false} LastOn(ws: seq<Write>, k: Blob) returns (i: nat)
    requires k in WriteKeys(ws)
    ensures i < |ws| && ws[i].key == k && forall j :: i < j < |ws| ==> ws[j].key != k
    decreases |ws|
  {
    var n := |ws| - 1;
    if ws[n].key == k { return n; }
    var x :| 0 <= x < |ws| && ws[x].key == k;
    assert ws[..n][x].key == k;
    i := LastOn(ws[..n], k);
    forall j | i < j < |ws| ensures ws[j].key != k { if j < n { assert ws[..n][j] == ws[j]; } }
  }

  /** Index keys a batch adds. */
  function NewIndexKeys(ws: seq<Write>): set<Blob>
    decreases |ws|
  {
    if ws == [] then {}
    else (if ws[0].PutWrite? then IndexKeysOf(ws[0].key, ws[0].entry) else {}) + NewIndexKeys(ws[1..])
  }

  lemma {:induction false} ApplyWritesIndex(d: Disk, ws: seq<Write>)
    ensures ApplyWrites(d, ws).index == d.index + NewIndexKeys(ws)
    decreases |ws|
  {
    if ws != [] { ApplyWritesIndex(ApplyWrite(d, ws[0]), ws[1..]); }
  }

  lemma {:induction false} NewIndexKeysBelong(ws: seq<Write>, indexKey: Blob, t: I64, k: Blob)
    requires indexKey in NewIndexKeys(ws) && ParseExpiryIndexKey(indexKey) == Some((t, k))
    ensures k in WriteKeys(ws)
    decreases |ws|
  {
    if indexKey in NewIndexKeys(ws[1..]) {
      NewIndexKeysBelong(ws[1..], indexKey, t, k);
      var i :| 0 <= i < |ws[1..]| && ws[1..][i].key == k;
      assert ws[i + 1].key == k;
    } else {
      ExpiryIndexKeyInverse(indexKey, t, k);
      ExpiryIndexKeyInjective(t, k, ws[0].entry.expires.value, ws[0].key);
    }
  }

  /** A batch acts on the data alone in the same way whatever the index holds. */
  lemma {:induction false} ApplyWritesData(d: Disk, d2: Disk, ws: seq<Write>)
    requires d.data == d2.data
    ensures ApplyWrites(d, ws).data == ApplyWrites(d2, ws).data
    decreases |ws|
  {
    if ws != [] { ApplyWritesData(ApplyWrite(d, ws[0]), ApplyWrite(d2, ws[0]), ws[1..]); }
  }

  // ---- lifetime -----------------------------------------------------------------------

  /**
    * A write with TTL `s >= 1` at instant `w` is readable while fewer than `s` whole seconds have
    * gone by since the second of `w`: through w+s-1 seconds, and never from w+s seconds on.
    */
  lemma TtlBounds(w: Instant, ttl: Option<U64>, defaultTtl: Option<U64>, value: StoredValue, u: Instant)
    requires ResolveTtl(w, ttl, defaultTtl).Ok? && ResolveTtl(w, ttl, defaultTtl).value.Some?
    ensures var s := if ttl.Some? then ttl.value else defaultTtl.value;
            var e := EntryOf(value, ResolveTtl(w, ttl, defaultTtl).value);
            var seen := LiveEntry(Some(e), u);
            && s >= 1
            && (seen.Some? <==> UnixSeconds(u) < UnixSeconds(w) + s)
            && (seen.Some? ==> seen.value.value == value)
            && (u <= w + (s - 1) * NANOS ==> seen.Some?)
            && (u >= w + s * NANOS ==> seen.None?)
  {
    var s := if ttl.Some? then ttl.value else defaultTtl.value;
    assert (w + s * NANOS) / NANOS == w / NANOS + s;
    ExpiryTestsAgree(EntryOf(value, ResolveTtl(w, ttl, defaultTtl).value), u);
  }

  /** When a TTL is refused or means "never". */
  lemma TtlOutcome(w: Instant, ttl: Option<U64>, defaultTtl: Option<U64>)
    ensures var r := ResolveTtl(w, ttl, defaultTtl);
            var s := if ttl.Some? then ttl.value else if defaultTtl.Some? then defaultTtl.value else 0;
            && (r == Ok(None) <==> s == 0)
            && (r.Err? <==> UnixSeconds(w) + s > MAX_UNIX)
  {
    var s := if ttl.Some? then ttl.value else if defaultTtl.Some? then defaultTtl.value else 0;
    assert (w + s * NANOS) / NANOS == w / NANOS + s;
  }
}
