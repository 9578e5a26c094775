/** Serial runs of repository operations, with sweep steps as events of their own. */
module Runs {
  import opened Common
  import opened Bytes
  import opened Layout
  import opened Values
  import opened Counter
  import opened Time
  import opened StoreSpec
  import opened Listing

  datatype Event =
    | SetEvent(key: Blob, entry: Entry)
    | DeleteEvent(key: Blob)
    | IncrementEvent(key: Blob, op: CounterOp, expires: Option<I64>, now: Instant)
    | BatchEvent(writes: seq<Write>)
    | GetEvent(key: Blob, now: Instant)
    | ListEvent(bucket: Blob, opts: ListOpts)
    | SweepEvent(indexKey: Blob, nowTs: I64)

  datatype Outcome =
    | Stored
    | Deleted(existed: bool)
    | Counted(result: Result<StoredValue, DomainError>)
    | Got(entry: Option<Entry>)
    | Listed(rows: seq<ListEntry>)
    | SweptOne

  function Effect(m: Merger, d: Disk, e: Event): Disk {
    match e
    case SetEvent(k, entry) => Put(d, k, entry)
    case DeleteEvent(k) => Remove(d, k)
    case IncrementEvent(k, op, expires, now) => Increment(m, d, k, op, expires, now)
    case BatchEvent(ws) => ApplyWrites(d, ws)
    case GetEvent(_, _) => d
    case ListEvent(_, _) => d
    case SweepEvent(x, nowTs) => SweepKey(d, x, nowTs)
  }

  function OutcomeOf(m: Merger, d: Disk, e: Event): Outcome {
    match e
    case SetEvent(_, _) => Stored
    case DeleteEvent(k) => Deleted(k in d.data)
    case IncrementEvent(k, op, _, now) => Counted(CounterResult(m, Lookup(d.data, k), op, now))
    case BatchEvent(_) => Stored
    case GetEvent(k, now) => Got(LiveEntry(Lookup(d.data, k), now))
    case ListEvent(bucket, opts) => Listed(ListSpec(d.data, bucket, opts))
    case SweepEvent(_, _) => SweptOne
  }

  function Replay(m: Merger, d: Disk, log: seq<Event>): Disk
    decreases |log|
  {
    if log == [] then d else Effect(m, Replay(m, d, log[..|log| - 1]), log[|log| - 1])
  }

  lemma ReplaySnoc(m: Merger, d: Disk, log: seq<Event>, e: Event)
    ensures Replay(m, d, log + [e]) == Effect(m, Replay(m, d, log), e)
  {
    assert (log + [e])[..|log|] == log;
  }

  /** What the clients see: sweep steps are silent, and a delete's boolean is masked. */
  function Seen(e: Event, o: Outcome): seq<Outcome> {
    if e.SweepEvent? then [] else if e.DeleteEvent? then [Stored] else [o]
  }

  function Observed(m: Merger, d: Disk, log: seq<Event>): seq<Outcome>
    decreases |log|
  {
    if log == [] then []
    else
      var e := log[|log| - 1];
      Observed(m, d, log[..|log| - 1]) + Seen(e, OutcomeOf(m, Replay(m, d, log[..|log| - 1]), e))
  }

  /** Every outcome of a serial run, in order. */
  function Results(m: Merger, d: Disk, log: seq<Event>): seq<Outcome>
    decreases |log|
  {
    if log == [] then []
    else Results(m, d, log[..|log| - 1]) + [OutcomeOf(m, Replay(m, d, log[..|log| - 1]), log[|log| - 1])]
  }

  lemma ResultsSnoc(m: Merger, d: Disk, log: seq<Event>, e: Event)
    ensures Results(m, d, log + [e]) == Results(m, d, log) + [OutcomeOf(m, Replay(m, d, log), e)]
  {
    assert (log + [e])[..|log|] == log;
  }

  lemma {:induction false} ResultAt(m: Merger, d: Disk, log: seq<Event>, i: nat)
    requires i < |log|
    ensures |Results(m, d, log)| == |log| && Results(m, d, log)[i] == OutcomeOf(m, Replay(m, d, log[..i]), log[i])
    decreases |log|
  {
    var init := log[..|log| - 1];
    if i < |init| {
      ResultAt(m, d, init, i);
      assert init[..i] == log[..i];
    } else if init != [] {
      ResultAt(m, d, init, 0);
    }
  }

  /** What the clients of a log have been told. */
  function ClientView(log: seq<Event>, results: seq<Outcome>): seq<Outcome>
    requires |log| == |results|
    decreases |log|
  {
    if log == [] then []
    else ClientView(log[..|log| - 1], results[..|log| - 1]) + Seen(log[|log| - 1], results[|log| - 1])
  }

  lemma {:induction false} ClientViewIsObserved(m: Merger, d: Disk, log: seq<Event>)
    ensures |Results(m, d, log)| == |log|
    ensures ClientView(log, Results(m, d, log)) == Observed(m, d, log)
    decreases |log|
  {
    if log != [] {
      var init := log[..|log| - 1];
      ClientViewIsObserved(m, d, init);
      assert Results(m, d, log)[..|init|] == Results(m, d, init);
    }
  }

  /** The same run without the sweeper. */
  function WithoutSweeps(log: seq<Event>): seq<Event>
    decreases |log|
  {
    if log == [] then []
    else WithoutSweeps(log[..|log| - 1]) + (if log[|log| - 1].SweepEvent? then [] else [log[|log| - 1]])
  }

  // ---- the index invariant ----------------------------------------------------------------

  ghost predicate Writable(e: Event) {
    match e
    case SetEvent(k, _) => k != []
    case IncrementEvent(k, _, _, _) => k != []
    case BatchEvent(ws) => [] !in WriteKeys(ws)
    case _ => true
  }

  lemma EffectKeepsIndexed(m: Merger, d: Disk, e: Event)
    requires Indexed(d) && Writable(e)
    ensures Indexed(Effect(m, d, e))
  {
    match e
    case SetEvent(k, entry) => PutKeepsIndexed(d, k, entry);
    case IncrementEvent(k, op, expires, now) =>
      var r := CounterResult(m, Lookup(d.data, k), op, now);
      if r.Ok? { PutKeepsIndexed(d, k, Entry(r.value, expires)); }
    case BatchEvent(ws) => ApplyWritesKeepsIndexed(d, ws);
    case SweepEvent(x, nowTs) => SweepKeyKeepsIndexed(d, x, nowTs);
    case _ =>
  }

  /** Every reachable state can be swept completely: the index names every entry that expires. */
  lemma {:induction false} ReplayKeepsIndexed(m: Merger, d: Disk, log: seq<Event>)
    requires Indexed(d) && forall i :: 0 <= i < |log| ==> Writable(log[i])
    ensures Indexed(Replay(m, d, log))
    decreases |log|
  {
    if log != [] {
      ReplayKeepsIndexed(m, d, log[..|log| - 1]);
      EffectKeepsIndexed(m, Replay(m, d, log[..|log| - 1]), log[|log| - 1]);
    }
  }

  // ---- timing ----------------------------------------------------------

  /** For each key, the latest due expiry for which the sweeper has looked at it. */
  type Horizon = map<Blob, int>

  function After(z: Horizon, e: Event): Horizon {
    if e.SweepEvent? && ParseExpiryIndexKey(e.indexKey).Some? && ParseExpiryIndexKey(e.indexKey).value.0 <= e.nowTs
    then
      var (t, k) := ParseExpiryIndexKey(e.indexKey).value;
      z[k := if k in z && z[k] > t then z[k] else t]
    else z
  }

  function HorizonOf(log: seq<Event>): Horizon
    decreases |log|
  {
    if log == [] then map[] else After(HorizonOf(log[..|log| - 1]), log[|log| - 1])
  }

  /** A client never judges expiry by a clock behind the expiry for which the key has already been swept. */
  ghost predicate Timely(z: Horizon, e: Event) {
    match e
    case IncrementEvent(k, _, _, now) => k in z ==> z[k] <= UnixSeconds(now)
    case GetEvent(k, now) => k in z ==> z[k] <= UnixSeconds(now)
    case ListEvent(bucket, opts) =>
      && opts.expiresBefore.Some?
      && forall k :: k in z && DataKeyPrefix(bucket, opts.prefix) <= k ==> z[k] <= UnixSeconds(opts.expiresBefore.value)
    case _ => true
  }

  ghost predicate WellTimed(log: seq<Event>) {
    forall i :: 0 <= i < |log| ==> Timely(HorizonOf(log[..i]), log[i])
  }

  /** The entry under `k` as no sweep up to the horizon can take it away. */
  function Lasting(d: Disk, z: Horizon, k: Blob): Option<Entry> {
    var cell := Lookup(d.data, k);
    if cell.Some? && k in z && ExpiredBySecond(cell.value, z[k]) then None else cell
  }

  lemma LastingReads(d: Disk, d2: Disk, z: Horizon, k: Blob, now: Instant)
    requires Lasting(d, z, k) == Lasting(d2, z, k) && (k in z ==> z[k] <= UnixSeconds(now))
    ensures LiveEntry(Lookup(d.data, k), now) == LiveEntry(Lookup(d2.data, k), now)
  {
    if k in d.data { ExpiryTestsAgree(d.data[k], now); }
    if k in d2.data { ExpiryTestsAgree(d2.data[k], now); }
  }

  lemma LastingLists(d: Disk, d2: Disk, z: Horizon, bucket: Blob, opts: ListOpts)
    requires forall k :: DataKeyPrefix(bucket, opts.prefix) <= k ==> Lasting(d, z, k) == Lasting(d2, z, k)
    requires Timely(z, ListEvent(bucket, opts))
    ensures ListSpec(d.data, bucket, opts) == ListSpec(d2.data, bucket, opts)
  {
    var cutoff := opts.expiresBefore.value;
    forall k
      ensures Matches(d.data, bucket, opts.prefix, opts.expiresBefore, k) <==> Matches(d2.data, bucket, opts.prefix, opts.expiresBefore, k)
      ensures Matches(d.data, bucket, opts.prefix, opts.expiresBefore, k) ==> Lookup(d.data, k) == Lookup(d2.data, k)
    {
      if DataKeyPrefix(bucket, opts.prefix) <= k { LastingReads(d, d2, z, k, cutoff); }
    }
    ListDependsOnMatches(d.data, d2.data, bucket, opts);
  }

  /**
    * One step and one read: the step changes what a read at `now` sees exactly when the reader's
    * clock is behind the expiry of the entry the step removes.
    */
  lemma SweepSeenOnlyByStaleClock(d: Disk, x: Blob, nowTs: I64, k: Blob, now: Instant)
    ensures LiveEntry(Lookup(SweepKey(d, x, nowTs).data, k), now) != LiveEntry(Lookup(d.data, k), now)
            <==> && ParseExpiryIndexKey(x).Some? && ParseExpiryIndexKey(x).value.1 == k
                 && Due(Lookup(d.data, k), ParseExpiryIndexKey(x).value.0, nowTs)
                 && UnixSeconds(now) < ParseExpiryIndexKey(x).value.0
  {
    if k in d.data { ExpiryTestsAgree(d.data[k], now); }
  }

  /** Times at which events happen, by a clock that does not run backwards. */
  ghost predicate ClockOrdered(log: seq<Event>, at: seq<Instant>) {
    && |at| == |log|
    && (forall i, j :: 0 <= i <= j < |at| ==> at[i] <= at[j])
    && (forall i :: 0 <= i < |log| ==>
          match log[i]
          case IncrementEvent(_, _, _, now) => now == at[i]
          case GetEvent(_, now) => now == at[i]
          case ListEvent(_, opts) => opts.expiresBefore == Some(at[i])
          case SweepEvent(_, nowTs) => nowTs <= UnixSeconds(at[i])
          case _ => true)
  }

  lemma {:induction false} HorizonWithinClock(log: seq<Event>, at: seq<Instant>, k: Blob)
    requires ClockOrdered(log, at) && k in HorizonOf(log)
    ensures log != [] && HorizonOf(log)[k] <= UnixSeconds(at[|at| - 1])
    decreases |log|
  {
    if log != [] {
      var init := log[..|log| - 1];
      if k in HorizonOf(init) {
        HorizonWithinClock(init, at[..|at| - 1], k);
        assert at[|at| - 2] <= at[|at| - 1];
      }
    }
  }

  /** With a nondecreasing clock every run is well timed. */
  lemma ClockOrderedIsWellTimed(log: seq<Event>, at: seq<Instant>)
    requires ClockOrdered(log, at)
    ensures WellTimed(log)
  {
    forall i | 0 <= i < |log| ensures Timely(HorizonOf(log[..i]), log[i]) {
      forall k | k in HorizonOf(log[..i]) ensures HorizonOf(log[..i])[k] <= UnixSeconds(at[i]) {
        HorizonWithinClock(log[..i], at[..i], k);
        assert at[i - 1] <= at[i];
      }
    }
  }

  // ---- bucket isolation --------------------------------------------------------------------

  /** Keys whose entries an event may set or clear on a client's behalf. */
  function Touched(e: Event): set<Blob> {
    match e
    case SetEvent(k, _) => {k}
    case DeleteEvent(k) => {k}
    case IncrementEvent(k, _, _, _) => {k}
    case BatchEvent(ws) => WriteKeys(ws)
    case _ => {}
  }

  ghost predicate OnBucket(e: Event, bucket: Blob) {
    forall k :: k in Touched(e) ==> exists u :: k == StorageKey(bucket, u)
  }

  lemma EffectFrame(m: Merger, d: Disk, e: Event, k: Blob)
    requires k !in Touched(e) && !e.SweepEvent?
    ensures Lookup(Effect(m, d, e).data, k) == Lookup(d.data, k)
  {
    if e.BatchEvent? { ApplyWritesFrame(d, e.writes, k); }
  }

  /** A key no client event touches keeps its lasting entry, whatever is swept. */
  lemma {:induction false} UntouchedLasts(m: Merger, d: Disk, log: seq<Event>, k: Blob)
    requires forall i :: 0 <= i < |log| ==> k !in Touched(log[i])
    ensures Lasting(Replay(m, d, log), HorizonOf(log), k) == Lasting(d, HorizonOf(log), k)
    decreases |log|
  {
    if log != [] {
      var init, e := log[..|log| - 1], log[|log| - 1];
      UntouchedLasts(m, d, init, k);
      if !e.SweepEvent? { EffectFrame(m, Replay(m, d, init), e, k); }
    }
  }

  lemma NotTouchedByOthers(e: Event, owner: Blob, bucket: Blob, u: Blob)
    requires SEPARATOR !in owner && SEPARATOR !in bucket && owner != bucket && OnBucket(e, owner)
    ensures StorageKey(bucket, u) !in Touched(e)
  {
    if StorageKey(bucket, u) in Touched(e) {
      var v :| StorageKey(bucket, u) == StorageKey(owner, v);
      StorageKeyInjective(bucket, u, owner, v);
    }
  }

  /** Event `i` is done on behalf of bucket `owners[i]`, and none of them is `bucket`. */
  ghost predicate ForOthers(log: seq<Event>, owners: seq<Blob>, bucket: Blob) {
    && |owners| == |log| && SEPARATOR !in bucket
    && forall i :: 0 <= i < |log| ==> SEPARATOR !in owners[i] && owners[i] != bucket && OnBucket(log[i], owners[i])
  }

  /** Work for other buckets, and any sweeping, leaves the lasting entries of a bucket as they were. */
  lemma BucketIsolation(m: Merger, d: Disk, log: seq<Event>, owners: seq<Blob>, bucket: Blob, u: Blob)
    requires ForOthers(log, owners, bucket)
    ensures Lasting(Replay(m, d, log), HorizonOf(log), StorageKey(bucket, u))
            == Lasting(d, HorizonOf(log), StorageKey(bucket, u))
  {
    forall i | 0 <= i < |log| ensures StorageKey(bucket, u) !in Touched(log[i]) {
      NotTouchedByOthers(log[i], owners[i], bucket, u);
    }
    UntouchedLasts(m, d, log, StorageKey(bucket, u));
  }

  /** So a listing of the bucket afterwards is the listing before. */
  lemma OtherBucketsDoNotShow(m: Merger, d: Disk, log: seq<Event>, owners: seq<Blob>, bucket: Blob, opts: ListOpts)
    requires ForOthers(log, owners, bucket) && Timely(HorizonOf(log), ListEvent(bucket, opts))
    ensures ListSpec(Replay(m, d, log).data, bucket, opts) == ListSpec(d.data, bucket, opts)
  {
    var z, f := HorizonOf(log), Replay(m, d, log);
    forall k | DataKeyPrefix(bucket, opts.prefix) <= k ensures Lasting(f, z, k) == Lasting(d, z, k) {
      var u := k[|bucket| + 1..];
      assert k == DataKeyPrefix(bucket, opts.prefix) + k[|DataKeyPrefix(bucket, opts.prefix)|..];
      assert k == StorageKey(bucket, u);
      BucketIsolation(m, d, log, owners, bucket, u);
    }
    LastingLists(f, d, z, bucket, opts);
  }

  /**
    * The life of an entry: written with a TTL of `s` seconds at `w` and left alone by clients, it is
    * read at `u`, with its own value, exactly while the clock's second is before the second of `w` plus `s`, swept or not.
    */
  lemma TtlOverRun(m: Merger, d: Disk, k: Blob, w: Instant, ttl: Option<U64>, defaultTtl: Option<U64>, value: StoredValue,
                   log: seq<Event>, u: Instant)
    requires ResolveTtl(w, ttl, defaultTtl).Ok? && ResolveTtl(w, ttl, defaultTtl).value.Some?
    requires forall i :: 0 <= i < |log| ==> k !in Touched(log[i])
    requires Timely(HorizonOf(log), GetEvent(k, u))
    ensures var s := if ttl.Some? then ttl.value else defaultTtl.value;
            var e := EntryOf(value, ResolveTtl(w, ttl, defaultTtl).value);
            var seen := LiveEntry(Lookup(Replay(m, Put(d, k, e), log).data, k), u);
            && (seen.Some? <==> UnixSeconds(u) < UnixSeconds(w) + s)
            && (seen.Some? ==> seen.value.value == value)
  {
    var e := EntryOf(value, ResolveTtl(w, ttl, defaultTtl).value);
    var start := Put(d, k, e);
    var f, z := Replay(m, start, log), HorizonOf(log);
    UntouchedLasts(m, start, log, k);
    TtlBounds(w, ttl, defaultTtl, value, u);
    LastingReads(f, start, z, k, u);
  }

  /** Every number in a reachable store parses, when clients' values come from kind inference. */
  lemma {:induction false} ReplayKeepsNumeric(h: Host, d: Disk, log: seq<Event>)
    requires Lawful(h)
    requires forall k :: k in d.data ==> Numeric(h, d.data[k].value)
    requires forall i :: 0 <= i < |log| && log[i].SetEvent? ==> Numeric(h, log[i].entry.value)
    requires forall i, j :: 0 <= i < |log| && log[i].BatchEvent? && 0 <= j < |log[i].writes| && log[i].writes[j].PutWrite?
                            ==> Numeric(h, log[i].writes[j].entry.value)
    ensures forall k :: k in Replay(MergerOf(h), d, log).data ==> Numeric(h, Replay(MergerOf(h), d, log).data[k].value)
    decreases |log|
  {
    if log != [] {
      var init, e := log[..|log| - 1], log[|log| - 1];
      ReplayKeepsNumeric(h, d, init);
      var a := Replay(MergerOf(h), d, init);
      match e
      case IncrementEvent(k, op, _, now) =>
        var live := LiveEntry(Lookup(a.data, k), now);
        MergeOutcome(h, op, if live.Some? then Some(live.value.value) else None);
      case BatchEvent(ws) => WritesKeepNumeric(h, a, ws);
      case _ =>
    }
  }

  lemma {:induction false} WritesKeepNumeric(h: Host, d: Disk, ws: seq<Write>)
    requires forall k :: k in d.data ==> Numeric(h, d.data[k].value)
    requires forall j :: 0 <= j < |ws| && ws[j].PutWrite? ==> Numeric(h, ws[j].entry.value)
    ensures forall k :: k in ApplyWrites(d, ws).data ==> Numeric(h, ApplyWrites(d, ws).data[k].value)
    decreases |ws|
  {
    if ws != [] { WritesKeepNumeric(h, ApplyWrite(d, ws[0]), ws[1..]); }
  }
}
