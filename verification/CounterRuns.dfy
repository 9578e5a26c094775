/** Counters in the store, over runs with other writers, clocks, expiry and sweeping. */
module CounterRuns {
  import opened Common
  import opened Bytes
  import opened Values
  import opened Decimal
  import opened Counter
  import opened Time
  import opened StoreSpec
  import opened Runs
  import opened Unswept

  function ValueOf(cell: Option<Entry>): Option<StoredValue> { if cell.Some? then Some(cell.value.value) else None }

  predicate Counts(e: Event, k: Blob) { e.IncrementEvent? && e.key == k }

  /** The increments of `k` in a log, in order. */
  function OpsOn(log: seq<Event>, k: Blob): seq<CounterOp>
    decreases |log|
  {
    if log == [] then []
    else
      var e := log[|log| - 1];
      OpsOn(log[..|log| - 1], k) + (if Counts(e, k) then [e.op] else [])
  }

  /** On this store the event neither overwrites `k` nor meets it expired: it may only count on. */
  predicate CountsOn(data: map<Blob, Entry>, e: Event, k: Blob) {
    match e
    case SweepEvent(x, nowTs) => k !in Claimed(data, x, nowTs)
    case IncrementEvent(x, _, _, now) => x == k && k in data ==> !ExpiredAt(data[k], now)
    case _ => k !in Touched(e)
  }

  /** Throughout the run `k` is not overwritten, no increment finds it expired and no sweep finds it due. */
  ghost predicate Undisturbed(m: Merger, d: Disk, log: seq<Event>, k: Blob) {
    forall i :: 0 <= i < |log| ==> CountsOn(Replay(m, d, log[..i]).data, log[i], k)
  }

  lemma {:induction false} RunCounterSnoc(h: Host, current: Option<StoredValue>, ops: seq<CounterOp>, op: CounterOp)
    ensures var before := RunCounter(h, current, ops);
            var r := Merge(h, op, before);
            RunCounter(h, current, ops + [op]) == (if r.Ok? then Some(r.value) else before)
    decreases |ops|
  {
    if ops == [] {
      assert (ops + [op])[1..] == [];
    } else {
      assert (ops + [op])[1..] == ops[1..] + [op];
      var r := Merge(h, ops[0], current);
      RunCounterSnoc(h, if r.Ok? then Some(r.value) else current, ops[1..], op);
    }
  }

  lemma EventCounts(h: Host, d: Disk, e: Event, k: Blob)
    requires CountsOn(d.data, e, k)
    ensures var before, after := ValueOf(Lookup(d.data, k)), ValueOf(Lookup(Effect(MergerOf(h), d, e).data, k));
            after == (if !Counts(e, k) then before
                      else var r := Merge(h, e.op, before); if r.Ok? then Some(r.value) else before)
  {
    if !e.SweepEvent? && k !in Touched(e) { EffectFrame(MergerOf(h), d, e, k); }
  }

  /** In the store a counter goes through its own increments and nothing else, whatever else the run does. */
  lemma {:induction false} CounterOverRun(h: Host, d: Disk, log: seq<Event>, k: Blob)
    requires Undisturbed(MergerOf(h), d, log, k)
    ensures ValueOf(Lookup(Replay(MergerOf(h), d, log).data, k)) == RunCounter(h, ValueOf(Lookup(d.data, k)), OpsOn(log, k))
    decreases |log|
  {
    if log != [] {
      var n := |log| - 1;
      var init, e := log[..n], log[n];
      forall i | 0 <= i < n ensures init[..i] == log[..i] { PrefixOfInit(log, i); }
      CounterOverRun(h, d, init, k);
      EventCounts(h, Replay(MergerOf(h), d, init), e, k);
      if Counts(e, k) {
        RunCounterSnoc(h, ValueOf(Lookup(d.data, k)), OpsOn(init, k), e.op);
      } else {
        assert OpsOn(log, k) == OpsOn(init, k);
      }
    }
  }

  /** A float counter stays a float until it is overwritten or expires. */
  lemma FloatStaysFloatInStore(h: Host, d: Disk, log: seq<Event>, k: Blob)
    requires Lawful(h) && k in d.data && d.data[k].value.kind == Float64 && Undisturbed(MergerOf(h), d, log, k)
    ensures var f := Replay(MergerOf(h), d, log).data; k in f && f[k].value.kind == Float64
  {
    CounterOverRun(h, d, log, k);
    FloatStaysFloat(h, Some(d.data[k].value), OpsOn(log, k));
  }

  /**
    * The ways out, one event at a time: a sweep ends the float exactly when it finds the entry due,
    * an increment exactly when it is an integer one that finds it expired, and any other event only
    * by writing the key itself.
    */
  lemma FloatEndsExactly(h: Host, d: Disk, e: Event, k: Blob)
    requires Lawful(h) && k in d.data && d.data[k].value.kind == Float64
    ensures var after := ValueOf(Lookup(Effect(MergerOf(h), d, e).data, k));
            var ended := !(after.Some? && after.value.kind == Float64);
            && (e.SweepEvent? ==> (ended <==> k in Claimed(d.data, e.indexKey, e.nowTs)))
            && (Counts(e, k) ==> (ended <==> e.op.DeltaInt? && ExpiredAt(d.data[k], e.now)))
            && (ended ==> e.SweepEvent? || k in Touched(e))
  {
    if Counts(e, k) {
      MergeOutcome(h, e.op, None);
      MergeOutcome(h, e.op, Some(d.data[k].value));
    } else if !e.SweepEvent? && k !in Touched(e) {
      EffectFrame(MergerOf(h), d, e, k);
    }
  }

  /** The integer deltas a log applies to `k`. */
  function DeltasOn(log: seq<Event>, k: Blob): seq<I64>
    decreases |log|
  {
    if log == [] then []
    else
      var e := log[|log| - 1];
      DeltasOn(log[..|log| - 1], k) + (if Counts(e, k) && e.op.DeltaInt? then [e.op.i] else [])
  }

  ghost predicate IntegersOnly(log: seq<Event>, k: Blob) {
    forall i :: 0 <= i < |log| && Counts(log[i], k) ==> log[i].op.DeltaInt?
  }

  lemma {:induction false} OpsAreDeltas(log: seq<Event>, k: Blob)
    requires IntegersOnly(log, k)
    ensures OpsOn(log, k) == DeltaOps(DeltasOn(log, k))
    decreases |log|
  {
    if log != [] { OpsAreDeltas(log[..|log| - 1], k); }
  }

  /** An integer counter in the store holds its first value plus the deltas of the run, less those that would overflow. */
  lemma CounterHoldsTotalInStore(h: Host, d: Disk, log: seq<Event>, k: Blob, v: I64)
    requires Undisturbed(MergerOf(h), d, log, k) && IntegersOnly(log, k)
    requires if k in d.data then d.data[k].value.kind == Int64 && FromStored(h, d.data[k].value) == Ok(IntValue(v)) else v == 0
    ensures var f, total := Replay(MergerOf(h), d, log).data, IdealTotal(v, DeltasOn(log, k));
            && FitsI64(total)
            && (if k in f then f[k].value.kind == Int64 && FromStored(h, f[k].value) == Ok(IntValue(total))
                else k !in d.data && total == 0)
  {
    CounterOverRun(h, d, log, k);
    OpsAreDeltas(log, k);
    CounterHoldsTotal(h, ValueOf(Lookup(d.data, k)), v, DeltasOn(log, k));
  }

  /**
    * A counter that has expired starts again: whatever is stored under `k`, once an integer increment
    * finds it expired or gone, the counter holds that delta and the ones after it, and nothing older.
    */
  lemma ExpiredCounterRestarts(h: Host, d: Disk, k: Blob, delta: I64, expires: Option<I64>, now: Instant, log: seq<Event>)
    requires LiveEntry(Lookup(d.data, k), now).None?
    requires var d' := Effect(MergerOf(h), d, IncrementEvent(k, DeltaInt(delta), expires, now));
             Undisturbed(MergerOf(h), d', log, k) && IntegersOnly(log, k)
    ensures var e := IncrementEvent(k, DeltaInt(delta), expires, now);
            var d' := Effect(MergerOf(h), d, e);
            var f := Replay(MergerOf(h), d', log).data;
            && OutcomeOf(MergerOf(h), d, e) == Counted(Ok(StoredValue(PrintI64(delta), Int64)))
            && k in f && f[k].value.kind == Int64
            && FitsI64(IdealTotal(delta, DeltasOn(log, k)))
            && FromStored(h, f[k].value) == Ok(IntValue(IdealTotal(delta, DeltasOn(log, k))))
  {
    var d' := Effect(MergerOf(h), d, IncrementEvent(k, DeltaInt(delta), expires, now));
    MergeInt(h, delta, 0, None);
    DecimalRoundTrip(delta);
    CounterHoldsTotalInStore(h, d', log, k, delta);
  }
}
