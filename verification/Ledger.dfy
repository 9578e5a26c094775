/** Accounting of concurrent runs: which threads the log speaks for, and what counters add up to. */
module Ledger {
  import opened Common
  import opened Bytes
  import opened Values
  import opened Decimal
  import opened Counter
  import opened Time
  import opened StoreSpec
  import opened Listing
  import opened Runs
  import opened Concurrency

  predicate Committed(th: Thread) {
    (th.Writer? && th.pc.Releasing?) || (th.Reader? && th.answer.Some?) || (th.Lister? && th.stage.Shown?)
  }

  /** `e` is what thread `th` asked for, and `o` what it was answered. */
  predicate Reports(th: Thread, e: Event, o: Outcome) {
    match th
    case Sweeper(_, _, _, _) => e.SweepEvent?
    case Reader(k, answer) => answer == Some(o) && e.GetEvent? && e.key == k
    case Lister(bucket, opts, stage) =>
      && stage.Shown? && o == Listed(stage.rows)
      && e.ListEvent? && e.bucket == bucket && e.opts.expiresBefore.Some? && e.opts == CutAt(opts, e.opts.expiresBefore.value)
    case Writer(job, _, pc) =>
      && pc.Releasing? && pc.answer == o
      && match job
         case SetJob(k, entry) => e == SetEvent(k, entry)
         case DeleteJob(k) => e == DeleteEvent(k)
         case IncrementJob(k, op, expires) => e.IncrementEvent? && e.key == k && e.op == op && e.expires == expires
         case BatchJob(ws) => e == BatchEvent(ws)
  }

  /** Every log entry reports a thread; every committed client thread is reported exactly once. */
  ghost predicate Accounted(s: State) {
    && |s.actors| == |s.log| == |s.results|
    && (forall j :: 0 <= j < |s.actors| ==> s.actors[j] < |s.threads| && Reports(s.threads[s.actors[j]], s.log[j], s.results[j]))
    && (forall i, j :: 0 <= i < |s.actors| && 0 <= j < |s.actors| && s.actors[i] == s.actors[j] && !s.threads[s.actors[i]].Sweeper? ==> i == j)
    && (forall i :: 0 <= i < |s.threads| && Committed(s.threads[i]) ==> i in s.actors)
  }

  /** The step of thread `i` recorded nothing, and what the log says of the thread still holds. */
  ghost predicate Quiet(s: State, g: State, i: nat)
    requires i < |s.threads| == |g.threads|
  {
    && g.log == s.log && g.results == s.results && g.actors == s.actors
    && Committed(g.threads[i]) == Committed(s.threads[i])
    && forall e, o :: Reports(s.threads[i], e, o) ==> Reports(g.threads[i], e, o)
  }

  /** The step of thread `i` recorded one event, the first one of a client thread. */
  ghost predicate Recorded(s: State, g: State, i: nat, e: Event, o: Outcome)
    requires i < |s.threads| == |g.threads|
  {
    && g.log == s.log + [e] && g.results == s.results + [o] && g.actors == s.actors + [i]
    && Reports(g.threads[i], e, o)
    && (!s.threads[i].Sweeper? ==> !Committed(s.threads[i]))
  }

  lemma QuietAccounted(s: State, g: State, i: nat)
    requires Accounted(s) && i < |s.threads| == |g.threads| && g.threads == s.threads[i := g.threads[i]]
    requires g.threads[i].Sweeper? == s.threads[i].Sweeper? && Quiet(s, g, i)
    ensures Accounted(g)
  {
  }

  lemma RecordAccounted(s: State, g: State, i: nat, e: Event, o: Outcome)
    requires Accounted(s) && i < |s.threads| == |g.threads| && g.threads == s.threads[i := g.threads[i]]
    requires g.threads[i].Sweeper? == s.threads[i].Sweeper? && Recorded(s, g, i, e, o)
    ensures Accounted(g)
  {
    forall j | 0 <= j < |g.actors| ensures g.actors[j] < |g.threads| && Reports(g.threads[g.actors[j]], g.log[j], g.results[j]) {
      if j < |s.actors| { assert g.actors[j] == s.actors[j] && Reports(s.threads[s.actors[j]], s.log[j], s.results[j]); }
    }
    forall a, b | 0 <= a < |g.actors| && 0 <= b < |g.actors| && g.actors[a] == g.actors[b] && !g.threads[g.actors[a]].Sweeper? ensures a == b {
      if a < |s.actors| { assert Reports(s.threads[s.actors[a]], s.log[a], s.results[a]); }
      if b < |s.actors| { assert Reports(s.threads[s.actors[b]], s.log[b], s.results[b]); }
    }
    forall j | 0 <= j < |g.threads| && Committed(g.threads[j]) ensures j in g.actors {
      if j != i { assert j in s.actors; }
    }
  }

  /** The step of thread `i` keeps its kind and is quiet or records one event. */
  ghost predicate QuietOrRecorded(s: State, g: State, i: nat) {
    && i < |s.threads| == |g.threads| && g.threads == s.threads[i := g.threads[i]]
    && g.threads[i].Sweeper? == s.threads[i].Sweeper?
    && (Quiet(s, g, i) || exists e, o :: Recorded(s, g, i, e, o))
  }

  lemma WriterReports(m: Merger, stripe: Blob -> nat, s: State, i: nat, now: Instant)
    requires i < |s.threads| && s.threads[i].Writer? && MoveWriter(m, stripe, s, i, now).Some?
    ensures QuietOrRecorded(s, MoveWriter(m, stripe, s, i, now).value, i)
  {
    var g, th := MoveWriter(m, stripe, s, i, now).value, s.threads[i];
    if th.pc.Ready? {
      assert Recorded(s, g, i, EventOf(th.job, th.pc.now), AnswerOf(m, th.job, th.pc.now, th.pc.cell));
    } else {
      assert Quiet(s, g, i);
    }
  }

  lemma SweeperReports(stripe: Blob -> nat, s: State, i: nat, now: Instant)
    requires i < |s.threads| && s.threads[i].Sweeper? && MoveSweeper(stripe, s, i, now).Some?
    ensures QuietOrRecorded(s, MoveSweeper(stripe, s, i, now).value, i)
  {
    var g, th := MoveSweeper(stripe, s, i, now).value, s.threads[i];
    if th.phase.Decided? {
      assert Recorded(s, g, i, SweepEvent(th.snapshot[th.pos], th.nowTs), SweptOne);
    } else {
      assert Quiet(s, g, i);
    }
  }

  lemma ListerReports(s: State, i: nat, now: Instant)
    requires i < |s.threads| && s.threads[i].Lister? && MoveLister(s, i, now).Some?
    ensures QuietOrRecorded(s, MoveLister(s, i, now).value, i)
  {
    var g, th := MoveLister(s, i, now).value, s.threads[i];
    if th.stage.Cut? {
      var opts := CutAt(th.opts, th.stage.at);
      assert Recorded(s, g, i, ListEvent(th.bucket, opts), Listed(ListSpec(s.disk.data, th.bucket, opts)));
    } else {
      assert Quiet(s, g, i);
    }
  }

  lemma MoveReports(m: Merger, stripe: Blob -> nat, s: State, i: nat, now: Instant, later: Instant)
    requires i < |s.threads| && Move(m, stripe, s, i, now, later).Some?
    ensures QuietOrRecorded(s, Move(m, stripe, s, i, now, later).value, i)
  {
    match s.threads[i]
    case Writer(_, _, _) => WriterReports(m, stripe, s, i, now);
    case Sweeper(_, _, _, _) => SweeperReports(stripe, s, i, now);
    case Lister(_, _, _) => ListerReports(s, i, now);
    case Reader(k, _) =>
      var g := Move(m, stripe, s, i, now, later).value;
      assert Recorded(s, g, i, GetEvent(k, later), Got(LiveEntry(Lookup(s.disk.data, k), later)));
  }

  lemma StepAccounted(m: Merger, stripe: Blob -> nat, s: State, c: Choice)
    requires Accounted(s)
    ensures Accounted(Step(m, stripe, s, c))
  {
    if c.thread < |s.threads| && s.clock <= c.now <= c.later && Move(m, stripe, s, c.thread, c.now, c.later).Some? {
      var g := Move(m, stripe, s, c.thread, c.now, c.later).value;
      MoveReports(m, stripe, s, c.thread, c.now, c.later);
      if Quiet(s, g, c.thread) {
        QuietAccounted(s, g, c.thread);
      } else {
        var e, o :| Recorded(s, g, c.thread, e, o);
        RecordAccounted(s, g, c.thread, e, o);
      }
    }
  }

  /** In every run the log names each finished client operation once, with its own arguments and answer. */
  lemma {:induction false} EachOperationLoggedOnce(m: Merger, stripe: Blob -> nat, s: State, schedule: seq<Choice>)
    requires Initial(stripe, s)
    ensures Accounted(Run(m, stripe, s, schedule))
    decreases |schedule|
  {
    if schedule == [] {
      forall i | 0 <= i < |s.threads| ensures !Committed(s.threads[i]) { assert Fresh(stripe, s.threads[i]); }
    } else {
      var n := |schedule| - 1;
      EachOperationLoggedOnce(m, stripe, s, schedule[..n]);
      StepAccounted(m, stripe, Run(m, stripe, s, schedule[..n]), schedule[n]);
    }
  }

  // ---- concurrent increments add up ------------------------------------------------------------

  /** A delta worth adding to the counter at `k`, by what the job was answered. */
  function Delta(job: Job, answer: Outcome, k: Blob): int {
    if job.IncrementJob? && job.key == k && job.op.DeltaInt? && answer.Counted? && answer.result.Ok? then job.op.i else 0
  }

  /** The delta an accepted integer increment of `k` contributes. */
  function Share(th: Thread, k: Blob): int {
    if th.Writer? && th.pc.Releasing? then Delta(th.job, th.pc.answer, k) else 0
  }

  function ThreadSum(threads: seq<Thread>, k: Blob): int {
    if threads == [] then 0 else Share(threads[0], k) + ThreadSum(threads[1..], k)
  }

  lemma {:induction false} ThreadSumUpdate(threads: seq<Thread>, i: nat, th: Thread, k: Blob)
    requires i < |threads|
    ensures ThreadSum(threads[i := th], k) == ThreadSum(threads, k) - Share(threads[i], k) + Share(th, k)
  {
    if i == 0 {
      assert threads[0 := th][1..] == threads[1..];
    } else {
      assert threads[i := th][1..] == threads[1..][i - 1 := th];
      ThreadSumUpdate(threads[1..], i - 1, th, k);
    }
  }

  lemma {:induction false} NoShares(stripe: Blob -> nat, threads: seq<Thread>, k: Blob)
    requires forall i :: 0 <= i < |threads| ==> Fresh(stripe, threads[i])
    ensures ThreadSum(threads, k) == 0
  {
    if threads != [] {
      assert Fresh(stripe, threads[0]);
      NoShares(stripe, threads[1..], k);
    }
  }

  function CheckedSum(v: int, d: I64): Result<StoredValue, DomainError> {
    if FitsI64(v + d) then Ok(StoredValue(PrintI64(v + d), Int64)) else Err(InvalidCounterOp)
  }

  /** An entry with this expiry is still there whenever the clock is before second `end`. */
  predicate Lasts(expires: Option<I64>, end: int) { expires.Some? ==> expires.value >= end }

  /** `m` counts in checked i64 arithmetic from the cell `first`, worth `start` and not expiring before `end`. */
  ghost predicate Tallies(m: Merger, first: Option<Entry>, start: int, end: int) {
    && FitsI64(start)
    && (first.Some? ==> Lasts(first.value.expires, end))
    && (forall d: I64 :: m(DeltaInt(d), if first.Some? then Some(first.value.value) else None) == CheckedSum(start, d))
    && (forall v: I64, d: I64 :: m(DeltaInt(d), Some(StoredValue(PrintI64(v), Int64))) == CheckedSum(v, d))
  }

  /** The cell of a counter that began as `first` with value `start` and now stands at `v`. */
  ghost predicate StandsAt(cell: Option<Entry>, first: Option<Entry>, start: int, v: int, end: int) {
    && FitsI64(v)
    && ((cell == first && v == start)
        || (cell.Some? && cell.value.value == StoredValue(PrintI64(v), Int64) && Lasts(cell.value.expires, end)))
  }

  lemma CounterResultStands(m: Merger, cell: Option<Entry>, first: Option<Entry>, start: int, v: int, d: I64, now: Instant, end: int)
    requires Tallies(m, first, start, end) && StandsAt(cell, first, start, v, end) && UnixSeconds(now) < end
    ensures CounterResult(m, cell, DeltaInt(d), now) == CheckedSum(v, d)
  {
    if cell.Some? { ExpiryTestsAgree(cell.value, now); }
  }

  /** Job does not write `k`, or increments `k` by an integer with an expiry not before `end`. */
  predicate CountsOnly(job: Job, k: Blob, end: int) {
    k in JobKeys(job) ==> job.IncrementJob? && job.op.DeltaInt? && Lasts(job.expires, end)
  }

  predicate IncrementsOnly(th: Thread, k: Blob, end: int) { th.Writer? ==> CountsOnly(th.job, k, end) }

  /** Whatever clock the thread has read, it showed a second before `end`. */
  predicate Early(th: Thread, end: int) {
    match th
    case Writer(_, _, Clocked(t)) => UnixSeconds(t) < end
    case Writer(_, _, Ready(t, _)) => UnixSeconds(t) < end
    case Sweeper(nowTs, _, _, phase) => phase.Idle? || nowTs < end
    case _ => true
  }

  /** The read of a committing writer is the value it overwrites, so its delta lands on the current total. */
  lemma CommitTally(m: Merger, d: Disk, job: Job, now: Instant, cell: Option<Entry>, k: Blob, first: Option<Entry>, start: int, v: int, end: int)
    requires Reads(job) ==> cell == Lookup(d.data, job.key)
    requires CountsOnly(job, k, end) && UnixSeconds(now) < end
    requires Tallies(m, first, start, end) && StandsAt(Lookup(d.data, k), first, start, v, end)
    ensures StandsAt(Lookup(CommitJob(m, d, job, now, cell).data, k), first, start, v + Delta(job, AnswerOf(m, job, now, cell), k), end)
  {
    if k in JobKeys(job) {
      CounterResultStands(m, cell, first, start, v, job.op.i, now, end);
    } else {
      CommitIsEffect(m, d, job, now, cell);
      NotTouched(job, now, k);
      EffectFrame(m, d, EventOf(job, now), k);
      if job.IncrementJob? { assert JobKeys(job)[0] == job.key; }
    }
  }

  lemma NotTouched(job: Job, now: Instant, k: Blob)
    requires k !in JobKeys(job)
    ensures k !in Touched(EventOf(job, now))
  {
    match job
    case BatchJob(ws) => forall i | 0 <= i < |ws| ensures ws[i].key != k { assert JobKeys(job)[i] == ws[i].key; }
    case _ => assert JobKeys(job)[0] == job.key;
  }

  /** Only a commit moves the counter: a sweeper never takes an entry that lasts. */
  lemma OtherMovesKeep(m: Merger, stripe: Blob -> nat, f: State, i: nat, now: Instant, later: Instant, k: Blob, end: int)
    requires i < |f.threads| && Settled(f, f.threads[i]) && !(f.threads[i].Writer? && f.threads[i].pc.Ready?)
    requires Move(m, stripe, f, i, now, later).Some? && Early(f.threads[i], end)
    requires k in f.disk.data ==> Lasts(f.disk.data[k].expires, end)
    ensures var g := Move(m, stripe, f, i, now, later).value;
            && g.threads == f.threads[i := g.threads[i]]
            && Lookup(g.disk.data, k) == Lookup(f.disk.data, k)
            && Share(g.threads[i], k) == Share(f.threads[i], k)
  {
  }

  lemma MoveTally(m: Merger, stripe: Blob -> nat, f: State, i: nat, now: Instant, later: Instant,
                  k: Blob, first: Option<Entry>, start: int, v: int, end: int)
    requires i < |f.threads| && Settled(f, f.threads[i]) && IncrementsOnly(f.threads[i], k, end) && Early(f.threads[i], end)
    requires Move(m, stripe, f, i, now, later).Some?
    requires Tallies(m, first, start, end) && StandsAt(Lookup(f.disk.data, k), first, start, v, end)
    ensures var g := Move(m, stripe, f, i, now, later).value;
            && g.threads == f.threads[i := g.threads[i]]
            && StandsAt(Lookup(g.disk.data, k), first, start, v + Share(g.threads[i], k) - Share(f.threads[i], k), end)
  {
    var th := f.threads[i];
    if th.Writer? && th.pc.Ready? {
      CommitTally(m, f.disk, th.job, th.pc.now, th.pc.cell, k, first, start, v, end);
    } else {
      OtherMovesKeep(m, stripe, f, i, now, later, k, end);
    }
  }

  lemma MoveStaysEarly(m: Merger, stripe: Blob -> nat, f: State, i: nat, now: Instant, later: Instant, end: int)
    requires i < |f.threads| && Early(f.threads[i], end) && UnixSeconds(now) < end
    requires Move(m, stripe, f, i, now, later).Some?
    ensures var g := Move(m, stripe, f, i, now, later).value;
            g.threads == f.threads[i := g.threads[i]] && Early(g.threads[i], end)
  {
  }

  ghost predicate SameJobs(ts: seq<Thread>, us: seq<Thread>) {
    && |ts| == |us|
    && forall i :: 0 <= i < |ts| ==> ts[i].Writer? == us[i].Writer? && (ts[i].Writer? ==> ts[i].job == us[i].job)
  }

  lemma SameJobsIncrementOnly(ts: seq<Thread>, us: seq<Thread>, k: Blob, end: int)
    requires SameJobs(ts, us) && forall i :: 0 <= i < |ts| ==> IncrementsOnly(ts[i], k, end)
    ensures forall i :: 0 <= i < |us| ==> IncrementsOnly(us[i], k, end)
  {
    forall i | 0 <= i < |us| ensures IncrementsOnly(us[i], k, end) { assert IncrementsOnly(ts[i], k, end); }
  }

  lemma StepKeepsJobs(m: Merger, stripe: Blob -> nat, s: State, c: Choice)
    ensures SameJobs(s.threads, Step(m, stripe, s, c).threads)
  {
    if c.thread < |s.threads| && Move(m, stripe, s, c.thread, c.now, c.later).Some? {
      MoveKeepsJob(m, stripe, s, c.thread, c.now, c.later);
    }
  }

  lemma MoveKeepsJob(m: Merger, stripe: Blob -> nat, s: State, i: nat, now: Instant, later: Instant)
    requires i < |s.threads| && Move(m, stripe, s, i, now, later).Some?
    ensures var g := Move(m, stripe, s, i, now, later).value;
            && g.threads == s.threads[i := g.threads[i]]
            && g.threads[i].Writer? == s.threads[i].Writer? && (g.threads[i].Writer? ==> g.threads[i].job == s.threads[i].job)
  {
  }

  ghost predicate AllEarly(threads: seq<Thread>, end: int) { forall i :: 0 <= i < |threads| ==> Early(threads[i], end) }

  /** The schedule ends before second `end`. */
  ghost predicate EndsBefore(schedule: seq<Choice>, end: int) {
    forall i :: 0 <= i < |schedule| ==> UnixSeconds(schedule[i].now) < end
  }

  lemma {:induction false} RunStaysEarly(m: Merger, stripe: Blob -> nat, s: State, schedule: seq<Choice>, end: int)
    requires Initial(stripe, s) && EndsBefore(schedule, end)
    ensures AllEarly(Run(m, stripe, s, schedule).threads, end)
    decreases |schedule|
  {
    if schedule == [] {
      forall i | 0 <= i < |s.threads| ensures Early(s.threads[i], end) { assert Fresh(stripe, s.threads[i]); }
    } else {
      var n := |schedule| - 1;
      var f, c := Run(m, stripe, s, schedule[..n]), schedule[n];
      RunStaysEarly(m, stripe, s, schedule[..n], end);
      if c.thread < |f.threads| && f.clock <= c.now <= c.later && Move(m, stripe, f, c.thread, c.now, c.later).Some? {
        assert Early(f.threads[c.thread], end);
        MoveStaysEarly(m, stripe, f, c.thread, c.now, c.later, end);
      }
    }
  }

  /** Where the counter stands in `f`, reached from `s`. */
  ghost predicate Tallied(s: State, f: State, k: Blob, start: int, end: int) {
    && SameJobs(s.threads, f.threads)
    && StandsAt(Lookup(f.disk.data, k), Lookup(s.disk.data, k), start, start + ThreadSum(f.threads, k), end)
  }

  lemma {:induction false} TallyRun(m: Merger, stripe: Blob -> nat, s: State, schedule: seq<Choice>, k: Blob, start: int, end: int)
    requires Initial(stripe, s) && Tallies(m, Lookup(s.disk.data, k), start, end) && EndsBefore(schedule, end)
    requires forall i :: 0 <= i < |s.threads| ==> IncrementsOnly(s.threads[i], k, end)
    ensures Tallied(s, Run(m, stripe, s, schedule), k, start, end)
    decreases |schedule|
  {
    if schedule == [] {
      NoShares(stripe, s.threads, k);
    } else {
      var n := |schedule| - 1;
      TallyRun(m, stripe, s, schedule[..n], k, start, end);
      RunSettles(m, stripe, s, schedule[..n]);
      RunStaysEarly(m, stripe, s, schedule[..n], end);
      TallyNext(m, stripe, s, Run(m, stripe, s, schedule[..n]), schedule[n], k, start, end);
    }
  }

  lemma TallyNext(m: Merger, stripe: Blob -> nat, s: State, f: State, c: Choice, k: Blob, start: int, end: int)
    requires Tallies(m, Lookup(s.disk.data, k), start, end) && Tallied(s, f, k, start, end)
    requires forall i :: 0 <= i < |s.threads| ==> IncrementsOnly(s.threads[i], k, end)
    requires AllSettled(f) && AllEarly(f.threads, end)
    ensures Tallied(s, Step(m, stripe, f, c), k, start, end)
  {
    StepKeepsJobs(m, stripe, f, c);
    SameJobsIncrementOnly(s.threads, f.threads, k, end);
    TallyStep(m, stripe, f, c, k, Lookup(s.disk.data, k), start, end);
  }

  lemma TallyStep(m: Merger, stripe: Blob -> nat, f: State, c: Choice, k: Blob, first: Option<Entry>, start: int, end: int)
    requires Tallies(m, first, start, end)
    requires c.thread < |f.threads| ==>
               Settled(f, f.threads[c.thread]) && IncrementsOnly(f.threads[c.thread], k, end) && Early(f.threads[c.thread], end)
    requires StandsAt(Lookup(f.disk.data, k), first, start, start + ThreadSum(f.threads, k), end)
    ensures var g := Step(m, stripe, f, c);
            StandsAt(Lookup(g.disk.data, k), first, start, start + ThreadSum(g.threads, k), end)
  {
    if c.thread < |f.threads| && f.clock <= c.now <= c.later && Move(m, stripe, f, c.thread, c.now, c.later).Some? {
      var g := Move(m, stripe, f, c.thread, c.now, c.later).value;
      MoveTally(m, stripe, f, c.thread, c.now, c.later, k, first, start, start + ThreadSum(f.threads, k), end);
      SharesMove(f.threads, c.thread, g.threads, k);
    }
  }

  lemma SharesMove(ts: seq<Thread>, i: nat, us: seq<Thread>, k: Blob)
    requires i < |ts| == |us| && us == ts[i := us[i]]
    ensures ThreadSum(us, k) == ThreadSum(ts, k) + Share(us[i], k) - Share(ts[i], k)
  {
    ThreadSumUpdate(ts, i, us[i], k);
  }

  /** The repository's counter from a key that is absent or holds an integer lasting to `end`. */
  lemma CounterTallies(h: Host, first: Option<Entry>, start: I64, end: int)
    requires if first.Some? then
               Lasts(first.value.expires, end) && first.value.value.kind == Int64 && FromStored(h, first.value.value) == Ok(IntValue(start))
             else start == 0
    ensures Tallies(MergerOf(h), first, start, end)
  {
    forall d: I64
      ensures MergerOf(h)(DeltaInt(d), if first.Some? then Some(first.value.value) else None) == CheckedSum(start, d)
    {
      MergeInt(h, d, start, if first.Some? then Some(first.value.value) else None);
    }
    forall v: I64, d: I64 ensures MergerOf(h)(DeltaInt(d), Some(StoredValue(PrintI64(v), Int64))) == CheckedSum(v, d) {
      DecimalRoundTrip(v);
      MergeInt(h, d, v, Some(StoredValue(PrintI64(v), Int64)));
    }
  }

  /**
    * No update is lost: however any number of integer increments of a key interleave with each
    * other, with writers of other keys, with listings and with sweepers, the key ends up holding its
    * first value plus the sum of the accepted deltas, as long as no expiry of the counter falls
    * before the end of the schedule. Increments may carry any such expiry, or none.
    */
  lemma ConcurrentIncrementsAddUp(h: Host, stripe: Blob -> nat, s: State, schedule: seq<Choice>, k: Blob, start: I64, end: int)
    requires Initial(stripe, s) && EndsBefore(schedule, end)
    requires forall i :: 0 <= i < |s.threads| ==> IncrementsOnly(s.threads[i], k, end)
    requires if k in s.disk.data then
               var e := s.disk.data[k];
               Lasts(e.expires, end) && e.value.kind == Int64 && FromStored(h, e.value) == Ok(IntValue(start))
             else start == 0
    ensures var f := Run(MergerOf(h), stripe, s, schedule);
            var total, cell := start + ThreadSum(f.threads, k), Lookup(f.disk.data, k);
            && FitsI64(total)
            && ((cell.Some? && cell.value.value == StoredValue(PrintI64(total), Int64) && Lasts(cell.value.expires, end))
                || (total == start && cell == Lookup(s.disk.data, k)))
  {
    CounterTallies(h, Lookup(s.disk.data, k), start, end);
    TallyRun(MergerOf(h), stripe, s, schedule, k, start, end);
  }
}
