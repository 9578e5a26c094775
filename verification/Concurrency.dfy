/**
  * Threads over the shared keyspaces: writers under striped locks, lock-free readers and listings, and
  * sweepers working from stale index snapshots. Each step is one engine call, one clock read or one lock operation.
  */
module Concurrency {
  import opened Common
  import opened Bytes
  import opened Keyspaces
  import opened Layout
  import opened Counter
  import opened Time
  import opened StoreSpec
  import opened Listing
  import opened Runs
  import opened Unswept
  import opened Locks

  datatype Job =
    | SetJob(key: Blob, entry: Entry)
    | DeleteJob(key: Blob)
    | IncrementJob(key: Blob, op: CounterOp, expires: Option<I64>)
    | BatchJob(writes: seq<Write>)

  datatype WriterPc = Acquiring(next: nat) | Clocked(now: Instant) | Ready(now: Instant, cell: Option<Entry>) | Releasing(next: nat, answer: Outcome)

  datatype SweeperPc = Idle | Timed | Scanning | Locked | Dropped | Decided(due: bool) | Unlocking

  /** A listing reads its clock before it scans. */
  datatype ListerPc = Asked | Cut(at: Instant) | Shown(rows: seq<ListEntry>)

  datatype Thread =
    | Writer(job: Job, plan: seq<nat>, pc: WriterPc)
    | Reader(key: Blob, answer: Option<Outcome>)
    | Lister(bucket: Blob, opts: ListOpts, stage: ListerPc)
    | Sweeper(nowTs: I64, snapshot: seq<Blob>, pos: nat, phase: SweeperPc)

  /** `log`, `results` and `actors` record each committed event, its answer and its thread. */
  datatype State = State(disk: Disk, clock: Instant, threads: seq<Thread>, log: seq<Event>, results: seq<Outcome>, actors: seq<nat>)

  function JobKeys(job: Job): seq<Blob> {
    match job
    case SetJob(k, _) => [k]
    case DeleteJob(k) => [k]
    case IncrementJob(k, _, _) => [k]
    case BatchJob(ws) => seq(|ws|, i requires 0 <= i < |ws| => ws[i].key)
  }

  predicate Reads(job: Job) { job.DeleteJob? || job.IncrementJob? }

  function EventOf(job: Job, now: Instant): Event {
    match job
    case SetJob(k, e) => SetEvent(k, e)
    case DeleteJob(k) => DeleteEvent(k)
    case IncrementJob(k, op, expires) => IncrementEvent(k, op, expires, now)
    case BatchJob(ws) => BatchEvent(ws)
  }

  /** What a writer commits, from the cell it has read. */
  function CommitJob(m: Merger, d: Disk, job: Job, now: Instant, cell: Option<Entry>): Disk {
    match job
    case SetJob(k, e) => Put(d, k, e)
    case DeleteJob(k) => if cell.Some? then Remove(d, k) else d
    case IncrementJob(k, op, expires) =>
      var r := CounterResult(m, cell, op, now);
      if r.Ok? then Put(d, k, Entry(r.value, expires)) else d
    case BatchJob(ws) => ApplyWrites(d, ws)
  }

  /** What a writer answers, from the cell it has read. */
  function AnswerOf(m: Merger, job: Job, now: Instant, cell: Option<Entry>): Outcome {
    match job
    case SetJob(_, _) => Stored
    case DeleteJob(_) => Deleted(cell.Some?)
    case IncrementJob(_, op, _) => Counted(CounterResult(m, cell, op, now))
    case BatchJob(_) => Stored
  }

  // ---- locks ------------------------------------------------------------------------------

  predicate InCriticalSection(th: Thread) {
    th.Sweeper? && (th.phase.Locked? || th.phase.Dropped? || th.phase.Decided? || th.phase.Unlocking?)
  }

  /** The parsed index key a sweeper is at. */
  function Target(th: Thread): Option<(I64, Blob)> {
    if th.Sweeper? && th.pos < |th.snapshot| then ParseExpiryIndexKey(th.snapshot[th.pos]) else None
  }

  predicate Holds(stripe: Blob -> nat, th: Thread, x: nat) {
    match th
    case Writer(_, plan, Acquiring(n)) => n <= |plan| && x in plan[..n]
    case Writer(_, plan, Releasing(n, _)) => n <= |plan| && x in plan[n..]
    case Writer(_, plan, _) => x in plan
    case Reader(_, _) => false
    case Lister(_, _, _) => false
    case Sweeper(_, _, _, _) => InCriticalSection(th) && Target(th).Some? && x == stripe(Target(th).value.1)
  }

  ghost predicate Free(stripe: Blob -> nat, s: State, x: nat) {
    forall j :: 0 <= j < |s.threads| ==> !Holds(stripe, s.threads[j], x)
  }

  // ---- steps ------------------------------------------------------------------------------

  function Become(s: State, i: nat, th: Thread, now: Instant): State
    requires i < |s.threads|
  {
    s.(clock := now, threads := s.threads[i := th])
  }

  function Record(s: State, i: nat, e: Event, o: Outcome): State {
    s.(log := s.log + [e], results := s.results + [o], actors := s.actors + [i])
  }

  ghost function MoveWriter(m: Merger, stripe: Blob -> nat, s: State, i: nat, now: Instant): Option<State>
    requires i < |s.threads| && s.threads[i].Writer?
  {
    var th := s.threads[i];
    match th.pc
    case Acquiring(n) =>
      if n < |th.plan| then
        if Free(stripe, s, th.plan[n]) then Some(Become(s, i, th.(pc := Acquiring(n + 1)), now)) else None
      else Some(Become(s, i, th.(pc := Clocked(now)), now))
    case Clocked(t) =>
      Some(Become(s, i, th.(pc := Ready(t, if Reads(th.job) then Lookup(s.disk.data, th.job.key) else None)), now))
    case Ready(t, cell) =>
      var answer := AnswerOf(m, th.job, t, cell);
      Some(Record(Become(s, i, th.(pc := Releasing(0, answer)), now).(disk := CommitJob(m, s.disk, th.job, t, cell)),
                  i, EventOf(th.job, t), answer))
    case Releasing(n, answer) =>
      if n < |th.plan| then Some(Become(s, i, th.(pc := Releasing(n + 1, answer)), now)) else None
  }

  /** The sweeper's work on one index key, under the stripe lock of its storage key. */
  ghost function MoveCritical(s: State, i: nat, now: Instant): State
    requires i < |s.threads| && Target(s.threads[i]).Some?
  {
    var th := s.threads[i];
    var x, t, k := th.snapshot[th.pos], Target(th).value.0, Target(th).value.1;
    if th.phase.Locked? then
      Become(s, i, th.(phase := Dropped), now).(disk := s.disk.(index := s.disk.index - {x}))
    else if th.phase.Dropped? then
      Become(s, i, th.(phase := Decided(Due(Lookup(s.disk.data, k), t, th.nowTs))), now)
    else if th.phase.Decided? then
      Record(Become(s, i, th.(phase := Unlocking), now)
               .(disk := s.disk.(data := if th.phase.due then s.disk.data - {k} else s.disk.data)),
             i, SweepEvent(x, th.nowTs), SweptOne)
    else
      Become(s, i, th.(pos := th.pos + 1, phase := Scanning), now)
  }

  ghost function MoveSweeper(stripe: Blob -> nat, s: State, i: nat, now: Instant): Option<State>
    requires i < |s.threads| && s.threads[i].Sweeper?
  {
    var th := s.threads[i];
    match th.phase
    case Idle => Some(Become(s, i, th.(nowTs := UnixSeconds(now), phase := Timed), now))
    case Timed => Some(Become(s, i, th.(snapshot := Sorted(s.disk.index), pos := 0, phase := Scanning), now))
    case Scanning =>
      if th.pos >= |th.snapshot| then None
      else
        (match Target(th)
         case None => Some(Become(s, i, th.(pos := th.pos + 1), now))
         case Some((t, k)) =>
           if t > th.nowTs then Some(Become(s, i, th.(pos := |th.snapshot|), now))
           else if Free(stripe, s, stripe(k)) then Some(Become(s, i, th.(phase := Locked), now))
           else None)
    case _ => if Target(th).None? then None else Some(MoveCritical(s, i, now))
  }

  /** The options a listing scans with, once it has read its clock. */
  function CutAt(opts: ListOpts, at: Instant): ListOpts { opts.(expiresBefore := Some(at)) }

  function MoveLister(s: State, i: nat, now: Instant): Option<State>
    requires i < |s.threads| && s.threads[i].Lister?
  {
    var th := s.threads[i];
    match th.stage
    case Asked => Some(Become(s, i, th.(stage := Cut(now)), now))
    case Cut(at) =>
      var rows := ListSpec(s.disk.data, th.bucket, CutAt(th.opts, at));
      Some(Record(Become(s, i, th.(stage := Shown(rows)), now), i, ListEvent(th.bucket, CutAt(th.opts, at)), Listed(rows)))
    case Shown(_) => None
  }

  /** One step of thread `i` at clock reading `now`; a reader judges expiry at some `later` instant. */
  ghost function Move(m: Merger, stripe: Blob -> nat, s: State, i: nat, now: Instant, later: Instant): Option<State>
    requires i < |s.threads|
  {
    match s.threads[i]
    case Writer(_, _, _) => MoveWriter(m, stripe, s, i, now)
    case Sweeper(_, _, _, _) => MoveSweeper(stripe, s, i, now)
    case Lister(_, _, _) => MoveLister(s, i, now)
    case Reader(k, answer) =>
      if answer.Some? then None
      else
        var o := Got(LiveEntry(Lookup(s.disk.data, k), later));
        Some(Record(Become(s, i, Reader(k, Some(o)), now), i, GetEvent(k, later), o))
  }

  datatype Choice = Choice(thread: nat, now: Instant, later: Instant)

  /** A scheduler's choice; one that is not enabled leaves the state alone. */
  ghost function Step(m: Merger, stripe: Blob -> nat, s: State, c: Choice): State {
    if c.thread < |s.threads| && s.clock <= c.now <= c.later
    then
      var r := Move(m, stripe, s, c.thread, c.now, c.later);
      if r.Some? then r.value else s
    else s
  }

  ghost function Run(m: Merger, stripe: Blob -> nat, s: State, schedule: seq<Choice>): State
    decreases |schedule|
  {
    if schedule == [] then s else Step(m, stripe, Run(m, stripe, s, schedule[..|schedule| - 1]), schedule[|schedule| - 1])
  }

  ghost predicate Fresh(stripe: Blob -> nat, th: Thread) {
    match th
    case Writer(job, plan, pc) => plan == StripePlan(stripe, JobKeys(job)) && pc == Acquiring(0) && [] !in JobKeys(job)
    case Reader(_, answer) => answer.None?
    case Lister(_, _, stage) => stage.Asked?
    case Sweeper(_, _, _, phase) => phase == Idle
  }

  ghost predicate Initial(stripe: Blob -> nat, s: State) {
    && Indexed(s.disk) && s.log == [] && s.results == [] && s.actors == []
    && forall i :: 0 <= i < |s.threads| ==> Fresh(stripe, s.threads[i])
  }

  // ---- invariant ----------------------------------------------------------------------------

  ghost predicate ThreadOk(stripe: Blob -> nat, th: Thread) {
    match th
    case Writer(job, plan, pc) =>
      && Increasing(plan) && [] !in JobKeys(job)
      && (forall k :: k in JobKeys(job) ==> stripe(k) in plan)
      && (forall x :: x in plan ==> exists k :: k in JobKeys(job) && stripe(k) == x)
      && (pc.Acquiring? || pc.Releasing? ==> pc.next <= |plan|)
    case Reader(_, _) => true
    case Lister(_, _, _) => true
    case Sweeper(nowTs, _, _, _) => InCriticalSection(th) ==> Target(th).Some? && Target(th).value.0 <= nowTs
  }

  ghost predicate Exclusive(stripe: Blob -> nat, threads: seq<Thread>) {
    forall i, j, x :: 0 <= i < |threads| && 0 <= j < |threads| && Holds(stripe, threads[i], x) && Holds(stripe, threads[j], x) ==> i == j
  }

  /** What a thread in the middle of its work may rely on. */
  ghost predicate Settled(s: State, th: Thread) {
    match th
    case Writer(job, _, Clocked(t)) => job.IncrementJob? ==> NotAhead(s.log, job.key, t)
    case Writer(job, _, Ready(t, cell)) =>
      && (job.IncrementJob? ==> NotAhead(s.log, job.key, t))
      && (Reads(job) ==> cell == Lookup(s.disk.data, job.key))
    case Sweeper(nowTs, _, _, phase) =>
      && (!phase.Idle? ==> nowTs <= UnixSeconds(s.clock))
      && (phase.Decided? && Target(th).Some? ==>
            phase.due == Due(Lookup(s.disk.data, Target(th).value.1), Target(th).value.0, nowTs))
    case _ => true
  }

  ghost predicate NotAhead(log: seq<Event>, k: Blob, t: Instant) {
    k in HorizonOf(log) ==> HorizonOf(log)[k] <= UnixSeconds(t)
  }

  /** A sweeper has dropped this index key and not yet dealt with the entry behind it. */
  predicate MidStep(th: Thread) { th.Sweeper? && (th.phase.Dropped? || th.phase.Decided?) && th.pos < |th.snapshot| }

  ghost predicate InFlight(threads: seq<Thread>, x: Blob) {
    exists i :: 0 <= i < |threads| && MidStep(threads[i]) && threads[i].snapshot[threads[i].pos] == x
  }

  /** Gets and increments judge expiry by a clock that is not behind the sweeper; listings may not. */
  ghost predicate PointsTimed(log: seq<Event>) {
    forall i :: 0 <= i < |log| && !log[i].ListEvent? ==> Timely(HorizonOf(log[..i]), log[i])
  }

  /** The shared state is what the logged operations produce one at a time. */
  ghost predicate Linked(m: Merger, d0: Disk, s: State) {
    var d := Replay(m, d0, s.log);
    && s.disk.data == d.data
    && (forall x :: x in s.disk.index <==> x in d.index && !InFlight(s.threads, x))
    && s.results == Results(m, d0, s.log)
    && PointsTimed(s.log)
    && (forall k :: NotAhead(s.log, k, s.clock))
    && (forall i :: 0 <= i < |s.log| ==> Writable(s.log[i]))
  }

  ghost predicate Inv(m: Merger, stripe: Blob -> nat, d0: Disk, s: State) {
    && (forall i :: 0 <= i < |s.threads| ==> ThreadOk(stripe, s.threads[i]) && Settled(s, s.threads[i]))
    && Exclusive(stripe, s.threads)
    && Linked(m, d0, s)
  }

  // ---- preservation ---------------------------------------------------------------------------

  lemma ExclusiveShrink(stripe: Blob -> nat, threads: seq<Thread>, i: nat, th: Thread)
    requires i < |threads| && Exclusive(stripe, threads)
    requires forall x :: Holds(stripe, th, x) ==> Holds(stripe, threads[i], x)
    ensures Exclusive(stripe, threads[i := th])
  {
  }

  lemma ExclusiveGrow(stripe: Blob -> nat, s: State, i: nat, th: Thread, y: nat)
    requires i < |s.threads| && Exclusive(stripe, s.threads) && Free(stripe, s, y)
    requires forall x :: Holds(stripe, th, x) ==> x == y || Holds(stripe, s.threads[i], x)
    ensures Exclusive(stripe, s.threads[i := th])
  {
    var ts := s.threads[i := th];
    forall a, b, x | 0 <= a < |ts| && 0 <= b < |ts| && Holds(stripe, ts[a], x) && Holds(stripe, ts[b], x) ensures a == b {
      assert a != i ==> Holds(stripe, s.threads[a], x);
      assert b != i ==> Holds(stripe, s.threads[b], x);
    }
  }

  /** The key whose entry or horizon a thread relies on, protected by a stripe it holds. */
  function Guarded(th: Thread): Option<Blob> {
    match th
    case Writer(job, _, Clocked(_)) => if Reads(job) then Some(job.key) else None
    case Writer(job, _, Ready(_, _)) => if Reads(job) then Some(job.key) else None
    case Sweeper(_, _, _, _) => if InCriticalSection(th) && Target(th).Some? then Some(Target(th).value.1) else None
    case _ => None
  }

  lemma GuardedIsHeld(stripe: Blob -> nat, th: Thread)
    requires ThreadOk(stripe, th) && Guarded(th).Some?
    ensures Holds(stripe, th, stripe(Guarded(th).value))
  {
    if th.Writer? { assert JobKeys(th.job)[0] == th.job.key; }
  }

  function HorizonAt(log: seq<Event>, k: Blob): Option<int> { if k in HorizonOf(log) then Some(HorizonOf(log)[k]) else None }

  lemma SettledFrame(s: State, s': State, th: Thread)
    requires Settled(s, th) && s.clock <= s'.clock
    requires Guarded(th).Some? ==>
               && Lookup(s.disk.data, Guarded(th).value) == Lookup(s'.disk.data, Guarded(th).value)
               && HorizonAt(s.log, Guarded(th).value) == HorizonAt(s'.log, Guarded(th).value)
    ensures Settled(s', th)
  {
  }

  /** Steps that touch neither the disk nor the log. */
  lemma QuietStep(m: Merger, stripe: Blob -> nat, d0: Disk, s: State, i: nat, th: Thread, now: Instant)
    requires Inv(m, stripe, d0, s) && i < |s.threads| && s.clock <= now
    requires ThreadOk(stripe, th) && Settled(Become(s, i, th, now), th)
    requires Exclusive(stripe, s.threads[i := th])
    requires MidStep(th) == MidStep(s.threads[i])
    requires MidStep(th) ==> th.snapshot == s.threads[i].snapshot && th.pos == s.threads[i].pos
    ensures Inv(m, stripe, d0, Become(s, i, th, now))
  {
    var s' := Become(s, i, th, now);
    forall j | 0 <= j < |s'.threads| ensures ThreadOk(stripe, s'.threads[j]) && Settled(s', s'.threads[j]) {
      if j != i { SettledFrame(s, s', s.threads[j]); }
    }
    forall x ensures InFlight(s'.threads, x) <==> InFlight(s.threads, x) {
      if j :| 0 <= j < |s.threads| && MidStep(s.threads[j]) && s.threads[j].snapshot[s.threads[j].pos] == x {
        assert MidStep(s'.threads[j]) && s'.threads[j].snapshot[s'.threads[j].pos] == x;
      }
      if j :| 0 <= j < |s'.threads| && MidStep(s'.threads[j]) && s'.threads[j].snapshot[s'.threads[j].pos] == x {
        assert MidStep(s.threads[j]) && s.threads[j].snapshot[s.threads[j].pos] == x;
      }
    }
    forall k ensures NotAhead(s'.log, k, s'.clock) { assert NotAhead(s.log, k, s.clock); }
  }

  // ---- commits --------------------------------------------------------------------------------

  /** A commit computed from an unchanged cell is the serial operation itself. */
  lemma CommitIsEffect(m: Merger, d: Disk, job: Job, now: Instant, cell: Option<Entry>)
    requires Reads(job) ==> cell == Lookup(d.data, job.key)
    ensures CommitJob(m, d, job, now, cell) == Effect(m, d, EventOf(job, now))
    ensures AnswerOf(m, job, now, cell) == OutcomeOf(m, d, EventOf(job, now))
  {
    if job.DeleteJob? && cell.None? { assert d.data - {job.key} == d.data; }
  }

  /** Index keys an event adds. */
  function Added(m: Merger, data: map<Blob, Entry>, e: Event): set<Blob> {
    match e
    case SetEvent(k, entry) => IndexKeysOf(k, entry)
    case IncrementEvent(k, op, expires, now) =>
      var r := CounterResult(m, Lookup(data, k), op, now);
      if r.Ok? then IndexKeysOf(k, Entry(r.value, expires)) else {}
    case BatchEvent(ws) => NewIndexKeys(ws)
    case _ => {}
  }

  /** A client event acts on data and index separately. */
  lemma EffectSplits(m: Merger, d: Disk, d2: Disk, e: Event)
    requires d.data == d2.data && !e.SweepEvent?
    ensures Effect(m, d, e).data == Effect(m, d2, e).data
    ensures Effect(m, d, e).index == d.index + Added(m, d.data, e)
    ensures OutcomeOf(m, d, e) == OutcomeOf(m, d2, e)
  {
    if e.BatchEvent? {
      ApplyWritesData(d, d2, e.writes);
      ApplyWritesIndex(d, e.writes);
    }
  }

  lemma AddedBelongs(m: Merger, data: map<Blob, Entry>, e: Event, x: Blob, t: I64, k: Blob)
    requires x in Added(m, data, e) && ParseExpiryIndexKey(x) == Some((t, k))
    ensures k in Touched(e)
  {
    ExpiryIndexKeyInverse(x, t, k);
    match e
    case SetEvent(l, entry) => ExpiryIndexKeyInjective(t, k, entry.expires.value, l);
    case IncrementEvent(l, _, expires, _) => ExpiryIndexKeyInjective(t, k, expires.value, l);
    case BatchEvent(ws) => NewIndexKeysBelong(ws, x, t, k);
  }

  lemma TouchedIsLocked(stripe: Blob -> nat, th: Thread, now: Instant, k: Blob)
    requires th.Writer? && th.pc.Ready? && ThreadOk(stripe, th) && k in Touched(EventOf(th.job, now))
    ensures Holds(stripe, th, stripe(k)) && k != []
  {
    match th.job
    case BatchJob(ws) =>
      var i :| 0 <= i < |ws| && ws[i].key == k;
      assert JobKeys(th.job)[i] == k;
    case _ => assert JobKeys(th.job)[0] == k;
  }

  lemma HorizonSnoc(log: seq<Event>, e: Event)
    ensures HorizonOf(log + [e]) == After(HorizonOf(log), e)
    ensures PointsTimed(log) && (e.ListEvent? || Timely(HorizonOf(log), e)) ==> PointsTimed(log + [e])
  {
    forall i | 0 <= i <= |log| ensures (log + [e])[..i] == log[..i] { }
    assert log[..|log|] == log;
  }

  /** Recording a client event in step with the shared state keeps the link to the serial run. */
  lemma LinkedRecord(m: Merger, d0: Disk, s: State, s': State, e: Event)
    requires Linked(m, d0, s) && !e.SweepEvent? && Writable(e) && (e.ListEvent? || Timely(HorizonOf(s.log), e))
    requires s'.disk == Effect(m, s.disk, e) && s'.log == s.log + [e] && s.clock <= s'.clock
    requires s'.results == s.results + [OutcomeOf(m, s.disk, e)]
    requires forall x :: InFlight(s'.threads, x) <==> InFlight(s.threads, x)
    requires forall x :: x in Added(m, s.disk.data, e) ==> !InFlight(s.threads, x)
    ensures Linked(m, d0, s')
  {
    var d := Replay(m, d0, s.log);
    ReplaySnoc(m, d0, s.log, e);
    ResultsSnoc(m, d0, s.log, e);
    HorizonSnoc(s.log, e);
    EffectSplits(m, s.disk, d, e);
    EffectSplits(m, d, s.disk, e);
    forall k ensures NotAhead(s'.log, k, s'.clock) { assert NotAhead(s.log, k, s.clock); }
  }

  lemma SameInFlight(threads: seq<Thread>, i: nat, th: Thread)
    requires i < |threads| && !MidStep(th) && !MidStep(threads[i])
    ensures forall x :: InFlight(threads[i := th], x) <==> InFlight(threads, x)
  {
    var ts := threads[i := th];
    forall x ensures InFlight(ts, x) <==> InFlight(threads, x) {
      if j :| 0 <= j < |ts| && MidStep(ts[j]) && ts[j].snapshot[ts[j].pos] == x { assert threads[j] == ts[j]; }
      if j :| 0 <= j < |ts| && MidStep(threads[j]) && threads[j].snapshot[threads[j].pos] == x { assert threads[j] == ts[j]; }
    }
  }

  lemma CommitStep(m: Merger, stripe: Blob -> nat, d0: Disk, s: State, i: nat, now: Instant)
    requires Inv(m, stripe, d0, s) && i < |s.threads| && s.clock <= now
    requires s.threads[i].Writer? && s.threads[i].pc.Ready?
    ensures Inv(m, stripe, d0, MoveWriter(m, stripe, s, i, now).value)
  {
    var th, s' := s.threads[i], MoveWriter(m, stripe, s, i, now).value;
    var t, e := th.pc.now, EventOf(th.job, th.pc.now);
    assert Settled(s, th) && ThreadOk(stripe, th);
    CommitIsEffect(m, s.disk, th.job, t, th.pc.cell);
    SameInFlight(s.threads, i, s'.threads[i]);
    CommitWritable(th.job, t);
    forall x | x in Added(m, s.disk.data, e) ensures !InFlight(s.threads, x) {
      if j :| 0 <= j < |s.threads| && MidStep(s.threads[j]) && s.threads[j].snapshot[s.threads[j].pos] == x {
        assert ThreadOk(stripe, s.threads[j]);
        var (u, k) := Target(s.threads[j]).value;
        AddedBelongs(m, s.disk.data, e, x, u, k);
        TouchedIsLocked(stripe, th, t, k);
        assert Holds(stripe, s.threads[j], stripe(k));
      }
    }
    LinkedRecord(m, d0, s, s', e);
    ExclusiveShrink(stripe, s.threads, i, s'.threads[i]);
    HorizonSnoc(s.log, e);
    forall j | 0 <= j < |s'.threads| ensures ThreadOk(stripe, s'.threads[j]) && Settled(s', s'.threads[j]) {
      if j != i {
        var o := s.threads[j];
        if Guarded(o).Some? {
          var k := Guarded(o).value;
          GuardedIsHeld(stripe, o);
          if k in Touched(e) { TouchedIsLocked(stripe, th, t, k); }
          EffectFrame(m, s.disk, e, k);
        }
        SettledFrame(s, s', o);
      }
    }
  }

  lemma CommitWritable(job: Job, now: Instant)
    requires [] !in JobKeys(job)
    ensures Writable(EventOf(job, now))
  {
    match job
    case BatchJob(ws) => forall i | 0 <= i < |ws| ensures ws[i].key != [] { assert JobKeys(job)[i] == ws[i].key; }
    case _ => assert JobKeys(job)[0] == job.key;
  }

  lemma AcquireStep(m: Merger, stripe: Blob -> nat, d0: Disk, s: State, i: nat, now: Instant)
    requires Inv(m, stripe, d0, s) && i < |s.threads| && s.clock <= now
    requires s.threads[i].Writer? && s.threads[i].pc.Acquiring? && MoveWriter(m, stripe, s, i, now).Some?
    ensures Inv(m, stripe, d0, MoveWriter(m, stripe, s, i, now).value)
  {
    var th := s.threads[i];
    var n := th.pc.next;
    var th' := th.(pc := if n < |th.plan| then Acquiring(n + 1) else Clocked(now));
    assert MoveWriter(m, stripe, s, i, now) == Some(Become(s, i, th', now));
    assert ThreadOk(stripe, th);
    if n < |th.plan| {
      assert th.plan[..n + 1] == th.plan[..n] + [th.plan[n]];
      ExclusiveGrow(stripe, s, i, th', th.plan[n]);
    } else {
      assert th.plan[..n] == th.plan;
      ExclusiveShrink(stripe, s.threads, i, th');
      if th.job.IncrementJob? { assert NotAhead(s.log, th.job.key, s.clock); }
    }
    QuietStep(m, stripe, d0, s, i, th', now);
  }

  lemma ReleaseStep(m: Merger, stripe: Blob -> nat, d0: Disk, s: State, i: nat, now: Instant)
    requires Inv(m, stripe, d0, s) && i < |s.threads| && s.clock <= now
    requires s.threads[i].Writer? && s.threads[i].pc.Releasing? && MoveWriter(m, stripe, s, i, now).Some?
    ensures Inv(m, stripe, d0, MoveWriter(m, stripe, s, i, now).value)
  {
    var th := s.threads[i];
    var n, th' := th.pc.next, th.(pc := Releasing(th.pc.next + 1, th.pc.answer));
    assert MoveWriter(m, stripe, s, i, now) == Some(Become(s, i, th', now));
    assert ThreadOk(stripe, th);
    assert th.plan[n..] == [th.plan[n]] + th.plan[n + 1..];
    ExclusiveShrink(stripe, s.threads, i, th');
    QuietStep(m, stripe, d0, s, i, th', now);
  }

  lemma WriterStep(m: Merger, stripe: Blob -> nat, d0: Disk, s: State, i: nat, now: Instant)
    requires Inv(m, stripe, d0, s) && i < |s.threads| && s.clock <= now
    requires s.threads[i].Writer? && MoveWriter(m, stripe, s, i, now).Some?
    ensures Inv(m, stripe, d0, MoveWriter(m, stripe, s, i, now).value)
  {
    var th := s.threads[i];
    match th.pc
    case Ready(_, _) => CommitStep(m, stripe, d0, s, i, now);
    case Acquiring(_) => AcquireStep(m, stripe, d0, s, i, now);
    case Releasing(_, _) => ReleaseStep(m, stripe, d0, s, i, now);
    case Clocked(_) =>
      var th' := MoveWriter(m, stripe, s, i, now).value.threads[i];
      assert ThreadOk(stripe, th) && Settled(s, th);
      ExclusiveShrink(stripe, s.threads, i, th');
      QuietStep(m, stripe, d0, s, i, th', now);
  }

  /** A thread without locks looks at the disk once and records what it saw. */
  lemma LookStep(m: Merger, stripe: Blob -> nat, d0: Disk, s: State, i: nat, th: Thread, now: Instant, e: Event)
    requires Inv(m, stripe, d0, s) && i < |s.threads| && s.clock <= now
    requires (th.Reader? && s.threads[i].Reader?) || (th.Lister? && s.threads[i].Lister?)
    requires e.ListEvent? || (e.GetEvent? && Timely(HorizonOf(s.log), e))
    ensures Inv(m, stripe, d0, Record(Become(s, i, th, now), i, e, OutcomeOf(m, s.disk, e)))
  {
    var s' := Record(Become(s, i, th, now), i, e, OutcomeOf(m, s.disk, e));
    SameInFlight(s.threads, i, th);
    LinkedRecord(m, d0, s, s', e);
    ExclusiveShrink(stripe, s.threads, i, th);
    HorizonSnoc(s.log, e);
    forall j | 0 <= j < |s'.threads| ensures ThreadOk(stripe, s'.threads[j]) && Settled(s', s'.threads[j]) {
      if j != i { SettledFrame(s, s', s.threads[j]); }
    }
  }

  lemma ReaderStep(m: Merger, stripe: Blob -> nat, d0: Disk, s: State, i: nat, now: Instant, later: Instant)
    requires Inv(m, stripe, d0, s) && i < |s.threads| && s.clock <= now <= later
    requires s.threads[i].Reader? && s.threads[i].answer.None?
    ensures Inv(m, stripe, d0, Move(m, stripe, s, i, now, later).value)
  {
    var e := GetEvent(s.threads[i].key, later);
    assert NotAhead(s.log, e.key, s.clock);
    LookStep(m, stripe, d0, s, i, Reader(e.key, Some(OutcomeOf(m, s.disk, e))), now, e);
  }

  lemma ListerStep(m: Merger, stripe: Blob -> nat, d0: Disk, s: State, i: nat, now: Instant)
    requires Inv(m, stripe, d0, s) && i < |s.threads| && s.clock <= now
    requires s.threads[i].Lister? && MoveLister(s, i, now).Some?
    ensures Inv(m, stripe, d0, MoveLister(s, i, now).value)
  {
    var th, th' := s.threads[i], MoveLister(s, i, now).value.threads[i];
    if th.stage.Asked? {
      ExclusiveShrink(stripe, s.threads, i, th');
      QuietStep(m, stripe, d0, s, i, th', now);
    } else {
      LookStep(m, stripe, d0, s, i, th', now, ListEvent(th.bucket, CutAt(th.opts, th.stage.at)));
    }
  }

  // ---- sweeper steps --------------------------------------------------------------------------

  lemma InFlightOthers(threads: seq<Thread>, i: nat, th: Thread, x: Blob)
    requires i < |threads|
    requires MidStep(th) ==> th.snapshot[th.pos] != x
    requires MidStep(threads[i]) ==> threads[i].snapshot[threads[i].pos] != x
    ensures InFlight(threads[i := th], x) <==> InFlight(threads, x)
  {
    var ts := threads[i := th];
    if j :| 0 <= j < |ts| && MidStep(ts[j]) && ts[j].snapshot[ts[j].pos] == x { assert threads[j] == ts[j]; }
    if j :| 0 <= j < |ts| && MidStep(threads[j]) && threads[j].snapshot[threads[j].pos] == x { assert threads[j] == ts[j]; }
  }

  /** Dropping the index key puts it in flight. */
  lemma DropStep(m: Merger, stripe: Blob -> nat, d0: Disk, s: State, i: nat, now: Instant)
    requires Inv(m, stripe, d0, s) && i < |s.threads| && s.clock <= now
    requires s.threads[i].Sweeper? && s.threads[i].phase.Locked?
    requires Target(s.threads[i]).Some?
    ensures Inv(m, stripe, d0, MoveCritical(s, i, now))
  {
    var th, s' := s.threads[i], MoveCritical(s, i, now);
    var x, th' := th.snapshot[th.pos], s'.threads[i];
    assert ThreadOk(stripe, th) && Settled(s, th);
    forall y ensures y in s'.disk.index <==> y in Replay(m, d0, s'.log).index && !InFlight(s'.threads, y) {
      if y == x {
        assert MidStep(s'.threads[i]) && s'.threads[i].snapshot[s'.threads[i].pos] == x;
      } else {
        InFlightOthers(s.threads, i, th', y);
      }
    }
    ExclusiveShrink(stripe, s.threads, i, th');
    forall k ensures NotAhead(s'.log, k, s'.clock) { assert NotAhead(s.log, k, s.clock); }
    forall j | 0 <= j < |s'.threads| ensures ThreadOk(stripe, s'.threads[j]) && Settled(s', s'.threads[j]) {
      if j != i { SettledFrame(s, s', s.threads[j]); }
    }
  }

  /** Dealing with the entry completes the sweep of one key, seen by the serial run as a single event. */
  lemma FinishStep(m: Merger, stripe: Blob -> nat, d0: Disk, s: State, i: nat, now: Instant)
    requires Inv(m, stripe, d0, s) && i < |s.threads| && s.clock <= now
    requires s.threads[i].Sweeper? && s.threads[i].phase.Decided?
    requires Target(s.threads[i]).Some?
    ensures Inv(m, stripe, d0, MoveCritical(s, i, now))
  {
    var th, s' := s.threads[i], MoveCritical(s, i, now);
    var x, k := th.snapshot[th.pos], Target(th).value.1;
    var e := SweepEvent(x, th.nowTs);
    assert ThreadOk(stripe, th) && Settled(s, th);
    FinishLinked(m, stripe, d0, s, i, now);
    ExclusiveShrink(stripe, s.threads, i, s'.threads[i]);
    HorizonSnoc(s.log, e);
    forall j | 0 <= j < |s'.threads| ensures ThreadOk(stripe, s'.threads[j]) && Settled(s', s'.threads[j]) {
      if j != i {
        var o := s.threads[j];
        if Guarded(o).Some? {
          GuardedIsHeld(stripe, o);
          GuardedIsHeld(stripe, th);
          assert Guarded(o).value != k;
        }
        SettledFrame(s, s', o);
      }
    }
  }

  lemma FinishLinked(m: Merger, stripe: Blob -> nat, d0: Disk, s: State, i: nat, now: Instant)
    requires Inv(m, stripe, d0, s) && i < |s.threads| && s.clock <= now
    requires s.threads[i].Sweeper? && s.threads[i].phase.Decided?
    requires Target(s.threads[i]).Some?
    ensures Linked(m, d0, MoveCritical(s, i, now))
  {
    var th := s.threads[i];
    var x, d := th.snapshot[th.pos], Replay(m, d0, s.log);
    var e, th' := SweepEvent(x, th.nowTs), th.(phase := Unlocking);
    var s' := MoveCritical(s, i, now);
    assert ThreadOk(stripe, th) && Settled(s, th);
    assert Effect(m, d, e) == Disk(s'.disk.data, d.index - {x});
    ReplaySnoc(m, d0, s.log, e);
    ResultsSnoc(m, d0, s.log, e);
    HorizonSnoc(s.log, e);
    FinishFlight(s.disk.index, d.index, s.threads, i, th');
    forall k ensures NotAhead(s'.log, k, s'.clock) { assert NotAhead(s.log, k, s.clock); }
  }

  lemma FinishFlight(index: set<Blob>, serial: set<Blob>, threads: seq<Thread>, i: nat, th': Thread)
    requires i < |threads| && MidStep(threads[i]) && !MidStep(th')
    requires forall y :: y in index <==> y in serial && !InFlight(threads, y)
    ensures var x := threads[i].snapshot[threads[i].pos];
            forall y :: y in index <==> y in serial - {x} && !InFlight(threads[i := th'], y)
  {
    var x := threads[i].snapshot[threads[i].pos];
    assert InFlight(threads, x);
    forall y | y != x ensures InFlight(threads[i := th'], y) <==> InFlight(threads, y) { InFlightOthers(threads, i, th', y); }
  }

  lemma SweeperStep(m: Merger, stripe: Blob -> nat, d0: Disk, s: State, i: nat, now: Instant)
    requires Inv(m, stripe, d0, s) && i < |s.threads| && s.clock <= now
    requires s.threads[i].Sweeper? && MoveSweeper(stripe, s, i, now).Some?
    ensures Inv(m, stripe, d0, MoveSweeper(stripe, s, i, now).value)
  {
    var th := s.threads[i];
    var th' := MoveSweeper(stripe, s, i, now).value.threads[i];
    assert ThreadOk(stripe, th) && Settled(s, th);
    match th.phase
    case Locked => DropStep(m, stripe, d0, s, i, now);
    case Decided(_) => FinishStep(m, stripe, d0, s, i, now);
    case Scanning =>
      if th'.phase.Locked? {
        ExclusiveGrow(stripe, s, i, th', stripe(Target(th).value.1));
      } else {
        ExclusiveShrink(stripe, s.threads, i, th');
      }
      QuietStep(m, stripe, d0, s, i, th', now);
    case _ =>
      ExclusiveShrink(stripe, s.threads, i, th');
      QuietStep(m, stripe, d0, s, i, th', now);
  }

  lemma StepKeepsInv(m: Merger, stripe: Blob -> nat, d0: Disk, s: State, c: Choice)
    requires Inv(m, stripe, d0, s)
    ensures Inv(m, stripe, d0, Step(m, stripe, s, c))
  {
    if c.thread < |s.threads| && s.clock <= c.now <= c.later && Move(m, stripe, s, c.thread, c.now, c.later).Some? {
      match s.threads[c.thread]
      case Writer(_, _, _) => WriterStep(m, stripe, d0, s, c.thread, c.now);
      case Sweeper(_, _, _, _) => SweeperStep(m, stripe, d0, s, c.thread, c.now);
      case Lister(_, _, _) => ListerStep(m, stripe, d0, s, c.thread, c.now);
      case Reader(_, _) => ReaderStep(m, stripe, d0, s, c.thread, c.now, c.later);
    }
  }

  lemma PlanNamesJobStripes(stripe: Blob -> nat, job: Job)
    ensures var plan := StripePlan(stripe, JobKeys(job));
            && Increasing(plan)
            && (forall k :: k in JobKeys(job) ==> stripe(k) in plan)
            && (forall x :: x in plan ==> exists k :: k in JobKeys(job) && stripe(k) == x)
  {
    var ks, plan := JobKeys(job), StripePlan(stripe, JobKeys(job));
    StripePlanAscends(stripe, ks);
    forall x | x in plan ensures exists k :: k in ks && stripe(k) == x {
      var i :| 0 <= i < |ks| && stripe(ks[i]) == x;
      assert ks[i] in ks;
    }
  }

  lemma InitialInv(m: Merger, stripe: Blob -> nat, s: State)
    requires Initial(stripe, s)
    ensures Inv(m, stripe, s.disk, s)
  {
    forall i | 0 <= i < |s.threads| ensures ThreadOk(stripe, s.threads[i]) && Settled(s, s.threads[i]) {
      assert Fresh(stripe, s.threads[i]);
      if s.threads[i].Writer? { PlanNamesJobStripes(stripe, s.threads[i].job); }
    }
    forall i, x | 0 <= i < |s.threads| ensures !Holds(stripe, s.threads[i], x) { assert Fresh(stripe, s.threads[i]); }
    forall x ensures !InFlight(s.threads, x) {
      forall i | 0 <= i < |s.threads| ensures !MidStep(s.threads[i]) { assert Fresh(stripe, s.threads[i]); }
    }
  }

  lemma {:induction false} RunKeepsInv(m: Merger, stripe: Blob -> nat, s: State, schedule: seq<Choice>)
    requires Initial(stripe, s)
    ensures Inv(m, stripe, s.disk, Run(m, stripe, s, schedule))
    decreases |schedule|
  {
    if schedule == [] {
      InitialInv(m, stripe, s);
    } else {
      var n := |schedule| - 1;
      RunKeepsInv(m, stripe, s, schedule[..n]);
      StepKeepsInv(m, stripe, s.disk, Run(m, stripe, s, schedule[..n]), schedule[n]);
    }
  }

  ghost predicate AllSettled(f: State) { forall i :: 0 <= i < |f.threads| ==> Settled(f, f.threads[i]) }

  lemma RunSettles(m: Merger, stripe: Blob -> nat, s: State, schedule: seq<Choice>)
    requires Initial(stripe, s)
    ensures AllSettled(Run(m, stripe, s, schedule))
  {
    RunKeepsInv(m, stripe, s, schedule);
  }

  // ---- what every interleaving guarantees ------------------------------------------------------

  /**
    * Every interleaving equals its committed operations run one at a time in commit order: same
    * data, and every thread was answered what the serial operation answers.
    */
  lemma Serializable(m: Merger, stripe: Blob -> nat, s: State, schedule: seq<Choice>)
    requires Initial(stripe, s)
    ensures var f := Run(m, stripe, s, schedule);
            && f.disk.data == Replay(m, s.disk, f.log).data
            && f.results == Results(m, s.disk, f.log)
  {
    RunKeepsInv(m, stripe, s, schedule);
  }

  /** Every expiring entry is indexed, unless a sweeper is between dropping that very key and deciding. */
  lemma IndexCompleteBetweenSteps(m: Merger, stripe: Blob -> nat, s: State, schedule: seq<Choice>, k: Blob)
    requires Initial(stripe, s)
    ensures var f := Run(m, stripe, s, schedule);
            k in f.disk.data && f.disk.data[k].expires.Some? ==>
              var x := ExpiryIndexKey(f.disk.data[k].expires.value, k);
              x in f.disk.index || InFlight(f.threads, x)
  {
    var f := Run(m, stripe, s, schedule);
    RunKeepsInv(m, stripe, s, schedule);
    ReplayKeepsIndexed(m, s.disk, f.log);
  }

  /** A sweeper only ever takes an entry whose stored expiry is at or before its own timestamp. */
  lemma SweeperTakesOnlyExpired(m: Merger, stripe: Blob -> nat, s: State, schedule: seq<Choice>, c: Choice, k: Blob)
    requires Initial(stripe, s)
    requires var f := Run(m, stripe, s, schedule); c.thread < |f.threads| && f.threads[c.thread].Sweeper?
    ensures var f := Run(m, stripe, s, schedule);
            var g := Step(m, stripe, f, c);
            Lookup(g.disk.data, k) != Lookup(f.disk.data, k) ==>
              && k in f.disk.data && k !in g.disk.data
              && ExpiredBySecond(f.disk.data[k], f.threads[c.thread].nowTs)
              && f.threads[c.thread].nowTs <= UnixSeconds(f.clock)
  {
    var f := Run(m, stripe, s, schedule);
    RunKeepsInv(m, stripe, s, schedule);
    StepTakesOnlyExpired(m, stripe, f, c, k);
  }

  lemma StepTakesOnlyExpired(m: Merger, stripe: Blob -> nat, f: State, c: Choice, k: Blob)
    requires c.thread < |f.threads| && f.threads[c.thread].Sweeper? && Settled(f, f.threads[c.thread])
    ensures var g := Step(m, stripe, f, c);
            Lookup(g.disk.data, k) != Lookup(f.disk.data, k) ==>
              && k in f.disk.data && k !in g.disk.data
              && ExpiredBySecond(f.disk.data[k], f.threads[c.thread].nowTs)
              && f.threads[c.thread].nowTs <= UnixSeconds(f.clock)
  {
  }

  /** Event `i` of a log as the unswept run answers it. */
  function CalmAnswer(m: Merger, d: Disk, log: seq<Event>, i: nat): Outcome
    requires i < |log|
  {
    OutcomeOf(m, Calm(m, d, log[..i]), log[i])
  }

  lemma PointsDoNotNotice(m: Merger, d: Disk, log: seq<Event>, i: nat)
    requires PointsTimed(log) && i < |log| && !log[i].ListEvent? && !log[i].DeleteEvent?
    ensures !NoticesAt(m, d, log, i)
  {
    assert Timely(HorizonOf(log[..i]), log[i]);
    TimelyDoesNotNotice(m, d, log[..i], log[i]);
  }

  lemma PrefixSteady(m: Merger, d: Disk, log: seq<Event>, n: nat)
    requires PointsTimed(log) && n <= |log|
    ensures Steady(m, d, log[..n])
  {
    forall i | 0 <= i < n && log[i].IncrementEvent? ensures !NoticesAt(m, d, log[..n], i) {
      PointsDoNotNotice(m, d, log, i);
      assert log[..n][..i] == log[..i];
    }
  }

  /**
    * Concurrency and sweeping together, answer by answer. In any interleaving a client is told what
    * the committed operations answer one at a time with no sweeper at all, except exactly where it
    * notices: never for a get or an increment, for a delete whose entry has been taken, and for a
    * listing with a taken entry before the end of its page.
    */
  lemma ConcurrentAnswers(m: Merger, stripe: Blob -> nat, s: State, schedule: seq<Choice>, i: nat)
    requires Initial(stripe, s) && i < |Run(m, stripe, s, schedule).log|
    ensures var f := Run(m, stripe, s, schedule);
            && |f.results| == |f.log|
            && (f.results[i] != CalmAnswer(m, s.disk, f.log, i) <==> NoticesAt(m, s.disk, f.log, i))
            && (NoticesAt(m, s.disk, f.log, i) ==> f.log[i].DeleteEvent? || f.log[i].ListEvent?)
  {
    var f := Run(m, stripe, s, schedule);
    RunKeepsInv(m, stripe, s, schedule);
    ResultAt(m, s.disk, f.log, i);
    PrefixSteady(m, s.disk, f.log, i);
    AnswerDiffersIfNoticed(m, s.disk, f.log[..i], f.log[i]);
    if !f.log[i].DeleteEvent? && !f.log[i].ListEvent? { PointsDoNotNotice(m, s.disk, f.log, i); }
  }

  /**
    * The whole run: the data is that of the unswept run without what was taken, all of it expired by
    * the clock, and the clients together see the unswept run exactly when no listing notices.
    */
  lemma ConcurrentRunsLookSerialAndUnswept(m: Merger, stripe: Blob -> nat, s: State, schedule: seq<Choice>)
    requires Initial(stripe, s)
    ensures var f := Run(m, stripe, s, schedule);
            var calm, taken := Calm(m, s.disk, f.log).data, Taken(m, s.disk, f.log);
            && |f.results| == |f.log|
            && f.disk.data == calm - taken
            && (forall k :: k in taken ==> k in calm && ExpiredAt(calm[k], f.clock))
            && (ClientView(f.log, f.results) == Observed(m, s.disk, WithoutSweeps(f.log))
                <==> forall i :: 0 <= i < |f.log| && f.log[i].ListEvent? ==> !NoticesAt(m, s.disk, f.log, i))
  {
    var f := Run(m, stripe, s, schedule);
    RunKeepsInv(m, stripe, s, schedule);
    LogLooksUnswept(m, s.disk, f.log);
    LogTakesOnlyExpired(m, s.disk, f.log, f.clock);
  }

  lemma LogLooksUnswept(m: Merger, d: Disk, log: seq<Event>)
    requires PointsTimed(log)
    ensures Replay(m, d, log).data == Calm(m, d, log).data - Taken(m, d, log)
    ensures |Results(m, d, log)| == |log|
    ensures ClientView(log, Results(m, d, log)) == Observed(m, d, WithoutSweeps(log))
            <==> forall i :: 0 <= i < |log| && log[i].ListEvent? ==> !NoticesAt(m, d, log, i)
  {
    ClientViewIsObserved(m, d, log);
    SweeperUnobservable(m, d, log);
    OnlyListsNotice(m, d, log);
    PrefixSteady(m, d, log, |log|);
    assert log[..|log|] == log;
    SweptIsCalmWithoutTaken(m, d, log);
  }

  lemma OnlyListsNotice(m: Merger, d: Disk, log: seq<Event>)
    requires PointsTimed(log)
    ensures Unnoticed(m, d, log) <==> forall i :: 0 <= i < |log| && log[i].ListEvent? ==> !NoticesAt(m, d, log, i)
  {
    if Unnoticed(m, d, log) {
      forall i | 0 <= i < |log| && log[i].ListEvent? ensures !NoticesAt(m, d, log, i) { assert BlindAt(m, d, log, i); }
    }
    if forall i :: 0 <= i < |log| && log[i].ListEvent? ==> !NoticesAt(m, d, log, i) {
      forall i | 0 <= i < |log| ensures BlindAt(m, d, log, i) {
        if !log[i].ListEvent? && !log[i].DeleteEvent? { PointsDoNotNotice(m, d, log, i); }
      }
    }
  }

  lemma LogTakesOnlyExpired(m: Merger, d: Disk, log: seq<Event>, clock: Instant)
    requires forall k :: NotAhead(log, k, clock)
    ensures var calm := Calm(m, d, log).data; forall k :: k in Taken(m, d, log) ==> k in calm && ExpiredAt(calm[k], clock)
  {
    var calm := Calm(m, d, log).data;
    forall k | k in Taken(m, d, log) ensures k in calm && ExpiredAt(calm[k], clock) {
      TakenWithinHorizon(m, d, log, k);
      assert NotAhead(log, k, clock);
      ExpiryTestsAgree(calm[k], clock);
    }
  }
}
