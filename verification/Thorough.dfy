/** What a sweeper has achieved when it is done, with everybody else at work around it. */
module Thorough {
  import opened Common
  import opened Bytes
  import opened Keyspaces
  import opened Layout
  import opened Counter
  import opened Time
  import opened StoreSpec
  import opened Sweep
  import opened Runs
  import opened Concurrency
  import opened Progress

  /** The sweeper has index key `x` still to treat. */
  ghost predicate Pending(th: Thread, x: Blob) {
    th.Sweeper? && exists p :: Ahead(th, x, p)
  }

  ghost predicate Ahead(th: Thread, x: Blob, p: nat)
    requires th.Sweeper?
  {
    th.pos <= p < |th.snapshot| && th.snapshot[p] == x && (p == th.pos ==> th.phase.Scanning? || th.phase.Locked?)
  }

  /** Sweeper `i` deals with every entry due at `nowTs`: while the index has (t, k), it has not passed it. */
  ghost predicate OnTrack(f: State, i: nat, nowTs: I64, t: I64, k: Blob) {
    && i < |f.threads| && f.threads[i].Sweeper? && f.threads[i].nowTs == nowTs
    && !f.threads[i].phase.Idle? && !f.threads[i].phase.Timed? && StrictlyAscending(f.threads[i].snapshot)
    && (ExpiryIndexKey(t, k) in f.disk.index ==> Pending(f.threads[i], ExpiryIndexKey(t, k)))
  }

  /** The last step was recorded as a client's write of `k`. */
  ghost predicate Rewrites(f: State, g: State, k: Blob) {
    |g.log| == |f.log| + 1 && k in Touched(g.log[|f.log|])
  }

  /** Nothing but a client's write of `k` brings its index keys back or changes its entry other than by removal. */
  ghost predicate KeepsAside(f: State, g: State, t: I64, k: Blob) {
    && (ExpiryIndexKey(t, k) in g.disk.index ==> ExpiryIndexKey(t, k) in f.disk.index)
    && (k in g.disk.data ==> k in f.disk.data && g.disk.data[k] == f.disk.data[k])
  }

  lemma CommitAside(m: Merger, stripe: Blob -> nat, f: State, j: nat, now: Instant, t: I64, k: Blob)
    requires j < |f.threads| && f.threads[j].Writer? && f.threads[j].pc.Ready? && Settled(f, f.threads[j]) && k != []
    ensures var g := MoveWriter(m, stripe, f, j, now).value; Rewrites(f, g, k) || KeepsAside(f, g, t, k)
  {
    var th := f.threads[j];
    var e := EventOf(th.job, th.pc.now);
    CommitIsEffect(m, f.disk, th.job, th.pc.now, th.pc.cell);
    EffectSplits(m, f.disk, f.disk, e);
    if k !in Touched(e) {
      EffectFrame(m, f.disk, e, k);
      var x := ExpiryIndexKey(t, k);
      ExpiryIndexKeyInverse(x, t, k);
      if x in Added(m, f.disk.data, e) { AddedBelongs(m, f.disk.data, e, x, t, k); }
      assert Lookup(Effect(m, f.disk, e).data, k) == Lookup(f.disk.data, k);
    }
  }

  lemma MoveAside(m: Merger, stripe: Blob -> nat, f: State, j: nat, now: Instant, later: Instant, t: I64, k: Blob)
    requires j < |f.threads| && Settled(f, f.threads[j]) && k != [] && Move(m, stripe, f, j, now, later).Some?
    ensures var g := Move(m, stripe, f, j, now, later).value;
            && g.threads == f.threads[j := g.threads[j]]
            && (Rewrites(f, g, k) || KeepsAside(f, g, t, k))
  {
    if f.threads[j].Writer? && f.threads[j].pc.Ready? { CommitAside(m, stripe, f, j, now, t, k); }
  }

  /** The sweeper's own step: it never skips a due key, and dropping one takes it out of the index. */
  lemma SweeperStaysOnTrack(stripe: Blob -> nat, f: State, i: nat, now: Instant, nowTs: I64, t: I64, k: Blob)
    requires OnTrack(f, i, nowTs, t, k) && t <= nowTs && k != [] && MoveSweeper(stripe, f, i, now).Some?
    ensures OnTrack(MoveSweeper(stripe, f, i, now).value, i, nowTs, t, k)
  {
    var g, th, x := MoveSweeper(stripe, f, i, now).value, f.threads[i], ExpiryIndexKey(t, k);
    ExpiryIndexKeyInverse(x, t, k);
    if x in g.disk.index {
      var p :| Ahead(th, x, p);
      if th.phase.Scanning? && Target(th).Some? && Target(th).value.0 > nowTs {
        NothingDueAfter(th.snapshot, th.pos, p, nowTs);
        assert false;
      }
      assert Ahead(g.threads[i], x, p);
    }
  }

  lemma StepStaysOnTrack(m: Merger, stripe: Blob -> nat, f: State, c: Choice, i: nat, nowTs: I64, t: I64, k: Blob)
    requires OnTrack(f, i, nowTs, t, k) && t <= nowTs && k != []
    requires c.thread < |f.threads| ==> Settled(f, f.threads[c.thread])
    ensures var g := Step(m, stripe, f, c); Rewrites(f, g, k) || (OnTrack(g, i, nowTs, t, k) && KeepsAside(f, g, t, k))
  {
    if c.thread < |f.threads| && f.clock <= c.now <= c.later && Move(m, stripe, f, c.thread, c.now, c.later).Some? {
      MoveAside(m, stripe, f, c.thread, c.now, c.later, t, k);
      if c.thread == i { SweeperStaysOnTrack(stripe, f, i, c.now, nowTs, t, k); }
    }
  }

  /** A client has written `k` after the first `n` events. */
  ghost predicate RewrittenSince(log: seq<Event>, n: nat, k: Blob) {
    exists j :: n <= j < |log| && k in Touched(log[j])
  }

  lemma StepExtendsLog(m: Merger, stripe: Blob -> nat, f: State, c: Choice)
    ensures f.log <= Step(m, stripe, f, c).log
  {
  }

  /** Sweeper `i` takes its snapshot at choice `n`. */
  ghost predicate SnapshotAt(m: Merger, stripe: Blob -> nat, s: State, schedule: seq<Choice>, n: nat, i: nat)
    requires n < |schedule|
  {
    var a, b := Run(m, stripe, s, schedule[..n]), Run(m, stripe, s, schedule[..n + 1]);
    i < |a.threads| && a.threads[i].Sweeper? && a.threads[i].phase.Timed? && i < |b.threads| && b.threads[i].Sweeper? && b.threads[i].phase.Scanning?
  }

  lemma SnapshotOnTrack(m: Merger, stripe: Blob -> nat, a: State, c: Choice, i: nat, t: I64, k: Blob)
    requires i < |a.threads| && a.threads[i].Sweeper? && a.threads[i].phase.Timed?
    requires var b := Step(m, stripe, a, c); i < |b.threads| && b.threads[i].Sweeper? && b.threads[i].phase.Scanning?
    ensures var b := Step(m, stripe, a, c);
            OnTrack(b, i, a.threads[i].nowTs, t, k) && b.disk == a.disk && b.log == a.log
  {
    var b, x := Step(m, stripe, a, c), ExpiryIndexKey(t, k);
    assert c.thread == i by { if c.thread != i { StepKeepsOthers(m, stripe, a, c, i); } }
    SortedAscends(a.disk.index);
    if x in a.disk.index {
      var p :| 0 <= p < |Sorted(a.disk.index)| && Sorted(a.disk.index)[p] == x;
      assert Ahead(b.threads[i], x, p);
    }
  }

  lemma StepKeepsOthers(m: Merger, stripe: Blob -> nat, f: State, c: Choice, i: nat)
    requires i < |f.threads| && c.thread != i
    ensures |Step(m, stripe, f, c).threads| == |f.threads| && Step(m, stripe, f, c).threads[i] == f.threads[i]
  {
  }

  /** From the snapshot on, until a client writes `k`, its entry is the old one or gone. */
  ghost predicate Watched(f: State, i: nat, nowTs: I64, k: Blob, e: Entry) {
    && e.expires.Some? && OnTrack(f, i, nowTs, e.expires.value, k)
    && (k in f.disk.data ==> f.disk.data[k] == e)
  }

  /** In `a` the entry under `k` is due at sweeper `i`'s timestamp. */
  ghost predicate DueFor(a: State, i: nat, k: Blob) {
    && i < |a.threads| && a.threads[i].Sweeper? && k != []
    && k in a.disk.data && ExpiredBySecond(a.disk.data[k], a.threads[i].nowTs)
  }

  /** Between snapshot state `a` and state `f`. */
  ghost predicate DealtWith(a: State, f: State, i: nat, k: Blob)
    requires DueFor(a, i, k)
  {
    a.log <= f.log && (RewrittenSince(f.log, |a.log|, k) || Watched(f, i, a.threads[i].nowTs, k, a.disk.data[k]))
  }

  lemma {:induction false} RunStaysWatched(m: Merger, stripe: Blob -> nat, s: State, schedule: seq<Choice>, n: nat, i: nat, k: Blob)
    requires Initial(stripe, s) && n < |schedule| && SnapshotAt(m, stripe, s, schedule, n, i)
    requires DueFor(Run(m, stripe, s, schedule[..n]), i, k)
    ensures DealtWith(Run(m, stripe, s, schedule[..n]), Run(m, stripe, s, schedule), i, k)
    decreases |schedule|
  {
    var last := |schedule| - 1;
    var a := Run(m, stripe, s, schedule[..n]);
    if last == n {
      assert schedule[..n + 1] == schedule;
      SnapshotDealsWith(m, stripe, a, schedule[n], i, k);
    } else {
      assert schedule[..last][..n] == schedule[..n] && schedule[..last][..n + 1] == schedule[..n + 1];
      RunStaysWatched(m, stripe, s, schedule[..last], n, i, k);
      RunSettles(m, stripe, s, schedule[..last]);
      DealtWithStep(m, stripe, a, Run(m, stripe, s, schedule[..last]), schedule[last], i, k);
    }
  }

  lemma SnapshotDealsWith(m: Merger, stripe: Blob -> nat, a: State, c: Choice, i: nat, k: Blob)
    requires DueFor(a, i, k) && a.threads[i].phase.Timed?
    requires var b := Step(m, stripe, a, c); i < |b.threads| && b.threads[i].Sweeper? && b.threads[i].phase.Scanning?
    ensures DealtWith(a, Step(m, stripe, a, c), i, k)
  {
    SnapshotOnTrack(m, stripe, a, c, i, a.disk.data[k].expires.value, k);
  }

  lemma DealtWithStep(m: Merger, stripe: Blob -> nat, a: State, g: State, c: Choice, i: nat, k: Blob)
    requires DueFor(a, i, k) && DealtWith(a, g, i, k) && AllSettled(g)
    ensures DealtWith(a, Step(m, stripe, g, c), i, k)
  {
    WatchedStep(m, stripe, g, c, i, a.threads[i].nowTs, k, a.disk.data[k], |a.log|);
  }

  lemma WatchedStep(m: Merger, stripe: Blob -> nat, g: State, c: Choice, i: nat, nowTs: I64, k: Blob, e: Entry, n: nat)
    requires n <= |g.log| && k != [] && ExpiredBySecond(e, nowTs)
    requires AllSettled(g)
    requires RewrittenSince(g.log, n, k) || Watched(g, i, nowTs, k, e)
    ensures var f := Step(m, stripe, g, c); g.log <= f.log && (RewrittenSince(f.log, n, k) || Watched(f, i, nowTs, k, e))
  {
    var f := Step(m, stripe, g, c);
    StepExtendsLog(m, stripe, g, c);
    if j :| n <= j < |g.log| && k in Touched(g.log[j]) {
      assert f.log[j] == g.log[j];
    } else {
      StepStaysOnTrack(m, stripe, g, c, i, nowTs, e.expires.value, k);
    }
  }

  /**
    * Completeness in any interleaving: when a sweeper is done, every entry that was due at its
    * timestamp when it took its snapshot is gone or has been written again since, or another
    * sweeper is in the middle of removing it.
    */
  lemma FinishedSweepIsComplete(m: Merger, stripe: Blob -> nat, s: State, schedule: seq<Choice>, n: nat, i: nat, k: Blob)
    requires Initial(stripe, s) && n < |schedule| && SnapshotAt(m, stripe, s, schedule, n, i)
    requires i < |Run(m, stripe, s, schedule).threads| && Finished(Run(m, stripe, s, schedule).threads[i])
    requires var a := Run(m, stripe, s, schedule[..n]);
             k in a.disk.data && ExpiredBySecond(a.disk.data[k], a.threads[i].nowTs)
    ensures var a, f := Run(m, stripe, s, schedule[..n]), Run(m, stripe, s, schedule);
            || k !in f.disk.data
            || RewrittenSince(f.log, |a.log|, k)
            || InFlight(f.threads, ExpiryIndexKey(a.disk.data[k].expires.value, k))
  {
    var a, f := Run(m, stripe, s, schedule[..n]), Run(m, stripe, s, schedule);
    StoresNoEmptyKey(m, stripe, s, schedule[..n]);
    RunStaysWatched(m, stripe, s, schedule, n, i, k);
    IndexCompleteBetweenSteps(m, stripe, s, schedule, k);
  }

  lemma StoresNoEmptyKey(m: Merger, stripe: Blob -> nat, s: State, schedule: seq<Choice>)
    requires Initial(stripe, s)
    ensures [] !in Run(m, stripe, s, schedule).disk.data
  {
    RunKeepsInv(m, stripe, s, schedule);
    ReplayKeepsIndexed(m, s.disk, Run(m, stripe, s, schedule).log);
  }

  /** The repository runs one sweep at a time, and then nothing due at the snapshot outlives it unwritten. */
  lemma OnlySweeperIsComplete(m: Merger, stripe: Blob -> nat, s: State, schedule: seq<Choice>, n: nat, i: nat, k: Blob)
    requires Initial(stripe, s) && n < |schedule| && SnapshotAt(m, stripe, s, schedule, n, i)
    requires i < |Run(m, stripe, s, schedule).threads| && Finished(Run(m, stripe, s, schedule).threads[i])
    requires forall j :: 0 <= j < |s.threads| && j != i ==> !s.threads[j].Sweeper?
    requires var a := Run(m, stripe, s, schedule[..n]);
             k in a.disk.data && ExpiredBySecond(a.disk.data[k], a.threads[i].nowTs)
    ensures var a, f := Run(m, stripe, s, schedule[..n]), Run(m, stripe, s, schedule);
            k !in f.disk.data || RewrittenSince(f.log, |a.log|, k)
  {
    var f := Run(m, stripe, s, schedule);
    FinishedSweepIsComplete(m, stripe, s, schedule, n, i, k);
    forall j | 0 <= j < |f.threads| ensures !MidStep(f.threads[j]) { KindsStay(m, stripe, s, schedule, j); }
  }

  lemma {:induction false} KindsStay(m: Merger, stripe: Blob -> nat, s: State, schedule: seq<Choice>, j: nat)
    ensures var f := Run(m, stripe, s, schedule);
            |f.threads| == |s.threads| && (j < |s.threads| ==> f.threads[j].Sweeper? == s.threads[j].Sweeper?)
    decreases |schedule|
  {
    if schedule != [] {
      var n := |schedule| - 1;
      KindsStay(m, stripe, s, schedule[..n], j);
      KindStays(m, stripe, Run(m, stripe, s, schedule[..n]), schedule[n], j);
    }
  }

  lemma KindStays(m: Merger, stripe: Blob -> nat, f: State, c: Choice, j: nat)
    ensures var g := Step(m, stripe, f, c);
            |g.threads| == |f.threads| && (j < |f.threads| ==> g.threads[j].Sweeper? == f.threads[j].Sweeper?)
  {
  }
}
