/** Liveness of the locking protocol: no deadlock, and every schedule comes to an end. */
module Progress {
  import opened Common
  import opened Bytes
  import opened Counter
  import opened Time
  import opened StoreSpec
  import opened Locks
  import opened Concurrency

  predicate Finished(th: Thread) {
    match th
    case Writer(_, plan, pc) => pc.Releasing? && pc.next >= |plan|
    case Reader(_, answer) => answer.Some?
    case Lister(_, _, stage) => stage.Shown?
    case Sweeper(_, snapshot, pos, phase) => phase.Scanning? && pos >= |snapshot|
  }

  /** The stripe a thread would block on. */
  function Wants(stripe: Blob -> nat, th: Thread): Option<nat> {
    match th
    case Writer(_, plan, Acquiring(n)) => if n < |plan| then Some(plan[n]) else None
    case Sweeper(nowTs, _, _, Scanning) =>
      if Target(th).Some? && Target(th).value.0 <= nowTs then Some(stripe(Target(th).value.1)) else None
    case _ => None
  }

  ghost predicate Enabled(m: Merger, stripe: Blob -> nat, s: State, i: nat) {
    i < |s.threads| && Move(m, stripe, s, i, s.clock, s.clock).Some?
  }

  lemma MovesUnlessBlocked(m: Merger, stripe: Blob -> nat, s: State, i: nat)
    requires i < |s.threads| && ThreadOk(stripe, s.threads[i]) && !Finished(s.threads[i])
    ensures Enabled(m, stripe, s, i)
            || (Wants(stripe, s.threads[i]).Some? && !Free(stripe, s, Wants(stripe, s.threads[i]).value))
  {
  }

  /** Whoever holds a stripe is not finished, and if it waits, it waits for a higher one. */
  lemma HolderWaitsHigher(stripe: Blob -> nat, th: Thread, x: nat)
    requires ThreadOk(stripe, th) && Holds(stripe, th, x)
    ensures !Finished(th)
    ensures Wants(stripe, th).Some? ==> Wants(stripe, th).value > x
  {
    if th.Writer? && th.pc.Acquiring? && th.pc.next < |th.plan| {
      var j :| 0 <= j < th.pc.next && th.plan[j] == x;
    }
  }

  lemma WantsBounded(stripe: Blob -> nat, th: Thread)
    requires ThreadOk(stripe, th) && Wants(stripe, th).Some?
    requires forall k :: stripe(k) < WRITE_LOCK_STRIPES
    ensures Wants(stripe, th).value < WRITE_LOCK_STRIPES
  {
    if th.Writer? {
      assert th.plan[th.pc.next] in th.plan;
    }
  }

  /** Following the holder of the wanted stripe climbs the stripe order, so it reaches a thread that can move. */
  lemma {:induction false} SomeoneMoves(m: Merger, stripe: Blob -> nat, s: State, i: nat) returns (j: nat)
    requires forall n :: 0 <= n < |s.threads| ==> ThreadOk(stripe, s.threads[n])
    requires forall k :: stripe(k) < WRITE_LOCK_STRIPES
    requires i < |s.threads| && !Finished(s.threads[i])
    ensures Enabled(m, stripe, s, j)
    decreases if Wants(stripe, s.threads[i]).Some? then WRITE_LOCK_STRIPES - Wants(stripe, s.threads[i]).value else WRITE_LOCK_STRIPES + 1
  {
    if Enabled(m, stripe, s, i) { return i; }
    MovesUnlessBlocked(m, stripe, s, i);
    var w := Wants(stripe, s.threads[i]).value;
    WantsBounded(stripe, s.threads[i]);
    var holder :| 0 <= holder < |s.threads| && Holds(stripe, s.threads[holder], w);
    HolderWaitsHigher(stripe, s.threads[holder], w);
    if Enabled(m, stripe, s, holder) { return holder; }
    MovesUnlessBlocked(m, stripe, s, holder);
    WantsBounded(stripe, s.threads[holder]);
    j := SomeoneMoves(m, stripe, s, holder);
  }

  /** No deadlock: a reachable state with an unfinished thread has a thread that can move. */
  lemma NoDeadlock(m: Merger, stripe: Blob -> nat, s: State, schedule: seq<Choice>)
    requires Initial(stripe, s) && forall k :: stripe(k) < WRITE_LOCK_STRIPES
    ensures var f := Run(m, stripe, s, schedule);
            (forall i :: 0 <= i < |f.threads| ==> Finished(f.threads[i])) || exists j :: Enabled(m, stripe, f, j)
  {
    var f := Run(m, stripe, s, schedule);
    RunKeepsInv(m, stripe, s, schedule);
    if i :| 0 <= i < |f.threads| && !Finished(f.threads[i]) {
      var j := SomeoneMoves(m, stripe, f, i);
    }
  }

  // ---- termination ------------------------------------------------------------------------------

  /** Steps before a sweeper knows how much there is to scan. */
  function Unread(th: Thread): nat {
    if th.Sweeper? && th.phase.Idle? then 2 else if th.Sweeper? && th.phase.Timed? then 1 else 0
  }

  /** Steps left to a thread, once its work is known. */
  function Work(th: Thread): nat {
    match th
    case Writer(_, plan, Acquiring(n)) => if n <= |plan| then 2 * |plan| - n + 3 else 0
    case Writer(_, plan, Clocked(_)) => |plan| + 2
    case Writer(_, plan, Ready(_, _)) => |plan| + 1
    case Writer(_, plan, Releasing(n, _)) => if n <= |plan| then |plan| - n else 0
    case Reader(_, answer) => if answer.Some? then 0 else 1
    case Lister(_, _, stage) => (match stage case Asked => 2 case Cut(_) => 1 case Shown(_) => 0)
    case Sweeper(_, snapshot, pos, phase) =>
      if pos >= |snapshot| then 0
      else
        6 * (|snapshot| - pos)
        - match phase case Locked => 1 case Dropped => 2 case Decided(_) => 3 case Unlocking => 4 case _ => 0
  }

  function Sum(ts: seq<Thread>, f: Thread -> nat): nat {
    if ts == [] then 0 else f(ts[0]) + Sum(ts[1..], f)
  }

  lemma {:induction false} SumUpdate(ts: seq<Thread>, i: nat, th: Thread, f: Thread -> nat)
    requires i < |ts|
    ensures Sum(ts[i := th], f) == Sum(ts, f) - f(ts[i]) + f(th)
  {
    if i == 0 {
      assert ts[0 := th][1..] == ts[1..];
    } else {
      assert ts[i := th][1..] == ts[1..][i - 1 := th];
      SumUpdate(ts[1..], i - 1, th, f);
    }
  }

  /** Less to read, or as much to read and less to do. */
  predicate Closer(th': Thread, th: Thread) {
    Unread(th') < Unread(th) || (Unread(th') == Unread(th) && Work(th') < Work(th))
  }

  lemma WriterShrinks(m: Merger, stripe: Blob -> nat, s: State, i: nat, now: Instant)
    requires i < |s.threads| && s.threads[i].Writer? && ThreadOk(stripe, s.threads[i]) && MoveWriter(m, stripe, s, i, now).Some?
    ensures var g := MoveWriter(m, stripe, s, i, now).value;
            g.threads == s.threads[i := g.threads[i]] && Closer(g.threads[i], s.threads[i])
  {
  }

  lemma SweeperShrinks(stripe: Blob -> nat, s: State, i: nat, now: Instant)
    requires i < |s.threads| && s.threads[i].Sweeper? && MoveSweeper(stripe, s, i, now).Some?
    ensures var g := MoveSweeper(stripe, s, i, now).value;
            g.threads == s.threads[i := g.threads[i]] && Closer(g.threads[i], s.threads[i])
  {
  }

  lemma MoveShrinks(m: Merger, stripe: Blob -> nat, s: State, i: nat, now: Instant, later: Instant)
    requires i < |s.threads| && ThreadOk(stripe, s.threads[i]) && Move(m, stripe, s, i, now, later).Some?
    ensures var g := Move(m, stripe, s, i, now, later).value;
            g.threads == s.threads[i := g.threads[i]] && Closer(g.threads[i], s.threads[i])
  {
    match s.threads[i]
    case Writer(_, _, _) => WriterShrinks(m, stripe, s, i, now);
    case Sweeper(_, _, _, _) => SweeperShrinks(stripe, s, i, now);
    case _ =>
  }

  ghost predicate Follows(m: Merger, stripe: Blob -> nat, s: State, g: State, c: Choice) {
    && c.thread < |s.threads| && s.clock <= c.now <= c.later
    && Move(m, stripe, s, c.thread, c.now, c.later) == Some(g)
  }

  /** `g` is reached from `s` by one enabled step. */
  ghost predicate Moves(m: Merger, stripe: Blob -> nat, s: State, g: State) {
    exists c :: Follows(m, stripe, s, g, c)
  }

  lemma {:induction false} Descends(m: Merger, stripe: Blob -> nat, d0: Disk, run: nat -> State, n: nat)
    requires Inv(m, stripe, d0, run(n))
    ensures exists at :: at >= n && !Moves(m, stripe, run(at), run(at + 1))
    decreases Sum(run(n).threads, Unread), Sum(run(n).threads, Work)
  {
    var s, g := run(n), run(n + 1);
    if Moves(m, stripe, s, g) {
      var c :| Follows(m, stripe, s, g, c);
      assert g == Step(m, stripe, s, c);
      StepKeepsInv(m, stripe, d0, s, c);
      MoveShrinks(m, stripe, s, c.thread, c.now, c.later);
      SumUpdate(s.threads, c.thread, g.threads[c.thread], Unread);
      SumUpdate(s.threads, c.thread, g.threads[c.thread], Work);
      Descends(m, stripe, d0, run, n + 1);
    }
  }

  /** Every schedule terminates: no infinite sequence of enabled steps exists. */
  lemma EveryScheduleEnds(m: Merger, stripe: Blob -> nat, run: nat -> State)
    requires Initial(stripe, run(0))
    ensures exists at: nat :: !Moves(m, stripe, run(at), run(at + 1))
  {
    InitialInv(m, stripe, run(0));
    Descends(m, stripe, run(0).disk, run, 0);
  }
}
