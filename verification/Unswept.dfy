/** A run beside the same run without its sweep steps: which entries are missing, and who can tell. */
module Unswept {
  import opened Common
  import opened Bytes
  import opened Layout
  import opened Counter
  import opened Time
  import opened StoreSpec
  import opened Listing
  import opened Runs

  /** The store as the log leaves it when nothing is ever swept. */
  function Calm(m: Merger, d: Disk, log: seq<Event>): Disk { Replay(m, d, WithoutSweeps(log)) }

  /** The key whose entry a sweep step finds due. */
  function Claimed(data: map<Blob, Entry>, indexKey: Blob, nowTs: I64): set<Blob> {
    match ParseExpiryIndexKey(indexKey)
    case None => {}
    case Some((t, k)) => if Due(Lookup(data, k), t, nowTs) then {k} else {}
  }

  /** Keys a client event writes; a rejected increment writes nothing. */
  function Written(m: Merger, data: map<Blob, Entry>, e: Event): set<Blob> {
    if e.IncrementEvent? && CounterResult(m, Lookup(data, e.key), e.op, e.now).Err? then {} else Touched(e)
  }

  /** Keys whose unswept entry has been found due by a sweep step since it was written. */
  function Taken(m: Merger, d: Disk, log: seq<Event>): set<Blob>
    decreases |log|
  {
    if log == [] then {}
    else
      var init, e := log[..|log| - 1], log[|log| - 1];
      if e.SweepEvent? then Taken(m, d, init) + Claimed(Calm(m, d, init).data, e.indexKey, e.nowTs)
      else Taken(m, d, init) - Written(m, Calm(m, d, init).data, e)
  }

  /** A client event whose answer on `data` changes when the entries under `taken` are missing. */
  ghost predicate Notices(m: Merger, data: map<Blob, Entry>, taken: set<Blob>, e: Event) {
    match e
    case DeleteEvent(k) => k in taken
    case GetEvent(k, now) => k in taken && LiveEntry(Lookup(data, k), now).Some?
    case IncrementEvent(k, op, _, now) => k in taken && CounterResult(m, None, op, now) != CounterResult(m, Lookup(data, k), op, now)
    case ListEvent(bucket, opts) => PageMeets(data, taken, bucket, opts)
    case _ => false
  }

  /** Event `i` of the log can tell that the store has been swept. */
  ghost predicate NoticesAt(m: Merger, d: Disk, log: seq<Event>, i: nat)
    requires i < |log|
  {
    Notices(m, Calm(m, d, log[..i]).data, Taken(m, d, log[..i]), log[i])
  }

  /** No increment writes a different number because of a sweep. */
  ghost predicate Steady(m: Merger, d: Disk, log: seq<Event>) {
    forall i :: 0 <= i < |log| && log[i].IncrementEvent? ==> !NoticesAt(m, d, log, i)
  }

  // ---- the swept store is the unswept one without what was taken -------------------------------

  lemma PrefixOfInit(log: seq<Event>, i: nat)
    requires i < |log|
    ensures log[..|log| - 1][..i] == log[..i]
  {
  }

  lemma NoticesInInit(m: Merger, d: Disk, log: seq<Event>, i: nat)
    requires i < |log| - 1
    ensures NoticesAt(m, d, log[..|log| - 1], i) == NoticesAt(m, d, log, i)
  {
    PrefixOfInit(log, i);
  }

  lemma SteadyInit(m: Merger, d: Disk, log: seq<Event>)
    requires log != [] && Steady(m, d, log)
    ensures Steady(m, d, log[..|log| - 1])
  {
    var init := log[..|log| - 1];
    forall i | 0 <= i < |init| && init[i].IncrementEvent? ensures !NoticesAt(m, d, init, i) {
      NoticesInInit(m, d, log, i);
    }
  }

  lemma CalmSnoc(m: Merger, d: Disk, log: seq<Event>)
    requires log != []
    ensures var init, e := log[..|log| - 1], log[|log| - 1];
            Calm(m, d, log) == (if e.SweepEvent? then Calm(m, d, init) else Effect(m, Calm(m, d, init), e))
  {
    var init, e := log[..|log| - 1], log[|log| - 1];
    if e.SweepEvent? {
      assert WithoutSweeps(log) == WithoutSweeps(init);
    } else {
      ReplaySnoc(m, d, WithoutSweeps(init), e);
    }
  }

  lemma WrittenFrame(m: Merger, d: Disk, e: Event, k: Blob)
    requires !e.SweepEvent? && k !in Written(m, d.data, e)
    ensures Lookup(Effect(m, d, e).data, k) == Lookup(d.data, k)
  {
    if k !in Touched(e) { EffectFrame(m, d, e, k); }
  }

  /** A key whose entry is expired within the sweeper's horizon. */
  predicate Overdue(data: map<Blob, Entry>, z: Horizon, k: Blob) { k in z && k in data && ExpiredBySecond(data[k], z[k]) }

  lemma SweepKeepsOverdue(data: map<Blob, Entry>, z: Horizon, x: Blob, nowTs: I64, k: Blob)
    requires Overdue(data, z, k) || k in Claimed(data, x, nowTs)
    ensures Overdue(data, After(z, SweepEvent(x, nowTs)), k)
  {
  }

  lemma EventKeepsOverdue(m: Merger, u: Disk, z: Horizon, e: Event, k: Blob)
    requires Overdue(u.data, z, k) && !e.SweepEvent? && k !in Written(m, u.data, e)
    ensures Overdue(Effect(m, u, e).data, After(z, e), k)
  {
    WrittenFrame(m, u, e, k);
    assert Lookup(Effect(m, u, e).data, k) == Some(u.data[k]);
  }

  /** What has been taken is an expiring entry of the unswept store, due within the sweeper's horizon. */
  lemma {:induction false} TakenWithinHorizon(m: Merger, d: Disk, log: seq<Event>, k: Blob)
    requires k in Taken(m, d, log)
    ensures Overdue(Calm(m, d, log).data, HorizonOf(log), k)
    decreases |log|
  {
    var init, e := log[..|log| - 1], log[|log| - 1];
    CalmSnoc(m, d, log);
    if k in Taken(m, d, init) { TakenWithinHorizon(m, d, init, k); }
    if e.SweepEvent? {
      SweepKeepsOverdue(Calm(m, d, init).data, HorizonOf(init), e.indexKey, e.nowTs, k);
    } else {
      EventKeepsOverdue(m, Calm(m, d, init), HorizonOf(init), e, k);
    }
  }

  lemma {:induction false} WritesOnBoth(d: Disk, u: Disk, taken: set<Blob>, ws: seq<Write>, k: Blob)
    requires forall x :: Lookup(d.data, x) == (if x in taken then None else Lookup(u.data, x))
    ensures Lookup(ApplyWrites(d, ws).data, k) == (if k in taken - WriteKeys(ws) then None else Lookup(ApplyWrites(u, ws).data, k))
    decreases |ws|
  {
    if ws != [] {
      WritesOnBoth(ApplyWrite(d, ws[0]), ApplyWrite(u, ws[0]), taken - {ws[0].key}, ws[1..], k);
      assert WriteKeys(ws) == {ws[0].key} + WriteKeys(ws[1..]) by {
        forall i | 0 < i < |ws| ensures ws[i].key in WriteKeys(ws[1..]) { assert ws[i] == ws[1..][i - 1]; }
        forall x | x in WriteKeys(ws[1..]) ensures x in WriteKeys(ws) {
          var i :| 0 <= i < |ws[1..]| && ws[1..][i].key == x;
          assert ws[i + 1].key == x;
        }
      }
    }
  }

  lemma EventOnBoth(m: Merger, d: Disk, u: Disk, taken: set<Blob>, e: Event, k: Blob)
    requires !e.SweepEvent? && (e.IncrementEvent? ==> !Notices(m, u.data, taken, e))
    requires forall x :: Lookup(d.data, x) == (if x in taken then None else Lookup(u.data, x))
    ensures Lookup(Effect(m, d, e).data, k)
            == (if k in taken - Written(m, u.data, e) then None else Lookup(Effect(m, u, e).data, k))
  {
    match e
    case BatchEvent(ws) => WritesOnBoth(d, u, taken, ws, k);
    case IncrementEvent(x, op, expires, now) => assert Lookup(d.data, x) == (if x in taken then None else Lookup(u.data, x));
    case _ =>
  }

  lemma {:induction false} CellOfRun(m: Merger, d: Disk, log: seq<Event>, k: Blob)
    requires Steady(m, d, log)
    ensures Lookup(Replay(m, d, log).data, k)
            == (if k in Taken(m, d, log) then None else Lookup(Calm(m, d, log).data, k))
    decreases |log|
  {
    if log != [] {
      var init, e := log[..|log| - 1], log[|log| - 1];
      SteadyInit(m, d, log);
      CalmSnoc(m, d, log);
      var s, u, taken := Replay(m, d, init), Calm(m, d, init), Taken(m, d, init);
      forall x ensures Lookup(s.data, x) == (if x in taken then None else Lookup(u.data, x)) { CellOfRun(m, d, init, x); }
      if !e.SweepEvent? {
        assert e.IncrementEvent? ==> !NoticesAt(m, d, log, |log| - 1);
        EventOnBoth(m, s, u, taken, e, k);
      }
    }
  }

  /** Sweeping removes exactly what it has taken; every other entry is that of the unswept run. */
  lemma SweptIsCalmWithoutTaken(m: Merger, d: Disk, log: seq<Event>)
    requires Steady(m, d, log)
    ensures Replay(m, d, log).data == Calm(m, d, log).data - Taken(m, d, log)
  {
    var s, r := Replay(m, d, log).data, Calm(m, d, log).data - Taken(m, d, log);
    forall k ensures Lookup(s, k) == Lookup(r, k) { CellOfRun(m, d, log, k); }
    assert forall k :: k in s <==> Lookup(s, k).Some?;
    assert forall k :: k in r <==> Lookup(r, k).Some?;
  }

  /** Event `i` is a client's write of `k`. */
  predicate WritesAt(m: Merger, d: Disk, log: seq<Event>, i: nat, k: Blob)
    requires i < |log|
  {
    !log[i].SweepEvent? && k in Written(m, Calm(m, d, log[..i]).data, log[i])
  }

  /** Event `j` is a sweep step that finds the unswept entry of `k` due. */
  predicate ClaimsAt(m: Merger, d: Disk, log: seq<Event>, j: nat, k: Blob)
    requires j < |log|
  {
    log[j].SweepEvent? && k in Claimed(Calm(m, d, log[..j]).data, log[j].indexKey, log[j].nowTs)
  }

  /** Taken means: some sweep step found the unswept entry due, and no client has written the key since. */
  ghost predicate TakenSince(m: Merger, d: Disk, log: seq<Event>, k: Blob, j: nat)
    requires j < |log|
  {
    ClaimsAt(m, d, log, j, k) && forall i :: j < i < |log| ==> !WritesAt(m, d, log, i, k)
  }

  lemma TakenSinceSnoc(m: Merger, d: Disk, log: seq<Event>, k: Blob, j: nat)
    requires j < |log| - 1
    ensures TakenSince(m, d, log, k, j) <==> TakenSince(m, d, log[..|log| - 1], k, j) && !WritesAt(m, d, log, |log| - 1, k)
  {
    var init := log[..|log| - 1];
    forall i | 0 <= i < |init| ensures WritesAt(m, d, init, i, k) == WritesAt(m, d, log, i, k) { PrefixOfInit(log, i); }
    PrefixOfInit(log, j);
  }

  lemma {:induction false} TakenMeans(m: Merger, d: Disk, log: seq<Event>, k: Blob)
    ensures k in Taken(m, d, log) <==> exists j :: 0 <= j < |log| && TakenSince(m, d, log, k, j)
    decreases |log|
  {
    if log != [] {
      var n := |log| - 1;
      var init, e := log[..n], log[n];
      TakenMeans(m, d, init, k);
      if k in Taken(m, d, log) {
        if k in Taken(m, d, init) {
          var j :| 0 <= j < n && TakenSince(m, d, init, k, j);
          TakenSinceSnoc(m, d, log, k, j);
        } else {
          assert TakenSince(m, d, log, k, n);
        }
      } else if j :| 0 <= j <= n && TakenSince(m, d, log, k, j) {
        if j < n { TakenSinceSnoc(m, d, log, k, j); }
        assert false;
      }
    }
  }

  // ---- who can tell ------------------------------------------------------------------------------

  /** The answer to `e` after the run differs from the unswept answer exactly when `e` notices. */
  lemma AnswerDiffersIfNoticed(m: Merger, d: Disk, log: seq<Event>, e: Event)
    requires Steady(m, d, log)
    ensures OutcomeOf(m, Replay(m, d, log), e) != OutcomeOf(m, Calm(m, d, log), e)
            <==> Notices(m, Calm(m, d, log).data, Taken(m, d, log), e)
  {
    var u, taken := Calm(m, d, log).data, Taken(m, d, log);
    SweptIsCalmWithoutTaken(m, d, log);
    match e
    case ListEvent(bucket, opts) => ListNoticesMissing(u, taken, bucket, opts);
    case DeleteEvent(k) => if k in taken { TakenWithinHorizon(m, d, log, k); }
    case _ =>
  }

  /** No get, listing or increment of the log notices. */
  ghost predicate Unnoticed(m: Merger, d: Disk, log: seq<Event>) {
    forall i :: 0 <= i < |log| ==> BlindAt(m, d, log, i)
  }

  ghost predicate BlindAt(m: Merger, d: Disk, log: seq<Event>, i: nat)
    requires i < |log|
  {
    log[i].DeleteEvent? || !NoticesAt(m, d, log, i)
  }

  lemma UnnoticedIsSteady(m: Merger, d: Disk, log: seq<Event>)
    requires Unnoticed(m, d, log)
    ensures Steady(m, d, log)
  {
    forall i | 0 <= i < |log| && log[i].IncrementEvent? ensures !NoticesAt(m, d, log, i) { assert BlindAt(m, d, log, i); }
  }

  lemma {:induction false} SameLength(m: Merger, d: Disk, log: seq<Event>)
    ensures |Observed(m, d, log)| == |Observed(m, d, WithoutSweeps(log))|
    decreases |log|
  {
    if log != [] {
      var init, e := log[..|log| - 1], log[|log| - 1];
      SameLength(m, d, init);
      ObservedSnoc(m, d, log);
    }
  }

  lemma ObservedSnoc(m: Merger, d: Disk, log: seq<Event>)
    requires log != []
    ensures var init, e := log[..|log| - 1], log[|log| - 1];
            && Observed(m, d, log) == Observed(m, d, init) + Seen(e, OutcomeOf(m, Replay(m, d, init), e))
            && Observed(m, d, WithoutSweeps(log)) == Observed(m, d, WithoutSweeps(init)) + Seen(e, OutcomeOf(m, Calm(m, d, init), e))
  {
    var calm, e := WithoutSweeps(log[..|log| - 1]), log[|log| - 1];
    if e.SweepEvent? {
      assert WithoutSweeps(log) == calm;
    } else {
      assert WithoutSweeps(log) == calm + [e] && (calm + [e])[..|calm|] == calm;
    }
  }

  /**
    * When the sweeper is unobservable. Whatever sweep steps a run contains, all gets, listings and
    * increments are answered as without them exactly when none of them notices a taken entry.
    */
  lemma {:induction false} SweeperUnobservable(m: Merger, d: Disk, log: seq<Event>)
    ensures Observed(m, d, log) == Observed(m, d, WithoutSweeps(log)) <==> Unnoticed(m, d, log)
    decreases |log|
  {
    if log != [] {
      var n := |log| - 1;
      var init, e := log[..n], log[n];
      SweeperUnobservable(m, d, init);
      SameLength(m, d, init);
      ObservedSnoc(m, d, log);
      UnnoticedSnoc(m, d, log);
      if Unnoticed(m, d, init) {
        UnnoticedIsSteady(m, d, init);
        AnswerDiffersIfNoticed(m, d, init, e);
      }
      ConcatInjective(Observed(m, d, init), Observed(m, d, WithoutSweeps(init)),
                      Seen(e, OutcomeOf(m, Replay(m, d, init), e)), Seen(e, OutcomeOf(m, Calm(m, d, init), e)));
    }
  }

  lemma UnnoticedSnoc(m: Merger, d: Disk, log: seq<Event>)
    requires log != []
    ensures Unnoticed(m, d, log) <==> Unnoticed(m, d, log[..|log| - 1]) && BlindAt(m, d, log, |log| - 1)
  {
    var init := log[..|log| - 1];
    forall i | 0 <= i < |init| ensures BlindAt(m, d, init, i) == BlindAt(m, d, log, i) { NoticesInInit(m, d, log, i); }
  }

  lemma ConcatInjective<T>(a: seq<T>, b: seq<T>, x: seq<T>, y: seq<T>)
    requires |a| == |b|
    ensures a + x == b + y <==> a == b && x == y
  {
    assert a == (a + x)[..|a|] && b == (b + y)[..|b|];
    assert x == (a + x)[|a|..] && y == (b + y)[|b|..];
  }

  // ---- clocks ------------------------------------------------------------------------------------

  /** A client whose clock is not behind what has been swept notices nothing, unless it deletes. */
  lemma TimelyDoesNotNotice(m: Merger, d: Disk, log: seq<Event>, e: Event)
    requires Timely(HorizonOf(log), e) && !e.DeleteEvent?
    ensures !Notices(m, Calm(m, d, log).data, Taken(m, d, log), e)
  {
    var u, taken := Calm(m, d, log).data, Taken(m, d, log);
    forall k | k in taken ensures k in HorizonOf(log) && k in u && ExpiredBySecond(u[k], HorizonOf(log)[k]) {
      TakenWithinHorizon(m, d, log, k);
    }
    match e
    case ListEvent(bucket, opts) =>
      var ks := OrderedKeys(u, bucket, opts);
      forall i | 0 <= i < |ks| && ks[i] in taken ensures false {
        MissingAreDropped(u, {}, bucket, opts, i);
        assert Matches(u, bucket, opts.prefix, opts.expiresBefore, ks[i]);
        ExpiryTestsAgree(u[ks[i]], opts.expiresBefore.value);
      }
    case GetEvent(k, now) => if k in taken { ExpiryTestsAgree(u[k], now); }
    case IncrementEvent(k, op, _, now) => if k in taken { ExpiryTestsAgree(u[k], now); }
    case _ =>
  }

  /** A listing notices only an entry that expired after the listing read its clock and was swept before it scanned. */
  lemma ListNoticesBetween(m: Merger, d: Disk, log: seq<Event>, bucket: Blob, opts: ListOpts) returns (k: Blob)
    requires opts.expiresBefore.Some?
    requires Notices(m, Calm(m, d, log).data, Taken(m, d, log), ListEvent(bucket, opts))
    ensures k in Taken(m, d, log) && k in HorizonOf(log) && k in Calm(m, d, log).data
    ensures var e := Calm(m, d, log).data[k];
            e.expires.Some? && UnixSeconds(opts.expiresBefore.value) < e.expires.value <= HorizonOf(log)[k]
  {
    var u, taken := Calm(m, d, log).data, Taken(m, d, log);
    var ks := OrderedKeys(u, bucket, opts);
    var i :| 0 <= i < |ks| && i < opts.skip + opts.limit && ks[i] in taken;
    k := ks[i];
    TakenWithinHorizon(m, d, log, k);
    MissingAreDropped(u, {}, bucket, opts, i);
    assert Matches(u, bucket, opts.prefix, opts.expiresBefore, k);
    ExpiryTestsAgree(u[k], opts.expiresBefore.value);
  }

  /** With a clock that does not run backwards, and operations that happen at once, nobody but a delete can tell. */
  lemma ClockOrderedRunsLookUnswept(m: Merger, d: Disk, log: seq<Event>, at: seq<Instant>)
    requires ClockOrdered(log, at)
    ensures Observed(m, d, log) == Observed(m, d, WithoutSweeps(log))
    ensures Replay(m, d, log).data == Calm(m, d, log).data - Taken(m, d, log)
  {
    ClockOrderedIsWellTimed(log, at);
    forall i | 0 <= i < |log| ensures BlindAt(m, d, log, i) {
      assert Timely(HorizonOf(log[..i]), log[i]);
      if !log[i].DeleteEvent? { TimelyDoesNotNotice(m, d, log[..i], log[i]); }
    }
    UnnoticedIsSteady(m, d, log);
    SweeperUnobservable(m, d, log);
    SweptIsCalmWithoutTaken(m, d, log);
  }

  // ---- what a delete is told ---------------------------------------------------------------------

  /**
    * A delete is told "it was there" exactly when it was there unswept and has not been taken, and
    * the two answers differ only for an entry that already reads as missing at the deleter's clock.
    */
  lemma DeleteAnswer(m: Merger, d: Disk, log: seq<Event>, k: Blob, now: Instant)
    requires Steady(m, d, log) && Timely(HorizonOf(log), GetEvent(k, now))
    ensures var swept, unswept := k in Replay(m, d, log).data, k in Calm(m, d, log).data;
            && (swept <==> unswept && k !in Taken(m, d, log))
            && (swept != unswept <==> exists j :: 0 <= j < |log| && TakenSince(m, d, log, k, j))
            && (swept != unswept ==> LiveEntry(Lookup(Calm(m, d, log).data, k), now).None?)
  {
    SweptIsCalmWithoutTaken(m, d, log);
    TakenMeans(m, d, log, k);
    TimelyDoesNotNotice(m, d, log, GetEvent(k, now));
    if k in Taken(m, d, log) { TakenWithinHorizon(m, d, log, k); }
  }

  /** The shortest run that tells: write an entry, let it be swept, delete it. */
  lemma DeleteTellsOfSweep(m: Merger, d: Disk, k: Blob, entry: Entry, nowTs: I64)
    requires k != [] && ExpiredBySecond(entry, nowTs)
    ensures var log := [SetEvent(k, entry), SweepEvent(ExpiryIndexKey(entry.expires.value, k), nowTs), DeleteEvent(k)];
            && Results(m, d, log) == [Stored, SweptOne, Deleted(false)]
            && Results(m, d, WithoutSweeps(log)) == [Stored, Deleted(true)]
  {
    var t := entry.expires.value;
    var a, b, c := SetEvent(k, entry), SweepEvent(ExpiryIndexKey(t, k), nowTs), DeleteEvent(k);
    ExpiryIndexKeyInverse(ExpiryIndexKey(t, k), t, k);
    var stored := Put(d, k, entry);
    FirstStep(m, d, a);
    ResultsSnoc(m, d, [a], b);
    ReplaySnoc(m, d, [a], b);
    ResultsSnoc(m, d, [a, b], c);
    ResultsSnoc(m, d, [a], c);
    assert [a] + [b] == [a, b] && [a, b] + [c] == [a, b, c] && [a] + [c] == [a, c];
    assert Effect(m, stored, b).data == stored.data - {k};
    CalmOfThree(a, b, c);
  }

  lemma FirstStep(m: Merger, d: Disk, e: Event)
    ensures Replay(m, d, [e]) == Effect(m, d, e) && Results(m, d, [e]) == [OutcomeOf(m, d, e)]
  {
    ReplaySnoc(m, d, [], e);
    ResultsSnoc(m, d, [], e);
    assert [] + [e] == [e];
  }

  lemma CalmOfThree(a: Event, b: Event, c: Event)
    requires !a.SweepEvent? && b.SweepEvent? && !c.SweepEvent?
    ensures WithoutSweeps([a, b, c]) == [a, c]
  {
    assert [a, b, c][..2] == [a, b] && [a, b][..1] == [a] && [a][..0] == [];
    assert WithoutSweeps([a]) == [a];
    assert WithoutSweeps([a, b]) == [a];
  }
}
