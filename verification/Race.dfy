/** A listing that notices a sweep: its clock is read, the entry expires and is swept, then it scans. */
module Race {
  import opened Common
  import opened Bytes
  import opened Keyspaces
  import opened Layout
  import opened Values
  import opened Counter
  import opened Time
  import opened StoreSpec
  import opened Listing
  import opened Runs
  import opened Unswept
  import opened Concurrency

  const EVERYTHING := ListOpts(None, 10, 0, false, true, None)

  /** One entry that expires at second 1, one listing, one sweeper. */
  function Start(bucket: Blob, key: Blob, value: StoredValue): State {
    var k := StorageKey(bucket, key);
    State(Disk(map[k := Entry(value, Some(1))], {ExpiryIndexKey(1, k)}), 0,
          [Lister(bucket, EVERYTHING, Asked), Sweeper(0, [], 0, Idle)], [], [], [])
  }

  const LIST_AT_0 := Choice(0, 0, 0)
  const LIST_AT_1 := Choice(0, NANOS, NANOS)
  const SWEEP_AT_1 := Choice(1, NANOS, NANOS)

  /** The listing's clock; the sweeper's clock, snapshot, lock, drop, check and removal; the listing's scan. */
  const SCHEDULE := [LIST_AT_0, SWEEP_AT_1, SWEEP_AT_1, SWEEP_AT_1, SWEEP_AT_1, SWEEP_AT_1, SWEEP_AT_1, LIST_AT_1]

  /** The sweeper at one phase of its only index key, with the disk as given. */
  function Sweeping(bucket: Blob, key: Blob, disk: Disk, phase: SweeperPc): State {
    State(disk, NANOS, [Lister(bucket, EVERYTHING, Cut(0)), Sweeper(1, [ExpiryIndexKey(1, StorageKey(bucket, key))], 0, phase)],
          [], [], [])
  }

  /** Both clocks are read and the snapshot taken; the entry is still there. */
  lemma ReadClocks(m: Merger, stripe: Blob -> nat, bucket: Blob, key: Blob, value: StoredValue)
    ensures var s := Start(bucket, key, value);
            Step(m, stripe, Step(m, stripe, s, LIST_AT_0), SWEEP_AT_1)
            == s.(clock := NANOS, threads := [Lister(bucket, EVERYTHING, Cut(0)), Sweeper(1, [], 0, Timed)])
  {
    var s := Start(bucket, key, value);
    assert Step(m, stripe, s, LIST_AT_0) == s.(threads := [Lister(bucket, EVERYTHING, Cut(0)), s.threads[1]]);
  }

  lemma TakeSnapshot(m: Merger, stripe: Blob -> nat, bucket: Blob, key: Blob, value: StoredValue)
    ensures var s := Start(bucket, key, value);
            Step(m, stripe, s.(clock := NANOS, threads := [Lister(bucket, EVERYTHING, Cut(0)), Sweeper(1, [], 0, Timed)]), SWEEP_AT_1)
            == Sweeping(bucket, key, s.disk, Scanning)
  {
    var x := ExpiryIndexKey(1, StorageKey(bucket, key));
    assert Sorted({x}) == [x] by { assert Sorted({x})[0] in Sorted({x}); }
  }

  lemma TakeLock(m: Merger, stripe: Blob -> nat, bucket: Blob, key: Blob, disk: Disk)
    ensures Step(m, stripe, Sweeping(bucket, key, disk, Scanning), SWEEP_AT_1) == Sweeping(bucket, key, disk, Locked)
  {
    ExpiryIndexKeyInverse(ExpiryIndexKey(1, StorageKey(bucket, key)), 1, StorageKey(bucket, key));
  }

  lemma DropKey(m: Merger, stripe: Blob -> nat, bucket: Blob, key: Blob, disk: Disk)
    ensures Step(m, stripe, Sweeping(bucket, key, disk, Locked), SWEEP_AT_1)
            == Sweeping(bucket, key, disk.(index := disk.index - {ExpiryIndexKey(1, StorageKey(bucket, key))}), Dropped)
  {
    ExpiryIndexKeyInverse(ExpiryIndexKey(1, StorageKey(bucket, key)), 1, StorageKey(bucket, key));
  }

  lemma CheckEntry(m: Merger, stripe: Blob -> nat, bucket: Blob, key: Blob, disk: Disk)
    ensures Step(m, stripe, Sweeping(bucket, key, disk, Dropped), SWEEP_AT_1)
            == Sweeping(bucket, key, disk, Decided(Due(Lookup(disk.data, StorageKey(bucket, key)), 1, 1)))
  {
    ExpiryIndexKeyInverse(ExpiryIndexKey(1, StorageKey(bucket, key)), 1, StorageKey(bucket, key));
  }

  lemma RemoveEntry(m: Merger, stripe: Blob -> nat, bucket: Blob, key: Blob, disk: Disk)
    ensures var k := StorageKey(bucket, key);
            Step(m, stripe, Sweeping(bucket, key, disk, Decided(true)), SWEEP_AT_1)
            == Sweeping(bucket, key, disk.(data := disk.data - {k}), Unlocking)
               .(log := [SweepEvent(ExpiryIndexKey(1, k), 1)], results := [SweptOne], actors := [1])
  {
    ExpiryIndexKeyInverse(ExpiryIndexKey(1, StorageKey(bucket, key)), 1, StorageKey(bucket, key));
  }

  /** The state in which the listing scans: the entry has been swept. */
  function BeforeScan(bucket: Blob, key: Blob): State {
    Sweeping(bucket, key, Disk(map[], {}), Unlocking)
    .(log := [SweepEvent(ExpiryIndexKey(1, StorageKey(bucket, key)), 1)], results := [SweptOne], actors := [1])
  }

  lemma {:induction false} RunSplits(m: Merger, stripe: Blob -> nat, s: State, c: Choice, rest: seq<Choice>)
    ensures Run(m, stripe, s, [c] + rest) == Run(m, stripe, Step(m, stripe, s, c), rest)
    decreases |rest|
  {
    var n, all := |rest| - 1, [c] + rest;
    if rest == [] {
      assert all[..0] == [];
    } else {
      RunSplits(m, stripe, s, c, rest[..n]);
      RunLast(m, stripe, s, all, [c] + rest[..n], rest[n]);
      RunLast(m, stripe, Step(m, stripe, s, c), rest, rest[..n], rest[n]);
    }
  }

  lemma RunLast(m: Merger, stripe: Blob -> nat, s: State, all: seq<Choice>, init: seq<Choice>, c: Choice)
    requires all == init + [c]
    ensures Run(m, stripe, s, all) == Step(m, stripe, Run(m, stripe, s, init), c)
  {
    assert all[..|all| - 1] == init;
  }

  lemma SweepRuns(m: Merger, stripe: Blob -> nat, bucket: Blob, key: Blob, value: StoredValue)
    ensures var s := Start(bucket, key, value);
            Run(m, stripe, Sweeping(bucket, key, s.disk, Scanning), [SWEEP_AT_1, SWEEP_AT_1, SWEEP_AT_1, SWEEP_AT_1, LIST_AT_1])
            == Step(m, stripe, BeforeScan(bucket, key), LIST_AT_1)
  {
    var disk, k := Start(bucket, key, value).disk, StorageKey(bucket, key);
    var dropped := Disk(disk.data, {});
    TakeLock(m, stripe, bucket, key, disk);
    DropKey(m, stripe, bucket, key, disk);
    CheckEntry(m, stripe, bucket, key, dropped);
    RemoveEntry(m, stripe, bucket, key, dropped);
    assert disk.data - {k} == map[] && disk.index - {ExpiryIndexKey(1, k)} == {};
    var c, l := SWEEP_AT_1, LIST_AT_1;
    assert [c, c, c, c, l] == [c] + [c, c, c, l] && [c, c, c, l] == [c] + [c, c, l] && [c, c, l] == [c] + [c, l] && [c, l] == [c] + [l];
    RunSplits(m, stripe, Sweeping(bucket, key, disk, Scanning), c, [c, c, c, l]);
    RunSplits(m, stripe, Sweeping(bucket, key, disk, Locked), c, [c, c, l]);
    RunSplits(m, stripe, Sweeping(bucket, key, dropped, Dropped), c, [c, l]);
    RunSplits(m, stripe, Sweeping(bucket, key, dropped, Decided(true)), c, [l]);
    RunSplits(m, stripe, BeforeScan(bucket, key), l, []);
    assert [l] + [] == [l];
  }

  lemma WholeRun(m: Merger, stripe: Blob -> nat, bucket: Blob, key: Blob, value: StoredValue)
    ensures Run(m, stripe, Start(bucket, key, value), SCHEDULE) == Step(m, stripe, BeforeScan(bucket, key), LIST_AT_1)
  {
    var s, c, l := Start(bucket, key, value), SWEEP_AT_1, LIST_AT_1;
    var rest := [c, c, c, c, l];
    ReadClocks(m, stripe, bucket, key, value);
    TakeSnapshot(m, stripe, bucket, key, value);
    assert SCHEDULE == [LIST_AT_0] + ([c] + ([c] + rest));
    RunSplits(m, stripe, s, LIST_AT_0, [c] + ([c] + rest));
    RunSplits(m, stripe, Step(m, stripe, s, LIST_AT_0), c, [c] + rest);
    RunSplits(m, stripe, Step(m, stripe, Step(m, stripe, s, LIST_AT_0), c), c, rest);
    SweepRuns(m, stripe, bucket, key, value);
  }

  lemma ScanShowsNothing(m: Merger, stripe: Blob -> nat, bucket: Blob, key: Blob)
    ensures var f := Step(m, stripe, BeforeScan(bucket, key), LIST_AT_1);
            && f.log == BeforeScan(bucket, key).log + [ListEvent(bucket, CutAt(EVERYTHING, 0))]
            && f.results == [SweptOne, Listed([])]
  {
    NothingToList(bucket, CutAt(EVERYTHING, 0));
  }

  /** The entry was unexpired by the listing's own clock, yet the listing does not show it. */
  lemma ListingCanNoticeSweep(m: Merger, stripe: Blob -> nat, bucket: Blob, key: Blob, value: StoredValue)
    requires |key| <= MAX_KEY_BYTES
    ensures var s := Start(bucket, key, value);
            var f := Run(m, stripe, s, SCHEDULE);
            && Initial(stripe, s)
            && |f.log| == 2 && f.results == [SweptOne, Listed([])]
            && CalmAnswer(m, s.disk, f.log, 1) == Listed([ListEntry(key, Some(value))])
            && NoticesAt(m, s.disk, f.log, 1)
  {
    var s := Start(bucket, key, value);
    WholeRun(m, stripe, bucket, key, value);
    ScanShowsNothing(m, stripe, bucket, key);
    OneToList(bucket, key, value, CutAt(EVERYTHING, 0));
    var f := Run(m, stripe, s, SCHEDULE);
    assert f.log[..1] == [f.log[0]] && [f.log[0]][..0] == [];
    assert WithoutSweeps(f.log[..1]) == [];
    ConcurrentAnswers(m, stripe, s, SCHEDULE, 1);
  }

  lemma NothingToList(bucket: Blob, opts: ListOpts)
    ensures ListSpec(map[], bucket, opts) == []
  {
  }

  lemma OneToList(bucket: Blob, key: Blob, value: StoredValue, opts: ListOpts)
    requires |key| <= MAX_KEY_BYTES && opts == CutAt(EVERYTHING, 0)
    ensures ListSpec(map[StorageKey(bucket, key) := Entry(value, Some(1))], bucket, opts) == [ListEntry(key, Some(value))]
  {
    var k := StorageKey(bucket, key);
    var data := map[k := Entry(value, Some(1))];
    UserKeyInverse(bucket, k, key);
    PrefixOfStorageKey(bucket, None, key);
    assert MatchSet(data, bucket, opts.prefix, opts.expiresBefore) == {k};
    assert Sorted({k}) == [k] by { assert Sorted({k})[0] in Sorted({k}); }
  }
}
