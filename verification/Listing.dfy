/** What a bucket listing returns, independently of how the scan computes it. */
module Listing {
  import opened Common
  import opened Bytes
  import opened Keyspaces
  import opened Layout
  import opened Values
  import opened Time
  import opened StoreSpec

  datatype ListOpts = ListOpts(
    prefix: Option<Blob>, limit: nat, skip: nat, reverse: bool, includeValues: bool, expiresBefore: Option<Instant>)

  datatype ListEntry = ListEntry(key: Blob, value: Option<StoredValue>)

  /** `k` is a well-formed key of the scan whose entry is not filtered out as expired. */
  predicate Matches(data: map<Blob, Entry>, bucket: Blob, prefix: Option<Blob>, cutoff: Option<Instant>, k: Blob) {
    && k in data
    && DataKeyPrefix(bucket, prefix) <= k
    && UserKey(k, bucket).Some?
    && !(cutoff.Some? && ExpiredAt(data[k], cutoff.value))
  }

  function MatchSet(data: map<Blob, Entry>, bucket: Blob, prefix: Option<Blob>, cutoff: Option<Instant>): set<Blob> {
    set k | k in data && Matches(data, bucket, prefix, cutoff, k)
  }

  function RowOf(data: map<Blob, Entry>, bucket: Blob, includeValues: bool, k: Blob): ListEntry
    requires k in data && UserKey(k, bucket).Some?
  {
    ListEntry(UserKey(k, bucket).value, if includeValues then Some(data[k].value) else None)
  }

  function RowsOf(data: map<Blob, Entry>, bucket: Blob, includeValues: bool, ks: seq<Blob>): (rows: seq<ListEntry>)
    requires forall k :: k in ks ==> k in data && UserKey(k, bucket).Some?
    ensures |rows| == |ks|
    ensures forall i :: 0 <= i < |ks| ==> rows[i] == RowOf(data, bucket, includeValues, ks[i])
  {
    if ks == [] then [] else [RowOf(data, bucket, includeValues, ks[0])] + RowsOf(data, bucket, includeValues, ks[1..])
  }

  function Reversed<T>(s: seq<T>): (r: seq<T>)
    ensures |r| == |s| && forall i :: 0 <= i < |s| ==> r[i] == s[|s| - 1 - i]
  {
    seq(|s|, i requires 0 <= i < |s| => s[|s| - 1 - i])
  }

  function Ordered<T>(s: seq<T>, reverse: bool): seq<T> { if reverse then Reversed(s) else s }

  function Page<T>(s: seq<T>, skip: nat, limit: nat): seq<T> {
    var rest := if skip <= |s| then s[skip..] else [];
    if limit <= |rest| then rest[..limit] else rest
  }

  /** All rows of the listing, ascending by key. */
  function AllRows(data: map<Blob, Entry>, bucket: Blob, opts: ListOpts): seq<ListEntry> {
    RowsOf(data, bucket, opts.includeValues, Sorted(MatchSet(data, bucket, opts.prefix, opts.expiresBefore)))
  }

  /** take(limit, drop(skip, order(filter))) over the sorted keyspace. */
  function ListSpec(data: map<Blob, Entry>, bucket: Blob, opts: ListOpts): seq<ListEntry> {
    Page(Ordered(AllRows(data, bucket, opts), opts.reverse), opts.skip, opts.limit)
  }

  // ---- what the listing shows -----------------------------------------------------------

  /** Rows ascend strictly by user key and are exactly the unexpired keys of the bucket with the prefix. */
  lemma AllRowsExact(data: map<Blob, Entry>, bucket: Blob, opts: ListOpts)
    ensures var rows := AllRows(data, bucket, opts);
            && (forall i, j :: 0 <= i < j < |rows| ==> Less(rows[i].key, rows[j].key))
            && (forall r :: r in rows <==>
                  var k := StorageKey(bucket, r.key);
                  && k in data && |r.key| <= MAX_KEY_BYTES
                  && (opts.prefix.Some? ==> opts.prefix.value <= r.key)
                  && !(opts.expiresBefore.Some? && ExpiredAt(data[k], opts.expiresBefore.value))
                  && r.value == (if opts.includeValues then Some(data[k].value) else None))
  {
    var ms := MatchSet(data, bucket, opts.prefix, opts.expiresBefore);
    var ks, rows := Sorted(ms), AllRows(data, bucket, opts);
    SortedAscends(ms);
    forall i, j | 0 <= i < j < |rows| ensures Less(rows[i].key, rows[j].key) {
      assert Less(ks[i], ks[j]) && ks[i] in ks && ks[j] in ks;
      assert rows[i] == RowOf(data, bucket, opts.includeValues, ks[i]);
      assert rows[j] == RowOf(data, bucket, opts.includeValues, ks[j]);
      UserKeyInverse(bucket, ks[i], rows[i].key);
      UserKeyInverse(bucket, ks[j], rows[j].key);
      StorageKeyOrder(bucket, rows[i].key, rows[j].key);
    }
    forall r
      ensures r in rows <==>
              var k := StorageKey(bucket, r.key);
              && k in data && |r.key| <= MAX_KEY_BYTES
              && (opts.prefix.Some? ==> opts.prefix.value <= r.key)
              && !(opts.expiresBefore.Some? && ExpiredAt(data[k], opts.expiresBefore.value))
              && r.value == (if opts.includeValues then Some(data[k].value) else None)
    {
      RowMembership(data, bucket, opts, r);
    }
  }

  lemma RowMembership(data: map<Blob, Entry>, bucket: Blob, opts: ListOpts, r: ListEntry)
    ensures r in AllRows(data, bucket, opts) <==>
            var k := StorageKey(bucket, r.key);
            && k in data && |r.key| <= MAX_KEY_BYTES
            && (opts.prefix.Some? ==> opts.prefix.value <= r.key)
            && !(opts.expiresBefore.Some? && ExpiredAt(data[k], opts.expiresBefore.value))
            && r.value == (if opts.includeValues then Some(data[k].value) else None)
  {
    var rows, k := AllRows(data, bucket, opts), StorageKey(bucket, r.key);
    var ms := MatchSet(data, bucket, opts.prefix, opts.expiresBefore);
    var ks := Sorted(ms);
    UserKeyInverse(bucket, k, r.key);
    PrefixOfStorageKey(bucket, opts.prefix, r.key);
    if r in rows {
      var i :| 0 <= i < |rows| && rows[i] == r;
      UserKeyInverse(bucket, ks[i], r.key);
      assert ks[i] in ks;
    }
    if k in ms && r == RowOf(data, bucket, opts.includeValues, k) {
      var i :| 0 <= i < |ks| && ks[i] == k;
      assert rows[i] == r;
    }
  }

  /** A listing has no more rows than the keyspace has keys. */
  lemma RowsFit(data: map<Blob, Entry>, bucket: Blob, opts: ListOpts)
    ensures |AllRows(data, bucket, opts)| <= |data|
  {
    var ms := MatchSet(data, bucket, opts.prefix, opts.expiresBefore);
    assert data.Keys == ms + (data.Keys - ms);
    assert |data| == |data.Keys| == |ms| + |data.Keys - ms|;
    assert |AllRows(data, bucket, opts)| == |Sorted(ms)| == |ms|;
  }

  lemma PrefixOfStorageKey(bucket: Blob, prefix: Option<Blob>, key: Blob)
    ensures DataKeyPrefix(bucket, prefix) <= StorageKey(bucket, key) <==> (prefix.Some? ==> prefix.value <= key)
  {
    var p := if prefix.Some? then prefix.value else [];
    var head, full := DataKeyPrefix(bucket, prefix), StorageKey(bucket, key);
    if head <= full { assert full[|bucket| + 1..] == key && head[|bucket| + 1..] == p; assert p == key[..|p|]; }
    if p <= key { assert full == head + key[|p|..]; }
  }

  /** A listing that is not cut short has every row; a page is a contiguous run of the ordered rows. */
  lemma PageOfRows(data: map<Blob, Entry>, bucket: Blob, opts: ListOpts, i: nat)
    requires i < |ListSpec(data, bucket, opts)|
    ensures var rows := AllRows(data, bucket, opts);
            && opts.skip + i < |rows|
            && ListSpec(data, bucket, opts)[i]
               == (if opts.reverse then rows[|rows| - 1 - (opts.skip + i)] else rows[opts.skip + i])
  {
    PageAt(Ordered(AllRows(data, bucket, opts), opts.reverse), opts.skip, opts.limit, i);
  }

  lemma PageAt<T>(s: seq<T>, skip: nat, limit: nat, i: nat)
    requires i < |Page(s, skip, limit)|
    ensures skip + i < |s| && Page(s, skip, limit)[i] == s[skip + i]
  {
  }

  /** A listing depends only on the entries that are unexpired at its cutoff. */
  lemma ListDependsOnMatches(data: map<Blob, Entry>, data2: map<Blob, Entry>, bucket: Blob, opts: ListOpts)
    requires forall k :: Matches(data, bucket, opts.prefix, opts.expiresBefore, k)
                         <==> Matches(data2, bucket, opts.prefix, opts.expiresBefore, k)
    requires forall k :: Matches(data, bucket, opts.prefix, opts.expiresBefore, k) ==> Lookup(data, k) == Lookup(data2, k)
    ensures ListSpec(data, bucket, opts) == ListSpec(data2, bucket, opts)
  {
    var ms, ms2 := MatchSet(data, bucket, opts.prefix, opts.expiresBefore), MatchSet(data2, bucket, opts.prefix, opts.expiresBefore);
    assert ms == ms2;
    var rows, rows2 := AllRows(data, bucket, opts), AllRows(data2, bucket, opts);
    forall i | 0 <= i < |rows| ensures rows[i] == rows2[i] {
      var k := Sorted(ms)[i];
      assert k in ms && Matches(data, bucket, opts.prefix, opts.expiresBefore, k) && Lookup(data, k) == Lookup(data2, k);
    }
    assert rows == rows2;
  }

  // ---- the scan -------------------------------------------------------------------------

  /** Keys met by a prefix scan, in order. */
  function Scan(data: map<Blob, Entry>, prefix: Blob): seq<Blob> { Sorted(set k | k in data && prefix <= k) }

  /** Sub-sequence of the scanned keys that lie in `ms`. */
  ghost function Kept(ks: seq<Blob>, ms: set<Blob>): (kept: seq<Blob>)
    ensures forall k :: k in kept ==> k in ms
  {
    if ks == [] then [] else (if ks[0] in ms then [ks[0]] else []) + Kept(ks[1..], ms)
  }

  /** Filtering the ordered keys is the same as ordering the filtered keys. */
  lemma {:induction false} KeptOfSorted(s: set<Blob>, ms: set<Blob>)
    requires ms <= s
    ensures Kept(Sorted(s), ms) == Sorted(ms)
    decreases s
  {
    if s != {} {
      var x := Least(s);
      SortedHead(s, x);
      if x in ms { SortedHead(ms, x); } else { assert ms - {x} == ms; }
      KeptOfSorted(s - {x}, ms - {x});
      KeptIgnores(Sorted(s - {x}), ms, x);
      assert ([x] + Sorted(s - {x}))[1..] == Sorted(s - {x});
    }
  }

  lemma SortedHead(s: set<Blob>, x: Blob)
    requires IsLeast(x, s)
    ensures Sorted(s) == [x] + Sorted(s - {x})
  {
    LeastUnique(s);
  }

  lemma {:induction false} KeptIgnores(ks: seq<Blob>, ms: set<Blob>, x: Blob)
    requires x !in ks
    ensures Kept(ks, ms) == Kept(ks, ms - {x})
  {
    if ks != [] { KeptIgnores(ks[1..], ms, x); }
  }

  /** What the scan makes of one storage key: nothing if it is malformed or expired, else its row. */
  function ScanRow(data: map<Blob, Entry>, bucket: Blob, opts: ListOpts, k: Blob): Option<ListEntry>
    requires k in data
  {
    var userKey := UserKey(k, bucket);
    if userKey.None? then None
    else if opts.includeValues then
      if opts.expiresBefore.Some? && ExpiredAt(data[k], opts.expiresBefore.value) then None
      else Some(ListEntry(userKey.value, Some(data[k].value)))
    else if opts.expiresBefore.Some? && ExpiredBySecond(data[k], UnixSeconds(opts.expiresBefore.value)) then None
    else Some(ListEntry(userKey.value, None))
  }

  lemma ScanRowIsMatch(data: map<Blob, Entry>, bucket: Blob, opts: ListOpts, k: Blob)
    requires k in data && DataKeyPrefix(bucket, opts.prefix) <= k
    ensures ScanRow(data, bucket, opts, k)
            == (if k in MatchSet(data, bucket, opts.prefix, opts.expiresBefore)
                then Some(RowOf(data, bucket, opts.includeValues, k)) else None)
  {
    if opts.expiresBefore.Some? { ExpiryTestsAgree(data[k], opts.expiresBefore.value); }
  }

  function RowList(row: Option<ListEntry>): seq<ListEntry> { if row.Some? then [row.value] else [] }

  /** At position `i` of the scan the rows to come are the row of `ks[i]`, if any, and the rows after it. */
  ghost predicate PlanStep(data: map<Blob, Entry>, bucket: Blob, opts: ListOpts, ks: seq<Blob>, rests: seq<seq<ListEntry>>, i: nat)
    requires i < |ks| && |rests| == |ks| + 1
  {
    ks[i] in data && rests[i] == RowList(ScanRow(data, bucket, opts, ks[i])) + rests[i + 1]
  }

  /** The rows still to come at each position of the scan. */
  lemma {:induction false} ScanPlan(data: map<Blob, Entry>, bucket: Blob, opts: ListOpts, ks: seq<Blob>)
    returns (rests: seq<seq<ListEntry>>)
    requires forall k :: k in ks ==> k in data && DataKeyPrefix(bucket, opts.prefix) <= k
    ensures |rests| == |ks| + 1
    ensures rests[0] == RowsOf(data, bucket, opts.includeValues, Kept(ks, MatchSet(data, bucket, opts.prefix, opts.expiresBefore)))
    ensures rests[|ks|] == []
    ensures forall i :: 0 <= i < |ks| ==> PlanStep(data, bucket, opts, ks, rests, i)
  {
    if ks == [] { return [[]]; }
    assert forall k :: k in ks[1..] ==> k in ks;
    var tail := ScanPlan(data, bucket, opts, ks[1..]);
    ScanHead(data, bucket, opts, ks);
    rests := [RowList(ScanRow(data, bucket, opts, ks[0])) + tail[0]] + tail;
    forall i | 0 <= i < |ks| ensures PlanStep(data, bucket, opts, ks, rests, i) {
      if i > 0 { assert PlanStep(data, bucket, opts, ks[1..], tail, i - 1); }
    }
  }

  lemma ScanHead(data: map<Blob, Entry>, bucket: Blob, opts: ListOpts, ks: seq<Blob>)
    requires ks != [] && ks[0] in data && DataKeyPrefix(bucket, opts.prefix) <= ks[0]
    ensures var ms := MatchSet(data, bucket, opts.prefix, opts.expiresBefore);
            RowsOf(data, bucket, opts.includeValues, Kept(ks, ms))
            == RowList(ScanRow(data, bucket, opts, ks[0])) + RowsOf(data, bucket, opts.includeValues, Kept(ks[1..], ms))
  {
    var ms := MatchSet(data, bucket, opts.prefix, opts.expiresBefore);
    ScanRowIsMatch(data, bucket, opts, ks[0]);
    if ks[0] in ms { assert Kept(ks, ms)[1..] == Kept(ks[1..], ms); }
  }

  lemma ScanYieldsAllRows(data: map<Blob, Entry>, bucket: Blob, opts: ListOpts)
    returns (rests: seq<seq<ListEntry>>)
    ensures var ks := Scan(data, DataKeyPrefix(bucket, opts.prefix));
            && |rests| == |ks| + 1
            && rests[0] == AllRows(data, bucket, opts)
            && rests[|ks|] == []
            && forall i :: 0 <= i < |ks| ==> PlanStep(data, bucket, opts, ks, rests, i)
  {
    var s := set k | k in data && DataKeyPrefix(bucket, opts.prefix) <= k;
    KeptOfSorted(s, MatchSet(data, bucket, opts.prefix, opts.expiresBefore));
    rests := ScanPlan(data, bucket, opts, Sorted(s));
  }

  // ---- pages and windows ------------------------------------------------------------------

  function SaturatingAdd(a: nat, b: nat): nat { if a + b > USIZE_MAX then USIZE_MAX else a + b }

  function LastN<T>(s: seq<T>, n: nat): seq<T> { if n <= |s| then s[|s| - n..] else s }

  /** Keeping only the last skip+limit matches loses nothing of the reversed page. */
  lemma WindowSuffices<T>(s: seq<T>, skip: nat, limit: nat)
    requires |s| <= USIZE_MAX
    ensures Page(Reversed(LastN(s, SaturatingAdd(skip, limit))), skip, limit) == Page(Reversed(s), skip, limit)
  {
    var window := SaturatingAdd(skip, limit);
    if window < |s| {
      ReversedSuffix(s, window);
      PageOfPrefix(Reversed(s), skip, limit);
    }
  }

  lemma ReversedSuffix<T>(s: seq<T>, n: nat)
    requires n <= |s|
    ensures Reversed(s[|s| - n..]) == Reversed(s)[..n]
  {
  }

  lemma PageOfPrefix<T>(r: seq<T>, skip: nat, limit: nat)
    requires skip + limit <= |r|
    ensures Page(r[..skip + limit], skip, limit) == Page(r, skip, limit)
  {
    assert r[..skip + limit][skip..] == r[skip..][..limit];
  }

  // ---- listing a store from which keys are missing -------------------------------------------

  /** A filtered sequence has at place `q` an element from place `q` or later; from `q` only if nothing before is dropped. */
  lemma {:induction false} KeptAt(s: seq<Blob>, ms: set<Blob>, q: nat) returns (j: nat)
    requires q < |Kept(s, ms)|
    ensures q <= j < |s| && Kept(s, ms)[q] == s[j]
    ensures j == q ==> forall i :: 0 <= i <= q ==> s[i] in ms
  {
    if s[0] in ms {
      if q == 0 { return 0; }
      j := KeptAt(s[1..], ms, q - 1);
      if j == q - 1 { forall i | 0 < i <= q ensures s[i] in ms { assert s[i] == s[1..][i - 1]; } }
    } else {
      j := KeptAt(s[1..], ms, q);
    }
    j := j + 1;
  }

  lemma {:induction false} KeptHead(s: seq<Blob>, ms: set<Blob>, n: nat)
    requires n <= |s| && forall i :: 0 <= i < n ==> s[i] in ms
    ensures Kept(s, ms) == s[..n] + Kept(s[n..], ms)
  {
    if n > 0 {
      forall i | 0 <= i < n - 1 ensures s[1..][i] in ms { assert s[1..][i] == s[i + 1]; }
      KeptHead(s[1..], ms, n - 1);
      assert s[1..][n - 1..] == s[n..] && s[..n] == [s[0]] + s[1..][..n - 1];
    }
  }

  lemma {:induction false} KeptConcat(a: seq<Blob>, b: seq<Blob>, ms: set<Blob>)
    ensures Kept(a + b, ms) == Kept(a, ms) + Kept(b, ms)
  {
    if a == [] {
      assert a + b == b;
    } else {
      assert (a + b)[1..] == a[1..] + b;
      KeptConcat(a[1..], b, ms);
    }
  }

  lemma {:induction false} KeptReversed(s: seq<Blob>, ms: set<Blob>)
    ensures Kept(Reversed(s), ms) == Reversed(Kept(s, ms))
  {
    if s != [] {
      KeptReversed(s[1..], ms);
      assert Reversed(s) == Reversed(s[1..]) + [s[0]];
      KeptConcat(Reversed(s[1..]), s[..1], ms);
      assert s[..1] == [s[0]] && s[..1][1..] == [];
    }
  }

  lemma PageSharesHead<T>(s: seq<T>, r: seq<T>, n: nat, skip: nat, limit: nat)
    requires n <= |s| && n <= |r| && s[..n] == r[..n] && skip + limit <= n
    ensures Page(s, skip, limit) == Page(r, skip, limit)
  {
    assert s[skip..][..limit] == s[..n][skip..][..limit] == r[..n][skip..][..limit] == r[skip..][..limit];
  }

  /** Dropping elements changes a page exactly when one of them stands before the end of a page that shows something. */
  lemma PageOfKept(s: seq<Blob>, ms: set<Blob>, skip: nat, limit: nat)
    requires forall i, j :: 0 <= i < j < |s| ==> s[i] != s[j]
    ensures Page(Kept(s, ms), skip, limit) != Page(s, skip, limit)
            <==> limit > 0 && skip < |s| && exists i :: 0 <= i < |s| && i < skip + limit && s[i] !in ms
  {
    var r := Kept(s, ms);
    var n := if skip + limit <= |s| then skip + limit else |s|;
    if p :| 0 <= p < |s| && p < skip + limit && s[p] !in ms {
      if limit > 0 && skip < |s| {
        var q := if p < skip then skip else p;
        PageAt(s, skip, limit, q - skip);
        if Page(r, skip, limit) == Page(s, skip, limit) {
          PageAt(r, skip, limit, q - skip);
          var j := KeptAt(s, ms, q);
        }
      } else if limit > 0 && |r| > skip {
        var j := KeptAt(s, ms, skip);
      }
    } else {
      KeptHead(s, ms, n);
      if n == |s| { assert s[n..] == [] && s[..n] == s; assert r == s; } else { PageSharesHead(s, r, n, skip, limit); }
    }
  }

  /** Storage keys behind the rows of a listing, in the order shown. */
  function OrderedKeys(data: map<Blob, Entry>, bucket: Blob, opts: ListOpts): seq<Blob> {
    Ordered(Sorted(MatchSet(data, bucket, opts.prefix, opts.expiresBefore)), opts.reverse)
  }

  lemma RowOfKey(data: map<Blob, Entry>, bucket: Blob, opts: ListOpts, i: nat)
    requires i < |OrderedKeys(data, bucket, opts)|
    ensures var k := OrderedKeys(data, bucket, opts)[i];
            && k in data && UserKey(k, bucket).Some? && |AllRows(data, bucket, opts)| == |OrderedKeys(data, bucket, opts)|
            && Ordered(AllRows(data, bucket, opts), opts.reverse)[i] == RowOf(data, bucket, opts.includeValues, k)
  {
    var all := Sorted(MatchSet(data, bucket, opts.prefix, opts.expiresBefore));
    assert all[if opts.reverse then |all| - 1 - i else i] in all;
  }

  lemma RowsShown(data: map<Blob, Entry>, bucket: Blob, opts: ListOpts)
    ensures var ks, rows := Page(OrderedKeys(data, bucket, opts), opts.skip, opts.limit), ListSpec(data, bucket, opts);
            && |rows| == |ks|
            && forall i :: 0 <= i < |ks| ==>
                 && ks[i] in data && UserKey(ks[i], bucket).Some?
                 && rows[i] == RowOf(data, bucket, opts.includeValues, ks[i])
  {
    var all, rows := OrderedKeys(data, bucket, opts), Ordered(AllRows(data, bucket, opts), opts.reverse);
    assert |rows| == |all|;
    forall i | 0 <= i < |Page(all, opts.skip, opts.limit)|
      ensures var k := Page(all, opts.skip, opts.limit)[i];
              && k in data && UserKey(k, bucket).Some?
              && Page(rows, opts.skip, opts.limit)[i] == RowOf(data, bucket, opts.includeValues, k)
    {
      PageAt(all, opts.skip, opts.limit, i);
      PageAt(rows, opts.skip, opts.limit, i);
      RowOfKey(data, bucket, opts, opts.skip + i);
    }
  }

  /** A key of `gone` stands in the listing before the end of the requested page, and the page shows something. */
  ghost predicate PageMeets(data: map<Blob, Entry>, gone: set<Blob>, bucket: Blob, opts: ListOpts) {
    var ks := OrderedKeys(data, bucket, opts);
    opts.limit > 0 && opts.skip < |ks| && exists i :: 0 <= i < |ks| && i < opts.skip + opts.limit && ks[i] in gone
  }

  lemma KeysWithout(data: map<Blob, Entry>, gone: set<Blob>, bucket: Blob, opts: ListOpts)
    ensures OrderedKeys(data - gone, bucket, opts)
            == Kept(OrderedKeys(data, bucket, opts), MatchSet(data, bucket, opts.prefix, opts.expiresBefore) - gone)
  {
    var ms := MatchSet(data, bucket, opts.prefix, opts.expiresBefore);
    assert MatchSet(data - gone, bucket, opts.prefix, opts.expiresBefore) == ms - gone;
    KeptOfSorted(ms, ms - gone);
    KeptReversed(Sorted(ms), ms - gone);
  }

  lemma KeysDistinct(data: map<Blob, Entry>, bucket: Blob, opts: ListOpts)
    ensures var ks := OrderedKeys(data, bucket, opts); forall i, j :: 0 <= i < j < |ks| ==> ks[i] != ks[j]
  {
    var ms := MatchSet(data, bucket, opts.prefix, opts.expiresBefore);
    SortedAscends(ms);
    forall k ensures !Less(k, k) { LessIrreflexive(k); }
    var ks, all := OrderedKeys(data, bucket, opts), Sorted(ms);
    forall i, j | 0 <= i < j < |ks| ensures ks[i] != ks[j] {
      if opts.reverse { assert Less(all[|ks| - 1 - j], all[|ks| - 1 - i]); } else { assert Less(all[i], all[j]); }
    }
  }

  lemma SameRowsSameKeys(data: map<Blob, Entry>, gone: set<Blob>, bucket: Blob, opts: ListOpts)
    ensures ListSpec(data - gone, bucket, opts) == ListSpec(data, bucket, opts)
            <==> Page(OrderedKeys(data - gone, bucket, opts), opts.skip, opts.limit)
                 == Page(OrderedKeys(data, bucket, opts), opts.skip, opts.limit)
  {
    RowsShown(data, bucket, opts);
    RowsShown(data - gone, bucket, opts);
    var ks, ks2 := Page(OrderedKeys(data, bucket, opts), opts.skip, opts.limit), Page(OrderedKeys(data - gone, bucket, opts), opts.skip, opts.limit);
    var rows, rows2 := ListSpec(data, bucket, opts), ListSpec(data - gone, bucket, opts);
    if rows == rows2 {
      forall i | 0 <= i < |ks| ensures ks[i] == ks2[i] {
        UserKeyInverse(bucket, ks[i], rows[i].key);
        UserKeyInverse(bucket, ks2[i], rows[i].key);
      }
    }
    if ks == ks2 {
      forall i | 0 <= i < |rows| ensures rows[i] == rows2[i] { assert ks[i] == ks2[i]; }
    }
  }

  lemma MissingAreDropped(data: map<Blob, Entry>, gone: set<Blob>, bucket: Blob, opts: ListOpts, i: nat)
    requires i < |OrderedKeys(data, bucket, opts)|
    ensures var k := OrderedKeys(data, bucket, opts)[i];
            k in gone <==> k !in MatchSet(data, bucket, opts.prefix, opts.expiresBefore) - gone
  {
    var all := Sorted(MatchSet(data, bucket, opts.prefix, opts.expiresBefore));
    assert all[if opts.reverse then |all| - 1 - i else i] in all;
  }

  /** A listing of any order and page notices missing entries exactly when one stands before the end of its page. */
  lemma ListNoticesMissing(data: map<Blob, Entry>, gone: set<Blob>, bucket: Blob, opts: ListOpts)
    ensures ListSpec(data - gone, bucket, opts) != ListSpec(data, bucket, opts) <==> PageMeets(data, gone, bucket, opts)
  {
    var left := MatchSet(data, bucket, opts.prefix, opts.expiresBefore) - gone;
    var ks := OrderedKeys(data, bucket, opts);
    SameRowsSameKeys(data, gone, bucket, opts);
    KeysWithout(data, gone, bucket, opts);
    KeysDistinct(data, bucket, opts);
    PageOfKept(ks, left, opts.skip, opts.limit);
    forall i | 0 <= i < |ks| ensures ks[i] in gone <==> ks[i] !in left { MissingAreDropped(data, gone, bucket, opts, i); }
  }
}
