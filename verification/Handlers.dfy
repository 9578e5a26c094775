/** Listing a bucket on behalf of an identity. */
module BucketListing {
  import opened Common
  import opened Bytes
  import opened Layout
  import opened Time
  import opened StoreSpec
  import opened Listing
  import opened Access

  const DEFAULT_LIMIT: nat := 10_000

  /** Intersects the token scope with the requested prefix; `None` when they are incompatible. */
  function CombineScopedPrefix(scope: Blob, requested: Option<Blob>): Option<Blob> {
    if requested.None? then Some(scope)
    else if scope <= requested.value then Some(requested.value)
    else if requested.value <= scope then Some(scope)
    else None
  }

  predicate InBoth(scope: Blob, requested: Option<Blob>, key: Blob) {
    scope <= key && (requested.Some? ==> requested.value <= key)
  }

  lemma PrefixesOfOneKey(a: Blob, b: Blob, key: Blob)
    requires a <= key && b <= key
    ensures a <= b || b <= a
  {
    assert a == key[..|a|] && b == key[..|b|];
    assert |a| <= |b| ==> a == b[..|a|];
    assert |b| <= |a| ==> b == a[..|b|];
  }

  /** The combined prefix selects exactly the keys under both prefixes, and is missing exactly when there are none. */
  lemma CombineIsIntersection(scope: Blob, requested: Option<Blob>)
    ensures var c := CombineScopedPrefix(scope, requested);
            && (forall key :: InBoth(scope, requested, key) <==> c.Some? && c.value <= key)
            && (c.None? <==> forall key :: !InBoth(scope, requested, key))
  {
    var c := CombineScopedPrefix(scope, requested);
    forall key ensures InBoth(scope, requested, key) <==> c.Some? && c.value <= key {
      if InBoth(scope, requested, key) && requested.Some? { PrefixesOfOneKey(scope, requested.value, key); }
    }
    if c.Some? { assert InBoth(scope, requested, c.value); }
  }

  datatype ListParams = ListParams(
    prefix: Option<Blob>, limit: Option<nat>, skip: Option<nat>, reverse: Option<bool>, values: Option<bool>)

  /** The prefix handed to the store; an outer `None` answers with an empty listing. */
  function RepoPrefix(identity: Identity, requested: Option<Blob>): Option<Option<Blob>> {
    if identity.Scoped? && identity.keyPrefix != [] then
      match CombineScopedPrefix(identity.keyPrefix, requested)
      case None => None
      case Some(p) => Some(Some(p))
    else Some(requested)
  }

  function OptsOf(p: ListParams, prefix: Option<Blob>, now: Instant): ListOpts {
    ListOpts(
      prefix,
      if p.limit.Some? then p.limit.value else DEFAULT_LIMIT,
      if p.skip.Some? then p.skip.value else 0,
      if p.reverse.Some? then p.reverse.value else false,
      if p.values.Some? then p.values.value else false,
      Some(now))
  }

  /** `list_bucket`, down to the rows it renders. */
  function ListBucket(data: map<Blob, Entry>, a: BucketAuth, p: ListParams, now: Instant): Result<seq<ListEntry>, HttpError> {
    if RequireEnumerate(a).Err? then Err(RequireEnumerate(a).error)
    else
      match RepoPrefix(a.identity, p.prefix)
      case None => Ok([])
      case Some(prefix) => Ok(ListSpec(data, a.bucket, OptsOf(p, prefix, now)))
  }

  /** Keys an identity may see in a listing of `requested`. */
  ghost predicate Listable(data: map<Blob, Entry>, a: BucketAuth, requested: Option<Blob>, now: Instant, key: Blob) {
    && StorageKey(a.bucket, key) in data && |key| <= MAX_KEY_BYTES
    && !ExpiredAt(data[StorageKey(a.bucket, key)], now)
    && (a.identity.Scoped? ==> IsPrefixOk(a.identity.keyPrefix, key))
    && (requested.Some? ==> requested.value <= key)
  }

  lemma PrefixIsScope(identity: Identity, requested: Option<Blob>, key: Blob)
    ensures var r := RepoPrefix(identity, requested);
            (r.Some? && (r.value.Some? ==> r.value.value <= key))
            <==> (identity.Scoped? ==> IsPrefixOk(identity.keyPrefix, key)) && (requested.Some? ==> requested.value <= key)
  {
    if identity.Scoped? {
      CombineIsIntersection(identity.keyPrefix, requested);
      assert InBoth(identity.keyPrefix, requested, key) <==> identity.keyPrefix <= key && (requested.Some? ==> requested.value <= key);
    }
  }

  /** Every row a caller is shown is within its scope, within the request, and unexpired. */
  lemma ScopedListIsSound(data: map<Blob, Entry>, a: BucketAuth, p: ListParams, now: Instant, i: nat)
    requires ListBucket(data, a, p, now).Ok? && i < |ListBucket(data, a, p, now).value|
    ensures Listable(data, a, p.prefix, now, ListBucket(data, a, p, now).value[i].key)
  {
    var opts := OptsOf(p, RepoPrefix(a.identity, p.prefix).value, now);
    var row := ListBucket(data, a, p, now).value[i];
    PageOfRows(data, a.bucket, opts, i);
    RowMembership(data, a.bucket, opts, row);
    PrefixIsScope(a.identity, p.prefix, row.key);
  }

  /** The row a listing shows for a key, with or without its value. */
  ghost predicate IsRow(data: map<Blob, Entry>, a: BucketAuth, p: ListParams, now: Instant, r: ListEntry) {
    && Listable(data, a, p.prefix, now, r.key)
    && r.value == (if p.values == Some(true) then Some(data[StorageKey(a.bucket, r.key)].value) else None)
  }

  /**
    * A listing is refused exactly as the permission check says; otherwise it is the requested page of
    * all listable rows in key order, for every skip, limit, direction and shape, given or default.
    */
  lemma ScopedListIsExact(data: map<Blob, Entry>, a: BucketAuth, p: ListParams, now: Instant) returns (rows: seq<ListEntry>)
    ensures forall i, j :: 0 <= i < j < |rows| ==> Less(rows[i].key, rows[j].key)
    ensures forall r :: r in rows <==> IsRow(data, a, p, now, r)
    ensures ListBucket(data, a, p, now)
            == if RequireEnumerate(a).Err? then Err(RequireEnumerate(a).error)
               else Ok(Page(Ordered(rows, p.reverse == Some(true)),
                            if p.skip.Some? then p.skip.value else 0,
                            if p.limit.Some? then p.limit.value else DEFAULT_LIMIT))
  {
    var prefix := RepoPrefix(a.identity, p.prefix);
    if prefix.None? {
      rows := [];
      forall r ensures !IsRow(data, a, p, now, r) { PrefixIsScope(a.identity, p.prefix, r.key); }
    } else {
      var opts := OptsOf(p, prefix.value, now);
      rows := AllRows(data, a.bucket, opts);
      AllRowsExact(data, a.bucket, opts);
      forall r ensures r in rows <==> IsRow(data, a, p, now, r) {
        RowMembership(data, a.bucket, opts, r);
        PrefixIsScope(a.identity, p.prefix, r.key);
      }
    }
  }
}

/** Single-key requests. */
module KeyRoutes {
  import opened Common
  import opened Bytes
  import opened Layout
  import opened Values
  import opened Counter
  import opened Numbers
  import opened Time
  import opened StoreSpec
  import opened Sweep
  import opened Access
  import opened FjallStores

  /** Seconds an entry is to live: the request's TTL, else the bucket's; 0 is for ever. */
  function Lifetime(ttl: Option<U64>, defaultTtl: Option<U64>): nat {
    if ttl.Some? then ttl.value else if defaultTtl.Some? then defaultTtl.value else 0
  }

  /** Written at `w` for `s` seconds: gets find these bytes and kind exactly while fewer than `s` whole seconds have gone by. */
  ghost predicate Lives(d: Disk, k: Blob, payload: Blob, kind: ValueKind, w: Instant, s: nat) {
    forall u: Instant ::
      && (Found(d, k, u).Some? <==> s == 0 || UnixSeconds(u) < UnixSeconds(w) + s)
      && (Found(d, k, u).Some? ==> Found(d, k, u).value.value == StoredValue(payload, kind))
  }

  lemma TtlLives(d: Disk, k: Blob, value: StoredValue, w: Instant, ttl: Option<U64>, defaultTtl: Option<U64>)
    requires ResolveTtl(w, ttl, defaultTtl).Ok? && ReadsBack(d, k, value, ResolveTtl(w, ttl, defaultTtl).value)
    ensures Lives(d, k, value.payload, value.kind, w, Lifetime(ttl, defaultTtl))
  {
    var s, at := Lifetime(ttl, defaultTtl), ResolveTtl(w, ttl, defaultTtl).value;
    TtlOutcome(w, ttl, defaultTtl);
    if at.Some? { TtlEnds(w, ttl, defaultTtl); }
    forall u: Instant
      ensures Found(d, k, u).Some? <==> s == 0 || UnixSeconds(u) < UnixSeconds(w) + s
      ensures Found(d, k, u).Some? ==> Found(d, k, u).value.value == value
    {
    }
  }

  lemma TtlEnds(w: Instant, ttl: Option<U64>, defaultTtl: Option<U64>)
    requires ResolveTtl(w, ttl, defaultTtl).Ok? && ResolveTtl(w, ttl, defaultTtl).value.Some?
    ensures UnixSeconds(ResolveTtl(w, ttl, defaultTtl).value.value) == UnixSeconds(w) + Lifetime(ttl, defaultTtl)
  {
    var s := Lifetime(ttl, defaultTtl);
    assert (w + s * NANOS) / NANOS == w / NANOS + s;
  }

  /** A write of `bytes` bytes to `key` at `now` passes: key length, permission, size, and an end that exists. */
  ghost predicate MayStore(a: BucketAuth, key: Blob, bytes: nat, ttl: Option<U64>, now: Instant) {
    && |key| <= MAX_KEY_BYTES && RequireWriteOn(a, key).Ok? && bytes <= MAX_VALUE_BYTES
    && UnixSeconds(now) + Lifetime(ttl, a.defaultTtl) <= MAX_UNIX
  }

  /** What a refused request is told: 400, or what the permission check says if the key is well-formed. */
  function Refusal(key: Blob, permission: Result<(), HttpError>): HttpError {
    if |key| <= MAX_KEY_BYTES && permission.Err? then permission.error else BadRequest
  }

  /** `put_key`: the body is stored as it is, with its inferred kind and the TTL asked for. */
  method PutKey(store: FjallStore, h: Host, a: BucketAuth, key: Blob, body: Blob, declared: DeclaredType, ttl: Option<U64>, now: Instant)
    returns (r: Result<StoredValue, HttpError>)
    requires store.Valid()
    modifies store
    ensures store.Valid()
    ensures r.Ok? <==> MayStore(a, key, |body|, ttl, now)
    ensures r.Err? ==> store.View() == old(store.View()) && r.error == Refusal(key, RequireWriteOn(a, key))
    ensures r.Ok? ==> r.value == StoredValue(body, InferKind(h, body, declared))
    ensures r.Ok? ==> Lives(store.View(), StorageKey(a.bucket, key), body, InferKind(h, body, declared), now, Lifetime(ttl, a.defaultTtl))
    ensures forall x :: x != StorageKey(a.bucket, key) ==> Lookup(store.data, x) == Lookup(old(store.data), x)
  {
    TtlOutcome(now, ttl, a.defaultTtl);
    InferredValue(h, body, declared);
    if |key| > MAX_KEY_BYTES { return Err(BadRequest); }
    var allowed := RequireWriteOn(a, key);
    if allowed.Err? { return Err(allowed.error); }
    var stored := InferStoredValue(h, body, declared);
    if stored.Err? { return Err(BadRequest); }
    var expires := ResolveTtl(now, ttl, a.defaultTtl);
    if expires.Err? { return Err(BadRequest); }
    store.Set(a.bucket, key, stored.value, expires.value);
    TtlLives(store.View(), StorageKey(a.bucket, key), stored.value, now, ttl, a.defaultTtl);
    r := Ok(stored.value);
  }

  /** `patch_key`: `now` is read for the TTL, `later` under the lock. */
  method PatchKey(store: FjallStore, h: Host, a: BucketAuth, key: Blob, body: Blob, ttl: Option<U64>, now: Instant, later: Instant)
    returns (r: Result<StoredValue, HttpError>)
    requires store.Valid()
    modifies store
    ensures store.Valid()
    ensures var found := Found(old(store.View()), StorageKey(a.bucket, key), later);
            var merged := if ParseOp(h, body).Ok? then Merge(h, ParseOp(h, body).value, if found.Some? then Some(found.value.value) else None)
                          else Err(InvalidCounterOp);
            && (r.Ok? <==> MayStore(a, key, 0, ttl, now) && merged.Ok?)
            && (r.Ok? ==> r.value == merged.value)
    ensures r.Err? ==> store.View() == old(store.View()) && r.error == Refusal(key, RequireWriteOn(a, key))
    ensures r.Ok? ==> Lives(store.View(), StorageKey(a.bucket, key), r.value.payload, r.value.kind, now, Lifetime(ttl, a.defaultTtl))
    ensures forall x :: x != StorageKey(a.bucket, key) ==> Lookup(store.data, x) == Lookup(old(store.data), x)
  {
    TtlOutcome(now, ttl, a.defaultTtl);
    FoundIsLive(store.View(), StorageKey(a.bucket, key), later);
    if |key| > MAX_KEY_BYTES { return Err(BadRequest); }
    var allowed := RequireWriteOn(a, key);
    if allowed.Err? { return Err(allowed.error); }
    var op := ParseOp(h, body);
    if op.Err? { return Err(BadRequest); }
    var expires := ResolveTtl(now, ttl, a.defaultTtl);
    if expires.Err? { return Err(BadRequest); }
    var counted := store.Increment(h, a.bucket, key, op.value, expires.value, later);
    if counted.Err? { return Err(BadRequest); }
    TtlLives(store.View(), StorageKey(a.bucket, key), counted.value, now, ttl, a.defaultTtl);
    r := Ok(counted.value);
  }

  lemma FoundIsLive(d: Disk, k: Blob, u: Instant)
    ensures Found(d, k, u) == LiveEntry(Lookup(d.data, k), u)
  {
    if k in d.data { ExpiryTestsAgree(d.data[k], u); }
  }

  /** `get_key`. */
  method GetKey(store: FjallStore, a: BucketAuth, key: Blob, now: Instant) returns (r: Result<StoredValue, HttpError>)
    ensures var found := Found(store.View(), StorageKey(a.bucket, key), now);
            r == if |key| > MAX_KEY_BYTES || RequireReadOn(a, key).Err? then Err(Refusal(key, RequireReadOn(a, key)))
                 else if found.Some? then Ok(found.value.value) else Err(NotFound)
  {
    if |key| > MAX_KEY_BYTES { return Err(BadRequest); }
    var allowed := RequireReadOn(a, key);
    if allowed.Err? { return Err(allowed.error); }
    var entry := store.Read(a.bucket, key, now);
    if entry.None? { return Err(NotFound); }
    r := Ok(entry.value.value);
  }

  /** `delete_key`: afterwards the key is not found, whatever it was before. */
  method DeleteKey(store: FjallStore, a: BucketAuth, key: Blob) returns (r: Result<(), HttpError>)
    requires store.Valid()
    modifies store
    ensures store.Valid()
    ensures var k, passed := StorageKey(a.bucket, key), |key| <= MAX_KEY_BYTES && RequireDeleteOn(a, key).Ok?;
            && (r.Ok? <==> passed && k in old(store.data))
            && (r.Err? ==> store.View() == old(store.View()) && r.error == if passed then NotFound else Refusal(key, RequireDeleteOn(a, key)))
            && (passed ==> forall u :: Found(store.View(), k, u).None?)
            && forall x :: x != k ==> Lookup(store.data, x) == Lookup(old(store.data), x)
  {
    if |key| > MAX_KEY_BYTES { return Err(BadRequest); }
    var allowed := RequireDeleteOn(a, key);
    if allowed.Err? { return Err(allowed.error); }
    var existed := store.Delete(a.bucket, key);
    if !existed { assert store.data == old(store.data); return Err(NotFound); }
    r := Ok(());
  }
}

/** The multi-key transaction endpoint. */
module Txn {
  import opened Common
  import opened Bytes
  import opened Layout
  import opened Values
  import opened Counter
  import opened Time
  import opened StoreSpec
  import opened Sweep
  import opened Access
  import opened FjallStores
  import opened Numbers
  import opened KeyRoutes

  /** A JSON value: null, a string, or any other value in serialized form. */
  datatype JsonValue = JsonNull | JsonText(text: Blob) | JsonOther(bytes: Blob)

  datatype TxnItem = SetRequest(key: Blob, value: JsonValue, ttl: Option<U64>) | DeleteRequest(key: Blob)

  function JsonToBody(v: JsonValue): Option<(Blob, DeclaredType)> {
    match v
    case JsonNull => None
    case JsonText(s) => Some((s, Undeclared))
    case JsonOther(b) => Some((b, DeclaredJson))
  }

  /** Key check, authorization, value, TTL, in that order. */
  function BuildOp(h: Host, a: BucketAuth, item: TxnItem, now: Instant): Result<TxnOp, HttpError> {
    if |item.key| > MAX_KEY_BYTES then Err(BadRequest)
    else
      match item
      case DeleteRequest(key) =>
        if RequireDeleteOn(a, key).Err? then Err(RequireDeleteOn(a, key).error) else Ok(TxnDelete(key))
      case SetRequest(key, value, ttl) =>
        if RequireWriteOn(a, key).Err? then Err(RequireWriteOn(a, key).error)
        else
          var body := JsonToBody(value);
          if body.None? then Err(BadRequest)
          else
            var stored := InferStoredValue(h, body.value.0, body.value.1);
            if stored.Err? then Err(BadRequest)
            else
              var expires := ResolveTtl(now, ttl, a.defaultTtl);
              if expires.Err? then Err(BadRequest) else Ok(TxnSet(key, stored.value, expires.value))
  }

  ghost predicate AllBuild(h: Host, a: BucketAuth, items: seq<TxnItem>, clock: seq<Instant>)
    requires |clock| == |items|
  {
    forall i :: 0 <= i < |items| ==> BuildOp(h, a, items[i], clock[i]).Ok?
  }

  ghost function OpsOf(h: Host, a: BucketAuth, items: seq<TxnItem>, clock: seq<Instant>): (ops: seq<TxnOp>)
    requires |clock| == |items| && AllBuild(h, a, items, clock)
    ensures |ops| == |items| && forall i :: 0 <= i < |items| ==> ops[i] == BuildOp(h, a, items[i], clock[i]).value
  {
    seq(|items|, i requires 0 <= i < |items| => BuildOp(h, a, items[i], clock[i]).value)
  }

  function CountSets(items: seq<TxnItem>): (n: nat)
    ensures n <= |items|
  {
    if items == [] then 0 else CountSets(items[..|items| - 1]) + (if items[|items| - 1].SetRequest? then 1 else 0)
  }

  /** The counts logged are the sets and the deletes of the request. */
  ghost predicate CountedAs(items: seq<TxnItem>, counts: (nat, nat)) {
    counts.0 == CountSets(items) && counts.0 + counts.1 == |items|
  }

  /** The bytes a set item stores, and how their kind is inferred: strings as undeclared text, the rest as JSON. */
  function PayloadOf(v: JsonValue): Blob {
    match v
    case JsonNull => []
    case JsonText(s) => s
    case JsonOther(b) => b
  }

  function KindOf(h: Host, v: JsonValue): ValueKind {
    InferKind(h, PayloadOf(v), if v.JsonText? then Undeclared else DeclaredJson)
  }

  function CheckOf(a: BucketAuth, item: TxnItem): Result<(), HttpError> {
    if item.SetRequest? then RequireWriteOn(a, item.key) else RequireDeleteOn(a, item.key)
  }

  /** An item passes: its key, its permission and, for a set, a value that is not null, its size and its TTL. */
  ghost predicate ItemPasses(a: BucketAuth, item: TxnItem, now: Instant) {
    match item
    case DeleteRequest(key) => |key| <= MAX_KEY_BYTES && RequireDeleteOn(a, key).Ok?
    case SetRequest(key, value, ttl) => !value.JsonNull? && MayStore(a, key, |PayloadOf(value)|, ttl, now)
  }

  ghost predicate AllPass(a: BucketAuth, items: seq<TxnItem>, clock: seq<Instant>)
    requires |clock| == |items|
  {
    forall i :: 0 <= i < |items| ==> ItemPasses(a, items[i], clock[i])
  }

  /** Item `i` is the first that does not pass. */
  ghost predicate FirstFailure(a: BucketAuth, items: seq<TxnItem>, clock: seq<Instant>, i: nat)
    requires |clock| == |items| && i < |items|
  {
    !ItemPasses(a, items[i], clock[i]) && forall j :: 0 <= j < i ==> ItemPasses(a, items[j], clock[j])
  }

  /** The first item that does not pass is refused with `e`. */
  ghost predicate RefusedBy(a: BucketAuth, items: seq<TxnItem>, clock: seq<Instant>, e: HttpError)
    requires |clock| == |items|
  {
    exists i :: 0 <= i < |items| && FirstFailure(a, items, clock, i) && e == Refusal(items[i].key, CheckOf(a, items[i]))
  }

  ghost predicate LastItem(items: seq<TxnItem>, i: nat) {
    i < |items| && forall j :: i < j < |items| ==> items[j].key != items[i].key
  }

  /** What the item asked for is so: a set reads back its bytes and kind for its lifetime, a deleted key is gone. */
  ghost predicate ItemDone(h: Host, a: BucketAuth, item: TxnItem, now: Instant, d: Disk) {
    var k := StorageKey(a.bucket, item.key);
    match item
    case DeleteRequest(_) => k !in d.data
    case SetRequest(_, value, ttl) => Lives(d, k, PayloadOf(value), KindOf(h, value), now, Lifetime(ttl, a.defaultTtl))
  }

  /** Building an operation succeeds exactly for items that pass, and says what the item says. */
  lemma BuildOutcome(h: Host, a: BucketAuth, item: TxnItem, now: Instant)
    ensures var r := BuildOp(h, a, item, now);
            && (r.Ok? <==> ItemPasses(a, item, now))
            && (r.Err? ==> r.error == Refusal(item.key, CheckOf(a, item)))
            && (r.Ok? ==>
                  && r.value.key == item.key && r.value.TxnSet? == item.SetRequest?
                  && (item.SetRequest? ==>
                        && r.value.value == StoredValue(PayloadOf(item.value), KindOf(h, item.value))
                        && ResolveTtl(now, item.ttl, a.defaultTtl) == Ok(r.value.expiresAt)))
  {
    if item.SetRequest? {
      TtlOutcome(now, item.ttl, a.defaultTtl);
      if !item.value.JsonNull? { InferredValue(h, PayloadOf(item.value), if item.value.JsonText? then Undeclared else DeclaredJson); }
    }
  }

  ghost predicate BuiltFrom(h: Host, a: BucketAuth, items: seq<TxnItem>, clock: seq<Instant>, ops: seq<TxnOp>) {
    && |ops| == |clock| == |items|
    && forall j :: 0 <= j < |items| ==> BuildOp(h, a, items[j], clock[j]) == Ok(ops[j])
  }

  lemma SameKeys(h: Host, a: BucketAuth, items: seq<TxnItem>, clock: seq<Instant>, ops: seq<TxnOp>)
    requires BuiltFrom(h, a, items, clock, ops)
    ensures forall j :: 0 <= j < |items| ==> ops[j].key == items[j].key
  {
    forall j | 0 <= j < |items| ensures ops[j].key == items[j].key { BuildOutcome(h, a, items[j], clock[j]); }
  }

  /** The last operation on a key brings about what the last item on it asked for. */
  lemma BatchDoesItem(h: Host, a: BucketAuth, items: seq<TxnItem>, clock: seq<Instant>, ops: seq<TxnOp>, i: nat, d: Disk)
    requires BuiltFrom(h, a, items, clock, ops) && LastItem(items, i)
    ensures ItemDone(h, a, items[i], clock[i], ApplyWrites(d, WritesOf(a.bucket, ops)))
  {
    SameKeys(h, a, items, clock, ops);
    BatchReadsBack(d, a.bucket, ops, i);
    BuildOutcome(h, a, items[i], clock[i]);
    if items[i].SetRequest? {
      var d' := ApplyWrites(d, WritesOf(a.bucket, ops));
      TtlLives(d', StorageKey(a.bucket, items[i].key), ops[i].value, clock[i], items[i].ttl, a.defaultTtl);
    }
  }

  /** From `d` to `d'` every key has what the last item on it asked for, and no other key has changed. */
  ghost predicate TxnDone(h: Host, a: BucketAuth, items: seq<TxnItem>, clock: seq<Instant>, d: Disk, d': Disk)
    requires |clock| == |items|
  {
    && (forall i :: 0 <= i < |items| && LastItem(items, i) ==> ItemDone(h, a, items[i], clock[i], d'))
    && (forall x :: (forall i :: 0 <= i < |items| ==> x != StorageKey(a.bucket, items[i].key)) ==> Lookup(d'.data, x) == Lookup(d.data, x))
  }

  lemma BatchDoesTxn(h: Host, a: BucketAuth, items: seq<TxnItem>, clock: seq<Instant>, ops: seq<TxnOp>, d: Disk)
    requires BuiltFrom(h, a, items, clock, ops)
    ensures TxnDone(h, a, items, clock, d, ApplyWrites(d, WritesOf(a.bucket, ops)))
  {
    var d' := ApplyWrites(d, WritesOf(a.bucket, ops));
    forall i | 0 <= i < |items| && LastItem(items, i) ensures ItemDone(h, a, items[i], clock[i], d') {
      BatchDoesItem(h, a, items, clock, ops, i, d);
    }
    SameKeys(h, a, items, clock, ops);
    forall x | forall i :: 0 <= i < |items| ==> x != StorageKey(a.bucket, items[i].key) ensures Lookup(d'.data, x) == Lookup(d.data, x) {
      BatchLeavesOthers(d, a.bucket, ops, x);
    }
  }

  /** The transaction took place: one by one in order, so that every key has what the last item on it asked for. */
  ghost predicate TookPlace(h: Host, a: BucketAuth, items: seq<TxnItem>, clock: seq<Instant>, d: Disk, d': Disk)
    requires |clock| == |items|
  {
    && TxnDone(h, a, items, clock, d, d')
    && AllBuild(h, a, items, clock) && d' == ApplyWrites(d, WritesOf(a.bucket, OpsOf(h, a, items, clock)))
  }

  lemma BatchTakesPlace(h: Host, a: BucketAuth, items: seq<TxnItem>, clock: seq<Instant>, ops: seq<TxnOp>, d: Disk)
    requires BuiltFrom(h, a, items, clock, ops)
    ensures TookPlace(h, a, items, clock, d, ApplyWrites(d, WritesOf(a.bucket, ops)))
  {
    BatchDoesTxn(h, a, items, clock, ops, d);
    assert OpsOf(h, a, items, clock) == ops;
  }

  /** The loop of `execute_txn`: check and build every item, count, stop at the first that fails. */
  method BuildOps(h: Host, a: BucketAuth, items: seq<TxnItem>, clock: seq<Instant>)
    returns (r: Result<(seq<TxnOp>, nat, nat), HttpError>)
    requires |clock| == |items|
    ensures r.Ok? <==> AllPass(a, items, clock)
    ensures r.Ok? ==> BuiltFrom(h, a, items, clock, r.value.0)
    ensures r.Ok? ==> CountedAs(items, (r.value.1, r.value.2))
    ensures r.Err? ==> RefusedBy(a, items, clock, r.error)
  {
    var ops: seq<TxnOp> := [];
    var setCount, deleteCount := 0, 0;
    for i := 0 to |items|
      invariant |ops| == i == setCount + deleteCount && setCount == CountSets(items[..i])
      invariant forall j :: 0 <= j < i ==> ItemPasses(a, items[j], clock[j])
      invariant forall j :: 0 <= j < i ==> BuildOp(h, a, items[j], clock[j]) == Ok(ops[j])
    {
      var op := BuildOp(h, a, items[i], clock[i]);
      BuildOutcome(h, a, items[i], clock[i]);
      if op.Err? {
        assert FirstFailure(a, items, clock, i);
        return Err(op.error);
      }
      assert items[..i + 1][..i] == items[..i];
      ops := ops + [op.value];
      if op.value.TxnSet? { setCount := setCount + 1; } else { deleteCount := deleteCount + 1; }
    }
    assert items[..|items|] == items;
    r := Ok((ops, setCount, deleteCount));
  }

  /**
    * `execute_txn`: everything is checked and built before one commit, so a request changes the
    * store as its operations would one by one, or not at all. `clock` holds the instant read for each item.
    */
  method ExecuteTxn(store: FjallStore, h: Host, a: BucketAuth, body: Option<seq<TxnItem>>, clock: seq<Instant>)
    returns (r: Result<(nat, nat), HttpError>)
    requires store.Valid() && (body.Some? ==> |clock| == |body.value|)
    modifies store
    ensures store.Valid()
    ensures r.Ok? <==> body.Some? && body.value != [] && AllPass(a, body.value, clock)
    ensures r.Err? ==> store.View() == old(store.View())
    ensures r.Ok? ==> TookPlace(h, a, body.value, clock, old(store.View()), store.View())
    ensures r.Ok? ==> CountedAs(body.value, r.value)
    ensures body.None? || body.value == [] ==> r == Err(BadRequest)
    ensures body.Some? && body.value != [] && r.Err? ==> RefusedBy(a, body.value, clock, r.error)
  {
    if body.None? || body.value == [] { return Err(BadRequest); }
    var built := BuildOps(h, a, body.value, clock);
    if built.Err? { return Err(built.error); }
    var (ops, setCount, deleteCount) := built.value;
    BatchTakesPlace(h, a, body.value, clock, ops, store.View());
    store.ApplyBatch(a.bucket, ops);
    r := Ok((setCount, deleteCount));
  }

  /** What a committed operation says about the item it was built from. */
  lemma BuiltOpIsAuthorized(h: Host, a: BucketAuth, item: TxnItem, now: Instant)
    requires BuildOp(h, a, item, now).Ok?
    ensures var op := BuildOp(h, a, item, now).value;
            && op.key == item.key && |op.key| <= MAX_KEY_BYTES
            && (if op.TxnSet? then item.SetRequest? && RequireWriteOn(a, op.key).Ok? && Numeric(h, op.value)
                else item.DeleteRequest? && RequireDeleteOn(a, op.key).Ok?)
            && (a.identity.Scoped? ==> IsPrefixOk(a.identity.keyPrefix, op.key))
  {
    if item.SetRequest? {
      var body := JsonToBody(item.value).value;
      InferredIsNumeric(h, body.0, body.1);
    }
  }

  /** Item `i` is the last of the request on its key, of the right kind, permitted, and within the caller's scope. */
  ghost predicate Permits(a: BucketAuth, items: seq<TxnItem>, i: nat, writes: bool) {
    && i < |items| && (forall j :: i < j < |items| ==> items[j].key != items[i].key)
    && (if writes then items[i].SetRequest? && RequireWriteOn(a, items[i].key).Ok?
        else items[i].DeleteRequest? && RequireDeleteOn(a, items[i].key).Ok?)
    && (a.identity.Scoped? ==> IsPrefixOk(a.identity.keyPrefix, items[i].key))
  }

  /** An entry a transaction stores needed write permission on its key, one it removes needed delete permission. */
  lemma TxnStaysAuthorized(h: Host, a: BucketAuth, items: seq<TxnItem>, clock: seq<Instant>, d: Disk, k: Blob)
    requires |clock| == |items| && AllBuild(h, a, items, clock)
    ensures var before, after := Lookup(d.data, k), Lookup(ApplyWrites(d, WritesOf(a.bucket, OpsOf(h, a, items, clock))).data, k);
            before != after ==>
              exists i :: 0 <= i < |items| && k == StorageKey(a.bucket, items[i].key) && Permits(a, items, i, after.Some?)
  {
    var ops := OpsOf(h, a, items, clock);
    var ws := WritesOf(a.bucket, ops);
    ApplyWritesFrame(d, ws, k);
    if Lookup(ApplyWrites(d, ws).data, k) != Lookup(d.data, k) {
      var i := LastOn(ws, k);
      LastWriteWins(d, ws, i);
      assert ws[i] == WriteOf(a.bucket, ops[i]);
      BuiltOpIsAuthorized(h, a, items[i], clock[i]);
      forall j | i < j < |items| ensures items[j].key != items[i].key {
        assert ws[j] == WriteOf(a.bucket, ops[j]);
        BuiltOpIsAuthorized(h, a, items[j], clock[j]);
      }
      assert Permits(a, items, i, ws[i].PutWrite?);
    }
  }
}
