/** Credential resolution and permission checks. */
module Access {
  import opened Common
  import opened Bytes
  import opened Time
  import opened Policies
  import opened Tokens

  datatype Identity = Anonymous | Admin | Scoped(permissions: Permission, keyPrefix: Blob)

  datatype HttpError = BadRequest | Unauthorized | Forbidden | NotFound | ServiceUnavailable

  datatype Env = Env(codec: Codec, rootKey: Blob)

  function HashCredential(env: Env, raw: Blob): Blob { env.codec.hmac(env.rootKey, raw) }

  predicate Presents(env: Env, cred: Blob, stored: Option<Blob>) {
    stored.Some? && HashCredential(env, cred) == stored.value
  }

  /** Order: secret key, write key, read key, signed token. */
  function Resolve(env: Env, raw: Option<Blob>, p: BucketPolicy, bucket: Blob, now: Instant): Option<Identity> {
    if raw.None? then Some(Anonymous)
    else if Presents(env, raw.value, p.secretHash) then Some(Admin)
    else if Presents(env, raw.value, p.writeHash) then Some(Scoped(WRITE_ONLY, []))
    else if Presents(env, raw.value, p.readHash) then Some(Scoped(READ_ENUMERATE, []))
    else
      match Verify(env.codec, raw.value, p, bucket, now)
      case Ok(claims) => Some(Scoped(claims.permissions, claims.allowedPrefix))
      case Err(_) => None
  }

  datatype BucketAuth = BucketAuth(
    identity: Identity, bucket: Blob, hasSecret: bool, hasRead: bool, hasWrite: bool, anonymous: Permission, defaultTtl: Option<U64>)

  function AuthOf(p: BucketPolicy, bucket: Blob, identity: Identity): BucketAuth {
    BucketAuth(identity, bucket, p.secretHash.Some?, p.readHash.Some?, p.writeHash.Some?, p.anonymous, p.defaultTtl)
  }

  predicate IsPrefixOk(keyPrefix: Blob, key: Blob) { keyPrefix == [] || keyPrefix <= key }

  function Decide(granted: bool, otherwise: HttpError): Result<(), HttpError> { if granted then Ok(()) else Err(otherwise) }

  function RequireAdmin(a: BucketAuth): Result<(), HttpError> { Decide(a.identity.Admin?, Forbidden) }

  function RequireEnumerate(a: BucketAuth): Result<(), HttpError> {
    match a.identity
    case Admin => Ok(())
    case Scoped(permissions, _) => Decide(permissions.enumerate, Forbidden)
    case Anonymous => Decide(!a.hasRead, Unauthorized)
  }

  function RequireReadOn(a: BucketAuth, key: Blob): Result<(), HttpError> {
    match a.identity
    case Admin => Ok(())
    case Scoped(permissions, prefix) => Decide(permissions.read && IsPrefixOk(prefix, key), Forbidden)
    case Anonymous => Decide(!a.hasRead, Unauthorized)
  }

  function RequireWriteOn(a: BucketAuth, key: Blob): Result<(), HttpError> {
    match a.identity
    case Admin => Ok(())
    case Scoped(permissions, prefix) => Decide(permissions.write && IsPrefixOk(prefix, key), Forbidden)
    case Anonymous => if a.hasWrite then Err(Unauthorized) else Decide(a.anonymous.write, Forbidden)
  }

  function RequireDeleteOn(a: BucketAuth, key: Blob): Result<(), HttpError> {
    match a.identity
    case Admin => Ok(())
    case Scoped(permissions, prefix) => Decide(permissions.delete && IsPrefixOk(prefix, key), Forbidden)
    case Anonymous =>
      if a.hasSecret || a.hasWrite || a.hasRead then Err(Unauthorized) else Decide(a.anonymous.delete, Forbidden)
  }

  /** The stored anonymous flags are those derived from which keys are present. */
  predicate Consistent(p: BucketPolicy) { p.anonymous == RecomputeAnonymous(p) }

  /** On a consistent policy anonymous requests go by the stored flags, and are never answered 403. */
  lemma AnonymousGoesByFlags(p: BucketPolicy, bucket: Blob, key: Blob)
    ensures Consistent(p) <==>
            var a := AuthOf(p, bucket, Anonymous);
            && RequireEnumerate(a) == Decide(p.anonymous.enumerate, Unauthorized)
            && RequireReadOn(a, key) == Decide(p.anonymous.read, Unauthorized)
            && RequireWriteOn(a, key) == Decide(p.anonymous.write, Unauthorized)
            && RequireDeleteOn(a, key) == Decide(p.anonymous.delete, Unauthorized)
  {
  }
}

/** Comma-separated permission lists. */
module PermissionLists {
  import opened Common
  import opened Bytes
  import opened Decimal
  import opened Policies
  import opened Access

  const COMMA: Byte := 44
  const READ: Blob := [114, 101, 97, 100]
  const WRITE: Blob := [119, 114, 105, 116, 101]
  const ENUMERATE: Blob := [101, 110, 117, 109, 101, 114, 97, 116, 101]
  const DELETE: Blob := [100, 101, 108, 101, 116, 101]

  function SplitOn(s: Blob, sep: Byte): (parts: seq<Blob>)
    ensures parts != []
  {
    if s == [] then [[]]
    else
      var rest := SplitOn(s[1..], sep);
      if s[0] == sep then [[]] + rest else [[s[0]] + rest[0]] + rest[1..]
  }

  function Joined(parts: seq<Blob>, sep: Byte): Blob
    requires parts != []
  {
    if |parts| == 1 then parts[0] else parts[0] + [sep] + Joined(parts[1..], sep)
  }

  /** The parts hold no separator and rejoin to the text. */
  lemma {:induction false} SplitRejoined(s: Blob, sep: Byte)
    ensures Joined(SplitOn(s, sep), sep) == s
    ensures forall i :: 0 <= i < |SplitOn(s, sep)| ==> sep !in SplitOn(s, sep)[i]
  {
    if s != [] {
      var rest, parts := SplitOn(s[1..], sep), SplitOn(s, sep);
      SplitRejoined(s[1..], sep);
      assert s == [s[0]] + s[1..];
      if s[0] == sep {
        assert parts[1..] == rest && Joined(parts, sep) == [] + [sep] + s[1..];
      } else {
        assert parts[1..] == rest[1..];
        forall i | 0 <= i < |parts| ensures sep !in parts[i] {
          if i > 0 { assert parts[i] == rest[i]; } else { assert sep !in rest[0]; }
        }
      }
    }
  }

  /** The words of a list, without the white space around them. */
  function Words(raw: Blob): (ws: seq<Blob>)
    ensures |ws| == |SplitOn(raw, COMMA)| && forall i :: 0 <= i < |ws| ==> ws[i] == Trim(SplitOn(raw, COMMA)[i])
  {
    var parts := SplitOn(raw, COMMA);
    seq(|parts|, i requires 0 <= i < |parts| => Trim(parts[i]))
  }

  predicate Known(w: Blob) { w == [] || w == READ || w == WRITE || w == ENUMERATE || w == DELETE }

  function FlagsOf(ws: seq<Blob>): Permission { Permission(READ in ws, WRITE in ws, ENUMERATE in ws, DELETE in ws) }

  /** Every word is a permission or blank, and some word is a permission. */
  predicate Readable(raw: Blob) {
    var ws := Words(raw);
    (forall i :: 0 <= i < |ws| ==> Known(ws[i])) && exists i :: 0 <= i < |ws| && ws[i] != []
  }

  function PermissionsOf(raw: Blob): Permission { FlagsOf(Words(raw)) }

  /** One more word sets its own flag. */
  function WithWord(p: Permission, w: Blob): Permission {
    if w == READ then p.(read := true)
    else if w == WRITE then p.(write := true)
    else if w == ENUMERATE then p.(enumerate := true)
    else if w == DELETE then p.(delete := true)
    else p
  }

  lemma FlagsSnoc(ws: seq<Blob>, w: Blob)
    ensures FlagsOf(ws + [w]) == WithWord(FlagsOf(ws), w)
  {
    assert |READ| == 4 && |WRITE| == 5 && |ENUMERATE| == 9 && |DELETE| == 6;
  }

  lemma NoFlags(ws: seq<Blob>)
    requires forall i :: 0 <= i < |ws| ==> Known(ws[i])
    ensures FlagsOf(ws) == NONE <==> forall i :: 0 <= i < |ws| ==> ws[i] == []
  {
    forall i | 0 <= i < |ws| && ws[i] != [] ensures FlagsOf(ws) != NONE { assert ws[i] in ws; }
  }

  /** `parse_permissions`: sets a flag per word, stops at a word it does not know. */
  method ParsePermissions(raw: Blob) returns (r: Result<Permission, HttpError>)
    ensures r == if Readable(raw) then Ok(PermissionsOf(raw)) else Err(BadRequest)
  {
    var parts := SplitOn(raw, COMMA);
    ghost var ws := Words(raw);
    var p := NONE;
    for i := 0 to |parts|
      invariant p == FlagsOf(ws[..i])
      invariant forall j :: 0 <= j < i ==> Known(ws[j])
    {
      assert ws[..i + 1] == ws[..i] + [ws[i]];
      FlagsSnoc(ws[..i], ws[i]);
      var part := Trim(parts[i]);
      if part == [] { continue; }
      if part == READ { p := p.(read := true); }
      else if part == WRITE { p := p.(write := true); }
      else if part == ENUMERATE { p := p.(enumerate := true); }
      else if part == DELETE { p := p.(delete := true); }
      else { return Err(BadRequest); }
    }
    assert ws[..|parts|] == ws;
    NoFlags(ws);
    if p == NONE { return Err(BadRequest); }
    r := Ok(p);
  }
}

/** Bucket policies over time: creation, patches, deletion, token minting. */
module Lifecycle {
  import opened Common
  import opened Bytes
  import opened Time
  import opened Policies
  import opened Base64Url
  import opened Tokens
  import opened Access
  import opened PermissionLists

  const DEFAULT_BUCKET_TTL_SECS: U64 := 604_800

  /** Absent, null, or a value, for each field. */
  datatype PolicyPatch = PolicyPatch(
    secretKey: Option<Option<Blob>>,
    readKey: Option<Option<Blob>>,
    writeKey: Option<Option<Blob>>,
    signingKey: Option<Option<Blob>>,
    defaultTtl: Option<Option<U64>>)

  datatype Audit = Audit(
    secretKeyRotated: bool, readKeyChanged: bool, writeKeyChanged: bool,
    signingKeyChanged: bool, signingKeyCleared: bool, defaultTtlChanged: bool)

  predicate IsEmptyText(field: Option<Option<Blob>>) { field == Some(Some([])) }

  /** A patch is refused when it clears the secret key or carries an empty string. */
  predicate Acceptable(patch: PolicyPatch) {
    && patch.secretKey != Some(None)
    && !IsEmptyText(patch.secretKey) && !IsEmptyText(patch.readKey)
    && !IsEmptyText(patch.writeKey) && !IsEmptyText(patch.signingKey)
  }

  function HashField(env: Env, field: Option<Option<Blob>>, current: Option<Blob>): Option<Blob> {
    if field.None? then current
    else if field.value.None? then None
    else Some(HashCredential(env, field.value.value))
  }

  predicate ChangesSigningKey(p: BucketPolicy, patch: PolicyPatch) {
    patch.signingKey.Some? && patch.signingKey.value != p.signingKey
  }

  function NextGeneration(g: U64): U64 { (g + 1) % TWO_64 }

  /** The policy after an acceptable patch, before the anonymous flags are derived again. */
  function Patched(env: Env, p: BucketPolicy, patch: PolicyPatch): BucketPolicy {
    BucketPolicy(
      if patch.defaultTtl.Some? then patch.defaultTtl.value else p.defaultTtl,
      p.anonymous,
      HashField(env, patch.secretKey, p.secretHash),
      HashField(env, patch.readKey, p.readHash),
      HashField(env, patch.writeKey, p.writeHash),
      if patch.signingKey.Some? then patch.signingKey.value else p.signingKey,
      if ChangesSigningKey(p, patch) then NextGeneration(p.generation) else p.generation)
  }

  /** The stored hash accepts exactly the credentials that hash as `key` does. */
  ghost predicate Accepts(env: Env, stored: Option<Blob>, key: Option<Blob>) {
    && (stored.Some? <==> key.Some?)
    && forall c :: Presents(env, c, stored) <==> key.Some? && HashCredential(env, c) == HashCredential(env, key.value)
  }

  /** A patched field is the new key or cleared; a field left out is as it was. */
  ghost predicate FieldTook(env: Env, field: Option<Option<Blob>>, before: Option<Blob>, after: Option<Blob>) {
    match field
    case None => after == before
    case Some(key) => Accepts(env, after, key)
  }

  /** From `p` to `q` exactly the fields the patch names have changed, each to what it says. */
  ghost predicate FieldsTook(env: Env, p: BucketPolicy, patch: PolicyPatch, q: BucketPolicy) {
    && FieldTook(env, patch.secretKey, p.secretHash, q.secretHash)
    && FieldTook(env, patch.readKey, p.readHash, q.readHash)
    && FieldTook(env, patch.writeKey, p.writeHash, q.writeHash)
    && q.signingKey == (match patch.signingKey case None => p.signingKey case Some(key) => key)
    && q.generation == (if q.signingKey == p.signingKey then p.generation
                        else if p.generation == TWO_64 - 1 then 0 else p.generation + 1)
    && q.defaultTtl == (match patch.defaultTtl case None => p.defaultTtl case Some(ttl) => ttl)
  }

  lemma PatchedTook(env: Env, p: BucketPolicy, patch: PolicyPatch)
    ensures FieldsTook(env, p, patch, Patched(env, p, patch)) && Patched(env, p, patch).anonymous == p.anonymous
  {
  }

  /** A loaded policy being edited in place. */
  class PolicyDraft {
    var defaultTtl: Option<U64>
    var anonymous: Permission
    var secretHash: Option<Blob>
    var readHash: Option<Blob>
    var writeHash: Option<Blob>
    var signingKey: Option<Blob>
    var generation: U64

    ghost function View(): BucketPolicy
      reads this
    {
      BucketPolicy(defaultTtl, anonymous, secretHash, readHash, writeHash, signingKey, generation)
    }

    constructor (p: BucketPolicy)
      ensures View() == p
    {
      defaultTtl, anonymous := p.defaultTtl, p.anonymous;
      secretHash, readHash, writeHash := p.secretHash, p.readHash, p.writeHash;
      signingKey, generation := p.signingKey, p.generation;
    }

    /** `apply_policy_patch`: field by field, stopping at the first bad one. */
    method Apply(env: Env, patch: PolicyPatch) returns (r: Result<Audit, HttpError>)
      modifies this
      ensures r.Ok? <==> Acceptable(patch)
      ensures r.Err? ==> r.error == BadRequest
      ensures r.Ok? ==> View() == Patched(env, old(View()), patch)
      ensures r.Ok? ==> FieldsTook(env, old(View()), patch, View()) && anonymous == old(anonymous)
      ensures r.Ok? ==> r.value == Audit(patch.secretKey.Some?, patch.readKey.Some?, patch.writeKey.Some?,
                                         ChangesSigningKey(old(View()), patch), patch.signingKey == Some(None),
                                         patch.defaultTtl.Some?)
    {
      PatchedTook(env, View(), patch);
      var audit := Audit(false, false, false, false, false, false);
      if patch.secretKey.Some? {
        if patch.secretKey.value.None? || patch.secretKey.value.value == [] { return Err(BadRequest); }
        secretHash := Some(HashCredential(env, patch.secretKey.value.value));
        audit := audit.(secretKeyRotated := true);
      }
      if patch.readKey.Some? {
        audit := audit.(readKeyChanged := true);
        if IsEmptyText(patch.readKey) { return Err(BadRequest); }
        readHash := HashField(env, patch.readKey, readHash);
      }
      if patch.writeKey.Some? {
        audit := audit.(writeKeyChanged := true);
        if IsEmptyText(patch.writeKey) { return Err(BadRequest); }
        writeHash := HashField(env, patch.writeKey, writeHash);
      }
      if patch.signingKey.Some? {
        if IsEmptyText(patch.signingKey) { return Err(BadRequest); }
        var changed := signingKey != patch.signingKey.value;
        if changed { generation := (generation + 1) % TWO_64; }
        audit := audit.(signingKeyCleared := patch.signingKey.value.None?, signingKeyChanged := changed);
        signingKey := patch.signingKey.value;
      }
      if patch.defaultTtl.Some? {
        audit := audit.(defaultTtlChanged := true);
        defaultTtl := patch.defaultTtl.value;
      }
      r := Ok(audit);
    }
  }

  datatype CreateForm = CreateForm(
    emailOk: bool, secretKey: Option<Blob>, readKey: Option<Blob>, writeKey: Option<Blob>, signingKey: Option<Blob>,
    defaultTtl: Option<U64>)

  function NoneIfEmpty(s: Option<Blob>): Option<Blob> { if s == Some([]) then None else s }

  function HashOpt(env: Env, raw: Option<Blob>): Option<Blob> {
    if raw.Some? then Some(HashCredential(env, raw.value)) else None
  }

  function Created(env: Env, f: CreateForm): BucketPolicy {
    var secret, read, write := NoneIfEmpty(f.secretKey), NoneIfEmpty(f.readKey), NoneIfEmpty(f.writeKey);
    BucketPolicy(
      Some(if f.defaultTtl.Some? then f.defaultTtl.value else DEFAULT_BUCKET_TTL_SECS),
      AnonymousFromKeys(secret.Some?, read.Some?, write.Some?),
      HashOpt(env, secret), HashOpt(env, read), HashOpt(env, write), NoneIfEmpty(f.signingKey), 0)
  }

  type Meta = map<Blob, BucketPolicy>

  /** `BucketAuth` extraction: unknown buckets are 404, bad credentials 401. */
  function Authenticate(env: Env, meta: Meta, id: Blob, cred: Option<Blob>, now: Instant): Result<BucketAuth, HttpError> {
    if id !in meta then Err(NotFound)
    else
      match Resolve(env, cred, meta[id], id, now)
      case None => Err(Unauthorized)
      case Some(identity) => Ok(AuthOf(meta[id], id, identity))
  }

  /** Handler calls that can write bucket metadata; a patch of `None` is a malformed body. */
  datatype Request =
    | CreateBucket(id: Blob, form: CreateForm)
    | UpdatePolicy(id: Blob, cred: Option<Blob>, patch: Option<PolicyPatch>, now: Instant)
    | DeleteBucket(id: Blob, cred: Option<Blob>, now: Instant)

  /** What every administrative handler does first: authenticate, then demand the admin identity. */
  function AdminCheck(env: Env, meta: Meta, id: Blob, cred: Option<Blob>, now: Instant): Result<(), HttpError> {
    match Authenticate(env, meta, id, cred, now)
    case Err(e) => Err(e)
    case Ok(auth) => RequireAdmin(auth)
  }

  /** The caller holds the bucket's secret key. */
  predicate AsAdmin(env: Env, meta: Meta, id: Blob, cred: Option<Blob>) {
    id in meta && cred.Some? && Presents(env, cred.value, meta[id].secretHash)
  }

  /** Only a match of the secret key passes authentication and the admin check; the error says which step failed. */
  lemma AdminOnlyBySecretKey(env: Env, meta: Meta, id: Blob, cred: Option<Blob>, now: Instant)
    ensures var r := AdminCheck(env, meta, id, cred, now);
            && (r.Ok? <==> AsAdmin(env, meta, id, cred))
            && (r == Err(NotFound) <==> id !in meta)
            && (cred.None? && id in meta ==> r == Err(Forbidden))
  {
  }

  /** The checks of an authenticated caller on `key` pass as the flags say; a refusal is 403. */
  ghost predicate Grants(a: BucketAuth, key: Blob, read: bool, write: bool, delete: bool, enumerate: bool, admin: bool) {
    && RequireReadOn(a, key) == (if read then Ok(()) else Err(Forbidden))
    && RequireWriteOn(a, key) == (if write then Ok(()) else Err(Forbidden))
    && RequireDeleteOn(a, key) == (if delete then Ok(()) else Err(Forbidden))
    && RequireEnumerate(a) == (if enumerate then Ok(()) else Err(Forbidden))
    && RequireAdmin(a) == (if admin then Ok(()) else Err(Forbidden))
  }

  /**
    * What a credential is good for. The secret key passes every check; else the write key lets its
    * holder write every key and nothing more; else the read key, read every key and enumerate; else a
    * token that verifies, what its claims name, on the keys under its prefix; anything else is 401.
    */
  lemma CredentialRights(env: Env, meta: Meta, id: Blob, cred: Blob, now: Instant, key: Blob)
    requires id in meta
    ensures var p, a := meta[id], Authenticate(env, meta, id, Some(cred), now);
            if Presents(env, cred, p.secretHash) then a.Ok? && Grants(a.value, key, true, true, true, true, true)
            else if Presents(env, cred, p.writeHash) then a.Ok? && Grants(a.value, key, false, true, false, false, false)
            else if Presents(env, cred, p.readHash) then a.Ok? && Grants(a.value, key, true, false, false, true, false)
            else
              match Verify(env.codec, cred, p, id, now)
              case Err(_) => a == Err(Unauthorized)
              case Ok(c) =>
                var inside := c.allowedPrefix <= key;
                && a.Ok?
                && Grants(a.value, key, c.permissions.read && inside, c.permissions.write && inside,
                          c.permissions.delete && inside, c.permissions.enumerate, false)
  {
  }

  /** Without a credential: what has no key is open, what has one answers 401. */
  lemma AnonymousRights(env: Env, meta: Meta, id: Blob, now: Instant, key: Blob)
    requires id in meta && Consistent(meta[id])
    ensures var p, a := meta[id], Authenticate(env, meta, id, None, now);
            && a.Ok?
            && RequireReadOn(a.value, key) == (if p.readHash.None? then Ok(()) else Err(Unauthorized))
            && RequireEnumerate(a.value) == (if p.readHash.None? then Ok(()) else Err(Unauthorized))
            && RequireWriteOn(a.value, key) == (if p.writeHash.None? then Ok(()) else Err(Unauthorized))
            && RequireDeleteOn(a.value, key)
               == (if p.secretHash.None? && p.readHash.None? && p.writeHash.None? then Ok(()) else Err(Unauthorized))
            && RequireAdmin(a.value) == Err(Forbidden)
  {
  }

  /** Whoever is let in acts on the bucket asked for, under its default TTL. */
  lemma AuthenticatedBucket(env: Env, meta: Meta, id: Blob, cred: Option<Blob>, now: Instant)
    ensures var a := Authenticate(env, meta, id, cred, now);
            a.Ok? ==> id in meta && a.value.bucket == id && a.value.defaultTtl == meta[id].defaultTtl
  {
  }

  // ---- what creation and patches store -----------------------------------------------------------

  /** Flags that open exactly what has no key, and deletion only where there is no key at all. */
  ghost predicate OpenWhereKeyless(q: BucketPolicy) {
    && q.anonymous.read == q.anonymous.enumerate == q.readHash.None?
    && q.anonymous.write == q.writeHash.None?
    && q.anonymous.delete == (q.secretHash.None? && q.readHash.None? && q.writeHash.None?)
  }

  /** A form field counts when it is there and not empty. */
  ghost predicate Filled(field: Option<Blob>, key: Option<Blob>) {
    key == if field.Some? && |field.value| > 0 then field else None
  }

  /** A new bucket accepts its creator's keys as what they are, and has the form's TTL or seven days. */
  lemma CreatedBucket(env: Env, meta: Meta, id: Blob, form: CreateForm)
    ensures var f := Handle(env, meta, CreateBucket(id, form));
            && f.Keys == meta.Keys + (if form.emailOk then {id} else {})
            && (forall x :: x in meta && (x != id || !form.emailOk) ==> f[x] == meta[x])
            && (form.emailOk ==>
                  var q := f[id];
                  && (forall k :: Filled(form.secretKey, k) ==> Accepts(env, q.secretHash, k))
                  && (forall k :: Filled(form.readKey, k) ==> Accepts(env, q.readHash, k))
                  && (forall k :: Filled(form.writeKey, k) ==> Accepts(env, q.writeHash, k))
                  && Filled(form.signingKey, q.signingKey) && q.generation == 0 && OpenWhereKeyless(q)
                  && q.defaultTtl == Some(if form.defaultTtl.Some? then form.defaultTtl.value else 7 * 24 * 60 * 60))
  {
  }

  /** Deletion takes away the bucket, and only it, exactly when the secret key is presented. */
  lemma DeletedBucket(env: Env, meta: Meta, id: Blob, cred: Option<Blob>, now: Instant)
    ensures var f := Handle(env, meta, DeleteBucket(id, cred, now));
            && (id in f <==> id in meta && !AsAdmin(env, meta, id, cred))
            && (forall x :: x != id || !AsAdmin(env, meta, id, cred) ==> (x in f <==> x in meta) && (x in f ==> f[x] == meta[x]))
  {
    AdminOnlyBySecretKey(env, meta, id, cred, now);
  }

  /** From `p` to `q` exactly what the patch names has changed, and the flags follow the keys. */
  ghost predicate PatchTook(env: Env, p: BucketPolicy, patch: PolicyPatch, q: BucketPolicy) {
    FieldsTook(env, p, patch, q) && OpenWhereKeyless(q)
  }

  lemma RepatchedTook(env: Env, p: BucketPolicy, patch: PolicyPatch)
    ensures PatchTook(env, p, patch, Repatched(env, p, patch))
  {
    PatchedTook(env, p, patch);
  }

  /** `update_policy` on the stored policy. */
  function Repatched(env: Env, p: BucketPolicy, patch: PolicyPatch): BucketPolicy {
    var q := Patched(env, p, patch);
    q.(anonymous := RecomputeAnonymous(q))
  }

  function Handle(env: Env, meta: Meta, req: Request): Meta {
    match req
    case CreateBucket(id, form) => if form.emailOk then meta[id := Created(env, form)] else meta
    case UpdatePolicy(id, cred, patch, now) =>
      if AdminCheck(env, meta, id, cred, now).Ok? && patch.Some? && Acceptable(patch.value)
      then meta[id := Repatched(env, meta[id], patch.value)] else meta
    case DeleteBucket(id, cred, now) => if AdminCheck(env, meta, id, cred, now).Ok? then meta - {id} else meta
  }

  /** The metadata keyspace and its handlers. */
  class MetaStore {
    var meta: Meta

    constructor ()
      ensures meta == map[]
    {
      meta := map[];
    }

    /** Load, patch a private copy, derive the flags, store; any refusal leaves the store alone. */
    method Update(env: Env, id: Blob, cred: Option<Blob>, patch: Option<PolicyPatch>, now: Instant) returns (r: Result<Audit, HttpError>)
      modifies this
      ensures meta == Handle(env, old(meta), UpdatePolicy(id, cred, patch, now))
      ensures r.Ok? <==> AsAdmin(env, old(meta), id, cred) && patch.Some? && patch.value.secretKey != Some(None)
                         && Some(Some([])) !in [patch.value.secretKey, patch.value.readKey, patch.value.writeKey, patch.value.signingKey]
      ensures r.Err? ==> meta == old(meta)
      ensures r.Ok? ==> meta.Keys == old(meta).Keys && PatchTook(env, old(meta)[id], patch.value, meta[id])
      ensures forall x :: x in meta && x != id ==> x in old(meta) && meta[x] == old(meta)[x]
      ensures AdminCheck(env, old(meta), id, cred, now).Ok? && r.Err? ==> r.error == BadRequest
      ensures AdminCheck(env, old(meta), id, cred, now).Err? ==> r == Err(AdminCheck(env, old(meta), id, cred, now).error)
    {
      AdminOnlyBySecretKey(env, meta, id, cred, now);
      var auth := Authenticate(env, meta, id, cred, now);
      if auth.Err? { return Err(auth.error); }
      var admin := RequireAdmin(auth.value);
      if admin.Err? { return Err(admin.error); }
      if patch.None? { return Err(BadRequest); }
      var draft := new PolicyDraft(meta[id]);
      r := draft.Apply(env, patch.value);
      if r.Err? { return; }
      var q := BucketPolicy(draft.defaultTtl, draft.anonymous, draft.secretHash, draft.readHash, draft.writeHash,
                            draft.signingKey, draft.generation);
      RepatchedTook(env, meta[id], patch.value);
      meta := meta[id := q.(anonymous := RecomputeAnonymous(q))];
    }
  }

  function RunRequests(env: Env, meta: Meta, reqs: seq<Request>): Meta
    decreases |reqs|
  {
    if reqs == [] then meta else Handle(env, RunRequests(env, meta, reqs[..|reqs| - 1]), reqs[|reqs| - 1])
  }

  // ---- every reachable policy ----------------------------------------------------------------

  ghost predicate AllConsistent(meta: Meta) { forall id :: id in meta ==> Consistent(meta[id]) }

  /** Whatever the handlers are asked, stored flags match the stored keys. */
  lemma {:induction false} ReachablePoliciesConsistent(env: Env, meta: Meta, reqs: seq<Request>)
    requires AllConsistent(meta)
    ensures AllConsistent(RunRequests(env, meta, reqs))
    decreases |reqs|
  {
    if reqs != [] { ReachablePoliciesConsistent(env, meta, reqs[..|reqs| - 1]); }
  }

  /** Bucket ids are drawn fresh, so no later creation meets an existing bucket. */
  ghost predicate NeverRecreates(reqs: seq<Request>, id: Blob) {
    forall i :: 0 <= i < |reqs| && reqs[i].CreateBucket? ==> reqs[i].id != id
  }

  /** A present secret key can be rotated but never lost. */
  lemma {:induction false} SecretKeyNeverLost(env: Env, meta: Meta, reqs: seq<Request>, id: Blob)
    requires id in meta && meta[id].secretHash.Some? && NeverRecreates(reqs, id)
    ensures var f := RunRequests(env, meta, reqs); id in f ==> f[id].secretHash.Some?
    decreases |reqs|
  {
    if reqs != [] { SecretKeyNeverLost(env, meta, reqs[..|reqs| - 1], id); }
  }

  // ---- tokens over a run ---------------------------------------------------------------------

  datatype TokenForm = TokenForm(prefix: Blob, permissions: Blob, ttl: I64)

  /** `create_token`. */
  function CreateToken(env: Env, meta: Meta, id: Blob, cred: Option<Blob>, form: TokenForm, now: Instant): Result<(Claims, Blob), HttpError> {
    var admin := AdminCheck(env, meta, id, cred, now);
    if admin.Err? then Err(admin.error)
    else if meta[id].signingKey.None? then Err(ServiceUnavailable)
    else if form.ttl <= 0 || form.prefix == [] then Err(BadRequest)
    else
      match CheckedAddSeconds(now, form.ttl)
      case None => Err(BadRequest)
      case Some(exp) =>
        if !Readable(form.permissions) then Err(BadRequest)
        else
          var claims := Claims(1, id, meta[id].generation, form.prefix, PermissionsOf(form.permissions), now, exp);
          Ok((claims, Mint(env.codec, claims, meta[id].signingKey.value)))
  }

  /** The flags of `p` are those whose words are in the list. */
  ghost predicate Names(raw: Blob, p: Permission) {
    && (p.read <==> READ in Words(raw)) && (p.write <==> WRITE in Words(raw))
    && (p.enumerate <==> ENUMERATE in Words(raw)) && (p.delete <==> DELETE in Words(raw))
  }

  /** The form asks for a lifetime that exists, a prefix and permissions. */
  ghost predicate GoodForm(form: TokenForm, now: Instant) {
    form.ttl > 0 && form.prefix != [] && now + form.ttl * NANOS < (MAX_UNIX + 1) * NANOS && Readable(form.permissions)
  }

  /** Who gets a token, and what it says: exactly what the form asks for, from now on, under the current key. */
  lemma CreateTokenOutcome(env: Env, meta: Meta, id: Blob, cred: Option<Blob>, form: TokenForm, now: Instant)
    ensures var r := CreateToken(env, meta, id, cred, form, now);
            && (r.Ok? <==> AsAdmin(env, meta, id, cred) && meta[id].signingKey.Some? && GoodForm(form, now))
            && (r == Err(ServiceUnavailable) <==> AsAdmin(env, meta, id, cred) && meta[id].signingKey.None?)
            && (r == Err(BadRequest) <==> AsAdmin(env, meta, id, cred) && meta[id].signingKey.Some? && !GoodForm(form, now))
            && (r == Err(NotFound) <==> id !in meta)
            && (r.Ok? ==>
                  var (claims, token) := r.value;
                  && claims.version == 1 && claims.bucket == id && claims.generation == meta[id].generation
                  && claims.allowedPrefix == form.prefix && Names(form.permissions, claims.permissions)
                  && claims.iat == now && claims.exp == now + form.ttl * NANOS
                  && var json := env.codec.toJson(claims);
                     token == Encode(json) + [DOT] + Encode(env.codec.hmac(meta[id].signingKey.value, json)))
  {
    AdminOnlyBySecretKey(env, meta, id, cred, now);
  }

  /**
    * A bucket without a secret key has no administrator: after any run its policy is there and
    * unchanged, and nobody can be handed a token for it.
    */
  lemma {:induction false} KeylessBucketFrozen(env: Env, meta: Meta, reqs: seq<Request>, id: Blob)
    requires id in meta && meta[id].secretHash.None? && NeverRecreates(reqs, id)
    ensures var f := RunRequests(env, meta, reqs);
            && id in f && f[id] == meta[id]
            && forall cred, form, now :: CreateToken(env, f, id, cred, form, now).Err?
    decreases |reqs|
  {
    var f := RunRequests(env, meta, reqs);
    if reqs != [] {
      var init, req := reqs[..|reqs| - 1], reqs[|reqs| - 1];
      KeylessBucketFrozen(env, meta, init, id);
      match req
      case UpdatePolicy(x, cred, _, now) => AdminOnlyBySecretKey(env, RunRequests(env, meta, init), x, cred, now);
      case DeleteBucket(x, cred, now) => AdminOnlyBySecretKey(env, RunRequests(env, meta, init), x, cred, now);
      case _ =>
    }
    forall cred, form, now ensures CreateToken(env, f, id, cred, form, now).Err? { AdminOnlyBySecretKey(env, f, id, cred, now); }
  }

  /** How often the signing key bytes of `id` have changed during a run. */
  function KeyChanges(env: Env, meta: Meta, reqs: seq<Request>, id: Blob): nat
    decreases |reqs|
  {
    if reqs == [] then 0
    else
      var init, req := reqs[..|reqs| - 1], reqs[|reqs| - 1];
      var before := RunRequests(env, meta, init);
      KeyChanges(env, meta, init, id) + Change(before, Handle(env, before, req), id)
  }

  function Change(before: Meta, after: Meta, id: Blob): nat {
    if id in before && id in after && before[id].signingKey != after[id].signingKey then 1 else 0
  }

  /** From `p` to `q` the key bytes changed `n` times. */
  ghost predicate Aged(p: BucketPolicy, q: BucketPolicy, n: nat) {
    q.generation == (p.generation + n) % TWO_64 && (n == 0 ==> q.signingKey == p.signingKey)
  }

  lemma SmallMod(n: int)
    requires 0 <= n < TWO_64
    ensures n % TWO_64 == n
  {
  }

  lemma AgedTransitive(p: BucketPolicy, q: BucketPolicy, r: BucketPolicy, n: nat, d: nat)
    requires Aged(p, q, n) && Aged(q, r, d)
    ensures Aged(p, r, n + d)
  {
    var g := p.generation + n;
    assert g + d == g % TWO_64 + d + g / TWO_64 * TWO_64;
  }

  /** One handler call bumps the generation exactly when it changes the key bytes. */
  lemma GenerationStep(env: Env, meta: Meta, req: Request, id: Blob)
    requires !(req.CreateBucket? && req.id == id)
    ensures var f := Handle(env, meta, req); id in f ==> id in meta && Aged(meta[id], f[id], Change(meta, f, id))
  {
    if id in meta { SmallMod(meta[id].generation); }
  }

  /** The generation counts key changes, modulo the width of its counter. */
  lemma {:induction false} GenerationCountsChanges(env: Env, meta: Meta, reqs: seq<Request>, id: Blob)
    requires id in meta && NeverRecreates(reqs, id)
    ensures var f := RunRequests(env, meta, reqs);
            id in f ==> Aged(meta[id], f[id], KeyChanges(env, meta, reqs, id))
    decreases |reqs|
  {
    if reqs == [] {
      SmallMod(meta[id].generation);
    } else {
      var init, req := reqs[..|reqs| - 1], reqs[|reqs| - 1];
      var before := RunRequests(env, meta, init);
      var after := Handle(env, before, req);
      GenerationCountsChanges(env, meta, init, id);
      GenerationStep(env, before, req, id);
      if id in after {
        AgedTransitive(meta[id], before[id], after[id], KeyChanges(env, meta, init, id), Change(before, after, id));
      }
    }
  }

  /**
    * The life of a token. After any later run of handler calls on the bucket, a token minted
    * before it verifies exactly when it is presented to its bucket, before its expiry, and the
    * number of key changes since is a multiple of 2^64 with a matching signature.
    */
  lemma TokenLifeExact(env: Env, meta: Meta, id: Blob, cred: Option<Blob>, form: TokenForm, minted: Instant,
                       reqs: seq<Request>, bucket: Blob, now: Instant)
    requires Lossless(env.codec) && CreateToken(env, meta, id, cred, form, minted).Ok? && NeverRecreates(reqs, id)
    ensures var (claims, token) := CreateToken(env, meta, id, cred, form, minted).value;
            var f := RunRequests(env, meta, reqs);
            var json := env.codec.toJson(claims);
            id in f ==>
              (Verify(env.codec, token, f[id], bucket, now).Ok? <==>
                 && bucket == id && now < minted + form.ttl * NANOS
                 && KeyChanges(env, meta, reqs, id) % TWO_64 == 0
                 && f[id].signingKey.Some?
                 && env.codec.hmac(f[id].signingKey.value, json) == env.codec.hmac(meta[id].signingKey.value, json))
  {
    var (claims, token) := CreateToken(env, meta, id, cred, form, minted).value;
    var f := RunRequests(env, meta, reqs);
    CreateTokenOutcome(env, meta, id, cred, form, minted);
    if id in f {
      GenerationCountsChanges(env, meta, reqs, id);
      AgedVerifies(env, claims, meta[id], f[id], KeyChanges(env, meta, reqs, id), bucket, now);
    }
  }

  /** A token of policy `p` against policy `q`, `n` key changes later. */
  lemma AgedVerifies(env: Env, claims: Claims, p: BucketPolicy, q: BucketPolicy, n: nat, bucket: Blob, now: Instant)
    requires Lossless(env.codec) && p.signingKey.Some? && claims.generation == p.generation && Aged(p, q, n)
    ensures var json := env.codec.toJson(claims);
            Verify(env.codec, Mint(env.codec, claims, p.signingKey.value), q, bucket, now).Ok? <==>
              && bucket == claims.bucket && now < claims.exp && n % TWO_64 == 0 && q.signingKey.Some?
              && env.codec.hmac(q.signingKey.value, json) == env.codec.hmac(p.signingKey.value, json)
  {
    MintedVerifies(env.codec, claims, p.signingKey.value, q, bucket, now);
    WrapsToZero(p.generation, n);
  }

  lemma WrapsToZero(g: U64, n: nat)
    ensures (g + n) % TWO_64 == g <==> n % TWO_64 == 0
  {
    var q, r := n / TWO_64, n % TWO_64;
    assert (g + n) % TWO_64 == (g + r) % TWO_64 by { assert g + n == g + r + q * TWO_64; }
    assert (g + r) % TWO_64 == (if g + r < TWO_64 then g + r else g + r - TWO_64);
  }

  /**
    * Short of 2^64 rotations, a token lives exactly until its expiry or the first change of the
    * signing key: rotating away and back does not revive it, replaying the same key does not end it.
    */
  lemma TokenLife(env: Env, meta: Meta, id: Blob, cred: Option<Blob>, form: TokenForm, minted: Instant,
                  reqs: seq<Request>, bucket: Blob, now: Instant)
    requires Lossless(env.codec) && CreateToken(env, meta, id, cred, form, minted).Ok? && NeverRecreates(reqs, id)
    requires |reqs| < TWO_64
    ensures var (claims, token) := CreateToken(env, meta, id, cred, form, minted).value;
            var f := RunRequests(env, meta, reqs);
            id in f ==>
              (Verify(env.codec, token, f[id], bucket, now).Ok?
               <==> bucket == id && now < minted + form.ttl * NANOS && KeyChanges(env, meta, reqs, id) == 0)
  {
    TokenLifeExact(env, meta, id, cred, form, minted, reqs, bucket, now);
    GenerationCountsChanges(env, meta, reqs, id);
    ChangesBounded(env, meta, reqs, id);
    SmallMod(KeyChanges(env, meta, reqs, id));
  }

  /**
    * From minting to use: presented after any run of handler calls, a token that is not by chance also
    * one of the bucket's keys lets its holder do on a key what the form asked for, if the form's prefix
    * starts the key, until the form's TTL is over or the signing key has changed; then it is 401.
    */
  lemma TokenGrants(env: Env, meta: Meta, id: Blob, cred: Option<Blob>, form: TokenForm, minted: Instant,
                    reqs: seq<Request>, key: Blob, now: Instant)
    requires Lossless(env.codec) && CreateToken(env, meta, id, cred, form, minted).Ok? && NeverRecreates(reqs, id)
    requires |reqs| < TWO_64 && id in RunRequests(env, meta, reqs)
    requires var token, q := CreateToken(env, meta, id, cred, form, minted).value.1, RunRequests(env, meta, reqs)[id];
             !Presents(env, token, q.secretHash) && !Presents(env, token, q.writeHash) && !Presents(env, token, q.readHash)
    ensures var a := Authenticate(env, RunRequests(env, meta, reqs), id, Some(CreateToken(env, meta, id, cred, form, minted).value.1), now);
            var asked, inside := Words(form.permissions), form.prefix <= key;
            if now < minted + form.ttl * NANOS && KeyChanges(env, meta, reqs, id) == 0
            then a.Ok? && Grants(a.value, key, READ in asked && inside, WRITE in asked && inside, DELETE in asked && inside,
                                 ENUMERATE in asked, false)
            else a == Err(Unauthorized)
  {
    var (claims, token) := CreateToken(env, meta, id, cred, form, minted).value;
    var f := RunRequests(env, meta, reqs);
    CreateTokenOutcome(env, meta, id, cred, form, minted);
    TokenLife(env, meta, id, cred, form, minted, reqs, id, now);
    MintedVerifies(env.codec, claims, meta[id].signingKey.value, f[id], id, now);
    CredentialRights(env, f, id, token, now, key);
  }

  lemma {:induction false} ChangesBounded(env: Env, meta: Meta, reqs: seq<Request>, id: Blob)
    ensures KeyChanges(env, meta, reqs, id) <= |reqs|
    decreases |reqs|
  {
    if reqs != [] { ChangesBounded(env, meta, reqs[..|reqs| - 1], id); }
  }

  // ---- the wrap-around, run by run ---------------------------------------------------------------

  /** A patch of the signing key and nothing else. */
  function Rotate(id: Blob, cred: Option<Blob>, key: Blob, now: Instant): Request {
    UpdatePolicy(id, cred, Some(PolicyPatch(None, None, None, Some(Some(key)), None)), now)
  }

  /** `n` rotations, away to `b` and back to `a` in turn. */
  function Flips(id: Blob, cred: Option<Blob>, a: Blob, b: Blob, now: Instant, n: nat): (reqs: seq<Request>)
    ensures |reqs| == n
  {
    seq(n, i requires 0 <= i < n => Rotate(id, cred, if i % 2 == 0 then b else a, now))
  }

  lemma {:induction false} FlipsAlternate(env: Env, meta: Meta, id: Blob, cred: Option<Blob>, a: Blob, b: Blob, now: Instant, n: nat)
    requires AsAdmin(env, meta, id, cred) && meta[id].signingKey == Some(a) && a != b && a != [] && b != []
    ensures var f := RunRequests(env, meta, Flips(id, cred, a, b, now, n));
            && AsAdmin(env, f, id, cred) && f[id].signingKey == Some(if n % 2 == 0 then a else b)
            && KeyChanges(env, meta, Flips(id, cred, a, b, now, n), id) == n
    decreases n
  {
    if n > 0 {
      var reqs := Flips(id, cred, a, b, now, n);
      assert reqs[..n - 1] == Flips(id, cred, a, b, now, n - 1);
      FlipsAlternate(env, meta, id, cred, a, b, now, n - 1);
      AdminOnlyBySecretKey(env, RunRequests(env, meta, reqs[..n - 1]), id, cred, now);
    }
  }

  /** Rotating to and fro, a token verifies again exactly after every 2^64 rotations: the counter does wrap. */
  lemma FlipsReviveTokenAtWrap(env: Env, meta: Meta, id: Blob, cred: Option<Blob>, form: TokenForm, minted: Instant,
                               b: Blob, at: Instant, n: nat, now: Instant)
    requires Lossless(env.codec) && CreateToken(env, meta, id, cred, form, minted).Ok?
    requires meta[id].signingKey.value != [] && b != [] && b != meta[id].signingKey.value
    requires now < minted + form.ttl * NANOS
    ensures var f := RunRequests(env, meta, Flips(id, cred, meta[id].signingKey.value, b, at, n));
            id in f && (Verify(env.codec, CreateToken(env, meta, id, cred, form, minted).value.1, f[id], id, now).Ok? <==> n % TWO_64 == 0)
  {
    var a := meta[id].signingKey.value;
    var reqs := Flips(id, cred, a, b, at, n);
    AdminOnlyBySecretKey(env, meta, id, cred, minted);
    FlipsAlternate(env, meta, id, cred, a, b, at, n);
    TokenLifeExact(env, meta, id, cred, form, minted, reqs, id, now);
    EvenAtWrap(n);
  }

  lemma EvenAtWrap(n: nat)
    ensures n % TWO_64 == 0 ==> n % 2 == 0
  {
    var q := n / TWO_64;
    assert n == q * TWO_64 + n % TWO_64;
    assert q * TWO_64 == 2 * (q * TWO_63);
  }
}
