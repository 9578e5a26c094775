/** Integer widths and the result types shared by every component. */
module Common {
  datatype Option<+T> = None | Some(value: T)

  datatype Result<+T, +E> = Ok(value: T) | Err(error: E)

  const TWO_63: int := 0x8000_0000_0000_0000
  const TWO_64: int := 0x1_0000_0000_0000_0000
  const USIZE_MAX: int := TWO_64 - 1

  type I64 = x: int | -TWO_63 <= x < TWO_63

  type U64 = x: int | 0 <= x < TWO_64

  predicate FitsI64(x: int) { -TWO_63 <= x < TWO_63 }
}

/** Key layouts of the `data` and `expiry` keyspaces. */
module Layout {
  import opened Common
  import opened Bytes

  const SEPARATOR: Byte := 58
  const EXPIRY_KEY_HEADER_LEN := 9
  const MAX_KEY_BYTES := 128

  // ---- storage keys -------------------------------------------------------------------

  function StorageKey(bucket: Blob, key: Blob): Blob { bucket + [SEPARATOR] + key }

  function DataKeyPrefix(bucket: Blob, userPrefix: Option<Blob>): Blob {
    bucket + [SEPARATOR] + (if userPrefix.Some? then userPrefix.value else [])
  }

  /** The user key inside a storage key of `bucket`; over-long keys are malformed. */
  function UserKey(storageKey: Blob, bucket: Blob): Option<Blob> {
    if !(bucket <= storageKey) then None
    else
      var rest := storageKey[|bucket|..];
      if !([SEPARATOR] <= rest) || |rest[1..]| > MAX_KEY_BYTES then None else Some(rest[1..])
  }

  lemma UserKeyInverse(bucket: Blob, storageKey: Blob, key: Blob)
    ensures UserKey(storageKey, bucket) == Some(key)
            <==> storageKey == StorageKey(bucket, key) && |key| <= MAX_KEY_BYTES
  {
    if UserKey(storageKey, bucket) == Some(key) {
      assert storageKey == bucket + storageKey[|bucket|..];
      assert storageKey[|bucket|..] == [SEPARATOR] + key;
    }
    if storageKey == StorageKey(bucket, key) {
      assert bucket <= storageKey && storageKey[|bucket|..] == [SEPARATOR] + key;
    }
  }

  /** Where the first separator sits, a storage key splits in only one way. */
  lemma StorageKeyInjective(b1: Blob, k1: Blob, b2: Blob, k2: Blob)
    requires SEPARATOR !in b1 && SEPARATOR !in b2
    ensures StorageKey(b1, k1) == StorageKey(b2, k2) <==> b1 == b2 && k1 == k2
  {
    var s1, s2 := StorageKey(b1, k1), StorageKey(b2, k2);
    if s1 == s2 {
      assert s1[|b1|] == SEPARATOR && s2[|b2|] == SEPARATOR;
      assert |b1| == |b2|;
      assert b1 == s1[..|b1|] == s2[..|b2|] == b2;
      assert k1 == s1[|b1| + 1..] && k2 == s2[|b2| + 1..];
    }
  }

  lemma StorageKeyOrder(bucket: Blob, k1: Blob, k2: Blob)
    ensures Less(StorageKey(bucket, k1), StorageKey(bucket, k2)) <==> Less(k1, k2)
  {
    LessAfterSharedHead(bucket + [SEPARATOR], k1, k2);
  }

  /** A prefix scan of one bucket meets exactly that bucket's keys with that user prefix. */
  lemma PrefixScanExact(bucket: Blob, prefix: Option<Blob>, other: Blob, key: Blob)
    requires SEPARATOR !in bucket && SEPARATOR !in other
    ensures DataKeyPrefix(bucket, prefix) <= StorageKey(other, key)
            <==> bucket == other && (prefix.Some? ==> prefix.value <= key)
  {
    var p := if prefix.Some? then prefix.value else [];
    var head, full := DataKeyPrefix(bucket, prefix), StorageKey(other, key);
    if head <= full {
      var tail := full[|head|..];
      assert full == head + tail == StorageKey(bucket, p + tail);
      StorageKeyInjective(bucket, p + tail, other, key);
    }
    if bucket == other && p <= key {
      assert full == head + key[|p|..];
    }
  }

  // ---- ordered integers ---------------------------------------------------------------

  function BigEndian(v: nat, n: nat): (b: Blob)
    ensures |b| == n
  {
    if n == 0 then [] else BigEndian(v / 256, n - 1) + [v % 256]
  }

  function FromBigEndian(b: Blob): nat {
    if b == [] then 0 else 256 * FromBigEndian(b[..|b| - 1]) + b[|b| - 1]
  }

  ghost function Pow256(n: nat): nat { if n == 0 then 1 else 256 * Pow256(n - 1) }

  lemma Pow256Of8()
    ensures Pow256(8) == TWO_64
  {
    assert Pow256(4) == 0x1_0000_0000 by { assert Pow256(2) == 0x1_0000; }
    assert Pow256(6) == 0x1_0000_0000_0000;
  }

  lemma {:induction false} BigEndianRoundTrip(v: nat, n: nat)
    requires v < Pow256(n)
    ensures FromBigEndian(BigEndian(v, n)) == v
  {
    if n > 0 {
      BigEndianRoundTrip(v / 256, n - 1);
      assert BigEndian(v, n)[..n - 1] == BigEndian(v / 256, n - 1);
    }
  }

  lemma {:induction false} FromBigEndianRoundTrip(b: Blob)
    ensures FromBigEndian(b) < Pow256(|b|)
    ensures BigEndian(FromBigEndian(b), |b|) == b
  {
    if b != [] {
      FromBigEndianRoundTrip(b[..|b| - 1]);
      assert b == b[..|b| - 1] + [b[|b| - 1]];
    }
  }

  lemma {:induction false} BigEndianOrder(v: nat, w: nat, n: nat)
    requires v < Pow256(n) && w < Pow256(n)
    ensures Less(BigEndian(v, n), BigEndian(w, n)) <==> v < w
  {
    if n > 0 {
      var p, q := BigEndian(v / 256, n - 1), BigEndian(w / 256, n - 1);
      if v / 256 == w / 256 {
        LessAfterSharedHead(p, [v % 256], [w % 256]);
      } else {
        BigEndianRoundTrip(v / 256, n - 1);
        BigEndianRoundTrip(w / 256, n - 1);
        LessByDistinctHeads(p, q, [v % 256], [w % 256]);
        BigEndianOrder(v / 256, w / 256, n - 1);
      }
    }
  }

  /** The 64-bit pattern of a signed integer, read as an unsigned one. */
  function BitsOfI64(ts: I64): U64 { if ts < 0 then ts + TWO_64 else ts }

  function I64OfBits(bits: U64): I64 { if bits < TWO_63 then bits else bits - TWO_64 }

  /** Exclusive or with `0x8000_0000_0000_0000`. */
  function FlipTopBit(bits: U64): U64 { if bits < TWO_63 then bits + TWO_63 else bits - TWO_63 }

  function EncodeOrderedI64(ts: I64): Blob { BigEndian(FlipTopBit(BitsOfI64(ts)), 8) }

  function DecodeOrderedI64(b: Blob): I64
    requires |b| == 8
  {
    FromBigEndianRoundTrip(b);
    Pow256Of8();
    I64OfBits(FlipTopBit(FromBigEndian(b)))
  }

  lemma OrderedI64RoundTrip(ts: I64)
    ensures DecodeOrderedI64(EncodeOrderedI64(ts)) == ts
  {
    Pow256Of8();
    BigEndianRoundTrip(FlipTopBit(BitsOfI64(ts)), 8);
  }

  lemma OrderedI64Canonical(b: Blob)
    requires |b| == 8
    ensures EncodeOrderedI64(DecodeOrderedI64(b)) == b
  {
    Pow256Of8();
    FromBigEndianRoundTrip(b);
  }

  lemma OrderedI64Order(t: I64, u: I64)
    ensures Less(EncodeOrderedI64(t), EncodeOrderedI64(u)) <==> t < u
  {
    Pow256Of8();
    BigEndianOrder(FlipTopBit(BitsOfI64(t)), FlipTopBit(BitsOfI64(u)), 8);
  }

  // ---- expiry index keys --------------------------------------------------------------

  function ExpiryIndexKey(expiresUnix: I64, storageKey: Blob): Blob {
    EncodeOrderedI64(expiresUnix) + [SEPARATOR] + storageKey
  }

  function ParseExpiryIndexKey(key: Blob): Option<(I64, Blob)> {
    if |key| <= EXPIRY_KEY_HEADER_LEN || key[8] != SEPARATOR then None
    else Some((DecodeOrderedI64(key[..8]), key[EXPIRY_KEY_HEADER_LEN..]))
  }

  /** Parsing is the exact inverse of printing; the empty storage key is the one it cannot read back. */
  lemma ExpiryIndexKeyInverse(key: Blob, t: I64, storageKey: Blob)
    ensures ParseExpiryIndexKey(key) == Some((t, storageKey))
            <==> key == ExpiryIndexKey(t, storageKey) && storageKey != []
  {
    if ParseExpiryIndexKey(key) == Some((t, storageKey)) {
      OrderedI64Canonical(key[..8]);
      assert key == key[..8] + [key[8]] + key[9..];
    }
    if key == ExpiryIndexKey(t, storageKey) {
      OrderedI64RoundTrip(t);
      assert key[..8] == EncodeOrderedI64(t) && key[9..] == storageKey && key[8] == SEPARATOR;
    }
  }

  /** Byte order of index keys is the order on (expiry, storage key), negative instants included. */
  lemma ExpiryIndexKeyOrder(t: I64, k: Blob, u: I64, l: Blob)
    ensures Less(ExpiryIndexKey(t, k), ExpiryIndexKey(u, l)) <==> t < u || (t == u && Less(k, l))
  {
    var p, q := EncodeOrderedI64(t), EncodeOrderedI64(u);
    assert ExpiryIndexKey(t, k) == p + ([SEPARATOR] + k);
    assert ExpiryIndexKey(u, l) == q + ([SEPARATOR] + l);
    if t == u {
      LessAfterSharedHead(p, [SEPARATOR] + k, [SEPARATOR] + l);
      LessAfterSharedHead([SEPARATOR], k, l);
    } else {
      OrderedI64RoundTrip(t);
      OrderedI64RoundTrip(u);
      LessByDistinctHeads(p, q, [SEPARATOR] + k, [SEPARATOR] + l);
      OrderedI64Order(t, u);
    }
  }

  lemma ExpiryIndexKeyInjective(t: I64, k: Blob, u: I64, l: Blob)
    requires k != []
    ensures ExpiryIndexKey(t, k) == ExpiryIndexKey(u, l) <==> t == u && k == l
  {
    ExpiryIndexKeyInverse(ExpiryIndexKey(t, k), t, k);
    ExpiryIndexKeyInverse(ExpiryIndexKey(t, k), u, l);
    if ExpiryIndexKey(t, k) == ExpiryIndexKey(u, l) {
      assert ExpiryIndexKey(u, l)[9..] == l && ExpiryIndexKey(t, k)[9..] == k;
    }
  }
}
