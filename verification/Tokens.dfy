/** Unpadded base64url text (section 5 and section 3.2 of RFC 4648), as ASCII bytes. */
module Base64Url {
  import opened Common
  import opened Bytes

  type Sextet = x: int | 0 <= x < 64

  /** `A-Z`, `a-z`, `0-9`, `-`, `_`. */
  function CharOf(v: Sextet): Byte {
    if v < 26 then 65 + v else if v < 52 then 71 + v else if v < 62 then v - 4 else if v == 62 then 45 else 95
  }

  function ValueOf(c: Byte): Option<Sextet> {
    if 65 <= c <= 90 then Some(c - 65)
    else if 97 <= c <= 122 then Some(c - 71)
    else if 48 <= c <= 57 then Some(c + 4)
    else if c == 45 then Some(62)
    else if c == 95 then Some(63)
    else None
  }

  /** Three bytes make four sextets; a remainder of one or two bytes makes two or three, zero-filled. */
  function Pack(b: Blob): seq<Sextet> {
    if |b| == 0 then []
    else if |b| == 1 then [b[0] / 4, b[0] % 4 * 16]
    else if |b| == 2 then [b[0] / 4, b[0] % 4 * 16 + b[1] / 16, b[1] % 16 * 4]
    else [b[0] / 4, b[0] % 4 * 16 + b[1] / 16, b[1] % 16 * 4 + b[2] / 64, b[2] % 64] + Pack(b[3..])
  }

  function Byte0(v: int, w: int): int { v * 4 + w / 16 }

  function Byte1(w: int, x: int): int { w % 16 * 16 + x / 4 }

  function Byte2(x: int, y: int): int { x % 4 * 64 + y }

  /** A single left-over sextet, and non-zero bits beyond the last byte, are refused. */
  function Unpack(v: seq<Sextet>): Option<Blob> {
    if |v| == 0 then Some([])
    else if |v| == 1 then None
    else if |v| == 2 then
      if v[1] % 16 != 0 then None else Some([Byte0(v[0], v[1])])
    else if |v| == 3 then
      if v[2] % 4 != 0 then None else Some([Byte0(v[0], v[1]), Byte1(v[1], v[2])])
    else
      match Unpack(v[4..])
      case None => None
      case Some(rest) => Some([Byte0(v[0], v[1]), Byte1(v[1], v[2]), Byte2(v[2], v[3])] + rest)
  }

  function Chars(v: seq<Sextet>): (s: Blob)
    ensures |s| == |v| && forall i :: 0 <= i < |v| ==> s[i] == CharOf(v[i])
  {
    seq(|v|, i requires 0 <= i < |v| => CharOf(v[i]))
  }

  function Sextets(s: Blob): (v: Option<seq<Sextet>>)
    ensures v.Some? <==> forall i :: 0 <= i < |s| ==> ValueOf(s[i]).Some?
    ensures v.Some? ==> |v.value| == |s| && forall i :: 0 <= i < |s| ==> v.value[i] == ValueOf(s[i]).value
  {
    if s == [] then Some([])
    else
      var head, tail := ValueOf(s[0]), Sextets(s[1..]);
      assert forall i :: 0 < i < |s| ==> s[i] == s[1..][i - 1];
      if head.None? || tail.None? then None else Some([head.value] + tail.value)
  }

  function Encode(b: Blob): Blob { Chars(Pack(b)) }

  function Decode(s: Blob): Option<Blob> {
    var v := Sextets(s);
    if v.None? then None else Unpack(v.value)
  }

  /** Three bytes and four sextets as numbers, most significant first. */
  function OfBytes(x: int, y: int, z: int): int { (x * 256 + y) * 256 + z }

  function OfSextets(v: int, w: int, x: int, y: int): int { ((v * 64 + w) * 64 + x) * 64 + y }

  /** The alphabet of section 5 of RFC 4648: letters, digits, minus and underline in that order, and no other character. */
  lemma AlphabetOrder(v: Sextet, c: Byte)
    ensures v < 26 ==> CharOf(v) == 'A' as int + v
    ensures 26 <= v < 52 ==> CharOf(v) == 'a' as int + v - 26
    ensures 52 <= v < 62 ==> CharOf(v) == '0' as int + v - 52
    ensures CharOf(62) == '-' as int && CharOf(63) == '_' as int
    ensures ValueOf(c).Some? <==> exists w: Sextet :: CharOf(w) == c
  {
    if ValueOf(c).Some? { CharInverse(c, ValueOf(c).value); }
    if w: Sextet :| CharOf(w) == c { CharInverse(c, w); }
  }

  /** The bytes of a group and its sextets are the same number; a short group is filled with zero bits. */
  lemma PackIsBigEndian(b: Blob)
    requires b != []
    ensures var v := Pack(b);
            if |b| == 1 then |v| == 2 && OfBytes(b[0], 0, 0) == OfSextets(v[0], v[1], 0, 0)
            else if |b| == 2 then |v| == 3 && OfBytes(b[0], b[1], 0) == OfSextets(v[0], v[1], v[2], 0)
            else |v| >= 4 && v[4..] == Pack(b[3..]) && OfBytes(b[0], b[1], b[2]) == OfSextets(v[0], v[1], v[2], v[3])
  {
  }

  lemma CharInverse(c: Byte, v: Sextet)
    ensures ValueOf(c) == Some(v) <==> CharOf(v) == c
  {
  }

  lemma CharsRoundTrip(v: seq<Sextet>)
    ensures Sextets(Chars(v)) == Some(v)
  {
    forall i | 0 <= i < |v| ensures ValueOf(Chars(v)[i]) == Some(v[i]) { CharInverse(Chars(v)[i], v[i]); }
    assert Sextets(Chars(v)).value == v;
  }

  lemma SextetsCanonical(s: Blob)
    requires Sextets(s).Some?
    ensures Chars(Sextets(s).value) == s
  {
    forall i | 0 <= i < |s| ensures Chars(Sextets(s).value)[i] == s[i] { CharInverse(s[i], Sextets(s).value[i]); }
  }

  lemma PackBytes(x: Byte, y: Byte, z: Byte)
    ensures Byte0(x / 4, x % 4 * 16 + y / 16) == x
    ensures Byte1(x % 4 * 16 + y / 16, y % 16 * 4 + z / 64) == y
    ensures Byte2(y % 16 * 4 + z / 64, z % 64) == z
  {
    assert (x % 4 * 16 + y / 16) / 16 == x % 4;
    assert (x % 4 * 16 + y / 16) % 16 == y / 16;
    assert (y % 16 * 4 + z / 64) / 4 == y % 16;
    assert (y % 16 * 4 + z / 64) % 4 == z / 64;
  }

  lemma UnpackBytes(v: Sextet, w: Sextet, x: Sextet, y: Sextet)
    ensures Byte0(v, w) / 4 == v && Byte0(v, w) % 4 == w / 16
    ensures Byte1(w, x) / 16 == w % 16 && Byte1(w, x) % 16 == x / 4
    ensures Byte2(x, y) / 64 == x % 4 && Byte2(x, y) % 64 == y
  {
  }

  lemma PackOne(x: Byte)
    ensures Unpack(Pack([x])) == Some([x])
  {
    PackBytes(x, 0, 0);
    assert x % 4 * 16 % 16 == 0;
    assert Pack([x]) == [x / 4, x % 4 * 16];
  }

  lemma PackTwo(x: Byte, y: Byte)
    ensures Unpack(Pack([x, y])) == Some([x, y])
  {
    PackBytes(x, y, 0);
    assert y % 16 * 4 % 4 == 0;
    assert Pack([x, y]) == [x / 4, x % 4 * 16 + y / 16, y % 16 * 4];
  }

  lemma {:induction false} PackRoundTrip(b: Blob)
    ensures Unpack(Pack(b)) == Some(b)
  {
    if |b| == 1 {
      PackOne(b[0]);
      assert b == [b[0]];
    } else if |b| == 2 {
      PackTwo(b[0], b[1]);
      assert b == [b[0], b[1]];
    } else if |b| >= 3 {
      PackRoundTrip(b[3..]);
      PackBytes(b[0], b[1], b[2]);
      assert Pack(b)[4..] == Pack(b[3..]);
      assert b == [b[0], b[1], b[2]] + b[3..];
    }
  }

  lemma {:induction false} UnpackCanonical(v: seq<Sextet>)
    requires Unpack(v).Some?
    ensures Pack(Unpack(v).value) == v
  {
    if |v| >= 2 { UnpackBytes(v[0], v[1], if |v| >= 3 then v[2] else 0, if |v| >= 4 then v[3] else 0); }
    if |v| >= 4 {
      UnpackCanonical(v[4..]);
      assert Unpack(v).value[3..] == Unpack(v[4..]).value;
      assert v == [v[0], v[1], v[2], v[3]] + v[4..];
    }
  }

  /** Every byte string comes back, whatever its length modulo three. */
  lemma EncodeRoundTrip(b: Blob)
    ensures Decode(Encode(b)) == Some(b)
  {
    CharsRoundTrip(Pack(b));
    PackRoundTrip(b);
  }

  /** Only the printed text decodes: no second spelling of the same bytes is accepted. */
  lemma DecodeCanonical(s: Blob)
    requires Decode(s).Some?
    ensures Encode(Decode(s).value) == s
  {
    SextetsCanonical(s);
    UnpackCanonical(Sextets(s).value);
  }

  lemma EncodeHasNoDot(b: Blob, i: nat)
    requires i < |Encode(b)|
    ensures Encode(b)[i] != 46
  {
    assert Encode(b)[i] == CharOf(Pack(b)[i]);
  }
}

/** Bucket policies, permissions and the credentials they hold. */
module Policies {
  import opened Common
  import opened Bytes
  import opened Time

  datatype Permission = Permission(read: bool, write: bool, enumerate: bool, delete: bool)

  const NONE := Permission(false, false, false, false)
  const READ_ENUMERATE := Permission(true, false, true, false)
  const WRITE_ONLY := Permission(false, true, false, false)

  function AnonymousFromKeys(hasSecret: bool, hasRead: bool, hasWrite: bool): Permission {
    Permission(!hasRead, !hasWrite, !hasRead, !hasSecret && !hasRead && !hasWrite)
  }

  datatype BucketPolicy = BucketPolicy(
    defaultTtl: Option<U64>,
    anonymous: Permission,
    secretHash: Option<Blob>,
    readHash: Option<Blob>,
    writeHash: Option<Blob>,
    signingKey: Option<Blob>,
    generation: U64)

  function RecomputeAnonymous(p: BucketPolicy): Permission {
    AnonymousFromKeys(p.secretHash.Some?, p.readHash.Some?, p.writeHash.Some?)
  }

  datatype Claims = Claims(
    version: nat, bucket: Blob, generation: U64, allowedPrefix: Blob, permissions: Permission, iat: Instant, exp: Instant)

  /** The keyed hash (section 2 of RFC 2104) and the JSON form of claims, supplied by libraries. */
  datatype Codec = Codec(hmac: (Blob, Blob) -> Blob, toJson: Claims -> Blob, fromJson: Blob -> Option<Claims>)

  ghost predicate Lossless(c: Codec) { forall claims :: c.fromJson(c.toJson(claims)) == Some(claims) }
}

/** Minting and verifying temporary tokens. */
module Tokens {
  import opened Common
  import opened Bytes
  import opened Time
  import opened Policies
  import opened Base64Url

  const DOT: Byte := 46

  datatype TokenError = NoSigningKey | InvalidFormat | InvalidSignature | Expired | BucketMismatch | GenerationMismatch

  function Mint(c: Codec, claims: Claims, key: Blob): Blob {
    var json := c.toJson(claims);
    Encode(json) + [DOT] + Encode(c.hmac(key, json))
  }

  /** Splits at the first occurrence of `sep`. */
  function SplitOnce(s: Blob, sep: Byte): Option<(Blob, Blob)> {
    if s == [] then None
    else if s[0] == sep then Some(([], s[1..]))
    else
      match SplitOnce(s[1..], sep)
      case None => None
      case Some((a, b)) => Some(([s[0]] + a, b))
  }

  function Verify(c: Codec, raw: Blob, policy: BucketPolicy, bucket: Blob, now: Instant): Result<Claims, TokenError> {
    if policy.signingKey.None? then Err(NoSigningKey)
    else
      match SplitOnce(raw, DOT)
      case None => Err(InvalidFormat)
      case Some((payload, sig)) =>
        var json, expected := Decode(payload), Decode(sig);
        if json.None? || expected.None? then Err(InvalidFormat)
        else if c.hmac(policy.signingKey.value, json.value) != expected.value then Err(InvalidSignature)
        else
          var claims := c.fromJson(json.value);
          if claims.None? then Err(InvalidFormat)
          else if claims.value.exp <= now then Err(Expired)
          else if claims.value.bucket != bucket then Err(BucketMismatch)
          else if claims.value.generation != policy.generation then Err(GenerationMismatch)
          else Ok(claims.value)
  }

  lemma {:induction false} SplitAtFirst(a: Blob, b: Blob, sep: Byte)
    requires sep !in a
    ensures SplitOnce(a + [sep] + b, sep) == Some((a, b))
  {
    var s := a + [sep] + b;
    if a == [] {
      assert s[0] == sep && s[1..] == b;
    } else {
      assert s[0] == a[0] && s[1..] == a[1..] + [sep] + b;
      SplitAtFirst(a[1..], b, sep);
      assert a == [a[0]] + a[1..];
    }
  }

  /** The text of a token splits and decodes into exactly the payload and the signature it was made of. */
  lemma TokenTextRoundTrip(json: Blob, sig: Blob)
    ensures SplitOnce(Encode(json) + [DOT] + Encode(sig), DOT) == Some((Encode(json), Encode(sig)))
    ensures Decode(Encode(json)) == Some(json) && Decode(Encode(sig)) == Some(sig)
  {
    forall i | 0 <= i < |Encode(json)| ensures Encode(json)[i] != DOT { EncodeHasNoDot(json, i); }
    SplitAtFirst(Encode(json), Encode(sig), DOT);
    EncodeRoundTrip(json);
    EncodeRoundTrip(sig);
  }

  /** When a minted token verifies against any later policy. */
  lemma MintedVerifies(c: Codec, claims: Claims, key: Blob, p: BucketPolicy, bucket: Blob, now: Instant)
    requires Lossless(c)
    ensures var r := Verify(c, Mint(c, claims, key), p, bucket, now);
            && (r.Ok? <==> && p.signingKey.Some?
                           && c.hmac(p.signingKey.value, c.toJson(claims)) == c.hmac(key, c.toJson(claims))
                           && now < claims.exp && claims.bucket == bucket && claims.generation == p.generation)
            && (r.Ok? ==> r.value == claims)
  {
    TokenTextRoundTrip(c.toJson(claims), c.hmac(key, c.toJson(claims)));
  }

  lemma {:induction false} SplitRejoins(s: Blob, sep: Byte)
    ensures SplitOnce(s, sep).Some? ==> s == SplitOnce(s, sep).value.0 + [sep] + SplitOnce(s, sep).value.1
  {
    if s != [] {
      if s[0] == sep { assert s == [] + [sep] + s[1..]; }
      else { SplitRejoins(s[1..], sep); assert s == [s[0]] + s[1..]; }
    }
  }

  /** Nothing verifies but the printed form of signed bytes: the text is fixed by payload and key. */
  lemma VerifiedTextIsSigned(c: Codec, raw: Blob, p: BucketPolicy, bucket: Blob, now: Instant)
    requires Verify(c, raw, p, bucket, now).Ok?
    ensures var claims := Verify(c, raw, p, bucket, now).value;
            exists json :: && c.fromJson(json) == Some(claims)
                           && raw == Encode(json) + [DOT] + Encode(c.hmac(p.signingKey.value, json))
                           && claims.bucket == bucket && now < claims.exp && claims.generation == p.generation
  {
    SplitRejoins(raw, DOT);
    var (payload, sig) := SplitOnce(raw, DOT).value;
    DecodeCanonical(payload);
    DecodeCanonical(sig);
    var json := Decode(payload).value;
    assert raw == Encode(json) + [DOT] + Encode(c.hmac(p.signingKey.value, json));
  }
}
