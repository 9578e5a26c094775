/** Which texts are numbers, exactly: white space, signs, leading zeros, floats, and the kinds they give a body. */
module Numbers {
  import opened Common
  import opened Bytes
  import opened Values
  import opened Decimal
  import opened Counter

  // ---- white space -------------------------------------------------------------------------------

  /** One White_Space character in UTF-8. */
  predicate IsSpace(w: Blob) {
    || (|w| == 1 && (9 <= w[0] <= 13 || w[0] == 32))
    || (|w| == 2 && w[0] == 0xC2 && (w[1] == 0x85 || w[1] == 0xA0))
    || (|w| == 3 && WideSpace(w[0], w[1], w[2]))
  }

  function CodePoint(x: Byte, y: Byte, z: Byte): int { (x - 0xE0) * 4096 + (y - 0x80) * 64 + (z - 0x80) }

  /** The three-byte characters among them, by code point. */
  lemma WideSpaceCodePoints(x: Byte, y: Byte, z: Byte)
    requires 0xE0 <= x < 0xF0 && 0x80 <= y < 0xC0 && 0x80 <= z < 0xC0
    ensures var c := CodePoint(x, y, z);
            WideSpace(x, y, z) <==> c == 0x1680 || 0x2000 <= c <= 0x200A || c in {0x2028, 0x2029, 0x202F, 0x205F, 0x3000}
  {
  }

  function Flatten(ws: seq<Blob>): Blob { if ws == [] then [] else ws[0] + Flatten(ws[1..]) }

  /** Text made of white space characters only. */
  ghost predicate Blank(pad: Blob) { exists ws: seq<Blob> :: pad == Flatten(ws) && AllSpaces(ws) }

  ghost predicate AllSpaces(ws: seq<Blob>) { forall i :: 0 <= i < |ws| ==> IsSpace(ws[i]) }

  lemma {:induction false} FlattenConcat(a: seq<Blob>, b: seq<Blob>)
    ensures Flatten(a + b) == Flatten(a) + Flatten(b)
  {
    if a == [] {
      assert a + b == b;
    } else {
      assert (a + b)[1..] == a[1..] + b;
      FlattenConcat(a[1..], b);
    }
  }

  lemma FlattenOne(w: Blob)
    ensures Flatten([w]) == w
  {
    assert Flatten([w]) == w + [];
  }

  lemma {:induction false} TrimStartSkips(ws: seq<Blob>, b: Blob)
    requires AllSpaces(ws)
    ensures TrimStart(Flatten(ws) + b) == TrimStart(b)
  {
    if ws == [] {
      assert Flatten(ws) + b == b;
    } else {
      var w, rest := ws[0], Flatten(ws[1..]) + b;
      assert Flatten(ws) + b == w + rest && IsSpace(w);
      assert LeadingSpace(w + rest) == |w| && (w + rest)[|w|..] == rest;
      TrimStartSkips(ws[1..], b);
    }
  }

  lemma FlattenSnoc(ws: seq<Blob>)
    requires ws != []
    ensures Flatten(ws) == Flatten(ws[..|ws| - 1]) + ws[|ws| - 1]
  {
    var n := |ws| - 1;
    assert ws == ws[..n] + [ws[n]];
    FlattenConcat(ws[..n], [ws[n]]);
    FlattenOne(ws[n]);
  }

  lemma TrimEndOne(b: Blob, w: Blob)
    requires IsSpace(w)
    ensures TrimEnd(b + w) == TrimEnd(b)
  {
    assert TrailingSpace(b + w) == |w| && (b + w)[..|b|] == b;
  }

  /** Whatever ignores one white space character behind a text ignores any number of them. */
  lemma {:induction false} TailIgnored(f: Blob -> Blob, b: Blob, ws: seq<Blob>)
    requires AllSpaces(ws) && forall c: Blob, w: Blob {:trigger f(c + w)} :: IsSpace(w) ==> f(c + w) == f(c)
    ensures f(b + Flatten(ws)) == f(b)
    decreases |ws|
  {
    if ws == [] {
      assert b + Flatten(ws) == b;
    } else {
      var n := |ws| - 1;
      var c := b + Flatten(ws[..n]);
      FlattenSnoc(ws);
      TailIgnored(f, b, ws[..n]);
      assert f(c + ws[n]) == f(c);
      assert b + Flatten(ws) == c + ws[n];
    }
  }

  lemma TrimEndSkips(b: Blob, ws: seq<Blob>)
    requires AllSpaces(ws)
    ensures TrimEnd(b + Flatten(ws)) == TrimEnd(b)
  {
    var f: Blob -> Blob := TrimEnd;
    forall c: Blob, w: Blob {:trigger f(c + w)} | IsSpace(w) ensures f(c + w) == f(c) { TrimEndOne(c, w); }
    TailIgnored(f, b, ws);
  }

  /** White space behind a text never completes a character at its head. */
  lemma HeadUnchanged(b: Blob, ws: seq<Blob>)
    requires b != [] && AllSpaces(ws)
    ensures LeadingSpace(b + Flatten(ws)) == LeadingSpace(b)
  {
    if ws == [] {
      assert b + Flatten(ws) == b;
    } else {
      assert IsSpace(ws[0]) && Flatten(ws)[0] == ws[0][0];
      assert (b + Flatten(ws))[|b|] == ws[0][0];
    }
  }

  lemma {:induction false} TrimIgnoresTail(b: Blob, ws: seq<Blob>)
    requires AllSpaces(ws)
    ensures Trim(b + Flatten(ws)) == Trim(b)
    decreases |b|
  {
    if b == [] {
      assert b + Flatten(ws) == Flatten(ws) + [];
      TrimStartSkips(ws, []);
    } else {
      var n := LeadingSpace(b);
      HeadUnchanged(b, ws);
      if n == 0 {
        TrimEndSkips(b, ws);
      } else {
        assert (b + Flatten(ws))[n..] == b[n..] + Flatten(ws);
        TrimIgnoresTail(b[n..], ws);
      }
    }
  }

  /** White space around a text makes no difference to `trim`. */
  lemma PaddingIgnored(pad: Blob, b: Blob, tail: Blob)
    requires Blank(pad) && Blank(tail)
    ensures Trim(pad + b + tail) == Trim(b)
  {
    var ws: seq<Blob> :| pad == Flatten(ws) && AllSpaces(ws);
    var vs: seq<Blob> :| tail == Flatten(vs) && AllSpaces(vs);
    TrimStartSkips(ws, b + tail);
    assert pad + b + tail == pad + (b + tail);
    TrimIgnoresTail(b, vs);
  }

  lemma HeadIsSpace(b: Blob)
    requires LeadingSpace(b) > 0
    ensures IsSpace(b[..LeadingSpace(b)])
  {
    var w := b[..LeadingSpace(b)];
    assert w[0] == b[0] && (|w| >= 2 ==> w[1] == b[1]) && (|w| >= 3 ==> w[2] == b[2]);
  }

  lemma TailIsSpace(b: Blob)
    requires TrailingSpace(b) > 0
    ensures IsSpace(b[|b| - TrailingSpace(b)..])
  {
    var l, n := |b|, TrailingSpace(b);
    var w := b[l - n..];
    assert w[n - 1] == b[l - 1] && (n >= 2 ==> w[n - 2] == b[l - 2]) && (n >= 3 ==> w[n - 3] == b[l - 3]);
  }

  /** `b` is `t` behind white space. */
  ghost predicate Follows(b: Blob, t: Blob, ws: seq<Blob>) { AllSpaces(ws) && b == Flatten(ws) + t }

  /** `b` is `t` before white space. */
  ghost predicate Precedes(b: Blob, t: Blob, ws: seq<Blob>) { AllSpaces(ws) && b == t + Flatten(ws) }

  lemma FollowsOneMore(b: Blob, n: nat, t: Blob, ws: seq<Blob>)
    requires n <= |b| && IsSpace(b[..n]) && Follows(b[n..], t, ws)
    ensures Follows(b, t, [b[..n]] + ws)
  {
    assert ([b[..n]] + ws)[1..] == ws;
    assert b == b[..n] + b[n..];
  }

  lemma PrecedesOneMore(b: Blob, n: nat, t: Blob, ws: seq<Blob>)
    requires n <= |b| && IsSpace(b[n..]) && Precedes(b[..n], t, ws)
    ensures Precedes(b, t, ws + [b[n..]])
  {
    var vs := ws + [b[n..]];
    FlattenSnoc(vs);
    assert vs[..|ws|] == ws;
    assert b == b[..n] + b[n..];
  }

  lemma {:induction false} TrimStartSplits(b: Blob) returns (ws: seq<Blob>)
    ensures Follows(b, TrimStart(b), ws) && LeadingSpace(TrimStart(b)) == 0
    decreases |b|
  {
    var n := LeadingSpace(b);
    if n == 0 {
      ws := [];
    } else {
      HeadIsSpace(b);
      ws := TrimStartSplits(b[n..]);
      FollowsOneMore(b, n, TrimStart(b), ws);
      ws := [b[..n]] + ws;
    }
  }

  lemma {:induction false} TrimEndSplits(b: Blob) returns (ws: seq<Blob>)
    ensures Precedes(b, TrimEnd(b), ws) && TrailingSpace(TrimEnd(b)) == 0
    decreases |b|
  {
    var n := |b| - TrailingSpace(b);
    if n == |b| {
      ws := [];
    } else {
      TailIsSpace(b);
      ws := TrimEndSplits(b[..n]);
      PrecedesOneMore(b, n, TrimEnd(b), ws);
      ws := ws + [b[n..]];
    }
  }

  lemma {:induction false} TrimEndKeepsHead(b: Blob)
    requires LeadingSpace(b) == 0
    ensures LeadingSpace(TrimEnd(b)) == 0
    decreases |b|
  {
    var n := TrailingSpace(b);
    if n > 0 { TrimEndKeepsHead(b[..|b| - n]); }
  }

  lemma SpacesAreBlank(ws: seq<Blob>)
    requires AllSpaces(ws)
    ensures Blank(Flatten(ws))
  {
  }

  /** No white space at either end. */
  predicate Bare(b: Blob) { LeadingSpace(b) == 0 && TrailingSpace(b) == 0 }

  /** `trim` takes away white space at both ends, all of it and nothing else. */
  lemma TrimExact(b: Blob) returns (pad: Blob, tail: Blob)
    ensures Blank(pad) && Blank(tail) && b == pad + Trim(b) + tail && Bare(Trim(b))
  {
    var t := TrimStart(b);
    var ws := TrimStartSplits(b);
    var vs := TrimEndSplits(t);
    TrimEndKeepsHead(t);
    SpacesAreBlank(ws);
    SpacesAreBlank(vs);
    pad, tail := Flatten(ws), Flatten(vs);
    Regroup(b, pad, t, TrimEnd(t), tail);
  }

  lemma Regroup(b: Blob, pad: Blob, t: Blob, core: Blob, tail: Blob)
    requires b == pad + t && t == core + tail
    ensures b == pad + core + tail
  {
  }

  // ---- integers ----------------------------------------------------------------------------------

  function Zeros(n: nat): (z: Blob)
    ensures |z| == n && forall i :: 0 <= i < n ==> z[i] == ZERO
  {
    seq(n, i requires 0 <= i < n => ZERO)
  }

  lemma {:induction false} ZerosAddNothing(n: nat, d: Blob)
    ensures DigitsValue(Zeros(n) + d) == DigitsValue(d)
    decreases n + |d|
  {
    if d != [] {
      assert (Zeros(n) + d)[..n + |d| - 1] == Zeros(n) + d[..|d| - 1];
      ZerosAddNothing(n, d[..|d| - 1]);
    } else if n > 0 {
      assert Zeros(n) + d == Zeros(n) && Zeros(n)[..n - 1] == Zeros(n - 1) + d;
      ZerosAddNothing(n - 1, d);
    }
  }

  /** Digits are the print of their value behind zeros. */
  lemma {:induction false} DigitsArePrinted(d: Blob) returns (n: nat)
    requires d != [] && AllDigits(d)
    ensures DigitsValue(d) >= 0 && d == Zeros(n) + PrintNat(DigitsValue(d))
    decreases |d|
  {
    var init, c := d[..|d| - 1], d[|d| - 1];
    if init == [] {
      n := 0;
      assert DigitsValue(init) == 0 && d == [c];
    } else {
      n := DigitsArePrinted(init);
      assert d == init + [c];
      if DigitsValue(init) == 0 {
        assert Zeros(n + 1) == Zeros(n) + [ZERO];
        n := n + 1;
      } else {
        assert DigitsValue(d) / 10 == DigitsValue(init) && DigitsValue(d) % 10 == c - ZERO;
      }
    }
  }

  /** Text `t` spells the integer `v`: an optional sign, any zeros, and the decimal digits of its magnitude. */
  ghost predicate Spells(t: Blob, v: int) {
    exists n: nat :: SpellsWith(t, v, n)
  }

  ghost predicate SpellsWith(t: Blob, v: int, n: nat) {
    var digits := Zeros(n) + PrintNat(Magnitude(v));
    || (v >= 0 && (t == digits || t == [PLUS] + digits))
    || (v <= 0 && t == [MINUS] + digits)
  }

  /** Parsing accepts exactly the spellings of the integers of 64 bits. */
  lemma ParseI64Exact(t: Blob, v: int)
    ensures FitsI64(v) && ParseI64(t) == Some(v) <==> FitsI64(v) && Spells(t, v)
  {
    if FitsI64(v) && ParseI64(t) == Some(v) {
      var d := if t[0] == PLUS || t[0] == MINUS then t[1..] else t;
      var n := DigitsArePrinted(d);
      assert t == d || t == [t[0]] + d;
      assert SpellsWith(t, v, n);
    }
    if FitsI64(v) && Spells(t, v) {
      var n: nat :| SpellsWith(t, v, n);
      SpelledParses(t, v, n);
    }
  }

  lemma SpelledParses(t: Blob, v: int, n: nat)
    requires FitsI64(v) && SpellsWith(t, v, n)
    ensures ParseI64(t) == Some(v)
  {
    var d := Zeros(n) + PrintNat(Magnitude(v));
    PaddedDigits(n, Magnitude(v));
    if t == d { assert IsDigit(t[0]); } else { assert t[1..] == d; }
  }

  lemma PaddedDigits(n: nat, m: nat)
    ensures var d := Zeros(n) + PrintNat(m); d != [] && AllDigits(d) && DigitsValue(d) == m
  {
    ZerosAddNothing(n, PrintNat(m));
    PrintNatValue(m);
  }

  // ---- deltas, bodies and sums -------------------------------------------------------------------

  predicate Signed(t: Blob) { t != [] && (t[0] == PLUS || t[0] == MINUS) }

  /** A finite float that is not written as an integer of 64 bits. */
  ghost predicate SpellsFloat(h: Host, t: Blob, f: F64) {
    (forall v: I64 :: !Spells(t, v)) && h.parseFloat(t) == Some(f) && h.finite(f)
  }

  lemma NotAnInteger(t: Blob)
    ensures ParseI64(t).None? <==> forall v: I64 :: !Spells(t, v)
  {
    forall v: I64 ensures ParseI64(t) == Some(v) <==> Spells(t, v) { ParseI64Exact(t, v); }
  }

  /** A delta is a signed integer or a signed finite float within white space; anything else is refused. */
  lemma DeltaGrammar(h: Host, body: Blob)
    ensures var r, t := ParseOp(h, body), Trim(body);
            && (forall v: I64 :: r == Ok(DeltaInt(v)) <==> h.isUtf8(body) && Signed(t) && Spells(t, v))
            && (forall f: F64 :: r == Ok(DeltaFloat(f)) <==> h.isUtf8(body) && Signed(t) && SpellsFloat(h, t, f))
            && (r.Err? ==> r.error == InvalidCounterOp)
  {
    var t := Trim(body);
    NotAnInteger(t);
    forall v: I64 ensures ParseI64(t) == Some(v) <==> Spells(t, v) { ParseI64Exact(t, v); }
  }

  /** The kind of every body: declared JSON, declared text, or what the trimmed text spells. */
  lemma KindOfBody(h: Host, body: Blob, declared: DeclaredType)
    ensures var kind, t := InferKind(h, body, declared), Trim(body);
            var free := !declared.DeclaredJson? && !declared.DeclaredPlainText? && h.isUtf8(body);
            var number := (exists v: I64 :: Spells(t, v)) || (exists f: F64 :: SpellsFloat(h, t, f));
            && (kind == Int64 <==> free && exists v: I64 :: Spells(t, v))
            && (kind == Float64 <==> free && exists f: F64 :: SpellsFloat(h, t, f))
            && (kind == Json <==> declared.DeclaredJson? || (free && !number && h.isJson(t)))
            && (kind == Utf8 <==> h.isUtf8(body) && (declared.DeclaredPlainText? || (free && !number && !h.isJson(t))))
            && (kind == Raw <==> !declared.DeclaredJson? && !h.isUtf8(body))
  {
    var t := Trim(body);
    NotAnInteger(t);
    if h.parseFloat(t).Some? && h.finite(h.parseFloat(t).value) && ParseI64(t).None? {
      assert SpellsFloat(h, t, h.parseFloat(t).value);
    }
  }

  /** Inference keeps the bytes as they are and refuses exactly what is too long. */
  lemma InferredValue(h: Host, body: Blob, declared: DeclaredType)
    ensures var r := InferStoredValue(h, body, declared);
            && (r.Err? <==> |body| > MAX_VALUE_BYTES)
            && (r.Ok? ==> r.value.payload == body && r.value.kind == InferKind(h, body, declared))
  {
  }

  /** Surrounding white space changes neither the kind of a body, nor a delta, nor the number read from a stored value. */
  lemma PaddingChangesNothing(h: Host, pad: Blob, b: Blob, tail: Blob, declared: DeclaredType, kind: ValueKind)
    requires Blank(pad) && Blank(tail) && h.isUtf8(pad + b + tail) == h.isUtf8(b)
    ensures InferKind(h, pad + b + tail, declared) == InferKind(h, b, declared)
    ensures ParseOp(h, pad + b + tail) == ParseOp(h, b)
    ensures FromStored(h, StoredValue(pad + b + tail, kind)) == FromStored(h, StoredValue(b, kind))
  {
    PaddingIgnored(pad, b, tail);
  }

  function AsFloat(h: Host, n: CounterValue): F64 { if n.IntValue? then h.floatOfInt(n.i) else n.f }

  function DeltaOf(op: CounterOp): CounterValue { if op.DeltaInt? then IntValue(op.i) else FloatValue(op.f) }

  /** When either side is a float, an increment stores the float sum, or is refused exactly when that is not finite. */
  lemma MergeFloat(h: Host, op: CounterOp, current: Option<StoredValue>, n: CounterValue)
    requires Lawful(h) && (if current.None? then n == IntValue(0) else FromStored(h, current.value) == Ok(n))
    requires op.DeltaFloat? || n.FloatValue?
    ensures var r, sum := Merge(h, op, current), h.addFloat(AsFloat(h, n), AsFloat(h, DeltaOf(op)));
            && (r.Ok? <==> h.finite(sum))
            && (r.Ok? ==> r.value.kind == Float64 && FromStored(h, r.value) == Ok(FloatValue(sum)))
            && (r.Err? ==> r.error == InvalidCounterOp)
  {
    var sum := h.addFloat(AsFloat(h, n), AsFloat(h, DeltaOf(op)));
    assert Apply(h, op, n) == FloatResult(h, sum);
    if h.finite(sum) { StoredRoundTrip(h, FloatValue(sum)); }
  }
}
