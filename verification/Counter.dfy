/** Stored values, their kinds, and the host functions left uninterpreted. */
module Values {
  import opened Common
  import opened Bytes

  const MAX_VALUE_BYTES := 16384

  datatype ValueKind = Raw | Utf8 | Int64 | Float64 | Json

  datatype StoredValue = StoredValue(payload: Blob, kind: ValueKind)

  datatype DomainError = KeyTooLong | ValueTooLong | InvalidTtl | InvalidCounterOp

  function NewValue(payload: Blob, kind: ValueKind): Result<StoredValue, DomainError> {
    if |payload| > MAX_VALUE_BYTES then Err(ValueTooLong) else Ok(StoredValue(payload, kind))
  }

  /** A 64-bit float, as its bit pattern. */
  type F64 = U64

  /** Text decoding and IEEE arithmetic, supplied by the host language. */
  datatype Host = Host(
    isUtf8: Blob -> bool,
    isJson: Blob -> bool,
    parseFloat: Blob -> Option<F64>,
    printFloat: F64 -> Blob,
    finite: F64 -> bool,
    addFloat: (F64, F64) -> F64,
    floatOfInt: I64 -> F64)
}

/** Decimal integers as Rust's `str::trim`, `str::parse::<i64>` and `Display` treat them. */
module Decimal {
  import opened Common
  import opened Bytes

  const PLUS: Byte := 43
  const MINUS: Byte := 45
  const ZERO: Byte := 48

  predicate IsDigit(c: Byte) { 48 <= c <= 57 }

  predicate AllDigits(d: Blob) { forall i :: 0 <= i < |d| ==> IsDigit(d[i]) }

  /** Length of the UTF-8 encoded White_Space character at the head of `b`, or 0. */
  function LeadingSpace(b: Blob): (n: nat)
    ensures n <= |b|
  {
    if b == [] then 0
    else if 9 <= b[0] <= 13 || b[0] == 32 then 1
    else if |b| >= 2 && b[0] == 0xC2 && (b[1] == 0x85 || b[1] == 0xA0) then 2
    else if |b| >= 3 && WideSpace(b[0], b[1], b[2]) then 3
    else 0
  }

  function TrailingSpace(b: Blob): (n: nat)
    ensures n <= |b|
  {
    var l := |b|;
    if l == 0 then 0
    else if 9 <= b[l - 1] <= 13 || b[l - 1] == 32 then 1
    else if l >= 2 && b[l - 2] == 0xC2 && (b[l - 1] == 0x85 || b[l - 1] == 0xA0) then 2
    else if l >= 3 && WideSpace(b[l - 3], b[l - 2], b[l - 1]) then 3
    else 0
  }

  predicate WideSpace(x: Byte, y: Byte, z: Byte) {
    || (x == 0xE1 && y == 0x9A && z == 0x80)
    || (x == 0xE2 && y == 0x80 && (0x80 <= z <= 0x8A || z == 0xA8 || z == 0xA9 || z == 0xAF))
    || (x == 0xE2 && y == 0x81 && z == 0x9F)
    || (x == 0xE3 && y == 0x80 && z == 0x80)
  }

  function TrimStart(b: Blob): Blob
    decreases |b|
  {
    var n := LeadingSpace(b);
    if n == 0 then b else TrimStart(b[n..])
  }

  function TrimEnd(b: Blob): Blob
    decreases |b|
  {
    var n := TrailingSpace(b);
    if n == 0 then b else TrimEnd(b[..|b| - n])
  }

  function Trim(b: Blob): Blob { TrimEnd(TrimStart(b)) }

  function DigitsValue(d: Blob): int {
    if d == [] then 0 else 10 * DigitsValue(d[..|d| - 1]) + (d[|d| - 1] - ZERO)
  }

  function ParseI64(t: Blob): Option<I64> {
    if t == [] then None
    else
      var d := if t[0] == PLUS || t[0] == MINUS then t[1..] else t;
      if d == [] || !AllDigits(d) then None
      else
        var v := if t[0] == MINUS then -DigitsValue(d) else DigitsValue(d);
        if FitsI64(v) then Some(v) else None
  }

  function PrintNat(n: nat): (d: Blob)
    ensures d != [] && AllDigits(d)
  {
    if n < 10 then [ZERO + n] else PrintNat(n / 10) + [ZERO + n % 10]
  }

  function Magnitude(i: int): nat { if i < 0 then -i else i }

  function PrintI64(i: I64): Blob {
    if i < 0 then [MINUS] + PrintNat(Magnitude(i)) else PrintNat(Magnitude(i))
  }

  lemma {:induction false} PrintNatValue(n: nat)
    ensures DigitsValue(PrintNat(n)) == n
  {
    if n >= 10 {
      PrintNatValue(n / 10);
      assert PrintNat(n)[..|PrintNat(n)| - 1] == PrintNat(n / 10);
    } else {
      assert PrintNat(n)[..0] == [];
    }
  }

  ghost function Pow10(k: nat): nat { if k == 0 then 1 else 10 * Pow10(k - 1) }

  lemma {:induction false} PrintNatLength(n: nat, k: nat)
    requires 1 <= k && n < Pow10(k)
    ensures |PrintNat(n)| <= k
  {
    if n >= 10 { PrintNatLength(n / 10, k - 1); }
  }

  lemma PrintI64Length(i: I64)
    ensures |PrintI64(i)| <= 20
  {
    assert Pow10(5) == 100_000 by { assert Pow10(3) == 1000; }
    assert Pow10(10) == 10_000_000_000 by { assert Pow10(8) == 100_000_000 by { assert Pow10(6) == 1_000_000; } }
    assert Pow10(15) == 1_000_000_000_000_000 by { assert Pow10(12) == 1_000_000_000_000; }
    assert Pow10(19) == 10_000_000_000_000_000_000 by { assert Pow10(17) == 100_000_000_000_000_000; }
    PrintNatLength(Magnitude(i), 19);
  }

  /** Text that starts and ends with a sign or a digit is untouched by `trim`. */
  lemma TrimKeepsNumber(b: Blob)
    requires b != []
    requires IsDigit(b[0]) || b[0] == PLUS || b[0] == MINUS
    requires IsDigit(b[|b| - 1])
    ensures Trim(b) == b
  {
  }

  /** Every i64 prints to a text that trims and parses back to it, the minimum included. */
  lemma DecimalRoundTrip(i: I64)
    ensures ParseI64(Trim(PrintI64(i))) == Some(i)
  {
    PrintNatValue(Magnitude(i));
    assert i < 0 ==> PrintI64(i)[1..] == PrintNat(Magnitude(i));
    TrimKeepsNumber(PrintI64(i));
  }

  lemma SignedDecimalRoundTrip(i: I64)
    requires i >= 0
    ensures ParseI64(Trim([PLUS] + PrintNat(i))) == Some(i)
  {
    PrintNatValue(i);
    assert ([PLUS] + PrintNat(i))[1..] == PrintNat(i);
    TrimKeepsNumber([PLUS] + PrintNat(i));
  }
}

/** Counter deltas, numeric promotion, and kind inference. */
module Counter {
  import opened Common
  import opened Bytes
  import opened Values
  import opened Decimal

  datatype CounterOp = DeltaInt(i: I64) | DeltaFloat(f: F64)

  datatype CounterValue = IntValue(i: I64) | FloatValue(f: F64)

  function ParseOp(h: Host, body: Blob): Result<CounterOp, DomainError> {
    if !h.isUtf8(body) then Err(InvalidCounterOp)
    else
      var t := Trim(body);
      if t == [] || (t[0] != PLUS && t[0] != MINUS) then Err(InvalidCounterOp)
      else
        match ParseI64(t)
        case Some(i) => Ok(DeltaInt(i))
        case None =>
          match h.parseFloat(t)
          case Some(f) => if h.finite(f) then Ok(DeltaFloat(f)) else Err(InvalidCounterOp)
          case None => Err(InvalidCounterOp)
  }

  function FloatResult(h: Host, f: F64): Result<CounterValue, DomainError> {
    if h.finite(f) then Ok(FloatValue(f)) else Err(InvalidCounterOp)
  }

  function Apply(h: Host, op: CounterOp, current: CounterValue): Result<CounterValue, DomainError> {
    match (op, current)
    case (DeltaInt(d), IntValue(v)) =>
      if FitsI64(v + d) then Ok(IntValue(v + d)) else Err(InvalidCounterOp)
    case (DeltaInt(d), FloatValue(v)) => FloatResult(h, h.addFloat(v, h.floatOfInt(d)))
    case (DeltaFloat(d), IntValue(v)) => FloatResult(h, h.addFloat(h.floatOfInt(v), d))
    case (DeltaFloat(d), FloatValue(v)) => FloatResult(h, h.addFloat(v, d))
  }

  function FromStored(h: Host, value: StoredValue): Result<CounterValue, DomainError> {
    match value.kind
    case Int64 =>
      (match ParseI64(Trim(value.payload))
       case Some(i) => Ok(IntValue(i))
       case None => Err(InvalidCounterOp))
    case Float64 =>
      if !h.isUtf8(value.payload) then Err(InvalidCounterOp)
      else
        (match h.parseFloat(Trim(value.payload))
         case Some(f) => FloatResult(h, f)
         case None => Err(InvalidCounterOp))
    case _ => Err(InvalidCounterOp)
  }

  function IntoStored(h: Host, v: CounterValue): Result<StoredValue, DomainError> {
    match v
    case IntValue(i) => NewValue(PrintI64(i), Int64)
    case FloatValue(f) => NewValue(h.printFloat(f), Float64)
  }

  /** What an increment writes when `current` is the live value under the key, if any. */
  function Merge(h: Host, op: CounterOp, current: Option<StoredValue>): Result<StoredValue, DomainError> {
    var start := if current.None? then Ok(IntValue(0)) else FromStored(h, current.value);
    if start.Err? then Err(start.error)
    else
      var merged := Apply(h, op, start.value);
      if merged.Err? then Err(merged.error) else IntoStored(h, merged.value)
  }

  /** Any rule for what an increment writes; the store and its locking do not depend on which. */
  type Merger = (CounterOp, Option<StoredValue>) -> Result<StoredValue, DomainError>

  function MergerOf(h: Host): Merger { (op, current) => Merge(h, op, current) }

  datatype DeclaredType = Undeclared | DeclaredJson | DeclaredPlainText | DeclaredOther

  function InferKind(h: Host, body: Blob, declared: DeclaredType): ValueKind {
    if declared.DeclaredJson? then Json
    else if declared.DeclaredPlainText? then (if h.isUtf8(body) then Utf8 else Raw)
    else if !h.isUtf8(body) then Raw
    else
      var t := Trim(body);
      if ParseI64(t).Some? then Int64
      else if h.parseFloat(t).Some? && h.finite(h.parseFloat(t).value) then Float64
      else if h.isJson(t) then Json
      else Utf8
  }

  function InferStoredValue(h: Host, body: Blob, declared: DeclaredType): Result<StoredValue, DomainError> {
    NewValue(body, InferKind(h, body, declared))
  }

  // ---- properties ---------------------------------------------------------------------

  /** Finite floats print to short text that reads back to the same float. */
  ghost predicate Lawful(h: Host) {
    forall f: F64 :: h.finite(f) ==>
      && |h.printFloat(f)| <= MAX_VALUE_BYTES
      && h.isUtf8(h.printFloat(f))
      && h.parseFloat(Trim(h.printFloat(f))) == Some(f)
  }

  /** A value whose kind says "number" really reads as one. */
  predicate Numeric(h: Host, v: StoredValue) {
    v.kind == Int64 || v.kind == Float64 ==> FromStored(h, v).Ok?
  }

  lemma StoredRoundTrip(h: Host, v: CounterValue)
    requires Lawful(h) && (v.FloatValue? ==> h.finite(v.f))
    ensures IntoStored(h, v).Ok? && FromStored(h, IntoStored(h, v).value) == Ok(v)
  {
    if v.IntValue? {
      DecimalRoundTrip(v.i);
      PrintI64Length(v.i);
    }
  }

  /** Inference and the counter agree on which bytes are numbers. */
  lemma InferredIsNumeric(h: Host, body: Blob, declared: DeclaredType)
    ensures InferStoredValue(h, body, declared).Ok? ==>
              var v := InferStoredValue(h, body, declared).value;
              && Numeric(h, v)
              && (v.kind == Int64 <==> declared !in {DeclaredJson, DeclaredPlainText}
                                       && h.isUtf8(body) && ParseI64(Trim(body)).Some?)
  {
  }

  /** The exact outcome of one increment, by the kind of what it finds. */
  lemma MergeOutcome(h: Host, op: CounterOp, current: Option<StoredValue>)
    requires Lawful(h)
    ensures var r := Merge(h, op, current);
            && (r.Ok? ==> Numeric(h, r.value) && (r.value.kind == Int64 || r.value.kind == Float64))
            && (current.None? && op.DeltaInt? ==> r == Ok(StoredValue(PrintI64(op.i), Int64)))
            && (current.Some? && current.value.kind !in {Int64, Float64} ==> r == Err(InvalidCounterOp))
            && (current.Some? && current.value.kind == Float64 && r.Ok? ==> r.value.kind == Float64)
            && (op.DeltaFloat? && r.Ok? ==> r.value.kind == Float64)
  {
    var start := if current.None? then Ok(IntValue(0)) else FromStored(h, current.value);
    if start.Ok? {
      var merged := Apply(h, op, start.value);
      if merged.Ok? { StoredRoundTrip(h, merged.value); }
    }
  }

  lemma MergeInt(h: Host, d: I64, v: I64, current: Option<StoredValue>)
    requires if current.None? then v == 0
             else current.value.kind == Int64 && FromStored(h, current.value) == Ok(IntValue(v))
    ensures Merge(h, DeltaInt(d), current)
            == (if FitsI64(v + d) then Ok(StoredValue(PrintI64(v + d), Int64)) else Err(InvalidCounterOp))
  {
    if FitsI64(v + d) { PrintI64Length(v + d); }
  }

  /** Ideal integer counter: a delta that would leave the i64 range is dropped, every other one is added. */
  function IdealTotal(start: int, deltas: seq<I64>): int
    decreases |deltas|
  {
    if deltas == [] then start
    else IdealTotal(if FitsI64(start + deltas[0]) then start + deltas[0] else start, deltas[1..])
  }

  /** The stored counter after a run of increments, rejected ones leaving it alone. */
  function RunCounter(h: Host, current: Option<StoredValue>, ops: seq<CounterOp>): Option<StoredValue>
    decreases |ops|
  {
    if ops == [] then current
    else
      var r := Merge(h, ops[0], current);
      RunCounter(h, if r.Ok? then Some(r.value) else current, ops[1..])
  }

  function DeltaOps(deltas: seq<I64>): (ops: seq<CounterOp>)
    ensures |ops| == |deltas| && forall i :: 0 <= i < |deltas| ==> ops[i] == DeltaInt(deltas[i])
  {
    seq(|deltas|, i requires 0 <= i < |deltas| => DeltaInt(deltas[i]))
  }

  /** An integer counter holds the sum of its accepted deltas after every run. */
  lemma {:induction false} CounterHoldsTotal(h: Host, current: Option<StoredValue>, v: I64, deltas: seq<I64>)
    requires if current.None? then v == 0
             else current.value.kind == Int64 && FromStored(h, current.value) == Ok(IntValue(v))
    ensures FitsI64(IdealTotal(v, deltas))
    ensures var r := RunCounter(h, current, DeltaOps(deltas));
            if r.None? then current.None? && IdealTotal(v, deltas) == 0
            else r.value.kind == Int64 && FromStored(h, r.value) == Ok(IntValue(IdealTotal(v, deltas)))
    decreases |deltas|
  {
    if deltas != [] {
      MergeInt(h, deltas[0], v, current);
      assert DeltaOps(deltas)[1..] == DeltaOps(deltas[1..]);
      if FitsI64(v + deltas[0]) {
        DecimalRoundTrip(v + deltas[0]);
        CounterHoldsTotal(h, Some(Merge(h, DeltaInt(deltas[0]), current).value), v + deltas[0], deltas[1..]);
      } else {
        CounterHoldsTotal(h, current, v, deltas[1..]);
      }
    }
  }

  /** Once a counter is a float, no run of increments makes it an integer again or loses it. */
  lemma {:induction false} FloatStaysFloat(h: Host, current: Option<StoredValue>, ops: seq<CounterOp>)
    requires Lawful(h) && current.Some? && current.value.kind == Float64
    ensures RunCounter(h, current, ops).Some? && RunCounter(h, current, ops).value.kind == Float64
    decreases |ops|
  {
    if ops != [] {
      MergeOutcome(h, ops[0], current);
      var r := Merge(h, ops[0], current);
      FloatStaysFloat(h, if r.Ok? then Some(r.value) else current, ops[1..]);
    }
  }

  /** A body printed from a non-negative or a negative delta parses back to that delta. */
  lemma DeltaRoundTrip(h: Host, i: I64)
    requires h.isUtf8(if i < 0 then PrintI64(i) else [PLUS] + PrintNat(i))
    ensures ParseOp(h, if i < 0 then PrintI64(i) else [PLUS] + PrintNat(i)) == Ok(DeltaInt(i))
  {
    if i < 0 {
      DecimalRoundTrip(i);
      TrimKeepsNumber(PrintI64(i));
    } else {
      SignedDecimalRoundTrip(i);
      TrimKeepsNumber([PLUS] + PrintNat(i));
    }
  }
}
