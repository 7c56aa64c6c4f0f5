/** Protocol Buffers wire decoding of usage blobs: base-128 varints, top-level
    fields and the ModelUsage message. */
module Wire {
  import opened Common

  const MAX_WIRE_LENGTH := 100 * 1024 * 1024
  const MAX_RECURSION_DEPTH := 10
  const MAX_VARINT_BYTES := 10

  datatype WireError =
    | Truncated
    | VarintOverflow
    | RecursionLimit
    | BlobTooLarge
    | FieldNumberZero
    | UnsupportedWireType(wireType: nat)

  datatype Varint = Varint(value: u64, length: nat)

  // ---------- Varints ----------

  function Pow2(n: nat): (p: nat)
    ensures p > 0
  {
    if n == 0 then 1 else 2 * Pow2(n - 1)
  }

  /** The unbounded number a little-endian base-128 string stands for. */
  function Base128(s: seq<byte>): nat {
    if s == [] then 0 else s[0] % 128 + 128 * Base128(s[1..])
  }

  /** How many leading bytes carry the continuation bit. */
  function Continuations(b: seq<byte>): (k: nat)
    ensures k <= |b|
    ensures forall i :: 0 <= i < k ==> b[i] >= 128
    ensures k < |b| ==> b[k] < 128
  {
    if b == [] || b[0] < 128 then 0 else 1 + Continuations(b[1..])
  }

  /** What a varint at the head of `b` means: the base-128 value of the bytes up
      to the first one without a continuation bit, kept to 64 bits. */
  function DecodeVarint(b: seq<byte>): Result<Varint, WireError> {
    var k := Continuations(b);
    if k < |b| && k < MAX_VARINT_BYTES then Ok(Varint(Base128(b[..k + 1]) % TWO_64, k + 1))
    else if |b| > MAX_VARINT_BYTES then Err(VarintOverflow)
    else Err(Truncated)
  }

  /** The canonical encoding. */
  function EncodeVarint(v: nat): (s: seq<byte>)
    ensures |s| > 0
  {
    if v < 128 then [v] else [128 + v % 128] + EncodeVarint(v / 128)
  }

  lemma {:induction false} Base128Snoc(s: seq<byte>, x: byte)
    ensures Base128(s + [x]) == Base128(s) + x % 128 * Pow2(7 * |s|)
  {
    if s == [] {
      assert s + [x] == [x];
      assert Base128([x]) == x % 128 + 128 * Base128([]);
    } else {
      assert (s + [x])[1..] == s[1..] + [x];
      Base128Snoc(s[1..], x);
      Pow2Seven(|s| - 1);
      assert 128 * (x % 128 * Pow2(7 * (|s| - 1))) == x % 128 * (128 * Pow2(7 * (|s| - 1)));
    }
  }

  lemma Pow2Seven(k: nat)
    ensures Pow2(7 * (k + 1)) == 128 * Pow2(7 * k)
  {
    var n := 7 * k;
    assert Pow2(n + 7) == 2 * Pow2(n + 6) && Pow2(n + 6) == 2 * Pow2(n + 5) && Pow2(n + 5) == 2 * Pow2(n + 4);
    assert Pow2(n + 4) == 2 * Pow2(n + 3) && Pow2(n + 3) == 2 * Pow2(n + 2) && Pow2(n + 2) == 2 * Pow2(n + 1);
  }

  lemma {:induction false} Pow2Monotone(m: nat, n: nat)
    requires m <= n
    ensures Pow2(m) <= Pow2(n)
    decreases n
  {
    if m < n { Pow2Monotone(m, n - 1); }
  }

  lemma Pow2Value()
    ensures Pow2(63) == TWO_64 / 2
  {
    assert Pow2(0) == 1;
    hide Pow2;
    Pow2Seven(0); assert Pow2(7) == 0x80;
    Pow2Seven(1); assert Pow2(14) == 0x4000;
    Pow2Seven(2); assert Pow2(21) == 0x20_0000;
    Pow2Seven(3); assert Pow2(28) == 0x1000_0000;
    Pow2Seven(4); assert Pow2(35) == 0x8_0000_0000;
    Pow2Seven(5); assert Pow2(42) == 0x400_0000_0000;
    Pow2Seven(6); assert Pow2(49) == 0x2_0000_0000_0000;
    Pow2Seven(7); assert Pow2(56) == 0x100_0000_0000_0000;
    Pow2Seven(8);
  }

  lemma {:induction false} Base128Bound(s: seq<byte>)
    ensures Base128(s) < Pow2(7 * |s|)
  {
    if s != [] {
      Base128Bound(s[1..]);
      Pow2Seven(|s| - 1);
    }
  }

  /** Go's `x << shift` on a uint64. */
  function ShiftLeft64(x: nat, shift: nat): u64 { x * Pow2(shift) % TWO_64 }

  /** Go's `|` on unsigned integers. */
  function Or(a: nat, b: nat): nat
    decreases a + b
  {
    if a == 0 && b == 0 then 0
    else 2 * Or(a / 2, b / 2) + if a % 2 == 1 || b % 2 == 1 then 1 else 0
  }

  lemma {:induction false} OrWithNothing(a: nat)
    ensures Or(a, 0) == a && Or(0, a) == a
  {
    if a > 0 { OrWithNothing(a / 2); }
  }

  /** A number below 2^n and a multiple of 2^n have no bit in common: their bitwise or is
      their sum. */
  lemma {:induction false} OrOfDisjointBitsIsSum(low: nat, k: nat, n: nat)
    requires low < Pow2(n)
    ensures Or(low, k * Pow2(n)) == low + k * Pow2(n)
    decreases n
  {
    if n == 0 {
      OrWithNothing(k);
    } else {
      var high := k * Pow2(n - 1);
      assert k * Pow2(n) == 2 * high;
      OrOfDisjointBitsIsSum(low / 2, k, n - 1);
      OrStep(low, high);
    }
  }

  lemma OrStep(low: nat, high: nat)
    ensures Or(low, 2 * high) == 2 * Or(low / 2, high) + low % 2
  {}

  /** A shifted digit is a multiple of the power it is shifted by, also when it loses bits. */
  lemma ShiftIsMultiple(d: nat, i: nat) returns (k: nat)
    requires d < 128 && i < MAX_VARINT_BYTES
    ensures ShiftLeft64(d, 7 * i) == k * Pow2(7 * i)
  {
    Pow2Value();
    hide Pow2;
    if i < 9 {
      Pow2Seven(i);
      Pow2Monotone(7 * (i + 1), 63);
      ProductMonotone(d, 127, Pow2(7 * i));
      SmallModulo(d * Pow2(7 * i));
      k := d;
    } else {
      HalfWraps(d);
      k := d % 2;
    }
  }

  lemma HalfWraps(d: nat)
    ensures d * (TWO_64 / 2) % TWO_64 == d % 2 * (TWO_64 / 2)
  {
    var q, r := d / 2, d % 2;
    assert d * (TWO_64 / 2) == q * TWO_64 + r * (TWO_64 / 2);
  }

  lemma DigitNoWrap(low: nat, d: nat, p: nat)
    requires low < p && d < 128 && 128 * p <= TWO_64 / 2
    ensures low + d * p % TWO_64 == (low + d * p) % TWO_64
  {
    assert d * p <= 127 * p by { ProductMonotone(d, 127, p); }
    SmallModulo(d * p);
    SmallModulo(low + d * p);
  }

  lemma SmallModulo(x: nat)
    requires x < TWO_64
    ensures x % TWO_64 == x
  {}

  lemma ProductMonotone(a: nat, b: nat, p: nat)
    requires a <= b
    ensures a * p <= b * p
  {}

  lemma TopDigitWraps(low: nat, d: nat)
    requires low < TWO_64 / 2 && d < 128
    ensures low + d * (TWO_64 / 2) % TWO_64 == (low + d * (TWO_64 / 2)) % TWO_64
  {
    var q, r := d / 2, d % 2;
    assert d * (TWO_64 / 2) == q * TWO_64 + r * (TWO_64 / 2);
  }

  /** One turn of the decoder's loop adds one base-128 digit, modulo 2^64. */
  lemma AccumulateDigit(b: seq<byte>, i: nat)
    requires i < |b| && i < MAX_VARINT_BYTES
    ensures Base128(b[..i]) < TWO_64
    ensures Or(Base128(b[..i]), ShiftLeft64(b[i] % 128, 7 * i)) == Base128(b[..i + 1]) % TWO_64
  {
    DigitIsAdded(b, i);
    Base128Bound(b[..i]);
    var k := ShiftIsMultiple(b[i] % 128, i);
    OrOfDisjointBitsIsSum(Base128(b[..i]), k, 7 * i);
  }

  lemma DigitIsAdded(b: seq<byte>, i: nat)
    requires i < |b| && i < MAX_VARINT_BYTES
    ensures Base128(b[..i]) < TWO_64
    ensures Base128(b[..i]) + ShiftLeft64(b[i] % 128, 7 * i) == Base128(b[..i + 1]) % TWO_64
  {
    hide Base128, Pow2;
    assert b[..i + 1] == b[..i] + [b[i]];
    Base128Snoc(b[..i], b[i]);
    Base128Bound(b[..i]);
    Pow2Value();
    Pow2Monotone(7 * i, 63);
    if i < 9 {
      Pow2Seven(i);
      Pow2Monotone(7 * (i + 1), 63);
      DigitNoWrap(Base128(b[..i]), b[i] % 128, Pow2(7 * i));
    } else {
      TopDigitWraps(Base128(b[..i]), b[i] % 128);
    }
  }

  /** decodeVarint: the byte loop computes DecodeVarint. */
  method ReadVarint(b: seq<byte>) returns (r: Result<Varint, WireError>)
    ensures r == DecodeVarint(b)
  {
    hide Pow2, ShiftLeft64, Or, DecodeVarint;
    var val: nat, shift: nat := 0, 0;
    assert Base128(b[..0]) == 0;
    hide Base128;
    for i := 0 to |b|
      invariant i <= MAX_VARINT_BYTES
      invariant shift == 7 * i && val == Base128(b[..i]) % TWO_64
      invariant forall j :: 0 <= j < i ==> b[j] >= 128
    {
      if i >= MAX_VARINT_BYTES {
        TooLongVarint(b);
        return Err(VarintOverflow);
      }
      AccumulateDigit(b, i);
      val := Or(val, ShiftLeft64(b[i] % 128, shift));
      if b[i] < 128 {
        VarintEndsAt(b, i);
        return Ok(Varint(val, i + 1));
      }
      shift := shift + 7;
    }
    OpenVarint(b);
    r := Err(Truncated);
  }

  lemma VarintEndsAt(b: seq<byte>, k: nat)
    requires k < |b| && k < MAX_VARINT_BYTES && b[k] < 128 && forall j :: 0 <= j < k ==> b[j] >= 128
    ensures DecodeVarint(b) == Ok(Varint(Base128(b[..k + 1]) % TWO_64, k + 1))
  {
    ContinuationsAre(b, k);
  }

  lemma TooLongVarint(b: seq<byte>)
    requires |b| > MAX_VARINT_BYTES && forall j :: 0 <= j < MAX_VARINT_BYTES ==> b[j] >= 128
    ensures DecodeVarint(b) == Err(VarintOverflow)
  {
    hide Base128;
  }

  lemma OpenVarint(b: seq<byte>)
    requires |b| <= MAX_VARINT_BYTES && forall j :: 0 <= j < |b| ==> b[j] >= 128
    ensures DecodeVarint(b) == Err(Truncated)
  {
    hide Base128;
  }

  lemma {:induction false} EncodeVarintShape(v: nat)
    ensures Base128(EncodeVarint(v)) == v
    ensures forall i :: 0 <= i < |EncodeVarint(v)| - 1 ==> EncodeVarint(v)[i] >= 128
    ensures EncodeVarint(v)[|EncodeVarint(v)| - 1] < 128
  {
    if v >= 128 {
      EncodeVarintShape(v / 128);
      assert EncodeVarint(v)[1..] == EncodeVarint(v / 128);
    } else {
      assert EncodeVarint(v)[1..] == [];
    }
  }

  /** A value below 2^(7n) needs at most n bytes. */
  lemma {:induction false} EncodeVarintLength(v: nat, n: nat)
    requires n >= 1 && v < Pow2(7 * n)
    ensures |EncodeVarint(v)| <= n
    decreases n
  {
    if v >= 128 {
      if n == 1 { Pow2Seven(0); } else {
        Pow2Seven(n - 1);
        EncodeVarintLength(v / 128, n - 1);
      }
    }
  }

  lemma ContinuationsAre(b: seq<byte>, k: nat)
    requires k < |b| && b[k] < 128
    requires forall i :: 0 <= i < k ==> b[i] >= 128
    ensures Continuations(b) == k
  {}

  /** Every 64-bit value survives encoding, whatever follows it. */
  lemma VarintRoundTrip(v: u64, rest: seq<byte>)
    ensures DecodeVarint(EncodeVarint(v) + rest) == Ok(Varint(v, |EncodeVarint(v)|))
  {
    hide EncodeVarint, Pow2, Continuations;
    var e := EncodeVarint(v);
    EncodeVarintShape(v);
    Pow2Value();
    Pow2Seven(9);
    EncodeVarintLength(v, 10);
    ContinuationsAre(e + rest, |e| - 1);
    assert (e + rest)[..|e|] == e;
  }

  /** A complete varint does not look past its own bytes. */
  lemma VarintPrefixStable(a: seq<byte>, c: seq<byte>)
    requires DecodeVarint(a).Ok?
    ensures DecodeVarint(a + c) == DecodeVarint(a)
  {
    var k := Continuations(a);
    ContinuationsAre(a + c, k);
    assert (a + c)[..k + 1] == a[..k + 1];
  }

  /** The canonical form is never longer than what was decoded. */
  lemma VarintCanonicalShorter(b: seq<byte>, v: nat)
    requires DecodeVarint(b).Ok? && v <= DecodeVarint(b).value.value
    ensures 1 <= |EncodeVarint(v)| <= DecodeVarint(b).value.length <= |b|
  {
    var n := DecodeVarint(b).value.length;
    Base128Bound(b[..n]);
    EncodeVarintLength(v, n);
  }

  // ---------- Fields ----------

  /** protoField: `varint` is set for wire type 0, `bytes` for the others. */
  datatype Field = Field(num: nat, wireType: nat, varint: u64, bytes: seq<byte>)

  datatype Parsed = Parsed(field: Field, length: nat)

  /** The fields the decoder can return. */
  predicate WellFormed(f: Field) {
    && 1 <= f.num < TWO_32
    && match f.wireType
       case 0 => f.bytes == []
       case 1 => f.varint == 0 && |f.bytes| == 8
       case 2 => f.varint == 0 && |f.bytes| < TWO_64
       case 5 => f.varint == 0 && |f.bytes| == 4
       case _ => false
  }

  function EncodePayload(f: Field): seq<byte> {
    if f.wireType == 0 then EncodeVarint(f.varint)
    else if f.wireType == 2 then EncodeVarint(|f.bytes|) + f.bytes
    else f.bytes
  }

  function EncodeField(f: Field): seq<byte>
    requires WellFormed(f)
  {
    EncodeVarint(8 * f.num + f.wireType) + EncodePayload(f)
  }

  predicate AllWellFormed(fs: seq<Field>) {
    forall i :: 0 <= i < |fs| ==> WellFormed(fs[i])
  }

  function EncodeFields(fs: seq<Field>): seq<byte>
    requires AllWellFormed(fs)
  {
    if fs == [] then [] else EncodeField(fs[0]) + EncodeFields(fs[1..])
  }

  /** The payload after a tag. */
  function DecodePayload(num: nat, wireType: nat, b: seq<byte>): (r: Result<Parsed, WireError>)
    ensures r.Ok? ==> r.value.length <= |b|
  {
    match wireType
    case 0 =>
      var v := DecodeVarint(b);
      if v.Err? then Err(v.error) else Ok(Parsed(Field(num, 0, v.value.value, []), v.value.length))
    case 1 =>
      if |b| < 8 then Err(Truncated) else Ok(Parsed(Field(num, 1, 0, b[..8]), 8))
    case 2 =>
      var v := DecodeVarint(b);
      if v.Err? then Err(v.error) else
        var n, len := v.value.length, v.value.value;
        if |b| - n < len then Err(Truncated) else Ok(Parsed(Field(num, 2, 0, b[n..n + len]), n + len))
    case 5 =>
      if |b| < 4 then Err(Truncated) else Ok(Parsed(Field(num, 5, 0, b[..4]), 4))
    case _ => Err(UnsupportedWireType(wireType))
  }

  /** One field at the head of `b`. The tag's field number is cut to 32 bits. */
  function DecodeField(b: seq<byte>): (r: Result<Parsed, WireError>)
    ensures r.Ok? ==> 0 < r.value.length <= |b|
  {
    var tag := DecodeVarint(b);
    if tag.Err? then Err(tag.error) else
      var n, num := tag.value.length, tag.value.value / 8 % TWO_32;
      if num == 0 then Err(FieldNumberZero) else
        var p := DecodePayload(num, tag.value.value % 8, b[n..]);
        if p.Err? then p else Ok(Parsed(p.value.field, n + p.value.length))
  }

  function Prepend(fs: seq<Field>, r: Result<seq<Field>, WireError>): Result<seq<Field>, WireError> {
    if r.Err? then r else Ok(fs + r.value)
  }

  function DecodeAll(b: seq<byte>): Result<seq<Field>, WireError>
    decreases |b|
  {
    if b == [] then Ok([]) else
      var p := DecodeField(b);
      if p.Err? then Err(p.error) else Prepend([p.value.field], DecodeAll(b[p.value.length..]))
  }

  function Decode(b: seq<byte>, depth: nat): Result<seq<Field>, WireError> {
    if depth > MAX_RECURSION_DEPTH then Err(RecursionLimit)
    else if |b| > MAX_WIRE_LENGTH then Err(BlobTooLarge)
    else DecodeAll(b)
  }

  /** The payload switch of decodeFields, at an offset into the blob. */
  method ReadPayload(num: nat, wireType: nat, b: seq<byte>, start: nat) returns (r: Result<Parsed, WireError>)
    requires start <= |b|
    ensures r == DecodePayload(num, wireType, b[start..])
  {
    var f, offset := Field(num, wireType, 0, []), start;
    ghost var rest := b[start..];
    match wireType {
    case 0 =>
      var v := ReadVarint(b[offset..]);
      if v.Err? { return Err(v.error); }
      f := f.(varint := v.value.value);
      offset := offset + v.value.length;
    case 1 =>
      if offset + 8 > |b| { return Err(Truncated); }
      f := f.(bytes := b[offset..offset + 8]);
      assert f.bytes == rest[..8];
      offset := offset + 8;
    case 2 =>
      var v := ReadVarint(b[offset..]);
      if v.Err? { return Err(v.error); }
      offset := offset + v.value.length;
      if |b| - offset < v.value.value { return Err(Truncated); }
      f := f.(bytes := b[offset..offset + v.value.value]);
      assert f.bytes == rest[v.value.length..v.value.length + v.value.value];
      offset := offset + v.value.value;
    case 5 =>
      if offset + 4 > |b| { return Err(Truncated); }
      f := f.(bytes := b[offset..offset + 4]);
      assert f.bytes == rest[..4];
      offset := offset + 4;
    case _ =>
      return Err(UnsupportedWireType(wireType));
    }
    r := Ok(Parsed(f, offset - start));
  }

  /** decodeFields: the offset loop computes Decode. */
  method DecodeFields(b: seq<byte>, depth: nat) returns (r: Result<seq<Field>, WireError>)
    ensures r == Decode(b, depth)
  {
    hide DecodeVarint, DecodePayload;
    if depth > MAX_RECURSION_DEPTH { return Err(RecursionLimit); }
    if |b| > MAX_WIRE_LENGTH { return Err(BlobTooLarge); }
    var fields: seq<Field>, offset := [], 0;
    assert b[0..] == b && DecodeAll(b) == Prepend([], DecodeAll(b)) by { PrependNothing(DecodeAll(b)); }
    while offset < |b|
      invariant 0 <= offset <= |b|
      invariant DecodeAll(b) == Prepend(fields, DecodeAll(b[offset..]))
    {
      ghost var rest := b[offset..];
      var tag := ReadVarint(b[offset..]);
      if tag.Err? { return Err(tag.error); }
      VarintWithin(rest);
      var n := tag.value.length;
      assert b[offset + n..] == rest[n..];
      var num := tag.value.value / 8 % TWO_32;
      if num == 0 { return Err(FieldNumberZero); }
      var p := ReadPayload(num, tag.value.value % 8, b, offset + n);
      if p.Err? { return Err(p.error); }
      n := n + p.value.length;
      DecodeAllStep(rest, p.value.field, n);
      assert b[offset + n..] == rest[n..];
      PrependAssociative(fields, [p.value.field], DecodeAll(rest[n..]));
      offset := offset + n;
      fields := fields + [p.value.field];
    }
    assert fields + [] == fields;
    r := Ok(fields);
  }

  lemma VarintWithin(b: seq<byte>)
    requires DecodeVarint(b).Ok?
    ensures 0 < DecodeVarint(b).value.length <= |b|
  {}

  lemma PrependNothing(r: Result<seq<Field>, WireError>)
    ensures Prepend([], r) == r
  {
    if r.Ok? { assert [] + r.value == r.value; }
  }

  lemma PrependAssociative(a: seq<Field>, c: seq<Field>, r: Result<seq<Field>, WireError>)
    ensures Prepend(a, Prepend(c, r)) == Prepend(a + c, r)
  {
    if r.Ok? { assert a + (c + r.value) == a + c + r.value; }
  }

  lemma PayloadRoundTrip(f: Field, rest: seq<byte>)
    requires WellFormed(f)
    ensures DecodePayload(f.num, f.wireType, EncodePayload(f) + rest) == Ok(Parsed(f, |EncodePayload(f)|))
  {
    var b := EncodePayload(f) + rest;
    if f.wireType == 0 {
      VarintRoundTrip(f.varint, rest);
    } else if f.wireType == 2 {
      var len := EncodeVarint(|f.bytes|);
      assert b == len + (f.bytes + rest);
      VarintRoundTrip(|f.bytes|, f.bytes + rest);
      assert b[|len|..|len| + |f.bytes|] == f.bytes;
    } else {
      assert b[..|f.bytes|] == f.bytes;
    }
  }

  lemma TagFits(f: Field)
    requires WellFormed(f)
    ensures 1 <= f.num < TWO_32 && f.wireType < 8 && 8 * f.num + f.wireType < TWO_64
    ensures EncodeField(f) == EncodeVarint(8 * f.num + f.wireType) + EncodePayload(f)
  {}

  lemma FieldRoundTrip(f: Field, rest: seq<byte>)
    requires WellFormed(f)
    ensures DecodeField(EncodeField(f) + rest) == Ok(Parsed(f, |EncodeField(f)|))
  {
    hide *;
    TagFits(f);
    var t := 8 * f.num + f.wireType;
    var tag, payload := EncodeVarint(t), EncodePayload(f);
    var b := EncodeField(f) + rest;
    assert b == tag + (payload + rest);
    VarintRoundTrip(t, payload + rest);
    assert b[|tag|..] == payload + rest;
    PayloadRoundTrip(f, rest);
    DecodeFieldSplit(b, f.num, f.wireType, |tag|);
  }

  /** How a tag and its payload make up a field. */
  lemma DecodeFieldSplit(b: seq<byte>, num: nat, wireType: nat, n: nat)
    requires 1 <= num < TWO_32 && wireType < 8 && n <= |b|
    requires DecodeVarint(b) == Ok(Varint(8 * num + wireType, n))
    requires DecodePayload(num, wireType, b[n..]).Ok?
    ensures var p := DecodePayload(num, wireType, b[n..]).value;
            DecodeField(b) == Ok(Parsed(p.field, n + p.length))
  {
    var t := 8 * num + wireType;
    assert t / 8 % TWO_32 == num && t % 8 == wireType;
    hide DecodePayload, DecodeVarint;
  }

  lemma EncodeFieldsCons(fs: seq<Field>)
    requires AllWellFormed(fs)
    ensures fs == [] ==> EncodeFields(fs) == []
    ensures fs != [] ==> AllWellFormed(fs[1..]) && EncodeFields(fs) == EncodeField(fs[0]) + EncodeFields(fs[1..])
    ensures fs != [] ==> WellFormed(fs[0]) && [fs[0]] + fs[1..] == fs
  {}

  lemma {:induction false} DecodeAllRoundTrip(fs: seq<Field>)
    requires AllWellFormed(fs)
    ensures DecodeAll(EncodeFields(fs)) == Ok(fs)
  {
    hide *;
    EncodeFieldsCons(fs);
    if fs == [] {
      DecodeAllNothing();
    } else {
      var head, rest := EncodeField(fs[0]), EncodeFields(fs[1..]);
      FieldRoundTrip(fs[0], rest);
      DecodeAllRoundTrip(fs[1..]);
      DecodeAllStep(head + rest, fs[0], |head|);
      assert (head + rest)[|head|..] == rest;
      PrependOk([fs[0]], fs[1..]);
    }
  }

  lemma PrependOk(a: seq<Field>, c: seq<Field>)
    ensures Prepend(a, Ok(c)) == Ok(a + c)
  {}

  lemma DecodeAllStep(b: seq<byte>, f: Field, n: nat)
    requires DecodeField(b) == Ok(Parsed(f, n))
    ensures 0 < n <= |b| && DecodeAll(b) == Prepend([f], DecodeAll(b[n..]))
    ensures DecodeAll(b).Ok? ==> DecodeAll(b[n..]).Ok? && DecodeAll(b).value == [f] + DecodeAll(b[n..]).value
  {}

  /** Decoding any encoded list of fields within the size limit returns the list. */
  lemma FieldsRoundTrip(fs: seq<Field>, depth: nat)
    requires AllWellFormed(fs) && |EncodeFields(fs)| <= MAX_WIRE_LENGTH && depth <= MAX_RECURSION_DEPTH
    ensures Decode(EncodeFields(fs), depth) == Ok(fs)
  {
    DecodeAllRoundTrip(fs);
  }

  lemma PayloadPrefixStable(num: nat, wireType: nat, p: seq<byte>, c: seq<byte>)
    requires DecodePayload(num, wireType, p).Ok?
    ensures DecodePayload(num, wireType, p + c) == DecodePayload(num, wireType, p)
  {
    hide DecodeVarint;
    if wireType == 0 {
      VarintPrefixStable(p, c);
    } else if wireType == 2 {
      VarintPrefixStable(p, c);
      var v := DecodeVarint(p).value;
      assert (p + c)[v.length..v.length + v.value] == p[v.length..v.length + v.value];
    } else {
      assert (p + c)[..DecodePayload(num, wireType, p).value.length] ==
        p[..DecodePayload(num, wireType, p).value.length];
    }
  }

  lemma FieldPrefixStable(a: seq<byte>, c: seq<byte>)
    requires DecodeField(a).Ok?
    ensures DecodeField(a + c) == DecodeField(a)
  {
    hide DecodePayload, DecodeVarint;
    VarintWithin(a);
    VarintPrefixStable(a, c);
    var tag := DecodeVarint(a).value;
    assert (a + c)[tag.length..] == a[tag.length..] + c;
    PayloadPrefixStable(tag.value / 8 % TWO_32, tag.value % 8, a[tag.length..], c);
  }

  lemma DecodeAllNothing()
    ensures DecodeAll([]) == Ok([])
  {}

  lemma DecodeAllHead(b: seq<byte>)
    requires b != [] && DecodeAll(b).Ok?
    ensures DecodeField(b).Ok?
  {}

  lemma {:induction false} DecodeAllConcat(a: seq<byte>, c: seq<byte>)
    requires DecodeAll(a).Ok?
    ensures DecodeAll(a + c) == Prepend(DecodeAll(a).value, DecodeAll(c))
    decreases |a|
  {
    hide *;
    if a == [] {
      assert a + c == c;
      DecodeAllNothing();
      PrependNothing(DecodeAll(c));
    } else {
      DecodeAllHead(a);
      FieldPrefixStable(a, c);
      var p := DecodeField(a).value;
      DecodeAllStep(a, p.field, p.length);
      DecodeAllStep(a + c, p.field, p.length);
      assert (a + c)[p.length..] == a[p.length..] + c;
      DecodeAllConcat(a[p.length..], c);
      PrependAssociative([p.field], DecodeAll(a[p.length..]).value, DecodeAll(c));
    }
  }

  /** Once `a` decodes, `a + c` decodes to a's fields followed by whatever `c`
      decodes to, errors included. */
  lemma Concatenation(a: seq<byte>, c: seq<byte>, depth: nat)
    requires Decode(a, depth).Ok? && |a + c| <= MAX_WIRE_LENGTH
    ensures Decode(a + c, depth) == Prepend(Decode(a, depth).value, Decode(c, depth))
  {
    DecodeAllConcat(a, c);
  }

  lemma PayloadCanonical(num: nat, wireType: nat, b: seq<byte>)
    requires DecodePayload(num, wireType, b).Ok? && 1 <= num < TWO_32
    ensures var p := DecodePayload(num, wireType, b).value;
            WellFormed(p.field) && p.field.num == num && p.field.wireType == wireType
              && |EncodePayload(p.field)| <= p.length
  {
    hide Continuations, Base128, EncodeVarint;
    if wireType == 0 || wireType == 2 {
      VarintWithin(b);
      VarintCanonicalShorter(b, DecodeVarint(b).value.value);
    }
  }

  lemma FieldCanonical(b: seq<byte>)
    requires DecodeField(b).Ok?
    ensures var p := DecodeField(b).value;
            WellFormed(p.field) && |EncodeField(p.field)| <= p.length
  {
    hide Continuations, Base128, EncodeVarint, DecodePayload, EncodePayload, WellFormed;
    var tag := DecodeVarint(b).value;
    var num, wireType := tag.value / 8 % TWO_32, tag.value % 8;
    PayloadCanonical(num, wireType, b[tag.length..]);
    VarintCanonicalShorter(b, 8 * num + wireType);
  }

  lemma {:induction false} DecodeAllCanonical(b: seq<byte>)
    requires DecodeAll(b).Ok?
    ensures AllWellFormed(DecodeAll(b).value) && |EncodeFields(DecodeAll(b).value)| <= |b|
    decreases |b|
  {
    if b != [] {
      FieldCanonical(b);
      DecodeAllCanonical(b[DecodeField(b).value.length..]);
      assert DecodeAll(b).value[1..] == DecodeAll(b[DecodeField(b).value.length..]).value;
    }
  }

  /** Whatever decodes can be re-encoded in no more bytes and decodes to the same
      fields again. */
  lemma Canonicalization(b: seq<byte>, depth: nat)
    requires Decode(b, depth).Ok?
    ensures var fs := Decode(b, depth).value;
            AllWellFormed(fs) && |EncodeFields(fs)| <= |b| && Decode(EncodeFields(fs), depth) == Ok(fs)
  {
    DecodeAllCanonical(b);
    DecodeAllRoundTrip(DecodeAll(b).value);
  }

  // ---------- ModelUsage ----------

  function Text(b: seq<byte>): string { seq(|b|, i requires 0 <= i < |b| => b[i] as char) }

  /** rawUsage: the counters and identities of one ModelUsage message. */
  datatype Usage = Usage(
    modelID: u64,
    inputTokens: u64,
    totalOutputTokens: u64,
    cacheCreationTokens: u64,
    cacheReadTokens: u64,
    providerID: u64,
    messageID: string,
    reasoningTokens: u64,
    visibleOutputTokens: u64,
    responseID: string,
    providerAssignedMessageID: string)

  /** The last varint sent for a field number, zero when there is none. */
  function LastVarint(fs: seq<Field>, num: nat): u64 {
    if fs == [] then 0 else
      var f := fs[|fs| - 1];
      if f.num == num && f.wireType == 0 then f.varint else LastVarint(fs[..|fs| - 1], num)
  }

  /** The last string sent for a field number, empty when there is none. */
  function LastText(fs: seq<Field>, num: nat): string {
    if fs == [] then "" else
      var f := fs[|fs| - 1];
      if f.num == num && f.wireType == 2 then Text(f.bytes) else LastText(fs[..|fs| - 1], num)
  }

  /** A message means, field by field, the last value sent for it. */
  function UsageOf(fs: seq<Field>): Usage {
    Usage(LastVarint(fs, 1), LastVarint(fs, 2), LastVarint(fs, 3), LastVarint(fs, 4), LastVarint(fs, 5),
          LastVarint(fs, 6), LastText(fs, 7), LastVarint(fs, 9), LastVarint(fs, 10), LastText(fs, 11), LastText(fs, 12))
  }

  function ParseUsage(b: seq<byte>, depth: nat): Result<Usage, WireError> {
    var fs := Decode(b, depth + 1);
    if fs.Err? then Err(fs.error) else Ok(UsageOf(fs.value))
  }

  /** parseModelUsage: the assignment loop keeps the last value of every field. */
  method ParseModelUsage(b: seq<byte>, depth: nat) returns (r: Result<Usage, WireError>)
    ensures r == ParseUsage(b, depth)
  {
    hide Decode;
    var decoded := DecodeFields(b, depth + 1);
    if decoded.Err? { return Err(decoded.error); }
    var fields := decoded.value;
    var u := Usage(0, 0, 0, 0, 0, 0, "", 0, 0, "", "");
    for i := 0 to |fields|
      invariant u == UsageOf(fields[..i])
    {
      var f := fields[i];
      assert fields[..i + 1] == fields[..i] + [f] && fields[..i + 1][..i] == fields[..i];
      match f.num {
        case 1 => if f.wireType == 0 { u := u.(modelID := f.varint); }
        case 2 => if f.wireType == 0 { u := u.(inputTokens := f.varint); }
        case 3 => if f.wireType == 0 { u := u.(totalOutputTokens := f.varint); }
        case 4 => if f.wireType == 0 { u := u.(cacheCreationTokens := f.varint); }
        case 5 => if f.wireType == 0 { u := u.(cacheReadTokens := f.varint); }
        case 6 => if f.wireType == 0 { u := u.(providerID := f.varint); }
        case 7 => if f.wireType == 2 { u := u.(messageID := Text(f.bytes)); }
        case 9 => if f.wireType == 0 { u := u.(reasoningTokens := f.varint); }
        case 10 => if f.wireType == 0 { u := u.(visibleOutputTokens := f.varint); }
        case 11 => if f.wireType == 2 { u := u.(responseID := Text(f.bytes)); }
        case 12 => if f.wireType == 2 { u := u.(providerAssignedMessageID := Text(f.bytes)); }
        case _ =>
      }
    }
    assert fields[..|fields|] == fields;
    r := Ok(u);
  }

  predicate IsText(s: string) { |s| < TWO_64 && forall i :: 0 <= i < |s| ==> s[i] as int < 256 }

  predicate Encodable(u: Usage) {
    && IsText(u.messageID) && IsText(u.responseID) && IsText(u.providerAssignedMessageID)
  }

  function VarintField(num: nat, v: u64): Field { Field(num, 0, v, []) }

  function TextField(num: nat, s: string): Field
    requires IsText(s)
  {
    Field(num, 2, 0, seq(|s|, i requires 0 <= i < |s| => s[i] as int))
  }

  function UsageFields(u: Usage): (fs: seq<Field>)
    requires Encodable(u)
    ensures AllWellFormed(fs) && Ascending(fs)
  {
    [VarintField(1, u.modelID), VarintField(2, u.inputTokens), VarintField(3, u.totalOutputTokens),
     VarintField(4, u.cacheCreationTokens), VarintField(5, u.cacheReadTokens), VarintField(6, u.providerID),
     TextField(7, u.messageID), VarintField(9, u.reasoningTokens), VarintField(10, u.visibleOutputTokens),
     TextField(11, u.responseID), TextField(12, u.providerAssignedMessageID)]
  }

  predicate Ascending(fs: seq<Field>) {
    forall i, j :: 0 <= i < j < |fs| ==> fs[i].num < fs[j].num
  }

  lemma {:induction false} LastOfAscending(fs: seq<Field>, k: nat)
    requires Ascending(fs) && k < |fs|
    ensures fs[k].wireType == 0 ==> LastVarint(fs, fs[k].num) == fs[k].varint
    ensures fs[k].wireType == 2 ==> LastText(fs, fs[k].num) == Text(fs[k].bytes)
  {
    if k < |fs| - 1 { LastOfAscending(fs[..|fs| - 1], k); }
  }

  lemma TextRoundTrip(num: nat, s: string)
    requires IsText(s)
    ensures Text(TextField(num, s).bytes) == s
  {}

  lemma UsageOfFields(u: Usage)
    requires Encodable(u)
    ensures UsageOf(UsageFields(u)) == u
  {
    hide LastVarint, LastText, Ascending, AllWellFormed, Text;
    var fs := UsageFields(u);
    LastOfAscending(fs, 0); LastOfAscending(fs, 1); LastOfAscending(fs, 2); LastOfAscending(fs, 3);
    LastOfAscending(fs, 4); LastOfAscending(fs, 5); LastOfAscending(fs, 6); LastOfAscending(fs, 7);
    LastOfAscending(fs, 8); LastOfAscending(fs, 9); LastOfAscending(fs, 10);
    TextRoundTrip(7, u.messageID);
    TextRoundTrip(11, u.responseID);
    TextRoundTrip(12, u.providerAssignedMessageID);
  }

  /** A usage message sent field by field is read back unchanged. */
  lemma UsageRoundTrip(u: Usage, depth: nat)
    requires Encodable(u) && depth < MAX_RECURSION_DEPTH
    requires |EncodeFields(UsageFields(u))| <= MAX_WIRE_LENGTH
    ensures ParseUsage(EncodeFields(UsageFields(u)), depth) == Ok(u)
  {
    hide Decode, UsageFields, EncodeFields, UsageOf;
    FieldsRoundTrip(UsageFields(u), depth + 1);
    UsageOfFields(u);
  }
}
