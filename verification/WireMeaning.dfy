/** What the bytes of a usage blob mean, bit by bit and field number by field number. */
module WireMeaning {
  import opened Common
  import opened Wire

  // ---------- Varints ----------

  /** The first byte without a continuation bit. */
  ghost predicate EndsAt(b: seq<byte>, k: int) {
    0 <= k < |b| && b[k] < 128 && forall j :: 0 <= j < k ==> b[j] >= 128
  }

  lemma {:induction false} LowerBits(d: nat, rest: nat, n: nat, i: nat)
    requires d < Pow2(n)
    ensures i < n ==> Bit(d + Pow2(n) * rest, i) == Bit(d, i)
    ensures i >= n ==> Bit(d + Pow2(n) * rest, i) == Bit(rest, i - n)
    decreases n
  {
    if n > 0 {
      var half := Pow2(n - 1) * rest;
      assert Pow2(n) * rest == 2 * half;
      assert (d + 2 * half) / 2 == d / 2 + half && (d + 2 * half) % 2 == d % 2;
      if i > 0 { LowerBits(d / 2, rest, n - 1, i - 1); }
    }
  }

  lemma Pow2OfSeven()
    ensures Pow2(7) == 128
  {
    assert Pow2(4) == 16 && Pow2(5) == 32 && Pow2(6) == 64;
  }

  /** Bit j of byte i of a varint has the weight 2^(7i + j). */
  lemma {:induction false} Base128Bits(s: seq<byte>, i: nat, j: nat)
    requires i < |s| && j < 7
    ensures Bit(Base128(s), 7 * i + j) == Bit(s[i] % 128, j)
  {
    Pow2OfSeven();
    LowerBits(s[0] % 128, Base128(s[1..]), 7, 7 * i + j);
    if i > 0 { Base128Bits(s[1..], i - 1, j); }
  }

  lemma {:induction false} Base128HighBits(s: seq<byte>, n: nat)
    requires n >= 7 * |s|
    ensures Bit(Base128(s), n) == 0
  {
    if s == [] {
      ZeroBits(n);
    } else {
      Pow2OfSeven();
      LowerBits(s[0] % 128, Base128(s[1..]), 7, n);
      Base128HighBits(s[1..], n - 7);
    }
  }

  lemma {:induction false} ZeroBits(n: nat)
    ensures Bit(0, n) == 0
  {
    if n > 0 { ZeroBits(n - 1); }
  }

  lemma ModuloBits(v: nat, i: nat)
    requires i < 64
    ensures Bit(v % TWO_64, i) == Bit(v, i)
  {
    Pow2Value();
    assert Pow2(64) == 2 * Pow2(63);
    LowerBits(v % TWO_64, v / TWO_64, 64, i);
    assert v == v % TWO_64 + TWO_64 * (v / TWO_64);
  }

  /** A varint is read exactly when it ends within ten bytes. Its value has the seven low bits of
      every byte, the first byte lowest, and drops whatever lies above 64 bits. */
  lemma VarintMeaning(b: seq<byte>, k: int)
    ensures EndsAt(b, k) && k < 10 ==> DecodeVarint(b).Ok? && DecodeVarint(b).value.length == k + 1
    ensures EndsAt(b, k) && k < 10 ==>
              forall i: nat, j: nat ::
                i <= k && j < 7 && 7 * i + j < 64 ==> Bit(DecodeVarint(b).value.value, 7 * i + j) == Bit(b[i] % 128, j)
    ensures EndsAt(b, k) && k < 10 ==>
              forall n: nat :: 7 * (k + 1) <= n < 64 ==> Bit(DecodeVarint(b).value.value, n) == 0
    ensures DecodeVarint(b) == Err(Truncated) <==> |b| <= 10 && forall j :: 0 <= j < |b| ==> b[j] >= 128
    ensures DecodeVarint(b) == Err(VarintOverflow) <==> |b| > 10 && forall j :: 0 <= j < 10 ==> b[j] >= 128
  {
    hide Base128;
    if EndsAt(b, k) && k < 10 {
      ContinuationsAre(b, k);
      var s := b[..k + 1];
      forall i: nat, j: nat | i <= k && j < 7 && 7 * i + j < 64
        ensures Bit(DecodeVarint(b).value.value, 7 * i + j) == Bit(b[i] % 128, j)
      {
        ModuloBits(Base128(s), 7 * i + j);
        Base128Bits(s, i, j);
      }
      forall n: nat | 7 * (k + 1) <= n < 64
        ensures Bit(DecodeVarint(b).value.value, n) == 0
      {
        ModuloBits(Base128(s), n);
        Base128HighBits(s, n);
      }
    }
  }

  // ---------- Cut fields ----------

  lemma CutVarint(v: u64, p: seq<byte>)
    requires p <= EncodeVarint(v) && |p| < |EncodeVarint(v)|
    ensures DecodeVarint(p) == Err(Truncated)
  {
    EncodeVarintShape(v);
    Pow2Value();
    Pow2Seven(9);
    EncodeVarintLength(v, 10);
    hide EncodeVarint, Pow2, Base128;
    assert forall j :: 0 <= j < |p| ==> p[j] == EncodeVarint(v)[j];
    VarintMeaning(p, 0);
  }

  lemma CutPayload(f: Field, p: seq<byte>)
    requires WellFormed(f) && p <= EncodePayload(f) && |p| < |EncodePayload(f)|
    ensures DecodePayload(f.num, f.wireType, p) == Err(Truncated)
  {
    hide EncodeVarint, DecodeVarint;
    if f.wireType == 0 {
      CutVarint(f.varint, p);
    } else if f.wireType == 2 {
      var len := EncodeVarint(|f.bytes|);
      PrefixOfTwo(p, len, f.bytes);
      if |p| < |len| {
        CutVarint(|f.bytes|, p);
      } else {
        VarintRoundTrip(|f.bytes|, p[|len|..]);
      }
    }
  }

  lemma CutAfterTag(p: seq<byte>, num: nat, wireType: nat, n: nat)
    requires 1 <= num < TWO_32 && wireType < 8 && n <= |p|
    requires DecodeVarint(p) == Ok(Varint(8 * num + wireType, n))
    requires DecodePayload(num, wireType, p[n..]) == Err(Truncated)
    ensures DecodeField(p) == Err(Truncated)
  {
    var t := 8 * num + wireType;
    assert t / 8 % TWO_32 == num && t % 8 == wireType;
    hide DecodePayload, DecodeVarint;
  }

  lemma PrefixOfTwo(p: seq<byte>, a: seq<byte>, b: seq<byte>)
    requires p <= a + b
    ensures if |p| < |a| then p <= a else p == a + p[|a|..] && p[|a|..] <= b
  {
    if |p| < |a| {
      assert p == (a + b)[..|p|] == a[..|p|];
    } else {
      assert p[..|a|] == (a + b)[..|a|] == a;
      assert p[|a|..] == (a + b)[|a|..|p|] == b[..|p| - |a|];
    }
  }

  /** A field that is cut anywhere inside is reported as truncated. */
  lemma CutFieldIsTruncated(f: Field, p: seq<byte>)
    requires WellFormed(f) && p != [] && p <= EncodeField(f) && |p| < |EncodeField(f)|
    ensures DecodeField(p) == Err(Truncated)
  {
    TagFits(f);
    var t := 8 * f.num + f.wireType;
    var tag, payload := EncodeVarint(t), EncodePayload(f);
    hide EncodeVarint, DecodeVarint, EncodePayload, DecodePayload, EncodeField, WellFormed;
    PrefixOfTwo(p, tag, payload);
    if |p| < |tag| {
      CutVarint(t, p);
    } else {
      VarintRoundTrip(t, p[|tag|..]);
      CutPayload(f, p[|tag|..]);
      CutAfterTag(p, f.num, f.wireType, |tag|);
    }
  }

  /** ... and so is a message that ends inside a field. */
  lemma CutMessageIsTruncated(fs: seq<Field>, f: Field, p: seq<byte>, depth: nat)
    requires AllWellFormed(fs) && WellFormed(f) && depth <= 10
    requires p != [] && p <= EncodeField(f) && |p| < |EncodeField(f)| && |EncodeFields(fs) + p| <= 104857600
    ensures Decode(EncodeFields(fs) + p, depth) == Err(Truncated)
  {
    FieldsRoundTrip(fs, depth);
    Concatenation(EncodeFields(fs), p, depth);
    CutFieldIsTruncated(f, p);
    hide EncodeField, EncodeFields, DecodeField;
  }

  // ---------- Field numbers ----------

  /** The value last sent under a number and a wire type. */
  ghost predicate LastSent(fs: seq<Field>, num: nat, wireType: nat, k: int) {
    && 0 <= k < |fs| && fs[k].num == num && fs[k].wireType == wireType
    && forall j :: k < j < |fs| ==> !(fs[j].num == num && fs[j].wireType == wireType)
  }

  ghost predicate NeverSent(fs: seq<Field>, num: nat, wireType: nat) {
    forall k :: 0 <= k < |fs| ==> !(fs[k].num == num && fs[k].wireType == wireType)
  }

  ghost predicate IsCounter(fs: seq<Field>, num: nat, v: u64) {
    (NeverSent(fs, num, 0) ==> v == 0) && forall k :: LastSent(fs, num, 0, k) ==> v == fs[k].varint
  }

  ghost predicate IsName(fs: seq<Field>, num: nat, s: string) {
    && (NeverSent(fs, num, 2) ==> s == "")
    && (forall k :: LastSent(fs, num, 2, k) ==> IsTextOf(s, fs[k].bytes))
  }

  /** One character for every byte. */
  ghost predicate IsTextOf(s: string, b: seq<byte>) {
    |s| == |b| && forall i :: 0 <= i < |s| ==> s[i] as int == b[i]
  }

  lemma {:induction false} CounterIsLast(fs: seq<Field>, num: nat)
    ensures IsCounter(fs, num, LastVarint(fs, num))
  {
    if fs != [] {
      var n := |fs| - 1;
      CounterIsLast(fs[..n], num);
      CounterStep(fs, num);
      hide LastVarint, LastSent, NeverSent;
      if fs[n].num == num && fs[n].wireType == 0 { SentNow(fs, num, 0); } else { SentBefore(fs, num, 0); }
    }
  }

  lemma {:induction false} NameIsLast(fs: seq<Field>, num: nat)
    ensures IsName(fs, num, LastText(fs, num))
  {
    if fs != [] {
      var n := |fs| - 1;
      NameIsLast(fs[..n], num);
      TextStep(fs, num);
      hide IsTextOf, Text, LastText, LastSent, NeverSent;
      if fs[n].num == num && fs[n].wireType == 2 { SentNow(fs, num, 2); } else { SentBefore(fs, num, 2); }
    }
  }

  lemma CounterStep(fs: seq<Field>, num: nat)
    requires fs != []
    ensures var f := fs[|fs| - 1];
            LastVarint(fs, num) ==
              if f.num == num && f.wireType == 0 then f.varint else LastVarint(fs[..|fs| - 1], num)
  {}

  lemma TextStep(fs: seq<Field>, num: nat)
    requires fs != []
    ensures var f := fs[|fs| - 1];
            if f.num == num && f.wireType == 2 then IsTextOf(LastText(fs, num), f.bytes)
            else LastText(fs, num) == LastText(fs[..|fs| - 1], num)
  {}

  lemma SentNow(fs: seq<Field>, num: nat, wireType: nat)
    requires fs != [] && fs[|fs| - 1].num == num && fs[|fs| - 1].wireType == wireType
    ensures !NeverSent(fs, num, wireType) && forall k :: LastSent(fs, num, wireType, k) ==> k == |fs| - 1
  {}

  lemma SentBefore(fs: seq<Field>, num: nat, wireType: nat)
    requires fs != [] && !(fs[|fs| - 1].num == num && fs[|fs| - 1].wireType == wireType)
    ensures NeverSent(fs, num, wireType) ==> NeverSent(fs[..|fs| - 1], num, wireType)
    ensures forall k :: LastSent(fs, num, wireType, k) ==>
              0 <= k < |fs| - 1 && LastSent(fs[..|fs| - 1], num, wireType, k)
  {}

  /** Which numbers the counters and the identities of a usage travel under. */
  lemma UsageNumbers(b: seq<byte>, depth: nat)
    requires ParseUsage(b, depth).Ok?
    ensures Decode(b, depth + 1).Ok?
    ensures var fs, u := Decode(b, depth + 1).value, ParseUsage(b, depth).value;
            && IsCounter(fs, 1, u.modelID) && IsCounter(fs, 2, u.inputTokens) && IsCounter(fs, 3, u.totalOutputTokens)
            && IsCounter(fs, 4, u.cacheCreationTokens) && IsCounter(fs, 5, u.cacheReadTokens)
            && IsCounter(fs, 6, u.providerID) && IsName(fs, 7, u.messageID) && IsCounter(fs, 9, u.reasoningTokens)
            && IsCounter(fs, 10, u.visibleOutputTokens) && IsName(fs, 11, u.responseID)
            && IsName(fs, 12, u.providerAssignedMessageID)
  {
    var fs := Decode(b, depth + 1).value;
    forall num { CounterIsLast(fs, num); }
    forall num { NameIsLast(fs, num); }
    hide Decode, LastVarint, LastText, IsCounter, IsName;
  }

  /** How a decoded field lies in the bytes: number and wire type in the tag, then a varint, eight
      bytes, a length and as many bytes, or four bytes. */
  ghost predicate LiesIn(f: Field, n: nat, b: seq<byte>, tag: Varint) {
    && tag.length <= n <= |b|
    && f.num == tag.value / 8 % 4294967296 && f.num != 0 && f.wireType == tag.value % 8
    && var rest := b[tag.length..n];
       match f.wireType
       case 0 => DecodeVarint(b[tag.length..]) == Ok(Varint(f.varint, |rest|)) && f.bytes == []
       case 1 => f.bytes == rest && |rest| == 8
       case 2 => exists k: nat :: k <= |rest| && f.bytes == rest[k..] && |f.bytes| < TWO_64
                                  && DecodeVarint(b[tag.length..]) == Ok(Varint(|f.bytes|, k))
       case 5 => f.bytes == rest && |rest| == 4
       case _ => false
  }

  lemma FieldsLie(b: seq<byte>)
    requires DecodeField(b).Ok?
    ensures DecodeVarint(b).Ok?
    ensures LiesIn(DecodeField(b).value.field, DecodeField(b).value.length, b, DecodeVarint(b).value)
  {
    VarintWithin(b);
    var tag := DecodeVarint(b).value;
    var p, rest := DecodeField(b).value, b[tag.length..];
    if rest != [] && DecodeVarint(rest).Ok? { VarintWithin(rest); }
    hide Continuations, Base128;
    assert b[tag.length..p.length] == rest[..p.length - tag.length];
    if tag.value % 8 == 2 {
      var k := DecodeVarint(rest).value.length;
      assert rest[..p.length - tag.length][k..] == p.field.bytes;
    }
  }

  /** The limits: ten levels, 100 MiB, and no other error than these from a blob within them. */
  lemma LimitsExactly(b: seq<byte>, depth: nat)
    ensures Decode(b, depth) == Err(RecursionLimit) <==> depth > 10
    ensures Decode(b, depth) == Err(BlobTooLarge) <==> depth <= 10 && |b| > 104857600
  {
    NoLimitInside(b);
    hide DecodeAll;
  }

  lemma {:induction false} NoLimitInside(b: seq<byte>)
    ensures DecodeAll(b) != Err(RecursionLimit) && DecodeAll(b) != Err(BlobTooLarge)
    decreases |b|
  {
    hide Continuations, Base128;
    if b != [] && DecodeField(b).Ok? {
      NoLimitInside(b[DecodeField(b).value.length..]);
    }
  }
}
