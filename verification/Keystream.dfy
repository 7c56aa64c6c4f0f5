/** Every byte of a bundle and of what it opens to, with the primitives' inputs written out. */
module Keystream {
  import opened Common
  import opened Backup

  // ---------- Exclusive or, bit by bit ----------

  ghost predicate IsXor(r: byte, a: byte, b: byte) {
    forall i: nat :: i < 8 ==> (Bit(r, i) == 1 <==> Bit(a, i) != Bit(b, i))
  }

  lemma {:induction false} XorBit(a: nat, b: nat, n: nat, i: nat)
    requires i < n
    ensures Bit(XorBits(a, b, n), i) == (Bit(a, i) + Bit(b, i)) % 2
  {
    var rest := XorBits(a / 2, b / 2, n - 1);
    assert XorBits(a, b, n) == 2 * rest + (a + b) % 2;
    Doubled(rest, a, b);
    if i > 0 { XorBit(a / 2, b / 2, n - 1, i - 1); }
  }

  lemma Doubled(q: nat, a: nat, b: nat)
    ensures (2 * q + (a + b) % 2) / 2 == q && (2 * q + (a + b) % 2) % 2 == (a % 2 + b % 2) % 2
  {}

  lemma XorIsBitwise(a: byte, b: byte)
    ensures IsXor(Xor(a, b), a, b)
  {
    hide XorBits;
    forall i: nat | i < 8
      ensures Bit(Xor(a, b), i) == 1 <==> Bit(a, i) != Bit(b, i)
    {
      XorBit(a, b, 8, i);
      BitIsBinary(a, i);
      BitIsBinary(b, i);
    }
  }

  // ---------- Counter blocks ----------

  /** One more base-256 digit. */
  function Then(v: nat, b: byte): nat { v * 256 + b }

  /** Eight bytes read as a number, the most significant first. */
  function Number(s: Bytes): nat
    requires |s| == 8
  {
    Then(Then(Then(Then(Then(Then(Then(s[0], s[1]), s[2]), s[3]), s[4]), s[5]), s[6]), s[7])
  }

  /** The 24 bytes that key block `n`: sixteen bytes of the nonce, zeros where it is
      shorter, and the number with its most significant byte first. */
  ghost predicate IsCounterBlock(m: Bytes, nonce: Bytes, n: nat) {
    && |m| == 24
    && (forall k :: 0 <= k < 16 ==> m[k] == if k < |nonce| then nonce[k] else 0)
    && n == Number(m[16..])
  }

  lemma CounterBlockMeaning(nonce: Bytes, n: u64)
    ensures IsCounterBlock(CounterBlock(nonce, n), nonce, n)
  {
    var m := CounterBlock(nonce, n);
    assert m[16..] == BigEndian(n);
    hide BigEndianBytes;
    Power256Of8();
    BigEndianRoundTrip(n, 8);
    FromEight(BigEndian(n));
    assert forall k :: 16 <= k < 24 ==> m[k] == BigEndian(n)[k - 16];
  }

  lemma FromStep(s: Bytes, b: byte)
    ensures FromBigEndian(s + [b]) == FromBigEndian(s) * 256 + b
  {
    assert (s + [b])[..|s|] == s;
  }

  lemma FromEight(s: Bytes)
    requires |s| == 8
    ensures FromBigEndian(s) == Number(s)
  {
    assert FromBigEndian([]) == 0 && s[..0] == [] && s[..8] == s;
    hide FromBigEndian;
    forall i | 0 <= i < 8
      ensures FromBigEndian(s[..i + 1]) == Then(FromBigEndian(s[..i]), s[i])
    {
      assert s[..i + 1] == s[..i] + [s[i]];
      FromStep(s[..i], s[i]);
    }
    assert FromBigEndian(s[..8]) == Number(s);
  }

  /** Distinct blocks have distinct counter blocks, and each block has only one. */
  lemma CounterBlockIsOne(nonce: Bytes, m: Bytes, n: Bytes, i: nat, j: nat)
    requires IsCounterBlock(m, nonce, i) && IsCounterBlock(n, nonce, j)
    ensures m == n <==> i == j
  {
    if i == j {
      DigitsAgree(m[16..], n[16..]);
      assert forall k :: 0 <= k < 24 ==> m[k] == if k < 16 then m[k] else m[16..][k - 16];
      assert forall k :: 0 <= k < 24 ==> n[k] == if k < 16 then n[k] else n[16..][k - 16];
    }
  }

  lemma ThenIsInjective(v: nat, b: byte, w: nat, c: byte)
    ensures Then(v, b) == Then(w, c) <==> v == w && b == c
  {}

  lemma DigitsAgree(s: Bytes, t: Bytes)
    requires |s| == |t| == 8 && Number(s) == Number(t)
    ensures s == t
  {
    forall v, b, w, c { ThenIsInjective(v, b, w, c); }
    hide Then;
  }

  // ---------- Main results ----------

  /** `output` is `input` combined byte by byte with the keystream: byte j of a message is combined
      with byte j modulo 32 of the HMAC of the counter block of block j / 32. */
  ghost predicate IsStreamed(p: Primitives, key: Bytes, nonce: Bytes, input: Bytes, output: Bytes) {
    && |output| == |input|
    && forall j, m :: (0 <= j < |input| && IsCounterBlock(m, nonce, j / 32) ==>
          |p.hmac(key, m)| == 32 && IsXor(output[j], input[j], p.hmac(key, m)[j % 32]))
  }

  lemma ApplyIsStreamed(p: Primitives, key: Bytes, nonce: Bytes, input: Bytes)
    requires Sound(p)
    ensures IsStreamed(p, key, nonce, input, Apply(p, key, nonce, input))
  {
    hide IsXor, Xor, CounterBlock;
    forall j, m | 0 <= j < |input| && IsCounterBlock(m, nonce, j / 32)
      ensures |p.hmac(key, m)| == 32 && IsXor(Apply(p, key, nonce, input)[j], input[j], p.hmac(key, m)[j % 32])
    {
      CounterFits(m, nonce, j / 32);
      CounterBlockMeaning(nonce, j / 32);
      CounterBlockIsOne(nonce, m, CounterBlock(nonce, j / 32), j / 32, j / 32);
      XorIsBitwise(input[j], p.hmac(key, m)[j % 32]);
    }
  }

  lemma CounterFits(m: Bytes, nonce: Bytes, n: nat)
    requires IsCounterBlock(m, nonce, n)
    ensures n < TWO_64
  {}

  /** Every block of a message shorter than 2^69 bytes has its counter block, and no two share one. */
  lemma BlocksAreKeyedApart(nonce: Bytes, i: nat, j: nat) returns (m: Bytes, n: Bytes)
    requires i / 32 < TWO_64 && j / 32 < TWO_64
    ensures IsCounterBlock(m, nonce, i / 32) && IsCounterBlock(n, nonce, j / 32)
    ensures m == n <==> i / 32 == j / 32
  {
    m, n := CounterBlock(nonce, i / 32), CounterBlock(nonce, j / 32);
    CounterBlockMeaning(nonce, i / 32);
    CounterBlockMeaning(nonce, j / 32);
    CounterBlockIsOne(nonce, m, n, i / 32, j / 32);
  }

  /** What EncryptBundle writes. */
  lemma SealedParts(p: Primitives, plaintext: Bytes, password: Bytes, salt: Bytes, nonce: Bytes) returns (c: Bytes)
    requires Sound(p)
    ensures var b, dk := Seal(p, plaintext, password, salt, nonce), p.kdf(password, salt, 100000);
            && |dk| == 64 && IsStreamed(p, dk[..32], nonce, plaintext, c)
            && b.format == "agy-pool-encrypted-v1" && b.kdf == "pbkdf2_hmac_sha256" && b.iterations == 100000
            && p.decode(b.salt) == Some(salt) && p.decode(b.nonce) == Some(nonce) && p.decode(b.ciphertext) == Some(c)
            && p.decode(b.tag) == Some(p.hmac(dk[32..], salt + nonce + c))
  {
    c := Apply(p, EncKey(p, password, salt, ITERATIONS), nonce, plaintext);
    ApplyIsStreamed(p, EncKey(p, password, salt, ITERATIONS), nonce, plaintext);
    hide IsStreamed, Apply;
  }

  /** A bundle with these parts, made under the strength `n`. */
  ghost predicate HasParts(p: Primitives, b: Bundle, n: int, salt: Bytes, nonce: Bytes, c: Bytes, tag: Bytes) {
    && b.format == "agy-pool-encrypted-v1" && n == (if b.iterations > 0 then b.iterations else 100000)
    && p.decode(b.salt) == Some(salt) && p.decode(b.nonce) == Some(nonce)
    && p.decode(b.ciphertext) == Some(c) && p.decode(b.tag) == Some(tag)
  }

  /** What DecryptBundle makes of a bundle: it opens exactly when its strength is at most a
      million and its tag is the one of its parts, and then to the streamed ciphertext. */
  method OpenParts(p: Primitives, b: Bundle, password: Bytes, n: int, salt: Bytes, nonce: Bytes, c: Bytes, tag: Bytes)
    returns (r: Result<Bytes, DecryptError>)
    requires Sound(p) && HasParts(p, b, n, salt, nonce, c, tag)
    ensures r.Ok? <==> n <= 1000000 && tag == p.hmac(p.kdf(password, salt, n)[32..], salt + nonce + c)
    ensures r.Ok? ==> IsStreamed(p, p.kdf(password, salt, n)[..32], nonce, c, r.value)
    ensures n > 1000000 <==> r == Err(TooManyIterations)
  {
    r := DecryptBundle(p, Some(b), password);
    ApplyIsStreamed(p, EncKey(p, password, salt, n), nonce, c);
    hide IsStreamed, Apply;
  }
}
