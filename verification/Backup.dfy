/** The encrypted backup bundle: a counter-mode keystream applied block by block and
    an authentication tag. The primitives are parameters. */
module Backup {
  import opened Common

  type Bytes = seq<byte>

  /** HMAC-SHA256, PBKDF2 (RFC 8018, section 5.2) and base64 (RFC 4648, section 4). */
  datatype Primitives = Primitives(
    hmac: (Bytes, Bytes) -> Bytes,
    kdf: (Bytes, Bytes, int) -> Bytes,
    encode: Bytes -> string,
    decode: string -> Option<Bytes>)

  const BLOCK_SIZE := 32
  const ITERATIONS := 100000
  const MAX_ITERATIONS := 1000000
  const FORMAT := "agy-pool-encrypted-v1"
  const KDF_NAME := "pbkdf2_hmac_sha256"

  /** All that is assumed of the primitives: output lengths, and that base64 decodes
      what it encodes. */
  ghost predicate Sound(p: Primitives) {
    && (forall k, m :: |p.hmac(k, m)| == BLOCK_SIZE)
    && (forall w, s, n :: |p.kdf(w, s, n)| == 64)
    && (forall x :: p.decode(p.encode(x)) == Some(x))
  }

  // ---------- The keystream ----------

  /** The low `n` bits of the exclusive or. */
  function XorBits(a: nat, b: nat, n: nat): nat {
    if n == 0 then 0 else 2 * XorBits(a / 2, b / 2, n - 1) + (a + b) % 2
  }

  lemma {:induction false} XorBitsBound(a: nat, b: nat, n: nat)
    requires n <= 8
    ensures XorBits(a, b, n) < [1, 2, 4, 8, 16, 32, 64, 128, 256][n]
  {
    if n > 0 { XorBitsBound(a / 2, b / 2, n - 1); }
  }

  /** Go's `^` on bytes. */
  function Xor(a: byte, b: byte): byte {
    XorBitsBound(a, b, 8);
    XorBits(a, b, 8)
  }

  /** `n` bytes, most significant first. */
  function BigEndianBytes(v: nat, n: nat): (s: Bytes)
    ensures |s| == n
  {
    if n == 0 then [] else BigEndianBytes(v / 256, n - 1) + [v % 256]
  }

  function BigEndian(v: nat): Bytes { BigEndianBytes(v, 8) }

  /** The nonce cut or zero-padded to 16 bytes, then the block number. */
  function CounterBlock(nonce: Bytes, i: nat): Bytes {
    seq(16, k requires 0 <= k < 16 => if k < |nonce| then nonce[k] else 0) + BigEndian(i)
  }

  function KeystreamByte(p: Primitives, key: Bytes, nonce: Bytes, j: nat): byte
    requires Sound(p)
  {
    p.hmac(key, CounterBlock(nonce, j / BLOCK_SIZE))[j % BLOCK_SIZE]
  }

  /** Every byte combined with its own keystream byte. */
  function Apply(p: Primitives, key: Bytes, nonce: Bytes, input: Bytes): (r: Bytes)
    requires Sound(p)
    ensures |r| == |input|
  {
    seq(|input|, j requires 0 <= j < |input| => Xor(input[j], KeystreamByte(p, key, nonce, j)))
  }

  /** binary.BigEndian.PutUint64 into the last eight bytes. */
  method PutUint64(buf: array<byte>, v: nat)
    requires buf.Length == 24
    modifies buf
    ensures buf[..] == old(buf[..16]) + BigEndian(v)
  {
    var rest := v;
    assert buf[..24] == buf[..] && buf[24..24] == [];
    for n := 8 downto 0
      invariant buf[..16] == old(buf[..16])
      invariant BigEndian(v) == BigEndianBytes(rest, n) + buf[16 + n..24]
    {
      ghost var tail := buf[16 + n + 1..24];
      buf[16 + n] := rest % 256;
      assert buf[16 + n..24] == [rest % 256] + tail;
      rest := rest / 256;
    }
    assert buf[..] == buf[..16] + buf[16..24];
  }

  lemma BlockOf(i: nat, j: nat)
    requires i * BLOCK_SIZE <= j < (i + 1) * BLOCK_SIZE
    ensures j / BLOCK_SIZE == i && j % BLOCK_SIZE == j - i * BLOCK_SIZE
  {}

  method CryptBlock(p: Primitives, key: Bytes, nonce: Bytes, input: Bytes, output: array<byte>, i: nat, ksBlock: Bytes,
                    start: nat, end: nat)
    requires Sound(p) && output.Length == |input| && ksBlock == p.hmac(key, CounterBlock(nonce, i))
    requires start == i * BLOCK_SIZE <= end <= |input| && end <= (i + 1) * BLOCK_SIZE
    modifies output
    ensures forall l :: 0 <= l < start ==> output[l] == old(output[l])
    ensures forall l :: start <= l < end ==> output[l] == Xor(input[l], KeystreamByte(p, key, nonce, l))
  {
    for j := start to end
      invariant forall l :: 0 <= l < start ==> output[l] == old(output[l])
      invariant forall l :: start <= l < j ==> output[l] == Xor(input[l], KeystreamByte(p, key, nonce, l))
    {
      BlockOf(i, j);
      output[j] := Xor(input[j], ksBlock[j - start]);
    }
  }

  /** The block loops that EncryptBundle and DecryptBundle share. */
  method CryptBlocks(p: Primitives, key: Bytes, nonce: Bytes, input: Bytes) returns (output: array<byte>)
    requires Sound(p)
    ensures fresh(output) && output[..] == Apply(p, key, nonce, input)
  {
    output := new byte[|input|](_ => 0);
    var numBlocks := (|input| + BLOCK_SIZE - 1) / BLOCK_SIZE;
    var ctrBuf := new byte[24](k => if 0 <= k < 16 && k < |nonce| then nonce[k] else 0);
    for i := 0 to numBlocks
      invariant output.Length == |input| && ctrBuf.Length == 24 && fresh(ctrBuf) && fresh(output) && ctrBuf != output
      invariant ctrBuf[..16] == CounterBlock(nonce, 0)[..16]
      invariant forall j :: 0 <= j < i * BLOCK_SIZE && j < |input| ==>
                  output[j] == Xor(input[j], KeystreamByte(p, key, nonce, j))
    {
      PutUint64(ctrBuf, i);
      assert ctrBuf[..] == CounterBlock(nonce, i);
      assert ctrBuf[..16] == ctrBuf[..][..16];
      var ksBlock := p.hmac(key, ctrBuf[..]);
      var start, end := i * BLOCK_SIZE, (i + 1) * BLOCK_SIZE;
      if end > |input| { end := |input|; }
      CryptBlock(p, key, nonce, input, output, i, ksBlock, start, end);
    }
  }

  // ---------- Bundles ----------

  datatype Bundle = Bundle(format: string, kdf: string, iterations: int, salt: string, nonce: string,
                           ciphertext: string, tag: string)

  datatype DecryptError = BadFormat | BadEncoding | TooManyIterations | BadPasswordOrPayload

  function EncKey(p: Primitives, password: Bytes, salt: Bytes, iterations: int): Bytes
    requires Sound(p)
  {
    p.kdf(password, salt, iterations)[..32]
  }

  function Tag(p: Primitives, password: Bytes, salt: Bytes, nonce: Bytes, ciphertext: Bytes, iterations: int): Bytes
    requires Sound(p)
  {
    p.hmac(p.kdf(password, salt, iterations)[32..], salt + nonce + ciphertext)
  }

  /** The bundle of a plaintext under a given salt and nonce. */
  function Seal(p: Primitives, plaintext: Bytes, password: Bytes, salt: Bytes, nonce: Bytes): Bundle
    requires Sound(p)
  {
    var c := Apply(p, EncKey(p, password, salt, ITERATIONS), nonce, plaintext);
    Bundle(FORMAT, KDF_NAME, ITERATIONS, p.encode(salt), p.encode(nonce), p.encode(c),
           p.encode(Tag(p, password, salt, nonce, c, ITERATIONS)))
  }

  /** EncryptBundle. An empty salt or nonce is replaced by random bytes. */
  method EncryptBundle(p: Primitives, plaintext: Bytes, password: Bytes, salt: Bytes, nonce: Bytes, randomSalt: Bytes,
                       randomNonce: Bytes)
    returns (b: Bundle)
    requires Sound(p) && |randomSalt| == |randomNonce| == 16
    ensures b ==
            Seal(p, plaintext, password, if salt == [] then randomSalt else salt, if nonce == [] then randomNonce
              else nonce)
  {
    var s := if |salt| == 0 then randomSalt else salt;
    var n := if |nonce| == 0 then randomNonce else nonce;
    var dk := p.kdf(password, s, ITERATIONS);
    var ciphertext := CryptBlocks(p, dk[..32], n, plaintext);
    var tag := p.hmac(dk[32..], s + n + ciphertext[..]);
    b := Bundle(FORMAT, KDF_NAME, ITERATIONS, p.encode(s), p.encode(n), p.encode(ciphertext[..]), p.encode(tag));
  }

  function EffectiveIterations(b: Bundle): int { if b.iterations <= 0 then ITERATIONS else b.iterations }

  /** A bundle is readable when it has the right format and four decodable parts. */
  predicate Readable(p: Primitives, b: Option<Bundle>) {
    && b.Some? && b.value.format == FORMAT
    && p.decode(b.value.salt).Some? && p.decode(b.value.nonce).Some?
    && p.decode(b.value.ciphertext).Some? && p.decode(b.value.tag).Some?
  }

  /** A readable bundle is authentic when its tag is the one of its contents. */
  predicate Authentic(p: Primitives, b: Bundle, password: Bytes)
    requires Sound(p) && Readable(p, Some(b))
  {
    p.decode(b.tag).value ==
    Tag(p, password, p.decode(b.salt).value, p.decode(b.nonce).value, p.decode(b.ciphertext).value,
      EffectiveIterations(b))
  }

  /** DecryptBundle: a plaintext comes out exactly of a readable, authentic bundle
      within the iteration limit. */
  method DecryptBundle(p: Primitives, b: Option<Bundle>, password: Bytes) returns (r: Result<Bytes, DecryptError>)
    requires Sound(p)
    ensures r.Ok? <==>
              Readable(p, b) && EffectiveIterations(b.value) <= MAX_ITERATIONS && Authentic(p, b.value, password)
    ensures r.Ok? ==>
              r.value == Apply(p, EncKey(p, password, p.decode(b.value.salt).value, EffectiveIterations(b.value)),
                                       p.decode(b.value.nonce).value, p.decode(b.value.ciphertext).value)
    ensures r == Err(BadFormat) <==> b.None? || b.value.format != FORMAT
    ensures r == Err(BadEncoding) <==> b.Some? && b.value.format == FORMAT && !Readable(p, b)
    ensures r == Err(TooManyIterations) <==> Readable(p, b) && EffectiveIterations(b.value) > MAX_ITERATIONS
  {
    if b.None? || b.value.format != FORMAT { return Err(BadFormat); }
    var salt := p.decode(b.value.salt);
    if salt.None? { return Err(BadEncoding); }
    var nonce := p.decode(b.value.nonce);
    if nonce.None? { return Err(BadEncoding); }
    var ciphertext := p.decode(b.value.ciphertext);
    if ciphertext.None? { return Err(BadEncoding); }
    var tag := p.decode(b.value.tag);
    if tag.None? { return Err(BadEncoding); }
    var iterations := b.value.iterations;
    if iterations <= 0 { iterations := 100000; }
    if iterations > MAX_ITERATIONS { return Err(TooManyIterations); }
    var dk := p.kdf(password, salt.value, iterations);
    var expectedTag := p.hmac(dk[32..], salt.value + nonce.value + ciphertext.value);
    if tag.value != expectedTag { return Err(BadPasswordOrPayload); }
    var plaintext := CryptBlocks(p, dk[..32], nonce.value, ciphertext.value);
    r := Ok(plaintext[..]);
  }

  // ---------- Main results ----------

  lemma {:induction false} XorBitsTwice(a: nat, k: nat, n: nat)
    ensures XorBits(XorBits(a, k, n), k, n) == XorBits(a, 0, n)
    decreases n
  {
    if n > 0 {
      XorBitsTwice(a / 2, k / 2, n - 1);
      XorLowBit(XorBits(a / 2, k / 2, n - 1), a, k);
    }
  }

  lemma XorLowBit(q: nat, a: nat, k: nat)
    ensures (2 * q + (a + k) % 2) / 2 == q && (2 * q + (a + k) % 2 + k) % 2 == (a + 0) % 2
  {
    if k % 2 == 0 { assert (a + k) % 2 == a % 2; } else { assert (a + k) % 2 == (a + 1) % 2; }
  }

  lemma XorTwice(a: byte, k: byte)
    ensures Xor(Xor(a, k), k) == a
  {
    XorBitsTwice(a, k, 8);
    XorWithZero(a);
  }

  lemma XorWithZero(a: byte)
    ensures XorBits(a, 0, 8) == a
  {
    var b := a / 2; var c := b / 2; var d := c / 2; var e := d / 2; var f := e / 2; var g := f / 2; var h := g / 2;
    assert XorBits(h, 0, 1) == h;
    assert XorBits(g, 0, 2) == g;
    assert XorBits(f, 0, 3) == f;
    assert XorBits(e, 0, 4) == e;
    assert XorBits(d, 0, 5) == d;
    assert XorBits(c, 0, 6) == c;
    assert XorBits(b, 0, 7) == b;
  }

  /** Applying the keystream twice gives the input back, whatever its length. */
  lemma ApplyIsInvolution(p: Primitives, key: Bytes, nonce: Bytes, input: Bytes)
    requires Sound(p)
    ensures Apply(p, key, nonce, Apply(p, key, nonce, input)) == input
  {
    hide KeystreamByte, Sound;
    var once := Apply(p, key, nonce, input);
    forall j | 0 <= j < |input|
      ensures Apply(p, key, nonce, once)[j] == input[j]
    {
      XorTwice(input[j], KeystreamByte(p, key, nonce, j));
    }
  }

  /** A sealed bundle is readable, authentic under the same password, and opens to
      the plaintext: the conditions and the result of DecryptBundle. */
  lemma SealedBundleOpens(p: Primitives, plaintext: Bytes, password: Bytes, salt: Bytes, nonce: Bytes)
    requires Sound(p)
    ensures var b := Seal(p, plaintext, password, salt, nonce);
            && Readable(p, Some(b)) && EffectiveIterations(b) <= MAX_ITERATIONS && Authentic(p, b, password)
            && Apply(p, EncKey(p, password, p.decode(b.salt).value, EffectiveIterations(b)),
                     p.decode(b.nonce).value, p.decode(b.ciphertext).value) == plaintext
  {
    ApplyIsInvolution(p, EncKey(p, password, salt, ITERATIONS), nonce, plaintext);
    hide Apply, Tag, EncKey;
  }

  /** The round trip through both methods, for every plaintext, password, salt and nonce. */
  method RoundTrip(p: Primitives, plaintext: Bytes, password: Bytes, salt: Bytes, nonce: Bytes, randomSalt: Bytes,
                   randomNonce: Bytes)
    returns (r: Result<Bytes, DecryptError>)
    requires Sound(p) && |randomSalt| == |randomNonce| == 16
    ensures r == Ok(plaintext)
  {
    var b := EncryptBundle(p, plaintext, password, salt, nonce, randomSalt, randomNonce);
    SealedBundleOpens(p, plaintext, password, if salt == [] then randomSalt else salt, if nonce == [] then randomNonce
      else nonce);
    hide Apply, Seal, Sound;
    r := DecryptBundle(p, Some(b), password);
  }

  /** Conversely, sealing what an authentic bundle of the standard strength opens to,
      with its own salt and nonce, gives back its ciphertext and tag. */
  lemma OpenedBundleReseals(p: Primitives, b: Bundle, password: Bytes)
    requires Sound(p) && Readable(p, Some(b)) && Authentic(p, b, password) && EffectiveIterations(b) == ITERATIONS
    ensures var salt, nonce, c := p.decode(b.salt).value, p.decode(b.nonce).value, p.decode(b.ciphertext).value;
            var again := Seal(p, Apply(p, EncKey(p, password, salt, ITERATIONS), nonce, c), password, salt, nonce);
            again.ciphertext == p.encode(c) && p.decode(again.tag) == p.decode(b.tag)
  {
    var salt, nonce, c := p.decode(b.salt).value, p.decode(b.nonce).value, p.decode(b.ciphertext).value;
    ApplyIsInvolution(p, EncKey(p, password, salt, ITERATIONS), nonce, c);
    hide Apply, Tag, EncKey;
  }

  // ---------- What the tag covers ----------

  function Payload(p: Primitives, b: Bundle): Bytes
    requires Readable(p, Some(b))
  {
    p.decode(b.nonce).value + p.decode(b.ciphertext).value
  }

  /** The tag is one of the salt and of nonce and ciphertext joined: for one salt and strength
      two bundles have the same expected tag if and only if the primitive gives their joined
      payloads the same one, and bundles with one tag and joined payload are authentic together. */
  lemma TagCoversPayload(p: Primitives, a: Bundle, b: Bundle, password: Bytes)
    requires Sound(p) && Readable(p, Some(a)) && Readable(p, Some(b))
    requires p.decode(a.salt) == p.decode(b.salt) && EffectiveIterations(a) == EffectiveIterations(b)
    requires p.decode(a.tag) == p.decode(b.tag) && Authentic(p, a, password)
    ensures var salt := p.decode(a.salt).value;
            var key := p.kdf(password, salt, EffectiveIterations(a))[32..];
            && (Authentic(p, b, password) <==> p.hmac(key, salt + Payload(p, a)) == p.hmac(key, salt + Payload(p, b)))
            && (Payload(p, a) == Payload(p, b) ==> Authentic(p, b, password))
  {
    TagOfPayload(p, password, p.decode(a.salt).value, p.decode(a.nonce).value, p.decode(a.ciphertext).value,
      EffectiveIterations(a));
    TagOfPayload(p, password, p.decode(b.salt).value, p.decode(b.nonce).value, p.decode(b.ciphertext).value,
      EffectiveIterations(b));
    hide Tag;
  }

  lemma TagOfPayload(p: Primitives, password: Bytes, salt: Bytes, nonce: Bytes, ciphertext: Bytes, iterations: int)
    requires Sound(p)
    ensures Tag(p, password, salt, nonce, ciphertext, iterations) ==
            p.hmac(p.kdf(password, salt, iterations)[32..], salt + (nonce + ciphertext))
  {
    assert salt + nonce + ciphertext == salt + (nonce + ciphertext);
  }

  /** Bundles with one payload have the same nonce and ciphertext if and only if their nonces
      are equally long. */
  lemma PayloadDeterminesParts(p: Primitives, a: Bundle, b: Bundle)
    requires Readable(p, Some(a)) && Readable(p, Some(b)) && Payload(p, a) == Payload(p, b)
    ensures p.decode(a.nonce) == p.decode(b.nonce) && p.decode(a.ciphertext) == p.decode(b.ciphertext) <==>
            |p.decode(a.nonce).value| == |p.decode(b.nonce).value|
  {
    var m, n := p.decode(a.nonce).value, p.decode(b.nonce).value;
    if |m| == |n| {
      assert m == Payload(p, a)[..|m|] && n == Payload(p, b)[..|n|];
      assert p.decode(a.ciphertext).value == Payload(p, a)[|m|..];
      assert p.decode(b.ciphertext).value == Payload(p, b)[|n|..];
    }
  }

  function FromBigEndian(s: Bytes): nat {
    if s == [] then 0 else FromBigEndian(s[..|s| - 1]) * 256 + s[|s| - 1]
  }

  function Power256(n: nat): nat { if n == 0 then 1 else 256 * Power256(n - 1) }

  lemma {:induction false} BigEndianRoundTrip(v: nat, n: nat)
    requires v < Power256(n)
    ensures FromBigEndian(BigEndianBytes(v, n)) == v
  {
    if n > 0 {
      BigEndianRoundTrip(v / 256, n - 1);
      assert BigEndianBytes(v, n)[..n - 1] == BigEndianBytes(v / 256, n - 1);
    }
  }

  lemma Power256Of8()
    ensures Power256(8) == TWO_64
  {
    assert Power256(4) == TWO_32 by { assert Power256(2) == 65536; }
    assert Power256(6) == TWO_32 * 65536;
  }

  /** No two blocks of a bundle share a counter, so no keystream block is reused. */
  lemma CountersDiffer(nonce: Bytes, i: u64, j: u64)
    requires i != j
    ensures CounterBlock(nonce, i) != CounterBlock(nonce, j)
  {
    hide Power256, FromBigEndian, BigEndianBytes;
    Power256Of8();
    BigEndianRoundTrip(i, 8);
    BigEndianRoundTrip(j, 8);
    assert CounterBlock(nonce, i)[16..] == BigEndian(i) && CounterBlock(nonce, j)[16..] == BigEndian(j);
  }
}
