/** SHA-256 as FIPS 180-4 defines it and HMAC as RFC 2104 defines it, as pure functions.
    Nothing here has a buffer, an index or a loop: it is what the vendored code must compute. */
module HashSpec {

  import opened Bits

  type Block = b: Bytes | |b| == 64 witness seq(64, _ => 0)
  /** The eight 32-bit words of an intermediate hash value. */
  type Words8 = w: seq<word> | |w| == 8 witness seq(8, _ => 0)

  /** FIPS 180-4, section 4.2.2: the first sixty-four constants, one per round. */
  const K: seq<word> := K0 + K1 + K2 + K3 + K4 + K5 + K6 + K7

  const K0: seq<word> := [0x428a2f98, 0x71374491, 0xb5c0fbcf, 0xe9b5dba5, 0x3956c25b, 0x59f111f1, 0x923f82a4, 0xab1c5ed5]
  const K1: seq<word> := [0xd807aa98, 0x12835b01, 0x243185be, 0x550c7dc3, 0x72be5d74, 0x80deb1fe, 0x9bdc06a7, 0xc19bf174]
  const K2: seq<word> := [0xe49b69c1, 0xefbe4786, 0x0fc19dc6, 0x240ca1cc, 0x2de92c6f, 0x4a7484aa, 0x5cb0a9dc, 0x76f988da]
  const K3: seq<word> := [0x983e5152, 0xa831c66d, 0xb00327c8, 0xbf597fc7, 0xc6e00bf3, 0xd5a79147, 0x06ca6351, 0x14292967]
  const K4: seq<word> := [0x27b70a85, 0x2e1b2138, 0x4d2c6dfc, 0x53380d13, 0x650a7354, 0x766a0abb, 0x81c2c92e, 0x92722c85]
  const K5: seq<word> := [0xa2bfe8a1, 0xa81a664b, 0xc24b8b70, 0xc76c51a3, 0xd192e819, 0xd6990624, 0xf40e3585, 0x106aa070]
  const K6: seq<word> := [0x19a4c116, 0x1e376c08, 0x2748774c, 0x34b0bcb5, 0x391c0cb3, 0x4ed8aa4a, 0x5b9cca4f, 0x682e6ff3]
  const K7: seq<word> := [0x748f82ee, 0x78a5636f, 0x84c87814, 0x8cc70208, 0x90befffa, 0xa4506ceb, 0xbef9a3f7, 0xc67178f2]

  /** FIPS 180-4, section 5.3.3. */
  const H0: Words8 := [0x6a09e667, 0xbb67ae85, 0x3c6ef372, 0xa54ff53a, 0x510e527f, 0x9b05688c, 0x1f83d9ab, 0x5be0cd19]

  function Rotate(x: word, n: nat): word
    requires 0 < n < 32
  {
    ShiftsRotate(x, n);
    Rotr32(x, n)
  }

  // FIPS 180-4, section 4.1.2.
  function BigSigma0(x: word): word { Xor32(Xor32(Rotate(x, 2), Rotate(x, 13)), Rotate(x, 22)) }
  function BigSigma1(x: word): word { Xor32(Xor32(Rotate(x, 6), Rotate(x, 11)), Rotate(x, 25)) }
  function SmallSigma0(x: word): word { Xor32(Xor32(Rotate(x, 7), Rotate(x, 18)), Shr32(x, 3)) }
  function SmallSigma1(x: word): word { Xor32(Xor32(Rotate(x, 17), Rotate(x, 19)), Shr32(x, 10)) }
  function Ch(x: word, y: word, z: word): word { Xor32(And32(x, y), And32(Not32(x), z)) }
  function Maj(x: word, y: word, z: word): word { Xor32(Xor32(And32(x, y), And32(x, z)), And32(y, z)) }

  function FourBytes(b0: int, b1: int, b2: int, b3: int): int {
    b0 * 0x100_0000 + b1 * 0x1_0000 + b2 * 0x100 + b3
  }

  /** The i-th big-endian 32-bit word of a block. */
  function Word(m: Block, i: nat): word
    requires i < 16
  {
    FourBytes(m[4 * i], m[4 * i + 1], m[4 * i + 2], m[4 * i + 3])
  }

  /** The message schedule, FIPS 180-4, section 6.2.2, step 1. */
  function W(m: Block, t: nat): word
    decreases t, 1
  {
    if t < 16 then Word(m, t) else Expanded(m, t)
  }

  function Expanded(m: Block, t: nat): word
    requires t >= 16
    decreases t, 0
  {
    (SmallSigma1(W(m, t - 2)) + W(m, t - 7) + SmallSigma0(W(m, t - 15)) + W(m, t - 16)) % TWO32
  }

  datatype Vars = Vars(a: word, b: word, c: word, d: word, e: word, f: word, g: word, h: word) {
    function Nth(i: nat): word
      requires i < 8
    {
      if i == 0 then a else if i == 1 then b else if i == 2 then c else if i == 3 then d
      else if i == 4 then e else if i == 5 then f else if i == 6 then g else h
    }
  }

  /** One round, FIPS 180-4, section 6.2.2, step 3. */
  function Round(v: Vars, k: word, w: word): Vars {
    Shifted(v, v.h + BigSigma1(v.e) + Ch(v.e, v.f, v.g) + k + w, BigSigma0(v.a) + Maj(v.a, v.b, v.c))
  }

  function Shifted(v: Vars, t1: nat, t2: nat): Vars {
    Vars((t1 + t2) % TWO32, v.a, v.b, v.c, (v.d + t1) % TWO32, v.e, v.f, v.g)
  }

  /** The working variables after the first t rounds. */
  function Rounds(hash: Words8, m: Block, t: nat): Vars
    requires t <= 64
    decreases t, 1
  {
    if t == 0 then Vars(hash[0], hash[1], hash[2], hash[3], hash[4], hash[5], hash[6], hash[7])
    else RoundNumber(hash, m, t)
  }

  function RoundNumber(hash: Words8, m: Block, t: nat): Vars
    requires 0 < t <= 64
    decreases t, 0
  {
    Round(Rounds(hash, m, t - 1), K[t - 1], W(m, t - 1))
  }

  function AddVars(hash: Words8, v: Vars): Words8 {
    seq(8, i requires 0 <= i < 8 => Add32(hash[i], v.Nth(i)))
  }

  /** The intermediate hash value after one more block, FIPS 180-4, section 6.2.2, step 4. */
  function Compress(hash: Words8, m: Block): Words8 { AddVars(hash, Rounds(hash, m, 64)) }

  /** The intermediate hash value after all blocks of a message of whole blocks. */
  function HashBlocks(msg: Bytes): Words8
    requires |msg| % 64 == 0
    decreases |msg|, 1
  {
    if msg == [] then H0 else HashLast(msg)
  }

  function HashLast(msg: Bytes): Words8
    requires |msg| % 64 == 0 && msg != []
    decreases |msg|, 0
  {
    HashNext(msg[..|msg| - 64], msg[|msg| - 64..])
  }

  function HashNext(done: Bytes, m: Block): Words8
    requires |done| % 64 == 0 
    decreases |done|, 2
  {
    Compress(HashBlocks(done), m)
  }

  function Zeros(n: nat): Bytes { seq(n, _ => 0) }

  /** How many zero bytes bring a message and its 0x80 marker to 56 modulo 64. */
  function PadZeros(len: nat): nat { (119 - len % 64) % 64 }

  /** The bit length of a message of len bytes, as eight bytes. */
  function LengthField(len: nat): (f: Bytes)
    ensures |f| == 8
  {
    BigEndianLength(len * 8 % TWO64, 8);
    BigEndian(len * 8 % TWO64, 8)
  }

  /** FIPS 180-4, section 5.1.1. The length field holds the bit length modulo 2^64;
      LengthFieldIsExact says it is the bit length for every message the standard allows. */
  function Pad(msg: Bytes): Bytes {
    msg + [0x80] + Zeros(PadZeros(|msg|)) + LengthField(|msg|)
  }

  function WordsBytes(w: seq<word>): Bytes
    decreases |w|, 1
  {
    if w == [] then [] else WordsBytesLast(w)
  }

  function WordsBytesLast(w: seq<word>): Bytes
    requires w != []
    decreases |w|, 0
  {
    WordsBytes(w[..|w| - 1]) + BigEndian(w[|w| - 1], 4)
  }

  function Sha256(msg: Bytes): Bytes {
    PadIsWholeBlocks(msg);
    WordsBytes(HashBlocks(Pad(msg)))
  }

  function XorByte(s: Bytes, b: byte): Bytes { seq(|s|, i requires 0 <= i < |s| => Xor8(s[i], b)) }

  /** RFC 2104, section 2: a key longer than a block is hashed first, then it is zero-padded. */
  function HmacKey(key: Bytes): Bytes {
    var k := if |key| > 64 then Sha256(key) else key;
    k + Zeros(if |k| <= 64 then 64 - |k| else 0)
  }

  /** HMAC-SHA256, RFC 2104, section 2. */
  function Hmac(key: Bytes, msg: Bytes): Bytes {
    var k := HmacKey(key);
    Sha256(XorByte(k, 0x5c) + Sha256(XorByte(k, 0x36) + msg))
  }

  lemma WordsBytesLength(w: seq<word>)
    ensures |WordsBytes(w)| == 4 * |w|
  {
    if w != [] {
      WordsBytesLength(w[..|w| - 1]);
      BigEndianLength(w[|w| - 1], 4);
    }
  }

  lemma Sha256Length(msg: Bytes)
    ensures |Sha256(msg)| == 32
  {
    PadIsWholeBlocks(msg);
    WordsBytesLength(HashBlocks(Pad(msg)));
  }

  lemma PadIsWholeBlocks(msg: Bytes)
    ensures |Pad(msg)| % 64 == 0
  {
    PadZerosFill(|msg|);
    EightMore(|msg| + 1 + PadZeros(|msg|));
    assert |Pad(msg)| == |msg| + 1 + PadZeros(|msg|) + 8;
  }

  lemma EightMore(n: nat)
    requires n % 64 == 56
    ensures (n + 8) % 64 == 0
  {}

  lemma PadZerosFill(len: nat)
    ensures (len + 1 + PadZeros(len)) % 64 == 56 && 0 <= PadZeros(len) < 64
  {}

  /** The zero count is the least one: any other filler of the right residue is longer. */
  lemma PaddingIsMinimal(len: nat, k: nat)
    requires (len + 1 + k) % 64 == 56
    ensures PadZeros(len) <= k && (len + 1 + PadZeros(len)) % 64 == 56
  {
    assert (len + 1 + PadZeros(len)) % 64 == 56;
    assert PadZeros(len) < 64;
  }

  /** For every message under 2^61 bytes the last eight bytes of the padding spell its bit length. */
  lemma LengthFieldIsExact(msg: Bytes)
    requires |msg| < 0x2000_0000_0000_0000
    ensures |Pad(msg)| >= 8 && FromBigEndian(Pad(msg)[|Pad(msg)| - 8..]) == 8 * |msg|
  {
    var bits := |msg| * 8;
    assert bits % TWO64 == bits;
    BigEndianLength(bits, 8);
    assert Pad(msg)[|Pad(msg)| - 8..] == BigEndian(bits, 8);
    Pow2Values();
    Pow2Add(32, 32);
    BigEndianInverse(bits, 8);
  }
}
