/** The vendored streaming SHA-256, the truncated HMAC tag and the tag comparison of src/wire.cpp,
    each proved to compute the function that HashSpec takes from the standards. */
module Wire {
  import opened Bits
  import opened HashSpec

  const TAG_BYTES: nat := 16

  /** The source's rotation, built from two shifts. */
  function Ror(x: word, n: nat): word
    requires 0 < n < 32
  {
    Or32(Shr32(x, n), Shl32(x, 32 - n))
  }

  lemma ScheduleSigmas(x: word)
    ensures Xor32(Xor32(Ror(x, 7), Ror(x, 18)), Shr32(x, 3)) == SmallSigma0(x)
    ensures Xor32(Xor32(Ror(x, 17), Ror(x, 19)), Shr32(x, 10)) == SmallSigma1(x)
  {
    ShiftsRotate(x, 7);
    ShiftsRotate(x, 18);
    ShiftsRotate(x, 17);
    ShiftsRotate(x, 19);
  }

  lemma RoundSigmas(x: word)
    ensures Xor32(Xor32(Ror(x, 2), Ror(x, 13)), Ror(x, 22)) == BigSigma0(x)
    ensures Xor32(Xor32(Ror(x, 6), Ror(x, 11)), Ror(x, 25)) == BigSigma1(x)
  {
    ShiftsRotate(x, 2);
    ShiftsRotate(x, 13);
    ShiftsRotate(x, 22);
    ShiftsRotate(x, 6);
    ShiftsRotate(x, 11);
    ShiftsRotate(x, 25);
  }

  lemma OrShifted(hi: nat, lo: nat, n: nat, p: nat)
    requires p == Pow2(n) && lo < p
    ensures BitOr(hi * p, lo) == hi * p + lo
  {
    OrOfDisjoint(hi, lo, n);
  }

  lemma OrNext(hi: word, lo: word, q: nat, n: nat, p: nat)
    requires hi == q * p && lo < p && p == Pow2(n)
    ensures Or32(hi, lo) == hi + lo
  {
    OrShifted(q, lo, n, p);
  }

  lemma ShiftByte(b: byte, n: nat, p: nat)
    requires p == Pow2(n) && b * p < TWO32
    ensures Shl32(b, n) == b * p
  {}

  /** Four bytes shifted into place and or-ed are the big-endian word. */
  lemma WordFromShifts(b0: byte, b1: byte, b2: byte, b3: byte)
    ensures Or32(Or32(Or32(Shl32(b0, 24), Shl32(b1, 16)), Shl32(b2, 8)), b3) == FourBytes(b0, b1, b2, b3)
  {
    Pow2Values();
    ShiftByte(b0, 24, 0x100_0000);
    ShiftByte(b1, 16, 0x1_0000);
    ShiftByte(b2, 8, 0x100);
    OrNext(b0 * 0x100_0000, b1 * 0x1_0000, b0, 24, 0x100_0000);
    OrNext(b0 * 0x100_0000 + b1 * 0x1_0000, b2 * 0x100, b0 * 0x100 + b1, 16, 0x1_0000);
    OrNext(b0 * 0x100_0000 + b1 * 0x1_0000 + b2 * 0x100, b3, b0 * 0x1_0000 + b1 * 0x100 + b2, 8, 0x100);
  }

  lemma AddWraps(a: int, b: int)
    ensures (a % TWO32 + b) % TWO32 == (a + b) % TWO32
  {}

  /** Wrapping after every addition is wrapping once at the end. */
  lemma Add4(a: word, b: word, c: word, d: word)
    ensures Add32(Add32(Add32(a, b), c), d) == (a + b + c + d) % TWO32
  {
    AddWraps(a + b, c);
    AddWraps(a + b + c, d);
  }

  lemma Add5(a: word, b: word, c: word, d: word, e: word)
    ensures Add32(Add32(Add32(Add32(a, b), c), d), e) == (a + b + c + d + e) % TWO32
  {
    Add4(a, b, c, d);
    AddWraps(a + b + c + d, e);
  }

  lemma RoundSums(d: word, h: word, s1: word, ch: word, k: word, w: word, s0: word, maj: word)
    ensures var t1 := Add32(Add32(Add32(Add32(h, s1), ch), k), w);
            var t2 := Add32(s0, maj);
            && Add32(t1, t2) == (h + s1 + ch + k + w + (s0 + maj)) % TWO32
            && Add32(d, t1) == (d + (h + s1 + ch + k + w)) % TWO32
  {
    Add5(h, s1, ch, k, w);
    AddWraps(h + s1 + ch + k + w, d);
    AddWraps(h + s1 + ch + k + w, (s0 + maj) % TWO32);
    AddWraps(s0 + maj, h + s1 + ch + k + w);
  }

  /** A round whose additions each wrap is a round whose sums wrap at the end. */
  lemma RoundWraps(v: Vars, k: word, w: word, s1: word, ch: word, s0: word, maj: word)
    ensures var t1 := Add32(Add32(Add32(Add32(v.h, s1), ch), k), w);
            Vars(Add32(t1, Add32(s0, maj)), v.a, v.b, v.c, Add32(v.d, t1), v.e, v.f, v.g)
            == Shifted(v, v.h + s1 + ch + k + w, s0 + maj)
  {
    RoundSums(v.d, v.h, s1, ch, k, w, s0, maj);
  }

  /** The bitwise half of a round: the rotations are shifts. */
  method RoundWords(v: Vars) returns (s1: word, ch: word, s0: word, maj: word)
    ensures s1 == BigSigma1(v.e) && ch == Ch(v.e, v.f, v.g) && s0 == BigSigma0(v.a) && maj == Maj(v.a, v.b, v.c)
  {
    s1 := Xor32(Xor32(Ror(v.e, 6), Ror(v.e, 11)), Ror(v.e, 25));
    ch := Xor32(And32(v.e, v.f), And32(Not32(v.e), v.g));
    s0 := Xor32(Xor32(Ror(v.a, 2), Ror(v.a, 13)), Ror(v.a, 22));
    maj := Xor32(Xor32(And32(v.a, v.b), And32(v.a, v.c)), And32(v.b, v.c));
    RoundSigmas(v.e);
    RoundSigmas(v.a);
  }

  /** The body of the round loop: every addition wraps on its own. */
  method RoundOnce(v: Vars, k: word, w: word) returns (r: Vars)
    ensures r == Round(v, k, w)
  {
    var s1, ch, s0, maj := RoundWords(v);
    var t1 := Add32(Add32(Add32(Add32(v.h, s1), ch), k), w);
    var t2 := Add32(s0, maj);
    RoundWraps(v, k, w, s1, ch, s0, maj);
    r := Vars(Add32(t1, t2), v.a, v.b, v.c, Add32(v.d, t1), v.e, v.f, v.g);
  }

  /** The message schedule of block(): the first sixteen words from the bytes, the rest by the recurrence. */
  method Schedule(p: Block) returns (w: array<word>)
    ensures fresh(w) && w.Length == 64
    ensures forall j :: 0 <= j < 64 ==> w[j] == W(p, j)
  {
    w := new word[64];
    for i := 0 to 16
      invariant forall j :: 0 <= j < i ==> w[j] == W(p, j)
    {
      w[i] := LoadWord(p, i);
    }
    for i := 16 to 64
      invariant forall j :: 0 <= j < i ==> w[j] == W(p, j)
    {
      w[i] := NextWord(p, i, w[i - 16], w[i - 15], w[i - 7], w[i - 2]);
    }
  }

  method LoadWord(p: Block, i: nat) returns (r: word)
    requires i < 16
    ensures r == Word(p, i)
  {
    r := Or32(Or32(Or32(Shl32(p[i * 4], 24), Shl32(p[i * 4 + 1], 16)), Shl32(p[i * 4 + 2], 8)), p[i * 4 + 3]);
    WordFromShifts(p[i * 4], p[i * 4 + 1], p[i * 4 + 2], p[i * 4 + 3]);
  }

  method NextWord(ghost m: Block, ghost t: nat, w16: word, w15: word, w7: word, w2: word) returns (r: word)
    requires 16 <= t < 64
    requires w16 == W(m, t - 16) && w15 == W(m, t - 15) && w7 == W(m, t - 7) && w2 == W(m, t - 2)
    ensures r == W(m, t)
  {
    r := ExpandWord(w16, w15, w7, w2);
    assert W(m, t) == Expanded(m, t);
  }

  method ScheduleWords(w15: word, w2: word) returns (s0: word, s1: word)
    ensures s0 == SmallSigma0(w15) && s1 == SmallSigma1(w2)
  {
    s0 := Xor32(Xor32(Ror(w15, 7), Ror(w15, 18)), Shr32(w15, 3));
    s1 := Xor32(Xor32(Ror(w2, 17), Ror(w2, 19)), Shr32(w2, 10));
    ScheduleSigmas(w15);
    ScheduleSigmas(w2);
  }

  method ExpandWord(w16: word, w15: word, w7: word, w2: word) returns (r: word)
    ensures r == (SmallSigma1(w2) + w7 + SmallSigma0(w15) + w16) % TWO32
  {
    var s0, s1 := ScheduleWords(w15, w2);
    Add4(w16, s0, w7, s1);
    r := Add32(Add32(Add32(w16, s0), w7), s1);
  }

  method MixRounds(hash: Words8, ghost m: Block, w: array<word>) returns (v: Vars)
    requires w.Length == 64
    requires forall j :: 0 <= j < 64 ==> w[j] == W(m, j)
    ensures v == Rounds(hash, m, 64)
  {
    v := Vars(hash[0], hash[1], hash[2], hash[3], hash[4], hash[5], hash[6], hash[7]);
    for i := 0 to 64
      invariant v == Rounds(hash, m, i)
    {
      v := RoundOnce(v, K[i], w[i]);
    }
  }

  /** block(): the schedule, the 64 rounds and the final additions. */
  method CompressedHash(h: Words8, p: Block, ghost done: Bytes) returns (r: Words8)
    requires |done| % 64 == 0 && h == HashBlocks(done)
    ensures r == HashNext(done, p)
  {
    var w := Schedule(p);
    var v := MixRounds(h, p, w);
    NextIsCompressed(done, p);
    r := AddVars(h, v);
  }

  lemma OneBlockMore(n: nat)
    requires n % 64 == 0
    ensures (n + 64) % 64 == 0
  {}

  lemma TotalWraps(n: nat, k: nat)
    ensures (n % TWO64 + k) % TWO64 == (n + k) % TWO64
  {}

  lemma AppendBlock(done: Bytes, m: Block)
    requires |done| % 64 == 0
    ensures |done + m| % 64 == 0 && HashBlocks(done + m) == HashNext(done, m)
  {
    OneBlockMore(|done|);
    var whole := done + m;
    assert whole[..|whole| - 64] == done && whole[|whole| - 64..] == m;
  }

  lemma NextIsCompressed(done: Bytes, m: Block)
    requires |done| % 64 == 0
    ensures HashNext(done, m) == Compress(HashBlocks(done), m)
  {}

  lemma Regroup(done: Bytes, kept: Bytes, rest: Bytes, take: nat)
    requires take <= |rest|
    ensures (done + kept) + rest == (done + (kept + rest[..take])) + rest[take..]
  {}

  class Sha256State {
    var h: Words8
    const buf: array<byte>
    var buflen: nat
    var total: nat
    /** The bytes already compressed into h, in whole blocks. */
    ghost var done: Bytes

    ghost predicate Valid()
      reads this, buf
    {
      && buf.Length == 64 && buflen < 64
      && |done| % 64 == 0 && h == HashBlocks(done)
      && total == |Data()| % TWO64
    }

    /** Every byte passed to Update so far. */
    ghost function Data(): Bytes
      reads this, buf
      requires buf.Length == 64 && buflen <= 64
    {
      done + buf[..buflen]
    }

    constructor ()
      ensures Valid() && Data() == []
      ensures fresh(buf)
    {
      h := H0;
      buf := new byte[64](_ => 0);
      buflen, total, done := 0, 0, [];
    }

    /** block() on the next 64 bytes. */
    method CompressBlock(p: Block)
      requires |done| % 64 == 0 && h == HashBlocks(done)
      modifies `h, `done
      ensures done == old(done) + p && |done| % 64 == 0 && h == HashBlocks(done)
    {
      h := CompressedHash(h, p, done);
      AppendBlock(done, p);
      done := done + p;
    }

    /** The memcpy into the buffer. */
    method Keep(piece: Bytes)
      requires buf.Length == 64 && buflen + |piece| <= 64
      modifies buf, `buflen
      ensures buflen == old(buflen) + |piece|
      ensures buf[..buflen] == old(buf[..buflen]) + piece
    {
      forall j | 0 <= j < |piece| { buf[buflen + j] := piece[j]; }
      buflen := buflen + |piece|;
    }

    method Update(p: Bytes)
      requires Valid()
      modifies this, buf
      ensures Valid() && Data() == old(Data()) + p
    {
      TotalWraps(|Data()|, |p|);
      total := (total + |p|) % TWO64;
      var rest := p;
      while rest != []
        invariant buf.Length == 64 && buflen < 64
        invariant |done| % 64 == 0 && h == HashBlocks(done)
        invariant total == (|old(Data())| + |p|) % TWO64
        invariant Data() + rest == old(Data()) + p
        decreases |rest|
      {
        var take := if |rest| < 64 - buflen then |rest| else 64 - buflen;
        Regroup(done, buf[..buflen], rest, take);
        Keep(rest[..take]);
        rest := rest[take..];
        if buflen == 64 { FlushBlock(); }
      }
    }

    /** A full buffer goes through block() and is emptied. */
    method FlushBlock()
      requires buf.Length == 64 && buflen == 64
      requires |done| % 64 == 0 && h == HashBlocks(done)
      modifies `buflen, `done, `h
      ensures buflen == 0 && done == old(Data()) && Data() == done
      ensures |done| % 64 == 0 && h == HashBlocks(done)
    {
      assert buf[..] == buf[..64];
      CompressBlock(buf[..]);
      buflen := 0;
    }

    /** The byte-at-a-time padding of finish(), up to the length field. */
    method PadZeroBytes(ghost msg: Bytes)
      requires Valid() && Data() == msg + [0x80]
      modifies this, buf
      ensures Valid() && Data() == msg + [0x80] + Zeros(PadZeros(|msg|))
    {
      ghost var z := 0;
      PadZerosFill(|msg|);
      assert Data() == msg + [0x80] + Zeros(0);
      while buflen != 56
        invariant Valid() && Data() == msg + [0x80] + Zeros(z) && z <= PadZeros(|msg|)
        decreases PadZeros(|msg|) - z
      {
        FillerNotDone(|msg|, z, buflen);
        Update([0]);
        z := z + 1;
        assert Zeros(z) == Zeros(z - 1) + [0];
      }
      FillerDone(|msg|, z);
    }

    /** The 0x80 byte, the zeros and the length. */
    method AppendPadding()
      requires Valid()
      modifies this, buf
      ensures Valid() && Data() == Pad(old(Data()))
    {
      ghost var msg := Data();
      var bits := total * 8 % TWO64;
      WrappedBits(|msg|);
      Update([0x80]);
      PadZeroBytes(msg);
      var len := LengthBytes(bits);
      Update(len);
    }

    method Finish(out: array<byte>)
      requires Valid() && out.Length >= 32 && out != buf
      modifies this, buf, out
      ensures out[..32] == Sha256(old(Data()))
      ensures out[32..] == old(out[32..])
    {
      ghost var msg := Data();
      AppendPadding();
      PadIsWholeBlocks(msg);
      NothingKept(|done|, buflen);
      assert done == Pad(msg);
      StoreWords(h, out);
    }
  }

  lemma WrappedBits(n: nat)
    ensures n % TWO64 * 8 % TWO64 == n * 8 % TWO64
  {
    var q, r := n / TWO64, n % TWO64;
    assert n * 8 == TWO64 * (8 * q) + r * 8;
  }

  lemma NothingKept(n: int, k: nat)
    requires n % 64 == 0 && (n + k) % 64 == 0 && k < 64
    ensures k == 0
  {}

  lemma FillerNotDone(len: nat, z: nat, buflen: nat)
    requires z <= PadZeros(len) && buflen < 64 && (len + 1 + z - buflen) % 64 == 0 && buflen != 56
    ensures z < PadZeros(len)
  {}

  lemma FillerDone(len: nat, z: nat)
    requires z <= PadZeros(len) && (len + 1 + z - 56) % 64 == 0
    ensures z == PadZeros(len)
  {}

  method StoreWords(h: Words8, out: array<byte>)
    requires out.Length >= 32
    modifies out
    ensures out[..32] == WordsBytes(h)
    ensures out[32..] == old(out[32..])
  {
    for i := 0 to 8
      invariant out[..4 * i] == WordsBytes(h[..i])
      invariant out[32..] == old(out[32..])
    {
      StoreWord(h[i], out, 4 * i);
      assert out[..4 * (i + 1)] == out[..4 * i] + out[4 * i..4 * i + 4];
      assert h[..i + 1][..i] == h[..i];
    }
    assert h[..8] == h;
  }

  method StoreWord(x: word, out: array<byte>, at: nat)
    requires at + 4 <= out.Length
    modifies out
    ensures out[at..at + 4] == BigEndian(x, 4)
    ensures out[..at] == old(out[..at]) && out[at + 4..] == old(out[at + 4..])
  {
    out[at] := x / 0x100_0000 % 256;
    out[at + 1] := x / 0x1_0000 % 256;
    out[at + 2] := x / 0x100 % 256;
    out[at + 3] := x % 256;
    FourByteForm(x);
    assert out[at..at + 4] == [out[at], out[at + 1], out[at + 2], out[at + 3]];
  }

  lemma FourByteForm(x: word)
    ensures BigEndian(x, 4) == [x / 0x100_0000 % 256, x / 0x1_0000 % 256, x / 0x100 % 256, x % 256]
  {
    var a, b, c := x / 256, x / 0x1_0000, x / 0x100_0000;
    assert a / 256 == b && b / 256 == c;
    calc {
      BigEndian(x, 4);
      BigEndian(a, 3) + [x % 256];
      BigEndian(b, 2) + [a % 256] + [x % 256];
      BigEndian(c, 1) + [b % 256] + [a % 256] + [x % 256];
      BigEndian(c / 256, 0) + [c % 256] + [b % 256] + [a % 256] + [x % 256];
    }
  }

  /** The eight length bytes, each cut out of the bit count by a shift. */
  method LengthBytes(bits: nat) returns (len: Bytes)
    requires bits < TWO64
    ensures len == BigEndian(bits, 8)
  {
    TopShift(bits);
    len := [];
    for i := 0 to 8
      invariant len == BigEndian(Shr(bits, 64 - i * 8), i)
    {
      var b := Shr(bits, 56 - i * 8) % 256;
      NextLengthByte(bits, 56 - i * 8, i);
      len := len + [b];
    }
    assert Shr(bits, 0) == bits;
  }

  lemma TopShift(bits: nat)
    requires bits < TWO64
    ensures Shr(bits, 64) == 0
  {
    Pow2Values();
    Pow2Add(32, 32);
    SmallQuotient(bits, Pow2(64));
  }

  lemma NextLengthByte(bits: nat, shift: nat, n: nat)
    ensures BigEndian(Shr(bits, shift), n + 1) == BigEndian(Shr(bits, shift + 8), n) + [Shr(bits, shift) % 256]
  {
    Pow2Values();
    ShrTwice(bits, shift, 8);
    BigEndianStep(Shr(bits, shift), n);
  }

  lemma SmallQuotient(x: nat, m: nat)
    requires x < m
    ensures x / m == 0
  {
    QuotientUnique(x, m, 0, x);
  }

  lemma BigEndianStep(x: nat, n: nat)
    ensures BigEndian(x, n + 1) == BigEndian(x / 256, n) + [x % 256]
  {}

  function Concat(chunks: seq<Bytes>): Bytes {
    if chunks == [] then [] else Concat(chunks[..|chunks| - 1]) + chunks[|chunks| - 1]
  }

  /** However the message is cut into chunks, the digest is SHA-256 of the whole. */
  method DigestChunks(chunks: seq<Bytes>) returns (out: Bytes)
    ensures out == Sha256(Concat(chunks))
  {
    var s := new Sha256State();
    for i := 0 to |chunks|
      invariant s.Valid() && fresh(s) && fresh(s.buf)
      invariant s.Data() == Concat(chunks[..i])
    {
      s.Update(chunks[i]);
      assert chunks[..i + 1][..i] == chunks[..i];
    }
    assert chunks[..|chunks|] == chunks;
    var o := new byte[32];
    s.Finish(o);
    out := o[..32];
  }

  function HmacTag(key: Bytes, msg: Bytes): (tag: Bytes)
    ensures |tag| == TAG_BYTES
  {
    Sha256Length(XorByte(HmacKey(key), 0x5c) + Sha256(XorByte(HmacKey(key), 0x36) + msg));
    Hmac(key, msg)[..TAG_BYTES]
  }

  method PrepareKey(key: Bytes) returns (k: array<byte>)
    ensures fresh(k) && k[..] == HmacKey(key)
  {
    k := new byte[64](_ => 0);
    if |key| > 64 {
      var s := new Sha256State();
      s.Update(key);
      assert [] + key == key;
      s.Finish(k);
      Sha256Length(key);
      assert k[..] == k[..32] + k[32..];
      assert k[32..] == Zeros(32);
    } else {
      forall i | 0 <= i < |key| { k[i] := key[i]; }
      assert k[..] == key + Zeros(64 - |key|);
    }
  }

  method XorPad(k: array<byte>, b: byte) returns (pad: array<byte>)
    ensures fresh(pad) && pad[..] == XorByte(k[..], b)
  {
    pad := new byte[k.Length];
    for i := 0 to k.Length
      invariant forall j :: 0 <= j < i ==> pad[j] == Xor8(k[j], b)
    {
      pad[i] := Xor8(k[i], b);
    }
  }

  method HashPair(first: Bytes, second: Bytes) returns (out: array<byte>)
    ensures fresh(out) && out.Length == 32 && out[..] == Sha256(first + second)
  {
    var s := new Sha256State();
    s.Update(first);
    s.Update(second);
    assert [] + first + second == first + second;
    out := new byte[32];
    s.Finish(out);
    assert out[..32] == out[..];
  }

  method ComputeTag(key: Bytes, msg: Bytes) returns (out: Bytes)
    ensures out == HmacTag(key, msg)
  {
    var k := PrepareKey(key);
    var ipad := XorPad(k, 0x36);
    var opad := XorPad(k, 0x5c);
    var ih := HashPair(ipad[..], msg);
    var oh := HashPair(opad[..], ih[..]);
    out := oh[..TAG_BYTES];
  }

  lemma OrAccumulates(d: byte, a: byte, b: byte)
    ensures Or8(d, Xor8(a, b)) == 0 <==> d == 0 && a == b
  {
    OrZeroIffBothZero(d, Xor8(a, b));
    XorZeroIffEqual(a, b);
  }

  /** Reads every byte whatever it finds, and still answers exactly equality. */
  method TagEquals(a: Bytes, b: Bytes) returns (same: bool)
    requires |a| == |b|
    ensures same <==> a == b
  {
    var diff: byte := 0;
    for i := 0 to |a|
      invariant diff == 0 <==> a[..i] == b[..i]
    {
      OrAccumulates(diff, a[i], b[i]);
      assert a[..i + 1] == a[..i] + [a[i]] && b[..i + 1] == b[..i] + [b[i]];
      diff := Or8(diff, Xor8(a[i], b[i]));
    }
    assert a[..|a|] == a && b[..|b|] == b;
    same := diff == 0;
  }

  /** What a client puts on the wire for a state: the bytes, and a tag when it has a key. */
  function Sign(key: Bytes, payload: Bytes): Bytes {
    if key == [] then payload else payload + HmacTag(key, payload)
  }

  /** The receiver's test of a datagram body and the tag behind it. */
  predicate Authentic(key: Bytes, bodyLen: nat, datagram: Bytes) {
    if key == [] then |datagram| == bodyLen
    else |datagram| == bodyLen + TAG_BYTES && datagram[bodyLen..] == HmacTag(key, datagram[..bodyLen])
  }

  /** A datagram passes the receiver exactly when it is what a client with that key sends for
      the body it carries. */
  lemma AuthenticIffSigned(key: Bytes, bodyLen: nat, datagram: Bytes)
    ensures Authentic(key, bodyLen, datagram) <==> |datagram| >= bodyLen && datagram == Sign(key, datagram[..bodyLen])
  {
    if |datagram| >= bodyLen {
      assert datagram == datagram[..bodyLen] + datagram[bodyLen..];
      if datagram == Sign(key, datagram[..bodyLen]) && key != [] {
        assert datagram[bodyLen..] == HmacTag(key, datagram[..bodyLen]);
      }
    }
  }
}
