/** SHA-1 as FIPS 180-4 defines it, on messages of whole bytes. */
module Fips180 {
  type byte = bv8
  type word = bv32

  datatype Chain = Chain(a: word, b: word, c: word, d: word, e: word)

  // Sections 4.1.1, 4.2.1 and 5.3.1.

  function Ch(x: word, y: word, z: word): word { (x & y) ^ (!x & z) }

  function Parity(x: word, y: word, z: word): word { x ^ y ^ z }

  function Maj(x: word, y: word, z: word): word { (x & y) ^ (x & z) ^ (y & z) }

  function F(t: nat, x: word, y: word, z: word): word {
    if t < 20 then Ch(x, y, z)
    else if t < 40 then Parity(x, y, z)
    else if t < 60 then Maj(x, y, z)
    else Parity(x, y, z)
  }

  function K(t: nat): word {
    if t < 20 then 0x5a827999
    else if t < 40 then 0x6ed9eba1
    else if t < 60 then 0x8f1bbcdc
    else 0xca62c1d6
  }

  const INITIAL := Chain(0x67452301, 0xefcdab89, 0x98badcfe, 0x10325476, 0xc3d2e1f0)

  // Section 6.1.2.

  /** Circular left shift, section 3.2. */
  function Rotl(n: nat, x: word): word
    requires n <= 32
  {
    (x << n) | (x >> (32 - n))
  }

  function Xor4(x: word, y: word, z: word, u: word): word { x ^ y ^ z ^ u }

  function Sum2(x: word, y: word): word { x + y }

  function Sum5(x: word, y: word, z: word, u: word, v: word): word { x + y + z + u + v }

  /** The message schedule. */
  function W(m: seq<word>, t: nat): word
    requires |m| == 16
  {
    if t < 16 then m[t] else Rotl(1, Xor4(W(m, t - 3), W(m, t - 8), W(m, t - 14), W(m, t - 16)))
  }

  function Round(v: Chain, f: word, k: word, w: word): Chain {
    Chain(Sum5(Rotl(5, v.a), f, v.e, k, w), v.a, Rotl(30, v.b), v.c, v.d)
  }

  /** The working variables after the first t rounds. */
  function Rounds(h: Chain, m: seq<word>, t: nat): Chain
    requires |m| == 16
  {
    if t == 0 then h
    else
      var v := Rounds(h, m, t - 1);
      Round(v, F(t - 1, v.b, v.c, v.d), K(t - 1), W(m, t - 1))
  }

  function Sum(h: Chain, v: Chain): Chain {
    Chain(Sum2(h.a, v.a), Sum2(h.b, v.b), Sum2(h.c, v.c), Sum2(h.d, v.d), Sum2(h.e, v.e))
  }

  function Compress(h: Chain, m: seq<word>): Chain
    requires |m| == 16
  {
    Sum(h, Rounds(h, m, 80))
  }

  // Big-endian words, section 3.1; parsing into blocks, section 5.2.1.

  function ToWord(b0: byte, b1: byte, b2: byte, b3: byte): word {
    ((b0 as word) << 24) | ((b1 as word) << 16) | ((b2 as word) << 8) | (b3 as word)
  }

  function FromWord(w: word): (b: seq<byte>)
    ensures |b| == 4
  {
    [((w >> 24) & 0xff) as byte, ((w >> 16) & 0xff) as byte, ((w >> 8) & 0xff) as byte, (w & 0xff) as byte]
  }

  function WordAt(b: seq<byte>, i: nat): word
    requires 4 * i + 4 <= |b|
  {
    ToWord(b[4 * i], b[4 * i + 1], b[4 * i + 2], b[4 * i + 3])
  }

  function Block(b: seq<byte>): (m: seq<word>)
    requires |b| == 64
    ensures |m| == 16
  {
    seq(16, i requires 0 <= i < 16 => WordAt(b, i))
  }

  /** The hash value after all blocks of b. */
  function Absorb(b: seq<byte>): Chain
    requires |b| % 64 == 0
  {
    if |b| == 0 then INITIAL
    else Compress(Absorb(b[..|b| - 64]), Block(b[|b| - 64..]))
  }

  // Padding, section 5.1.1.

  function Zeros(n: nat): (z: seq<byte>)
    ensures |z| == n
  {
    seq(n, _ => 0)
  }

  predicate LeavesEight(len: nat, zeros: nat) { (len + 1 + zeros) % 64 == 56 }

  /** The number of zero bytes: the least k with |m| + 1 + k congruent to 56 modulo 64. */
  function ZeroCount(len: nat): (k: nat)
    ensures LeavesEight(len, k)
    ensures forall j: nat :: LeavesEight(len, j) ==> k <= j
  {
    (55 - len) % 64
  }

  /** Padding that writes hi and lo as the two halves of the 64-bit length field. */
  function PadWith(m: seq<byte>, hi: word, lo: word): (p: seq<byte>)
    ensures |p| % 64 == 0
    ensures m <= p
  {
    m + [0x80] + Zeros(ZeroCount(|m|)) + FromWord(hi) + FromWord(lo)
  }

  function LengthHigh(len: nat): word { ((8 * len / 0x1_0000_0000) % 0x1_0000_0000) as word }

  function LengthLow(len: nat): word { (8 * len % 0x1_0000_0000) as word }

  /** The standard's padding; it is defined for messages shorter than 2^64 bits. */
  function Pad(m: seq<byte>): (p: seq<byte>)
    requires |m| < 0x2000_0000_0000_0000
    ensures |p| % 64 == 0
    ensures m <= p
  {
    PadWith(m, LengthHigh(|m|), LengthLow(|m|))
  }

  function Digest(h: Chain): (d: seq<byte>)
    ensures |d| == 20
  {
    FromWord(h.a) + FromWord(h.b) + FromWord(h.c) + FromWord(h.d) + FromWord(h.e)
  }

  function Sha1(m: seq<byte>): (d: seq<byte>)
    requires |m| < 0x2000_0000_0000_0000
    ensures |d| == 20
  {
    Digest(Absorb(Pad(m)))
  }
}

/** The packer's own SHA-1, working in place on a word buffer. */
module PackerSha1 {
  import opened Fips180

  /** The value a 32-bit unsigned variable keeps. */
  function Wrap(x: nat): nat { x % 0x1_0000_0000 }

  // From this length on, the 32-bit test `block + 64 <= len` wraps around and the block loop never ends.
  const TOO_LONG: int := 0xffff_ffc0

  function Sha1Shift(v: word, shift: nat): word
    requires shift <= 32
  {
    (v << shift) | (v >> (32 - shift))
  }

  lemma ShiftIsRotl(v: word, shift: nat)
    requires shift <= 32
    ensures Sha1Shift(v, shift) == Rotl(shift, v)
  {
  }

  function Choose(b: word, c: word, d: word): word { (b & c) | (!b & d) }

  function Majority(b: word, c: word, d: word): word { (b & c) | (b & d) | (c & d) }

  lemma ChooseIsCh(b: word, c: word, d: word)
    ensures Choose(b, c, d) == Ch(b, c, d)
  {
    assert ((b & c) | (!b & d)) == ((b & c) ^ (!b & d));
  }

  lemma MajorityIsMaj(b: word, c: word, d: word)
    ensures Majority(b, c, d) == Maj(b, c, d)
  {
    assert ((b & c) | (b & d) | (c & d)) == ((b & c) ^ (b & d) ^ (c & d));
  }

  function ChainOf(sha: seq<word>): Chain
    requires |sha| == 5
  {
    Chain(sha[0], sha[1], sha[2], sha[3], sha[4])
  }

  /** The word buffer after the message words and the first t - 16 scheduled words are in place. */
  ghost predicate Scheduled(temp: seq<word>, m: seq<word>, t: nat) {
    |temp| == 80 && |m| == 16 && t <= 80 && forall i :: 0 <= i < t ==> temp[i] == W(m, i)
  }

  /** Rounds past the sixteenth extend the schedule in the same buffer that holds the message. */
  method Extend(temp: array<word>, round: nat, ghost m: seq<word>)
    requires 16 <= round < 80
    requires temp.Length == 80 && Scheduled(temp[..], m, round)
    modifies temp
    ensures Scheduled(temp[..], m, round + 1)
  {
    assert temp[..][round - 3] == W(m, round - 3) && temp[..][round - 8] == W(m, round - 8);
    assert temp[..][round - 14] == W(m, round - 14) && temp[..][round - 16] == W(m, round - 16);
    var mixed := Xor4(temp[round - 3], temp[round - 8], temp[round - 14], temp[round - 16]);
    ShiftIsRotl(mixed, 1);
    temp[round] := Sha1Shift(mixed, 1);
  }

  method ShiftSwap(ghost h: Chain, ghost m: seq<word>, ghost t: nat, x: Chain, f: word, v: word, w: word)
    returns (y: Chain)
    requires |m| == 16 && x == Rounds(h, m, t)
    requires f == F(t, x.b, x.c, x.d) && v == K(t) && w == W(m, t)
    ensures y == Rounds(h, m, t + 1)
  {
    ShiftIsRotl(x.a, 5);
    ShiftIsRotl(x.b, 30);
    y := Chain(Sum5(Sha1Shift(x.a, 5), f, x.e, v, w), x.a, Sha1Shift(x.b, 30), x.c, x.d);
  }

  method ChooseRound(ghost h: Chain, ghost m: seq<word>, ghost t: nat, x: Chain, v: word, w: word) returns (y: Chain)
    requires |m| == 16 && t < 20 && v == K(t) && x == Rounds(h, m, t) && w == W(m, t)
    ensures y == Rounds(h, m, t + 1)
  {
    ChooseIsCh(x.b, x.c, x.d);
    y := ShiftSwap(h, m, t, x, Choose(x.b, x.c, x.d), v, w);
  }

  method ParityRound(ghost h: Chain, ghost m: seq<word>, ghost t: nat, x: Chain, v: word, w: word) returns (y: Chain)
    requires |m| == 16 && (20 <= t < 40 || 60 <= t) && v == K(t) && x == Rounds(h, m, t) && w == W(m, t)
    ensures y == Rounds(h, m, t + 1)
  {
    y := ShiftSwap(h, m, t, x, Parity(x.b, x.c, x.d), v, w);
  }

  method MajorityRound(ghost h: Chain, ghost m: seq<word>, ghost t: nat, x: Chain, v: word, w: word) returns (y: Chain)
    requires |m| == 16 && 40 <= t < 60 && v == K(t) && x == Rounds(h, m, t) && w == W(m, t)
    ensures y == Rounds(h, m, t + 1)
  {
    MajorityIsMaj(x.b, x.c, x.d);
    y := ShiftSwap(h, m, t, x, Majority(x.b, x.c, x.d), v, w);
  }

  method AddTo(sha: array<word>, v: Chain)
    requires sha.Length == 5
    modifies sha
    ensures ChainOf(sha[..]) == Sum(old(ChainOf(sha[..])), v)
  {
    sha[0] := Sum2(sha[0], v.a);
    sha[1] := Sum2(sha[1], v.b);
    sha[2] := Sum2(sha[2], v.c);
    sha[3] := Sum2(sha[3], v.d);
    sha[4] := Sum2(sha[4], v.e);
  }

  /** The five round loops; v holds the working variables a, b, c, d and e. */
  method RunRounds(h: Chain, temp: array<word>) returns (v: Chain)
    requires temp.Length == 80
    modifies temp
    ensures v == Rounds(h, old(temp[..16]), 80)
  {
    ghost var m := temp[..16];
    var round := 0;
    v := h;
    while round < 16
      invariant round <= 16 && Scheduled(temp[..], m, 16) && v == Rounds(h, m, round)
    {
      assert temp[..][round] == W(m, round);
      v := ChooseRound(h, m, round, v, 0x5a827999, temp[round]);
      round := round + 1;
    }
    while round < 20
      invariant 16 <= round <= 20 && Scheduled(temp[..], m, round) && v == Rounds(h, m, round)
    {
      Extend(temp, round, m);
      assert temp[..][round] == W(m, round);
      v := ChooseRound(h, m, round, v, 0x5a827999, temp[round]);
      round := round + 1;
    }
    while round < 40
      invariant 20 <= round <= 40 && Scheduled(temp[..], m, round) && v == Rounds(h, m, round)
    {
      Extend(temp, round, m);
      assert temp[..][round] == W(m, round);
      v := ParityRound(h, m, round, v, 0x6ed9eba1, temp[round]);
      round := round + 1;
    }
    while round < 60
      invariant 40 <= round <= 60 && Scheduled(temp[..], m, round) && v == Rounds(h, m, round)
    {
      Extend(temp, round, m);
      assert temp[..][round] == W(m, round);
      v := MajorityRound(h, m, round, v, 0x8f1bbcdc, temp[round]);
      round := round + 1;
    }
    while round < 80
      invariant 60 <= round <= 80 && Scheduled(temp[..], m, round) && v == Rounds(h, m, round)
    {
      Extend(temp, round, m);
      assert temp[..][round] == W(m, round);
      v := ParityRound(h, m, round, v, 0xca62c1d6, temp[round]);
      round := round + 1;
    }
  }

  method Sha1PartHash(sha: array<word>, temp: array<word>)
    requires sha.Length == 5 && temp.Length == 80 && sha != temp
    modifies sha, temp
    ensures ChainOf(sha[..]) == Compress(old(ChainOf(sha[..])), old(temp[..16]))
  {
    var v := RunRounds(Chain(sha[0], sha[1], sha[2], sha[3], sha[4]), temp);
    assert sha[..] == old(sha[..]);
    AddTo(sha, v);
  }

  // Bytes into words.

  function Load(b0: byte, b1: byte, b2: byte, b3: byte): word {
    (b3 as word) | ((b2 as word) << 8) | ((b1 as word) << 16) | ((b0 as word) << 24)
  }

  function Or(x: word, y: word): word { x | y }

  function Shifted(b: byte, last: nat): word {
    (b as word) << ((3 - last % 4) * 8)
  }

  lemma LoadIsToWord(b0: byte, b1: byte, b2: byte, b3: byte)
    ensures Load(b0, b1, b2, b3) == ToWord(b0, b1, b2, b3)
  {
  }

  lemma ShiftedLane(b: byte, last: nat)
    ensures last % 4 == 0 ==> Shifted(b, last) == ToWord(b, 0, 0, 0)
    ensures last % 4 == 1 ==> Shifted(b, last) == ToWord(0, b, 0, 0)
    ensures last % 4 == 2 ==> Shifted(b, last) == ToWord(0, 0, b, 0)
    ensures last % 4 == 3 ==> Shifted(b, last) == ToWord(0, 0, 0, b)
  {
    assert last % 4 == 0 || last % 4 == 1 || last % 4 == 2 || last % 4 == 3;
  }

  lemma OrLane0(b0: byte)
    ensures Or(ToWord(0, 0, 0, 0), ToWord(b0, 0, 0, 0)) == ToWord(b0, 0, 0, 0)
  {
  }

  lemma OrLane1(b0: byte, b1: byte)
    ensures Or(ToWord(b0, 0, 0, 0), ToWord(0, b1, 0, 0)) == ToWord(b0, b1, 0, 0)
  {
  }

  lemma OrLane2(b0: byte, b1: byte, b2: byte)
    ensures Or(ToWord(b0, b1, 0, 0), ToWord(0, 0, b2, 0)) == ToWord(b0, b1, b2, 0)
  {
  }

  lemma OrLane3(b0: byte, b1: byte, b2: byte, b3: byte)
    ensures Or(ToWord(b0, b1, b2, 0), ToWord(0, 0, 0, b3)) == ToWord(b0, b1, b2, b3)
  {
  }

  lemma WordRoundTrip(w: word)
    ensures FromWord(w) == [FromWord(w)[0], FromWord(w)[1], FromWord(w)[2], FromWord(w)[3]]
    ensures ToWord(FromWord(w)[0], FromWord(w)[1], FromWord(w)[2], FromWord(w)[3]) == w
    ensures ToWord(0, 0, 0, 0) == 0
    ensures FromWord(0) == Zeros(4)
  {
  }

  lemma PlaceInWord(p: seq<byte>, last: nat, x: byte)
    requires |p| == 64 && last < 64
    requires forall j :: last <= j < 64 ==> p[j] == 0
    ensures WordAt(p[last := x], last / 4) == Or(WordAt(p, last / 4), Shifted(x, last))
  {
    var i := last / 4;
    ShiftedLane(x, last);
    if last == 4 * i {
      OrLane0(x);
    } else if last == 4 * i + 1 {
      OrLane1(p[4 * i], x);
    } else if last == 4 * i + 2 {
      OrLane2(p[4 * i], p[4 * i + 1], x);
    } else {
      assert last == 4 * i + 3;
      OrLane3(p[4 * i], p[4 * i + 1], p[4 * i + 2], x);
    }
  }

  /** Writing byte `last` of a block whose bytes from `last` on are zero is one or into one word. */
  lemma PlaceByte(p: seq<byte>, last: nat, x: byte)
    requires |p| == 64 && last < 64
    requires forall j :: last <= j < 64 ==> p[j] == 0
    ensures Block(p[last := x]) == Block(p)[last / 4 := Or(Block(p)[last / 4], Shifted(x, last))]
  {
    PlaceInWord(p, last, x);
    var q, i := p[last := x], last / 4;
    assert Block(p)[i] == WordAt(p, i) && Block(q)[i] == WordAt(q, i);
    forall j | 0 <= j < 16 && j != i ensures Block(q)[j] == Block(p)[j] {
      assert Block(p)[j] == WordAt(p, j) && Block(q)[j] == WordAt(q, j);
    }
  }

  lemma ZeroBlock()
    ensures Block(Zeros(64)) == seq(16, _ => 0)
  {
    WordRoundTrip(0);
  }

  /** The length field: word 14 is already zero, word 15 takes the low half. */
  lemma PlaceLength(p: seq<byte>, lo: word)
    requires |p| == 60
    ensures Block(p + FromWord(lo)) == Block(p + Zeros(4))[15 := lo]
  {
    WordRoundTrip(lo);
    var q, z := p + FromWord(lo), p + Zeros(4);
    assert WordAt(q, 15) == lo;
    forall j | 0 <= j < 15 ensures WordAt(q, j) == WordAt(z, j) {
    }
  }

  lemma AbsorbBlock(b: seq<byte>, block: seq<byte>)
    requires |b| % 64 == 0 && |block| == 64
    ensures |b + block| % 64 == 0
    ensures Absorb(b + block) == Compress(Absorb(b), Block(block))
  {
    assert (b + block)[..|b + block| - 64] == b;
    assert (b + block)[|b + block| - 64..] == block;
  }

  lemma TailLength(len: nat, block: nat)
    requires block % 64 == 0 && block <= len < block + 64
    ensures ZeroCount(len) == if len - block < 56 then 55 - (len - block) else 119 - (len - block)
  {
  }

  /** A tail below 56 bytes: one more block holds it, the padding bit and the length. */
  lemma TailInOneBlock(m: seq<byte>, block: nat, lo: word) returns (front: seq<byte>)
    requires block % 64 == 0 && block <= |m| < block + 56
    ensures |front| == 60
    ensures m[block..] + [0x80] + Zeros(63 - (|m| - block)) == front + Zeros(4)
    ensures m[..block] + (front + FromWord(lo)) == PadWith(m, 0, lo)
  {
    TailLength(|m|, block);
    WordRoundTrip(0);
    front := m[block..] + [0x80] + Zeros(59 - (|m| - block));
    assert m == m[..block] + m[block..];
    assert Zeros(ZeroCount(|m|)) + Zeros(4) == Zeros(59 - (|m| - block));
  }

  /** A longer tail: the length goes into a second block of its own. */
  lemma TailInTwoBlocks(m: seq<byte>, block: nat, lo: word)
    requires block % 64 == 0 && block + 56 <= |m| < block + 64
    ensures var full := m[block..] + [0x80] + Zeros(63 - (|m| - block));
            |full| == 64 && (m[..block] + full) + (Zeros(60) + FromWord(lo)) == PadWith(m, 0, lo)
    ensures Zeros(64) == Zeros(60) + Zeros(4)
  {
    TailLength(|m|, block);
    WordRoundTrip(0);
    assert m == m[..block] + m[block..];
    assert Zeros(ZeroCount(|m|)) + Zeros(4) == Zeros(63 - (|m| - block)) + Zeros(60);
  }

  method LoadBlock(buf: array<byte>, start: nat, temp: array<word>)
    requires temp.Length == 80 && start + 64 <= buf.Length
    modifies temp
    ensures temp[..16] == Block(buf[start..start + 64])
  {
    ghost var bytes := buf[start..start + 64];
    var i, block := 0, start;
    while block < start + 64
      invariant 0 <= i <= 16 && block == start + 4 * i
      invariant forall j :: 0 <= j < i ==> temp[j] == WordAt(bytes, j)
    {
      LoadIsToWord(buf[block], buf[block + 1], buf[block + 2], buf[block + 3]);
      assert WordAt(bytes, i) == ToWord(buf[block], buf[block + 1], buf[block + 2], buf[block + 3]);
      temp[i] := Load(buf[block], buf[block + 1], buf[block + 2], buf[block + 3]);
      i := i + 1;
      block := block + 4;
    }
  }

  method ClearBlock(temp: array<word>)
    requires temp.Length == 80
    modifies temp
    ensures temp[..16] == Block(Zeros(64))
  {
    ZeroBlock();
    for i := 0 to 16
      invariant forall j :: 0 <= j < i ==> temp[j] == 0
    {
      temp[i] := 0;
    }
  }

  /** One step of the tail loop: byte `last` goes into its word by a shift and an or. */
  method OrByte(temp: array<word>, last: nat, x: byte, ghost p: seq<byte>)
    requires temp.Length == 80 && last < 64 && |p| == 64 && temp[..16] == Block(p)
    requires forall j :: last <= j < 64 ==> p[j] == 0
    modifies temp
    ensures temp[..16] == Block(p[last := x])
  {
    PlaceByte(p, last, x);
    assert temp[last / 4] == Block(p)[last / 4];
    temp[last / 4] := Or(temp[last / 4], Shifted(x, last));
  }

  method LoadTail(buf: array<byte>, block: nat, temp: array<word>)
    requires temp.Length == 80 && block <= buf.Length < block + 64
    modifies temp
    ensures temp[..16] == Block(buf[block..] + [0x80] + Zeros(63 - (buf.Length - block)))
  {
    var end := buf.Length - block;
    ClearBlock(temp);
    var last := 0;
    ghost var p := Zeros(64);
    while last < end
      invariant 0 <= last <= end && p == buf[block..block + last] + Zeros(64 - last)
      invariant temp[..16] == Block(p)
    {
      OrByte(temp, last, buf[last + block], p);
      p := p[last := buf[last + block]];
      last := last + 1;
    }
    OrByte(temp, last, 0x80, p);
    assert p[last := 0x80] == buf[block..] + [0x80] + Zeros(63 - end);
  }

  function Extract(w: word, shift: nat): byte
    requires shift <= 32
  {
    ((w >> shift) & 0xff) as byte
  }

  lemma DigestByte(w: word, i: nat)
    ensures Extract(w, (3 - i) % 4 * 8) == FromWord(w)[i % 4]
  {
    assert Extract(w, 24) == FromWord(w)[0];
    assert Extract(w, 16) == FromWord(w)[1];
    assert Extract(w, 8) == FromWord(w)[2];
    assert Extract(w, 0) == FromWord(w)[3];
    assert (3 - i) % 4 == 3 - i % 4;
    assert i % 4 == 0 || i % 4 == 1 || i % 4 == 2 || i % 4 == 3;
  }

  lemma FiveWords(p: seq<seq<byte>>, i: nat)
    requires |p| == 5 && i < 20 && forall j :: 0 <= j < 5 ==> |p[j]| == 4
    ensures (p[0] + p[1] + p[2] + p[3] + p[4])[i] == p[i / 4][i % 4]
  {
    assert i / 4 == 0 || i / 4 == 1 || i / 4 == 2 || i / 4 == 3 || i / 4 == 4;
  }

  lemma DigestAt(s: seq<word>, i: nat)
    requires |s| == 5 && i < 20
    ensures Digest(ChainOf(s))[i] == FromWord(s[i / 4])[i % 4]
  {
    FiveWords([FromWord(s[0]), FromWord(s[1]), FromWord(s[2]), FromWord(s[3]), FromWord(s[4])], i);
  }

  method WriteDigest(sha: array<word>, sha1To: array<byte>)
    requires sha.Length == 5 && 20 <= sha1To.Length
    modifies sha1To
    ensures sha1To[..20] == Digest(ChainOf(sha[..]))
    ensures sha1To[20..] == old(sha1To[20..])
  {
    ghost var d := Digest(ChainOf(sha[..]));
    var i := 19;
    while 0 <= i
      invariant -1 <= i <= 19
      invariant forall j :: i < j < 20 ==> sha1To[j] == d[j]
      invariant sha1To[20..] == old(sha1To[20..])
    {
      DigestByte(sha[i / 4], i);
      sha1To[i] := Extract(sha[i / 4], (3 - i) % 4 * 8);
      DigestAt(sha[..], i);
      i := i - 1;
    }
  }

  /** What hashSha1 hashes: the standard's padding, but with only the low half of the length field written. */
  function PadOf(m: seq<byte>): (p: seq<byte>)
    ensures |p| % 64 == 0
  {
    PadWith(m, 0, LengthLow(|m|))
  }

  lemma FromWordInjective(x: word, y: word)
    requires FromWord(x) == FromWord(y)
    ensures x == y
  {
    WordRoundTrip(x);
    WordRoundTrip(y);
  }

  lemma NonZeroWord(n: nat)
    requires n < 0x1_0000_0000
    ensures n as word == 0 ==> n == 0
  {
  }

  lemma HighHalf(len: nat)
    requires len < 0x2000_0000_0000_0000
    ensures LengthHigh(len) == 0 <==> len < 0x2000_0000
  {
    NonZeroWord(8 * len / 0x1_0000_0000 % 0x1_0000_0000);
  }

  lemma PadFields(m: seq<byte>, hi: word, hi': word, lo: word)
    ensures PadWith(m, hi, lo) == PadWith(m, hi', lo) <==> hi == hi'
  {
    var k := |m| + 1 + ZeroCount(|m|);
    if PadWith(m, hi, lo) == PadWith(m, hi', lo) {
      assert PadWith(m, hi, lo)[k..k + 4] == FromWord(hi);
      assert PadWith(m, hi', lo)[k..k + 4] == FromWord(hi');
      FromWordInjective(hi, hi');
    }
  }

  /** The two paddings agree exactly when the bit length fits 32 bits. */
  lemma PadOfIsPad(m: seq<byte>)
    requires |m| < 0x2000_0000_0000_0000
    ensures PadOf(m) == Pad(m) <==> |m| < 0x2000_0000
  {
    HighHalf(|m|);
    PadFields(m, 0, LengthHigh(|m|), LengthLow(|m|));
  }

  /** The final block: the length field goes over four zero bytes. */
  method HashLast(len: nat, sha: array<word>, temp: array<word>, ghost done: seq<byte>, ghost front: seq<byte>)
    requires sha.Length == 5 && temp.Length == 80 && sha != temp
    requires |done| % 64 == 0 && |front| == 60
    requires ChainOf(sha[..]) == Absorb(done) && temp[..16] == Block(front + Zeros(4))
    modifies sha, temp
    ensures ChainOf(sha[..]) == Absorb(done + (front + FromWord(LengthLow(len))))
  {
    temp[15] := LengthLow(len);
    PlaceLength(front, LengthLow(len));
    AbsorbBlock(done, front + FromWord(LengthLow(len)));
    Sha1PartHash(sha, temp);
  }

  /** The tail of the message, with the padding bit, in one or two more blocks. */
  method HashTail(data: array<byte>, block: nat, sha: array<word>, temp: array<word>)
    requires sha.Length == 5 && temp.Length == 80 && sha != temp
    requires block % 64 == 0 && block <= data.Length < block + 64
    requires ChainOf(sha[..]) == Absorb(data[..block])
    modifies sha, temp
    ensures ChainOf(sha[..]) == Absorb(PadOf(data[..]))
  {
    ghost var m, lo := data[..], LengthLow(data.Length);
    assert m[..block] == data[..block] && m[block..] == data[block..];
    LoadTail(data, block, temp);
    if data.Length - block >= 56 {
      ghost var full := m[block..] + [0x80] + Zeros(63 - (|m| - block));
      TailInTwoBlocks(m, block, lo);
      AbsorbBlock(m[..block], full);
      Sha1PartHash(sha, temp);
      ClearBlock(temp);
      HashLast(data.Length, sha, temp, m[..block] + full, Zeros(60));
    } else {
      ghost var front := TailInOneBlock(m, block, lo);
      HashLast(data.Length, sha, temp, m[..block], front);
    }
  }

  lemma NextBlock(block: nat, len: nat)
    requires block % 64 == 0 && block <= len < TOO_LONG
    ensures Wrap(block + 64) == block + 64 == NextOf(block) && (block + 64) % 64 == 0
  {
  }

  /** Where one round of the block loop leaves `block`: at the 32-bit end, unless that is behind. */
  function NextOf(block: nat): nat {
    if block < Wrap(block + 64) then Wrap(block + 64) else block
  }

  function BlockAfter(rounds: nat): nat {
    if rounds == 0 then 0 else NextOf(BlockAfter(rounds - 1))
  }

  lemma {:induction false} BlockAfterIs(rounds: nat)
    ensures BlockAfter(rounds) == if 64 * rounds <= TOO_LONG then 64 * rounds else TOO_LONG
    ensures BlockAfter(rounds) % 64 == 0 && BlockAfter(rounds) <= TOO_LONG
  {
    if rounds > 0 {
      BlockAfterIs(rounds - 1);
    }
  }

  /** From there on every round finds the same block again, and nothing in it to load. */
  lemma StuckBlock(rounds: nat, len: nat)
    requires TOO_LONG <= len < 0x1_0000_0000
    ensures Wrap(BlockAfter(rounds) + 64) <= len
    ensures 64 * rounds >= TOO_LONG ==> BlockAfter(rounds) == TOO_LONG == NextOf(TOO_LONG)
  {
    BlockAfterIs(rounds);
    TestHolds(BlockAfter(rounds), len);
    assert Wrap(TOO_LONG + 64) == 0;
  }

  lemma TestHolds(block: nat, len: nat)
    requires block % 64 == 0 && block <= TOO_LONG <= len
    ensures Wrap(block + 64) <= len
  {
    assert block < TOO_LONG ==> block + 64 <= TOO_LONG;
  }

  lemma LastBlock(rounds: nat, len: nat)
    requires len < TOO_LONG && rounds == len / 64
    ensures Wrap(BlockAfter(rounds) + 64) > len
  {
    BlockAfterIs(rounds);
    assert len == 64 * rounds + len % 64;
  }

  /** The loop's test fails after some number of rounds if and only if the input is short enough. */
  lemma LoopEnds(len: nat)
    requires len < 0x1_0000_0000
    ensures (exists rounds :: Wrap(BlockAfter(rounds) + 64) > len) <==> len < TOO_LONG
  {
    if len < TOO_LONG {
      var rounds := len / 64;
      LastBlock(rounds, len);
    } else {
      forall rounds: nat ensures Wrap(BlockAfter(rounds) + 64) <= len {
        StuckBlock(rounds, len);
      }
    }
  }

  /** The block loop: it stops at the first block that is not whole. */
  method HashBlocks(data: array<byte>, sha: array<word>, temp: array<word>) returns (block: nat)
    requires data.Length < TOO_LONG
    requires sha.Length == 5 && temp.Length == 80 && sha != temp && ChainOf(sha[..]) == INITIAL
    modifies sha, temp
    ensures block % 64 == 0 && block <= data.Length < block + 64
    ensures ChainOf(sha[..]) == Absorb(data[..block])
  {
    var len := data.Length;
    block := 0;
    NextBlock(block, len);
    while Wrap(block + 64) <= len
      invariant block <= len && block % 64 == 0 && Wrap(block + 64) == block + 64
      invariant ChainOf(sha[..]) == Absorb(data[..block])
      decreases len - block
    {
      ghost var done, here := data[..block], data[block..block + 64];
      LoadBlock(data, block, temp);
      AbsorbBlock(done, here);
      assert done + here == data[..block + 64];
      Sha1PartHash(sha, temp);
      NextBlock(block, len);
      block := block + 64;
      NextBlock(block, len);
    }
  }

  method HashSha1(data: array<byte>, dest: array<byte>)
    requires data.Length < TOO_LONG
    requires 20 <= dest.Length
    modifies dest
    ensures dest[..20] == Digest(Absorb(PadOf(old(data[..]))))
    ensures data.Length < 0x2000_0000 ==> dest[..20] == Sha1(old(data[..]))
    ensures dest[20..] == old(dest[20..])
  {
    var temp := new word[80];
    var sha := new word[5] [0x67452301, 0xefcdab89, 0x98badcfe, 0x10325476, 0xc3d2e1f0];
    var block := HashBlocks(data, sha, temp);
    HashTail(data, block, sha, temp);
    PadOfIsPad(data[..]);
    WriteDigest(sha, dest);
  }
}
