/**
 SHA-1 of asgard/lib/structures/sha-1.c: the padding of section 4 of RFC 3174, and the
 compression loop, which keeps a circular schedule of 16 words where section 6.1 has 80.
 */
module Sha1 {
  import opened Arithmetic

  type Word = bv32
  type Byte = bv8

  // ------------------------------------------------------------ RFC 3174, 3, 5, 6.1

  /** S^n(X), a circular left shift. */
  function S(n: bv6, x: Word): Word
    requires 0 < n < 32
  {
    (x << n) | (x >> (32 - n))
  }

  function F(t: nat, b: Word, c: Word, d: Word): Word
  {
    if t <= 19 then (b & c) | (!b & d)
    else if t <= 39 then b ^ c ^ d
    else if t <= 59 then (b & c) | (b & d) | (c & d)
    else b ^ c ^ d
  }

  function K(t: nat): Word
  {
    if t <= 19 then 0x5A827999 else if t <= 39 then 0x6ED9EBA1 else if t <= 59 then 0x8F1BBCDC else 0xCA62C1D6
  }

  /** Below step 20 the result has the bits of `c` where `b` has ones, and those of `d` elsewhere. */
  lemma FChooses(t: nat, b: Word, c: Word, d: Word)
    requires t <= 19
    ensures F(t, b, c, d) & b == c & b && F(t, b, c, d) & !b == d & !b
  {
  }

  /** From 40 to 59 it has the bits that any two of them share. */
  lemma FVotes(t: nat, b: Word, c: Word, d: Word)
    requires 40 <= t <= 59
    ensures F(t, b, c, d) & !(b ^ c) == b & !(b ^ c)
    ensures F(t, b, c, d) & !(b ^ d) == d & !(b ^ d)
    ensures F(t, b, c, d) & !(c ^ d) == c & !(c ^ d)
  {
    hide F;
    VoteBC(t, b, c, d);
    VoteBD(t, b, c, d);
    VoteCD(t, b, c, d);
  }

  lemma VoteBC(t: nat, b: Word, c: Word, d: Word)
    requires 40 <= t <= 59
    ensures F(t, b, c, d) & !(b ^ c) == b & !(b ^ c)
  {
  }

  lemma VoteBD(t: nat, b: Word, c: Word, d: Word)
    requires 40 <= t <= 59
    ensures F(t, b, c, d) & !(b ^ d) == d & !(b ^ d)
  {
  }

  lemma VoteCD(t: nat, b: Word, c: Word, d: Word)
    requires 40 <= t <= 59
    ensures F(t, b, c, d) & !(c ^ d) == c & !(c ^ d)
  {
  }

  /** In the other steps it makes the number of ones in each place even. */
  lemma FParity(t: nat, b: Word, c: Word, d: Word)
    requires 20 <= t <= 39 || t >= 60
    ensures F(t, b, c, d) ^ b ^ c ^ d == 0
  {
  }

  function Square(x: Word): bv64 { (x as bv64) * (x as bv64) }

  /** The constants are the square roots of 2, 3, 5 and 10, times 2^30, rounded down. */
  lemma KIsRoot(t: nat)
    ensures var n: bv64 := if t <= 19 then 2 else if t <= 39 then 3 else if t <= 59 then 5 else 10;
      Square(K(t)) <= n << 60 < Square(K(t) + 1)
  {
  }

  /** A rotation multiplies, and adds what leaves the word at the top; rotating on by the rest of 32 undoes it. */
  lemma Rotates(x: Word)
    ensures S(1, x) == x * 2 + x / 0x8000_0000 && S(31, S(1, x)) == x
    ensures S(5, x) == x * 32 + x / 0x800_0000 && S(27, S(5, x)) == x
    ensures S(30, x) == x * 0x4000_0000 + x / 4 && S(2, S(30, x)) == x
  {
    RotatesOne(x);
    RotatesFive(x);
    RotatesThirty(x);
  }

  lemma RotatesOne(x: Word)
    ensures S(1, x) == x * 2 + x / 0x8000_0000 && S(31, S(1, x)) == x
  {
  }

  lemma RotatesFive(x: Word)
    ensures S(5, x) == x * 32 + x / 0x800_0000 && S(27, S(5, x)) == x
  {
  }

  lemma RotatesThirty(x: Word)
    ensures S(30, x) == x * 0x4000_0000 + x / 4 && S(2, S(30, x)) == x
  {
  }

  /** Addition modulo 2^32 of the five terms of step d, and of the schedule words of step b. */
  function Sum(a: Word, b: Word, c: Word, d: Word, e: Word): Word { a + b + c + d + e }
  function Plus(a: Word, b: Word): Word { a + b }
  function Xor(a: Word, b: Word, c: Word, d: Word): Word { a ^ b ^ c ^ d }

  datatype Regs = Regs(a: Word, b: Word, c: Word, d: Word, e: Word)

  const H0 := Regs(0x67452301, 0xEFCDAB89, 0x98BADCFE, 0x10325476, 0xC3D2E1F0)

  function Add(x: Regs, y: Regs): Regs
  {
    Regs(Plus(x.a, y.a), Plus(x.b, y.b), Plus(x.c, y.c), Plus(x.d, y.d), Plus(x.e, y.e))
  }

  /** W(t), all eighty of them. */
  function Schedule(block: seq<Word>, t: nat): Word
    requires |block| == 16
  {
    if t < 16 then block[t]
    else S(1, Xor(Schedule(block, t - 3), Schedule(block, t - 8), Schedule(block, t - 14), Schedule(block, t - 16)))
  }

  /** Step d for one t, with the schedule word `w`. */
  function Round(r: Regs, t: nat, w: Word): Regs
  {
    Regs(Sum(S(5, r.a), F(t, r.b, r.c, r.d), r.e, w, K(t)), r.a, S(30, r.b), r.c, r.d)
  }

  function Rounds(block: seq<Word>, h: Regs, t: nat): Regs
    requires |block| == 16
  {
    if t == 0 then h else Round(Rounds(block, h, t - 1), t - 1, Schedule(block, t - 1))
  }

  /** The five words after `n` blocks of the message `m`. */
  function Hash(m: seq<Word>, n: nat): Regs
    requires 16 * n <= |m|
  {
    if n == 0 then H0
    else var h := Hash(m, n - 1); Add(h, Rounds(m[16 * (n - 1)..16 * n], h, 80))
  }

  /** Each block is worked on once, in its place: after a message of whole blocks, one more block goes through the
      eighty steps from the hash of the message. */
  lemma BlocksChain(m: seq<Word>, block: seq<Word>, n: nat)
    requires |m| == 16 * n && |block| == 16
    ensures Hash(m + block, n + 1) == Add(Hash(m, n), Rounds(block, Hash(m, n), 80))
  {
    hide Add, Rounds, Hash;
    HashPrefix(m, block, n);
    assert (m + block)[16 * n..16 * (n + 1)] == block;
    HashStep(m + block, n + 1);
  }

  lemma HashStep(m: seq<Word>, n: nat)
    requires 0 < n && 16 * n <= |m|
    ensures Hash(m, n) == Add(Hash(m, n - 1), Rounds(m[16 * (n - 1)..16 * n], Hash(m, n - 1), 80))
  {
  }

  lemma {:induction false} HashPrefix(m: seq<Word>, rest: seq<Word>, n: nat)
    requires 16 * n <= |m|
    ensures Hash(m + rest, n) == Hash(m, n)
  {
    hide Add, Rounds;
    if n > 0 {
      HashPrefix(m, rest, n - 1);
      assert (m + rest)[16 * (n - 1)..16 * n] == m[16 * (n - 1)..16 * n];
    }
  }

  // --------------------------------------------------------------- compute_hash

  /** The place of schedule word `k` in the circular buffer: `k & MASK`. */
  function Slot(k: nat): (s: nat)
    ensures s < 16
  {
    k % 16
  }

  lemma SlotOf(q: nat, r: nat)
    requires r < 16
    ensures Slot(16 * q + r) == r
  {
  }

  /** Going back `d` words is going round by `16 - d` slots. */
  lemma SlotBack(t: nat, d: nat)
    requires d <= 16 <= t
    ensures Slot(t - d) == Slot(Slot(t) + 16 - d) && Slot(t) < 16
  {
    var q, s := t / 16, t % 16;
    if s >= d {
      SlotOf(q, s - d);
      SlotOf(1, s - d);
    } else {
      SlotOf(q - 1, s + 16 - d);
      SlotOf(0, s + 16 - d);
    }
  }

  lemma SlotsDiffer(k: nat, t: nat)
    requires k < t < k + 16
    ensures Slot(k) != Slot(t)
  {
  }

  /** `w` holds the sixteen schedule words from `t` on, each in its slot. */
  ghost predicate Circular(w: seq<Word>, block: seq<Word>, t: nat)
    requires |w| == 16 && |block| == 16
  {
    forall k: nat {:trigger Slot(k)} :: t <= k < t + 16 ==> w[Slot(k)] == Schedule(block, k)
  }

  /** The next word from the circular buffer, line 202. */
  function NextWord(w: seq<Word>, s: nat): Word
    requires |w| == 16
  {
    S(1, Xor(w[Slot(s + 13)], w[Slot(s + 8)], w[Slot(s + 2)], w[Slot(s)]))
  }

  lemma ScheduleStep(block: seq<Word>, t: nat)
    requires |block| == 16 && t >= 16
    ensures Schedule(block, t) ==
      S(1, Xor(Schedule(block, t - 3), Schedule(block, t - 8), Schedule(block, t - 14), Schedule(block, t - 16)))
  {
    hide S, Xor;
  }

  lemma ReadBack(w: seq<Word>, block: seq<Word>, t: nat, d: nat, k: nat, j: nat)
    requires |w| == 16 && |block| == 16 && 0 < d <= 16 <= t && Circular(w, block, t - 16)
    requires k == Slot(t) + 16 - d && j == t - d
    ensures w[Slot(k)] == Schedule(block, j)
  {
    hide Slot, Schedule;
    SlotBack(t, d);
  }

  /** It is the word section 6.1 asks for. */
  lemma NextWordIs(w: seq<Word>, block: seq<Word>, t: nat)
    requires |w| == 16 && |block| == 16 && t >= 16 && Circular(w, block, t - 16)
    ensures NextWord(w, Slot(t)) == Schedule(block, t)
  {
    hide S, Xor, Slot, Schedule, Circular;
    var s := Slot(t);
    ScheduleStep(block, t);
    ReadBack(w, block, t, 3, s + 13, t - 3);
    ReadBack(w, block, t, 8, s + 8, t - 8);
    ReadBack(w, block, t, 14, s + 2, t - 14);
    ReadBack(w, block, t, 16, s, t - 16);
  }

  /** Overwriting the oldest word with the newest keeps the last sixteen. */
  lemma CircularStep(w: seq<Word>, block: seq<Word>, t: nat)
    requires |w| == 16 && |block| == 16 && t >= 16 && Circular(w, block, t - 16)
    ensures Circular(w[Slot(t) := Schedule(block, t)], block, t - 15)
  {
    hide Schedule, Slot;
    var w' := w[Slot(t) := Schedule(block, t)];
    forall k: nat {:trigger Slot(k)} | t - 15 <= k < t - 15 + 16 ensures w'[Slot(k)] == Schedule(block, k) {
      if k < t {
        SlotsDiffer(k, t);
        assert w[Slot(k)] == Schedule(block, k);
      } else {
        assert k == t;
      }
    }
  }

  /** Sixteen words copied in are the first sixteen of the schedule. */
  lemma CircularStart(w: seq<Word>)
    requires |w| == 16
    ensures Circular(w, w, 0)
  {
    forall k: nat {:trigger Slot(k)} | 0 <= k < 16 ensures w[Slot(k)] == Schedule(w, k) {
    }
  }

  /** The word used in step `t`, as lines 200-204 read it. */
  lemma WordAt(w: seq<Word>, block: seq<Word>, t: nat)
    requires |w| == 16 && |block| == 16
    requires Circular(w, block, if t < 16 then 0 else t - 15)
    ensures Slot(t) < 16 && w[Slot(t)] == Schedule(block, t)
  {
    hide Schedule;
  }

  /** The loops of lines 193-211 for block `i`. */
  method ProcessBlock(padded: array<Word>, i: nat, h: Regs) returns (r: Regs)
    requires 16 * (i + 1) <= padded.Length
    ensures r == Rounds(padded[16 * i..16 * (i + 1)], h, 80)
  {
    hide S, F, K, Sum, Slot, Schedule, NextWord;
    ghost var block := padded[16 * i..16 * (i + 1)];
    var w := new Word[16];
    for s := 0 to 16
      invariant w[..s] == block[..s]
    {
      w[s] := padded[s + 16 * i];
    }
    CircularStart(block);
    assert w[..] == block;
    r := h;
    for t := 0 to 80
      invariant r == Rounds(block, h, t)
      invariant Circular(w[..], block, if t < 16 then 0 else t - 16)
    {
      var s := Slot(t);
      if t >= 16 {
        NextWordIs(w[..], block, t);
        CircularStep(w[..], block, t);
        w[s] := NextWord(w[..], s);
      }
      WordAt(w[..], block, t);
      var temp := Sum(S(5, r.a), F(t, r.b, r.c, r.d), r.e, w[s], K(t));
      r := Regs(temp, r.a, S(30, r.b), r.c, r.d);
    }
  }

  /** `compute_hash`: `length` is in bytes. */
  method ComputeHash(padded: array<Word>, length: nat, H: array<Word>)
    requires padded != H
    requires 4 * padded.Length >= length / 64 * 64 && H.Length == 5
    modifies H
    ensures Regs(H[0], H[1], H[2], H[3], H[4]) == Hash(padded[..], length / 64)
  {
    hide Rounds, Plus;
    var n := length / 64;
    H[0], H[1], H[2], H[3], H[4] := 0x67452301, 0xEFCDAB89, 0x98BADCFE, 0x10325476, 0xC3D2E1F0;
    for i := 0 to n
      invariant Regs(H[0], H[1], H[2], H[3], H[4]) == Hash(padded[..], i)
    {
      var r := ProcessBlock(padded, i, Regs(H[0], H[1], H[2], H[3], H[4]));
      assert padded[..][16 * i..16 * (i + 1)] == padded[16 * i..16 * (i + 1)];
      H[0] := Plus(H[0], r.a);
      H[1] := Plus(H[1], r.b);
      H[2] := Plus(H[2], r.c);
      H[3] := Plus(H[3], r.d);
      H[4] := Plus(H[4], r.e);
    }
  }

  // ------------------------------------------------------------- RFC 3174, 4

  function BigEndianWord(b0: Byte, b1: Byte, b2: Byte, b3: Byte): Word
  {
    (b0 as Word << 24) | (b1 as Word << 16) | (b2 as Word << 8) | (b3 as Word)
  }

  function BigEndian(bytes: seq<Byte>): (w: seq<Word>)
    requires |bytes| % 4 == 0
    ensures |w| == |bytes| / 4
  {
    if bytes == [] then []
    else [BigEndianWord(bytes[0], bytes[1], bytes[2], bytes[3])] + BigEndian(bytes[4..])
  }

  /** Zero bytes after the marker, so that 8 bytes are left in the last block. */
  function PadZeros(length: nat): nat { (119 - length % 64) % 64 }

  lemma PadZerosIs(length: nat)
    ensures PadZeros(length) == if length % 64 <= 55 then 55 - length % 64 else 119 - length % 64
  {
  }

  lemma PadFour(length: nat)
    ensures (length + 1 + PadZeros(length)) % 4 == 0
  {
    PadZerosIs(length);
    hide PadZeros;
    var p, r := length / 64, length % 64;
    assert length == 64 * p + r;
    FourTimes(length + 1 + PadZeros(length), if r <= 55 then 16 * p + 14 else 16 * p + 30);
  }

  /** The message, the marker and zeros. */
  function PadBody(msg: seq<Byte>): (body: seq<Byte>)
    ensures |body| % 4 == 0
  {
    PadFour(|msg|);
    msg + [0x80] + Zeros(PadZeros(|msg|))
  }

  /** All that, and the two words of the length in bits. */
  function Pad(msg: seq<Byte>): seq<Word>
  {
    BigEndian(PadBody(msg)) + [HighWord(8 * |msg|), LowWord(8 * |msg|)]
  }

  function HighWord(n: nat): Word { (n / 0x1_0000_0000 % 0x1_0000_0000) as Word }
  function LowWord(n: nat): Word { (n % 0x1_0000_0000) as Word }

  lemma HighWordZero(n: nat)
    requires n < 0x1_0000_0000
    ensures HighWord(n) == 0
  {
    assert n / 0x1_0000_0000 == 0;
  }

  lemma LowWordIs(n: nat)
    requires n < 0x1_0000_0000
    ensures LowWord(n) == n as Word
  {
    assert n % 0x1_0000_0000 == n;
  }

  function Zeros(n: nat): (z: seq<Byte>)
    ensures |z| == n
  {
    seq(n, i => 0)
  }

  // ------------------------------------------------------------------- padding

  /** Line 83 in 32-bit arithmetic: the bits of the message, the marker and the length. */
  function SizeBits(length: nat): nat { (64 + 8 * length % 0x1_0000_0000 + 1) % 0x1_0000_0000 }

  /** Lines 84-91 in 32-bit arithmetic; `size & 0xDFF` is bits 0 to 8, 10 and 11. */
  function RoundSize(size: nat): nat
  {
    var rem := size % 512 + size / 1024 % 4 * 1024;
    (size - size % 512 + if rem == 0 then 0 else 512) % 0x1_0000_0000 / 8
  }

  function PaddedSize(length: nat): nat { RoundSize(SizeBits(length)) }

  /** `size` is the least number of whole blocks that holds the message, the marker and the length. */
  predicate LeastPadding(length: nat, size: nat) { size % 64 == 0 && length + 9 <= size < length + 9 + 64 }

  /** The remainder is never 0: the marker is a single bit. */
  lemma SizeBitsOdd(length: nat)
    ensures SizeBits(length) % 2 == 1
  {
    var k, m := 8 * length / 0x1_0000_0000, 8 * length % 0x1_0000_0000;
    assert m == 2 * (4 * length - 0x8000_0000 * k);
    OddIs(SizeBits(length), 4 * length - 0x8000_0000 * k + if 65 + m < 0x1_0000_0000 then 32 else 32 - 0x8000_0000);
  }

  lemma OddIs(x: int, k: int)
    requires x == 2 * k + 1
    ensures x % 2 == 1
  {
  }

  lemma RoundOdd(size: nat)
    requires size % 2 == 1 && size < 0x1_0000_0000
    ensures RoundSize(size) <= 0x2000_0000 - 64
    ensures size < 0x1_0000_0000 - 512 ==> RoundSize(size) == 64 * (size / 512 + 1)
    ensures size >= 0x1_0000_0000 - 512 ==> RoundSize(size) == 0
  {
    var q := size / 512;
    assert size == 512 * q + size % 512;
    assert size - size % 512 + 512 == 512 * (q + 1);
  }

  /** The size is right exactly up to 2^29 - 73 bytes. From there on, still below the 2^32 - 1 bits the
      original allows for, the rounded size wraps to 0 and then the sum before it does. */
  lemma PaddedSizeExact(length: nat)
    requires length < 0x1_0000_0000
    ensures LeastPadding(length, PaddedSize(length)) <==> length < 0x1FFF_FFB8
  {
    hide RoundSize, SizeBits;
    SizeBitsOdd(length);
    SizeBitsSmall(length);
    RoundOdd(SizeBits(length));
    if length < 0x1FFF_FFB8 { BlocksNeeded(length, (8 * length + 65) / 512); }
  }

  lemma SizeBitsSmall(length: nat)
    ensures SizeBits(length) < 0x1_0000_0000
    ensures length < 0x1FFF_FFF8 ==> SizeBits(length) == 8 * length + 65
  {
  }

  lemma BlocksNeeded(length: nat, q: nat)
    requires q == (8 * length + 65) / 512
    ensures LeastPadding(length, 64 * (q + 1))
  {
  }

  lemma PaddedSizeWraps()
    ensures 8 * 0x1FFF_FFB8 < 0x1_0000_0000 && PaddedSize(0x1FFF_FFB8) == 0
  {
    hide RoundSize;
    assert SizeBits(0x1FFF_FFB8) == 0x1_0000_0000 - 511;
    RoundOdd(0x1_0000_0000 - 511);
  }

  /** A word as a little-endian machine reads it from four bytes. */
  function LittleEndianWord(b0: Byte, b1: Byte, b2: Byte, b3: Byte): Word
  {
    (b3 as Word << 24) | (b2 as Word << 16) | (b1 as Word << 8) | (b0 as Word)
  }

  /** Lines 29-32. */
  function Reverse(value: Word): Word
  {
    var v := ((value & 0xFF00FF00) >> 8) | ((value & 0x00FF00FF) << 8);
    (v << 16) | (v >> 16)
  }

  /** Reversing turns what a little-endian machine reads into what the standard means. */
  lemma ReverseMakesBigEndian(b0: Byte, b1: Byte, b2: Byte, b3: Byte)
    ensures Reverse(LittleEndianWord(b0, b1, b2, b3)) == BigEndianWord(b0, b1, b2, b3)
  {
  }

  /** `longReverse`. */
  method LongReverse(buffer: array<Word>, byteCount: nat)
    requires byteCount / 4 <= buffer.Length
    modifies buffer
    ensures forall i :: 0 <= i < byteCount / 4 ==> buffer[i] == Reverse(old(buffer[i]))
    ensures forall i :: byteCount / 4 <= i < buffer.Length ==> buffer[i] == old(buffer[i])
  {
    hide Reverse;
    for k := 0 to byteCount / 4
      invariant forall i :: 0 <= i < k ==> buffer[i] == Reverse(old(buffer[i]))
      invariant forall i :: k <= i < buffer.Length ==> buffer[i] == old(buffer[i])
    {
      buffer[k] := Reverse(buffer[k]);
    }
  }

  lemma {:induction false} BigEndianAt(bytes: seq<Byte>, k: nat)
    requires |bytes| % 4 == 0 && k < |bytes| / 4
    ensures BigEndian(bytes)[k] == BigEndianWord(bytes[4 * k], bytes[4 * k + 1], bytes[4 * k + 2], bytes[4 * k + 3])
  {
    hide BigEndianWord;
    if k > 0 { BigEndianAt(bytes[4..], k - 1); }
  }

  /** The bytes before the length words, with the size the original computes. */
  lemma PadLength(length: nat)
    requires length < 0x1FFF_FFB8
    ensures var size := PaddedSize(length);
      size % 64 == 0 && length + 1 + PadZeros(length) == size - 8 && (size - 8) % 4 == 0
  {
    PaddedSizeExact(length);
    hide PaddedSize, PadZeros;
    PadZerosIs(length);
    var q, p, r := PaddedSize(length) / 64, length / 64, length % 64;
    assert length == 64 * p + r && PaddedSize(length) == 64 * q;
    assert q == if r <= 55 then p + 1 else p + 2;
    FourTimes(PaddedSize(length) - 8, 16 * q - 2);
  }

  lemma BodyIs(str: seq<Byte>, size: nat, z: nat)
    requires |str| + 1 + z == size - 8
    ensures (str + [0x80] + Zeros(size - |str| - 1))[..size - 8] == str + [0x80] + Zeros(z)
  {
  }

  /** Lines 93-112: the message, the marker and zeros, as bytes. */
  method FillBytes(str: seq<Byte>, size: nat) returns (ret: array<Byte>)
    requires |str| < size
    ensures fresh(ret) && ret[..] == str + [0x80] + Zeros(size - |str| - 1)
  {
    ret := new Byte[size];
    for i := 0 to |str|
      invariant forall k :: 0 <= k < i ==> ret[k] == str[k]
    {
      ret[i] := str[i];
    }
    for i := |str| to size
      invariant forall k :: 0 <= k < |str| ==> ret[k] == str[k]
      invariant forall k :: |str| <= k < i ==> ret[k] == 0
    {
      ret[i] := 0;
    }
    ret[|str|] := (ret[|str|] & 0x7F) | 0x80;
  }

  /** All but the last two words, after the reversal. */
  lemma ReversedWords(bytes: seq<Byte>, w: seq<Word>)
    requires |bytes| % 4 == 0 && |bytes| >= 8 && |w| == |bytes| / 4
    requires forall j :: 0 <= j < |w| ==>
      w[j] == Reverse(LittleEndianWord(bytes[4 * j], bytes[4 * j + 1], bytes[4 * j + 2], bytes[4 * j + 3]))
    ensures w[..|w| - 2] == BigEndian(bytes[..|bytes| - 8])
  {
    hide Reverse, LittleEndianWord, BigEndianWord;
    var body := bytes[..|bytes| - 8];
    forall k | 0 <= k < |w| - 2 ensures w[k] == BigEndian(body)[k] {
      ReverseMakesBigEndian(bytes[4 * k], bytes[4 * k + 1], bytes[4 * k + 2], bytes[4 * k + 3]);
      BigEndianAt(body, k);
    }
  }

  /** Below 2^32 bits the first length word is 0. */
  lemma PadIs(str: seq<Byte>)
    requires |str| < 0x1FFF_FFB8
    ensures Pad(str) == BigEndian(PadBody(str)) + [0, LowWord(8 * |str|)]
  {
    hide BigEndian, PadBody, HighWord, LowWord;
    HighWordZero(8 * |str|);
  }

  /** The cast of line 114: the bytes as the machine's words. */
  method AsWords(ret: array<Byte>) returns (pstr: array<Word>)
    requires ret.Length % 4 == 0
    ensures fresh(pstr) && pstr.Length == ret.Length / 4
    ensures forall j :: 0 <= j < pstr.Length ==>
      pstr[j] == LittleEndianWord(ret[4 * j], ret[4 * j + 1], ret[4 * j + 2], ret[4 * j + 3])
  {
    hide LittleEndianWord;
    pstr := new Word[ret.Length / 4];
    for k := 0 to pstr.Length
      modifies pstr
      invariant forall j :: 0 <= j < k ==>
        pstr[j] == LittleEndianWord(ret[4 * j], ret[4 * j + 1], ret[4 * j + 2], ret[4 * j + 3])
    {
      pstr[k] := LittleEndianWord(ret[4 * k], ret[4 * k + 1], ret[4 * k + 2], ret[4 * k + 3]);
    }
  }

  /** `padding` on a little-endian machine: the words are those of the standard. */
  method Padding(str: seq<Byte>) returns (pstr: array<Word>, size: nat)
    requires |str| < 0x1FFF_FFB8
    ensures fresh(pstr) && size == 4 * pstr.Length && size % 64 == 0
    ensures pstr[..] == Pad(str)
  {
    hide Reverse, BigEndianWord, LittleEndianWord, PaddedSize, PadZeros, BigEndian, Zeros, LowWord, Pad;
    var length := |str|;
    PadLength(length);
    size := PaddedSize(length);
    var ret := FillBytes(str, size);
    BodyIs(str, size, PadZeros(length));
    assert ret[..][..size - 8] == PadBody(str);
    hide PadBody;
    pstr := BodyWords(ret);
    PadIs(str);
    WriteLength(pstr, length);
  }

  /** Lines 114-118: the bytes as words of the standard, but for the last two. */
  method BodyWords(ret: array<Byte>) returns (pstr: array<Word>)
    requires ret.Length % 4 == 0 && ret.Length >= 8
    ensures fresh(pstr) && 4 * pstr.Length == ret.Length
    ensures pstr[..pstr.Length - 2] == BigEndian(ret[..][..ret.Length - 8])
  {
    hide Reverse, BigEndianWord, LittleEndianWord, BigEndian;
    ghost var bytes := ret[..];
    pstr := AsWords(ret);
    LongReverse(pstr, ret.Length);
    ReversedWords(bytes, pstr[..]);
    assert pstr[..][..pstr.Length - 2] == pstr[..pstr.Length - 2];
  }

  /** Lines 121-122: the last two words. */
  method WriteLength(pstr: array<Word>, length: nat)
    requires pstr.Length >= 2
    modifies pstr
    ensures pstr[..] == old(pstr[..pstr.Length - 2]) + [0, LowWord(8 * length)]
  {
    hide LowWord;
    ghost var body := pstr[..pstr.Length - 2];
    pstr[pstr.Length - 2] := 0;
    pstr[pstr.Length - 1] := LowWord(8 * length);
    assert pstr[..] == body + [0, LowWord(8 * length)];
  }

  /** `padding` and then `compute_hash` is SHA-1. */
  method Digest(str: seq<Byte>) returns (H: array<Word>)
    requires |str| < 0x1FFF_FFB8
    ensures H.Length == 5
    ensures Regs(H[0], H[1], H[2], H[3], H[4]) == Hash(Pad(str), |Pad(str)| / 16)
  {
    hide Pad, Hash;
    var pstr, size := Padding(str);
    H := new Word[5];
    ComputeHash(pstr, size, H);
  }
}
