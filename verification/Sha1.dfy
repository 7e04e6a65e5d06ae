/**
 SHA-1: the incremental implementation of csp_sha1.c, with its unrolled rounds and its
 64-byte buffer, against sections 5.1.1 and 6.1.2 of FIPS 180-4.
 */
module Sha1 {
  import opened Words

  const DIGEST: nat := 20

  function Rol1(x: bv32): bv32 { (x << 1) | (x >> 31) }
  function Rol5(x: bv32): bv32 { (x << 5) | (x >> 27) }
  function Rol30(x: bv32): bv32 { (x << 30) | (x >> 2) }

  /** These are the circular left shifts of section 2.2.2 of FIPS 180-4. */
  lemma Rotations(x: bv32)
    ensures Rol1(x) == x.RotateLeft(1) && Rol5(x) == x.RotateLeft(5) && Rol30(x) == x.RotateLeft(30)
  {}

  function Sum(p: bv32, q: bv32, r: bv32, s: bv32, t: bv32): bv32 { p + q + r + s + t }

  // ----- the standard -----

  /** The five working variables, and also the five words of a hash value. */
  datatype Vars = Vars(a: bv32, b: bv32, c: bv32, d: bv32, e: bv32)

  const H0 := Vars(0x67452301, 0xefcdab89, 0x98badcfe, 0x10325476, 0xc3d2e1f0)

  function Ch(x: bv32, y: bv32, z: bv32): bv32 { (x & y) ^ (!x & z) }
  function Parity(x: bv32, y: bv32, z: bv32): bv32 { x ^ y ^ z }
  function Maj(x: bv32, y: bv32, z: bv32): bv32 { (x & y) ^ (x & z) ^ (y & z) }

  function Ft(t: nat, x: bv32, y: bv32, z: bv32): bv32 {
    if t < 20 then Ch(x, y, z) else if t < 40 then Parity(x, y, z) else if t < 60 then Maj(x, y, z) else Parity(x, y, z)
  }

  function Kt(t: nat): bv32 {
    if t < 20 then 0x5a827999 else if t < 40 then 0x6ed9eba1 else if t < 60 then 0x8f1bbcdc else 0xca62c1d6
  }

  function Expansion(x: bv32, y: bv32, z: bv32, u: bv32): bv32 { Rol1(x ^ y ^ z ^ u) }

  /** The word that follows the schedule words `w`. */
  function NextWord(block: seq<byte>, w: seq<bv32>): bv32
    requires |block| == 64
  {
    var t := |w|;
    if t < 16 then FromBe32(block[4 * t..4 * t + 4]) else Expansion(w[t - 3], w[t - 8], w[t - 14], w[t - 16])
  }

  /** The first `n` words of the message schedule of a block. */
  function Schedule(block: seq<byte>, n: nat): (w: seq<bv32>)
    requires |block| == 64
    ensures |w| == n
    decreases n
  {
    if n == 0 then [] else
    var w := Schedule(block, n - 1);
    w + [NextWord(block, w)]
  }

  function Round(v: Vars, t: nat, w: bv32): Vars {
    Vars(Sum(Rol5(v.a), Ft(t, v.b, v.c, v.d), v.e, Kt(t), w), v.a, Rol30(v.b), v.c, v.d)
  }

  /** The working variables after the first `n` rounds. */
  function Rounds(v: Vars, w: seq<bv32>, n: nat): Vars
    requires n <= |w|
    decreases n
  {
    if n == 0 then v else Round(Rounds(v, w, n - 1), n - 1, w[n - 1])
  }

  /** Addition modulo 2^32, as `uint32_t` adds. */
  function Plus(x: bv32, y: bv32): bv32 { x + y }

  function Add(h: Vars, v: Vars): Vars {
    Vars(Plus(h.a, v.a), Plus(h.b, v.b), Plus(h.c, v.c), Plus(h.d, v.d), Plus(h.e, v.e))
  }

  /** The hash value after one more block. */
  function Compress(h: Vars, block: seq<byte>): Vars
    requires |block| == 64
  {
    Add(h, Rounds(h, Schedule(block, 80), 80))
  }

  /** The hash value after all whole blocks of `bytes`. */
  function Absorb(h: Vars, bytes: seq<byte>): Vars
    decreases |bytes|
  {
    if |bytes| < 64 then h else Absorb(Compress(h, bytes[..64]), bytes[64..])
  }

  function Zeros(n: nat): (z: seq<byte>)
    ensures |z| == n
  {
    seq(n, _ => 0)
  }

  /** `STORE64H`: eight bytes, most significant first. */
  function Store64(m: nat): (s: seq<byte>)
    requires m < 0x1_0000_0000_0000_0000
    ensures |s| == 8
  {
    [ByteOf(m / 0x100_0000_0000_0000), ByteOf(m / 0x1_0000_0000_0000 % 256),
     ByteOf(m / 0x100_0000_0000 % 256), ByteOf(m / 0x1_0000_0000 % 256),
     ByteOf(m / 0x100_0000 % 256), ByteOf(m / 0x1_0000 % 256),
     ByteOf(m / 0x100 % 256), ByteOf(m % 256)]
  }

  /** A bit count as eight bytes, modulo 2^64 as `uint64_t` counts. */
  function Be64(n: nat): (s: seq<byte>)
    ensures |s| == 8
  {
    Store64(n % 0x1_0000_0000_0000_0000)
  }

  /** How many zero bytes follow the 0x80: the least number that leaves 8 bytes in the last block. */
  function ZeroCount(n: nat): (k: nat)
    ensures k < 64 && (n + 1 + k + 8) % 64 == 0
  {
    (119 - n % 64) % 64
  }

  function Pad(m: seq<byte>): (p: seq<byte>)
    ensures |p| % 64 == 0
  {
    m + [0x80] + Zeros(ZeroCount(|m|)) + Be64(8 * |m|)
  }

  function Digest(h: Vars): (d: seq<byte>)
    ensures |d| == DIGEST
  {
    Be32(h.a) + Be32(h.b) + Be32(h.c) + Be32(h.d) + Be32(h.e)
  }

  function Hash(m: seq<byte>): (d: seq<byte>)
    ensures |d| == DIGEST
  {
    Digest(Absorb(H0, Pad(m)))
  }

  lemma {:induction false} AbsorbSplit(h: Vars, x: seq<byte>, y: seq<byte>)
    requires |x| % 64 == 0
    ensures Absorb(h, x + y) == Absorb(Absorb(h, x), y)
    decreases |x|
  {
    hide Compress;
    if |x| < 64 {
      assert x + y == y;
    } else {
      assert (x + y)[..64] == x[..64] && (x + y)[64..] == x[64..] + y;
      AbsorbSplit(Compress(h, x[..64]), x[64..], y);
    }
  }

  lemma AbsorbBlock(h: Vars, x: seq<byte>, block: seq<byte>)
    requires |x| % 64 == 0 && |block| == 64
    ensures Absorb(h, x + block) == Compress(Absorb(h, x), block)
  {
    hide Compress;
    AbsorbSplit(h, x, block);
    assert block[..64] == block && block[64..] == [];
    assert Absorb(Compress(Absorb(h, x), block), []) == Compress(Absorb(h, x), block);
  }

  /** The whole blocks of a message, and what is left over. */
  function Whole(m: seq<byte>): (w: seq<byte>)
    ensures |w| % 64 == 0
  {
    m[..|m| - |m| % 64]
  }

  function Rest(m: seq<byte>): (r: seq<byte>)
    ensures |r| < 64 && m == Whole(m) + r
  {
    m[|m| - |m| % 64..]
  }

  /** Whole blocks and a short rest can only be cut in one way. */
  lemma CutUnique(m: seq<byte>, w: seq<byte>, r: seq<byte>)
    requires m == w + r && |w| % 64 == 0 && |r| < 64
    ensures Whole(m) == w && Rest(m) == r
  {
    assert |m| % 64 == |r|;
  }

  /** `uint64_t` addition. */
  function Add64(x: nat, y: nat): (z: nat)
    ensures z < 0x1_0000_0000_0000_0000
  {
    (x + y) % 0x1_0000_0000_0000_0000
  }

  /** The bit count of `n` bytes as a `uint64_t`. */
  function BitCount(n: nat): (z: nat)
    ensures z < 0x1_0000_0000_0000_0000
  {
    8 * n % 0x1_0000_0000_0000_0000
  }

  /** Whole turns of a 64-bit counter do not show. */
  lemma WholeTurns(q: nat, x: nat)
    ensures (q * 0x1_0000_0000_0000_0000 + x) % 0x1_0000_0000_0000_0000 == x % 0x1_0000_0000_0000_0000
  {
    var y := x / 0x1_0000_0000_0000_0000;
    assert q * 0x1_0000_0000_0000_0000 + x == (q + y) * 0x1_0000_0000_0000_0000 + x % 0x1_0000_0000_0000_0000;
  }

  lemma CountUp(n: nat, k: nat)
    ensures Add64(BitCount(n), 8 * k) == BitCount(n + k)
  {
    var q := 8 * n / 0x1_0000_0000_0000_0000;
    assert 8 * (n + k) == q * 0x1_0000_0000_0000_0000 + (BitCount(n) + 8 * k);
    WholeTurns(q, BitCount(n) + 8 * k);
  }

  // ----- the round macros of the C code -----

  function F0(x: bv32, y: bv32, z: bv32): bv32 { z ^ (x & (y ^ z)) }
  function F1(x: bv32, y: bv32, z: bv32): bv32 { x ^ y ^ z }
  function F2(x: bv32, y: bv32, z: bv32): bv32 { (x & y) | (z & (x | y)) }

  /** The new value of the variable that plays the part of `e` in `FF_0` .. `FF_3`. */
  function Mix0(a: bv32, b: bv32, c: bv32, d: bv32, e: bv32, w: bv32): bv32 {
    Sum(Rol5(a), F0(b, c, d), e, w, 0x5a827999)
  }

  function Mix1(a: bv32, b: bv32, c: bv32, d: bv32, e: bv32, w: bv32): bv32 {
    Sum(Rol5(a), F1(b, c, d), e, w, 0x6ed9eba1)
  }

  function Mix2(a: bv32, b: bv32, c: bv32, d: bv32, e: bv32, w: bv32): bv32 {
    Sum(Rol5(a), F2(b, c, d), e, w, 0x8f1bbcdc)
  }

  function Mix3(a: bv32, b: bv32, c: bv32, d: bv32, e: bv32, w: bv32): bv32 {
    Sum(Rol5(a), F1(b, c, d), e, w, 0xca62c1d6)
  }

  function Mix(t: nat, a: bv32, b: bv32, c: bv32, d: bv32, e: bv32, w: bv32): bv32 {
    if t < 20 then Mix0(a, b, c, d, e, w) else if t < 40 then Mix1(a, b, c, d, e, w)
    else if t < 60 then Mix2(a, b, c, d, e, w) else Mix3(a, b, c, d, e, w)
  }

  lemma ChBits(x: bv32, y: bv32, z: bv32)
    ensures z ^ (x & (y ^ z)) == (x & y) ^ (!x & z)
  {}

  lemma MajBits(x: bv32, y: bv32, z: bv32)
    ensures (x & y) | (z & (x | y)) == (x & y) ^ (x & z) ^ (y & z)
  {}

  lemma ChForms(x: bv32, y: bv32, z: bv32)
    ensures F0(x, y, z) == Ch(x, y, z)
  {
    ChBits(x, y, z);
  }

  lemma MajForms(x: bv32, y: bv32, z: bv32)
    ensures F2(x, y, z) == Maj(x, y, z)
  {
    MajBits(x, y, z);
  }

  lemma SumOrder(p: bv32, f: bv32, e: bv32, w: bv32, k: bv32)
    ensures Sum(p, f, e, w, k) == Sum(p, f, e, k, w)
  {}

  lemma RoundIsMix(t: nat, a: bv32, b: bv32, c: bv32, d: bv32, e: bv32, w: bv32)
    ensures Round(Vars(a, b, c, d, e), t, w) == Vars(Mix(t, a, b, c, d, e, w), a, Rol30(b), c, d)
  {
    hide Rol5, Rol30, Ch, Maj, F0, F2, Parity, F1, Sum;
    ChForms(b, c, d);
    MajForms(b, c, d);
    ParityForms(b, c, d);
    SumOrder(Rol5(a), Ft(t, b, c, d), e, w, Kt(t));
  }

  lemma ParityForms(x: bv32, y: bv32, z: bv32)
    ensures F1(x, y, z) == Parity(x, y, z)
  {}

  lemma RoundStep(v0: Vars, w: seq<bv32>, i: nat, a: bv32, b: bv32, c: bv32, d: bv32, e: bv32)
    requires i < |w| && Rounds(v0, w, i) == Vars(a, b, c, d, e)
    ensures Rounds(v0, w, i + 1) == Vars(Mix(i, a, b, c, d, e, w[i]), a, Rol30(b), c, d)
  {
    hide Round, Mix, Rol30;
    RoundIsMix(i, a, b, c, d, e, w[i]);
  }

  lemma ScheduleStep(block: seq<byte>, w: seq<bv32>, t: nat)
    requires |block| == 64 && w == Schedule(block, t)
    ensures Schedule(block, t + 1) == w + [NextWord(block, w)]
  {}

  lemma EmptySchedule(block: seq<byte>)
    requires |block| == 64
    ensures Schedule(block, 0) == []
  {}

  /** The first two loops of `csp_sha1_compress`: load sixteen words, expand them to eighty. */
  method Expand(block: seq<byte>) returns (w: seq<bv32>)
    requires |block| == 64
    ensures w == Schedule(block, 80)
  {
    hide FromBe32, Expansion, Schedule;
    var W := new bv32[80](_ => 0);
    var i := 0;
    EmptySchedule(block);
    while i < 16
      invariant 0 <= i <= 16 && W[..i] == Schedule(block, i)
    {
      ScheduleStep(block, W[..i], i);
      W[i] := FromBe32(block[4 * i..4 * i + 4]);
      i := i + 1;
      assert W[..i] == W[..i - 1] + [W[i - 1]];
    }
    while i < 80
      invariant 16 <= i <= 80 && W[..i] == Schedule(block, i)
    {
      ScheduleStep(block, W[..i], i);
      W[i] := Expansion(W[i - 3], W[i - 8], W[i - 14], W[i - 16]);
      i := i + 1;
      assert W[..i] == W[..i - 1] + [W[i - 1]];
    }
    w := W[..];
    assert w == W[..80];
  }

  // The four unrolled loops of `csp_sha1_compress`, where the variables change names instead of values.

  method LoopOne(ghost v0: Vars, w: seq<bv32>, v: Vars) returns (v': Vars)
    requires |w| == 80 && v == Rounds(v0, w, 0)
    ensures v' == Rounds(v0, w, 20)
  {
    hide Mix0, Rol30, Rounds;
    var a, b, c, d, e := v.a, v.b, v.c, v.d, v.e;
    var i := 0;
    while i < 20
      invariant i % 5 == 0 && 0 <= i <= 20
      invariant Rounds(v0, w, i) == Vars(a, b, c, d, e)
    {
      RoundStep(v0, w, i, a, b, c, d, e);
      e := Mix0(a, b, c, d, e, w[i]); b := Rol30(b); i := i + 1;
      RoundStep(v0, w, i, e, a, b, c, d);
      d := Mix0(e, a, b, c, d, w[i]); a := Rol30(a); i := i + 1;
      RoundStep(v0, w, i, d, e, a, b, c);
      c := Mix0(d, e, a, b, c, w[i]); e := Rol30(e); i := i + 1;
      RoundStep(v0, w, i, c, d, e, a, b);
      b := Mix0(c, d, e, a, b, w[i]); d := Rol30(d); i := i + 1;
      RoundStep(v0, w, i, b, c, d, e, a);
      a := Mix0(b, c, d, e, a, w[i]); c := Rol30(c); i := i + 1;
    }
    v' := Vars(a, b, c, d, e);
  }

  method LoopTwo(ghost v0: Vars, w: seq<bv32>, v: Vars) returns (v': Vars)
    requires |w| == 80 && v == Rounds(v0, w, 20)
    ensures v' == Rounds(v0, w, 40)
  {
    hide Mix1, Rol30, Rounds;
    var a, b, c, d, e := v.a, v.b, v.c, v.d, v.e;
    var i := 20;
    while i < 40
      invariant i % 5 == 0 && 20 <= i <= 40
      invariant Rounds(v0, w, i) == Vars(a, b, c, d, e)
    {
      RoundStep(v0, w, i, a, b, c, d, e);
      e := Mix1(a, b, c, d, e, w[i]); b := Rol30(b); i := i + 1;
      RoundStep(v0, w, i, e, a, b, c, d);
      d := Mix1(e, a, b, c, d, w[i]); a := Rol30(a); i := i + 1;
      RoundStep(v0, w, i, d, e, a, b, c);
      c := Mix1(d, e, a, b, c, w[i]); e := Rol30(e); i := i + 1;
      RoundStep(v0, w, i, c, d, e, a, b);
      b := Mix1(c, d, e, a, b, w[i]); d := Rol30(d); i := i + 1;
      RoundStep(v0, w, i, b, c, d, e, a);
      a := Mix1(b, c, d, e, a, w[i]); c := Rol30(c); i := i + 1;
    }
    v' := Vars(a, b, c, d, e);
  }

  method LoopThree(ghost v0: Vars, w: seq<bv32>, v: Vars) returns (v': Vars)
    requires |w| == 80 && v == Rounds(v0, w, 40)
    ensures v' == Rounds(v0, w, 60)
  {
    hide Mix2, Rol30, Rounds;
    var a, b, c, d, e := v.a, v.b, v.c, v.d, v.e;
    var i := 40;
    while i < 60
      invariant i % 5 == 0 && 40 <= i <= 60
      invariant Rounds(v0, w, i) == Vars(a, b, c, d, e)
    {
      RoundStep(v0, w, i, a, b, c, d, e);
      e := Mix2(a, b, c, d, e, w[i]); b := Rol30(b); i := i + 1;
      RoundStep(v0, w, i, e, a, b, c, d);
      d := Mix2(e, a, b, c, d, w[i]); a := Rol30(a); i := i + 1;
      RoundStep(v0, w, i, d, e, a, b, c);
      c := Mix2(d, e, a, b, c, w[i]); e := Rol30(e); i := i + 1;
      RoundStep(v0, w, i, c, d, e, a, b);
      b := Mix2(c, d, e, a, b, w[i]); d := Rol30(d); i := i + 1;
      RoundStep(v0, w, i, b, c, d, e, a);
      a := Mix2(b, c, d, e, a, w[i]); c := Rol30(c); i := i + 1;
    }
    v' := Vars(a, b, c, d, e);
  }

  method LoopFour(ghost v0: Vars, w: seq<bv32>, v: Vars) returns (v': Vars)
    requires |w| == 80 && v == Rounds(v0, w, 60)
    ensures v' == Rounds(v0, w, 80)
  {
    hide Mix3, Rol30, Rounds;
    var a, b, c, d, e := v.a, v.b, v.c, v.d, v.e;
    var i := 60;
    while i < 80
      invariant i % 5 == 0 && 60 <= i <= 80
      invariant Rounds(v0, w, i) == Vars(a, b, c, d, e)
    {
      RoundStep(v0, w, i, a, b, c, d, e);
      e := Mix3(a, b, c, d, e, w[i]); b := Rol30(b); i := i + 1;
      RoundStep(v0, w, i, e, a, b, c, d);
      d := Mix3(e, a, b, c, d, w[i]); a := Rol30(a); i := i + 1;
      RoundStep(v0, w, i, d, e, a, b, c);
      c := Mix3(d, e, a, b, c, w[i]); e := Rol30(e); i := i + 1;
      RoundStep(v0, w, i, c, d, e, a, b);
      b := Mix3(c, d, e, a, b, w[i]); d := Rol30(d); i := i + 1;
      RoundStep(v0, w, i, b, c, d, e, a);
      a := Mix3(b, c, d, e, a, w[i]); c := Rol30(c); i := i + 1;
    }
    v' := Vars(a, b, c, d, e);
  }

  method Unrolled(v0: Vars, w: seq<bv32>) returns (v: Vars)
    requires |w| == 80
    ensures v == Rounds(v0, w, 80)
  {
    hide Rounds;
    NoRounds(v0, w);
    v := LoopOne(v0, w, v0);
    v := LoopTwo(v0, w, v);
    v := LoopThree(v0, w, v);
    v := LoopFour(v0, w, v);
  }

  lemma NoRounds(v: Vars, w: seq<bv32>)
    ensures Rounds(v, w, 0) == v
  {}

  /** `csp_sha1_state_t`. */
  class Sha1State {
    var length: nat
    const state: array<bv32>
    var curlen: nat
    const buf: array<byte>
    /** Everything processed since initialisation. */
    ghost var message: seq<byte>

    ghost predicate Shape()
      reads this
    {
      state.Length == 5 && buf.Length == 64
    }

    ghost function Words(): Vars
      requires Shape()
      reads this, state
    {
      Vars(state[0], state[1], state[2], state[3], state[4])
    }

    /** Whole blocks are absorbed, the rest waits in the buffer, and the bit count covers the absorbed part. */
    ghost predicate Valid()
      reads this, state, buf
    {
      && Shape()
      && curlen == |Rest(message)|
      && buf[..curlen] == Rest(message)
      && Words() == Absorb(H0, Whole(message))
      && length == BitCount(|Whole(message)|)
    }

    constructor ()
      ensures Valid() && message == [] && fresh(state) && fresh(buf)
    {
      state := new bv32[5](_ => 0);
      buf := new byte[64](_ => 0);
      new;
      Init();
    }

    /** `csp_sha1_init`. */
    method Init()
      requires Shape()
      modifies this, state
      ensures Valid() && message == []
    {
      hide Compress, Absorb, Whole, Rest;
      SetState(H0);
      NothingAbsorbed();
      curlen := 0;
      length := 0;
      message := [];
    }

    method SetState(v: Vars)
      requires Shape()
      modifies state
      ensures Words() == v
    {
      state[0], state[1], state[2], state[3], state[4] := v.a, v.b, v.c, v.d, v.e;
    }

    /** `csp_sha1_compress`. */
    method CompressBlock(block: seq<byte>)
      requires Shape() && |block| == 64
      modifies state
      ensures Words() == Compress(old(Words()), block)
    {
      hide Rounds, Schedule, Plus;
      var w := Expand(block);
      var v := Unrolled(Vars(state[0], state[1], state[2], state[3], state[4]), w);
      state[0] := Plus(state[0], v.a);
      state[1] := Plus(state[1], v.b);
      state[2] := Plus(state[2], v.c);
      state[3] := Plus(state[3], v.d);
      state[4] := Plus(state[4], v.e);
    }

    /** `csp_sha1_process`: only the concatenation of everything processed matters, not how it was cut. */
    method Process(data: seq<byte>)
      requires Valid()
      modifies this, state, buf
      ensures Valid() && message == old(message) + data
    {
      hide Absorb, Compress, Whole, Rest;
      var done := 0;
      assert message + data[..0] == message;
      while done < |data|
        invariant 0 <= done <= |data|
        invariant Valid() && message == old(message) + data[..done]
      {
        if curlen == 0 && |data| - done >= 64 {
          DirectBlock(data[done..done + 64]);
          TakeMore(old(message), data, done, 64);
          done := done + 64;
        } else {
          var n := if |data| - done < 64 - curlen then |data| - done else 64 - curlen;
          Buffered(data[done..done + n]);
          TakeMore(old(message), data, done, n);
          done := done + n;
        }
      }
      assert data[..done] == data;
    }

    /** The branch that compresses straight from the input. */
    method DirectBlock(block: seq<byte>)
      requires Valid() && curlen == 0 && |block| == 64
      modifies this, state
      ensures Valid() && message == old(message) + block
    {
      hide Compress, Absorb, Whole, Rest, BitCount, Add64;
      ghost var whole := Whole(message);
      assert message == whole + Rest(message) == whole;
      CompressBlock(block);
      length := Add64(length, 8 * 64);
      CountUp(|whole|, 64);
      AbsorbBlock(H0, whole, block);
      message := message + block;
      assert message == (whole + block) + [];
      CutUnique(message, whole + block, []);
    }

    /** The branch that collects input in the buffer, and compresses the buffer when it is full. */
    method Buffered(part: seq<byte>)
      requires Valid() && 0 < |part| <= 64 - curlen
      modifies this, state, buf
      ensures Valid() && message == old(message) + part
    {
      hide Compress, Absorb, Whole, Rest;
      ghost var whole, rest := Whole(message), Rest(message);
      CopyIn(part);
      message := message + part;
      assert message == whole + (rest + part);
      if curlen == 64 {
        FlushFull(whole);
      } else {
        CutUnique(message, whole, rest + part);
      }
    }

    /** `memcpy` to the end of the buffered bytes. */
    method CopyIn(part: seq<byte>)
      requires Shape() && curlen + |part| <= 64
      modifies this`curlen, buf
      ensures curlen == old(curlen) + |part| && buf[..curlen] == old(buf[..curlen]) + part
    {
      forall i | 0 <= i < |part| {
        buf[curlen + i] := part[i];
      }
      curlen := curlen + |part|;
    }

    method FlushFull(ghost whole: seq<byte>)
      requires Shape() && curlen == 64 && |whole| % 64 == 0
      requires message == whole + buf[..curlen] && Words() == Absorb(H0, whole)
      requires length == BitCount(|whole|)
      modifies this`curlen, this`length, state
      ensures Valid()
    {
      hide Compress, Absorb, Whole, Rest, BitCount, Add64;
      ghost var block := buf[..];
      assert block == buf[..curlen];
      CompressBlock(buf[..]);
      length := Add64(length, 8 * 64);
      curlen := 0;
      CountUp(|whole|, 64);
      AbsorbBlock(H0, whole, block);
      assert message == (whole + block) + [];
      CutUnique(message, whole + block, []);
    }

    /** `csp_sha1_done`. The state is spent afterwards. */
    method Done() returns (out: seq<byte>)
      requires Valid()
      modifies this, state, buf
      ensures Shape() && out == Hash(old(message))
    {
      hide Compress, Absorb, Store64, Whole, Rest, BitCount, Add64, Pad, Tail, FirstBlock, LastBlock;
      ghost var m := message;
      length := Add64(length, 8 * curlen);
      CountUp(|Whole(m)|, |Rest(m)|);
      PadToCount(m);
      PutCount(m);
      CompressBlock(buf[..]);
      PaddingAbsorbed(m);
      out := Be32(state[0]) + Be32(state[1]) + Be32(state[2]) + Be32(state[3]) + Be32(state[4]);
    }

    /** The 0x80 and the zero bytes, up to the place of the bit count. */
    method PadToCount(ghost m: seq<byte>)
      requires Shape() && curlen == |Rest(m)| && buf[..curlen] == Rest(m)
      modifies this`curlen, buf, state
      ensures buf[..56] == ZeroedTail(m)
      ensures Words() == if |Tail(m)| > 56 then Compress(old(Words()), FirstBlock(m)) else old(Words())
    {
      hide Compress, Rest;
      buf[curlen] := 0x80;
      curlen := curlen + 1;
      assert buf[..curlen] == Tail(m);
      if curlen > 56 {
        ZeroTo(64);
        assert buf[..] == buf[..64] == FirstBlock(m);
        CompressBlock(buf[..]);
        curlen := 0;
      }
      ZeroTo(56);
    }

    /** `STORE64H` at the end of the buffer. */
    method PutCount(ghost m: seq<byte>)
      requires Shape() && buf[..56] == ZeroedTail(m) && length == BitCount(|m|)
      modifies buf
      ensures buf[..] == LastBlock(m)
    {
      hide Store64, ZeroedTail;
      var count := Store64(length);
      forall i | 0 <= i < 8 {
        buf[56 + i] := count[i];
      }
      assert buf[..] == buf[..56] + buf[56..];
    }

    /** `while (curlen < n) buf[curlen++] = 0`. */
    method ZeroTo(n: nat)
      requires Shape() && curlen <= n <= 64
      modifies this`curlen, buf
      ensures curlen == n && buf[..n] == old(buf[..curlen]) + Zeros(n - old(curlen))
    {
      ghost var start := curlen;
      while curlen < n
        invariant start <= curlen <= n
        invariant buf[..curlen] == old(buf[..curlen]) + Zeros(curlen - start)
      {
        buf[curlen] := 0;
        curlen := curlen + 1;
      }
    }
  }

  lemma TakeMore(m: seq<byte>, data: seq<byte>, i: nat, n: nat)
    requires i + n <= |data|
    ensures m + data[..i + n] == m + data[..i] + data[i..i + n]
  {}

  lemma NothingAbsorbed()
    ensures Whole([]) == Rest([]) == [] && Absorb(H0, []) == H0
  {}

  // ----- the padding that `csp_sha1_done` lays out in one or two blocks -----

  ghost function Tail(m: seq<byte>): (t: seq<byte>)
    ensures |t| <= 64
  {
    Rest(m) + [0x80]
  }

  ghost function FirstBlock(m: seq<byte>): (b: seq<byte>)
    ensures |b| == 64
  {
    Tail(m) + Zeros(64 - |Tail(m)|)
  }

  ghost function ZeroedTail(m: seq<byte>): (t: seq<byte>)
    ensures |t| == 56
  {
    if |Tail(m)| > 56 then Zeros(56) else Tail(m) + Zeros(56 - |Tail(m)|)
  }

  ghost function LastBlock(m: seq<byte>): (b: seq<byte>)
    ensures |b| == 64
  {
    ZeroedTail(m) + Be64(8 * |m|)
  }

  lemma ZerosSplit(j: nat, k: nat)
    ensures Zeros(j + k) == Zeros(j) + Zeros(k)
  {}

  lemma ZeroCountOf(m: seq<byte>)
    ensures ZeroCount(|m|) == if |Tail(m)| > 56 then (64 - |Tail(m)|) + 56 else 56 - |Tail(m)|
  {}

  /** The blocks laid out are the padding of the standard. */
  lemma PaddingBlocks(m: seq<byte>)
    ensures Pad(m) == Whole(m) + (if |Tail(m)| > 56 then FirstBlock(m) else []) + LastBlock(m)
  {
    hide Be64, Whole, Rest, Zeros, ZeroCount;
    ZeroCountOf(m);
    if |Tail(m)| > 56 {
      ZerosSplit(64 - |Tail(m)|, 56);
    }
  }

  lemma PaddingAbsorbed(m: seq<byte>)
    ensures var h := Absorb(H0, Whole(m));
            Absorb(H0, Pad(m)) == Compress(if |Tail(m)| > 56 then Compress(h, FirstBlock(m)) else h, LastBlock(m))
  {
    hide Compress, Absorb, Whole, Pad, Tail, LastBlock, FirstBlock;
    PaddingBlocks(m);
    var first := if |Tail(m)| > 56 then FirstBlock(m) else [];
    if |Tail(m)| > 56 {
      AbsorbBlock(H0, Whole(m), first);
    } else {
      assert Whole(m) + first == Whole(m);
    }
    AbsorbBlock(H0, Whole(m) + first, LastBlock(m));
  }

  /** `csp_sha1_memory`. */
  method Memory(message: seq<byte>) returns (digest: seq<byte>)
    ensures digest == Hash(message)
  {
    hide Hash;
    var md := new Sha1State();
    md.Process(message);
    assert [] + message == message;
    digest := md.Done();
  }

  function Concat(pieces: seq<seq<byte>>): seq<byte>
    decreases |pieces|
  {
    if pieces == [] then [] else Concat(pieces[..|pieces| - 1]) + pieces[|pieces| - 1]
  }

  lemma NoPieces()
    ensures Concat([]) == []
  {}

  lemma OneMorePiece(pieces: seq<seq<byte>>, i: nat)
    requires i < |pieces|
    ensures Concat(pieces[..i + 1]) == Concat(pieces[..i]) + pieces[i]
  {
    assert pieces[..i + 1][..i] == pieces[..i];
  }

  /** Any number of `csp_sha1_process` calls, of any sizes: the digest is that of the concatenation. */
  method InPieces(pieces: seq<seq<byte>>) returns (digest: seq<byte>)
    ensures digest == Hash(Concat(pieces))
  {
    hide Hash, Sha1State.Valid, Concat;
    var md := new Sha1State();
    var i := 0;
    NoPieces();
    while i < |pieces|
      invariant 0 <= i <= |pieces|
      invariant md.Valid() && fresh(md) && fresh(md.state) && fresh(md.buf)
      invariant md.message == Concat(pieces[..i])
    {
      md.Process(pieces[i]);
      OneMorePiece(pieces, i);
      i := i + 1;
    }
    assert pieces[..i] == pieces;
    digest := md.Done();
  }
}
