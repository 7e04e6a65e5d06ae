/**
 A block of SHA-1 worked through in five rows of sixteen words and rounds, so that hash values of
 given blocks can be computed in small steps.
 */
module Sha1Rows {
  import opened Words
  import opened Sha1

  /** Sixteen consecutive words of a message schedule. */
  datatype Row = Row(w0: bv32, w1: bv32, w2: bv32, w3: bv32, w4: bv32, w5: bv32, w6: bv32, w7: bv32,
                     w8: bv32, w9: bv32, w10: bv32, w11: bv32, w12: bv32, w13: bv32, w14: bv32, w15: bv32)

  predicate Words0(r: Row, s: Row) {
    && s.w0 == Expansion(r.w13, r.w8, r.w2, r.w0) && s.w1 == Expansion(r.w14, r.w9, r.w3, r.w1)
    && s.w2 == Expansion(r.w15, r.w10, r.w4, r.w2) && s.w3 == Expansion(s.w0, r.w11, r.w5, r.w3)
  }

  predicate Words4(r: Row, s: Row) {
    && s.w4 == Expansion(s.w1, r.w12, r.w6, r.w4) && s.w5 == Expansion(s.w2, r.w13, r.w7, r.w5)
    && s.w6 == Expansion(s.w3, r.w14, r.w8, r.w6) && s.w7 == Expansion(s.w4, r.w15, r.w9, r.w7)
  }

  predicate Words8(r: Row, s: Row) {
    && s.w8 == Expansion(s.w5, s.w0, r.w10, r.w8) && s.w9 == Expansion(s.w6, s.w1, r.w11, r.w9)
    && s.w10 == Expansion(s.w7, s.w2, r.w12, r.w10) && s.w11 == Expansion(s.w8, s.w3, r.w13, r.w11)
  }

  predicate Words12(r: Row, s: Row) {
    && s.w12 == Expansion(s.w9, s.w4, r.w14, r.w12) && s.w13 == Expansion(s.w10, s.w5, r.w15, r.w13)
    && s.w14 == Expansion(s.w11, s.w6, s.w0, r.w14) && s.w15 == Expansion(s.w12, s.w7, s.w1, r.w15)
  }

  /** The sixteen words that come after those of `r`. */
  predicate Follows(r: Row, s: Row) {
    Words0(r, s) && Words4(r, s) && Words8(r, s) && Words12(r, s)
  }

  function FourRounds(v: Vars, t: nat, a: bv32, b: bv32, c: bv32, d: bv32): Vars {
    Round(Round(Round(Round(v, t, a), t + 1, b), t + 2, c), t + 3, d)
  }

  function RowOfRounds(v: Vars, t: nat, r: Row): Vars {
    var v4 := FourRounds(v, t, r.w0, r.w1, r.w2, r.w3);
    var v8 := FourRounds(v4, t + 4, r.w4, r.w5, r.w6, r.w7);
    var v12 := FourRounds(v8, t + 8, r.w8, r.w9, r.w10, r.w11);
    FourRounds(v12, t + 12, r.w12, r.w13, r.w14, r.w15)
  }

  // ----- rows are what the standard says -----

  function RowAt(w: seq<bv32>, t: nat): Row
    requires t + 16 <= |w|
  {
    Row(w[t], w[t + 1], w[t + 2], w[t + 3], w[t + 4], w[t + 5], w[t + 6], w[t + 7],
        w[t + 8], w[t + 9], w[t + 10], w[t + 11], w[t + 12], w[t + 13], w[t + 14], w[t + 15])
  }

  /** Word `t` of the schedule, by the words before it. */
  lemma {:induction false} WordAt(block: seq<byte>, n: nat, t: nat)
    requires |block| == 64 && t < n
    ensures var w := Schedule(block, n);
            w[t] == if t < 16 then FromBe32(block[4 * t..4 * t + 4])
                    else Expansion(w[t - 3], w[t - 8], w[t - 14], w[t - 16])
  {
    hide FromBe32, Expansion;
    if t < n - 1 {
      WordAt(block, n - 1, t);
    }
  }

  /** The four words from `t` on, by those before. */
  predicate FourAt(w: seq<bv32>, t: nat)
    requires 16 <= t && t + 4 <= |w|
  {
    && w[t] == Expansion(w[t - 3], w[t - 8], w[t - 14], w[t - 16])
    && w[t + 1] == Expansion(w[t - 2], w[t - 7], w[t - 13], w[t - 15])
    && w[t + 2] == Expansion(w[t - 1], w[t - 6], w[t - 12], w[t - 14])
    && w[t + 3] == Expansion(w[t], w[t - 5], w[t - 11], w[t - 13])
  }

  lemma FourWords(block: seq<byte>, t: nat)
    requires |block| == 64 && 16 <= t && t + 4 <= 80
    ensures FourAt(Schedule(block, 80), t)
  {
    hide FromBe32, Expansion, Schedule;
    WordAt(block, 80, t);
    WordAt(block, 80, t + 1);
    WordAt(block, 80, t + 2);
    WordAt(block, 80, t + 3);
  }

  lemma Next0(w: seq<bv32>, t: nat, s: Row)
    requires t + 32 <= |w| && FourAt(w, t + 16) && Words0(RowAt(w, t), s)
    ensures s.w0 == w[t + 16] && s.w1 == w[t + 17] && s.w2 == w[t + 18] && s.w3 == w[t + 19]
  {
    hide Expansion;
  }

  lemma Next4(w: seq<bv32>, t: nat, s: Row)
    requires t + 32 <= |w| && FourAt(w, t + 20) && Words4(RowAt(w, t), s)
    requires s.w1 == w[t + 17] && s.w2 == w[t + 18] && s.w3 == w[t + 19]
    ensures s.w4 == w[t + 20] && s.w5 == w[t + 21] && s.w6 == w[t + 22] && s.w7 == w[t + 23]
  {
    hide Expansion;
  }

  lemma Next8(w: seq<bv32>, t: nat, s: Row)
    requires t + 32 <= |w| && FourAt(w, t + 24) && Words8(RowAt(w, t), s)
    requires s.w0 == w[t + 16] && s.w1 == w[t + 17] && s.w2 == w[t + 18] && s.w3 == w[t + 19]
    requires s.w5 == w[t + 21] && s.w6 == w[t + 22] && s.w7 == w[t + 23]
    ensures s.w8 == w[t + 24] && s.w9 == w[t + 25] && s.w10 == w[t + 26] && s.w11 == w[t + 27]
  {
    hide Expansion;
  }

  lemma Next12(w: seq<bv32>, t: nat, s: Row)
    requires t + 32 <= |w| && FourAt(w, t + 28) && Words12(RowAt(w, t), s)
    requires s.w0 == w[t + 16] && s.w1 == w[t + 17] && s.w4 == w[t + 20] && s.w5 == w[t + 21] && s.w6 == w[t + 22]
    requires s.w7 == w[t + 23] && s.w9 == w[t + 25] && s.w10 == w[t + 26] && s.w11 == w[t + 27]
    ensures s.w12 == w[t + 28] && s.w13 == w[t + 29] && s.w14 == w[t + 30] && s.w15 == w[t + 31]
  {
    hide Expansion;
  }

  lemma NextRowAt(block: seq<byte>, t: nat, s: Row)
    requires |block| == 64 && t + 32 <= 80 && Follows(RowAt(Schedule(block, 80), t), s)
    ensures RowAt(Schedule(block, 80), t + 16) == s
  {
    hide Schedule, FourAt, Words0, Words4, Words8, Words12;
    var w := Schedule(block, 80);
    FourWords(block, t + 16);
    FourWords(block, t + 20);
    FourWords(block, t + 24);
    FourWords(block, t + 28);
    Next0(w, t, s);
    Next4(w, t, s);
    Next8(w, t, s);
    Next12(w, t, s);
  }

  lemma OneRound(v: Vars, w: seq<bv32>, t: nat)
    requires t < |w|
    ensures Rounds(v, w, t + 1) == Round(Rounds(v, w, t), t, w[t])
  {}

  lemma FourRoundsAt(v: Vars, w: seq<bv32>, t: nat)
    requires t + 4 <= |w|
    ensures Rounds(v, w, t + 4) == FourRounds(Rounds(v, w, t), t, w[t], w[t + 1], w[t + 2], w[t + 3])
  {
    hide Round, Rounds;
    OneRound(v, w, t);
    OneRound(v, w, t + 1);
    OneRound(v, w, t + 2);
    OneRound(v, w, t + 3);
  }

  lemma RowOfRoundsAt(v: Vars, w: seq<bv32>, t: nat)
    requires t + 16 <= |w|
    ensures Rounds(v, w, t + 16) == RowOfRounds(Rounds(v, w, t), t, RowAt(w, t))
  {
    hide Rounds, FourRounds;
    FourRoundsAt(v, w, t);
    FourRoundsAt(v, w, t + 4);
    FourRoundsAt(v, w, t + 8);
    FourRoundsAt(v, w, t + 12);
  }

  /** A block, worked through row by row. */
  lemma BlockByRows(h: Vars, block: seq<byte>, r0: Row, r1: Row, r2: Row, r3: Row, r4: Row)
    requires |block| == 64 && RowAt(Schedule(block, 80), 0) == r0
    requires Follows(r0, r1) && Follows(r1, r2) && Follows(r2, r3) && Follows(r3, r4)
    ensures var v1 := RowOfRounds(h, 0, r0);
            var v2 := RowOfRounds(v1, 16, r1);
            var v3 := RowOfRounds(v2, 32, r2);
            var v4 := RowOfRounds(v3, 48, r3);
            Compress(h, block) == Add(h, RowOfRounds(v4, 64, r4))
  {
    hide Follows, RowOfRounds, RowAt, Schedule, Rounds, Add;
    var w := Schedule(block, 80);
    NoRounds(h, w);
    NextRowAt(block, 0, r1);
    NextRowAt(block, 16, r2);
    NextRowAt(block, 32, r3);
    NextRowAt(block, 48, r4);
    RowOfRoundsAt(h, w, 0);
    RowOfRoundsAt(h, w, 16);
    RowOfRoundsAt(h, w, 32);
    RowOfRoundsAt(h, w, 48);
    RowOfRoundsAt(h, w, 64);
  }

  function SpellFour(a: bv32, b: bv32, c: bv32, d: bv32): (s: seq<byte>)
    ensures |s| == 16
    ensures s[0..4] == Be32(a) && s[4..8] == Be32(b) && s[8..12] == Be32(c) && s[12..16] == Be32(d)
  {
    hide Be32;
    Be32(a) + Be32(b) + Be32(c) + Be32(d)
  }

  function Four(a: seq<byte>, b: seq<byte>, c: seq<byte>, d: seq<byte>): (s: seq<byte>)
    requires |a| == |b| == |c| == |d| == 16
    ensures |s| == 64 && s[0..16] == a && s[16..32] == b && s[32..48] == c && s[48..64] == d
  {
    a + b + c + d
  }

  /** The block that spells the words of a row. */
  function Spell(r: Row): (s: seq<byte>)
    ensures |s| == 64
  {
    Four(SpellFour(r.w0, r.w1, r.w2, r.w3), SpellFour(r.w4, r.w5, r.w6, r.w7),
         SpellFour(r.w8, r.w9, r.w10, r.w11), SpellFour(r.w12, r.w13, r.w14, r.w15))
  }

  lemma WordIn(s: seq<byte>, four: seq<byte>, at: nat, i: nat)
    requires |four| == 16 && at + 16 <= |s| && s[at..at + 16] == four && i <= 12
    ensures s[at + i..at + i + 4] == four[i..i + 4]
  {
    var part := s[at + i..at + i + 4];
    assert part[0] == four[i] && part[1] == four[i + 1] && part[2] == four[i + 2] && part[3] == four[i + 3];
  }

  lemma LoadedAt(block: seq<byte>, four: seq<byte>, t: nat, i: nat, w: bv32)
    requires |block| == 64 && |four| == 16 && t <= 12 && i < 4
    requires block[4 * t..4 * t + 16] == four && four[4 * i..4 * i + 4] == Be32(w)
    ensures Schedule(block, 80)[t + i] == w
  {
    hide Be32, FromBe32, Schedule;
    WordIn(block, four, 4 * t, 4 * i);
    WordAt(block, 80, t + i);
    Be32RoundTrip(w);
  }

  lemma LoadedFour(block: seq<byte>, t: nat, a: bv32, b: bv32, c: bv32, d: bv32)
    requires |block| == 64 && t <= 12 && block[4 * t..4 * t + 16] == SpellFour(a, b, c, d)
    ensures var w := Schedule(block, 80); w[t] == a && w[t + 1] == b && w[t + 2] == c && w[t + 3] == d
  {
    hide Be32, SpellFour, Schedule;
    var four := SpellFour(a, b, c, d);
    LoadedAt(block, four, t, 0, a);
    LoadedAt(block, four, t, 1, b);
    LoadedAt(block, four, t, 2, c);
    LoadedAt(block, four, t, 3, d);
  }

  lemma FirstRow(r: Row)
    ensures RowAt(Schedule(Spell(r), 80), 0) == r
  {
    hide SpellFour, Four, Schedule;
    LoadedFour(Spell(r), 0, r.w0, r.w1, r.w2, r.w3);
    LoadedFour(Spell(r), 4, r.w4, r.w5, r.w6, r.w7);
    LoadedFour(Spell(r), 8, r.w8, r.w9, r.w10, r.w11);
    LoadedFour(Spell(r), 12, r.w12, r.w13, r.w14, r.w15);
  }
}
