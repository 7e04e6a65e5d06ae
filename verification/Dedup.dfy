/** Duplicate suppression, csp_dedup.c: a ring of the last checksums, scanned newest first with an early exit. */
module Dedup {
  import opened Words

  /** `CSP_DEDUP_COUNT`, `CSP_DEDUP_WINDOW_MS`. */
  const COUNT: nat := 16
  const WINDOW_MS: nat := 100

  type Millis = n: nat | n < 0x1_0000_0000

  /** A recorded packet: its checksum and the time it was seen. */
  datatype Entry = Entry(crc: bv32, stamp: Millis)

  /** Everything ever recorded, oldest first, behind the zeros the ring starts with. */
  type History = h: seq<Entry> | |h| >= 16 witness seq(16, _ => Entry(0, 0))

  const EMPTY: History := seq(16, _ => Entry(0, 0))

  /** The `c`-th newest entry. */
  function Newest(h: History, c: nat): Entry
    requires c < |h|
  {
    h[|h| - 1 - c]
  }

  /** `time > stamp + 100` as `uint32_t` computes it, which may wrap. */
  predicate TooOld(time: Millis, stamp: Millis) {
    time > (stamp + WINDOW_MS) % 0x1_0000_0000
  }

  /** A match at age `c`, with nothing too old on the way to it. */
  ghost predicate HitAt(h: History, crc: bv32, time: Millis, c: nat) {
    && c < 15 && Newest(h, c).crc == crc
    && forall d :: 0 <= d <= c ==> !TooOld(time, Newest(h, d).stamp)
  }

  ghost predicate Duplicate(h: History, crc: bv32, time: Millis) {
    exists c :: HitAt(h, crc, time, c)
  }

  /** How long ago that was, on a clock of 32 bits: it takes about 49 days to come round. */
  function Age(time: Millis, stamp: Millis): (age: Millis) {
    if stamp <= time then time - stamp else 0x1_0000_0000 + time - stamp
  }

  /** At most 100 ms old. */
  predicate Recent(e: Entry, time: Millis) {
    Age(time, e.stamp) <= WINDOW_MS
  }

  /** The plain reading: one of the 15 most recent entries has this checksum and is at most 100 ms old. */
  ghost predicate SeenAt(h: History, crc: bv32, time: Millis, c: nat) {
    c < 15 && Newest(h, c).crc == crc && Recent(Newest(h, c), time)
  }

  ghost predicate SeenRecently(h: History, crc: bv32, time: Millis) {
    exists c :: SeenAt(h, crc, time, c)
  }

  function Record(h: History, crc: bv32, time: Millis): History {
    h + [Entry(crc, time)]
  }

  class DedupRing {
    const crcs: array<bv32>
    const stamps: array<Millis>
    var next: nat
    ghost var history: History

    /** Slot `next` holds the oldest of the last 16 entries, the one before it the newest. */
    ghost predicate Valid()
      reads this, crcs, stamps
    {
      && crcs.Length == COUNT && stamps.Length == COUNT && crcs as object != stamps && next < COUNT
      && forall c :: 0 <= c < COUNT ==>
           Entry(crcs[Slot(c)], stamps[Slot(c)]) == Newest(history, c)
    }

    /** Where the `c`-th newest entry is. */
    function Slot(c: nat): (i: nat)
      requires next < 16 && c < 16
      reads this`next
      ensures i < 16
    {
      if c < next then next - 1 - c else next + 15 - c
    }

    constructor ()
      ensures Valid() && history == EMPTY && fresh(crcs) && fresh(stamps)
    {
      crcs := new bv32[16](_ => 0);
      stamps := new Millis[16](_ => 0);
      next := 0;
      history := EMPTY;
    }

    /** `csp_dedup_is_duplicate`, given the checksum of the framed packet and the clock. */
    method IsDuplicate(crc: bv32, time: Millis) returns (dup: bool)
      requires Valid()
      modifies this, crcs, stamps
      ensures Valid()
      ensures dup == Duplicate(old(history), crc, time)
      ensures history == if dup then old(history) else Record(old(history), crc, time)
    {
      var i := if next == 0 then 15 else next - 1;
      ghost var c := 0;
      while i != next
        invariant 0 <= c <= 15 && i == Slot(c)
        invariant forall d :: 0 <= d < c ==> !TooOld(time, Newest(history, d).stamp) && Newest(history, d).crc != crc
        decreases 15 - c
      {
        if TooOld(time, stamps[i]) {
          break;
        }
        if crc == crcs[i] {
          assert HitAt(history, crc, time, c);
          return true;
        }
        i := if i == 0 then 15 else i - 1;
        c := c + 1;
      }
      assert !Duplicate(history, crc, time);
      Insert(crc, time);
      return false;
    }

    method Insert(crc: bv32, time: Millis)
      requires Valid()
      modifies this, crcs, stamps
      ensures Valid() && history == Record(old(history), crc, time)
    {
      ghost var before := history;
      crcs[next] := crc;
      stamps[next] := time;
      next := if next == 15 then 0 else next + 1;
      history := Record(history, crc, time);
      forall c | 0 <= c < COUNT
        ensures Entry(crcs[Slot(c)], stamps[Slot(c)]) == Newest(history, c)
      {
        if c == 0 {
          assert Slot(c) == old(next);
        } else {
          var k := Slot(c);
          assert k == old(Slot(c - 1)) != old(next);
          assert old(Entry(crcs[Slot(c - 1)], stamps[Slot(c - 1)])) == Newest(before, c - 1);
          assert crcs[k] == old(crcs[k]) && stamps[k] == old(stamps[k]);
          assert Newest(history, c) == Newest(before, c - 1);
        }
      }
    }
  }

  // ----- the early exit is sound for a clock that does not run backward -----

  /** Stamps in order, none later than `time`. */
  ghost predicate InOrder(h: History, time: Millis) {
    && (forall i, j :: 0 <= i < j < |h| ==> h[i].stamp <= h[j].stamp)
    && h[|h| - 1].stamp <= time
  }

  /** Stamps that are in the past and do not wrap with the window: the test for too old is the plain one. */
  lemma AgeInOrder(time: Millis, stamp: Millis)
    requires stamp <= time && time + WINDOW_MS < 0x1_0000_0000
    ensures TooOld(time, stamp) <==> Age(time, stamp) > WINDOW_MS
  {}

  lemma EarlyExitSound(h: History, crc: bv32, time: Millis)
    requires InOrder(h, time) && time + WINDOW_MS < 0x1_0000_0000
    ensures Duplicate(h, crc, time) <==> SeenRecently(h, crc, time)
  {
    hide TooOld, Age;
    forall c: nat | c < 15
      ensures TooOld(time, Newest(h, c).stamp) <==> !Recent(Newest(h, c), time)
    {
      AgeInOrder(time, Newest(h, c).stamp);
    }
    if c: nat :| HitAt(h, crc, time, c) {
      assert SeenAt(h, crc, time, c);
    }
    if c: nat :| SeenAt(h, crc, time, c) {
      forall d | 0 <= d <= c
        ensures !TooOld(time, Newest(h, d).stamp)
      {
        NewerIsRecent(h, time, c, d);
      }
      assert HitAt(h, crc, time, c);
    }
  }

  lemma NewerIsRecent(h: History, time: Millis, c: nat, d: nat)
    requires InOrder(h, time) && d <= c < 15 && Recent(Newest(h, c), time)
    ensures Recent(Newest(h, d), time)
  {
    assert Newest(h, c).stamp <= Newest(h, d).stamp <= time;
  }

  // ----- three ways to fail -----

  /** The clock went back by 200 ms: an entry behind an older one is missed. */
  lemma EarlyExitMisses()
    ensures var h := Record(Record(EMPTY, 7, 300), 8, 100);
            SeenRecently(h, 7, 350) && !Duplicate(h, 7, 350)
  {
    var h := Record(Record(EMPTY, 7, 300), 8, 100);
    assert SeenAt(h, 7, 350, 1);
    assert Newest(h, 0) == Entry(8, 100) && TooOld(350, 100);
  }

  /** The clock is about to wrap: only 16 ms have passed, and the entry is missed. */
  lemma EarlyExitMissesAtWrap()
    ensures var h := Record(EMPTY, 7, 0xFFFF_FFC0);
            SeenRecently(h, 7, 0xFFFF_FFD0) && !Duplicate(h, 7, 0xFFFF_FFD0)
  {
    var h := Record(EMPTY, 7, 0xFFFF_FFC0);
    assert SeenAt(h, 7, 0xFFFF_FFD0, 0);
    assert Newest(h, 0) == Entry(7, 0xFFFF_FFC0) && TooOld(0xFFFF_FFD0, 0xFFFF_FFC0);
  }

  /** The newest entry is from just before the clock wrapped. */
  const BEFORE_WRAP: History := Record(EMPTY, 7, 0xFFFF_FF00)

  /** The clock has wrapped: at every time before the next wrap the entry is long past, and taken for a recent one. */
  lemma StaleTakenForRecent(time: Millis)
    requires time < 0xFFFF_FF00
    ensures Duplicate(BEFORE_WRAP, 7, time) && !SeenRecently(BEFORE_WRAP, 7, time)
  {
    assert Newest(BEFORE_WRAP, 0) == Entry(7, 0xFFFF_FF00);
    assert HitAt(BEFORE_WRAP, 7, time, 0);
    forall c: nat | c < 15
      ensures !SeenAt(BEFORE_WRAP, 7, time, c)
    {
      assert c > 0 ==> Newest(BEFORE_WRAP, c) == Entry(0, 0);
    }
  }

  /** What is dropped is not recorded, so the same packet is dropped again and again, for as long as that lasts. */
  lemma {:induction false} DroppedAgainAndAgain(run: seq<Arrival>)
    requires forall i :: 0 <= i < |run| ==> run[i].crc == 7 && run[i].time < 0xFFFF_FF00
    ensures forall i :: 0 <= i < |run| ==> Answers(BEFORE_WRAP, run, false)[i]
    decreases |run|
  {
    if run != [] {
      StaleTakenForRecent(run[0].time);
      DroppedAgainAndAgain(run[1..]);
      AnswersTail(BEFORE_WRAP, run, false);
    }
  }

  // ----- what one packet leads to -----

  lemma NewestFirst(h: History, crc: bv32, time: Millis, c: nat)
    requires c <= |h|
    ensures Newest(Record(h, crc, time), c) == if c == 0 then Entry(crc, time) else Newest(h, c - 1)
  {}

  /** A packet that comes again is a duplicate for 100 ms and no longer, whatever was recorded before. */
  lemma RepeatedWithin100ms(h: History, crc: bv32, time: Millis, delay: nat)
    requires time + 100 < 0x1_0000_0000 && time + delay < 0x1_0000_0000
    ensures Duplicate(Record(h, crc, time), crc, time + delay) <==> delay <= 100
  {
    var r := Record(h, crc, time);
    NewestFirst(h, crc, time, 0);
    if delay <= 100 {
      assert HitAt(r, crc, time + delay, 0);
    }
  }

  ghost function RecordAll(h: History, crcs: seq<bv32>, time: Millis): (r: History)
    ensures |r| == |h| + |crcs|
  {
    if crcs == [] then h else Record(RecordAll(h, crcs[..|crcs| - 1], time), crcs[|crcs| - 1], time)
  }

  lemma {:induction false} AllRecorded(h: History, crcs: seq<bv32>, time: Millis, c: nat)
    requires c < |h| + |crcs|
    ensures Newest(RecordAll(h, crcs, time), c)
         == if c < |crcs| then Entry(crcs[|crcs| - 1 - c], time) else Newest(h, c - |crcs|)
    decreases |crcs|
  {
    if crcs != [] {
      var front := crcs[..|crcs| - 1];
      NewestFirst(RecordAll(h, front, time), crcs[|crcs| - 1], time, c);
      if c > 0 {
        AllRecorded(h, front, time, c - 1);
      }
    }
  }

  lemma RecordedAt(h: History, crc: bv32, others: seq<bv32>, time: Millis, c: nat)
    requires c <= |others|
    ensures var e := Newest(RecordAll(Record(h, crc, time), others, time), c);
            e.stamp == time && if c == |others| then e.crc == crc else e.crc in others
  {
    hide RecordAll, Record, Newest;
    AllRecorded(Record(h, crc, time), others, time, c);
    if c == |others| {
      NewestFirst(h, crc, time, 0);
    }
  }

  /** It is forgotten as soon as 15 other packets have been recorded, and not before. */
  lemma ForgottenAfter15(h: History, crc: bv32, others: seq<bv32>, time: Millis)
    requires time + 100 < 0x1_0000_0000 && crc !in others
    ensures Duplicate(RecordAll(Record(h, crc, time), others, time), crc, time) <==> |others| < 15
  {
    hide RecordAll, Record, Newest;
    var r := RecordAll(Record(h, crc, time), others, time);
    forall c: nat | c <= |others|
      ensures Newest(r, c).stamp == time && (Newest(r, c).crc == crc <==> c == |others|)
    {
      RecordedAt(h, crc, others, time, c);
    }
    if |others| < 15 {
      assert HitAt(r, crc, time, |others|);
    }
  }

  // ----- exactly when the early exit is sound -----

  /** How many of the 15 newest entries the scan gets to see, starting with the `c`-th. */
  function Reach(h: History, time: Millis, c: nat): (reach: nat)
    requires c <= 15
    ensures c <= reach <= 15
    ensures forall d :: c <= d < reach ==> !TooOld(time, Newest(h, d).stamp)
    ensures reach < 15 ==> TooOld(time, Newest(h, reach).stamp)
    decreases 15 - c
  {
    if c == 15 || TooOld(time, Newest(h, c).stamp) then c else Reach(h, time, c + 1)
  }

  /** The scan finds exactly what is in its reach. */
  lemma ScanSees(h: History, crc: bv32, time: Millis)
    ensures Duplicate(h, crc, time) <==> InReach(h, crc, time)
  {
    var reach := Reach(h, time, 0);
    if c: nat :| HitAt(h, crc, time, c) {
      assert !TooOld(time, Newest(h, c).stamp);
      assert c < reach;
    }
    if c :| 0 <= c < reach && Newest(h, c).crc == crc {
      assert HitAt(h, crc, time, c);
    }
  }

  ghost predicate InReach(h: History, crc: bv32, time: Millis) {
    exists c :: 0 <= c < Reach(h, time, 0) && Newest(h, c).crc == crc
  }

  /** One of the 15 newest entries is recent and has this checksum. */
  ghost predicate OneRecent(h: History, crc: bv32, time: Millis) {
    exists c :: 0 <= c < 15 && Recent(Newest(h, c), time) && Newest(h, c).crc == crc
  }

  /** A recent entry beyond the scan's reach has this checksum, and none within reach has. */
  ghost predicate Hidden(h: History, crc: bv32, time: Millis) {
    && (exists c :: Reach(h, time, 0) <= c < 15 && Recent(Newest(h, c), time) && Newest(h, c).crc == crc)
    && (forall d :: 0 <= d < Reach(h, time, 0) ==> Newest(h, d).crc != crc)
  }

  /** An entry within the scan's reach has this checksum, and no entry with it is recent, in reach or beyond. */
  ghost predicate Stale(h: History, crc: bv32, time: Millis) {
    && (exists c :: 0 <= c < Reach(h, time, 0) && Newest(h, c).crc == crc)
    && (forall d :: 0 <= d < 15 && Newest(h, d).crc == crc ==> !Recent(Newest(h, d), time))
  }

  /** A single question is answered wrongly exactly when the entry in point is hidden or stale. */
  lemma WrongIfHiddenOrStale(h: History, crc: bv32, time: Millis)
    ensures Duplicate(h, crc, time) != SeenRecently(h, crc, time) <==> Hidden(h, crc, time) || Stale(h, crc, time)
  {
    hide Duplicate, Recent, SeenRecently;
    ScanSees(h, crc, time);
    OneRecentIsSeen(h, crc, time);
    if OneRecent(h, crc, time) && !InReach(h, crc, time) {
      var c: nat :| c < 15 && Recent(Newest(h, c), time) && Newest(h, c).crc == crc;
      assert c >= Reach(h, time, 0);
    }
    if InReach(h, crc, time) && !OneRecent(h, crc, time) {
      assert Stale(h, crc, time);
    }
  }

  /** No recent entry is hidden: one beyond the scan's reach recurs within. */
  ghost predicate NothingHidden(h: History, time: Millis) {
    forall c :: Reach(h, time, 0) <= c < 15 && Recent(Newest(h, c), time) ==> InReach(h, Newest(h, c).crc, time)
  }

  /** Nothing within the scan's reach is stale: it is recent, or a recent entry has the same checksum. */
  ghost predicate NothingStale(h: History, time: Millis) {
    forall c :: 0 <= c < Reach(h, time, 0) && !Recent(Newest(h, c), time) ==> OneRecent(h, Newest(h, c).crc, time)
  }

  lemma OneRecentIsSeen(h: History, crc: bv32, time: Millis)
    ensures OneRecent(h, crc, time) <==> SeenRecently(h, crc, time)
  {
    hide Recent;
    if c: nat :| c < 15 && Recent(Newest(h, c), time) && Newest(h, c).crc == crc {
      assert SeenAt(h, crc, time, c);
    }
    if c: nat :| SeenAt(h, crc, time, c) {
      assert Recent(Newest(h, c), time);
    }
  }

  /** The scan answers every question as the plain list does if and only if nothing is hidden and nothing stale. */
  lemma EarlyExitExact(h: History, time: Millis)
    ensures (forall crc :: Duplicate(h, crc, time) <==> SeenRecently(h, crc, time))
       <==> NothingHidden(h, time) && NothingStale(h, time)
  {
    hide Duplicate;
    if forall crc :: Duplicate(h, crc, time) <==> SeenRecently(h, crc, time) {
      forall c | 0 <= c < 15 && Recent(Newest(h, c), time)
        ensures InReach(h, Newest(h, c).crc, time)
      {
        assert SeenAt(h, Newest(h, c).crc, time, c);
        ScanSees(h, Newest(h, c).crc, time);
      }
      forall c | 0 <= c < Reach(h, time, 0)
        ensures OneRecent(h, Newest(h, c).crc, time)
      {
        assert InReach(h, Newest(h, c).crc, time);
        ScanSees(h, Newest(h, c).crc, time);
        OneRecentIsSeen(h, Newest(h, c).crc, time);
      }
    }
    if NothingHidden(h, time) && NothingStale(h, time) {
      forall crc
        ensures Duplicate(h, crc, time) <==> SeenRecently(h, crc, time)
      {
        ScanSees(h, crc, time);
        AsThePlainList(h, crc, time);
      }
    }
  }

  lemma AsThePlainList(h: History, crc: bv32, time: Millis)
    requires NothingHidden(h, time) && NothingStale(h, time)
    ensures InReach(h, crc, time) <==> SeenRecently(h, crc, time)
  {
    hide Recent;
    OneRecentIsSeen(h, crc, time);
    if c: nat :| SeenAt(h, crc, time, c) {
      assert Newest(h, c).crc == crc;
      if c < Reach(h, time, 0) {
        assert InReach(h, crc, time);
      }
    }
    if c :| 0 <= c < Reach(h, time, 0) && Newest(h, c).crc == crc {
      if Recent(Newest(h, c), time) {
        assert SeenAt(h, crc, time, c);
      }
    }
  }

  /** Of different packets: exactly if the entries that nothing too old stands at or in front of are the recent ones. */
  lemma EarlyExitExactForDistinct(h: History, time: Millis)
    requires forall c, d :: 0 <= c < d < 15 ==> Newest(h, c).crc != Newest(h, d).crc
    ensures (forall crc :: Duplicate(h, crc, time) <==> SeenRecently(h, crc, time))
       <==> (forall c :: 0 <= c < 15 ==> (Recent(Newest(h, c), time) <==> NothingTooOld(h, time, c)))
  {
    hide Duplicate, Recent, NothingTooOld;
    EarlyExitExact(h, time);
    forall c: nat | c < 15
      ensures NothingTooOld(h, time, c) <==> c < Reach(h, time, 0)
    {
      ReachIsFront(h, time, c);
    }
    if NothingHidden(h, time) && NothingStale(h, time) {
      forall c: nat | c < 15
        ensures Recent(Newest(h, c), time) <==> c < Reach(h, time, 0)
      {
        AsThePlainList(h, Newest(h, c).crc, time);
      }
    }
  }

  ghost predicate NothingTooOld(h: History, time: Millis, c: nat)
    requires c < 15
  {
    forall d :: 0 <= d <= c ==> !TooOld(time, Newest(h, d).stamp)
  }

  lemma ReachIsFront(h: History, time: Millis, c: nat)
    requires c < 15
    ensures NothingTooOld(h, time, c) <==> c < Reach(h, time, 0)
  {
    hide TooOld;
    var reach := Reach(h, time, 0);
    if reach <= c {
      assert TooOld(time, Newest(h, reach).stamp);
    }
  }

  datatype Arrival = Arrival(crc: bv32, time: Millis)

  /** The answers over a whole run, given how a single question is answered. */
  ghost function Answers(h: History, run: seq<Arrival>, plain: bool): (a: seq<bool>)
    ensures |a| == |run|
    decreases |run|
  {
    if run == [] then [] else
    var x := run[0];
    var dup := if plain then SeenRecently(h, x.crc, x.time) else Duplicate(h, x.crc, x.time);
    [dup] + Answers(if dup then h else Record(h, x.crc, x.time), run[1..], plain)
  }

  ghost predicate ClockRunsForward(run: seq<Arrival>) {
    && (forall i, j :: 0 <= i < j < |run| ==> run[i].time <= run[j].time)
    && (forall i :: 0 <= i < |run| ==> run[i].time + WINDOW_MS < 0x1_0000_0000)
  }

  /** Over any run with a clock that neither runs backward nor wraps, the ring answers as the plain list does. */
  lemma {:induction false} RunAgrees(h: History, run: seq<Arrival>)
    requires ClockRunsForward(run) && (run != [] ==> InOrder(h, run[0].time))
    ensures Answers(h, run, false) == Answers(h, run, true)
    decreases |run|
  {
    hide Duplicate, SeenRecently;
    if run != [] {
      var x := run[0];
      EarlyExitSound(h, x.crc, x.time);
      RunAgrees(if Duplicate(h, x.crc, x.time) then h else Record(h, x.crc, x.time), run[1..]);
    }
  }

  /** In particular from the empty ring. */
  lemma RunFromEmptyAgrees(run: seq<Arrival>)
    requires ClockRunsForward(run)
    ensures Answers(EMPTY, run, false) == Answers(EMPTY, run, true)
  {
    RunAgrees(EMPTY, run);
  }

  /** No packet of the run meets a hidden or a stale entry. */
  ghost predicate NeverHiddenOrStale(h: History, run: seq<Arrival>)
    decreases |run|
  {
    run == [] ||
    var x := run[0];
    && !Hidden(h, x.crc, x.time) && !Stale(h, x.crc, x.time)
    && NeverHiddenOrStale(if Duplicate(h, x.crc, x.time) then h else Record(h, x.crc, x.time), run[1..])
  }

  /**
   Over a whole run, whatever the clock does: the ring answers as the plain list does if and only if
   no packet meets an entry that is hidden from the scan, or one that only seems recent.
   */
  lemma {:induction false} RunAgreesExactly(h: History, run: seq<Arrival>)
    ensures Answers(h, run, false) == Answers(h, run, true) <==> NeverHiddenOrStale(h, run)
    decreases |run|
  {
    hide Duplicate, SeenRecently, Hidden, Stale;
    if run != [] {
      var x := run[0];
      WrongIfHiddenOrStale(h, x.crc, x.time);
      var dup := Duplicate(h, x.crc, x.time);
      RunAgreesExactly(if dup then h else Record(h, x.crc, x.time), run[1..]);
      assert Answers(h, run, false)[0] == dup && Answers(h, run, true)[0] == SeenRecently(h, x.crc, x.time);
      AnswersTail(h, run, false);
      AnswersTail(h, run, true);
    }
  }

  lemma AnswersTail(h: History, run: seq<Arrival>, plain: bool)
    requires run != []
    ensures var x := run[0];
            var dup := if plain then SeenRecently(h, x.crc, x.time) else Duplicate(h, x.crc, x.time);
            && Answers(h, run, plain)[1..] == Answers(if dup then h else Record(h, x.crc, x.time), run[1..], plain)
            && Answers(h, run, plain) == [dup] + Answers(h, run, plain)[1..]
  {}

  // ----- the ring answers a whole run -----

  lemma AnswersStep(h: History, run: seq<Arrival>, i: nat, before: seq<bool>, dup: bool)
    requires i < |run| && dup == Duplicate(h, run[i].crc, run[i].time)
    ensures before + Answers(h, run[i..], false)
         == before + [dup] + Answers(if dup then h else Record(h, run[i].crc, run[i].time), run[i + 1..], false)
  {
    hide Duplicate;
    assert run[i..][1..] == run[i + 1..];
  }

  /** The same run put to the ring, one packet after the other. */
  method AnswerRun(run: seq<Arrival>) returns (answers: seq<bool>)
    ensures answers == Answers(EMPTY, run, false)
    ensures ClockRunsForward(run) ==> answers == Answers(EMPTY, run, true)
  {
    hide Duplicate, SeenRecently, Record, ClockRunsForward, DedupRing.Valid;
    var ring := new DedupRing();
    answers := [];
    var i := 0;
    assert run[0..] == run;
    while i < |run|
      invariant 0 <= i <= |run| && ring.Valid() && fresh(ring) && fresh(ring.crcs) && fresh(ring.stamps)
      invariant answers + Answers(ring.history, run[i..], false) == Answers(EMPTY, run, false)
    {
      ghost var history := ring.history;
      var dup := ring.IsDuplicate(run[i].crc, run[i].time);
      AnswersStep(history, run, i, answers, dup);
      answers := answers + [dup];
      i := i + 1;
    }
    if ClockRunsForward(run) {
      RunFromEmptyAgrees(run);
    }
  }
}
