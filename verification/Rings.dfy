/** One series of one range: a ring of slots, one for each of the last time buckets. */
module Rings {
  import opened Common
  import opened Division
  import opened DataPack

  const LENG: nat := 950
  const NODATA: Long := 0xFFFF_FFFF_FFFF_FFFF
  const HALF: nat := 0x8000_0000

  datatype Mode = Add | Max

  /** The slots, the slot of the newest bucket, and that bucket's number. */
  datatype Ring = Ring(tab: seq<Long>, ptr: nat, clock: nat)

  predicate IsRing(r: Ring) {
    |r.tab| == LENG && r.ptr < LENG
  }

  /** The slot of the bucket that is `age` buckets old. */
  function Slot(ptr: nat, age: nat): (s: nat)
    requires ptr < LENG && age < LENG
    ensures s < LENG
  {
    if age <= ptr then ptr - age else ptr + LENG - age
  }

  function Aged(r: Ring, age: nat): Long
    requires IsRing(r) && age < LENG
  {
    r.tab[Slot(r.ptr, age)]
  }

  function Empty(clock: nat): Ring {
    Ring(seq(LENG, _ => NODATA), 0, clock)
  }

  // ----- adding a sample --------------------------------------------------------------------

  function Turn(r: Ring): (t: Ring)
    requires IsRing(r)
    ensures IsRing(t)
  {
    var ptr := (r.ptr + 1) % LENG;
    r.(ptr := ptr, tab := r.tab[ptr := NODATA])
  }

  function Turned(r: Ring, n: nat): (t: Ring)
    requires IsRing(r)
    ensures IsRing(t) && t.clock == r.clock
    decreases n
  {
    if n == 0 then r else Turned(Turn(r), n - 1)
  }

  function Sum64(a: nat, b: nat): Long {
    (a + b) % 0x1_0000_0000_0000_0000
  }

  /** Sums wrap around like 64-bit numbers. */
  function Combine(mode: Mode, slot: Long, value: Long): Long {
    if slot == NODATA then value
    else if mode == Add then Sum64(slot, value)
    else if value > slot then value
    else slot
  }

  function Later(clock: nat, now: nat): nat {
    if now > clock then now else clock
  }

  /** The difference of two times of 32 bits, wrapped into a signed number of 32 bits. */
  function Delta(now: nat, clock: nat): int {
    if now + HALF < clock then now - clock + 2 * HALF
    else if now >= clock + HALF then now - clock - 2 * HALF
    else now - clock
  }

  /** The times are not too far apart for that. */
  predicate Near(now: nat, clock: nat) {
    clock <= now + HALF && now < clock + HALF
  }

  /** The clock after a time has been seen. */
  function Clocked(clock: nat, now: nat): nat {
    if Delta(now, clock) > 0 then now else clock
  }

  /** How old the bucket of that time then is. */
  function AgeOf(clock: nat, now: nat): nat {
    if Delta(now, clock) > 0 then 0 else -Delta(now, clock)
  }

  lemma NearTimes(now: nat, clock: nat)
    requires Near(now, clock)
    ensures Delta(now, clock) == now - clock && Clocked(clock, now) == Later(clock, now)
    ensures AgeOf(clock, now) == Later(clock, now) - now
  {
  }

  /** A clock follows the time exactly if it is at most 2^31 ahead; otherwise it is set
      back. */
  lemma FarClock(clock: nat, now: nat)
    requires clock < 0x1_0000_0000 && now < HALF
    ensures Clocked(clock, now) == Later(clock, now) <==> clock <= now + HALF
    ensures clock > now + HALF ==> Clocked(clock, now) == now
  {
  }

  function AdvancedTo(r: Ring, now: nat): (t: Ring)
    requires IsRing(r)
    ensures IsRing(t) && t.clock == Clocked(r.clock, now)
  {
    var d := Delta(now, r.clock);
    if d > 0 then Turned(r, if d > LENG then LENG else d).(clock := now) else r
  }

  function Put(r: Ring, age: nat, mode: Mode, value: Long): (t: Ring)
    requires IsRing(r) && age < LENG
    ensures IsRing(t) && t.clock == r.clock
  {
    var i := Slot(r.ptr, age);
    r.(tab := r.tab[i := Combine(mode, r.tab[i], value)])
  }

  /** A sample for a bucket: a later bucket turns the ring, a bucket that is too old is
      ignored. */
  function AddTo(r: Ring, now: nat, value: Option<Long>, mode: Mode): (t: Ring)
    requires IsRing(r)
    ensures IsRing(t) && t.clock == Clocked(r.clock, now)
  {
    var a, age := AdvancedTo(r, now), AgeOf(r.clock, now);
    if age < LENG && value.Some? then Put(a, age, mode, value.value) else a
  }

  // ----- what a ring stands for ---------------------------------------------------------------

  datatype Sample = Sample(bucket: nat, value: Long)

  function Total(h: seq<Sample>, bucket: int): nat {
    if h == [] then 0
    else Total(h[..|h| - 1], bucket) + (if h[|h| - 1].bucket == bucket then h[|h| - 1].value else 0)
  }

  function Greatest(h: seq<Sample>, bucket: int): nat {
    if h == [] then 0
    else
      var g, last := Greatest(h[..|h| - 1], bucket), h[|h| - 1];
      if last.bucket == bucket && last.value > g then last.value else g
  }

  predicate Any(h: seq<Sample>, bucket: int) {
    exists i | 0 <= i < |h| :: h[i].bucket == bucket
  }

  /** All samples that were ever added for a bucket, summed or maximised. */
  function Aggregate(h: seq<Sample>, mode: Mode, bucket: int): Option<nat> {
    if !Any(h, bucket) then None
    else Some(if mode == Add then Total(h, bucket) else Greatest(h, bucket))
  }

  /** What a slot says; the greatest number stands for missing data. */
  function Meaning(slot: Long): Option<nat> {
    if slot == NODATA then None else Some(slot)
  }

  /** The aggregate is a number that a slot can hold. */
  predicate Fits(h: seq<Sample>, mode: Mode, bucket: int) {
    Aggregate(h, mode, bucket).Some? ==> Aggregate(h, mode, bucket).value < NODATA
  }

  /** The samples of a bucket, put into a slot one after the other. */
  function Fold(h: seq<Sample>, mode: Mode, bucket: int): Long {
    if h == [] then NODATA
    else
      var f, last := Fold(h[..|h| - 1], mode, bucket), h[|h| - 1];
      if last.bucket == bucket then Combine(mode, f, last.value) else f
  }

  /** Every slot holds all samples of its bucket, over the whole history. */
  ghost predicate Represents(r: Ring, h: seq<Sample>, mode: Mode) {
    && IsRing(r)
    && (forall i | 0 <= i < |h| :: h[i].bucket <= r.clock)
    && (forall age | 0 <= age < LENG :: Aged(r, age) == Fold(h, mode, r.clock - age))
  }

  /** Every slot says what the aggregate of its bucket is, exactly if it can. */
  ghost predicate Shows(r: Ring, h: seq<Sample>, mode: Mode) {
    && IsRing(r)
    && forall age | 0 <= age < LENG ::
         Meaning(Aged(r, age)) == Aggregate(h, mode, r.clock - age) <==> Fits(h, mode, r.clock - age)
  }

  lemma TurnAges(r: Ring, age: nat)
    requires IsRing(r) && age < LENG
    ensures Aged(Turn(r), age) == if age == 0 then NODATA else Aged(r, age - 1)
  {
  }

  lemma {:induction false} TurnedAges(r: Ring, n: nat, age: nat)
    requires IsRing(r) && age < LENG
    ensures Aged(Turned(r, n), age) == if age < n then NODATA else Aged(r, age - n)
    decreases n
  {
    if n > 0 {
      TurnedAges(Turn(r), n - 1, age);
      if age >= n {
        TurnAges(r, age - (n - 1));
      } else if age == n - 1 {
        TurnAges(r, 0);
      }
    }
  }

  lemma PutAges(r: Ring, at: nat, mode: Mode, value: Long, age: nat)
    requires IsRing(r) && at < LENG && age < LENG
    ensures Aged(Put(r, at, mode, value), age)
         == if age == at then Combine(mode, Aged(r, at), value) else Aged(r, age)
  {
  }

  /** Turning the ring shows only buckets for which nothing has been added. */
  lemma AdvancedRepresents(r: Ring, h: seq<Sample>, mode: Mode, now: nat)
    requires Represents(r, h, mode) && Near(now, r.clock)
    ensures Represents(AdvancedTo(r, now), h, mode)
  {
    NearTimes(now, r.clock);
    if now > r.clock {
      var t := AdvancedTo(r, now);
      var n := if now - r.clock > LENG then LENG else now - r.clock;
      forall age | 0 <= age < LENG
        ensures Aged(t, age) == Fold(h, mode, t.clock - age)
      {
        TurnedAges(r, n, age);
        if age < n {
          NothingAdded(h, mode, now - age);
        } else {
          assert Aged(r, age - n) == Fold(h, mode, r.clock - (age - n));
        }
      }
    }
  }

  lemma AnyAppend(h: seq<Sample>, s: Sample, bucket: int)
    ensures Any(h + [s], bucket) <==> Any(h, bucket) || s.bucket == bucket
  {
    var k := h + [s];
    assert k[|h|] == s && forall i | 0 <= i < |h| :: k[i] == h[i];
    if Any(h, bucket) {
      var i :| 0 <= i < |h| && h[i].bucket == bucket;
      assert k[i].bucket == bucket;
    }
  }

  lemma {:induction false} NothingAdded(h: seq<Sample>, mode: Mode, bucket: int)
    requires !Any(h, bucket)
    ensures Fold(h, mode, bucket) == NODATA && Total(h, bucket) == 0 && Greatest(h, bucket) == 0
  {
    if h != [] {
      var n := |h| - 1;
      assert h == h[..n] + [h[n]];
      AnyAppend(h[..n], h[n], bucket);
      NothingAdded(h[..n], mode, bucket);
    }
  }

  /** A slot says the aggregate of its bucket exactly if that is less than the number that
      stands for missing data. */
  lemma {:induction false} FoldShows(h: seq<Sample>, mode: Mode, bucket: int)
    ensures Meaning(Fold(h, mode, bucket)) == Aggregate(h, mode, bucket) <==> Fits(h, mode, bucket)
  {
    if h != [] {
      var n := |h| - 1;
      assert h == h[..n] + [h[n]];
      AnyAppend(h[..n], h[n], bucket);
      FoldShows(h[..n], mode, bucket);
      if !Any(h[..n], bucket) {
        NothingAdded(h[..n], mode, bucket);
      }
    }
  }

  lemma RepresentsShows(r: Ring, h: seq<Sample>, mode: Mode)
    requires Represents(r, h, mode)
    ensures Shows(r, h, mode)
  {
    forall age | 0 <= age < LENG
      ensures Meaning(Aged(r, age)) == Aggregate(h, mode, r.clock - age) <==> Fits(h, mode, r.clock - age)
    {
      FoldShows(h, mode, r.clock - age);
    }
  }

  /** Adding a sample keeps what the ring stands for, however late the sample is and however
      far the time has jumped, up to 2^31 buckets. */
  lemma AddRepresents(r: Ring, h: seq<Sample>, mode: Mode, s: Sample)
    requires Represents(r, h, mode) && Near(s.bucket, r.clock)
    ensures Represents(AddTo(r, s.bucket, Some(s.value), mode), h + [s], mode)
  {
    NearTimes(s.bucket, r.clock);
    AdvancedRepresents(r, h, mode, s.bucket);
    var a := AdvancedTo(r, s.bucket);
    var t := AddTo(r, s.bucket, Some(s.value), mode);
    assert (h + [s])[..|h|] == h;
    forall age | 0 <= age < LENG
      ensures Aged(t, age) == Fold(h + [s], mode, t.clock - age)
    {
      if a.clock - s.bucket < LENG {
        PutAges(a, a.clock - s.bucket, mode, s.value, age);
      }
    }
  }

  // ----- runs -----------------------------------------------------------------------------------

  /** A call: the local time in seconds, and a sample if there is one. */
  datatype Call = Call(local: nat, value: Option<Long>)

  function AddCall(r: Ring, c: Call, period: nat, mode: Mode): (t: Ring)
    requires IsRing(r) && period > 0
    ensures IsRing(t)
  {
    AddTo(r, c.local / period, c.value, mode)
  }

  function Run(r: Ring, calls: seq<Call>, period: nat, mode: Mode): (t: Ring)
    requires IsRing(r) && period > 0
    ensures IsRing(t)
  {
    if calls == [] then r
    else AddCall(Run(r, calls[..|calls| - 1], period, mode), calls[|calls| - 1], period, mode)
  }

  /** What a call adds to the history. */
  function Given(c: Call, period: nat): seq<Sample>
    requires period > 0
  {
    if c.value.Some? then [Sample(c.local / period, c.value.value)] else []
  }

  /** All samples of a run, with their buckets. */
  function Samples(calls: seq<Call>, period: nat): seq<Sample>
    requires period > 0
  {
    if calls == [] then []
    else Samples(calls[..|calls| - 1], period) + Given(calls[|calls| - 1], period)
  }

  /** The clock is at most 2^31, and the times are signed numbers of 32 bits. */
  predicate Timely(clock: nat, calls: seq<Call>) {
    clock <= HALF && forall i | 0 <= i < |calls| :: calls[i].local < HALF
  }

  lemma DivideLess(a: nat, k: nat)
    requires k > 0
    ensures a / k <= a
  {
    Recompose(a, k);
    Product(1, k, a / k);
  }

  lemma NearBucket(clock: nat, local: nat, period: nat)
    requires clock <= HALF && local < HALF && period > 0
    ensures Near(local / period, clock) && Clocked(clock, local / period) <= HALF
  {
    DivideLess(local, period);
    NearTimes(local / period, clock);
  }

  lemma {:induction false} TimelyClock(r: Ring, calls: seq<Call>, period: nat, mode: Mode)
    requires IsRing(r) && period > 0 && Timely(r.clock, calls)
    ensures Run(r, calls, period, mode).clock <= HALF
    ensures calls != [] ==> var n := |calls| - 1;
                            Near(calls[n].local / period, Run(r, calls[..n], period, mode).clock)
    decreases |calls|
  {
    if calls != [] {
      var n := |calls| - 1;
      TimelyClock(r, calls[..n], period, mode);
      NearBucket(Run(r, calls[..n], period, mode).clock, calls[n].local, period);
    }
  }

  lemma CallRepresents(r: Ring, h: seq<Sample>, c: Call, period: nat, mode: Mode)
    requires period > 0 && Represents(r, h, mode) && Near(c.local / period, r.clock)
    ensures Represents(AddCall(r, c, period, mode), h + Given(c, period), mode)
  {
    if c.value.Some? {
      AddRepresents(r, h, mode, Sample(c.local / period, c.value.value));
    } else {
      assert h + [] == h;
      AdvancedRepresents(r, h, mode, c.local / period);
    }
  }

  /** A run puts its samples into the ring, after those that are there already. */
  lemma {:induction false} RunRepresents(r: Ring, h: seq<Sample>, calls: seq<Call>, period: nat, mode: Mode)
    requires period > 0 && Represents(r, h, mode) && Timely(r.clock, calls)
    ensures Represents(Run(r, calls, period, mode), h + Samples(calls, period), mode)
    decreases |calls|
  {
    if calls == [] {
      assert h + [] == h;
    } else {
      var n := |calls| - 1;
      var before, given := Samples(calls[..n], period), Given(calls[n], period);
      RunRepresents(r, h, calls[..n], period, mode);
      TimelyClock(r, calls, period, mode);
      CallRepresents(Run(r, calls[..n], period, mode), h + before, calls[n], period, mode);
      assert h + before + given == h + (before + given);
    }
  }

  /** After every run from empty charts, each slot in the window of a range says the sum, or
      the maximum, of all samples ever added for its time bucket, exactly if that is less
      than the number for missing data. */
  lemma RunShows(clock: nat, calls: seq<Call>, period: nat, mode: Mode)
    requires period > 0 && Timely(clock, calls)
    ensures Shows(Run(Empty(clock), calls, period, mode), Samples(calls, period), mode)
  {
    assert Represents(Empty(clock), [], mode);
    RunRepresents(Empty(clock), [], calls, period, mode);
    assert [] + Samples(calls, period) == Samples(calls, period);
    RepresentsShows(Run(Empty(clock), calls, period, mode), Samples(calls, period), mode);
  }

  // ----- clocks -----------------------------------------------------------------------------------

  lemma ClockStep(fine: nat, coarse: nat, a: nat, b: nat, k: nat)
    requires k > 0 && coarse == fine / k && b == a / k
    ensures Later(coarse, b) == Later(fine, a) / k
  {
    if a > fine {
      DivMonotone(fine, a, k);
    } else {
      DivMonotone(a, fine, k);
    }
  }

  function ClockRun(clock: nat, calls: seq<Call>, period: nat): nat
    requires period > 0
  {
    if calls == [] then clock
    else
      var n := |calls| - 1;
      Later(ClockRun(clock, calls[..n], period), calls[n].local / period)
  }

  lemma CallClock(r: Ring, c: Call, period: nat, mode: Mode)
    requires IsRing(r) && period > 0 && Near(c.local / period, r.clock)
    ensures AddCall(r, c, period, mode).clock == Later(r.clock, c.local / period)
  {
    NearTimes(c.local / period, r.clock);
  }

  lemma {:induction false} RunClock(r: Ring, calls: seq<Call>, period: nat, mode: Mode)
    requires IsRing(r) && period > 0 && Timely(r.clock, calls)
    ensures Run(r, calls, period, mode).clock == ClockRun(r.clock, calls, period)
    decreases |calls|
  {
    if calls != [] {
      var n := |calls| - 1;
      RunClock(r, calls[..n], period, mode);
      TimelyClock(r, calls, period, mode);
      CallClock(Run(r, calls[..n], period, mode), calls[n], period, mode);
    }
  }

  /** In every run the clock of a coarse range is the floor of the clock of a fine one. */
  lemma {:induction false} CoarseClock(fine: nat, coarse: nat, calls: seq<Call>, period: nat, k: nat,
                                       longPeriod: nat)
    requires period > 0 && k > 0 && longPeriod == period * k > 0 && coarse == fine / k
    ensures ClockRun(coarse, calls, longPeriod) == ClockRun(fine, calls, period) / k
    decreases |calls|
  {
    if calls != [] {
      var n := |calls| - 1;
      CoarseClock(fine, coarse, calls[..n], period, k, longPeriod);
      DivideTwice(calls[n].local, period, k);
      ClockStep(ClockRun(fine, calls[..n], period), ClockRun(coarse, calls[..n], longPeriod),
                calls[n].local / period, calls[n].local / longPeriod, k);
    }
  }

  /** The clocks of two rings that go through the same calls. */
  lemma CoarseRun(fine: Ring, coarse: Ring, calls: seq<Call>, period: nat, k: nat, longPeriod: nat,
                  mode: Mode, other: Mode)
    requires IsRing(fine) && IsRing(coarse) && period > 0 && k > 0 && longPeriod == period * k > 0
    requires coarse.clock == fine.clock / k && Timely(fine.clock, calls)
    ensures Run(coarse, calls, longPeriod, other).clock == Run(fine, calls, period, mode).clock / k
  {
    DivideLess(fine.clock, k);
    RunClock(fine, calls, period, mode);
    RunClock(coarse, calls, longPeriod, other);
    CoarseClock(fine.clock, coarse.clock, calls, period, k, longPeriod);
  }
}
