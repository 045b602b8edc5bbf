/**
 Position tracking of the mmap'ed PCM ring (plugins/tinyalsa/src/agm_pcm_plugin.c): an unwrapped
 hardware pointer, modulo a boundary, rebuilt from the DSP's circular read index.  Frame pointers
 are 64-bit; where the source computes in 32 bits the wrap-around is written out.
 */
module PcmPointer {
  import opened Common
  import opened Arithmetic

  const TWO_TO_THE_32: nat := 0x1_0000_0000
  const LARGEST: nat := 0x7fff_ffff
  const SECOND: nat := 1_000_000

  // ---------------------------------------------------------------- periods

  /** Whole periods in `x` frames. */
  function Floored(x: nat, period: nat): (f: nat)
    requires period > 0
    ensures f <= x < f + period
  {
    if x < period then 0 else Floored(x - period, period) + period
  }

  lemma {:induction false} FlooredCount(x: nat, period: nat) returns (q: nat)
    requires period > 0
    ensures Floored(x, period) == Times(q, period)
  {
    if x < period {
      q := 0;
    } else {
      q := FlooredCount(x - period, period);
      q := q + 1;
    }
  }

  lemma FlooredIs(x: nat, period: nat)
    requires period > 0
    ensures Floored(x, period) == x / period * period
  {
    var q := FlooredCount(x, period);
    TimesIs(q, period);
    DivModOf(q, period, x - q * period);
  }

  /** Flooring an absolute position keeps its lap and floors its place in the ring. */
  lemma {:induction false} FlooredLap(periods: nat, x: nat, period: nat)
    requires period > 0
    ensures Floored(Times(periods, period) + x, period) == Times(periods, period) + Floored(x, period)
  {
    if periods > 0 {
      FlooredLap(periods - 1, x, period);
    }
  }

  // ---------------------------------------------------------------- conversions

  /** agm_pcm_frames_to_bytes, with its 32-bit product. */
  function FramesToBytes(frames: nat, channels: nat, bits: nat): nat {
    frames * channels * (bits / 8) % TWO_TO_THE_32
  }

  /** agm_pcm_bytes_to_frames, with its 32-bit product. */
  function BytesToFrames(bytes: nat, frameBits: nat): nat
    requires frameBits > 0
  {
    bytes * 8 % TWO_TO_THE_32 / frameBits
  }

  /** The conversions are inverse exactly as long as the bit count of the frames fits 32 bits. */
  lemma FramesRoundTrip(frames: nat, channels: nat, bits: nat)
    requires channels * bits > 0 && bits % 8 == 0
    ensures BytesToFrames(FramesToBytes(frames, channels, bits), channels * bits) == frames
            <==> frames * (channels * bits) < TWO_TO_THE_32
  {
    BytesTimesEight(frames, channels, bits);
    LowBytes(frames * channels * (bits / 8));
    FitsOneWord(frames, channels * bits);
  }

  /** The frame a byte offset of the ring truly falls into. */
  function FrameAt(bytes: nat, frameBits: nat): nat
    requires frameBits > 0
  {
    bytes * 8 / frameBits
  }

  /** The 32-bit conversion finds the true frame exactly if the offset in bits fits 32 bits; else a smaller one. */
  lemma ConversionIsTrue(bytes: nat, frameBits: nat)
    requires 0 < frameBits <= TWO_TO_THE_32
    ensures BytesToFrames(bytes, frameBits) == FrameAt(bytes, frameBits) <==> bytes * 8 < TWO_TO_THE_32
    ensures BytesToFrames(bytes, frameBits) <= FrameAt(bytes, frameBits)
  {
    var x := bytes * 8;
    if x >= TWO_TO_THE_32 {
      assert x % TWO_TO_THE_32 + frameBits <= x;
      LessByOne(x % TWO_TO_THE_32, x, frameBits);
    }
  }

  lemma LessByOne(a: nat, b: nat, w: nat)
    requires w > 0 && a + w <= b
    ensures a / w < b / w
  {
    assert a == a / w * w + a % w && b == b / w * w + b % w;
    if a / w >= b / w {
      MulMonotone(b / w, a / w, w);
    }
  }

  /** Every offset of a ring converts to its true frame exactly if the ring's bits fit 32 bits. */
  lemma RingConverts(total: nat, frameBits: nat)
    requires total > 0 && 0 < frameBits <= TWO_TO_THE_32 && frameBits % 8 == 0
    ensures (forall bytes: nat | FrameAt(bytes, frameBits) < total :: BytesToFrames(bytes, frameBits) == FrameAt(bytes, frameBits))
            <==> total * frameBits <= TWO_TO_THE_32
  {
    if total * frameBits <= TWO_TO_THE_32 {
      forall bytes: nat | FrameAt(bytes, frameBits) < total
        ensures BytesToFrames(bytes, frameBits) == FrameAt(bytes, frameBits)
      {
        InsideRing(bytes, total, frameBits);
        ConversionIsTrue(bytes, frameBits);
      }
    } else {
      LastByte(total, frameBits);
      var bytes := total * frameBits / 8 - 1;
      ConversionIsTrue(bytes, frameBits);
    }
  }

  lemma InsideRing(bytes: nat, total: nat, frameBits: nat)
    requires frameBits > 0
    ensures FrameAt(bytes, frameBits) < total <==> bytes * 8 < total * frameBits
  {
    var x := bytes * 8;
    var q := x / frameBits;
    assert x == q * frameBits + x % frameBits;
    if q < total {
      MulStrict(q, total, frameBits);
    } else {
      MulMonotone(total, q, frameBits);
    }
  }

  lemma LastByte(total: nat, frameBits: nat)
    requires total > 0 && frameBits > 0 && frameBits % 8 == 0
    ensures var bytes := total * frameBits / 8 - 1;
            bytes >= 0 && FrameAt(bytes, frameBits) < total && bytes * 8 == total * frameBits - 8
  {
    var k := frameBits / 8;
    assert total * frameBits == total * k * 8;
    MulMonotone(1, total, frameBits);
    InsideRing(total * frameBits / 8 - 1, total, frameBits);
  }

  lemma FitsOneWord(frames: nat, w: nat)
    requires w > 0
    ensures frames * w % TWO_TO_THE_32 / w == frames <==> frames * w < TWO_TO_THE_32
  {
    var x := frames * w;
    if x < TWO_TO_THE_32 {
      DivModOf(frames, w, 0);
    } else {
      WholePart(x % TWO_TO_THE_32, w);
    }
  }

  lemma WholePart(y: nat, w: nat)
    requires w > 0
    ensures y / w * w <= y
  {
    assert y == y / w * w + y % w;
  }

  lemma BytesTimesEight(frames: nat, channels: nat, bits: nat)
    requires bits % 8 == 0
    ensures frames * channels * (bits / 8) * 8 == frames * (channels * bits)
  {
    var b := bits / 8;
    var fc := frames * channels;
    assert fc * b * 8 == fc * (b * 8);
    assert fc * bits == frames * (channels * bits);
  }

  lemma LowBytes(bytes: nat)
    ensures bytes % TWO_TO_THE_32 * 8 % TWO_TO_THE_32 == bytes * 8 % TWO_TO_THE_32
  {
    var q, low := bytes / TWO_TO_THE_32, bytes % TWO_TO_THE_32;
    assert bytes * 8 == low * 8 + q * 8 * TWO_TO_THE_32;
  }

  // ---------------------------------------------------------------- boundary

  function Pow2(k: nat): (p: nat)
    ensures p > 0
  {
    if k == 0 then 1 else 2 * Pow2(k - 1)
  }

  /** The boundary loop of agm_pcm_mmap: the largest doubling of the ring that leaves room for one more ring. */
  method Boundary(total: nat) returns (boundary: nat, k: nat)
    requires 0 < total <= LARGEST
    ensures boundary == Times(Pow2(k), total) && boundary <= LARGEST
    ensures boundary == total || boundary <= LARGEST - total
    ensures forall j: nat :: Times(Pow2(j), total) <= LARGEST - total ==> Times(Pow2(j), total) <= boundary
    ensures 3 * total <= LARGEST ==> k > 0
  {
    boundary, k := total, 0;
    assert Times(1, total) == total;
    while boundary * 2 % TWO_TO_THE_32 <= LARGEST - total
      invariant boundary == Times(Pow2(k), total) && total <= boundary <= LARGEST
      invariant boundary == total || boundary <= LARGEST - total
      decreases LARGEST - boundary
    {
      TimesAdds(Pow2(k), Pow2(k), total);
      boundary := boundary * 2;
      k := k + 1;
    }
    forall j: nat | Times(Pow2(j), total) <= LARGEST - total ensures Times(Pow2(j), total) <= boundary {
      TimesAdds(Pow2(k), Pow2(k), total);
      TimesOrdered(Pow2(j), Pow2(k + 1), total);
      TimesOrdered(Pow2(k), Pow2(j), total);
      if j > k {
        Pow2Grows(k + 1, j);
      } else {
        Pow2Grows(j, k);
      }
    }
  }

  lemma {:induction false} Pow2Grows(j: nat, k: nat)
    requires j <= k
    ensures Pow2(j) <= Pow2(k)
  {
    if j < k {
      Pow2Grows(j, k - 1);
    }
  }

  // ---------------------------------------------------------------- the hardware pointer

  /** A consistent snapshot of the shared position buffer: read index in bytes, wall clock in microseconds. */
  datatype Sample = Sample(index: nat, wall: nat)

  /** Laps the wall clock says went by; the cached clock counts only once it is set, and only in whole seconds. */
  function Crossed(cached: nat, wall: nat, rate: nat, channels: nat, total: nat): nat
    requires total > 0
  {
    if cached == 0 || wall <= cached then 0
    else (wall - cached) / SECOND * rate * channels % TWO_TO_THE_32 / total
  }

  /**
   `laps` whole rings fit into the frames that the whole seconds since the cached clock are worth, which are
   counted in 32 bits; without a cached clock, or with one that is not behind, none do.
   */
  ghost predicate LapsGone(cached: nat, wall: nat, rate: nat, channels: nat, total: nat, laps: nat) {
    if cached == 0 || wall <= cached then laps == 0
    else
      forall s: nat | WholeSeconds(wall - cached, s) ::
        laps * total <= s * rate * channels % TWO_TO_THE_32 < laps * total + total
  }

  predicate WholeSeconds(micros: nat, s: nat) {
    s * SECOND <= micros < (s + 1) * SECOND
  }

  lemma CrossedMeans(cached: nat, wall: nat, rate: nat, channels: nat, total: nat)
    requires total > 0
    ensures LapsGone(cached, wall, rate, channels, total, Crossed(cached, wall, rate, channels, total))
  {
    if cached != 0 && wall > cached {
      forall s: nat | WholeSeconds(wall - cached, s)
        ensures var laps := Crossed(cached, wall, rate, channels, total);
                laps * total <= s * rate * channels % TWO_TO_THE_32 < laps * total + total
      {
        assert (wall - cached) / SECOND == s;
        var frames := s * rate * channels % TWO_TO_THE_32;
        assert frames == frames / total * total + frames % total;
      }
    }
  }

  lemma NoLapWithinASecond(cached: nat, wall: nat, rate: nat, channels: nat, total: nat)
    requires total > 0 && (cached == 0 || wall < cached + SECOND)
    ensures Crossed(cached, wall, rate, channels, total) == 0
  {
    if cached != 0 && wall > cached {
      assert (wall - cached) / SECOND == 0;
      assert 0 * rate * channels == 0;
    }
  }

  /** One lap is noticed by the place falling back: right exactly if less than a ring went by. */
  lemma LapsNoticed(total: nat, n: nat, x: nat, d: nat, was: nat, now: nat)
    requires n >= 2 && was < total && now < total && was <= Times(d, total) + now < was + Times(n, total)
    ensures var seen := if now < was then 1 else 0;
            (x + seen) % n == (x + d) % n <==> Times(d, total) + now < was + total
  {
    TimesOrdered(d, n, total);
    ModStep(x, n, d);
    ModStep(x, n, 1);
    ModStep(x, n, 0);
    if d >= 2 {
      TimesOrdered(d, 1, total);
    }
    assert Times(1, total) == total;
  }

  /** What happens to a ring during a stream; `lap` is the lap the DSP truly was on when it was sampled. */
  datatype Event =
    | Poll(sample: Option<Sample>, lap: nat)
    | ResetRing(sample: Option<Sample>, lap: nat)
    | PrepareStream

  /** Where the tracking stands: the reference fields of a ring, and its cached clock. */
  datatype Position = Position(slot: nat, seen: nat, wall: nat, lap: nat, place: nat, originLap: nat)

  class Ring {
    const periods: nat
    const period: nat
    const rate: nat
    const channels: nat
    const frameBits: nat
    const total: nat
    const boundary: nat
    var hwPtr: nat
    var base: nat
    var wall: nat

    /**
     The reference the pointer is compared with: the boundary holds `slots` rings and the base is at the
     start of one of them; the DSP truly was at `place` on lap `lap` when it was last read, and the code
     took it to be at `seen`; the pointer last counted from zero on lap `originLap`.
     */
    ghost const slots: nat
    ghost var slot: nat
    ghost var lap: nat
    ghost var place: nat
    ghost var seen: nat
    ghost var originLap: nat

    ghost predicate Valid()
      reads this
    {
      && period > 0 && 0 < frameBits <= TWO_TO_THE_32 && frameBits % 8 == 0
      && total == Times(periods, period) && boundary == Times(slots, total) && place < total
      && seen < total && slot < slots && base == Times(slot, total) && hwPtr == base + Floored(seen, period)
    }

    /** The base is on the slot of the DSP's true lap, and the code saw the DSP's true place. */
    ghost predicate Tracked()
      reads this
      requires Valid()
    {
      originLap <= lap && slot == (lap - originLap) % slots && seen == place
    }

    /** A fresh mapping (agm_pcm_mmap): pointers zero, the DSP at the start of the ring. */
    constructor (periods: nat, period: nat, rate: nat, channels: nat, bits: nat)
      requires periods > 0 && period > 0 && Times(periods, period) <= LARGEST
      requires 0 < channels * bits <= TWO_TO_THE_32 && channels * bits % 8 == 0
      ensures Valid() && Tracked() && hwPtr == 0 && wall == 0 && total == Times(periods, period)
      ensures lap == 0 && place == 0 && frameBits == channels * bits
      ensures 3 * total <= LARGEST ==> slots >= 2
      ensures total < boundary ==> total + boundary <= LARGEST
    {
      TimesOrdered(periods, 0, period);
      this.periods, this.period, this.rate, this.channels, this.frameBits := periods, period, rate, channels, channels * bits;
      this.total := Times(periods, period);
      var b, k := Boundary(Times(periods, period));
      this.boundary := b;
      this.slots := Pow2(k);
      hwPtr, base, wall := 0, 0, 0;
      slot, lap, place, seen, originLap := 0, 0, 0, 0, 0;
      assert k > 0 ==> Pow2(k) == 2 * Pow2(k - 1);
      DivModOf(0, Pow2(k), 0);
    }

    /** The read index is an offset into the ring. */
    predicate InRing(sample: Sample)
      requires frameBits > 0
    {
      FrameAt(sample.index, frameBits) < total
    }

    /** agm_pcm_plugin_update_hw_ptr, after the retries of the shared read. */
    method UpdateHwPtr(sample: Option<Sample>, ghost trueLap: nat) returns (ret: Status)
      requires Valid() && (sample.Some? ==> InRing(sample.value))
      modifies this
      ensures Valid() && originLap == old(originLap)
      ensures sample.None? ==> !ret.Ok? && hwPtr == old(hwPtr) && base == old(base) && wall == old(wall)
                               && slot == old(slot) && lap == old(lap) && place == old(place) && seen == old(seen)
      ensures sample.Some? ==>
                && ret.Ok? && wall == sample.value.wall && lap == trueLap && place == FrameAt(sample.value.index, frameBits)
                && (seen == place <==> sample.value.index * 8 < TWO_TO_THE_32) && Pos() == Sampled(old(Pos()), sample.value, trueLap)
                && LapsGone(old(wall), sample.value.wall, rate, channels, total,
                            Crossed(old(wall), sample.value.wall, rate, channels, total))
                && var jump := Crossed(old(wall), sample.value.wall, rate, channels, total);
                   var laps := if jump > 0 then jump else if Floored(seen, period) < Floored(old(seen), period) then 1 else 0;
                   slot == if old(slot) + laps >= slots then 0 else old(slot) + laps
      // Only a wrap of the base to zero moves the pointer backwards.
      ensures hwPtr < old(hwPtr) ==> base == 0
    {
      if sample.None? {
        return Io;
      }
      var frames := BytesToFrames(sample.value.index, frameBits);
      ConversionIsTrue(sample.value.index, frameBits);
      var pos := frames / period * period;
      FlooredIs(frames, period);
      var crossed := Crossed(wall, sample.value.wall, rate, channels, total);
      CrossedMeans(wall, sample.value.wall, rate, channels, total);
      Advance(pos, crossed);
      lap, place, seen := trueLap, FrameAt(sample.value.index, frameBits), frames;
      wall := sample.value.wall;
      ret := Ok;
    }

    /** Moves the base by the laps seen or estimated, and the pointer to `pos` past it. */
    method Advance(pos: nat, crossed: nat)
      requires Valid() && pos < total
      modifies this`base, this`hwPtr, this`slot
      ensures var laps := if crossed > 0 then crossed else if pos < Floored(seen, period) then 1 else 0;
              slot == if old(slot) + laps >= slots then 0 else old(slot) + laps
      ensures slot < slots && base == Times(slot, total) && hwPtr == base + pos
      ensures hwPtr < old(hwPtr) ==> base == 0
    {
      var newPtr := base + pos;
      ghost var laps: nat := if crossed > 0 then crossed else if newPtr < hwPtr then 1 else 0;
      TimesAdds(slot, laps, total);
      TimesOrdered(slot + laps, slots, total);
      TimesOrdered(laps, 0, total);
      TimesIs(crossed, total);
      if crossed > 0 {
        base := base + crossed * total;
        if base >= boundary {
          base := 0;
        }
        newPtr := base + pos;
      } else if newPtr < hwPtr {
        assert Times(1, total) == total;
        base := base + total;
        if base >= boundary {
          base := 0;
        }
        newPtr := base + pos;
      }
      slot := if slot + laps >= slots then 0 else slot + laps;
      hwPtr := newPtr;
    }

    /** The floored position of a sample, counted from the start of lap `from`. */
    function Travelled(sample: Sample, from: nat, trueLap: nat): nat
      requires period > 0 && frameBits > 0 && from <= trueLap
    {
      Times(trueLap - from, total) + Floored(FrameAt(sample.index, frameBits), period)
    }

    /** The sample comes less than a ring of whole periods, and less than a second, after the DSP was at `place` on lap `from`. */
    predicate OnTime(sample: Sample, trueLap: nat, from: nat, place: nat, wall: nat)
      requires period > 0 && frameBits > 0
    {
      && from <= trueLap
      && Floored(place, period) <= Travelled(sample, from, trueLap) < Floored(place, period) + total
      && WithinASecond(sample, wall)
    }

    predicate WithinASecond(sample: Sample, wall: nat) {
      wall == 0 || sample.wall < wall + SECOND
    }

    ghost function Pos(): Position
      reads this
    {
      Position(slot, seen, wall, lap, place, originLap)
    }

    /** The position after a successful read. */
    ghost function Sampled(p: Position, sample: Sample, trueLap: nat): Position
      requires period > 0 && frameBits > 0 && total > 0
    {
      var now := BytesToFrames(sample.index, frameBits);
      var jump := Crossed(p.wall, sample.wall, rate, channels, total);
      var laps := if jump > 0 then jump else if Floored(now, period) < Floored(p.seen, period) then 1 else 0;
      Position(if p.slot + laps >= slots then 0 else p.slot + laps, now, sample.wall,
               trueLap, FrameAt(sample.index, frameBits), p.originLap)
    }

    /** The position after an event; a poll that is late, or any sample outside the ring, does not happen. */
    ghost function After(p: Position, e: Event): Position
      requires period > 0 && frameBits > 0 && total > 0
    {
      match e
      case Poll(sample, trueLap) =>
        if sample.Some? && InRing(sample.value) && OnTime(sample.value, trueLap, p.lap, p.place, p.wall)
        then Sampled(p, sample.value, trueLap) else p
      case ResetRing(sample, trueLap) =>
        if sample.Some? && !InRing(sample.value) then p
        else
          var q := if sample.Some? then Sampled(p, sample.value, trueLap) else p;
          q.(slot := 0, wall := 0, originLap := q.lap)
      case PrepareStream => p.(wall := 0)
    }

    ghost function AfterAll(p: Position, events: seq<Event>): Position
      requires period > 0 && frameBits > 0 && total > 0
    {
      if events == [] then p else After(AfterAll(p, events[..|events| - 1]), events[|events| - 1])
    }

    /**
     One poll.  An on-time sample keeps the pointer on the DSP's true position exactly if its offset in
     bits fits 32 bits; a sample within the second that does fit, exactly if less than one ring went by.
     */
    method Sync(sample: Option<Sample>, ghost trueLap: nat) returns (ret: Status)
      requires Valid() && (sample.Some? ==> InRing(sample.value))
      modifies this
      ensures Valid() && originLap == old(originLap)
      ensures Pos() == if sample.Some? then Sampled(old(Pos()), sample.value, trueLap) else old(Pos())
      ensures sample.None? ==> !ret.Ok? && hwPtr == old(hwPtr) && (Tracked() <==> old(Tracked())) && lap == old(lap) && place == old(place)
      ensures sample.Some? ==> ret.Ok? && lap == trueLap && place == FrameAt(sample.value.index, frameBits)
      ensures hwPtr < old(hwPtr) ==> base == 0
      ensures sample.Some? && old(Tracked()) && old(OnTime(sample.value, trueLap, lap, place, wall)) ==>
                (Tracked() <==> sample.value.index * 8 < TWO_TO_THE_32)
      ensures sample.Some? && old(Tracked()) && old(lap) <= trueLap && slots >= 2
              && WithinASecond(sample.value, old(wall)) && sample.value.index * 8 < TWO_TO_THE_32
              && Floored(old(place), period) <= Travelled(sample.value, old(lap), trueLap) < Floored(old(place), period) + boundary ==>
                (Tracked() <==> Travelled(sample.value, old(lap), trueLap) < Floored(old(place), period) + total)
    {
      ret := UpdateHwPtr(sample, trueLap);
      if sample.Some? && old(Tracked()) && old(lap) <= trueLap && WithinASecond(sample.value, old(wall)) && seen == place {
        NoLapWithinASecond(old(wall), sample.value.wall, rate, channels, total);
        ghost var x, d := old(lap) - originLap, trueLap - old(lap);
        ghost var was, now := Floored(old(place), period), Floored(place, period);
        ModStep(x, slots, if now < was then 1 else 0);
        if slots >= 2 {
          TimesOrdered(slots, 1, total);
          if was <= Times(d, total) + now < was + boundary {
            LapsNoticed(total, slots, x, d, was, now);
          }
        }
      }
    }

    /** agm_pcm_plugin_reset: whatever went before, the pointer counts from the DSP's current lap. */
    method Reset(sample: Option<Sample>, ghost trueLap: nat)
      requires Valid() && (sample.Some? ==> InRing(sample.value))
      modifies this
      ensures Valid() && base == 0 && wall == 0 && originLap == lap && hwPtr == Floored(seen, period)
      ensures if sample.Some? then lap == trueLap && place == FrameAt(sample.value.index, frameBits)
              else lap == old(lap) && place == old(place)
      ensures var q := if sample.Some? then Sampled(old(Pos()), sample.value, trueLap) else old(Pos());
              Pos() == q.(slot := 0, wall := 0, originLap := q.lap)
      ensures Tracked() <==> if sample.Some? then sample.value.index * 8 < TWO_TO_THE_32 else old(seen == place)
    {
      var _ := UpdateHwPtr(sample, trueLap);
      assert hwPtr % total == Floored(seen, period) by {
        PointerInvariants();
      }
      assert 0 % slots == 0;
      hwPtr := hwPtr % total;
      base := 0;
      wall := 0;
      slot, originLap := 0, lap;
    }

    /** agm_pcm_prepare forgets the wall clock. */
    method PrepareStreamClock()
      requires Valid()
      modifies this`wall
      ensures Valid() && wall == 0 && (Tracked() <==> old(Tracked()))
    {
      wall := 0;
    }

    /**
     Every run of polls, failed reads, resets and prepares in which the polls come in time, on a ring whose
     bits fit 32 bits, leaves the pointer on the DSP's true floored position since the last reset, modulo
     the boundary.  `lap` and `place` are where the DSP was when it was last read.
     */
    method Run(events: seq<Event>, lap: nat, place: nat)
      requires Valid() && Tracked() && lap == this.lap && place == this.place && total * frameBits <= TWO_TO_THE_32
      modifies this
      ensures Valid() && Tracked() && Pos() == AfterAll(old(Pos()), events)
      ensures Times(originLap, total) <= Floored(Times(this.lap, total) + this.place, period)
      ensures hwPtr == (Floored(Times(this.lap, total) + this.place, period) - Times(originLap, total)) % boundary
    {
      var lastLap, lastPlace := lap, place;
      for i := 0 to |events|
        invariant Valid() && Tracked() && lastLap == this.lap && lastPlace == this.place
        invariant Pos() == AfterAll(old(Pos()), events[..i])
      {
        assert events[..i + 1][..i] == events[..i];
        lastLap, lastPlace := Do(events[i], lastLap, lastPlace);
      }
      assert events[..|events|] == events;
      TrackedMeans();
    }

    /** One event of a run; answers where the DSP was when it was last read. */
    method Do(e: Event, lap: nat, place: nat) returns (newLap: nat, newPlace: nat)
      requires Valid() && Tracked() && lap == this.lap && place == this.place && total * frameBits <= TWO_TO_THE_32
      modifies this
      ensures Valid() && Tracked() && Pos() == After(old(Pos()), e)
      ensures newLap == this.lap && newPlace == this.place
    {
      newLap, newPlace := lap, place;
      match e {
        case Poll(sample, trueLap) =>
          if sample.None? {
            var _ := Sync(sample, trueLap);
          } else if InRing(sample.value) && OnTime(sample.value, trueLap, lap, place, wall) {
            InsideRing(sample.value.index, total, frameBits);
            var _ := Sync(sample, trueLap);
            newLap, newPlace := trueLap, FrameAt(sample.value.index, frameBits);
          }
        case ResetRing(sample, trueLap) =>
          if sample.None? {
            Reset(sample, trueLap);
          } else if InRing(sample.value) {
            InsideRing(sample.value.index, total, frameBits);
            Reset(sample, trueLap);
            newLap, newPlace := trueLap, FrameAt(sample.value.index, frameBits);
          }
        case PrepareStream =>
          PrepareStreamClock();
      }
    }

    /** The pointer invariants, whatever the wall clock made of the last laps and the conversion of the place. */
    lemma PointerInvariants()
      requires Valid()
      ensures base % total == 0 && base < boundary && hwPtr < boundary
      ensures hwPtr % total == Floored(seen, period) && Floored(seen, period) <= seen
    {
      TimesIs(slot, total);
      TimesOrdered(slots, slot, total);
      DivModOf(slot, total, 0);
      DivModOf(slot, total, Floored(seen, period));
    }

    /** What tracking means in absolute frames. */
    lemma TrackedMeans()
      requires Valid() && Tracked()
      ensures Times(originLap, total) <= Floored(Times(lap, total) + place, period)
      ensures hwPtr == (Floored(Times(lap, total) + place, period) - Times(originLap, total)) % boundary
    {
      SinceOrigin(lap, originLap, place, periods, period, total);
      Wrapped(lap - originLap, slots, total, Floored(place, period));
    }
  }

  lemma SinceOrigin(lap: nat, originLap: nat, place: nat, periods: nat, period: nat, total: nat)
    requires period > 0 && originLap <= lap && total == Times(periods, period)
    ensures Floored(Times(lap, total) + place, period) - Times(originLap, total)
            == Times(lap - originLap, total) + Floored(place, period)
  {
    FlooredAbsolute(lap, place, periods, period);
    TimesAdds(originLap, lap - originLap, total);
  }

  lemma FlooredAbsolute(lap: nat, place: nat, periods: nat, period: nat)
    requires period > 0
    ensures Floored(Times(lap, Times(periods, period)) + place, period)
            == Times(lap, Times(periods, period)) + Floored(place, period)
  {
    TimesTwice(lap, periods, period);
    FlooredLap(lap * periods, place, period);
  }

  /** `x` laps wrap to `x % slots` laps at a boundary of `slots` laps. */
  lemma Wrapped(x: nat, slots: nat, total: nat, off: nat)
    requires slots > 0 && off < total
    ensures (Times(x, total) + off) % Times(slots, total) == Times(x % slots, total) + off
  {
    var q, slot := x / slots, x % slots;
    assert x == q * slots + slot;
    TimesAdds(q * slots, slot, total);
    TimesTwice(q, slots, total);
    TimesIs(q, Times(slots, total));
    TimesOrdered(slots, slot, total);
    DivModOf(q, Times(slots, total), Times(slot, total) + off);
  }

  // ---------------------------------------------------------------- available space

  /** agm_pcm_get_avail. */
  function Avail(capture: bool, hw: nat, appl: nat, total: nat, boundary: nat): int {
    if capture then
      var d := hw - appl;
      if d < 0 then d + boundary else d
    else
      var d := hw + total - appl;
      if d < 0 then d + boundary else if d >= boundary then d - boundary else d
  }

  /** Frames written and not yet played, on the circle of length `boundary`. */
  function Fill(hw: nat, appl: nat, boundary: nat): nat
    requires boundary > 0
  {
    (appl - hw) % boundary
  }

  /** Playback space is the ring minus its fill exactly while the fill fits the ring; captured frames are a difference on the circle. */
  lemma AvailMeans(hw: nat, appl: nat, total: nat, boundary: nat)
    requires hw < boundary && appl < boundary && 0 < total < boundary
    ensures 0 <= Avail(false, hw, appl, total, boundary) < boundary
    ensures Avail(false, hw, appl, total, boundary) == total - Fill(hw, appl, boundary) <==> Fill(hw, appl, boundary) <= total
    ensures Avail(false, hw, appl, total, boundary) == (hw + total - appl) % boundary
    ensures Avail(true, hw, appl, total, boundary) == (hw - appl) % boundary
  {
    CircleDifference(appl, hw, boundary);
    CircleDifference(hw, appl, boundary);
    var d := hw + total - appl;
    if d >= boundary {
      DivModOf(1, boundary, d - boundary);
    } else if d >= 0 {
      DivModOf(0, boundary, d);
    } else {
      CircleDifference(hw + total, appl, boundary);
    }
  }

  lemma CircleDifference(a: nat, b: nat, n: nat)
    requires a < n && b < n
    ensures (a - b) % n == if a >= b then a - b else a - b + n
  {
    if a < b {
      var r := a - b + n;
      var k := (a - b) / n;
      assert a - b == k * n + (a - b) % n;
      assert k == -1;
    }
  }
}
