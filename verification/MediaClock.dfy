/**
 The media clock. Incoming 32-bit RTP timestamps (section 5.1 of RFC 3550) are unwrapped by
 Deframer.Deframe, turned into durations by FromTS, turned back into ticks by ToTS and
 emitted as differences modulo 2^32 by framer.delta.

 Machine arithmetic is explicit: products are 128 bits wide, and a division whose quotient
 does not fit 64 bits stops the program, which is the result None.
 */
module MediaClock {
  import opened Bytes
  import opened Wrappers
  import opened H264Util
  import opened Arithmetic

  const SECOND: nat := 1_000_000_000
  const TWO31: nat := 0x8000_0000
  const TWO63: nat := 0x8000_0000_0000_0000
  const TWO64: nat := 0x1_0000_0000_0000_0000

  // ---------------------------------------------------------------- machine words

  /** The conversion of a signed 64-bit value to an unsigned one. */
  function U64(t: int): nat {
    t % 0x1_0000_0000_0000_0000
  }

  /** The conversion of an unsigned 64-bit value to a signed one. */
  function S64(q: nat): int {
    if q < TWO63 then q else q - TWO64
  }

  /** bits.Mul64: the high and low words of a product. */
  function Mul64(x: nat, y: nat): (nat, nat) {
    (x * y / 0x1_0000_0000_0000_0000, x * y % 0x1_0000_0000_0000_0000)
  }

  /** bits.Div64: panics on a zero divisor and on a quotient wider than 64 bits. */
  function Div64(hi: nat, lo: nat, y: nat): Option<nat> {
    if y <= hi then None else Some((hi * 0x1_0000_0000_0000_0000 + lo) / y)
  }

  function ToTS(t: int, rate: nat): Option<nat> {
    var (hi, lo) := Mul64(U64(t), rate);
    Div64(hi, lo, SECOND)
  }

  function FromTS(ts: nat, rate: nat): Option<int> {
    var (hi, lo) := Mul64(ts, SECOND);
    match Div64(hi, lo, rate)
    case None => None
    case Some(q) => Some(S64(q))
  }

  lemma {:induction false} WideDivision(x: nat, y: nat, d: nat)
    ensures var (hi, lo) := Mul64(x, y);
            Div64(hi, lo, d) == if x * y < TWO64 * d then Some(x * y / d) else None
  {
    var p := x * y;
    DivBelow(p, TWO64, d);
  }

  // ---------------------------------------------------------------- definedness and bounds

  lemma {:induction false} ToTSValue(t: int, rate: nat)
    requires rate <= SECOND
    ensures ToTS(t, rate) == Some(U64(t) * rate / SECOND)
  {
    WideDivision(U64(t), rate, SECOND);
    MulMonotone(U64(t), rate, SECOND);
  }

  lemma {:induction false} FromTSValueIff(ts: nat, rate: nat)
    ensures FromTS(ts, rate).Some? <==> 0 < rate && ts * SECOND / rate < TWO64
    ensures FromTS(ts, rate).Some? ==> FromTS(ts, rate).value == S64(ts * SECOND / rate)
  {
    WideDivision(ts, SECOND, rate);
    if 0 < rate {
      DivBelow(ts * SECOND, rate, TWO64);
    }
  }

  /** For every rate up to 10^9 ticks a second and every 64-bit duration the 128-by-64-bit
      division is defined, and the result is the floor of the exact quotient. */
  lemma {:induction false} ToTSDefined(t: int, rate: nat)
    requires rate <= 1_000_000_000
    ensures ToTS(t, rate) == Some(t % 0x1_0000_0000_0000_0000 * rate / 1_000_000_000)
  {
    ToTSValue(t, rate);
  }

  /** FromTS is defined exactly when the quotient fits 64 bits, and is that quotient as a signed
      64-bit number. */
  lemma {:induction false} FromTSDefinedIff(ts: nat, rate: nat)
    ensures FromTS(ts, rate).Some? <==> 0 < rate && ts * 1_000_000_000 / rate < 0x1_0000_0000_0000_0000
    ensures FromTS(ts, rate).Some? ==>
              var q := ts * 1_000_000_000 / rate;
              FromTS(ts, rate).value == if q < 0x8000_0000_0000_0000 then q else q - 0x1_0000_0000_0000_0000
  {
    FromTSValueIff(ts, rate);
  }

  lemma {:induction false} ToTSMonotone(t: nat, t': nat, rate: nat)
    requires t <= t' < TWO63 && rate <= SECOND
    ensures ToTS(t, rate).Some? && ToTS(t', rate).Some?
    ensures ToTS(t, rate).value <= ToTS(t', rate).value
  {
    ToTSValue(t, rate);
    ToTSValue(t', rate);
    MulMonotone(rate, t, t');
    DivMonotone(t * rate, t' * rate, SECOND);
  }

  predicate InRange(ts: int, rate: nat) {
    0 <= ts && 0 < rate && ts * SECOND / rate < TWO63
  }

  /** Durations grow with their ticks, as long as they stay below the sign bit. */
  lemma {:induction false} FromTSMonotone(ts: nat, ts': nat, rate: nat)
    requires ts <= ts' && InRange(ts', rate)
    ensures InRange(ts, rate)
    ensures FromTS(ts, rate).Some? && FromTS(ts', rate).Some?
    ensures 0 <= FromTS(ts, rate).value <= FromTS(ts', rate).value
  {
    MulMonotone(SECOND, ts, ts');
    DivMonotone(ts * SECOND, ts' * SECOND, rate);
    FromTSValueIff(ts, rate);
    FromTSValueIff(ts', rate);
  }

  function CeilDiv(a: nat, b: nat): nat
    requires 0 < b
  {
    (a + b - 1) / b
  }

  lemma {:induction false} FloorsStayBelow(t: nat, rate: nat, ts: nat, q: nat)
    requires 0 < rate && SECOND * ts <= t * rate && rate * q <= ts * SECOND
    ensures q <= t
  {
    if t < q {
      MulMonotone(rate, t + 1, q);
    }
  }

  lemma {:induction false} FloorsStayClose(t: nat, rate: nat, ts: nat, q: nat, c: nat)
    requires 0 < rate && t * rate < SECOND * ts + SECOND && ts * SECOND < rate * q + rate && SECOND <= rate * c
    ensures t - c <= q
  {
    if q < t - c {
      MulMonotone(rate, q + 1, t - c);
      Distribute(rate, t - c, c);
    }
  }

  /** A duration loses less than one tick on its way through ticks and back. */
  lemma {:induction false} DurationRoundTrip(t: nat, rate: nat)
    requires t < TWO63 && 0 < rate <= SECOND
    ensures ToTS(t, rate).Some? && FromTS(ToTS(t, rate).value, rate).Some?
    ensures t - CeilDiv(SECOND, rate) <= FromTS(ToTS(t, rate).value, rate).value <= t
  {
    ToTSValue(t, rate);
    var ts := t * rate / SECOND;
    DivBounds(t * rate, SECOND);
    DivBounds(ts * SECOND, rate);
    DivBounds(SECOND + rate - 1, rate);
    FloorsStayBelow(t, rate, ts, ts * SECOND / rate);
    FloorsStayClose(t, rate, ts, ts * SECOND / rate, CeilDiv(SECOND, rate));
    FromTSValueIff(ts, rate);
  }

  // ---------------------------------------------------------------- ticks to durations and back

  /** The tick lost on the way through a duration: none exactly when the rate divides
      ts * 10^9. */
  function Loss(ts: nat, rate: nat): (l: nat)
    requires 0 < rate
    ensures l <= 1 && l <= ts
  {
    if ts * SECOND % rate == 0 then 0
    else
      assert ts != 0;
      1
  }

  lemma {:induction false} TickRoundTrip(ts: nat, rate: nat)
    requires 0 < rate <= SECOND && FromTS(ts, rate).Some?
    ensures ToTS(FromTS(ts, rate).value, rate) == Some(ts - Loss(ts, rate))
  {
    FromTSValueIff(ts, rate);
    var p := ts * SECOND;
    var q := p / rate;
    assert U64(S64(q)) == q;
    ToTSValue(S64(q), rate);
    assert p == rate * q + p % rate;
    DivUnique(q * rate, SECOND, ts - Loss(ts, rate));
  }

  /** The two rates the relay uses: video at 90 kHz is exact on multiples of nine ticks,
      audio at 48 kHz on multiples of three. */
  lemma {:induction false} LossAtMediaRates(ts: nat)
    ensures Loss(ts, 90000) == 0 <==> ts % 9 == 0
    ensures Loss(ts, 48000) == 0 <==> ts % 3 == 0
  {
    var q9, r9 := ts / 9, ts % 9;
    assert ts * SECOND == 90000 * (100000 * q9 + 11111 * r9) + 10000 * r9;
    DivUnique(ts * SECOND, 90000, 100000 * q9 + 11111 * r9);
    var q3, r3 := ts / 3, ts % 3;
    assert ts * SECOND == 48000 * (62500 * q3 + 20833 * r3) + 16000 * r3;
    DivUnique(ts * SECOND, 48000, 62500 * q3 + 20833 * r3);
  }

  /** `n` trips from ticks to a duration and back. */
  function Trips(n: nat, ts: nat, rate: nat): Option<nat> {
    if n == 0 then Some(ts)
    else
      match FromTS(ts, rate)
      case None => None
      case Some(t) =>
        match ToTS(t, rate)
        case None => None
        case Some(ts') => Trips(n - 1, ts', rate)
  }

  /** The distance between tick values that convert exactly. */
  function ExactStep(rate: nat): nat
    requires 0 < rate
  {
    var g := Gcd(rate, SECOND);
    DivNonNegative(rate, g);
    rate / g
  }

  lemma {:induction false} LossIff(ts: nat, rate: nat)
    requires 0 < rate
    ensures 0 < ExactStep(rate)
    ensures Loss(ts, rate) == 0 <==> ts % ExactStep(rate) == 0
  {
    DividesProduct(ts, rate, SECOND);
  }

  lemma {:induction false} SmallerTicksDefined(ts: nat, ts': nat, rate: nat)
    requires ts' <= ts && FromTS(ts, rate).Some?
    ensures FromTS(ts', rate).Some?
  {
    FromTSValueIff(ts, rate);
    FromTSValueIff(ts', rate);
    MulMonotone(SECOND, ts', ts);
    DivMonotone(ts' * SECOND, ts * SECOND, rate);
  }

  /** One trip: the tick lost is one more multiple of ExactStep undershot. */
  lemma {:induction false} TripOnce(ts: nat, rate: nat)
    requires 0 < rate <= SECOND && FromTS(ts, rate).Some?
    ensures 0 < ExactStep(rate)
    ensures var ts' := ts - Loss(ts, rate);
            && ToTS(FromTS(ts, rate).value, rate) == Some(ts')
            && FromTS(ts', rate).Some?
            && (ts % ExactStep(rate) == 0 ==> ts' == ts)
            && (ts % ExactStep(rate) != 0 ==>
                  ts' == ts - 1 && ts' % ExactStep(rate) == ts % ExactStep(rate) - 1)
  {
    LossIff(ts, rate);
    TickRoundTrip(ts, rate);
    SmallerTicksDefined(ts, ts - Loss(ts, rate), rate);
    if ts % ExactStep(rate) != 0 {
      RemainderBelow(ts, ExactStep(rate));
    }
  }

  /** Each trip loses one tick until the value is the largest exactly convertible one not above
      `ts`; that takes ts mod ExactStep trips, and every further trip changes nothing. */
  lemma {:induction false} TripsSettle(n: nat, ts: nat, rate: nat)
    requires 0 < rate <= SECOND && FromTS(ts, rate).Some?
    ensures 0 < ExactStep(rate)
    ensures Trips(n, ts, rate) ==
            Some(if n <= ts % ExactStep(rate) then ts - n else ts - ts % ExactStep(rate))
    decreases n
  {
    TripOnce(ts, rate);
    if n != 0 {
      TripsSettle(n - 1, ts - Loss(ts, rate), rate);
    }
  }

  // ---------------------------------------------------------------- unwrapping

  datatype ClockState = ClockState(baseTS: nat, lastTS: nat)

  /** A timestamp below the previous one and in the lower half counts as a wrap. */
  predicate SeenAsWrap(last: nat, x: nat) {
    x < last && x < TWO31
  }

  function NextBase(c: ClockState, x: nat): nat {
    if SeenAsWrap(c.lastTS, x) then (c.baseTS + TWO32) % 0x1_0000_0000_0000_0000 else c.baseTS
  }

  /** The 64-bit tick of one timestamp, and the clock after it. */
  function Unwrap(c: ClockState, x: nat): (ClockState, nat) {
    (ClockState(NextBase(c, x), x), (NextBase(c, x) + x) % 0x1_0000_0000_0000_0000)
  }

  function UnwrapAll(c: ClockState, xs: seq<nat>): (ts: seq<nat>)
    ensures |ts| == |xs|
    decreases |xs|
  {
    if xs == [] then []
    else
      var (c', t) := Unwrap(c, xs[0]);
      [t] + UnwrapAll(c', xs[1..])
  }

  const FRESH_CLOCK := ClockState(0, 0)

  function Epoch(tick: nat): nat {
    tick / 0x1_0000_0000
  }

  function Wire(tick: nat): nat {
    tick % 0x1_0000_0000
  }

  /** Where the 32-bit period of a tick begins. */
  function PeriodStart(tick: nat): (p: nat)
    ensures p % 0x1_0000_0000 == 0 && p <= tick
  {
    tick - Wire(tick)
  }

  function WireAll(ticks: seq<nat>): (xs: seq<nat>)
    ensures |xs| == |ticks|
  {
    if ticks == [] then [] else [Wire(ticks[0])] + WireAll(ticks[1..])
  }

  /** In order, and never more than `step` between neighbours. */
  predicate Paced(prev: nat, ticks: seq<nat>, step: nat)
    decreases |ticks|
  {
    ticks == [] || (prev <= ticks[0] <= prev + step && Paced(ticks[0], ticks[1..], step))
  }

  /** In order, and never a whole 32-bit period between neighbours. */
  predicate InOrder(prev: nat, ticks: seq<nat>) {
    Paced(prev, ticks, TWO32 - 1)
  }

  /** Every step into a new 32-bit period lands in the lower half of it. */
  predicate WrapsLandLow(prev: nat, ticks: seq<nat>)
    decreases |ticks|
  {
    ticks == [] ||
    ((Epoch(prev) != Epoch(ticks[0]) ==> Wire(ticks[0]) < TWO31) && WrapsLandLow(ticks[0], ticks[1..]))
  }

  predicate Shifted(ts: seq<nat>, ticks: seq<nat>, offset: nat)
    requires |ts| == |ticks|
  {
    forall i :: 0 <= i < |ts| ==> ts[i] == ticks[i] - offset
  }

  /** One step of an in-order source: the clock follows exactly when a new period is entered
      in its lower half, and otherwise falls one period behind. */
  lemma {:induction false} UnwrapStep(c: ClockState, prev: nat, tick: nat, offset: nat)
    requires prev <= tick < prev + TWO32
    requires offset <= prev && offset % 0x1_0000_0000 == 0 && tick - offset < TWO64
    requires c == ClockState(prev - Wire(prev) - offset, Wire(prev))
    ensures if Epoch(prev) == Epoch(tick) || Wire(tick) < TWO31
            then Unwrap(c, Wire(tick)) == (ClockState(tick - Wire(tick) - offset, Wire(tick)), tick - offset)
            else Unwrap(c, Wire(tick)).1 == tick - offset - TWO32
  {
  }

  lemma {:induction false} ShiftedCons(t: nat, us: seq<nat>, tick: nat, rest: seq<nat>, offset: nat)
    requires |us| == |rest|
    ensures Shifted([t] + us, [tick] + rest, offset) <==> t == tick - offset && Shifted(us, rest, offset)
  {
    var ts, ticks := [t] + us, [tick] + rest;
    if Shifted(ts, ticks, offset) {
      assert ts[0] == ticks[0] - offset;
      forall i | 0 <= i < |us| ensures us[i] == rest[i] - offset {
        assert ts[i + 1] == ticks[i + 1] - offset;
      }
    }
  }

  lemma {:induction false} UnwrapCons(c: ClockState, ticks: seq<nat>)
    requires ticks != []
    ensures var (c', t) := Unwrap(c, Wire(ticks[0]));
            UnwrapAll(c, WireAll(ticks)) == [t] + UnwrapAll(c', WireAll(ticks[1..]))
  {
  }

  lemma {:induction false} UnwrapFollows(c: ClockState, prev: nat, ticks: seq<nat>, offset: nat)
    requires InOrder(prev, ticks)
    requires offset <= prev && offset % 0x1_0000_0000 == 0
    requires forall i :: 0 <= i < |ticks| ==> ticks[i] < offset + TWO64
    requires c == ClockState(prev - Wire(prev) - offset, Wire(prev))
    ensures Shifted(UnwrapAll(c, WireAll(ticks)), ticks, offset) <==> WrapsLandLow(prev, ticks)
    decreases |ticks|
  {
    if ticks != [] {
      var tick, rest := ticks[0], ticks[1..];
      var (c', t) := Unwrap(c, Wire(tick));
      UnwrapCons(c, ticks);
      assert ticks == [tick] + rest;
      ShiftedCons(t, UnwrapAll(c', WireAll(rest)), tick, rest, offset);
      UnwrapStep(c, prev, tick, offset);
      if t == tick - offset {
        UnwrapFollows(c', tick, rest, offset);
      }
    }
  }

  /** The zero value of the clock does not take its first timestamp for a wrap. */
  lemma {:induction false} FreshStart(xs: seq<nat>)
    requires xs != []
    ensures UnwrapAll(FRESH_CLOCK, xs) == UnwrapAll(ClockState(0, xs[0]), xs)
  {
  }

  /** Unwrapping is exact, up to the period the first packet was in, exactly when every step
      into a new period lands in its lower half. */
  lemma {:induction false} UnwrapExactIff(ticks: seq<nat>)
    requires ticks != [] && InOrder(ticks[0], ticks)
    requires forall i :: 0 <= i < |ticks| ==> ticks[i] < PeriodStart(ticks[0]) + TWO64
    ensures Shifted(UnwrapAll(FRESH_CLOCK, WireAll(ticks)), ticks, PeriodStart(ticks[0]))
            <==> WrapsLandLow(ticks[0], ticks)
  {
    FreshStart(WireAll(ticks));
    UnwrapFollows(ClockState(0, Wire(ticks[0])), ticks[0], ticks, PeriodStart(ticks[0]));
  }

  /** Steps of at most half a period always land low, so they are always followed exactly. */
  lemma {:induction false} HalfPeriodSteps(prev: nat, ticks: seq<nat>)
    requires Paced(prev, ticks, TWO31)
    ensures InOrder(prev, ticks) && WrapsLandLow(prev, ticks)
    decreases |ticks|
  {
    if ticks != [] {
      var tick, rest := ticks[0], ticks[1..];
      assert prev == 0x1_0000_0000 * Epoch(prev) + Wire(prev) && tick == 0x1_0000_0000 * Epoch(tick) + Wire(tick);
      HalfPeriodSteps(tick, rest);
    }
  }

  /** One tick more than half a period, from the last tick of a period, is missed. */
  lemma {:induction false} LongerStepMissed()
    ensures var ticks: seq<nat> := [TWO32 - 1, TWO32 + TWO31];
            && Paced(ticks[0], ticks, TWO31 + 1)
            && UnwrapAll(FRESH_CLOCK, WireAll(ticks)) == [TWO32 - 1, TWO31]
  {
  }

  lemma {:induction false} PacedSorted(prev: nat, ticks: seq<nat>, step: nat, i: nat, j: nat)
    requires Paced(prev, ticks, step) && i <= j < |ticks|
    ensures prev <= ticks[i] <= ticks[j]
    decreases |ticks|
  {
    if 0 < j {
      PacedSorted(ticks[0], ticks[1..], step, if i == 0 then 0 else i - 1, j - 1);
    }
  }

  /** Over a whole run of half-period steps, unwrapped ticks never go back. */
  lemma {:induction false} UnwrappedNeverDecrease(ticks: seq<nat>, i: nat, j: nat)
    requires ticks != [] && Paced(ticks[0], ticks, TWO31)
    requires forall k :: 0 <= k < |ticks| ==> ticks[k] < PeriodStart(ticks[0]) + TWO64
    requires i <= j < |ticks|
    ensures UnwrapAll(FRESH_CLOCK, WireAll(ticks))[i] <= UnwrapAll(FRESH_CLOCK, WireAll(ticks))[j]
  {
    HalfPeriodSteps(ticks[0], ticks);
    UnwrapExactIff(ticks);
    PacedSorted(ticks[0], ticks, TWO31, i, j);
    var ts := UnwrapAll(FRESH_CLOCK, WireAll(ticks));
    assert Shifted(ts, ticks, PeriodStart(ticks[0]));
  }

  /** And neither do the packet times, as long as they stay in range. */
  lemma {:induction false} PacketTimesNeverDecrease(ticks: seq<nat>, rate: nat, i: nat, j: nat)
    requires ticks != [] && Paced(ticks[0], ticks, TWO31)
    requires forall k :: 0 <= k < |ticks| ==> ticks[k] < PeriodStart(ticks[0]) + TWO64
    requires i <= j < |ticks|
    requires InRange(UnwrapAll(FRESH_CLOCK, WireAll(ticks))[j], rate)
    ensures var ts := UnwrapAll(FRESH_CLOCK, WireAll(ticks));
            && FromTS(ts[i], rate).Some? && FromTS(ts[j], rate).Some?
            && FromTS(ts[i], rate).value <= FromTS(ts[j], rate).value
  {
    UnwrappedNeverDecrease(ticks, i, j);
    var ts := UnwrapAll(FRESH_CLOCK, WireAll(ticks));
    FromTSMonotone(ts[i], ts[j], rate);
  }

  // ---------------------------------------------------------------- the output clock

  datatype FramerClock = FramerClock(ts: nat, got: bool)

  /** The sample count of one packet: the difference in ticks, modulo 2^32; zero at first. */
  function Samples(f: FramerClock, ts: nat): nat {
    if f.got then (ts - f.ts) % 0x1_0000_0000_0000_0000 % 0x1_0000_0000 else 0
  }

  /** The parameter sets of an H.264 stream; streams of other codecs have none. */
  datatype CodecInfo = H264Info(sps: Unit, pps: Unit) | OtherInfo

  class Framer {
    var ts: nat
    var got: bool
    const buf: Buffer

    ghost function State(): FramerClock
      reads this
    {
      FramerClock(ts, got)
    }

    constructor ()
      ensures State() == FramerClock(0, false) && fresh(buf)
    {
      ts, got := 0, false;
      buf := new Buffer();
    }

    /** framer.repack: H.264 packets leave as Annex B, whatever the buffer held before. */
    method Repack(pkt: Packet, info: CodecInfo) returns (data: seq<Byte>)
      modifies buf
      ensures match info
              case H264Info(sps, pps) => data == AnnexB(RepackedUnits(pkt, sps, pps))
              case OtherInfo => data == pkt.data
    {
      if info.OtherInfo? {
        return pkt.data;
      }
      buf.Reset();
      WriteAnnexBPacket(buf, pkt, info.sps, info.pps);
      return buf.data;
    }

    /** framer.delta; None is the panic of a rate too high for ToTS. */
    method Delta(t: int, rate: nat) returns (samples: Option<nat>)
      modifies this`ts, this`got
      ensures match ToTS(t, rate)
              case None => samples.None? && State() == old(State())
              case Some(now) => samples == Some(Samples(old(State()), now)) && State() == FramerClock(now, true)
    {
      var now := ToTS(t, rate);
      if now.None? {
        return None;
      }
      var s := 0;
      if got {
        s := (now.value - ts) % 0x1_0000_0000_0000_0000 % 0x1_0000_0000;
      }
      ts, got := now.value, true;
      return Some(s);
    }
  }

  const FRESH_FRAMER := FramerClock(0, false)

  /** The sample counts of a run of packets, each with its time; None when ToTS panics. */
  function Deltas(f: FramerClock, times: seq<int>, rate: nat): Option<seq<nat>>
    decreases |times|
  {
    if times == [] then Some([])
    else
      match ToTS(times[0], rate)
      case None => None
      case Some(now) =>
        match Deltas(FramerClock(now, true), times[1..], rate)
        case None => None
        case Some(rest) => Some([Samples(f, now)] + rest)
  }

  function Sum(s: seq<nat>): nat {
    if s == [] then 0 else s[0] + Sum(s[1..])
  }

  predicate Congruent(a: int, b: int) {
    (a - b) % 0x1_0000_0000 == 0
  }

  predicate WholePeriods(c: ClockState) {
    c.baseTS % 0x1_0000_0000 == 0 && c.baseTS < TWO64
  }

  lemma {:induction false} UnwrapKeepsWire(c: ClockState, x: nat)
    requires WholePeriods(c) && x < TWO32
    ensures WholePeriods(Unwrap(c, x).0)
    ensures Congruent(Unwrap(c, x).1, x)
  {
  }

  lemma {:induction false} CongruentSum(a: int, b: int, c: int, d: int)
    requires Congruent(a, b) && Congruent(c, d)
    ensures Congruent(a + c, b + d)
  {
  }

  lemma {:induction false} SamplesCongruent(f: FramerClock, now: nat)
    requires f.got
    ensures Congruent(Samples(f, now), now - f.ts)
  {
  }

  /** Each sample count is a 32-bit number: the ticks since the packet before, where they are fewer
      than 2^32, and 2^32 less the ticks it lies back, where it does. */
  lemma {:induction false} SamplesAre(f: FramerClock, now: nat)
    requires f.got
    ensures Samples(f, now) < 4294967296 && (Samples(f, now) - (now - f.ts)) % 4294967296 == 0
    ensures f.ts <= now < f.ts + 4294967296 ==> Samples(f, now) == now - f.ts
    ensures now < f.ts <= now + 4294967296 ==> Samples(f, now) == now - f.ts + 4294967296
  {
    SamplesCongruent(f, now);
    var n, d := Samples(f, now), now - f.ts;
    assert n < 4294967296;
    if f.ts <= now < f.ts + 4294967296 {
      assert d % 0x1_0000_0000_0000_0000 == d;
    } else if now < f.ts <= now + 4294967296 {
      assert d % 0x1_0000_0000_0000_0000 == d + 0x1_0000_0000_0000_0000;
    }
  }

  /** The packet times are the durations of these ticks. */
  predicate Timestamped(times: seq<int>, ticks: seq<nat>, rate: nat) {
    |times| == |ticks| && forall j :: 0 <= j < |ticks| ==> FromTS(ticks[j], rate) == Some(times[j])
  }

  /** The ticks that packets so timed leave in the framer. */
  function Recovered(ticks: seq<nat>, rate: nat): (ts: seq<nat>)
    requires 0 < rate
    ensures |ts| == |ticks|
    ensures forall j :: 0 <= j < |ticks| ==> ts[j] == ticks[j] - Loss(ticks[j], rate)
    decreases |ticks|
  {
    if ticks == [] then [] else [ticks[0] - Loss(ticks[0], rate)] + Recovered(ticks[1..], rate)
  }

  function Differences(f: FramerClock, ticks: seq<nat>): seq<nat>
    decreases |ticks|
  {
    if ticks == [] then []
    else [Samples(f, ticks[0])] + Differences(FramerClock(ticks[0], true), ticks[1..])
  }

  lemma {:induction false} DeltasAreDifferences(f: FramerClock, times: seq<int>, ticks: seq<nat>, rate: nat)
    requires 0 < rate <= SECOND && Timestamped(times, ticks, rate)
    ensures Deltas(f, times, rate) == Some(Differences(f, Recovered(ticks, rate)))
    decreases |times|
  {
    if times != [] {
      var tick := ticks[0];
      assert FromTS(tick, rate) == Some(times[0]);
      TickRoundTrip(tick, rate);
      assert Timestamped(times[1..], ticks[1..], rate);
      DeltasAreDifferences(FramerClock(tick - Loss(tick, rate), true), times[1..], ticks[1..], rate);
      assert Recovered(ticks, rate)[1..] == Recovered(ticks[1..], rate);
    }
  }

  lemma {:induction false} SumCons(x: nat, s: seq<nat>)
    ensures Sum([x] + s) == x + Sum(s)
  {
  }

  /** From a running framer the differences add up, modulo 2^32, to the way from its last
      tick to the last tick of the stream. */
  lemma {:induction false} DifferencesTelescope(f: FramerClock, ticks: seq<nat>)
    requires f.got && ticks != []
    ensures Congruent(Sum(Differences(f, ticks)), (ticks[|ticks| - 1] as int) - f.ts)
    decreases |ticks|
  {
    var now, rest := ticks[0], ticks[1..];
    var next := FramerClock(now, true);
    SamplesCongruent(f, now);
    SumCons(Samples(f, now), Differences(next, rest));
    if rest != [] {
      DifferencesTelescope(next, rest);
      CongruentSum(Samples(f, now), now - f.ts, Sum(Differences(next, rest)), rest[|rest| - 1] - now);
    }
  }

  /** From a fresh framer, whose first packet counts nothing, they add up to the way from the first
      tick to the last. */
  lemma {:induction false} DifferencesSpan(ticks: seq<nat>)
    requires ticks != []
    ensures Congruent(Sum(Differences(FRESH_FRAMER, ticks)), (ticks[|ticks| - 1] as int) - ticks[0])
  {
    var first, rest := FramerClock(ticks[0], true), ticks[1..];
    SumCons(0, Differences(first, rest));
    if rest != [] {
      DifferencesTelescope(first, rest);
    }
  }

  lemma {:induction false} CongruentEnds(sum: int, t0: int, x0: int, l0: int, t1: int, x1: int, l1: int)
    requires Congruent(sum, (t1 - l1) - (t0 - l0)) && Congruent(t0, x0) && Congruent(t1, x1)
    ensures Congruent(sum, x1 - x0 + (l0 - l1))
  {
  }

  /** Whatever packets leave the relay, in whatever order their timestamps are: the samples of the
      whole run add up, modulo 2^32, to the distance between the first and the last timestamp,
      give or take the tick that each of those two may have lost. */
  lemma {:induction false} DeltasNeverDrift(xs: seq<nat>, ticks: seq<nat>, times: seq<int>, rate: nat)
    requires 0 < rate <= SECOND && xs != [] && |xs| == |ticks| && Timestamped(times, ticks, rate)
    requires Congruent(ticks[0], xs[0]) && Congruent(ticks[|xs| - 1], xs[|xs| - 1])
    ensures Deltas(FRESH_FRAMER, times, rate).Some?
    ensures Congruent(Sum(Deltas(FRESH_FRAMER, times, rate).value),
                      (xs[|xs| - 1] as int) - xs[0] + (Loss(ticks[0], rate) - Loss(ticks[|xs| - 1], rate)))
  {
    var last := |xs| - 1;
    var ts := Recovered(ticks, rate);
    DeltasAreDifferences(FRESH_FRAMER, times, ticks, rate);
    DifferencesSpan(ts);
    CongruentEnds(Sum(Differences(FRESH_FRAMER, ts)), ticks[0], xs[0], Loss(ticks[0], rate),
                  ticks[last], xs[last], Loss(ticks[last], rate));
  }

  lemma {:induction false} UnwrapAllKeepsWire(c: ClockState, xs: seq<nat>, i: nat)
    requires WholePeriods(c) && i < |xs|
    requires forall j :: 0 <= j < |xs| ==> xs[j] < TWO32
    ensures Congruent(UnwrapAll(c, xs)[i], xs[i])
    decreases i
  {
    UnwrapKeepsWire(c, xs[0]);
    if i != 0 {
      UnwrapAllKeepsWire(Unwrap(c, xs[0]).0, xs[1..], i - 1);
    }
  }

  /** Equal modulo 2^32, give or take one. */
  predicate WithinOneTick(a: int, b: int) {
    Congruent(a, b - 1) || Congruent(a, b) || Congruent(a, b + 1)
  }

  lemma {:induction false} OneTickAtMost(sum: int, distance: int, l0: nat, l1: nat)
    requires l0 <= 1 && l1 <= 1 && Congruent(sum, distance + (l0 - l1))
    ensures WithinOneTick(sum, distance)
  {
  }

  lemma {:induction false} DeltasWithinOneTick(xs: seq<nat>, ticks: seq<nat>, times: seq<int>, rate: nat)
    requires 0 < rate <= SECOND && xs != [] && |xs| == |ticks| && Timestamped(times, ticks, rate)
    requires Congruent(ticks[0], xs[0]) && Congruent(ticks[|xs| - 1], xs[|xs| - 1])
    ensures Deltas(FRESH_FRAMER, times, rate).Some?
    ensures WithinOneTick(Sum(Deltas(FRESH_FRAMER, times, rate).value), (xs[|xs| - 1] as int) - xs[0])
  {
    var last := |xs| - 1;
    DeltasNeverDrift(xs, ticks, times, rate);
    OneTickAtMost(Sum(Deltas(FRESH_FRAMER, times, rate).value), (xs[last] as int) - xs[0],
                  Loss(ticks[0], rate), Loss(ticks[last], rate));
  }

  /** The output clock never drifts: for any sequence of timestamps, reordered ones included, whose
      durations fit, the samples are off by at most one tick over the whole run. */
  lemma {:induction false} NoDrift(xs: seq<nat>, times: seq<int>, rate: nat)
    requires 0 < rate <= SECOND && xs != []
    requires forall j :: 0 <= j < |xs| ==> xs[j] < TWO32
    requires Timestamped(times, UnwrapAll(FRESH_CLOCK, xs), rate)
    ensures Deltas(FRESH_FRAMER, times, rate).Some?
    ensures WithinOneTick(Sum(Deltas(FRESH_FRAMER, times, rate).value), (xs[|xs| - 1] as int) - xs[0])
  {
    UnwrapAllKeepsWire(FRESH_CLOCK, xs, 0);
    UnwrapAllKeepsWire(FRESH_CLOCK, xs, |xs| - 1);
    DeltasWithinOneTick(xs, UnwrapAll(FRESH_CLOCK, xs), times, rate);
  }
}
