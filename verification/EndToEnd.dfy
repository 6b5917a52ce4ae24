/**
 The whole video path: NAL units packetised by any sender, sent as RTP with any timestamps the
 clock can represent, read through the H.264 deframer, repacked as Annex B and split again by
 the viewer's decoder.
 */
module EndToEnd {
  import opened Bytes
  import opened Wrappers
  import opened H264Util
  import opened Depacketizer
  import opened Packetizer
  import opened ParameterSets
  import opened PacketLoss
  import opened MediaClock
  import opened ReaderQueue
  import opened RtpReader

  // ---------------------------------------------------------------- through the reader

  /** A packet without its time and stream index. */
  function Bare(p: Packet): Packet {
    p.(idx := 0, time := 0)
  }

  function BareAll(ps: seq<Packet>): (r: seq<Packet>)
    ensures |r| == |ps|
    ensures forall i :: 0 <= i < |r| ==> r[i] == Bare(ps[i])
  {
    if ps == [] then [] else [Bare(ps[0])] + BareAll(ps[1..])
  }

  lemma {:induction false} BareAppend(a: seq<Packet>, b: seq<Packet>)
    ensures BareAll(a + b) == BareAll(a) + BareAll(b)
  {
  }

  function RtpPayloads(rps: seq<RtpPacket>): seq<seq<Byte>> {
    if rps == [] then [] else [rps[0].payload] + RtpPayloads(rps[1..])
  }

  function Arrivals(rps: seq<RtpPacket>): seq<Arrival> {
    if rps == [] then [] else [Datagram(rps[0])] + Arrivals(rps[1..])
  }

  /** The packets are for this deframer, and every time along the way fits its clock. */
  predicate Acceptable(d: DeframerState, rps: seq<RtpPacket>)
    decreases |rps|
  {
    rps == [] ||
    (Matches(d, rps[0]) && FromTS(Unwrap(d.clock, rps[0].timestamp).1, d.clockRate).Some? &&
     Acceptable(d.(clock := Unwrap(d.clock, rps[0].timestamp).0), rps[1..]))
  }

  lemma {:induction false} AcceptableIgnoresParser(d: DeframerState, d': DeframerState, rps: seq<RtpPacket>)
    requires d'.ssrc == d.ssrc && d'.payloadType == d.payloadType && d'.clockRate == d.clockRate && d'.clock == d.clock
    requires Acceptable(d, rps)
    ensures Acceptable(d', rps)
    decreases |rps|
  {
    if rps != [] {
      var clock := Unwrap(d.clock, rps[0].timestamp).0;
      AcceptableIgnoresParser(d.(clock := clock), d'.(clock := clock), rps[1..]);
    }
  }

  function Taken(d: DeframerState, rp: RtpPacket): DeframerState
    requires d.parser.H264?
  {
    d.(lastSeq := rp.sequenceNumber, clock := Unwrap(d.clock, rp.timestamp).0,
       parser := H264(Parse(d.parser.state, rp.payload, false).0))
  }

  lemma {:induction false} ConsumeOne(d: DeframerState, rp: RtpPacket)
    requires d.parser.H264? && Matches(d, rp)
    requires FromTS(Unwrap(d.clock, rp.timestamp).1, d.clockRate).Some?
    requires Parse(d.parser.state, rp.payload, false).1.Packets?
    ensures var (ds, r) := Consume([d], rp);
            && ds == [Taken(d, rp)]
            && r.Frames?
            && BareAll(r.packets) == BareAll(Parse(d.parser.state, rp.payload, false).1.packets)
            && forall j :: 0 <= j < |r.packets| ==>
                 r.packets[j].idx == 0 &&
                 FromTS(Unwrap(d.clock, rp.timestamp).1, d.clockRate) == Some(r.packets[j].time)
  {
  }

  /** The first datagram, and what is left to do after it. */
  lemma {:induction false} ReaderStep(d: DeframerState, rps: seq<RtpPacket>)
    requires rps != [] && d.parser.H264? && Acceptable(d, rps)
    requires Feed(d.parser.state, RtpPayloads(rps)).1.Packets?
    ensures var rp, rest, d1 := rps[0], rps[1..], Taken(d, rps[0]);
            var out, parsed := Consume([d], rp).1, Parse(d.parser.state, rp.payload, false).1;
            var fed, y := Feed(d1.parser.state, RtpPayloads(rest)), Yield(Consume, [d1], Arrivals(rest));
            && out.Frames? && parsed.Packets? && BareAll(out.packets) == BareAll(parsed.packets)
            && |out.packets| == |parsed.packets|
            && Acceptable(d1, rest) && fed.1.Packets?
            && Feed(d.parser.state, RtpPayloads(rps)) == (fed.0, Packets(parsed.packets + fed.1.packets))
            && (y.Some? ==> Yield(Consume, [d], Arrivals(rps)) == Some((y.value.0, out.packets + y.value.1)))
            && forall j :: 0 <= j < |out.packets| ==>
                 out.packets[j].idx == 0 &&
                 FromTS(Unwrap(d.clock, rp.timestamp).1, d.clockRate) == Some(out.packets[j].time)
  {
    var rp, rest, d1 := rps[0], rps[1..], Taken(d, rps[0]);
    assert RtpPayloads(rps)[0] == rp.payload && RtpPayloads(rps)[1..] == RtpPayloads(rest);
    assert Arrivals(rps)[0] == Datagram(rp) && Arrivals(rps)[1..] == Arrivals(rest);
    ConsumeOne(d, rp);
    AcceptableIgnoresParser(d.(clock := d1.clock), d1, rest);
  }

  /** The reader adds the time and the stream index, and changes nothing else: bare of those, it
      yields what the parser yields on the payloads alone. */
  lemma {:induction false} ReaderKeepsPackets(d: DeframerState, rps: seq<RtpPacket>)
    requires d.parser.H264? && Acceptable(d, rps)
    requires Feed(d.parser.state, RtpPayloads(rps)).1.Packets?
    ensures var y := Yield(Consume, [d], Arrivals(rps));
            && y.Some? && |y.value.0| == 1
            && y.value.0[0].parser == H264(Feed(d.parser.state, RtpPayloads(rps)).0)
            && BareAll(y.value.1) == BareAll(Feed(d.parser.state, RtpPayloads(rps)).1.packets)
    decreases |rps|
  {
    if rps != [] {
      var rest, d1 := rps[1..], Taken(d, rps[0]);
      ReaderStep(d, rps);
      ReaderKeepsPackets(d1, rest);
      BareAppend(Consume([d], rps[0]).1.packets, Yield(Consume, [d1], Arrivals(rest)).value.1);
      BareAppend(Parse(d.parser.state, rps[0].payload, false).1.packets,
                 Feed(d1.parser.state, RtpPayloads(rest)).1.packets);
    }
  }

  /** The timestamp a packet came with, and the tick it was unwrapped to. */
  datatype Source = Source(x: nat, tick: nat)

  /** The source of every packet the reader yields. */
  function Sources(d: DeframerState, rps: seq<RtpPacket>): seq<Source>
    requires d.parser.H264?
    decreases |rps|
  {
    if rps == [] then []
    else
      var out := Parse(d.parser.state, rps[0].payload, false).1;
      var source := Source(rps[0].timestamp, Unwrap(d.clock, rps[0].timestamp).1);
      seq(if out.Packets? then |out.packets| else 0, _ => source) + Sources(Taken(d, rps[0]), rps[1..])
  }

  /** A packet has the time of its source, and the index of the only stream. */
  predicate TimedBy(p: Packet, s: Source, rate: nat) {
    p.idx == 0 && FromTS(s.tick, rate) == Some(p.time) && Congruent(s.tick, s.x)
  }

  predicate AllTimed(ps: seq<Packet>, sources: seq<Source>, rate: nat) {
    |ps| == |sources| && forall j :: 0 <= j < |ps| ==> TimedBy(ps[j], sources[j], rate)
  }

  lemma {:induction false} AllTimedAppend(a: seq<Packet>, sa: seq<Source>, b: seq<Packet>, sb: seq<Source>, rate: nat)
    requires AllTimed(a, sa, rate) && AllTimed(b, sb, rate)
    ensures AllTimed(a + b, sa + sb, rate)
  {
  }

  /** Every packet leaves the reader with the time of the datagram that completed it. */
  lemma {:induction false} ReaderKeepsTime(d: DeframerState, rps: seq<RtpPacket>)
    requires d.parser.H264? && Acceptable(d, rps) && WholePeriods(d.clock)
    requires forall i :: 0 <= i < |rps| ==> rps[i].timestamp < TWO32
    requires Feed(d.parser.state, RtpPayloads(rps)).1.Packets?
    ensures var y := Yield(Consume, [d], Arrivals(rps));
            y.Some? && AllTimed(y.value.1, Sources(d, rps), d.clockRate)
    decreases |rps|
  {
    if rps != [] {
      var rp, rest, d1 := rps[0], rps[1..], Taken(d, rps[0]);
      ReaderStep(d, rps);
      UnwrapKeepsWire(d.clock, rp.timestamp);
      ReaderKeepsTime(d1, rest);
      var read, read' := Consume([d], rp).1.packets, Yield(Consume, [d1], Arrivals(rest)).value.1;
      var sources := seq(|read|, _ => Source(rp.timestamp, Unwrap(d.clock, rp.timestamp).1));
      AllTimedAppend(read, sources, read', Sources(d1, rest), d.clockRate);
    }
  }

  function TimesOf(ps: seq<Packet>): (ts: seq<int>)
    ensures |ts| == |ps| && forall j :: 0 <= j < |ps| ==> ts[j] == ps[j].time
  {
    if ps == [] then [] else [ps[0].time] + TimesOf(ps[1..])
  }

  function Stamps(sources: seq<Source>): (xs: seq<nat>)
    ensures |xs| == |sources| && forall j :: 0 <= j < |xs| ==> xs[j] == sources[j].x
  {
    if sources == [] then [] else [sources[0].x] + Stamps(sources[1..])
  }

  function TicksOf(sources: seq<Source>): (ts: seq<nat>)
    ensures |ts| == |sources| && forall j :: 0 <= j < |ts| ==> ts[j] == sources[j].tick
  {
    if sources == [] then [] else [sources[0].tick] + TicksOf(sources[1..])
  }

  /** The sample counts of these packets add up to the RTP time between the sources of the first
      and the last of them, modulo 2^32 and give or take one tick. */
  predicate ClockKept(ps: seq<Packet>, sources: seq<Source>, rate: nat)
    requires sources != []
  {
    var deltas := Deltas(FRESH_FRAMER, TimesOf(ps), rate);
    deltas.Some? && WithinOneTick(Sum(deltas.value), (sources[|sources| - 1].x as int) - sources[0].x)
  }

  lemma {:induction false} TimedNeverDrifts(ps: seq<Packet>, sources: seq<Source>, rate: nat)
    requires 0 < rate <= SECOND && sources != [] && AllTimed(ps, sources, rate)
    ensures ClockKept(ps, sources, rate)
  {
    var last := |sources| - 1;
    assert TimedBy(ps[0], sources[0], rate) && TimedBy(ps[last], sources[last], rate);
    assert Timestamped(TimesOf(ps), TicksOf(sources), rate);
    DeltasWithinOneTick(Stamps(sources), TicksOf(sources), TimesOf(ps), rate);
  }

  /** The sender's clock reaches the viewer: over any stream the reader delivers, and whatever order
      its timestamps are in, the outgoing sample counts keep the sender's time. */
  lemma {:induction false} ClockReachesViewer(d: DeframerState, rps: seq<RtpPacket>)
    requires d.parser.H264? && Acceptable(d, rps) && WholePeriods(d.clock) && 0 < d.clockRate <= SECOND
    requires forall i :: 0 <= i < |rps| ==> rps[i].timestamp < TWO32
    requires Feed(d.parser.state, RtpPayloads(rps)).1.Packets? && Sources(d, rps) != []
    ensures Yield(Consume, [d], Arrivals(rps)).Some?
    ensures ClockKept(Yield(Consume, [d], Arrivals(rps)).value.1, Sources(d, rps), d.clockRate)
  {
    ReaderKeepsTime(d, rps);
    TimedNeverDrifts(Yield(Consume, [d], Arrivals(rps)).value.1, Sources(d, rps), d.clockRate);
  }

  // ---------------------------------------------------------------- to the viewer

  function Repacker(sps: Unit, pps: Unit): Packet -> seq<Unit> {
    p => RepackedUnits(p, sps, pps)
  }

  /** What a viewer is sent: the Annex B form of every packet in turn. */
  function ViewerStream(ps: seq<Packet>, sps: Unit, pps: Unit): seq<Byte> {
    AnnexB(FlatMap(Repacker(sps, pps), ps))
  }

  /** What a viewer should decode from a list of deliveries: every unit that is no parameter set,
      with the stream's parameter sets in front of every IDR slice. */
  function Decodable(d: Delivery, sps: Unit, pps: Unit): seq<Unit> {
    if !HasUnitOf(d) || Carries(d, 7) || Carries(d, 8) then []
    else if Carries(d, 5) then [sps, pps, d.unit]
    else [d.unit]
  }

  function Decoder(sps: Unit, pps: Unit): Delivery -> seq<Unit> {
    d => Decodable(d, sps, pps)
  }

  predicate Carriable(d: Delivery) {
    !HasUnitOf(d) || (Clean(d.unit) && |d.unit| < TWO32)
  }

  lemma {:induction false} RepackIgnoresStamp(ps: seq<Packet>, sps: Unit, pps: Unit)
    ensures FlatMap(Repacker(sps, pps), BareAll(ps)) == FlatMap(Repacker(sps, pps), ps)
    decreases |ps|
  {
    if ps != [] {
      RepackIgnoresStamp(ps[1..], sps, pps);
      assert BareAll(ps)[1..] == BareAll(ps[1..]);
    }
  }

  lemma {:induction false} RepackOne(d: Delivery, sps: Unit, pps: Unit)
    requires Carriable(d)
    ensures FlatMap(Repacker(sps, pps), Emitted(d)) == Decodable(d, sps, pps)
  {
    if Emitted(d) != [] {
      var p := Emitted(d)[0];
      AvccOfOne(d.unit);
      FlatMapOne(Repacker(sps, pps), p);
      assert Emitted(d) == [p];
      assert [] + [d.unit] == [d.unit];
      assert [sps, pps] + [d.unit] == [sps, pps, d.unit];
    }
  }

  lemma {:induction false} RepackAll(ds: seq<Delivery>, sps: Unit, pps: Unit)
    requires forall d :: d in ds ==> Carriable(d)
    ensures FlatMap(Repacker(sps, pps), Output(ds)) == FlatMap(Decoder(sps, pps), ds)
    decreases |ds|
  {
    if ds != [] {
      RepackOne(ds[0], sps, pps);
      RepackAll(ds[1..], sps, pps);
      FlatMapAppend(Repacker(sps, pps), Emitted(ds[0]), Output(ds[1..]));
    }
  }

  lemma {:induction false} DecodableAreClean(ds: seq<Delivery>, sps: Unit, pps: Unit)
    requires Clean(sps) && Clean(pps) && forall d :: d in ds ==> Carriable(d)
    ensures AllClean(FlatMap(Decoder(sps, pps), ds))
    decreases |ds|
  {
    if ds != [] {
      DecodableAreClean(ds[1..], sps, pps);
      var first, rest := Decodable(ds[0], sps, pps), FlatMap(Decoder(sps, pps), ds[1..]);
      assert Carriable(ds[0]);
      forall i | 0 <= i < |first + rest| ensures Clean((first + rest)[i]) {
        if |first| <= i {
          assert (first + rest)[i] == rest[i - |first|];
        }
      }
    }
  }

  lemma {:induction false} OutputIsBare(ds: seq<Delivery>)
    ensures BareAll(Output(ds)) == Output(ds)
  {
    OutputStamps(ds);
  }

  lemma {:induction false} OutputStamps(ds: seq<Delivery>)
    ensures forall i :: 0 <= i < |Output(ds)| ==> Output(ds)[i].idx == 0 && Output(ds)[i].time == 0
    decreases |ds|
  {
    if ds != [] {
      OutputStamps(ds[1..]);
      assert Output(ds) == Emitted(ds[0]) + Output(ds[1..]);
    }
  }

  /** What a viewer decodes from these packets is the units of these deliveries. */
  predicate DecodesTo(ps: seq<Packet>, ds: seq<Delivery>, sps: Unit, pps: Unit) {
    SplitAnnexB(ViewerStream(ps, sps, pps)) == FlatMap(Decoder(sps, pps), ds)
  }

  /** Packets that are, but for their stamps, those of some deliveries. */
  lemma {:induction false} RelayedIsDecoded(ps: seq<Packet>, ds: seq<Delivery>, sps: Unit, pps: Unit)
    requires BareAll(ps) == Output(ds)
    requires Clean(sps) && Clean(pps) && forall d :: d in ds ==> Carriable(d)
    ensures DecodesTo(ps, ds, sps, pps)
  {
    RepackIgnoresStamp(ps, sps, pps);
    RepackAll(ds, sps, pps);
    DecodableAreClean(ds, sps, pps);
    AnnexBSplitsBack(FlatMap(Decoder(sps, pps), ds));
  }

  /** The RTP packets carry this plan, to this deframer, in units the byte stream can carry. */
  ghost predicate Transports(d: DeframerState, plan: seq<Item>, rps: seq<RtpPacket>) {
    && d.parser.H264? && Acceptable(d, rps)
    && ValidPlan(plan)
    && AllValid(PlanSents(plan))
    && RtpPayloads(rps) == BytesOf(PlanSents(plan))
    && (forall x :: x in PlanDeliveries(plan) ==> Carriable(x))
  }

  /** What was packetised is what is decoded: whatever mix of packets carried the units, whatever
      state the parser was in, whatever the timestamps were and whatever parameter sets the stream
      was announced with, the viewer's decoder finds in the relayed stream exactly the sender's
      units, in order. */
  lemma {:induction false} SentIsDecoded(d: DeframerState, plan: seq<Item>, rps: seq<RtpPacket>, sps: Unit, pps: Unit)
    requires Transports(d, plan, rps) && Clean(sps) && Clean(pps)
    ensures var y := Yield(Consume, [d], Arrivals(rps));
            y.Some? && DecodesTo(y.value.1, PlanDeliveries(plan), sps, pps)
  {
    Depacketise(d.parser.state, plan);
    ReaderKeepsPackets(d, rps);
    OutputIsBare(PlanDeliveries(plan));
    RelayedIsDecoded(Yield(Consume, [d], Arrivals(rps)).value.1, PlanDeliveries(plan), sps, pps);
  }

  // ---------------------------------------------------------------- after probing

  function MediaOf(d: Delivery): seq<Delivery> {
    if Emitted(d) == [] then [] else [d]
  }

  /** The deliveries that become packets. */
  function Media(ds: seq<Delivery>): seq<Delivery> {
    FlatMap(MediaOf, ds)
  }

  lemma {:induction false} MediaEmitsOne(ds: seq<Delivery>)
    ensures Output(Media(ds)) == Output(ds)
    ensures |Media(ds)| == |Output(ds)|
    ensures forall j :: 0 <= j < |Media(ds)| ==> Media(ds)[j] in ds && Emitted(Media(ds)[j]) == [Output(ds)[j]]
    decreases |ds|
  {
    if ds != [] {
      var d, rest := ds[0], ds[1..];
      MediaEmitsOne(rest);
      FlatMapAppend(Emitted, MediaOf(d), Media(rest));
      if Emitted(d) != [] {
        FlatMapOne(Emitted, d);
      }
    }
  }

  lemma {:induction false} OutputOfSlice(ds: seq<Delivery>, ps: seq<Packet>)
    requires |ds| == |ps| && forall j :: 0 <= j < |ds| ==> Emitted(ds[j]) == [ps[j]]
    ensures Output(ds) == ps
    decreases |ds|
  {
    if ds != [] {
      OutputOfSlice(ds[1..], ps[1..]);
      assert Emitted(ds[0]) == [ps[0]];
    }
  }

  lemma {:induction false} YieldPrefix<D>(step: Step<D>, ds: D, input: seq<Arrival>, k: nat)
    requires k <= |input| && Yield(step, ds, input).Some?
    ensures Yield(step, ds, input[..k]).Some?
    ensures Yield(step, ds, input[..k]).value.1 <= Yield(step, ds, input).value.1
    decreases |input|
  {
    if k != 0 {
      var (next, r) := step(ds, input[0].rp);
      assert input[..k][0] == input[0] && input[..k][1..] == input[1..][..k - 1];
      YieldPrefix(step, next, input[1..], k - 1);
      assert r.packets <= Yield(step, ds, input).value.1;
    } else {
      assert input[..k] == [];
    }
  }

  lemma {:induction false} Prefixes(d: DeframerState, rps: seq<RtpPacket>, k: nat)
    requires k <= |rps| && Acceptable(d, rps)
    ensures Acceptable(d, rps[..k])
    ensures |RtpPayloads(rps)| == |Arrivals(rps)| == |rps|
    ensures RtpPayloads(rps[..k]) == RtpPayloads(rps)[..k] && Arrivals(rps[..k]) == Arrivals(rps)[..k]
    decreases |rps|
  {
    if rps != [] {
      if k == 0 {
        Prefixes(d.(clock := Unwrap(d.clock, rps[0].timestamp).0), rps[1..], 0);
      } else {
        Prefixes(d.(clock := Unwrap(d.clock, rps[0].timestamp).0), rps[1..], k - 1);
        assert rps[..k][0] == rps[0] && rps[..k][1..] == rps[1..][..k - 1];
      }
    }
  }

  /** What the first `k` packets of a plan deliver. */
  function FirstDeliveries(buf: seq<Byte>, plan: seq<Item>, k: nat): seq<Delivery> {
    StreamDeliveries(buf, if k <= |PlanSents(plan)| then PlanSents(plan)[..k] else PlanSents(plan))
  }

  /** They deliver the first of the plan's deliveries. */
  lemma {:induction false} PrefixDelivers(st: ParserState, plan: seq<Item>, k: nat)
    requires ValidPlan(plan) && AllValid(PlanSents(plan)) && k <= |PlanSents(plan)|
    ensures FirstDeliveries(st.fbuf, plan, k) <= PlanDeliveries(plan)
    ensures var fed := Feed(st, BytesOf(PlanSents(plan))[..k]);
            && fed.1 == Packets(Output(FirstDeliveries(st.fbuf, plan, k)))
            && fed.0.sets == DeliverAll(st.sets, FirstDeliveries(st.fbuf, plan, k))
  {
    var xs, buf := PlanSents(plan), st.fbuf;
    var a, b := xs[..k], xs[k..];
    assert xs == a + b;
    PlanSmooth(buf, plan);
    StreamAppend(buf, a, b);
    SoundAppend(buf, a, b);
    StreamArrives(st, a);
    NoRuntsNoErrors(st, a);
    assert BytesOf(xs)[..k] == BytesOf(a);
  }

  /** Every parameter set of these deliveries arrived on its own. */
  predicate SetsAlone(ds: seq<Delivery>) {
    forall j :: 0 <= j < |ds| ==> !(ds[j].Joined? && IsSet(ds[j].unit))
  }

  /** A parameter set that was not there before is the last one delivered, as it was sent. */
  lemma {:induction false} SetIsLastDelivered(t: Byte, ss: Sets, ds: seq<Delivery>) returns (i: nat)
    requires (t == 7 || t == 8) && SetsAlone(ds)
    requires SetOf(t, ss).Absent? && SetOf(t, DeliverAll(ss, ds)).Stored?
    ensures i == LastCarrying(t, ds)
    ensures SetOf(t, DeliverAll(ss, ds)) == Stored(ds[i].unit, false, [])
  {
    if NoneCarries(ds, t) {
      DeliverKeepsContent(t, ss, ds);
      assert false;
    }
    i := LastCarrying(t, ds);
    assert ds[i].Direct?;
    LastSetIsKept(t, ss, ds, i);
  }

  type Relay = ReaderState<seq<DeframerState>>

  /** The reader after probing, on the first of the arrivals. */
  function Probed(d: DeframerState, rps: seq<RtpPacket>, patience: nat): (Relay, Probe) {
    Probing(Consume, Known, ReaderState([d], [], Arrivals(rps)), NoneKnown(1), patience)
  }

  /** The parameter sets a stream is announced with: those of the parser when probing is over. */
  function Announced(t: Byte, s: Relay): Unit
    requires t == 7 || t == 8
  {
    if |s.deframers| == 1 && s.deframers[0].parser.H264? && SetOf(t, s.deframers[0].parser.state.sets).Stored?
    then SetOf(t, s.deframers[0].parser.state.sets).bytes
    else []
  }

  /** `u` is the last unit of type `t` among these deliveries. */
  predicate LastSent(t: Byte, ds: seq<Delivery>, u: Unit) {
    0 <= LastCarrying(t, ds) && ds[LastCarrying(t, ds)].unit == u
  }

  /** The number of datagrams a reader has taken from these. */
  function Consumed(rps: seq<RtpPacket>, s: Relay): nat {
    if |s.input| <= |rps| then |rps| - |s.input| else 0
  }

  /** What those datagrams delivered. */
  function DeliveredBy(d: DeframerState, plan: seq<Item>, rps: seq<RtpPacket>, s: Relay)
    : seq<Delivery>
    requires d.parser.H264?
  {
    FirstDeliveries(d.parser.state.fbuf, plan, Consumed(rps, s))
  }

  /** Probing is a number of reads, and the reader has taken what it no longer has before it. */
  lemma {:induction false} ProbingTakes(d: DeframerState, rps: seq<RtpPacket>, patience: nat)
    returns (probed: seq<Packet>)
    requires Probed(d, rps, patience).1.Ready? && |Arrivals(rps)| == |rps|
    ensures 1 <= |probed| <= patience
    ensures var s1 := Probed(d, rps, patience).0;
            && Consumed(rps, s1) <= |rps| && s1.input == Arrivals(rps)[Consumed(rps, s1)..]
            && Accounts(Consume, ReaderState([d], [], Arrivals(rps)), Consumed(rps, s1), probed, s1)
  {
    var s := ReaderState([d], [], Arrivals(rps));
    var m := ProbingReads(Consume, Known, s, NoneKnown(1), patience);
    var k := LosslessFifo(Consume, m, s);
    probed := Reads(Consume, m, s).value.1;
    assert k == Consumed(rps, Probed(d, rps, patience).0);
  }

  /** The first `k` datagrams: the deframer after them and the number of packets they yield. */
  lemma {:induction false} FirstYield(d: DeframerState, plan: seq<Item>, rps: seq<RtpPacket>, k: nat)
    requires Transports(d, plan, rps) && k <= |rps|
    ensures |Arrivals(rps)| == |rps| && FirstDeliveries(d.parser.state.fbuf, plan, k) <= PlanDeliveries(plan)
    ensures var y, ds := Yield(Consume, [d], Arrivals(rps)[..k]), FirstDeliveries(d.parser.state.fbuf, plan, k);
            && y.Some? && |y.value.0| == 1 && y.value.0[0].parser.H264?
            && y.value.0[0].parser.state.sets == DeliverAll(d.parser.state.sets, ds)
            && |y.value.1| == |Media(ds)|
  {
    Prefixes(d, rps, |rps|);
    Prefixes(d, rps, k);
    PrefixDelivers(d.parser.state, plan, k);
    ReaderKeepsPackets(d, rps[..k]);
    MediaEmitsOne(FirstDeliveries(d.parser.state.fbuf, plan, k));
  }

  /** Probing finds the parameter sets last sent among what it consumed, byte for byte, and has thrown
      away all the packets that came of it, but for those the reader has saved. */
  lemma {:induction false} AnnouncedAsSent(d: DeframerState, plan: seq<Item>, rps: seq<RtpPacket>, patience: nat)
    requires Transports(d, plan, rps) && SetsAlone(PlanDeliveries(plan)) && Probed(d, rps, patience).1.Ready?
    requires d.parser.state.sets.sps.Absent? && d.parser.state.sets.pps.Absent?
    ensures var s1 := Probed(d, rps, patience).0;
            var ds := DeliveredBy(d, plan, rps, s1);
            && Consumed(rps, s1) <= |rps| == |Arrivals(rps)| && s1.input == Arrivals(rps)[Consumed(rps, s1)..]
            && ds <= PlanDeliveries(plan)
            && LastSent(7, ds, Announced(7, s1)) && Clean(Announced(7, s1))
            && LastSent(8, ds, Announced(8, s1)) && Clean(Announced(8, s1))
            && 1 <= |Media(ds)| - |s1.saved| <= patience
  {
    var s1, st := Probed(d, rps, patience).0, d.parser.state;
    Prefixes(d, rps, |rps|);
    var probed := ProbingTakes(d, rps, patience);
    FirstYield(d, plan, rps, Consumed(rps, s1));
    var ds := DeliveredBy(d, plan, rps, s1);
    assert |probed + s1.saved| == |Media(ds)|;
    StreamsKnowsAll(ReaderState([d], [], Arrivals(rps)), patience, 0);
    assert SetsAlone(ds) by {
      assert forall j :: 0 <= j < |ds| ==> ds[j] == PlanDeliveries(plan)[j];
    }
    LastSentOf(7, st.sets, ds, PlanDeliveries(plan));
    LastSentOf(8, st.sets, ds, PlanDeliveries(plan));
  }

  lemma {:induction false} LastSentOf(t: Byte, ss: Sets, ds: seq<Delivery>, all: seq<Delivery>)
    requires (t == 7 || t == 8) && SetsAlone(ds) && ds <= all && forall x :: x in all ==> Carriable(x)
    requires SetOf(t, ss).Absent? && SetOf(t, DeliverAll(ss, ds)).Stored?
    ensures LastSent(t, ds, SetOf(t, DeliverAll(ss, ds)).bytes) && Clean(SetOf(t, DeliverAll(ss, ds)).bytes)
  {
    var i := SetIsLastDelivered(t, ss, ds);
    assert all[i] == ds[i] && Carriable(all[i]);
  }

  /** These packets come out of the first `k` arrivals, after some others. */
  ghost predicate ReadFrom(d: DeframerState, input: seq<Arrival>, k: nat, probed: seq<Packet>, handed: seq<Packet>) {
    && k <= |input|
    && Yield(Consume, [d], input[..k]).Some?
    && probed + handed <= Yield(Consume, [d], input[..k]).value.1
  }

  /** What a viewer decodes from these packets is the units of the `n` deliveries from the `m`-th on. */
  predicate DecodesFrom(ps: seq<Packet>, ds: seq<Delivery>, m: int, n: nat, sps: Unit, pps: Unit) {
    0 <= m && m + n <= |ds| && DecodesTo(ps, ds[m..m + n], sps, pps)
  }

  /** From the first datagram to the viewer. When probing is over, the stream is announced with the
      parameter sets last sent in the datagrams it consumed, and the packets read from then on are,
      for the viewer's decoder, the sender's units without those of the packets thrown away: all
      that came of those datagrams but for the ones saved. */
  lemma {:induction false} WatchedAsSent(d: DeframerState, plan: seq<Item>, rps: seq<RtpPacket>, patience: nat, n: nat)
    returns (thrown: nat)
    requires Transports(d, plan, rps) && SetsAlone(PlanDeliveries(plan))
    requires d.parser.state.sets.sps.Absent? && d.parser.state.sets.pps.Absent?
    requires Probed(d, rps, patience).1.Ready? && Reads(Consume, n, Probed(d, rps, patience).0).Some?
    ensures var s1 := Probed(d, rps, patience).0;
            var ds := DeliveredBy(d, plan, rps, s1);
            var sps, pps, handed := Announced(7, s1), Announced(8, s1), Reads(Consume, n, s1).value.1;
            && LastSent(7, ds, sps) && LastSent(8, ds, pps)
            && 1 <= thrown <= patience && thrown + |s1.saved| == |Media(ds)|
            && |handed| == n && DecodesFrom(handed, Media(PlanDeliveries(plan)), thrown, n, sps, pps)
  {
    var s1 := Probed(d, rps, patience).0;
    AnnouncedAsSent(d, plan, rps, patience);
    var k, probed := ReadOn(d, plan, rps, patience, n);
    thrown := |probed|;
    HandedIsDecoded(d, plan, rps, k, probed, Reads(Consume, n, s1).value.1, thrown, n,
                    Announced(7, s1), Announced(8, s1));
  }

  lemma {:induction false} ReadOn(d: DeframerState, plan: seq<Item>, rps: seq<RtpPacket>, patience: nat, n: nat)
    returns (k: nat, probed: seq<Packet>)
    requires Transports(d, plan, rps)
    requires Probed(d, rps, patience).1.Ready? && Reads(Consume, n, Probed(d, rps, patience).0).Some?
    ensures var s1 := Probed(d, rps, patience).0;
            && |Reads(Consume, n, s1).value.1| == n
            && ReadFrom(d, Arrivals(rps), k, probed, Reads(Consume, n, s1).value.1)
            && |probed| == |Media(DeliveredBy(d, plan, rps, s1))| - |s1.saved|
  {
    Prefixes(d, rps, |rps|);
    k, probed := ReadAfterProbing(d, rps, patience, n);
    FirstYield(d, plan, rps, Consumed(rps, Probed(d, rps, patience).0));
  }

  lemma {:induction false} ReadAfterProbing(d: DeframerState, rps: seq<RtpPacket>, patience: nat, n: nat)
    returns (k: nat, probed: seq<Packet>)
    requires Probed(d, rps, patience).1.Ready? && Reads(Consume, n, Probed(d, rps, patience).0).Some?
    requires |Arrivals(rps)| == |rps|
    ensures var s1 := Probed(d, rps, patience).0;
            && |Reads(Consume, n, s1).value.1| == n && 1 <= |probed| <= patience
            && ReadFrom(d, Arrivals(rps), k, probed, Reads(Consume, n, s1).value.1)
            && Consumed(rps, s1) <= |rps| && Yield(Consume, [d], Arrivals(rps)[..Consumed(rps, s1)]).Some?
            && |probed| + |s1.saved| == |Yield(Consume, [d], Arrivals(rps)[..Consumed(rps, s1)]).value.1|
  {
    var s1 := Probed(d, rps, patience).0;
    probed := ProbingTakes(d, rps, patience);
    FreshAccounts(d, Arrivals(rps), Consumed(rps, s1), probed, s1);
    k := ReadThen(d, Arrivals(rps), Consumed(rps, s1), probed, s1, n);
  }

  lemma {:induction false} ReadThen(d: DeframerState, input: seq<Arrival>, k1: nat, probed: seq<Packet>, s1: Relay,
                                    n: nat)
    returns (k: nat)
    requires Accounts(Consume, ReaderState([d], [], input), k1, probed, s1) && Reads(Consume, n, s1).Some?
    ensures |Reads(Consume, n, s1).value.1| == n && ReadFrom(d, input, k, probed, Reads(Consume, n, s1).value.1)
  {
    var (s2, handed) := Reads(Consume, n, s1).value;
    var j := LosslessFifo(Consume, n, s1);
    AccountsTransitive(Consume, ReaderState([d], [], input), k1, probed, s1, j, handed, s2);
    k := k1 + j;
    FreshAccounts(d, input, k, probed + handed, s2);
  }

  lemma {:induction false} FreshAccounts(d: DeframerState, input: seq<Arrival>, k: nat, handed: seq<Packet>, s: Relay)
    requires Accounts(Consume, ReaderState([d], [], input), k, handed, s)
    ensures k <= |input| && Yield(Consume, [d], input[..k]).Some?
    ensures handed <= Yield(Consume, [d], input[..k]).value.1
    ensures |handed| + |s.saved| == |Yield(Consume, [d], input[..k]).value.1|
  {
    var y := Yield(Consume, [d], input[..k]).value.1;
    assert handed + s.saved == [] + y == y;
  }

  lemma {:induction false} ReadIsSlice(all: seq<Packet>, some: seq<Packet>, probed: seq<Packet>, handed: seq<Packet>)
    requires probed + handed <= some <= all
    ensures |probed| + |handed| <= |all| && handed == all[|probed|..|probed| + |handed|]
  {
    assert handed == (probed + handed)[|probed|..];
  }

  /** These packets are those of these deliveries, one by one and but for their stamps. */
  predicate PacketsOf(ps: seq<Packet>, media: seq<Delivery>) {
    && |ps| == |media|
    && forall j :: 0 <= j < |media| ==> Emitted(media[j]) == [Bare(ps[j])] && Carriable(media[j])
  }

  lemma {:induction false} MediaPackets(ps: seq<Packet>, ds: seq<Delivery>)
    requires BareAll(ps) == Output(ds) && forall x :: x in ds ==> Carriable(x)
    ensures PacketsOf(ps, Media(ds))
  {
    MediaEmitsOne(ds);
  }

  lemma {:induction false} SliceIsDecoded(ps: seq<Packet>, media: seq<Delivery>, m: nat, n: nat, sps: Unit, pps: Unit)
    requires PacketsOf(ps, media) && m + n <= |ps| && Clean(sps) && Clean(pps)
    ensures DecodesTo(ps[m..m + n], media[m..m + n], sps, pps)
  {
    var handed, part := ps[m..m + n], media[m..m + n];
    assert PacketsOf(handed, part);
    OutputOfSlice(part, BareAll(handed));
    RelayedIsDecoded(handed, part, sps, pps);
  }

  lemma {:induction false} YieldIsMedia(d: DeframerState, plan: seq<Item>, rps: seq<RtpPacket>)
    requires Transports(d, plan, rps)
    ensures var y := Yield(Consume, [d], Arrivals(rps));
            y.Some? && PacketsOf(y.value.1, Media(PlanDeliveries(plan)))
  {
    Depacketise(d.parser.state, plan);
    ReaderKeepsPackets(d, rps);
    OutputIsBare(PlanDeliveries(plan));
    MediaPackets(Yield(Consume, [d], Arrivals(rps)).value.1, PlanDeliveries(plan));
  }

  lemma {:induction false} HandedIsSlice(d: DeframerState, input: seq<Arrival>, k: nat, probed: seq<Packet>,
                                         handed: seq<Packet>, m: nat, n: nat)
    requires Yield(Consume, [d], input).Some? && ReadFrom(d, input, k, probed, handed)
    requires |probed| == m && |handed| == n
    ensures var ps := Yield(Consume, [d], input).value.1;
            m + n <= |ps| && handed == ps[m..m + n]
  {
    YieldPrefix(Consume, [d], input, k);
    ReadIsSlice(Yield(Consume, [d], input).value.1, Yield(Consume, [d], input[..k]).value.1, probed, handed);
  }

  lemma {:induction false} HandedIsDecoded(d: DeframerState, plan: seq<Item>, rps: seq<RtpPacket>, k: nat,
                                           probed: seq<Packet>, handed: seq<Packet>, m: nat, n: nat,
                                           sps: Unit, pps: Unit)
    requires Transports(d, plan, rps) && ReadFrom(d, Arrivals(rps), k, probed, handed)
    requires Clean(sps) && Clean(pps) && |probed| == m && |handed| == n
    ensures DecodesFrom(handed, Media(PlanDeliveries(plan)), m, n, sps, pps)
  {
    YieldIsMedia(d, plan, rps);
    HandedIsSlice(d, Arrivals(rps), k, probed, handed, m, n);
    SliceIsDecoded(Yield(Consume, [d], Arrivals(rps)).value.1, Media(PlanDeliveries(plan)), m, n, sps, pps);
  }

  // ---------------------------------------------------------------- probing succeeds

  lemma {:induction false} MediaAppend(a: seq<Delivery>, b: seq<Delivery>)
    ensures Media(a + b) == Media(a) + Media(b)
  {
    FlatMapAppend(MediaOf, a, b);
  }

  /** What has more packets than there are before the `q`-th delivery has that delivery. */
  lemma {:induction false} EnoughMedia(ds: seq<Delivery>, part: seq<Delivery>, q: nat)
    requires q <= |ds| && part <= ds && |Media(ds[..q])| < |Media(part)|
    ensures q < |part|
  {
    if |part| <= q {
      assert ds[..q] == part + ds[|part|..q];
      MediaAppend(part, ds[|part|..q]);
    }
  }

  lemma {:induction false} MediaBefore(ds: seq<Delivery>, q: nat)
    requires q < |ds| && Emitted(ds[q]) != []
    ensures |Media(ds[..q])| < |Media(ds)|
  {
    assert ds == ds[..q] + [ds[q]] + ds[q + 1..];
    MediaAppend(ds[..q] + [ds[q]], ds[q + 1..]);
    MediaAppend(ds[..q], [ds[q]]);
    FlatMapOne(MediaOf, ds[q]);
  }

  lemma {:induction false} SetHasCome(t: Byte, ss: Sets, ds: seq<Delivery>, j: nat)
    requires (t == 7 || t == 8) && j < |ds| && Carries(ds[j], t)
    ensures SetOf(t, DeliverAll(ss, ds)).Stored?
  {
    CarrierIsFound(t, ds, j);
    LastSetIsKept(t, ss, ds, LastCarrying(t, ds));
  }

  /** An SPS, a PPS, and then a unit that is neither. */
  predicate Introduced(ds: seq<Delivery>, i: nat, j: nat, q: nat) {
    i < q && j < q && q < |ds| && Carries(ds[i], 7) && Carries(ds[j], 8) && Emitted(ds[q]) != []
  }

  lemma {:induction false} KnownOnceRead(d: DeframerState, plan: seq<Item>, rps: seq<RtpPacket>, i: nat, j: nat, q: nat,
                                         m: nat)
    requires Transports(d, plan, rps) && Introduced(PlanDeliveries(plan), i, j, q)
    requires m == |Media(PlanDeliveries(plan)[..q])| + 1
    requires Reads(Consume, m, ReaderState([d], [], Arrivals(rps))).Some?
    ensures Known(Reads(Consume, m, ReaderState([d], [], Arrivals(rps))).value.0.deframers, 0)
  {
    var s, ds := ReaderState([d], [], Arrivals(rps)), PlanDeliveries(plan);
    var (s1, ps) := Reads(Consume, m, s).value;
    var k := LosslessFifo(Consume, m, s);
    Prefixes(d, rps, |rps|);
    FirstYield(d, plan, rps, k);
    var part := FirstDeliveries(d.parser.state.fbuf, plan, k);
    assert |ps + s1.saved| == |Media(part)|;
    EnoughMedia(ds, part, q);
    assert part[i] == ds[i] && part[j] == ds[j];
    SetHasCome(7, d.parser.state.sets, part, i);
    SetHasCome(8, d.parser.state.sets, part, j);
  }

  lemma {:induction false} PlanCanBeRead(d: DeframerState, plan: seq<Item>, rps: seq<RtpPacket>, m: nat)
    requires Transports(d, plan, rps) && m <= |Media(PlanDeliveries(plan))|
    ensures Reads(Consume, m, ReaderState([d], [], Arrivals(rps))).Some?
  {
    var s := ReaderState([d], [], Arrivals(rps));
    YieldIsMedia(d, plan, rps);
    assert s.input[..|s.input|] == s.input;
    assert Suffices(Consume, s, |s.input|, m);
    ReadsIff(Consume, m, s);
  }

  lemma {:induction false} OneStreamLearnt(d: DeframerState, input: seq<Arrival>, m: nat)
    requires var s := ReaderState([d], [], input);
             m != 0 && Reads(Consume, m, s).Some? && Known(Reads(Consume, m, s).value.0.deframers, 0)
    ensures Learnt(Consume, Known, ReaderState([d], [], input), NoneKnown(1), m)
  {
    var s := ReaderState([d], [], input);
    ConsumeWellTagged(1);
    ReadsIndexes(Consume, Count, m, s);
    var k := LosslessFifo(Consume, m, s);
    var ps := Reads(Consume, m, s).value.1;
    assert ps[m - 1].idx == 0;
    assert SeenAt(Consume, Known, s, 0, m - 1);
  }

  /** A sender is put on the air: probing succeeds on every plan that sends an SPS, a PPS and then a
      unit that is neither, if its patience covers the packets of the plan. */
  lemma {:induction false} PlanMakesReady(d: DeframerState, plan: seq<Item>, rps: seq<RtpPacket>, patience: nat,
                                          i: nat, j: nat, q: nat)
    requires Transports(d, plan, rps) && Introduced(PlanDeliveries(plan), i, j, q)
    requires |Media(PlanDeliveries(plan))| <= patience
    ensures Probed(d, rps, patience).1.Ready?
  {
    var s, ds := ReaderState([d], [], Arrivals(rps)), PlanDeliveries(plan);
    var m := |Media(ds[..q])| + 1;
    MediaBefore(ds, q);
    PlanCanBeRead(d, plan, rps, m);
    KnownOnceRead(d, plan, rps, i, j, q, m);
    OneStreamLearnt(d, Arrivals(rps), m);
    ReadyIff(Consume, Known, s, NoneKnown(1), patience);
  }

  // ---------------------------------------------------------------- when packets are lost

  lemma {:induction false} RuntEndsReader(d: DeframerState, xs: seq<Sent>, rps: seq<RtpPacket>)
    requires d.parser.H264? && Acceptable(d, rps) && AllValid(xs) && RtpPayloads(rps) == BytesOf(xs)
    requires Sound(d.parser.state.fbuf, xs) && !NoRunts(d.parser.state.fbuf, xs)
    ensures Yield(Consume, [d], Arrivals(rps)).None?
    decreases |xs|
  {
    var x, rp, rest := xs[0], rps[0], rps[1..];
    assert rp.payload == SentBytes(x);
    PacketArrives(d.parser.state, x);
    if !Runt(d.parser.state.fbuf, x) {
      var d1 := Taken(d, rp);
      ConsumeOne(d, rp);
      AcceptableIgnoresParser(d.(clock := d1.clock), d1, rest);
      assert RtpPayloads(rest) == BytesOf(xs)[1..] == BytesOf(xs[1..]);
      assert Arrivals(rps)[1..] == Arrivals(rest);
      RuntEndsReader(d1, xs[1..], rest);
    }
  }

  lemma {:induction false} ReaderEndsIff(d: DeframerState, xs: seq<Sent>, rps: seq<RtpPacket>)
    requires d.parser.H264? && PlainBuffer(d.parser.state.fbuf) && Acceptable(d, rps)
    requires AllValid(xs) && RtpPayloads(rps) == BytesOf(xs)
    ensures var y, ds := Yield(Consume, [d], Arrivals(rps)), StreamDeliveries(d.parser.state.fbuf, xs);
            && (y.Some? <==> NoRunts(d.parser.state.fbuf, xs))
            && (y.Some? ==> BareAll(y.value.1) == Output(Directs(UnitsOf(ds))))
  {
    var st, ds := d.parser.state, StreamDeliveries(d.parser.state.fbuf, xs);
    PlainStaysPlain(st.fbuf, xs);
    if !NoRunts(st.fbuf, xs) {
      RuntEndsReader(d, xs, rps);
    } else {
      StreamArrives(st, xs);
      NoRuntsNoErrors(st, xs);
      ReaderKeepsPackets(d, rps);
      UnitsTellAll(st.sets, st.sets, ds);
      OutputIsBare(ds);
    }
  }

  /** Exactly when loss ends the stream: the reader gets through the packets of a plan that arrived
      if and only if no broken run was put together to a single byte, and then it yields the packets
      of the surviving units. */
  lemma {:induction false} LossEndsStreamIff(d: DeframerState, plan: seq<Item>, got: seq<bool>, rps: seq<RtpPacket>)
    requires d.parser.H264? && PlainBuffer(d.parser.state.fbuf) && Acceptable(d, rps)
    requires ValidPlan(plan) && |got| == |PlanSents(plan)| && AllValid(Kept(PlanSents(plan), got))
    requires RtpPayloads(rps) == BytesOf(Kept(PlanSents(plan), got))
    ensures var y, rs := Yield(Consume, [d], Arrivals(rps)), Receptions(plan, got);
            && (y.Some? <==> NoRuntItems(d.parser.state.fbuf, rs))
            && (y.Some? ==> BareAll(y.value.1) == Output(Directs(AllSurvivors(d.parser.state.fbuf, rs))))
  {
    var rs, st := Receptions(plan, got), d.parser.state;
    KeptByItem(plan, got);
    NoRuntsIff(st.fbuf, rs);
    ReaderEndsIff(d, Kept(PlanSents(plan), got), rps);
    StreamBrings(st.fbuf, rs);
  }

  // ---------------------------------------------------------------- the clock after probing

  lemma {:induction false} TimedSlice(ps: seq<Packet>, sources: seq<Source>, rate: nat, m: nat, n: nat)
    requires AllTimed(ps, sources, rate) && m + n <= |ps|
    ensures AllTimed(ps[m..m + n], sources[m..m + n], rate)
  {
    var part, from := ps[m..m + n], sources[m..m + n];
    forall j | 0 <= j < |part| ensures TimedBy(part[j], from[j], rate) {
      assert TimedBy(ps[m + j], sources[m + j], rate);
    }
  }

  /** The sender's clock reaches the viewer of what is read after probing: the outgoing sample counts
      keep the time of the sources of those packets. */
  lemma {:induction false} ClockAfterProbing(d: DeframerState, rps: seq<RtpPacket>, patience: nat, n: nat)
    returns (thrown: nat)
    requires d.parser.H264? && Acceptable(d, rps) && WholePeriods(d.clock) && 0 < d.clockRate <= SECOND
    requires forall i :: 0 <= i < |rps| ==> rps[i].timestamp < TWO32
    requires Feed(d.parser.state, RtpPayloads(rps)).1.Packets?
    requires Probed(d, rps, patience).1.Ready? && n != 0 && Reads(Consume, n, Probed(d, rps, patience).0).Some?
    ensures |Arrivals(rps)| == |rps| && Consumed(rps, Probed(d, rps, patience).0) <= |rps|
    ensures var s1 := Probed(d, rps, patience).0;
            var y := Yield(Consume, [d], Arrivals(rps)[..Consumed(rps, s1)]);
            y.Some? && 1 <= thrown <= patience && thrown + |s1.saved| == |y.value.1|
    ensures thrown + n <= |Sources(d, rps)|
    ensures ClockKept(Reads(Consume, n, Probed(d, rps, patience).0).value.1,
                      Sources(d, rps)[thrown..thrown + n], d.clockRate)
  {
    Prefixes(d, rps, |rps|);
    var k, probed := ReadAfterProbing(d, rps, patience, n);
    thrown := |probed|;
    var handed := Reads(Consume, n, Probed(d, rps, patience).0).value.1;
    ReaderKeepsTime(d, rps);
    var ps := Yield(Consume, [d], Arrivals(rps)).value.1;
    HandedIsSlice(d, Arrivals(rps), k, probed, handed, thrown, n);
    TimedSlice(ps, Sources(d, rps), d.clockRate, thrown, n);
    TimedNeverDrifts(handed, Sources(d, rps)[thrown..thrown + n], d.clockRate);
  }
}
