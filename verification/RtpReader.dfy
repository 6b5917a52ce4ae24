/**
 From datagrams to packets: Deframer.Deframe (ingest/ftl/deframing.go) stamps what the parser
 returns with the unwrapped time, and rtpReader (ingest/ftl/rtp.go) queues it.
 */
module RtpReader {
  import opened Bytes
  import opened Wrappers
  import opened H264Util
  import opened Depacketizer
  import opened MediaClock
  import opened ReaderQueue

  /** The parser behind a deframer: the H.264 state machine, or the pass-through one. */
  datatype Parser = H264(state: ParserState) | Null

  datatype DeframerState = DeframerState(ssrc: nat, payloadType: nat, clockRate: nat,
                                         parser: Parser, clock: ClockState, lastSeq: nat)

  // ---------------------------------------------------------------- Deframe

  function Stamp(packets: seq<Packet>, t: int): (r: seq<Packet>)
    ensures |r| == |packets|
    ensures forall i :: 0 <= i < |r| ==> r[i] == packets[i].(time := t)
  {
    if packets == [] then [] else [packets[0].(time := t)] + Stamp(packets[1..], t)
  }

  function ParseWith(p: Parser, payload: seq<Byte>): (Parser, Outcome) {
    match p
    case Null => (Null, Packets([Packet(0, false, 0, payload)]))
    case H264(st) =>
      var (st', r) := Parse(st, payload, false);
      (H264(st'), r)
  }

  function Stamped(r: Outcome, t: int): Deframed {
    match r
    case Packets(ps) => Frames(Stamp(ps, t))
    case TooShort => Failed(BadPayload)
    case Nested => Failed(BufferRecursion)
  }

  function Deframe(d: DeframerState, rp: RtpPacket): (DeframerState, Deframed) {
    var (clock, ts) := Unwrap(d.clock, rp.timestamp);
    var d1 := d.(lastSeq := rp.sequenceNumber, clock := clock);
    match FromTS(ts, d.clockRate)
    case None => (d1, Failed(ClockOverflow))
    case Some(t) =>
      var (p, r) := ParseWith(d.parser, rp.payload);
      (d1.(parser := p), Stamped(r, t))
  }

  class Deframer {
    const ssrc: nat
    const payloadType: nat
    const clockRate: nat
    const h264: H264Parser?
    var baseTS: nat
    var lastTS: nat
    var lastSeq: nat

    ghost function Repr(): set<object> {
      {this} + if h264 == null then {} else {h264}
    }

    ghost function State(): DeframerState
      reads Repr()
    {
      DeframerState(ssrc, payloadType, clockRate,
                    if h264 == null then Null else H264(h264.State()),
                    ClockState(baseTS, lastTS), lastSeq)
    }

    constructor (ssrc: nat, payloadType: nat, clockRate: nat, h264: H264Parser?)
      ensures this.h264 == h264
      ensures State() == DeframerState(ssrc, payloadType, clockRate,
                                       if h264 == null then Null else H264(h264.State()), FRESH_CLOCK, 0)
    {
      this.ssrc, this.payloadType, this.clockRate, this.h264 := ssrc, payloadType, clockRate, h264;
      baseTS, lastTS, lastSeq := 0, 0, 0;
    }

    method CodecKnown() returns (k: bool)
      ensures k == CodecReady(State())
    {
      return h264 == null || (h264.sps.Stored? && h264.pps.Stored?);
    }

    method DeframePacket(rp: RtpPacket) returns (r: Deframed)
      modifies Repr()
      ensures (State(), r) == Deframe(old(State()), rp)
    {
      lastSeq := rp.sequenceNumber;
      if rp.timestamp < lastTS && rp.timestamp < TWO31 {
        baseTS := (baseTS + TWO32) % 0x1_0000_0000_0000_0000;
      }
      var ts := (baseTS + rp.timestamp) % 0x1_0000_0000_0000_0000;
      lastTS := rp.timestamp;
      var t := FromTS(ts, clockRate);
      if t.None? {
        return Failed(ClockOverflow);
      }
      var out: Outcome := Packets([Packet(0, false, 0, rp.payload)]);
      if h264 != null {
        out := h264.ParseFrame(rp.payload, false);
      }
      return Stamped(out, t.value);
    }
  }

  // ---------------------------------------------------------------- a set of deframers

  predicate Matches(d: DeframerState, rp: RtpPacket) {
    d.ssrc == rp.ssrc && d.payloadType == rp.payloadType
  }

  /** The first deframer for a packet, or the number of deframers. */
  function FirstMatch(ds: seq<DeframerState>, rp: RtpPacket): (i: nat)
    ensures i <= |ds| && (i < |ds| ==> Matches(ds[i], rp))
    ensures forall j :: 0 <= j < i ==> !Matches(ds[j], rp)
  {
    if ds == [] || Matches(ds[0], rp) then 0 else 1 + FirstMatch(ds[1..], rp)
  }

  /** The conversion of a stream index to a signed byte. */
  function Int8(i: nat): (r: int)
    ensures -128 <= r < 128 && (i - r) % 256 == 0
  {
    if i % 256 < 128 then i % 256 else i % 256 - 256
  }

  function Tag(packets: seq<Packet>, idx: int): (r: seq<Packet>)
    ensures |r| == |packets|
    ensures forall i :: 0 <= i < |r| ==> r[i] == packets[i].(idx := idx)
  {
    if packets == [] then [] else [packets[0].(idx := idx)] + Tag(packets[1..], idx)
  }

  function Tagged(r: Deframed, idx: int): Deframed {
    if r.Frames? then Frames(Tag(r.packets, idx)) else r
  }

  /** One datagram: the first matching deframer takes it, and nobody else sees it. */
  function Consume(ds: seq<DeframerState>, rp: RtpPacket): (seq<DeframerState>, Deframed) {
    var i := FirstMatch(ds, rp);
    if i == |ds| then (ds, Frames([]))
    else
      var (d, r) := Deframe(ds[i], rp);
      (ds[i := d], Tagged(r, Int8(i)))
  }

  function Count(ds: seq<DeframerState>): nat {
    |ds|
  }

  /** The deframer a datagram is for: the first that matches. */
  predicate IsFor(ds: seq<DeframerState>, rp: RtpPacket, i: int) {
    && 0 <= i < |ds| && ds[i].ssrc == rp.ssrc && ds[i].payloadType == rp.payloadType
    && forall j :: 0 <= j < i ==> ds[j].ssrc != rp.ssrc || ds[j].payloadType != rp.payloadType
  }

  /** With at most 128 deframers every packet carries the index of the deframer its datagram was
      for; the index is a signed byte. */
  lemma {:induction false} ConsumeTagged(ds: seq<DeframerState>, rp: RtpPacket)
    requires |ds| <= 128
    ensures |Consume(ds, rp).0| == |ds|
    ensures Consume(ds, rp).1.Frames? ==>
              forall j :: 0 <= j < |Consume(ds, rp).1.packets| ==> IsFor(ds, rp, Consume(ds, rp).1.packets[j].idx)
  {
    assert FirstMatch(ds, rp) < |ds| ==> Int8(FirstMatch(ds, rp)) == FirstMatch(ds, rp);
  }

  lemma {:induction false} ConsumeWellTagged(n: nat)
    requires n <= 128
    ensures WellTagged(Consume, Count, n)
  {
    forall ds: seq<DeframerState>, rp | Count(ds) == n
      ensures Count(Consume(ds, rp).0) == n
      ensures Consume(ds, rp).1.Frames? ==> IndexesBelow(Consume(ds, rp).1.packets, n)
    {
      ConsumeTagged(ds, rp);
      if Consume(ds, rp).1.Frames? {
        var ps := Consume(ds, rp).1.packets;
        assert forall j :: 0 <= j < |ps| ==> IsFor(ds, rp, ps[j].idx);
      }
    }
  }

  /** CodecData is known: an H.264 parser has seen both parameter sets. */
  predicate CodecReady(d: DeframerState) {
    d.parser.H264? ==> d.parser.state.sets.sps.Stored? && d.parser.state.sets.pps.Stored?
  }

  predicate Known(ds: seq<DeframerState>, i: int) {
    0 <= i < |ds| && CodecReady(ds[i])
  }

  lemma {:induction false} KnownStays(ds: seq<DeframerState>, rp: RtpPacket, i: int)
    requires Known(ds, i)
    ensures Known(Consume(ds, rp).0, i)
  {
    var k := FirstMatch(ds, rp);
    if k < |ds| && ds[k].parser.H264? {
      SetsStay(ds[k].parser.state, rp.payload, false);
    }
  }

  lemma {:induction false} KnownIsStable()
    ensures Stable(Consume, Known)
  {
    forall ds: seq<DeframerState>, rp, i | Known(ds, i) ensures Known(Consume(ds, rp).0, i) {
      KnownStays(ds, rp, i);
    }
  }

  /** When Streams succeeds, every H.264 stream has had both of its parameter sets. */
  lemma {:induction false} StreamsKnowsAll(s: ReaderState<seq<DeframerState>>, patience: nat, i: nat)
    requires Probing(Consume, Known, s, NoneKnown(|s.deframers|), patience).1.Ready? && i < |s.deframers|
    ensures var ds := Probing(Consume, Known, s, NoneKnown(|s.deframers|), patience).0.deframers;
            && i < |ds|
            && (ds[i].parser.H264? ==> ds[i].parser.state.sets.sps.Stored? && ds[i].parser.state.sets.pps.Stored?)
  {
    KnownIsStable();
    ReadyMeansKnown(Consume, Known, s, NoneKnown(|s.deframers|), patience);
    assert Known(Probing(Consume, Known, s, NoneKnown(|s.deframers|), patience).0.deframers, i);
  }

  /** The `j`-th read got a packet of stream `i` when its parser had nothing to wait for: it is not
      H.264, or both of its parameter sets had come. */
  ghost predicate SettledAt(s: ReaderState<seq<DeframerState>>, i: int, j: nat) {
    && Reads(Consume, j + 1, s).Some?
    && var (s1, ps) := Reads(Consume, j + 1, s).value;
       && |ps| == j + 1 && ps[j].idx == i && 0 <= i < |s1.deframers|
       && (s1.deframers[i].parser.Null? ||
           (s1.deframers[i].parser.state.sets.sps.Stored? && s1.deframers[i].parser.state.sets.pps.Stored?))
  }

  ghost predicate SettledBy(s: ReaderState<seq<DeframerState>>, i: int, m: nat) {
    exists j: nat :: j < m && SettledAt(s, i, j)
  }

  ghost predicate AllSettled(s: ReaderState<seq<DeframerState>>, m: nat) {
    Reads(Consume, m, s).Some? && forall i :: 0 <= i < |s.deframers| ==> SettledBy(s, i, m)
  }

  lemma {:induction false} SettledIffLearnt(s: ReaderState<seq<DeframerState>>, m: nat)
    ensures AllSettled(s, m) <==> Learnt(Consume, Known, s, NoneKnown(|s.deframers|), m)
  {
    forall i: int ensures SettledBy(s, i, m) <==> SeenBy(Consume, Known, s, i, m) {
      if j: nat :| j < m && SettledAt(s, i, j) {
        assert SeenAt(Consume, Known, s, i, j);
      }
      if j: nat :| j < m && SeenAt(Consume, Known, s, i, j) {
        assert SettledAt(s, i, j);
      }
    }
  }

  /** Exactly when Streams succeeds: at least one and at most `patience` reads succeed and show, for
      every stream, a packet at a moment when its parser had nothing left to wait for. */
  lemma {:induction false} StreamsReadyIff(s: ReaderState<seq<DeframerState>>, patience: nat)
    ensures Probing(Consume, Known, s, NoneKnown(|s.deframers|), patience).1.Ready? <==>
            exists m: nat :: 1 <= m <= patience && AllSettled(s, m)
  {
    ReadyIff(Consume, Known, s, NoneKnown(|s.deframers|), patience);
    if m: nat :| 1 <= m <= patience && AllSettled(s, m) {
      SettledIffLearnt(s, m);
    }
    if m: nat :| 1 <= m <= patience && Learnt(Consume, Known, s, NoneKnown(|s.deframers|), m) {
      SettledIffLearnt(s, m);
    }
  }

  // ---------------------------------------------------------------- the reader as an object

  class Reader {
    const deframers: seq<Deframer>
    var saved: seq<Packet>
    var input: seq<Arrival>
    var streams: bool

    ghost function Parts(): set<object> {
      set d, o | d in deframers && o in d.Repr() :: o
    }

    /** The deframers share nothing with each other or with the reader. */
    ghost predicate Valid() {
      && (forall i, j :: 0 <= i < j < |deframers| ==> deframers[i].Repr() !! deframers[j].Repr())
      && this !in Parts()
    }

    ghost function Deframers(): (s: seq<DeframerState>)
      reads Parts()
      ensures |s| == |deframers|
      ensures forall i :: 0 <= i < |s| ==> s[i] == deframers[i].State()
    {
      States(deframers)
    }

    ghost function State(): ReaderState<seq<DeframerState>>
      reads this, Parts()
    {
      ReaderState(Deframers(), saved, input)
    }

    method ReadNext() returns (r: Reading)
      requires Valid()
      modifies this, Parts()
      ensures (State(), r) == Read(Consume, old(State()))
      ensures streams == old(streams)
    {
      if saved != [] {
        r := Got(saved[0]);
        saved := saved[1..];
        return;
      }
      while true
        invariant saved == [] && streams == old(streams)
        invariant Read(Consume, State()) == Read(Consume, old(State()))
        decreases |input|
      {
        if input == [] {
          return Error(EndOfInput);
        }
        var done := Receive();
        if done.Some? {
          return done.value;
        }
      }
    }

    /** One arrival; None when it produced no packet yet and the reader has to wait on. */
    method Receive() returns (r: Option<Reading>)
      requires Valid() && saved == [] && input != []
      modifies this, Parts()
      ensures streams == old(streams)
      ensures match r
              case Some(reading) => (State(), reading) == Read(Consume, old(State()))
              case None =>
                saved == [] && |input| < old(|input|) && Read(Consume, State()) == Read(Consume, old(State()))
    {
      var arrival := input[0];
      input := input[1..];
      if arrival.Cancelled? {
        return Some(Error(EndOfInput));
      } else if arrival.Malformed? {
        return Some(Error(BadDatagram));
      }
      var out := Dispatch(arrival.rp);
      if out.Failed? {
        return Some(Error(out.why));
      } else if out.packets != [] {
        saved := out.packets[1..];
        return Some(Got(out.packets[0]));
      }
      return None;
    }

    /** The loop over the deframers: only the first match is given the packet. */
    method Dispatch(rp: RtpPacket) returns (r: Deframed)
      requires Valid()
      modifies Parts()
      ensures (Deframers(), r) == Consume(old(Deframers()), rp)
    {
      var i := 0;
      while i < |deframers| && !(deframers[i].ssrc == rp.ssrc && deframers[i].payloadType == rp.payloadType)
        invariant i <= |deframers|
        invariant forall j :: 0 <= j < i ==> !Matches(Deframers()[j], rp)
      {
        i := i + 1;
      }
      assert i == FirstMatch(Deframers(), rp);
      if i == |deframers| {
        return Frames([]);
      }
      r := DeframeAt(i, rp);
      r := Tagged(r, Int8(i));
    }

    method DeframeAt(i: nat, rp: RtpPacket) returns (r: Deframed)
      requires Valid() && i < |deframers|
      modifies Parts()
      ensures var (d, out) := Deframe(old(Deframers())[i], rp);
              Deframers() == old(Deframers())[i := d] && r == out
    {
      r := deframers[i].DeframePacket(rp);
      forall j | 0 <= j < |deframers| && j != i ensures deframers[j].State() == old(deframers[j].State()) {
        assert deframers[j].Repr() !! deframers[i].Repr();
      }
    }

    method ReadAndLearn(known: seq<bool>) returns (r: Reading, k: seq<bool>)
      requires Valid() && |known| == |deframers|
      modifies this, Parts()
      ensures (State(), r) == Read(Consume, old(State())) && streams == old(streams)
      ensures k == if r.Got? then Learn(Known, State().deframers, r.packet, known) else known
    {
      r := ReadNext();
      k := known;
      if r.Got? {
        k := LearnFrom(r.packet, known);
      }
    }

    method LearnFrom(p: Packet, known: seq<bool>) returns (k: seq<bool>)
      requires |known| == |deframers|
      ensures k == Learn(Known, Deframers(), p, known)
    {
      k := known;
      if 0 <= p.idx < |deframers| {
        var ready := deframers[p.idx].CodecKnown();
        if ready {
          k := known[p.idx := true];
        }
      }
    }

    /** One turn of the loop of Streams, with `left` packets to go; None when it has to go on. */
    method ProbeOnce(known: seq<bool>, left: nat) returns (done: Option<Probe>, k: seq<bool>)
      requires Valid() && |known| == |deframers| && left != 0
      modifies this, Parts()
      ensures streams == old(streams) && |k| == |known|
      ensures match done
              case Some(probe) => (State(), probe) == Probing(Consume, Known, old(State()), known, left)
              case None => Probing(Consume, Known, State(), k, left - 1) ==
                           Probing(Consume, Known, old(State()), known, left)
    {
      var pkt;
      pkt, k := ReadAndLearn(known);
      if pkt.Error? {
        return Some(Unready(pkt.why)), k;
      }
      return if AllKnown(k) then Some(Ready) else None, k;
    }

    /** Streams: `patience` packets may be read before the time is up. */
    method Streams(patience: nat) returns (r: Probe)
      requires Valid()
      modifies this, Parts()
      ensures old(streams) ==> r.Ready? && State() == old(State()) && streams
      ensures !old(streams) ==>
                && (State(), r) == Probing(Consume, Known, old(State()), NoneKnown(|deframers|), patience)
                && streams == r.Ready?
    {
      if streams {
        return Ready;
      }
      r := ProbeAll(patience);
      streams := r.Ready?;
    }

    /** The loop of Streams. */
    method ProbeAll(patience: nat) returns (r: Probe)
      requires Valid()
      modifies this, Parts()
      ensures (State(), r) == Probing(Consume, Known, old(State()), NoneKnown(|deframers|), patience)
      ensures streams == old(streams)
    {
      var known := NoneKnown(|deframers|);
      var left := patience;
      ghost var goal := Probing(Consume, Known, State(), known, patience);
      while left != 0
        invariant streams == old(streams) && |known| == |deframers|
        invariant Probing(Consume, Known, State(), known, left) == goal
      {
        var done;
        done, known := ProbeOnce(known, left);
        if done.Some? {
          return done.value;
        }
        left := left - 1;
      }
      return Unready(TimedOut);
    }

    /** ReadPacket: the first call probes. */
    method ReadPacket(patience: nat) returns (r: Reading)
      requires Valid()
      modifies this, Parts()
      ensures old(streams) ==> streams && (State(), r) == Read(Consume, old(State()))
      ensures !old(streams) ==>
                var (s1, probe) := Probing(Consume, Known, old(State()), NoneKnown(|deframers|), patience);
                if probe.Ready? then streams && (State(), r) == Read(Consume, s1)
                else !streams && State() == s1 && r == Error(probe.why)
    {
      if !streams {
        var probe := Streams(patience);
        if probe.Unready? {
          return Error(probe.why);
        }
      }
      r := ReadNext();
    }
  }

  function NoneKnown(n: nat): (s: seq<bool>)
    ensures |s| == n
  {
    seq(n, _ => false)
  }

  ghost function States(ds: seq<Deframer>): (s: seq<DeframerState>)
    reads set d, o | d in ds && o in d.Repr() :: o
    ensures |s| == |ds|
    ensures forall i :: 0 <= i < |s| ==> s[i] == ds[i].State()
  {
    if ds == [] then [] else [ds[0].State()] + States(ds[1..])
  }
}
