/**
 The H.264 depacketiser of ingest/ftl/deframing.go: single NAL unit packets, STAP-A
 aggregation packets and FU-A fragments (sections 5.6, 5.7.1 and 5.8 of RFC 6184).

 `Parse` is the state machine on values and `H264Parser.ParseFrame` the same machine
 updating its fields in place. The source does not look at the type an FU header carries:
 a reassembled unit of type 24 or 28 sends it back into its own fragment buffer. `Parse`
 stops there with the outcome Nested, and `ParserRecursion.Eval` goes on into the recursion.
 */
module Depacketizer {
  import opened Bytes
  import opened Wrappers
  import opened H264Util

  const SPS_TYPE: Byte := 7
  const PPS_TYPE: Byte := 8
  const IDR_TYPE: Byte := 5
  const STAP_A: Byte := 24
  const FU_A: Byte := 28

  /** A stored parameter set. One that arrived in fragments is a slice of the array behind the
      fragment buffer, and `shared` while the buffer still uses that array. `over` is what has
      been written over its first byte since, oldest first: one byte for every fragmented unit
      that began while it was shared. It reads as `bytes` as long as there is none. */
  datatype ParamSet = Absent | Stored(bytes: Unit, shared: bool, over: seq<Byte>)

  /** The stored parameter sets, and what the memory allocator will do to them. `moves` is an
      input: it says of each coming write of a payload to the fragment buffer whether the payload
      does not fit, so that the buffer moves to a new array. The first byte of a unit always fits
      the array that a parameter set shares. */
  datatype Sets = Sets(sps: ParamSet, pps: ParamSet, moves: seq<bool>)

  /** The fields of the parser. */
  datatype ParserState = ParserState(sets: Sets, fbuf: seq<Byte>)

  datatype Outcome = Packets(packets: seq<Packet>) | TooShort | Nested

  function Type(u: Unit): Byte
    requires u != []
  {
    Low5(u[0])
  }

  predicate IsStart(packet: seq<Byte>)
    requires 2 <= |packet|
  {
    Bit7(packet[1])
  }

  predicate IsEnd(packet: seq<Byte>)
    requires 2 <= |packet|
  {
    Bit6(packet[1])
  }

  /** What resetting the fragment buffer and writing one byte to it does to a parameter set. */
  function Clobber(p: ParamSet, first: Byte): ParamSet {
    if p.Stored? && p.shared then p.(over := p.over + [first]) else p
  }

  function ClobberBoth(ss: Sets, first: Byte): Sets {
    ss.(sps := Clobber(ss.sps, first), pps := Clobber(ss.pps, first))
  }

  /** A buffer that has moved leaves the slices of its old array alone for good. */
  function Detach(p: ParamSet): ParamSet {
    if p.Stored? then p.(shared := false) else p
  }

  /** What writing a payload to the fragment buffer does to the parameter sets. */
  function Grow(ss: Sets): Sets {
    if ss.moves == [] then ss
    else if ss.moves[0] then Sets(Detach(ss.sps), Detach(ss.pps), ss.moves[1..])
    else ss.(moves := ss.moves[1..])
  }

  /** The parameter sets after a plain unit. */
  function Keep(ss: Sets, u: Unit, inBuffer: bool): Sets {
    if u == [] then ss
    else if Type(u) == SPS_TYPE then ss.(sps := Stored(u, inBuffer, []))
    else if Type(u) == PPS_TYPE then ss.(pps := Stored(u, inBuffer, []))
    else ss
  }

  predicate IsSet(u: Unit) {
    u != [] && (Type(u) == SPS_TYPE || Type(u) == PPS_TYPE)
  }

  /** A plain unit: parameter sets are kept, everything else becomes one AVCC packet. */
  function ParseUnit(st: ParserState, u: Unit, inBuffer: bool): (ParserState, Outcome)
    requires 2 <= |u|
  {
    (st.(sets := Keep(st.sets, u, inBuffer)),
     Packets(if IsSet(u) then [] else [Packet(0, Type(u) == IDR_TYPE, 0, Avcc(u))]))
  }

  /** The fragment buffer after one fragment; a start fragment discards what it held. */
  function Accumulate(st: ParserState, packet: seq<Byte>): ParserState
    requires 2 <= |packet|
  {
    if IsStart(packet) then
      var first := Splice(packet[0], packet[1]);
      ParserState(Grow(ClobberBoth(st.sets, first)), [first] + packet[2..])
    else if st.fbuf != [] then ParserState(Grow(st.sets), st.fbuf + packet[2..])
    else st
  }

  predicate Completes(st: ParserState, packet: seq<Byte>)
    requires 2 <= |packet|
  {
    IsEnd(packet) && Accumulate(st, packet).fbuf != []
  }

  predicate Composite(u: Unit) {
    2 <= |u| && (Type(u) == STAP_A || Type(u) == FU_A)
  }

  /** A buffer that does not hold the beginning of an aggregate or of a fragment. */
  predicate PlainBuffer(buf: seq<Byte>) {
    buf == [] || (Type(buf) != STAP_A && Type(buf) != FU_A)
  }

  function Weight(packet: seq<Byte>): nat {
    if Composite(packet) then |packet| else 0
  }

  /** One call of ParseFrame. */
  function Parse(st: ParserState, packet: seq<Byte>, inBuffer: bool): (ParserState, Outcome)
    decreases Weight(packet), 1, 0
  {
    if |packet| < 2 then (st, TooShort)
    else if Type(packet) == FU_A then
      var st1 := Accumulate(st, packet);
      if !Completes(st, packet) then (st1, Packets([]))
      else if Composite(st1.fbuf) then (st1, Nested)
      else
        var (st2, r) := Parse(st1, st1.fbuf, true);
        (st2.(fbuf := []), r)
    else if Type(packet) == STAP_A then ParseUnits(st, packet[1..], inBuffer)
    else ParseUnit(st, packet, inBuffer)
  }

  predicate HasUnit(body: seq<Byte>) {
    2 <= |body| && U16(body[0], body[1]) + 2 <= |body|
  }

  /** The aggregation units behind a STAP-A header; an incomplete last one is ignored. */
  function ParseUnits(st: ParserState, body: seq<Byte>, inBuffer: bool): (ParserState, Outcome)
    decreases |body| + 1, 0, |body|
  {
    if !HasUnit(body) then (st, Packets([]))
    else
      var size := U16(body[0], body[1]);
      var (st1, r) := Parse(st, body[2..2 + size], inBuffer);
      if !r.Packets? then (st1, r)
      else Prefixed(r.packets, ParseUnits(st1, body[2 + size..], inBuffer))
  }

  function Prefixed(before: seq<Packet>, rest: (ParserState, Outcome)): (ParserState, Outcome) {
    (rest.0, if rest.1.Packets? then Packets(before + rest.1.packets) else rest.1)
  }

  lemma {:induction false} PrefixedByNone(rest: (ParserState, Outcome))
    ensures Prefixed([], rest) == rest
  {
    if rest.1.Packets? {
      assert [] + rest.1.packets == rest.1.packets;
    }
  }

  lemma {:induction false} PrefixedTwice(a: seq<Packet>, b: seq<Packet>, rest: (ParserState, Outcome))
    ensures Prefixed(a, Prefixed(b, rest)) == Prefixed(a + b, rest)
  {
    if rest.1.Packets? {
      assert a + (b + rest.1.packets) == (a + b) + rest.1.packets;
    }
  }

  /** A parameter set once stored is never lost again, only replaced. */
  lemma {:induction false} SetsStay(st: ParserState, packet: seq<Byte>, inBuffer: bool)
    ensures st.sets.sps.Stored? ==> Parse(st, packet, inBuffer).0.sets.sps.Stored?
    ensures st.sets.pps.Stored? ==> Parse(st, packet, inBuffer).0.sets.pps.Stored?
    decreases |packet|, 1
  {
    if Composite(packet) && Type(packet) == STAP_A {
      SetsStayOverUnits(st, packet[1..], inBuffer);
    }
  }

  lemma {:induction false} SetsStayOverUnits(st: ParserState, body: seq<Byte>, inBuffer: bool)
    ensures st.sets.sps.Stored? ==> ParseUnits(st, body, inBuffer).0.sets.sps.Stored?
    ensures st.sets.pps.Stored? ==> ParseUnits(st, body, inBuffer).0.sets.pps.Stored?
    decreases |body|, 0
  {
    if HasUnit(body) {
      var size := U16(body[0], body[1]);
      SetsStay(st, body[2..2 + size], inBuffer);
      var (st1, r) := Parse(st, body[2..2 + size], inBuffer);
      if r.Packets? {
        SetsStayOverUnits(st1, body[2 + size..], inBuffer);
      }
    }
  }

  /** The stored sets, and the allocator, have no say in what a call returns. */
  lemma {:induction false} SetsDoNotShow(a: ParserState, b: ParserState, packet: seq<Byte>, inBuffer: bool)
    requires a.fbuf == b.fbuf
    ensures Parse(a, packet, inBuffer).1 == Parse(b, packet, inBuffer).1
    ensures Parse(a, packet, inBuffer).0.fbuf == Parse(b, packet, inBuffer).0.fbuf
    decreases |packet|, 1
  {
    if Composite(packet) && Type(packet) == STAP_A {
      SetsDoNotShowInUnits(a, b, packet[1..], inBuffer);
    }
  }

  lemma {:induction false} SetsDoNotShowInUnits(a: ParserState, b: ParserState, body: seq<Byte>, inBuffer: bool)
    requires a.fbuf == b.fbuf
    ensures ParseUnits(a, body, inBuffer).1 == ParseUnits(b, body, inBuffer).1
    ensures ParseUnits(a, body, inBuffer).0.fbuf == ParseUnits(b, body, inBuffer).0.fbuf
    decreases |body|, 0
  {
    if HasUnit(body) {
      var size := U16(body[0], body[1]);
      var unit := body[2..2 + size];
      SetsDoNotShow(a, b, unit, inBuffer);
      if Parse(a, unit, inBuffer).1.Packets? {
        SetsDoNotShowInUnits(Parse(a, unit, inBuffer).0, Parse(b, unit, inBuffer).0, body[2 + size..], inBuffer);
      }
    }
  }

  class H264Parser {
    var sps: ParamSet
    var pps: ParamSet
    var fbuf: seq<Byte>
    var moves: seq<bool>

    ghost function State(): ParserState
      reads this
    {
      ParserState(Sets(sps, pps, moves), fbuf)
    }

    constructor (moves: seq<bool>)
      ensures State() == ParserState(Sets(Absent, Absent, moves), [])
    {
      sps, pps, fbuf, this.moves := Absent, Absent, [], moves;
    }

    /** bytes.Buffer.Write, as far as slices of the buffer's array are concerned. */
    method Write(payload: seq<Byte>)
      modifies this
      ensures State() == ParserState(Grow(old(State()).sets), old(fbuf) + payload)
    {
      fbuf := fbuf + payload;
      if moves != [] {
        if moves[0] {
          sps, pps := Detach(sps), Detach(pps);
        }
        moves := moves[1..];
      }
    }

    method ParseFrame(packet: seq<Byte>, inBuffer: bool) returns (r: Outcome)
      modifies this
      ensures (State(), r) == Parse(old(State()), packet, inBuffer)
      decreases Weight(packet)
    {
      if |packet| < 2 {
        return TooShort;
      }
      var naluType := Type(packet);
      if naluType == SPS_TYPE {
        sps := Stored(packet, inBuffer, []);
        return Packets([]);
      } else if naluType == PPS_TYPE {
        pps := Stored(packet, inBuffer, []);
        return Packets([]);
      } else if naluType == FU_A {
        if IsStart(packet) {
          var first := Splice(packet[0], packet[1]);
          sps, pps := Clobber(sps, first), Clobber(pps, first);
          fbuf := [first];
        }
        if fbuf != [] {
          Write(packet[2..]);
          if IsEnd(packet) {
            if Composite(fbuf) {
              return Nested;
            }
            r := ParseFrame(fbuf, true);
            fbuf := [];
            return r;
          }
        }
        return Packets([]);
      } else if naluType == STAP_A {
        r := ParseStap(packet[1..], inBuffer);
      } else {
        var data := NaluToAvcc(packet);
        return Packets([Packet(0, naluType == IDR_TYPE, 0, data[..])]);
      }
    }

    method ParseStap(body: seq<Byte>, inBuffer: bool) returns (r: Outcome)
      modifies this
      ensures (State(), r) == ParseUnits(old(State()), body, inBuffer)
      decreases |body| + 1, 0
    {
      var packet := body;
      var packets := [];
      PrefixedByNone(ParseUnits(State(), packet, inBuffer));
      while 2 <= |packet|
        invariant |packet| <= |body|
        invariant ParseUnits(old(State()), body, inBuffer) ==
                  Prefixed(packets, ParseUnits(State(), packet, inBuffer))
        decreases |packet|
      {
        var size := U16(packet[0], packet[1]);
        if size + 2 > |packet| {
          break;
        }
        var p2 := ParseFrame(packet[2..2 + size], inBuffer);
        if !p2.Packets? {
          return p2;
        }
        PrefixedTwice(packets, p2.packets, ParseUnits(State(), packet[2 + size..], inBuffer));
        packets := packets + p2.packets;
        packet := packet[2 + size..];
      }
      assert packets + [] == packets;
      return Packets(packets);
    }
  }
}
