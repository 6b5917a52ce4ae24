/**
 The two byte formats H.264 NAL units travel in inside the relay (h264util/h264.go):
 AVCC, where a 32-bit length precedes each unit, and Annex B, where a start code does.

 Both writers are proved against readers that know nothing of them: a stream splits back
 into the units that were written exactly when each unit is one the format can carry.
 */
module H264Util {
  import opened Bytes
  import opened Wrappers

  type Unit = seq<Byte>

  /** The packets that flow from the depacketiser to every output (av.Packet). */
  datatype Packet = Packet(idx: int, isKeyFrame: bool, time: int, data: seq<Byte>)

  // ---------------------------------------------------------------- AVCC

  /** The AVCC form of one unit. The length field is 32 bits wide and truncates. */
  function Avcc(nalu: Unit): (s: seq<Byte>)
    ensures |s| == 4 + |nalu|
  {
    PutBigEndian(|nalu|, 4) + nalu
  }

  function AvccStream(nalus: seq<Unit>): seq<Byte> {
    FlatMap(Avcc, nalus)
  }

  /** Reads a stream of length-prefixed units; None when the lengths do not tile it. */
  function SplitAvcc(s: seq<Byte>): (r: Option<seq<Unit>>)
    ensures r.Some? ==> forall u :: u in r.value ==> |u| < TWO32
  {
    if s == [] then Some([])
    else if |s| < 4 then None
    else
      var n := BigEndian(s[..4]);
      assert n < TWO32 by { BigEndianBound(s[..4]); Pow256Of4(); }
      if |s| < 4 + n then None
      else
        match SplitAvcc(s[4 + n..])
        case None => None
        case Some(rest) => Some([s[4..4 + n]] + rest)
  }

  /** NALUToAVCC: a fresh array, the length put in front, the unit copied behind it. */
  method NaluToAvcc(nalu: Unit) returns (b: array<Byte>)
    ensures fresh(b) && b[..] == Avcc(nalu)
  {
    b := new Byte[4 + |nalu|];
    var len := PutBigEndian(|nalu|, 4);
    b[0], b[1], b[2], b[3] := len[0], len[1], len[2], len[3];
    forall i | 0 <= i < |nalu| {
      b[4 + i] := nalu[i];
    }
    assert b[..4] == len && b[4..] == nalu;
    assert b[..] == b[..4] + b[4..];
  }

  lemma {:induction false} SplitAvccStep(len: seq<Byte>, u: Unit, tail: seq<Byte>)
    requires |len| == 4 && BigEndian(len) == |u|
    ensures SplitAvcc(len + u + tail) ==
            match SplitAvcc(tail) case None => None case Some(rest) => Some([u] + rest)
  {
    var s := len + u + tail;
    assert s[..4] == len;
    assert s[4..4 + |u|] == u && s[4 + |u|..] == tail;
  }

  lemma {:induction false} AvccSplitsBack(nalus: seq<Unit>)
    requires forall u :: u in nalus ==> |u| < TWO32
    ensures SplitAvcc(AvccStream(nalus)) == Some(nalus)
  {
    if nalus != [] {
      var u, rest := nalus[0], nalus[1..];
      AvccSplitsBack(rest);
      Pow256Of4();
      PutThenRead(|u|, 4);
      SplitAvccStep(PutBigEndian(|u|, 4), u, AvccStream(rest));
      assert nalus == [u] + rest;
    }
  }

  /** AVCC is uniquely decodable exactly on units shorter than 2^32 bytes. */
  lemma {:induction false} AvccRoundTrip(nalus: seq<Unit>)
    ensures SplitAvcc(AvccStream(nalus)) == Some(nalus) <==> forall u :: u in nalus ==> |u| < TWO32
  {
    if forall u :: u in nalus ==> |u| < TWO32 {
      AvccSplitsBack(nalus);
    }
  }

  lemma {:induction false} SplitAvccParts(s: seq<Byte>) returns (len: seq<Byte>, u: Unit, tail: seq<Byte>)
    requires s != [] && SplitAvcc(s).Some?
    ensures |len| == 4 && BigEndian(len) == |u| && s == len + u + tail
    ensures SplitAvcc(tail).Some? && SplitAvcc(s).value == [u] + SplitAvcc(tail).value
  {
    len := s[..4];
    var n := BigEndian(len);
    u, tail := s[4..4 + n], s[4 + n..];
  }

  /** What decodes is exactly what was encoded: the reader accepts no second spelling. */
  lemma {:induction false} AvccDecodesOnlyEncodings(s: seq<Byte>)
    requires SplitAvcc(s).Some?
    ensures AvccStream(SplitAvcc(s).value) == s
    decreases |s|
  {
    if s != [] {
      var len, u, tail := SplitAvccParts(s);
      AvccDecodesOnlyEncodings(tail);
      AvccStreamStep(len, u, SplitAvcc(tail).value);
    }
  }

  lemma {:induction false} AvccStreamStep(len: seq<Byte>, u: Unit, rest: seq<Unit>)
    requires |len| == 4 && BigEndian(len) == |u|
    ensures AvccStream([u] + rest) == len + u + AvccStream(rest)
  {
    ReadThenPut(len);
    assert ([u] + rest)[1..] == rest;
  }

  lemma {:induction false} AvccOfOne(nalu: Unit)
    requires |nalu| < TWO32
    ensures SplitAvcc(Avcc(nalu)) == Some([nalu])
  {
    FlatMapOne(Avcc, nalu);
    AvccSplitsBack([nalu]);
  }

  // ---------------------------------------------------------------- Annex B

  const START_CODE: seq<Byte> := [0, 0, 1]

  function AnnexB(nalus: seq<Unit>): seq<Byte> {
    FlatMap(Framed, nalus)
  }

  function Framed(nalu: Unit): seq<Byte> {
    START_CODE + nalu
  }

  predicate StartCodeAt(s: seq<Byte>, i: int) {
    0 <= i && i + 3 <= |s| && s[i] == 0 && s[i + 1] == 0 && s[i + 2] == 1
  }

  /** The first start code at or after `from`, or the end of the stream. */
  function NextStartCode(s: seq<Byte>, from: nat): (i: nat)
    requires from <= |s|
    ensures from <= i <= |s|
    ensures i < |s| ==> StartCodeAt(s, i)
    ensures forall j :: from <= j < i ==> !StartCodeAt(s, j)
    decreases |s| - from
  {
    if from == |s| || StartCodeAt(s, from) then from else NextStartCode(s, from + 1)
  }

  /** Drops the zero bytes that may trail a unit in a byte stream. */
  function TrimZeros(s: seq<Byte>): (t: seq<Byte>)
    ensures t <= s && (t == [] || t[|t| - 1] != 0)
    ensures s == [] || s[|s| - 1] != 0 ==> t == s
  {
    if s != [] && s[|s| - 1] == 0 then TrimZeros(s[..|s| - 1]) else s
  }

  /** A byte-stream reader in the manner of Annex B of ITU-T H.264: a unit runs from behind
      one start code to the next, less its trailing zero bytes. */
  function SplitAnnexB(s: seq<Byte>): (r: seq<Unit>)
    decreases |s|
  {
    if !StartCodeAt(s, 0) then []
    else
      var end := NextStartCode(s, 3);
      [TrimZeros(s[3..end])] + SplitAnnexB(s[end..])
  }

  /** The units an Annex B stream can carry: no start code inside, no zero byte at the end. */
  predicate Clean(u: Unit) {
    (forall i :: 0 <= i < |u| ==> !StartCodeAt(u, i)) && (u == [] || u[|u| - 1] != 0)
  }

  predicate AllClean(nalus: seq<Unit>) {
    forall i :: 0 <= i < |nalus| ==> Clean(nalus[i])
  }

  class Buffer {
    var data: seq<Byte>

    constructor ()
      ensures data == []
    {
      data := [];
    }

    method Write(p: seq<Byte>)
      modifies this
      ensures data == old(data) + p
    {
      data := data + p;
    }

    method Reset()
      modifies this
      ensures data == []
    {
      data := [];
    }
  }

  /** WriteAnnexB appends the byte stream of the units behind what the buffer holds. */
  method WriteAnnexB(w: Buffer, nalus: seq<Unit>)
    modifies w
    ensures w.data == old(w.data) + AnnexB(nalus)
  {
    for i := 0 to |nalus|
      invariant w.data == old(w.data) + AnnexB(nalus[..i])
    {
      FlatMapAppend(Framed, nalus[..i], [nalus[i]]);
      FlatMapOne(Framed, nalus[i]);
      assert nalus[..i + 1] == nalus[..i] + [nalus[i]];
      w.Write(START_CODE);
      w.Write(nalus[i]);
    }
    assert nalus[..|nalus|] == nalus;
  }

  /** The units of a packet: AVCC data splits, anything else is one raw unit. */
  function PacketUnits(data: seq<Byte>): seq<Unit> {
    match SplitAvcc(data)
    case Some(units) => units
    case None => [data]
  }

  /** What WriteAnnexBPacket emits: a keyframe carries its parameter sets with it. */
  function RepackedUnits(pkt: Packet, sps: Unit, pps: Unit): seq<Unit> {
    (if pkt.isKeyFrame then [sps, pps] else []) + PacketUnits(pkt.data)
  }

  /** A packet of AVCC units is repacked as those units, and any other one as a single unit; the sets
      go in front of a keyframe, the SPS first. */
  lemma {:induction false} RepackedUnitsAre(pkt: Packet, sps: Unit, pps: Unit, units: seq<Unit>)
    requires forall u :: u in units ==> |u| < TWO32
    ensures pkt.data == AvccStream(units) ==>
              RepackedUnits(pkt, sps, pps) == if pkt.isKeyFrame then [sps, pps] + units else units
    ensures (forall us :: pkt.data != AvccStream(us)) ==>
              RepackedUnits(pkt, sps, pps) == if pkt.isKeyFrame then [sps, pps, pkt.data] else [pkt.data]
  {
    AvccSplitsBack(units);
    assert [] + units == units && [] + [pkt.data] == [pkt.data] && [sps, pps] + [pkt.data] == [sps, pps, pkt.data];
    if SplitAvcc(pkt.data).Some? {
      AvccDecodesOnlyEncodings(pkt.data);
    }
  }

  method WriteAnnexBPacket(w: Buffer, pkt: Packet, sps: Unit, pps: Unit)
    modifies w
    ensures w.data == old(w.data) + AnnexB(RepackedUnits(pkt, sps, pps))
  {
    var nalus := PacketUnits(pkt.data);
    if pkt.isKeyFrame {
      nalus := [sps, pps] + nalus;
    }
    assert nalus == RepackedUnits(pkt, sps, pps);
    WriteAnnexB(w, nalus);
  }

  lemma {:induction false} NoStartCodeInside(u: Unit, tail: seq<Byte>, j: nat)
    requires Clean(u)
    requires tail == [] || START_CODE <= tail
    requires 3 <= j < 3 + |u|
    ensures !StartCodeAt(START_CODE + u + tail, j)
  {
    var s := START_CODE + u + tail;
    assert !StartCodeAt(u, j - 3);
    if j <= |u| {
      assert s[j] == u[j - 3] && s[j + 1] == u[j - 2] && s[j + 2] == u[j - 1];
    } else if j + 3 <= |s| {
      assert s[j + 2] == tail[j - 1 - |u|] == START_CODE[j - 1 - |u|] == 0;
    }
  }

  lemma {:induction false} NextUnitBoundary(u: Unit, tail: seq<Byte>)
    requires Clean(u)
    requires tail == [] || START_CODE <= tail
    ensures NextStartCode(START_CODE + u + tail, 3) == 3 + |u|
  {
    var s := START_CODE + u + tail;
    var i := NextStartCode(s, 3);
    if i < 3 + |u| {
      NoStartCodeInside(u, tail, i);
    } else if tail != [] {
      assert s[3 + |u|..] == tail;
      assert StartCodeAt(s, 3 + |u|);
    }
  }

  lemma {:induction false} AnnexBSplitsBack(nalus: seq<Unit>)
    requires AllClean(nalus)
    ensures SplitAnnexB(AnnexB(nalus)) == nalus
  {
    if nalus != [] {
      var u, rest := nalus[0], nalus[1..];
      var s := AnnexB(nalus);
      NextUnitBoundary(u, AnnexB(rest));
      assert s[3..3 + |u|] == u && s[3 + |u|..] == AnnexB(rest);
      AnnexBSplitsBack(rest);
      assert nalus == [u] + rest;
    }
  }

  /** Whatever the bytes, the reader only ever returns clean units. */
  lemma {:induction false} SplitUnitsAreClean(s: seq<Byte>)
    ensures AllClean(SplitAnnexB(s))
    decreases |s|
  {
    if StartCodeAt(s, 0) {
      var end := NextStartCode(s, 3);
      var u := TrimZeros(s[3..end]);
      forall i | 0 <= i < |u| ensures !StartCodeAt(u, i) {
        assert !StartCodeAt(s, 3 + i);
        assert forall k :: 0 <= k < |u| ==> u[k] == s[3..end][k] == s[3 + k];
      }
      SplitUnitsAreClean(s[end..]);
    }
  }

  /** Annex B is uniquely decodable exactly on clean units. */
  lemma {:induction false} AnnexBRoundTrip(nalus: seq<Unit>)
    ensures SplitAnnexB(AnnexB(nalus)) == nalus <==> AllClean(nalus)
  {
    if AllClean(nalus) {
      AnnexBSplitsBack(nalus);
    } else {
      SplitUnitsAreClean(AnnexB(nalus));
    }
  }
}
