/**
 A sender for the depacketiser to undo: any list of NAL units, carried by any in-order mix
 of single NAL unit packets, STAP-A packets and FU-A fragment runs, where unfragmented
 units may travel between the fragments of another (RFC 6184).
 */
module Packetizer {
  import opened Bytes
  import opened H264Util
  import opened Depacketizer

  // ---------------------------------------------------------------- what is sent

  /** The units a sender may carry: aggregates and fragments are not nested. */
  predicate Legal(u: Unit) {
    2 <= |u| && !Composite(u)
  }

  /** A packet that needs no fragment buffer. The tail of an aggregate is the incomplete
      unit, or padding, that the receiver has to ignore. */
  datatype Simple =
    | Whole(unit: Unit)
    | Aggregate(header: Byte, units: seq<Unit>, tail: seq<Byte>)

  function SimpleUnits(s: Simple): seq<Unit> {
    match s
    case Whole(u) => [u]
    case Aggregate(_, us, _) => us
  }

  ghost predicate ValidSimple(s: Simple) {
    && (forall u :: u in SimpleUnits(s) ==> Legal(u))
    && (s.Aggregate? ==>
          && Low5(s.header) == 24
          && (forall u :: u in s.units ==> |u| < TWO16)
          && !HasUnit(s.tail)
          && (s.units != [] || s.tail != []))
  }

  datatype Part = Part(payload: seq<Byte>, reserved: bool)

  /** One packet as its sender knows it: units on their own, or one fragment of a unit. */
  datatype Sent = Alone(simple: Simple) | Fragment(unit: Unit, start: bool, end: bool, part: Part)

  ghost predicate ValidSent(x: Sent) {
    match x
    case Alone(s) => ValidSimple(s)
    case Fragment(u, _, _, _) => Legal(u)
  }

  ghost predicate AllValid(xs: seq<Sent>) {
    forall i :: 0 <= i < |xs| ==> ValidSent(xs[i])
  }

  function AggregateBody(units: seq<Unit>): seq<Byte>
    requires forall u :: u in units ==> |u| < TWO16
  {
    if units == [] then [] else PutU16(|units[0]|) + units[0] + AggregateBody(units[1..])
  }

  function SimpleBytes(s: Simple): seq<Byte>
    requires ValidSimple(s)
  {
    match s
    case Whole(u) => u
    case Aggregate(h, us, tail) => [h] + (AggregateBody(us) + tail)
  }

  function FuHeader(u: Unit, start: bool, end: bool, reserved: bool): (h: Byte)
    requires u != []
    ensures Bit7(h) == start && Bit6(h) == end && Low5(h) == Type(u)
  {
    (if start then 128 else 0) + (if end then 64 else 0) + (if reserved then 32 else 0) + Type(u)
  }

  function FuPacket(u: Unit, start: bool, end: bool, p: Part): (s: seq<Byte>)
    requires u != []
    ensures 2 <= |s| && Type(s) == 28 && s[2..] == p.payload
    ensures IsStart(s) == start && IsEnd(s) == end && Splice(s[0], s[1]) == u[0]
  {
    var header := FuHeader(u, start, end, p.reserved);
    SpliceBack(u[0], header);
    [Splice(u[0], 28), header] + p.payload
  }

  /** The receiver puts the first byte of the unit together again from indicator and header. */
  lemma {:induction false} SpliceBack(a: Byte, header: Byte)
    requires Low5(header) == Low5(a)
    ensures Low5(Splice(a, 28)) == 28 && Splice(Splice(a, 28), header) == a
  {
  }

  function SentBytes(x: Sent): seq<Byte>
    requires ValidSent(x)
  {
    match x
    case Alone(s) => SimpleBytes(s)
    case Fragment(u, start, end, p) => FuPacket(u, start, end, p)
  }

  function BytesOf(xs: seq<Sent>): (r: seq<seq<Byte>>)
    requires AllValid(xs)
    ensures |r| == |xs| && forall i :: 0 <= i < |r| ==> r[i] == SentBytes(xs[i])
  {
    if xs == [] then [] else [SentBytes(xs[0])] + BytesOf(xs[1..])
  }

  // ---------------------------------------------------------------- what arrives

  /** What packets do to the receiver: a fragmented unit begins, is extended, is joined together
      again, or a unit arrives on its own. */
  datatype Delivery = Began(first: Byte) | Extended | Direct(unit: Unit) | Joined(unit: Unit)

  predicate HasUnitOf(d: Delivery) {
    d.Direct? || d.Joined?
  }

  predicate Carries(d: Delivery, t: Byte) {
    HasUnitOf(d) && d.unit != [] && Type(d.unit) == t
  }

  /** The media packets of a list of deliveries: the AVCC form of every unit that is not a
      parameter set, in order, a keyframe exactly when the unit is an IDR slice. */
  function Output(ds: seq<Delivery>): seq<Packet> {
    FlatMap(Emitted, ds)
  }

  function Emitted(d: Delivery): seq<Packet> {
    if !HasUnitOf(d) || Carries(d, 7) || Carries(d, 8) then []
    else [Packet(0, Carries(d, 5), 0, Avcc(d.unit))]
  }

  function Deliver(ss: Sets, d: Delivery): Sets {
    match d
    case Began(first) => Grow(ClobberBoth(ss, first))
    case Extended => Grow(ss)
    case Direct(u) => Keep(ss, u, false)
    case Joined(u) => Keep(ss, u, true)
  }

  /** The parameter sets after a list of deliveries. */
  function DeliverAll(ss: Sets, ds: seq<Delivery>): Sets {
    Fold(Deliver, ss, ds)
  }

  function Directs(units: seq<Unit>): seq<Delivery> {
    if units == [] then [] else [Direct(units[0])] + Directs(units[1..])
  }

  function First(u: Unit): Byte {
    if u == [] then 0 else u[0]
  }

  /** The fragment buffer with a fragment added to it: a start fragment discards what it held, and
      any other one is dropped when it holds nothing. */
  function Grown(buf: seq<Byte>, x: Sent): seq<Byte>
    requires x.Fragment?
  {
    if x.start then [First(x.unit)] + x.part.payload
    else if buf != [] then buf + x.part.payload
    else []
  }

  function BufferAfter(buf: seq<Byte>, x: Sent): seq<Byte> {
    if x.Alone? then buf else if x.end then [] else Grown(buf, x)
  }

  /** A completed unit of one byte, which the parser refuses. */
  predicate Runt(buf: seq<Byte>, x: Sent) {
    x.Fragment? && x.end && |Grown(buf, x)| == 1
  }

  function Arrived(buf: seq<Byte>, x: Sent): seq<Delivery> {
    match x
    case Alone(s) => Directs(SimpleUnits(s))
    case Fragment(u, start, end, p) => Written(buf, x) + Completed(buf, x)
  }

  function Written(buf: seq<Byte>, x: Sent): seq<Delivery>
    requires x.Fragment?
  {
    if x.start then [Began(First(x.unit))] else if buf != [] then [Extended] else []
  }

  function Completed(buf: seq<Byte>, x: Sent): seq<Delivery>
    requires x.Fragment?
  {
    if x.end && 2 <= |Grown(buf, x)| then [Joined(Grown(buf, x))] else []
  }

  function StreamBuffer(buf: seq<Byte>, xs: seq<Sent>): seq<Byte> {
    Fold(BufferAfter, buf, xs)
  }

  /** What any list of packets delivers to a receiver whose buffer holds `buf`. */
  function StreamDeliveries(buf: seq<Byte>, xs: seq<Sent>): seq<Delivery> {
    Scan(BufferAfter, Arrived, buf, xs)
  }

  /** No fragment adds to a buffer of the wrong kind. */
  predicate Sound(buf: seq<Byte>, xs: seq<Sent>)
    decreases |xs|
  {
    xs == [] ||
    ((xs[0].Fragment? && !xs[0].start ==> PlainBuffer(buf)) && Sound(BufferAfter(buf, xs[0]), xs[1..]))
  }

  predicate NoRunts(buf: seq<Byte>, xs: seq<Sent>)
    decreases |xs|
  {
    xs == [] || (!Runt(buf, xs[0]) && NoRunts(BufferAfter(buf, xs[0]), xs[1..]))
  }

  // ---------------------------------------------------------------- what the parser does

  /** Every packet of a stream in turn, collecting what each call returns, up to the first error. */
  function Feed(st: ParserState, packets: seq<seq<Byte>>): (ParserState, Outcome)
    decreases |packets|
  {
    if packets == [] then (st, Packets([]))
    else
      var (st1, r) := Parse(st, packets[0], false);
      if !r.Packets? then (st1, r) else Prefixed(r.packets, Feed(st1, packets[1..]))
  }

  /** The same, going on after an error. */
  function Collect(st: ParserState, packets: seq<seq<Byte>>): (ParserState, seq<Packet>)
    decreases |packets|
  {
    if packets == [] then (st, [])
    else
      var (st1, r) := Parse(st, packets[0], false);
      var (st2, rest) := Collect(st1, packets[1..]);
      (st2, (if r.Packets? then r.packets else []) + rest)
  }

  lemma {:induction false} DeliverAppend(ss: Sets, a: seq<Delivery>, b: seq<Delivery>)
    ensures DeliverAll(ss, a + b) == DeliverAll(DeliverAll(ss, a), b)
  {
    FoldAppend(Deliver, ss, a, b);
  }

  lemma {:induction false} DeliverOne(ss: Sets, d: Delivery)
    ensures DeliverAll(ss, [d]) == Deliver(ss, d)
    ensures Output([d]) == Emitted(d)
  {
    FoldOne(Deliver, ss, d);
    FlatMapOne(Emitted, d);
  }

  lemma {:induction false} UnitBoundary(len: seq<Byte>, u: Unit, after: seq<Byte>)
    requires |len| == 2 && U16(len[0], len[1]) == |u|
    ensures var body := len + u + after;
            && HasUnit(body)
            && U16(body[0], body[1]) == |u|
            && body[2..2 + |u|] == u
            && body[2 + |u|..] == after
  {
  }

  /** A STAP-A packet does exactly what its units would do sent one by one, whatever those
      units are; the first error ends both, and an incomplete unit at the end is ignored. */
  lemma {:induction false} AggregateIsSequence(st: ParserState, units: seq<Unit>, tail: seq<Byte>)
    requires forall u :: u in units ==> |u| < TWO16
    requires !HasUnit(tail)
    ensures ParseUnits(st, AggregateBody(units) + tail, false) == Feed(st, units)
    decreases |units|
  {
    if units == [] {
      assert AggregateBody(units) + tail == tail;
    } else {
      var u, rest := units[0], units[1..];
      var len, after := PutU16(|u|), AggregateBody(rest) + tail;
      assert AggregateBody(units) + tail == len + u + after;
      UnitBoundary(len, u, after);
      AggregateIsSequence(Parse(st, u, false).0, rest, tail);
    }
  }

  lemma {:induction false} UnitArrives(st: ParserState, u: Unit)
    requires Legal(u)
    ensures Parse(st, u, false) == (st.(sets := Deliver(st.sets, Direct(u))), Packets(Emitted(Direct(u))))
  {
  }

  lemma {:induction false} UnitsArrive(st: ParserState, units: seq<Unit>)
    requires forall u :: u in units ==> Legal(u)
    ensures Feed(st, units) ==
            (st.(sets := DeliverAll(st.sets, Directs(units))), Packets(Output(Directs(units))))
    decreases |units|
  {
    if units != [] {
      var u, rest := units[0], units[1..];
      UnitArrives(st, u);
      UnitsArrive(Parse(st, u, false).0, rest);
      assert Directs(units)[0] == Direct(u) && Directs(units)[1..] == Directs(rest);
    }
  }

  lemma {:induction false} SimpleArrives(st: ParserState, s: Simple)
    requires ValidSimple(s)
    ensures Parse(st, SimpleBytes(s), false) ==
            (st.(sets := DeliverAll(st.sets, Directs(SimpleUnits(s)))), Packets(Output(Directs(SimpleUnits(s)))))
  {
    match s
    case Whole(u) =>
      assert Directs([u]) == [Direct(u)] + Directs([u][1..]) == [Direct(u)];
      UnitArrives(st, u);
      DeliverOne(st.sets, Direct(u));
    case Aggregate(_, us, tail) =>
      assert SimpleBytes(s)[1..] == AggregateBody(us) + tail;
      AggregateIsSequence(st, us, tail);
      UnitsArrive(st, us);
  }

  lemma {:induction false} WrittenArrives(ss: Sets, buf: seq<Byte>, x: Sent)
    requires x.Fragment?
    ensures Output(Written(buf, x)) == []
    ensures DeliverAll(ss, Written(buf, x)) ==
            if x.start then Grow(ClobberBoth(ss, First(x.unit))) else if buf != [] then Grow(ss) else ss
  {
    if x.start {
      DeliverOne(ss, Began(First(x.unit)));
    } else if buf != [] {
      DeliverOne(ss, Extended);
    }
  }

  lemma {:induction false} FragmentArrives(st: ParserState, x: Sent)
    requires x.Fragment? && ValidSent(x) && (!x.start ==> PlainBuffer(st.fbuf))
    ensures Parse(st, SentBytes(x), false) ==
            (ParserState(DeliverAll(st.sets, Arrived(st.fbuf, x)), BufferAfter(st.fbuf, x)),
             if Runt(st.fbuf, x) then TooShort else Packets(Output(Arrived(st.fbuf, x))))
  {
    var packet, buf := SentBytes(x), st.fbuf;
    var written, completed := Written(buf, x), Completed(buf, x);
    var st1 := ParserState(DeliverAll(st.sets, written), Grown(buf, x));
    WrittenArrives(st.sets, buf, x);
    assert Accumulate(st, packet) == st1;
    DeliverAppend(st.sets, written, completed);
    FlatMapAppend(Emitted, written, completed);
    assert [] + Output(completed) == Output(completed);
    if completed != [] {
      DeliverOne(st1.sets, Joined(Grown(buf, x)));
    }
  }

  /** What one packet does, whatever state it finds the parser in. */
  lemma {:induction false} PacketArrives(st: ParserState, x: Sent)
    requires ValidSent(x) && (x.Fragment? && !x.start ==> PlainBuffer(st.fbuf))
    ensures Parse(st, SentBytes(x), false) ==
            (ParserState(DeliverAll(st.sets, Arrived(st.fbuf, x)), BufferAfter(st.fbuf, x)),
             if Runt(st.fbuf, x) then TooShort else Packets(Output(Arrived(st.fbuf, x))))
  {
    if x.Alone? {
      SimpleArrives(st, x.simple);
    } else {
      FragmentArrives(st, x);
    }
  }

  lemma {:induction false} StreamCons(buf: seq<Byte>, xs: seq<Sent>)
    requires xs != []
    ensures var x, rest := xs[0], xs[1..];
            && StreamDeliveries(buf, xs) == Arrived(buf, x) + StreamDeliveries(BufferAfter(buf, x), rest)
            && Output(StreamDeliveries(buf, xs)) ==
               Output(Arrived(buf, x)) + Output(StreamDeliveries(BufferAfter(buf, x), rest))
  {
    FlatMapAppend(Emitted, Arrived(buf, xs[0]), StreamDeliveries(BufferAfter(buf, xs[0]), xs[1..]));
  }

  lemma {:induction false} RuntDeliversNothing(buf: seq<Byte>, x: Sent)
    requires Runt(buf, x)
    ensures Output(Arrived(buf, x)) == []
  {
    FlatMapAppend(Emitted, Written(buf, x), Completed(buf, x));
    WrittenArrives(Sets(Absent, Absent, []), buf, x);
  }

  /** Whatever packets arrive, in whatever order, with whatever missing or repeated: what the parser
      returns and keeps is what these packets deliver. */
  lemma {:induction false} StreamArrives(st: ParserState, xs: seq<Sent>)
    requires AllValid(xs) && Sound(st.fbuf, xs)
    ensures Collect(st, BytesOf(xs)) ==
            (ParserState(DeliverAll(st.sets, StreamDeliveries(st.fbuf, xs)), StreamBuffer(st.fbuf, xs)),
             Output(StreamDeliveries(st.fbuf, xs)))
    decreases |xs|
  {
    if xs != [] {
      var x, rest, buf := xs[0], xs[1..], st.fbuf;
      assert BytesOf(xs)[0] == SentBytes(x) && BytesOf(xs)[1..] == BytesOf(rest);
      PacketArrives(st, x);
      var st1 := Parse(st, SentBytes(x), false).0;
      StreamArrives(st1, rest);
      StreamCons(buf, xs);
      DeliverAppend(st.sets, Arrived(buf, x), StreamDeliveries(BufferAfter(buf, x), rest));
      if Runt(buf, x) {
        RuntDeliversNothing(buf, x);
      }
    }
  }

  /** Without runts there is no error. */
  lemma {:induction false} NoRuntsNoErrors(st: ParserState, xs: seq<Sent>)
    requires AllValid(xs) && Sound(st.fbuf, xs) && NoRunts(st.fbuf, xs)
    ensures Feed(st, BytesOf(xs)) == (Collect(st, BytesOf(xs)).0, Packets(Collect(st, BytesOf(xs)).1))
    decreases |xs|
  {
    if xs != [] {
      var x, rest := xs[0], xs[1..];
      assert BytesOf(xs)[0] == SentBytes(x) && BytesOf(xs)[1..] == BytesOf(rest);
      PacketArrives(st, x);
      NoRuntsNoErrors(Parse(st, SentBytes(x), false).0, rest);
    }
  }

  lemma {:induction false} StreamAppend(buf: seq<Byte>, a: seq<Sent>, b: seq<Sent>)
    ensures StreamBuffer(buf, a + b) == StreamBuffer(StreamBuffer(buf, a), b)
    ensures StreamDeliveries(buf, a + b) == StreamDeliveries(buf, a) + StreamDeliveries(StreamBuffer(buf, a), b)
  {
    FoldAppend(BufferAfter, buf, a, b);
    ScanAppend(BufferAfter, Arrived, buf, a, b);
  }

  lemma {:induction false} SoundAppend(buf: seq<Byte>, a: seq<Sent>, b: seq<Sent>)
    ensures Sound(buf, a + b) <==> Sound(buf, a) && Sound(StreamBuffer(buf, a), b)
    ensures NoRunts(buf, a + b) <==> NoRunts(buf, a) && NoRunts(StreamBuffer(buf, a), b)
    decreases |a|
  {
    if a == [] {
      assert a + b == b;
    } else {
      SoundAppend(BufferAfter(buf, a[0]), a[1..], b);
      assert (a + b)[0] == a[0] && (a + b)[1..] == a[1..] + b;
    }
  }

  lemma {:induction false} StreamOne(buf: seq<Byte>, x: Sent)
    ensures StreamBuffer(buf, [x]) == BufferAfter(buf, x)
    ensures StreamDeliveries(buf, [x]) == Arrived(buf, x)
    ensures Sound(buf, [x]) <==> (x.Fragment? && !x.start ==> PlainBuffer(buf))
    ensures NoRunts(buf, [x]) <==> !Runt(buf, x)
  {
    assert [x][1..] == [];
    FoldOne(BufferAfter, buf, x);
    ScanOne(BufferAfter, Arrived, buf, x);
  }

  /** From a plain buffer every stream of valid packets is sound, and leaves it plain. */
  lemma {:induction false} PlainStaysPlain(buf: seq<Byte>, xs: seq<Sent>)
    requires PlainBuffer(buf) && AllValid(xs)
    ensures Sound(buf, xs) && PlainBuffer(StreamBuffer(buf, xs))
    decreases |xs|
  {
    if xs != [] {
      PlainStaysPlain(BufferAfter(buf, xs[0]), xs[1..]);
    }
  }

  // ---------------------------------------------------------------- plans

  /** What travels between the first and the last fragment of a unit. */
  datatype Middle = Piece(part: Part) | Between(simple: Simple)

  datatype Item =
    | Plain(simple: Simple)
    | OneFragment(unit: Unit, reserved: bool)
    | Fragmented(unit: Unit, first: Part, middle: seq<Middle>, last: Part)

  ghost predicate ValidMiddle(m: Middle) {
    m.Between? ==> ValidSimple(m.simple)
  }

  function MiddlePayload(m: Middle): seq<Byte> {
    if m.Piece? then m.part.payload else []
  }

  function Payloads(middle: seq<Middle>): seq<Byte> {
    FlatMap(MiddlePayload, middle)
  }

  ghost predicate ValidItem(i: Item) {
    match i
    case Plain(s) => ValidSimple(s)
    case OneFragment(u, _) => Legal(u)
    case Fragmented(u, first, middle, last) =>
      && Legal(u)
      && (forall m :: m in middle ==> ValidMiddle(m))
      && first.payload + Payloads(middle) + last.payload == u[1..]
  }

  ghost predicate ValidPlan(plan: seq<Item>) {
    forall i :: 0 <= i < |plan| ==> ValidItem(plan[i])
  }

  function MiddleSent(u: Unit, m: Middle): Sent {
    match m
    case Piece(p) => Fragment(u, false, false, p)
    case Between(s) => Alone(s)
  }

  function MiddleSents(u: Unit, middle: seq<Middle>): (xs: seq<Sent>)
    ensures |xs| == |middle| && forall i :: 0 <= i < |xs| ==> xs[i] == MiddleSent(u, middle[i])
  {
    if middle == [] then [] else [MiddleSent(u, middle[0])] + MiddleSents(u, middle[1..])
  }

  function ItemSents(i: Item): seq<Sent> {
    match i
    case Plain(s) => [Alone(s)]
    case OneFragment(u, r) => [Fragment(u, true, true, Part(u[if u == [] then 0 else 1..], r))]
    case Fragmented(u, first, middle, last) =>
      [Fragment(u, true, false, first)] + MiddleSents(u, middle) + [Fragment(u, false, true, last)]
  }

  function PlanSents(plan: seq<Item>): seq<Sent> {
    FlatMap(ItemSents, plan)
  }

  function MiddleDelivery(m: Middle): seq<Delivery> {
    match m
    case Piece(_) => [Extended]
    case Between(s) => Directs(SimpleUnits(s))
  }

  function MiddleDeliveries(middle: seq<Middle>): seq<Delivery> {
    FlatMap(MiddleDelivery, middle)
  }

  function ItemDeliveries(i: Item): seq<Delivery> {
    match i
    case Plain(s) => Directs(SimpleUnits(s))
    case OneFragment(u, _) => [Began(First(u)), Joined(u)]
    case Fragmented(u, _, middle, _) =>
      [Began(First(u))] + MiddleDeliveries(middle) + [Extended, Joined(u)]
  }

  function PlanDeliveries(plan: seq<Item>): seq<Delivery> {
    FlatMap(ItemDeliveries, plan)
  }

  function ItemBuffer(buf: seq<Byte>, i: Item): seq<Byte> {
    if i.Plain? then buf else []
  }

  function PlanBuffer(buf: seq<Byte>, plan: seq<Item>): seq<Byte> {
    if forall i :: 0 <= i < |plan| ==> plan[i].Plain? then buf else []
  }

  /** The stream goes through the receiver without a hitch: it delivers `ds` and leaves `buf'`. */
  ghost predicate Smooth(buf: seq<Byte>, xs: seq<Sent>, ds: seq<Delivery>, buf': seq<Byte>) {
    && AllValid(xs) && Sound(buf, xs) && NoRunts(buf, xs)
    && StreamDeliveries(buf, xs) == ds
    && StreamBuffer(buf, xs) == buf'
  }

  lemma {:induction false} SmoothOne(buf: seq<Byte>, x: Sent)
    requires ValidSent(x) && !Runt(buf, x) && (x.Fragment? && !x.start ==> PlainBuffer(buf))
    ensures Smooth(buf, [x], Arrived(buf, x), BufferAfter(buf, x))
  {
    StreamOne(buf, x);
  }

  lemma {:induction false} SmoothAppend(buf: seq<Byte>, a: seq<Sent>, da: seq<Delivery>, mid: seq<Byte>,
                                        b: seq<Sent>, db: seq<Delivery>, buf': seq<Byte>)
    requires Smooth(buf, a, da, mid) && Smooth(mid, b, db, buf')
    ensures Smooth(buf, a + b, da + db, buf')
  {
    StreamAppend(buf, a, b);
    SoundAppend(buf, a, b);
  }

  lemma {:induction false} OneMiddleSmooth(buf: seq<Byte>, u: Unit, m: Middle)
    requires Legal(u) && buf != [] && PlainBuffer(buf) && ValidMiddle(m)
    ensures Smooth(buf, [MiddleSent(u, m)], MiddleDelivery(m), buf + MiddlePayload(m))
  {
    assert buf + [] == buf && [Extended] + [] == [Extended];
    SmoothOne(buf, MiddleSent(u, m));
  }

  lemma {:induction false} MiddleUnfolds(buf: seq<Byte>, u: Unit, middle: seq<Middle>)
    requires middle != []
    ensures var m, rest := middle[0], middle[1..];
            && MiddleSents(u, middle) == [MiddleSent(u, m)] + MiddleSents(u, rest)
            && MiddleDeliveries(middle) == MiddleDelivery(m) + MiddleDeliveries(rest)
            && (buf + MiddlePayload(m)) + Payloads(rest) == buf + Payloads(middle)
  {
    assert Payloads(middle) == MiddlePayload(middle[0]) + Payloads(middle[1..]);
  }

  lemma {:induction false} MiddleSmooth(buf: seq<Byte>, u: Unit, middle: seq<Middle>)
    requires Legal(u) && buf != [] && PlainBuffer(buf) && forall m :: m in middle ==> ValidMiddle(m)
    ensures Smooth(buf, MiddleSents(u, middle), MiddleDeliveries(middle), buf + Payloads(middle))
    decreases |middle|
  {
    if middle == [] {
      assert buf + Payloads(middle) == buf;
    } else {
      var m, rest := middle[0], middle[1..];
      var mid := buf + MiddlePayload(m);
      assert mid[0] == buf[0];
      OneMiddleSmooth(buf, u, m);
      MiddleSmooth(mid, u, rest);
      SmoothAppend(buf, [MiddleSent(u, m)], MiddleDelivery(m), mid,
                   MiddleSents(u, rest), MiddleDeliveries(rest), mid + Payloads(rest));
      MiddleUnfolds(buf, u, middle);
    }
  }

  lemma {:induction false} PartsJoin(u: Unit, first: seq<Byte>, middle: seq<Byte>, last: seq<Byte>)
    requires u != [] && first + middle + last == u[1..]
    ensures [u[0]] + first + middle + last == u
  {
  }

  lemma {:induction false} EndSmooth(buf: seq<Byte>, u: Unit, last: Part)
    requires Legal(u) && buf != [] && buf + last.payload == u
    ensures Smooth(buf, [Fragment(u, false, true, last)], [Extended, Joined(u)], [])
  {
    assert buf[0] == u[0];
    assert [Extended] + [Joined(u)] == [Extended, Joined(u)];
    SmoothOne(buf, Fragment(u, false, true, last));
  }

  lemma {:induction false} FragmentsSmooth(buf: seq<Byte>, i: Item)
    requires i.Fragmented? && ValidItem(i)
    ensures Smooth(buf, ItemSents(i), ItemDeliveries(i), [])
  {
    var Fragmented(u, first, middle, last) := i;
    var b1 := [u[0]] + first.payload;
    var b2 := b1 + Payloads(middle);
    var start, end := Fragment(u, true, false, first), Fragment(u, false, true, last);
    assert [Began(u[0])] + [] == [Began(u[0])];
    SmoothOne(buf, start);
    MiddleSmooth(b1, u, middle);
    SmoothAppend(buf, [start], [Began(u[0])], b1, MiddleSents(u, middle), MiddleDeliveries(middle), b2);
    PartsJoin(u, first.payload, Payloads(middle), last.payload);
    EndSmooth(b2, u, last);
    SmoothAppend(buf, [start] + MiddleSents(u, middle), [Began(u[0])] + MiddleDeliveries(middle), b2,
                 [end], [Extended, Joined(u)], []);
  }

  lemma {:induction false} ItemSmooth(buf: seq<Byte>, i: Item)
    requires ValidItem(i)
    ensures Smooth(buf, ItemSents(i), ItemDeliveries(i), ItemBuffer(buf, i))
  {
    match i
    case Plain(s) => SmoothOne(buf, Alone(s));
    case OneFragment(u, r) =>
      assert [u[0]] + u[1..] == u && [Began(u[0])] + [Joined(u)] == [Began(u[0]), Joined(u)];
      SmoothOne(buf, Fragment(u, true, true, Part(u[1..], r)));
    case Fragmented(_, _, _, _) => FragmentsSmooth(buf, i);
  }

  lemma {:induction false} PlanSmooth(buf: seq<Byte>, plan: seq<Item>)
    requires ValidPlan(plan)
    ensures Smooth(buf, PlanSents(plan), PlanDeliveries(plan), PlanBuffer(buf, plan))
    decreases |plan|
  {
    if plan != [] {
      var i, rest := plan[0], plan[1..];
      var mid := ItemBuffer(buf, i);
      ItemSmooth(buf, i);
      PlanSmooth(mid, rest);
      assert PlanBuffer(mid, rest) == PlanBuffer(buf, plan) by {
        assert forall j :: 0 <= j < |rest| ==> rest[j] == plan[j + 1];
        assert forall j :: 0 < j < |plan| ==> plan[j] == rest[j - 1];
      }
      SmoothAppend(buf, ItemSents(i), ItemDeliveries(i), mid,
                   PlanSents(rest), PlanDeliveries(rest), PlanBuffer(mid, rest));
    }
  }

  /** Depacketising undoes packetising, from any state the parser may have been left in. */
  lemma {:induction false} Depacketise(st: ParserState, plan: seq<Item>)
    requires ValidPlan(plan)
    ensures AllValid(PlanSents(plan))
    ensures Feed(st, BytesOf(PlanSents(plan))) ==
            (ParserState(DeliverAll(st.sets, PlanDeliveries(plan)), PlanBuffer(st.fbuf, plan)),
             Packets(Output(PlanDeliveries(plan))))
  {
    PlanSmooth(st.fbuf, plan);
    StreamArrives(st, PlanSents(plan));
    NoRuntsNoErrors(st, PlanSents(plan));
  }

  /** Fragments that follow a lost start are dropped without a trace. */
  lemma {:induction false} StrayFragments(st: ParserState, packets: seq<seq<Byte>>)
    requires st.fbuf == []
    requires forall p :: p in packets ==> 2 <= |p| && Type(p) == 28 && !IsStart(p)
    ensures Feed(st, packets) == (st, Packets([]))
    decreases |packets|
  {
    if packets != [] {
      StrayFragments(st, packets[1..]);
      PrefixedByNone(Feed(st, packets[1..]));
    }
  }
}
