/**
 What the depacketiser of ingest/ftl/deframing.go makes of a stream that lost packets. It looks at no
 sequence numbers: a fragment is added to whatever the fragment buffer holds.
 */
module PacketLoss {
  import opened Bytes
  import opened H264Util
  import opened Depacketizer
  import opened Packetizer
  import opened ParameterSets

  /** The elements that arrived. */
  function Kept<T>(xs: seq<T>, got: seq<bool>): seq<T>
    requires |xs| == |got|
  {
    if xs == [] then [] else (if got[0] then [xs[0]] else []) + Kept(xs[1..], got[1..])
  }

  lemma {:induction false} KeptAppend<T>(xs: seq<T>, gx: seq<bool>, ys: seq<T>, gy: seq<bool>)
    requires |xs| == |gx| && |ys| == |gy|
    ensures Kept(xs + ys, gx + gy) == Kept(xs, gx) + Kept(ys, gy)
    decreases |xs|
  {
    if xs == [] {
      assert xs + ys == ys && gx + gy == gy;
    } else {
      var head := if gx[0] then [xs[0]] else [];
      calc {
        Kept(xs + ys, gx + gy);
        { assert (xs + ys)[0] == xs[0] && (xs + ys)[1..] == xs[1..] + ys && (gx + gy)[1..] == gx[1..] + gy; }
        head + Kept(xs[1..] + ys, gx[1..] + gy);
        { KeptAppend(xs[1..], gx[1..], ys, gy); }
        head + (Kept(xs[1..], gx[1..]) + Kept(ys, gy));
        (head + Kept(xs[1..], gx[1..])) + Kept(ys, gy);
      }
    }
  }

  lemma {:induction false} KeptOne<T>(x: T, got: bool)
    ensures Kept([x], [got]) == if got then [x] else []
  {
    assert Kept([x][1..], [got][1..]) == [];
  }

  lemma {:induction false} KeptAll<T>(xs: seq<T>, got: seq<bool>)
    requires |xs| == |got| && forall j :: 0 <= j < |got| ==> got[j]
    ensures Kept(xs, got) == xs
    decreases |xs|
  {
    if xs != [] {
      KeptAll(xs[1..], got[1..]);
    }
  }

  lemma {:induction false} KeptAreValid(xs: seq<Sent>, got: seq<bool>)
    requires |xs| == |got| && AllValid(xs)
    ensures AllValid(Kept(xs, got))
    decreases |xs|
  {
    if xs != [] {
      KeptAreValid(xs[1..], got[1..]);
    }
  }

  // ---------------------------------------------------------------- one item

  /** An item of a plan, and which of its packets arrived. */
  datatype Reception = Reception(item: Item, got: seq<bool>)

  ghost predicate ValidReception(r: Reception) {
    ValidItem(r.item) && |r.got| == |ItemSents(r.item)|
  }

  function Arriving(r: Reception): seq<Sent> {
    if |r.got| == |ItemSents(r.item)| then Kept(ItemSents(r.item), r.got) else []
  }

  predicate FirstArrived(r: Reception) {
    r.got != [] && r.got[0]
  }

  predicate LastArrived(r: Reception) {
    r.got != [] && r.got[|r.got| - 1]
  }

  /** What arrived between the first and the last fragment of a unit. */
  function MiddleArrived(r: Reception): seq<Middle> {
    if r.item.Fragmented? && |r.got| == |r.item.middle| + 2 then Kept(r.item.middle, r.got[1..|r.got| - 1]) else []
  }

  /** What the first fragment leaves in the buffer, if it arrived. */
  function Held(buf: seq<Byte>, r: Reception): seq<Byte>
    requires r.item.Fragmented?
  {
    if FirstArrived(r) then [First(r.item.unit)] + r.item.first.payload else buf
  }

  /** What the fragment buffer is made to hold by the fragments of a unit that arrived, in a
      receiver whose buffer held `buf`. */
  function Joint(buf: seq<Byte>, r: Reception): seq<Byte>
    requires r.item.Fragmented?
  {
    if Held(buf, r) == [] then []
    else Held(buf, r) + Payloads(MiddleArrived(r)) + if LastArrived(r) then r.item.last.payload else []
  }

  /** The units that come out. */
  function Survivors(buf: seq<Byte>, r: Reception): seq<Unit> {
    match r.item
    case Plain(s) => if FirstArrived(r) then SimpleUnits(s) else []
    case OneFragment(u, _) => if FirstArrived(r) then [u] else []
    case Fragmented(_, _, _, _) =>
      FlatMap(BetweenUnits, MiddleArrived(r)) +
      if LastArrived(r) && 2 <= |Joint(buf, r)| then [Joint(buf, r)] else []
  }

  /** What is left in the buffer. */
  function Leftover(buf: seq<Byte>, r: Reception): seq<Byte> {
    match r.item
    case Plain(_) => buf
    case OneFragment(_, _) => if FirstArrived(r) then [] else buf
    case Fragmented(_, _, _, _) => if LastArrived(r) then [] else Joint(buf, r)
  }

  /** These packets bring these units, and turn the buffer into `buf'`. */
  ghost predicate Brings(buf: seq<Byte>, xs: seq<Sent>, units: seq<Unit>, buf': seq<Byte>) {
    UnitsOf(StreamDeliveries(buf, xs)) == units && StreamBuffer(buf, xs) == buf'
  }

  lemma {:induction false} BringsAppend(buf: seq<Byte>, a: seq<Sent>, ua: seq<Unit>, mid: seq<Byte>,
                                        b: seq<Sent>, ub: seq<Unit>, buf': seq<Byte>)
    requires Brings(buf, a, ua, mid) && Brings(mid, b, ub, buf')
    ensures Brings(buf, a + b, ua + ub, buf')
  {
    StreamAppend(buf, a, b);
    FlatMapAppend(UnitOf, StreamDeliveries(buf, a), StreamDeliveries(mid, b));
  }

  lemma {:induction false} AloneBrings(buf: seq<Byte>, s: Simple)
    ensures Brings(buf, [Alone(s)], SimpleUnits(s), buf)
  {
    StreamOne(buf, Alone(s));
    UnitsOfDirects(SimpleUnits(s));
  }

  /** The unit a fragment completes. */
  function Completion(buf: seq<Byte>, x: Sent): seq<Unit>
    requires x.Fragment?
  {
    if x.end && 2 <= |Grown(buf, x)| then [Grown(buf, x)] else []
  }

  lemma {:induction false} FragmentBrings(buf: seq<Byte>, x: Sent)
    requires x.Fragment?
    ensures Brings(buf, [x], Completion(buf, x), BufferAfter(buf, x))
  {
    StreamOne(buf, x);
    var written, completed := Written(buf, x), Completed(buf, x);
    FlatMapAppend(UnitOf, written, completed);
    if written != [] {
      FlatMapOne(UnitOf, written[0]);
    }
    if completed != [] {
      FlatMapOne(UnitOf, completed[0]);
    }
    assert UnitsOf(written) == [];
    assert [] + UnitsOf(completed) == UnitsOf(completed);
  }

  /** A buffer that is being filled, with more added; an empty one stays empty. */
  function Filled(buf: seq<Byte>, more: seq<Byte>): seq<Byte> {
    if buf == [] then [] else buf + more
  }

  lemma {:induction false} MiddleBrings(buf: seq<Byte>, u: Unit, middle: seq<Middle>)
    ensures Brings(buf, MiddleSents(u, middle), FlatMap(BetweenUnits, middle), Filled(buf, Payloads(middle)))
    decreases |middle|
  {
    if middle == [] {
      assert buf + Payloads(middle) == buf;
    } else {
      var m, rest := middle[0], middle[1..];
      var mid := Filled(buf, MiddlePayload(m));
      OneMiddleBrings(buf, u, m);
      MiddleBrings(mid, u, rest);
      BringsAppend(buf, [MiddleSent(u, m)], BetweenUnits(m), mid,
                   MiddleSents(u, rest), FlatMap(BetweenUnits, rest), Filled(mid, Payloads(rest)));
      assert Filled(mid, Payloads(rest)) == Filled(buf, Payloads(middle)) by {
        assert (buf + MiddlePayload(m)) + Payloads(rest) == buf + (MiddlePayload(m) + Payloads(rest));
      }
      assert MiddleSents(u, middle) == [MiddleSent(u, m)] + MiddleSents(u, rest);
    }
  }

  lemma {:induction false} OneMiddleBrings(buf: seq<Byte>, u: Unit, m: Middle)
    ensures Brings(buf, [MiddleSent(u, m)], BetweenUnits(m), Filled(buf, MiddlePayload(m)))
  {
    if m.Between? {
      AloneBrings(buf, m.simple);
      assert buf + [] == buf;
    } else {
      FragmentBrings(buf, MiddleSent(u, m));
    }
  }

  lemma {:induction false} MiddleSentsKept(u: Unit, middle: seq<Middle>, got: seq<bool>)
    requires |middle| == |got|
    ensures Kept(MiddleSents(u, middle), got) == MiddleSents(u, Kept(middle, got))
    decreases |middle|
  {
    if middle != [] {
      MiddleSentsKept(u, middle[1..], got[1..]);
      assert MiddleSents(u, middle)[1..] == MiddleSents(u, middle[1..]);
    }
  }

  lemma {:induction false} MaybeBrings(buf: seq<Byte>, x: Sent, got: bool)
    requires x.Fragment?
    ensures Brings(buf, Kept([x], [got]),
                   if got then Completion(buf, x) else [], if got then BufferAfter(buf, x) else buf)
  {
    KeptOne(x, got);
    if got {
      FragmentBrings(buf, x);
    }
  }

  /** The packets of a fragmented item that arrived: some of its first, middle and last. */
  lemma {:induction false} ArrivingInParts(r: Reception)
    requires r.item.Fragmented? && |r.got| == |r.item.middle| + 2
    ensures var Fragmented(u, first, _, last) := r.item;
            Arriving(r) == Kept([Fragment(u, true, false, first)], [FirstArrived(r)]) +
                           MiddleSents(u, MiddleArrived(r)) +
                           Kept([Fragment(u, false, true, last)], [LastArrived(r)])
  {
    var Fragmented(u, first, middle, last) := r.item;
    var n := |r.got| - 1;
    var a, b, c := [Fragment(u, true, false, first)], MiddleSents(u, middle), [Fragment(u, false, true, last)];
    var ga, gb, gc := [r.got[0]], r.got[1..n], [r.got[n]];
    assert r.got == ga + gb + gc;
    KeptAppend(a + b, ga + gb, c, gc);
    KeptAppend(a, ga, b, gb);
    MiddleSentsKept(u, middle, gb);
  }

  lemma {:induction false} BringsInParts(buf: seq<Byte>, a: seq<Sent>, held: seq<Byte>, b: seq<Sent>, ub: seq<Unit>,
                                         filled: seq<Byte>, c: seq<Sent>, uc: seq<Unit>, buf': seq<Byte>)
    requires Brings(buf, a, [], held) && Brings(held, b, ub, filled) && Brings(filled, c, uc, buf')
    ensures Brings(buf, a + b + c, ub + uc, buf')
  {
    BringsAppend(buf, a, [], held, b, ub, filled);
    assert [] + ub == ub;
    BringsAppend(buf, a + b, ub, filled, c, uc, buf');
  }

  lemma {:induction false} EndBrings(buf: seq<Byte>, r: Reception)
    requires r.item.Fragmented?
    ensures var filled := Filled(Held(buf, r), Payloads(MiddleArrived(r)));
            var c := Fragment(r.item.unit, false, true, r.item.last);
            Brings(filled, Kept([c], [LastArrived(r)]),
                   if LastArrived(r) && 2 <= |Joint(buf, r)| then [Joint(buf, r)] else [], Leftover(buf, r))
  {
    var filled := Filled(Held(buf, r), Payloads(MiddleArrived(r)));
    MaybeBrings(filled, Fragment(r.item.unit, false, true, r.item.last), LastArrived(r));
    assert filled + [] == filled;
  }

  lemma {:induction false} FragmentsBring(buf: seq<Byte>, r: Reception)
    requires r.item.Fragmented? && |r.got| == |r.item.middle| + 2
    ensures Brings(buf, Arriving(r), Survivors(buf, r), Leftover(buf, r))
  {
    var Fragmented(u, first, _, last) := r.item;
    var a, c := Fragment(u, true, false, first), Fragment(u, false, true, last);
    var middle, held := MiddleArrived(r), Held(buf, r);
    ArrivingInParts(r);
    MaybeBrings(buf, a, FirstArrived(r));
    MiddleBrings(held, u, middle);
    EndBrings(buf, r);
    BringsInParts(buf, Kept([a], [FirstArrived(r)]), held, MiddleSents(u, middle), FlatMap(BetweenUnits, middle),
                  Filled(held, Payloads(middle)), Kept([c], [LastArrived(r)]),
                  if LastArrived(r) && 2 <= |Joint(buf, r)| then [Joint(buf, r)] else [], Leftover(buf, r));
  }

  lemma {:induction false} ItemBrings(buf: seq<Byte>, r: Reception)
    requires ValidReception(r)
    ensures Brings(buf, Arriving(r), Survivors(buf, r), Leftover(buf, r))
  {
    match r.item
    case Plain(s) =>
      assert r.got == [r.got[0]];
      KeptOne(Alone(s), r.got[0]);
      AloneBrings(buf, s);
    case OneFragment(u, reserved) =>
      var x := Fragment(u, true, true, Part(u[1..], reserved));
      assert r.got == [r.got[0]] && ItemSents(r.item) == [x];
      assert [u[0]] + u[1..] == u;
      MaybeBrings(buf, x, r.got[0]);
    case Fragmented(_, _, _, _) => FragmentsBring(buf, r);
  }

  // ---------------------------------------------------------------- a whole stream

  ghost predicate AllReceptions(rs: seq<Reception>) {
    forall i :: 0 <= i < |rs| ==> ValidReception(rs[i])
  }

  /** The units that come out of a stream, item by item. */
  function AllSurvivors(buf: seq<Byte>, rs: seq<Reception>): seq<Unit> {
    Scan(Leftover, Survivors, buf, rs)
  }

  function AllLeftover(buf: seq<Byte>, rs: seq<Reception>): seq<Byte> {
    Fold(Leftover, buf, rs)
  }

  lemma {:induction false} StreamBrings(buf: seq<Byte>, rs: seq<Reception>)
    requires AllReceptions(rs)
    ensures Brings(buf, FlatMap(Arriving, rs), AllSurvivors(buf, rs), AllLeftover(buf, rs))
    decreases |rs|
  {
    if rs != [] {
      var r, rest := rs[0], rs[1..];
      var mid := Leftover(buf, r);
      ItemBrings(buf, r);
      StreamBrings(mid, rest);
      BringsAppend(buf, Arriving(r), Survivors(buf, r), mid,
                   FlatMap(Arriving, rest), AllSurvivors(mid, rest), AllLeftover(mid, rest));
    }
  }

  /** The items of a plan, given which of its packets arrived. */
  function Receptions(plan: seq<Item>, got: seq<bool>): (rs: seq<Reception>)
    requires |got| == |PlanSents(plan)|
    ensures |rs| == |plan| && forall i :: 0 <= i < |rs| ==> rs[i].item == plan[i]
    ensures forall i :: 0 <= i < |rs| ==> |rs[i].got| == |ItemSents(plan[i])|
    decreases |plan|
  {
    if plan == [] then []
    else
      var n := |ItemSents(plan[0])|;
      [Reception(plan[0], got[..n])] + Receptions(plan[1..], got[n..])
  }

  lemma {:induction false} KeptByItem(plan: seq<Item>, got: seq<bool>)
    requires |got| == |PlanSents(plan)|
    ensures Kept(PlanSents(plan), got) == FlatMap(Arriving, Receptions(plan, got))
    decreases |plan|
  {
    if plan != [] {
      var n := |ItemSents(plan[0])|;
      KeptByItem(plan[1..], got[n..]);
      assert got == got[..n] + got[n..];
      KeptAppend(ItemSents(plan[0]), got[..n], PlanSents(plan[1..]), got[n..]);
      assert Receptions(plan, got)[1..] == Receptions(plan[1..], got[n..]);
    }
  }

  lemma {:induction false} StreamReturns(st: ParserState, xs: seq<Sent>)
    requires AllValid(xs) && PlainBuffer(st.fbuf)
    ensures var (st', packets) := Collect(st, BytesOf(xs));
            var ds := StreamDeliveries(st.fbuf, xs);
            && packets == Output(Directs(UnitsOf(ds))) && st'.sets == DeliverAll(st.sets, ds)
            && st'.fbuf == StreamBuffer(st.fbuf, xs) && PlainBuffer(st'.fbuf)
  {
    PlainStaysPlain(st.fbuf, xs);
    StreamArrives(st, xs);
    UnitsTellAll(st.sets, st.sets, StreamDeliveries(st.fbuf, xs));
  }

  lemma {:induction false} StreamKeeps(st: ParserState, xs: seq<Sent>, t: Byte)
    requires AllValid(xs) && PlainBuffer(st.fbuf) && (t == 7 || t == 8)
    ensures var st' := Collect(st, BytesOf(xs)).0;
            var ds := StreamDeliveries(st.fbuf, xs);
            && (ReadAlike(SetOf(t, st'.sets), AloneSet(t, st.sets, ds)) <==> Safe(t, st.sets, ds))
            && (st.fbuf == [] ==> (Safe(t, st.sets, ds) <==> KeptSafe(t, SetOf(t, st.sets), ds)))
  {
    StreamReturns(st, xs);
    AlikeIffSafe(t, st.sets, StreamDeliveries(st.fbuf, xs));
    SafeIffKeptSafe(t, st.sets, xs);
  }

  /** Loss anywhere: for any part of a plan's packets that arrives, in order, the parser returns
      the packets of the surviving units. The sets it keeps read as those of the surviving units
      if and only if nothing was written over them, which from an empty buffer means that the last
      one came on its own or no fragmented unit has begun since. */
  lemma {:induction false} LossArrives(st: ParserState, plan: seq<Item>, got: seq<bool>, t: Byte)
    requires ValidPlan(plan) && |got| == |PlanSents(plan)| && PlainBuffer(st.fbuf)
    requires t == 7 || t == 8
    ensures AllValid(Kept(PlanSents(plan), got))
    ensures var (st', packets) := Collect(st, BytesOf(Kept(PlanSents(plan), got)));
            var rs := Receptions(plan, got);
            var ds, units := StreamDeliveries(st.fbuf, Kept(PlanSents(plan), got)), AllSurvivors(st.fbuf, rs);
            && packets == Output(Directs(units))
            && (ReadAlike(SetOf(t, st'.sets), SetOf(t, DeliverAll(st.sets, Directs(units)))) <==> Safe(t, st.sets, ds))
            && (st.fbuf == [] ==> (Safe(t, st.sets, ds) <==> KeptSafe(t, SetOf(t, st.sets), ds)))
            && st'.fbuf == AllLeftover(st.fbuf, rs) && PlainBuffer(st'.fbuf)
  {
    var xs, rs := Kept(PlanSents(plan), got), Receptions(plan, got);
    PlanSmooth(st.fbuf, plan);
    KeptAreValid(PlanSents(plan), got);
    KeptByItem(plan, got);
    StreamBrings(st.fbuf, rs);
    StreamReturns(st, xs);
    StreamKeeps(st, xs, t);
  }

  // ---------------------------------------------------------------- runts

  /** All that a run put together is one byte, which the parser refuses. */
  predicate EndsInRunt(buf: seq<Byte>, r: Reception) {
    r.item.Fragmented? && LastArrived(r) && |Joint(buf, r)| == 1
  }

  /** No run of the stream ends in a runt. */
  predicate NoRuntItems(buf: seq<Byte>, rs: seq<Reception>)
    decreases |rs|
  {
    rs == [] || (!EndsInRunt(buf, rs[0]) && NoRuntItems(Leftover(buf, rs[0]), rs[1..]))
  }

  lemma {:induction false} MiddleHasNoRunts(buf: seq<Byte>, u: Unit, middle: seq<Middle>)
    ensures NoRunts(buf, MiddleSents(u, middle))
    decreases |middle|
  {
    if middle != [] {
      var xs := MiddleSents(u, middle);
      assert xs[0] == MiddleSent(u, middle[0]) && xs[1..] == MiddleSents(u, middle[1..]);
      MiddleHasNoRunts(BufferAfter(buf, xs[0]), u, middle[1..]);
    }
  }

  lemma {:induction false} FragmentsHaveNoRuntsIff(buf: seq<Byte>, r: Reception)
    requires r.item.Fragmented? && |r.got| == |r.item.middle| + 2
    ensures NoRunts(buf, Arriving(r)) <==> !EndsInRunt(buf, r)
  {
    var Fragmented(u, first, _, last) := r.item;
    var x, z := Fragment(u, true, false, first), Fragment(u, false, true, last);
    var a, b, c := Kept([x], [FirstArrived(r)]), MiddleSents(u, MiddleArrived(r)), Kept([z], [LastArrived(r)]);
    var held := Held(buf, r);
    var filled := Filled(held, Payloads(MiddleArrived(r)));
    ArrivingInParts(r);
    SoundAppend(buf, a + b, c);
    SoundAppend(buf, a, b);
    MaybeBrings(buf, x, FirstArrived(r));
    MiddleBrings(held, u, MiddleArrived(r));
    BringsAppend(buf, a, [], held, b, FlatMap(BetweenUnits, MiddleArrived(r)), filled);
    KeptOne(x, FirstArrived(r));
    KeptOne(z, LastArrived(r));
    StreamOne(buf, x);
    StreamOne(filled, z);
    MiddleHasNoRunts(held, u, MiddleArrived(r));
  }

  lemma {:induction false} ItemHasNoRuntsIff(buf: seq<Byte>, r: Reception)
    requires ValidReception(r)
    ensures NoRunts(buf, Arriving(r)) <==> !EndsInRunt(buf, r)
  {
    if r.item.Fragmented? {
      FragmentsHaveNoRuntsIff(buf, r);
    } else {
      assert r.got == [r.got[0]];
      KeptOne(ItemSents(r.item)[0], r.got[0]);
      StreamOne(buf, ItemSents(r.item)[0]);
    }
  }

  /** Which losses make the parser refuse a unit. */
  lemma {:induction false} NoRuntsIff(buf: seq<Byte>, rs: seq<Reception>)
    requires AllReceptions(rs)
    ensures NoRunts(buf, FlatMap(Arriving, rs)) <==> NoRuntItems(buf, rs)
    decreases |rs|
  {
    if rs != [] {
      ItemHasNoRuntsIff(buf, rs[0]);
      ItemBrings(buf, rs[0]);
      SoundAppend(buf, Arriving(rs[0]), FlatMap(Arriving, rs[1..]));
      NoRuntsIff(Leftover(buf, rs[0]), rs[1..]);
    }
  }

  // ---------------------------------------------------------------- what survives whole

  predicate Complete(r: Reception) {
    forall j :: 0 <= j < |r.got| ==> r.got[j]
  }

  lemma {:induction false} CompleteIsWhole(buf: seq<Byte>, r: Reception)
    requires ValidReception(r) && Complete(r)
    ensures Survivors(buf, r) == UnitsOf(ItemDeliveries(r.item)) && Leftover(buf, r) == ItemBuffer(buf, r.item)
  {
    ItemBrings(buf, r);
    KeptAll(ItemSents(r.item), r.got);
    ItemSmooth(buf, r.item);
  }

  lemma {:induction false} SurvivorsAppend(buf: seq<Byte>, a: seq<Reception>, b: seq<Reception>)
    ensures AllSurvivors(buf, a + b) == AllSurvivors(buf, a) + AllSurvivors(AllLeftover(buf, a), b)
    ensures AllLeftover(buf, a + b) == AllLeftover(AllLeftover(buf, a), b)
  {
    FoldAppend(Leftover, buf, a, b);
    ScanAppend(Leftover, Survivors, buf, a, b);
  }

  /** Whatever was lost before and is lost after, an item all of whose packets arrived comes out
      whole, between what survives of the items before it and after it. */
  lemma {:induction false} CompleteItemsSurvive(buf: seq<Byte>, rs: seq<Reception>, i: nat)
    requires AllReceptions(rs) && i < |rs| && Complete(rs[i])
    ensures var before := AllLeftover(buf, rs[..i]);
            AllSurvivors(buf, rs) ==
            AllSurvivors(buf, rs[..i]) + UnitsOf(ItemDeliveries(rs[i].item)) +
            AllSurvivors(ItemBuffer(before, rs[i].item), rs[i + 1..])
  {
    var before := AllLeftover(buf, rs[..i]);
    assert rs == rs[..i] + rs[i..];
    SurvivorsAppend(buf, rs[..i], rs[i..]);
    CompleteIsWhole(before, rs[i]);
    assert rs[i..][0] == rs[i] && rs[i..][1..] == rs[i + 1..];
  }

  // ---------------------------------------------------------------- what is damaged

  /** No byte of the unit was in a fragment that got lost between its first and its last. */
  predicate NoByteLost(middle: seq<Middle>, got: seq<bool>)
    requires |middle| == |got|
  {
    forall j :: 0 <= j < |middle| && !got[j] ==> MiddlePayload(middle[j]) == []
  }

  lemma {:induction false} LossShortens(middle: seq<Middle>, got: seq<bool>)
    requires |middle| == |got|
    ensures NoByteLost(middle, got) ==> Payloads(Kept(middle, got)) == Payloads(middle)
    ensures |Payloads(Kept(middle, got))| <= |Payloads(middle)|
    ensures !NoByteLost(middle, got) ==> |Payloads(Kept(middle, got))| < |Payloads(middle)|
    decreases |middle|
  {
    if middle != [] {
      var m, rest := middle[0], middle[1..];
      LossShortens(rest, got[1..]);
      FlatMapAppend(MiddlePayload, if got[0] then [m] else [], Kept(rest, got[1..]));
      FlatMapOne(MiddlePayload, m);
      assert NoByteLost(middle, got) <==> (got[0] || MiddlePayload(m) == []) && NoByteLost(rest, got[1..]) by {
        assert forall j :: 0 < j < |middle| ==> middle[j] == rest[j - 1] && got[j] == got[1..][j - 1];
        assert forall j :: 0 <= j < |rest| ==> rest[j] == middle[j + 1] && got[1..][j] == got[j + 1];
      }
    }
  }

  /** A run of fragments whose first and last arrived is put together to one unit, and that is
      the unit that was sent if and only if no byte of it got lost in between. */
  lemma {:induction false} DamagedIff(buf: seq<Byte>, r: Reception)
    requires r.item.Fragmented? && ValidReception(r) && FirstArrived(r) && LastArrived(r)
    ensures Joint(buf, r) == r.item.unit <==> NoByteLost(r.item.middle, r.got[1..|r.got| - 1])
  {
    var Fragmented(u, first, middle, last) := r.item;
    LossShortens(middle, r.got[1..|r.got| - 1]);
    PartsJoin(u, first.payload, Payloads(middle), last.payload);
    var joint := [u[0]] + first.payload + Payloads(MiddleArrived(r)) + last.payload;
    assert Joint(buf, r) == joint;
    assert |u| == 1 + |first.payload| + |Payloads(middle)| + |last.payload|;
  }

  /** A run that lost its first fragment yields nothing and leaves nothing behind, unless an
      earlier run lost its last one: then it is glued to what that run left in the buffer. */
  lemma {:induction false} HeadlessRun(buf: seq<Byte>, r: Reception)
    requires r.item.Fragmented? && ValidReception(r) && !FirstArrived(r)
    ensures buf == [] ==> Survivors(buf, r) == FlatMap(BetweenUnits, MiddleArrived(r)) && Leftover(buf, r) == []
    ensures buf != [] && LastArrived(r) ==>
              var glued := buf + Payloads(MiddleArrived(r)) + r.item.last.payload;
              Survivors(buf, r) ==
              FlatMap(BetweenUnits, MiddleArrived(r)) + (if 2 <= |glued| then [glued] else []) &&
              Leftover(buf, r) == []
    ensures buf != [] && !LastArrived(r) ==> buf <= Leftover(buf, r)
  {
    if buf != [] && !LastArrived(r) {
      assert Leftover(buf, r) == buf + Payloads(MiddleArrived(r));
    }
  }

  /** A run that is lost from its first fragment on or arrives without losing a byte. */
  predicate Sane(r: Reception) {
    r.item.Fragmented? && |r.got| == |r.item.middle| + 2 && FirstArrived(r) ==>
      LastArrived(r) && NoByteLost(r.item.middle, r.got[1..|r.got| - 1])
  }

  /** The units of an item that were sent whole and arrived whole. */
  function WholeUnits(r: Reception): seq<Unit> {
    match r.item
    case Plain(s) => if FirstArrived(r) then SimpleUnits(s) else []
    case OneFragment(u, _) => if FirstArrived(r) then [u] else []
    case Fragmented(u, _, _, _) =>
      FlatMap(BetweenUnits, MiddleArrived(r)) + if FirstArrived(r) then [u] else []
  }

  /** When every run that begins also ends without losing a byte, only units that were sent come
      out, all that arrived, in order, whatever else was lost. */
  lemma {:induction false} SaneLossInventsNothing(rs: seq<Reception>)
    requires AllReceptions(rs) && forall i :: 0 <= i < |rs| ==> Sane(rs[i])
    ensures AllSurvivors([], rs) == FlatMap(WholeUnits, rs) && AllLeftover([], rs) == []
    decreases |rs|
  {
    if rs != [] {
      var r := rs[0];
      assert Sane(r);
      if r.item.Fragmented? {
        if FirstArrived(r) {
          DamagedIff([], r);
        } else {
          HeadlessRun([], r);
        }
      }
      SaneLossInventsNothing(rs[1..]);
    }
  }
}
