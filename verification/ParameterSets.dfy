/**
 What becomes of the stored parameter sets (ingest/ftl/deframing.go:64-69, 119-128). One that
 arrives on its own is kept as it is. One that arrives in fragments is a slice of the array behind
 the fragment buffer, which the next fragmented unit writes into, and whether it shares that array
 any longer depends on the memory allocator.
 */
module ParameterSets {
  import opened Bytes
  import opened Wrappers
  import opened H264Util
  import opened Depacketizer
  import opened Packetizer

  function UnitOf(d: Delivery): seq<Unit> {
    if HasUnitOf(d) then [d.unit] else []
  }

  /** The units a list of deliveries carries, in the order they are complete. */
  function UnitsOf(ds: seq<Delivery>): seq<Unit> {
    FlatMap(UnitOf, ds)
  }

  // ---------------------------------------------------------------- what is delivered

  /** The unit that was stored. */
  function Content(p: ParamSet): Option<Unit> {
    if p.Stored? then Some(p.bytes) else None
  }

  /** The same units were stored, whatever has been written over them since. */
  predicate SameStored(a: Sets, b: Sets) {
    Content(a.sps) == Content(b.sps) && Content(a.pps) == Content(b.pps)
  }

  lemma {:induction false} UnitsTellAll(a: Sets, b: Sets, ds: seq<Delivery>)
    requires SameStored(a, b)
    ensures SameStored(DeliverAll(a, ds), DeliverAll(b, Directs(UnitsOf(ds))))
    ensures Output(ds) == Output(Directs(UnitsOf(ds)))
    decreases |ds|
  {
    if ds != [] {
      var d, rest := ds[0], ds[1..];
      if HasUnitOf(d) {
        var units := UnitsOf(ds);
        assert units[0] == d.unit && units[1..] == UnitsOf(rest);
        assert Directs(units)[0] == Direct(d.unit) && Directs(units)[1..] == Directs(UnitsOf(rest));
        UnitsTellAll(Deliver(a, d), Deliver(b, Direct(d.unit)), rest);
      } else {
        assert UnitsOf(ds) == UnitsOf(rest);
        UnitsTellAll(Deliver(a, d), b, rest);
        assert [] + Output(rest) == Output(rest);
      }
    }
  }

  lemma {:induction false} DeliveredUnitsAreLegal(plan: seq<Item>)
    requires ValidPlan(plan)
    ensures forall u :: u in UnitsOf(PlanDeliveries(plan)) ==> Legal(u)
    decreases |plan|
  {
    if plan != [] {
      DeliveredUnitsAreLegal(plan[1..]);
      ItemUnitsAreLegal(plan[0]);
      FlatMapAppend(UnitOf, ItemDeliveries(plan[0]), PlanDeliveries(plan[1..]));
    }
  }

  lemma {:induction false} UnitsOfDirects(units: seq<Unit>)
    ensures UnitsOf(Directs(units)) == units
    decreases |units|
  {
    if units != [] {
      UnitsOfDirects(units[1..]);
      assert Directs(units)[0] == Direct(units[0]) && Directs(units)[1..] == Directs(units[1..]);
    }
  }

  /** The units that travel between the fragments of another. */
  function BetweenUnits(m: Middle): seq<Unit> {
    if m.Between? then SimpleUnits(m.simple) else []
  }

  lemma {:induction false} MiddleUnits(middle: seq<Middle>)
    ensures UnitsOf(MiddleDeliveries(middle)) == FlatMap(BetweenUnits, middle)
    decreases |middle|
  {
    if middle != [] {
      var m, rest := middle[0], middle[1..];
      MiddleUnits(rest);
      FlatMapAppend(UnitOf, MiddleDelivery(m), MiddleDeliveries(rest));
      if m.Between? {
        UnitsOfDirects(SimpleUnits(m.simple));
      } else {
        FlatMapOne(UnitOf, Extended);
      }
    }
  }

  lemma {:induction false} MiddleUnitsAreLegal(middle: seq<Middle>)
    requires forall m :: m in middle ==> ValidMiddle(m)
    ensures forall u :: u in FlatMap(BetweenUnits, middle) ==> Legal(u)
    decreases |middle|
  {
    if middle != [] {
      assert ValidMiddle(middle[0]);
      MiddleUnitsAreLegal(middle[1..]);
    }
  }

  /** A fragmented item carries the units between its fragments, and then its own. */
  lemma {:induction false} FragmentedUnits(i: Item)
    requires i.Fragmented?
    ensures UnitsOf(ItemDeliveries(i)) == FlatMap(BetweenUnits, i.middle) + [i.unit]
  {
    var began, between, ended := [Began(First(i.unit))], MiddleDeliveries(i.middle), [Extended, Joined(i.unit)];
    FlatMapAppend(UnitOf, began + between, ended);
    FlatMapAppend(UnitOf, began, between);
    FlatMapOne(UnitOf, began[0]);
    assert ended == [Extended] + [Joined(i.unit)];
    FlatMapAppend(UnitOf, [Extended], [Joined(i.unit)]);
    FlatMapOne(UnitOf, Extended);
    FlatMapOne(UnitOf, Joined(i.unit));
    MiddleUnits(i.middle);
    assert [] + UnitsOf(between) == UnitsOf(between) && [] + [i.unit] == [i.unit];
  }

  lemma {:induction false} ItemUnitsAreLegal(i: Item)
    requires ValidItem(i)
    ensures forall u :: u in UnitsOf(ItemDeliveries(i)) ==> Legal(u)
  {
    match i
    case Plain(s) => UnitsOfDirects(SimpleUnits(s));
    case OneFragment(u, _) =>
      assert ItemDeliveries(i) == [Began(First(u))] + [Joined(u)];
      FlatMapAppend(UnitOf, [Began(First(u))], [Joined(u)]);
      FlatMapOne(UnitOf, Began(First(u)));
      FlatMapOne(UnitOf, Joined(u));
    case Fragmented(u, _, middle, _) =>
      FragmentedUnits(i);
      MiddleUnitsAreLegal(middle);
  }

  // ---------------------------------------------------------------- where the sets are kept

  function SetOf(t: Byte, ss: Sets): ParamSet
    requires t == 7 || t == 8
  {
    if t == 7 then ss.sps else ss.pps
  }

  predicate NoneCarries(ds: seq<Delivery>, t: Byte) {
    forall j :: 0 <= j < |ds| ==> !Carries(ds[j], t)
  }

  lemma {:induction false} DeliverKeepsContent(t: Byte, ss: Sets, ds: seq<Delivery>)
    requires (t == 7 || t == 8) && NoneCarries(ds, t)
    ensures Content(SetOf(t, DeliverAll(ss, ds))) == Content(SetOf(t, ss))
    ensures SetOf(t, ss).Stored? && !SetOf(t, ss).shared ==> SetOf(t, DeliverAll(ss, ds)) == SetOf(t, ss)
    decreases |ds|
  {
    if ds != [] {
      assert !Carries(ds[0], t);
      DeliverKeepsContent(t, Deliver(ss, ds[0]), ds[1..]);
    }
  }

  lemma {:induction false} DeliverSplit(t: Byte, ss: Sets, ds: seq<Delivery>, i: nat)
    requires (t == 7 || t == 8) && i < |ds| && Carries(ds[i], t)
    ensures SetOf(t, DeliverAll(ss, ds[..i + 1])) == Stored(ds[i].unit, ds[i].Joined?, [])
    ensures DeliverAll(ss, ds) == DeliverAll(DeliverAll(ss, ds[..i + 1]), ds[i + 1..])
  {
    assert ds[..i + 1] == ds[..i] + [ds[i]];
    DeliverAppend(ss, ds[..i], [ds[i]]);
    DeliverOne(DeliverAll(ss, ds[..i]), ds[i]);
    assert ds == ds[..i + 1] + ds[i + 1..];
    DeliverAppend(ss, ds[..i + 1], ds[i + 1..]);
  }

  /** The parameter set kept is the last one delivered; one that came on its own is kept byte for
      byte, whatever comes after it and whatever the allocator does. */
  lemma {:induction false} LastSetIsKept(t: Byte, ss: Sets, ds: seq<Delivery>, i: nat)
    requires (t == 7 || t == 8) && i < |ds| && Carries(ds[i], t)
    requires NoneCarries(ds[i + 1..], t)
    ensures Content(SetOf(t, DeliverAll(ss, ds))) == Some(ds[i].unit)
    ensures ds[i].Direct? ==> SetOf(t, DeliverAll(ss, ds)) == Stored(ds[i].unit, false, [])
  {
    DeliverSplit(t, ss, ds, i);
    DeliverKeepsContent(t, DeliverAll(ss, ds[..i + 1]), ds[i + 1..]);
  }

  /** The last delivery of a unit of this type, or -1. */
  function LastCarrying(t: Byte, ds: seq<Delivery>): (i: int)
    ensures -1 <= i < |ds| && (0 <= i ==> Carries(ds[i], t)) && NoneCarries(ds[i + 1..], t)
    decreases |ds|
  {
    if ds == [] then -1
    else
      var n := |ds| - 1;
      if Carries(ds[n], t) then n
      else
        var i := LastCarrying(t, ds[..n]);
        assert ds[i + 1..] == ds[..n][i + 1..] + [ds[n]];
        i
  }

  lemma {:induction false} CarrierIsFound(t: Byte, ds: seq<Delivery>, j: nat)
    requires j < |ds| && Carries(ds[j], t)
    ensures 0 <= LastCarrying(t, ds)
    decreases |ds|
  {
    var n := |ds| - 1;
    if !Carries(ds[n], t) {
      CarrierIsFound(t, ds[..n], j);
    }
  }

  // ---------------------------------------------------------------- what is written over

  /** The set is where fragmented units are put together. */
  predicate Exposed(p: ParamSet) {
    p.Stored? && p.shared
  }

  predicate Quiet(ds: seq<Delivery>) {
    forall j :: 0 <= j < |ds| ==> !ds[j].Began?
  }

  /** No fragmented unit begins before the buffer has moved away. */
  predicate Spared(moves: seq<bool>, ds: seq<Delivery>)
    decreases |ds|
  {
    if ds == [] then true
    else if ds[0].Began? then false
    else if ds[0].Extended? && moves != [] then moves[0] || Spared(moves[1..], ds[1..])
    else Spared(moves, ds[1..])
  }

  /** A set that is not replaced is written over exactly when it is exposed and not spared. */
  lemma {:induction false} WrittenOverIff(t: Byte, ss: Sets, ds: seq<Delivery>)
    requires (t == 7 || t == 8) && NoneCarries(ds, t) && SetOf(t, ss).Stored?
    ensures var p, p' := SetOf(t, ss), SetOf(t, DeliverAll(ss, ds));
            && p'.Stored? && p'.bytes == p.bytes && |p.over| <= |p'.over|
            && (!p.shared || Spared(ss.moves, ds) ==> p'.over == p.over)
            && (p.shared && !Spared(ss.moves, ds) ==> |p.over| < |p'.over|)
    decreases |ds|
  {
    if ds != [] {
      assert !Carries(ds[0], t);
      WrittenOverIff(t, Deliver(ss, ds[0]), ds[1..]);
    }
  }

  /** The two sets read the same: the same unit, with the same things written over it. */
  predicate ReadAlike(p: ParamSet, q: ParamSet) {
    Content(p) == Content(q) && (p.Stored? ==> p.over == q.over)
  }

  /** The set of this type is the same as if every unit had come on its own: the last one did, or
      nothing was written over it since. */
  predicate Safe(t: Byte, ss: Sets, ds: seq<Delivery>)
    requires t == 7 || t == 8
  {
    var i := LastCarrying(t, ds);
    (if i < 0 then !Exposed(SetOf(t, ss)) else ds[i].Direct?) ||
    Spared(DeliverAll(ss, ds[..i + 1]).moves, ds[i + 1..])
  }

  lemma {:induction false} AloneKeeps(t: Byte, ss: Sets, units: seq<Unit>)
    requires t == 7 || t == 8
    ensures var p := SetOf(t, DeliverAll(ss, Directs(units)));
            p == SetOf(t, ss) || (p.Stored? && p.over == [])
    ensures NoneCarries(Directs(units), t) ==> SetOf(t, DeliverAll(ss, Directs(units))) == SetOf(t, ss)
    ensures !NoneCarries(Directs(units), t) ==> SetOf(t, DeliverAll(ss, Directs(units))).Stored? &&
                                                SetOf(t, DeliverAll(ss, Directs(units))).over == []
    decreases |units|
  {
    if units != [] {
      var ds := Directs(units);
      assert ds[0] == Direct(units[0]) && ds[1..] == Directs(units[1..]);
      AloneKeeps(t, Deliver(ss, ds[0]), units[1..]);
      assert NoneCarries(ds, t) <==> !Carries(ds[0], t) && NoneCarries(ds[1..], t) by {
        assert forall j :: 0 < j < |ds| ==> ds[j] == ds[1..][j - 1];
        assert forall j :: 0 <= j < |ds[1..]| ==> ds[1..][j] == ds[j + 1];
      }
    }
  }

  lemma {:induction false} CarriersStay(t: Byte, ds: seq<Delivery>)
    ensures NoneCarries(ds, t) <==> NoneCarries(Directs(UnitsOf(ds)), t)
    decreases |ds|
  {
    if ds != [] {
      var rest, units := ds[1..], UnitsOf(ds);
      CarriersStay(t, rest);
      assert NoneCarries(ds, t) <==> !Carries(ds[0], t) && NoneCarries(rest, t) by {
        assert forall j :: 0 < j < |ds| ==> ds[j] == rest[j - 1];
        assert forall j :: 0 <= j < |rest| ==> rest[j] == ds[j + 1];
      }
      if HasUnitOf(ds[0]) {
        var all, tail := Directs(units), Directs(UnitsOf(rest));
        assert units[0] == ds[0].unit && units[1..] == UnitsOf(rest);
        assert all == [Direct(ds[0].unit)] + tail;
        assert forall j :: 0 <= j < |tail| ==> all[j + 1] == tail[j];
        assert Carries(all[0], t) <==> Carries(ds[0], t);
      } else {
        assert units == UnitsOf(rest);
      }
    }
  }

  /** The set of this type when every unit comes on its own. */
  function AloneSet(t: Byte, ss: Sets, ds: seq<Delivery>): ParamSet
    requires t == 7 || t == 8
  {
    SetOf(t, DeliverAll(ss, Directs(UnitsOf(ds))))
  }

  lemma {:induction false} AloneSetIs(t: Byte, ss: Sets, ds: seq<Delivery>)
    requires t == 7 || t == 8
    ensures Content(AloneSet(t, ss, ds)) == Content(SetOf(t, DeliverAll(ss, ds)))
    ensures NoneCarries(ds, t) ==> AloneSet(t, ss, ds) == SetOf(t, ss)
    ensures !NoneCarries(ds, t) ==> AloneSet(t, ss, ds).Stored? && AloneSet(t, ss, ds).over == []
  {
    UnitsTellAll(ss, ss, ds);
    AloneKeeps(t, ss, UnitsOf(ds));
    CarriersStay(t, ds);
  }

  lemma {:induction false} AlikeWithoutCarrier(t: Byte, ss: Sets, ds: seq<Delivery>)
    requires (t == 7 || t == 8) && NoneCarries(ds, t)
    ensures ReadAlike(SetOf(t, DeliverAll(ss, ds)), SetOf(t, ss)) <==> !Exposed(SetOf(t, ss)) || Spared(ss.moves, ds)
  {
    if SetOf(t, ss).Stored? {
      WrittenOverIff(t, ss, ds);
    } else {
      DeliverKeepsContent(t, ss, ds);
    }
  }

  lemma {:induction false} IntactIff(t: Byte, ss: Sets, ds: seq<Delivery>, i: nat)
    requires (t == 7 || t == 8) && i < |ds| && Carries(ds[i], t) && NoneCarries(ds[i + 1..], t)
    ensures var p := SetOf(t, DeliverAll(ss, ds));
            && p.Stored?
            && (p.over == [] <==> ds[i].Direct? || Spared(DeliverAll(ss, ds[..i + 1]).moves, ds[i + 1..]))
  {
    DeliverSplit(t, ss, ds, i);
    WrittenOverIff(t, DeliverAll(ss, ds[..i + 1]), ds[i + 1..]);
  }

  /** Exactly when packing shows in the stored sets. */
  lemma {:induction false} AlikeIffSafe(t: Byte, ss: Sets, ds: seq<Delivery>)
    requires t == 7 || t == 8
    ensures ReadAlike(SetOf(t, DeliverAll(ss, ds)), AloneSet(t, ss, ds)) <==> Safe(t, ss, ds)
  {
    var i := LastCarrying(t, ds);
    AloneSetIs(t, ss, ds);
    if i < 0 {
      assert ds[..i + 1] == [] && ds[i + 1..] == ds;
      AlikeWithoutCarrier(t, ss, ds);
    } else {
      IntactIff(t, ss, ds, i);
    }
  }

  // ---------------------------------------------------------------- in a stream

  /** The buffer is not written to before a fragmented unit begins. */
  predicate Opens(ds: seq<Delivery>)
    decreases |ds|
  {
    ds == [] || ds[0].Began? || (!ds[0].Extended? && Opens(ds[1..]))
  }

  lemma {:induction false} SparedIffQuiet(moves: seq<bool>, ds: seq<Delivery>)
    requires Opens(ds)
    ensures Spared(moves, ds) <==> Quiet(ds)
    decreases |ds|
  {
    if ds != [] && !ds[0].Began? {
      SparedIffQuiet(moves, ds[1..]);
      assert forall j :: 0 < j < |ds| ==> ds[j] == ds[1..][j - 1];
      assert forall j :: 0 <= j < |ds[1..]| ==> ds[1..][j] == ds[j + 1];
    }
  }

  lemma {:induction false} OpensAppend(a: seq<Delivery>, b: seq<Delivery>)
    requires forall j :: 0 <= j < |a| ==> a[j].Direct?
    requires Opens(b)
    ensures Opens(a + b)
    decreases |a|
  {
    if a == [] {
      assert a + b == b;
    } else {
      OpensAppend(a[1..], b);
      assert (a + b)[0] == a[0] && (a + b)[1..] == a[1..] + b;
    }
  }

  lemma {:induction false} EmptyBufferOpens(xs: seq<Sent>)
    ensures Opens(StreamDeliveries([], xs))
    decreases |xs|
  {
    if xs != [] {
      var x, rest := xs[0], xs[1..];
      if x.Alone? {
        DirectsAt(SimpleUnits(x.simple));
        EmptyBufferOpens(rest);
        OpensAppend(Directs(SimpleUnits(x.simple)), StreamDeliveries([], rest));
      } else if !x.start {
        EmptyBufferOpens(rest);
        assert Arrived([], x) == [];
        assert [] + StreamDeliveries([], rest) == StreamDeliveries([], rest);
      }
    }
  }

  /** Joining a unit leaves the buffer empty. */
  lemma {:induction false} JoinedOpens(buf: seq<Byte>, xs: seq<Sent>, i: nat)
    requires i < |StreamDeliveries(buf, xs)| && StreamDeliveries(buf, xs)[i].Joined?
    ensures Opens(StreamDeliveries(buf, xs)[i + 1..])
    decreases |xs|
  {
    var x, rest := xs[0], xs[1..];
    var first, after := Arrived(buf, x), StreamDeliveries(BufferAfter(buf, x), rest);
    assert StreamDeliveries(buf, xs) == first + after;
    if i < |first| {
      if x.Alone? {
        DirectsAt(SimpleUnits(x.simple));
      } else {
        assert i == |first| - 1 && x.end;
        assert (first + after)[i + 1..] == after;
        EmptyBufferOpens(rest);
      }
    } else {
      JoinedOpens(BufferAfter(buf, x), rest, i - |first|);
      assert (first + after)[i + 1..] == after[i - |first| + 1..];
    }
  }

  /** The set of this type came on its own, or no fragmented unit has begun since. */
  predicate KeptSafe(t: Byte, p: ParamSet, ds: seq<Delivery>) {
    var i := LastCarrying(t, ds);
    (if i < 0 then !Exposed(p) else ds[i].Direct?) || Quiet(ds[i + 1..])
  }

  /** From an empty buffer it does not matter what the allocator does. */
  lemma {:induction false} SafeIffKeptSafe(t: Byte, ss: Sets, xs: seq<Sent>)
    requires t == 7 || t == 8
    ensures Safe(t, ss, StreamDeliveries([], xs)) <==> KeptSafe(t, SetOf(t, ss), StreamDeliveries([], xs))
  {
    var ds := StreamDeliveries([], xs);
    var i := LastCarrying(t, ds);
    if i < 0 {
      EmptyBufferOpens(xs);
      assert ds[i + 1..] == ds;
      SparedIffQuiet(DeliverAll(ss, ds[..i + 1]).moves, ds[i + 1..]);
    } else if ds[i].Joined? {
      JoinedOpens([], xs, i);
      SparedIffQuiet(DeliverAll(ss, ds[..i + 1]).moves, ds[i + 1..]);
    }
  }

  // ---------------------------------------------------------------- how far packing shows

  /** However the units are packed, the parser returns what it returns when each unit comes alone.
      The sets it keeps read as they would then if and only if, for each type, the last one came on
      its own or no fragmented unit has begun since. */
  lemma {:induction false} PackingShowsIff(st: ParserState, plan: seq<Item>, t: Byte)
    requires ValidPlan(plan) && (t == 7 || t == 8)
    ensures AllValid(PlanSents(plan))
    ensures var packed, alone := Feed(st, BytesOf(PlanSents(plan))), Feed(st, UnitsOf(PlanDeliveries(plan)));
            && packed.1 == alone.1
            && (ReadAlike(SetOf(t, packed.0.sets), SetOf(t, alone.0.sets)) <==>
                KeptSafe(t, SetOf(t, st.sets), PlanDeliveries(plan)))
  {
    var ds := PlanDeliveries(plan);
    Depacketise(st, plan);
    DeliveredUnitsAreLegal(plan);
    UnitsArrive(st, UnitsOf(ds));
    UnitsTellAll(st.sets, st.sets, ds);
    AlikeIffSafe(t, st.sets, ds);
    PlanSmooth([], plan);
    SafeIffKeptSafe(t, st.sets, PlanSents(plan));
  }

  lemma {:induction false} RunKeepsSafeIff(t: Byte, p: ParamSet, i: Item)
    requires i.Fragmented?
    ensures KeptSafe(t, p, ItemDeliveries(i)) <==> !Exposed(p) || !NoneCarries(ItemDeliveries(i), t)
  {
    MiddleNeverJoins(i.middle);
    RunShape(t, p, First(i.unit), MiddleDeliveries(i.middle), i.unit);
  }

  lemma {:induction false} RunShape(t: Byte, p: ParamSet, first: Byte, between: seq<Delivery>, u: Unit)
    requires forall j :: 0 <= j < |between| ==> between[j].Direct? || between[j].Extended?
    ensures var ds := [Began(first)] + between + [Extended, Joined(u)];
            KeptSafe(t, p, ds) <==> !Exposed(p) || !NoneCarries(ds, t)
  {
    var ds := [Began(first)] + between + [Extended, Joined(u)];
    var n, k := |ds| - 1, LastCarrying(t, ds);
    assert ds[0].Began? && ds[n - 1].Extended? && ds[n] == Joined(u);
    if k < 0 {
      assert ds[k + 1..] == ds;
    } else if k == n {
      assert ds[k + 1..] == [];
    } else {
      assert ds[k] == between[k - 1];
    }
  }

  /** Resynchronisation: whatever lost or stray fragments left in the buffer, a complete fragment run
      returns what the units between its fragments and then its own unit return when each comes
      alone, and leaves the buffer empty. It leaves a set that was there before, and that is not
      replaced in it, as it was if and only if that set is not where the run is put together. */
  lemma {:induction false} FragmentsEqualWhole(st: ParserState, i: Item, t: Byte)
    requires i.Fragmented? && ValidItem(i) && (t == 7 || t == 8)
    ensures AllValid(ItemSents(i))
    ensures var units := FlatMap(BetweenUnits, i.middle) + [i.unit];
            var fragments, whole := Feed(st, BytesOf(ItemSents(i))), Feed(st, units);
            && fragments.1 == whole.1
            && fragments.0.fbuf == []
            && (ReadAlike(SetOf(t, fragments.0.sets), SetOf(t, whole.0.sets)) <==>
                !Exposed(SetOf(t, st.sets)) || OneIs(t, units))
  {
    FlatMapOne(ItemSents, i);
    FlatMapOne(ItemDeliveries, i);
    PackingShowsIff(st, [i], t);
    SafeInRunIff(t, SetOf(t, st.sets), i);
    RunEmptiesBuffer(st, i);
  }

  lemma {:induction false} SafeInRunIff(t: Byte, p: ParamSet, i: Item)
    requires i.Fragmented?
    ensures UnitsOf(ItemDeliveries(i)) == FlatMap(BetweenUnits, i.middle) + [i.unit]
    ensures KeptSafe(t, p, ItemDeliveries(i)) <==> !Exposed(p) || OneIs(t, FlatMap(BetweenUnits, i.middle) + [i.unit])
  {
    FragmentedUnits(i);
    RunKeepsSafeIff(t, p, i);
    CarriersAreUnits(t, ItemDeliveries(i));
  }

  lemma {:induction false} RunEmptiesBuffer(st: ParserState, i: Item)
    requires i.Fragmented? && ValidItem(i)
    ensures AllValid(ItemSents(i)) && Feed(st, BytesOf(ItemSents(i))).0.fbuf == []
  {
    FlatMapOne(ItemSents, i);
    Depacketise(st, [i]);
    assert PlanBuffer(st.fbuf, [i]) == [] by {
      assert !([i][0].Plain?);
    }
  }

  predicate OneIs(t: Byte, units: seq<Unit>) {
    exists k :: 0 <= k < |units| && units[k] != [] && Type(units[k]) == t
  }

  lemma {:induction false} CarriersAreUnits(t: Byte, ds: seq<Delivery>)
    ensures NoneCarries(ds, t) <==> !OneIs(t, UnitsOf(ds))
  {
    CarriersStay(t, ds);
    DirectsAt(UnitsOf(ds));
  }

  lemma {:induction false} DirectsAt(units: seq<Unit>)
    ensures |Directs(units)| == |units| && forall k :: 0 <= k < |units| ==> Directs(units)[k] == Direct(units[k])
    decreases |units|
  {
    if units != [] {
      DirectsAt(units[1..]);
    }
  }

  lemma {:induction false} MiddleNeverJoins(middle: seq<Middle>)
    ensures forall j :: 0 <= j < |MiddleDeliveries(middle)| ==>
              MiddleDeliveries(middle)[j].Direct? || MiddleDeliveries(middle)[j].Extended?
    decreases |middle|
  {
    if middle != [] {
      var a, b := MiddleDelivery(middle[0]), MiddleDeliveries(middle[1..]);
      MiddleNeverJoins(middle[1..]);
      if middle[0].Between? {
        DirectsAt(SimpleUnits(middle[0].simple));
      }
      assert MiddleDeliveries(middle) == a + b;
      assert forall j :: 0 <= j < |a| ==> a[j].Direct? || a[j].Extended?;
    }
  }

  // ---------------------------------------------------------------- sets that came in fragments

  /** The type a stored parameter set reads as. */
  function StoredType(p: ParamSet): Byte
    requires p.Stored? && p.bytes != []
  {
    Low5(if p.over != [] then p.over[|p.over| - 1] else p.bytes[0])
  }

  predicate Untouched(p: ParamSet, u: Unit) {
    p == Stored(u, true, [])
  }

  predicate Spoiled(p: ParamSet, u: Unit, t: Byte) {
    p.Stored? && p.bytes == u && p.over != [] && Low5(p.over[|p.over| - 1]) != t
  }

  /** A delivery that writes no first byte of type `t`, and is not of that type. */
  predicate Foreign(d: Delivery, t: Byte) {
    !Carries(d, t) && (d.Began? ==> Low5(d.first) != t)
  }

  lemma {:induction false} SpoiledStaysSpoiled(t: Byte, ss: Sets, ds: seq<Delivery>, u: Unit)
    requires t == 7 || t == 8
    requires forall j :: 0 <= j < |ds| ==> Foreign(ds[j], t)
    requires Spoiled(SetOf(t, ss), u, t)
    ensures Spoiled(SetOf(t, DeliverAll(ss, ds)), u, t)
    decreases |ds|
  {
    if ds != [] {
      assert Foreign(ds[0], t);
      SpoiledStaysSpoiled(t, Deliver(ss, ds[0]), ds[1..], u);
    }
  }

  lemma {:induction false} DirectsLeaveUntouched(t: Byte, ss: Sets, units: seq<Unit>, u: Unit)
    requires t == 7 || t == 8
    requires NoneCarries(Directs(units), t) && Untouched(SetOf(t, ss), u)
    ensures Untouched(SetOf(t, DeliverAll(ss, Directs(units))), u)
    decreases |units|
  {
    if units != [] {
      var ds := Directs(units);
      assert ds[0] == Direct(units[0]) && ds[1..] == Directs(units[1..]);
      assert !Carries(ds[0], t);
      DirectsLeaveUntouched(t, Deliver(ss, ds[0]), units[1..], u);
    }
  }

  /** The first byte of a unit that began is the first byte of the unit it is joined to. */
  lemma {:induction false} ItemIsForeign(t: Byte, i: Item)
    requires ValidItem(i) && NoneCarries(ItemDeliveries(i), t)
    ensures forall j :: 0 <= j < |ItemDeliveries(i)| ==> Foreign(ItemDeliveries(i)[j], t)
  {
    var ds := ItemDeliveries(i);
    if i.Plain? {
      DirectsAt(SimpleUnits(i.simple));
    } else {
      var last := |ds| - 1;
      assert ds[last] == Joined(i.unit) && !Carries(ds[last], t);
      if i.Fragmented? {
        MiddleNeverJoins(i.middle);
        var between := MiddleDeliveries(i.middle);
        assert forall j :: 0 < j <= |between| ==> ds[j] == between[j - 1];
      }
    }
  }

  /** One item after a fragmented set: units on their own leave it alone, fragments spoil it. */
  lemma {:induction false} ItemSpoils(t: Byte, ss: Sets, i: Item, u: Unit)
    requires t == 7 || t == 8
    requires ValidItem(i) && NoneCarries(ItemDeliveries(i), t) && Untouched(SetOf(t, ss), u)
    ensures if i.Plain? then Untouched(SetOf(t, DeliverAll(ss, ItemDeliveries(i))), u)
            else Spoiled(SetOf(t, DeliverAll(ss, ItemDeliveries(i))), u, t)
  {
    if i.Plain? {
      DirectsLeaveUntouched(t, ss, SimpleUnits(i.simple), u);
    } else {
      var ds := ItemDeliveries(i);
      ItemIsForeign(t, i);
      assert ds[0] == Began(First(i.unit)) && Foreign(ds[0], t);
      assert Spoiled(SetOf(t, Deliver(ss, ds[0])), u, t);
      SpoiledStaysSpoiled(t, Deliver(ss, ds[0]), ds[1..], u);
    }
  }

  lemma {:induction false} NoneCarriesParts(a: seq<Delivery>, b: seq<Delivery>, t: Byte)
    requires NoneCarries(a + b, t)
    ensures NoneCarries(a, t) && NoneCarries(b, t)
  {
    assert forall j :: 0 <= j < |a| ==> (a + b)[j] == a[j];
    assert forall j :: 0 <= j < |b| ==> (a + b)[|a| + j] == b[j];
  }

  lemma {:induction false} PlanIsForeign(t: Byte, plan: seq<Item>)
    requires ValidPlan(plan) && NoneCarries(PlanDeliveries(plan), t)
    ensures forall j :: 0 <= j < |PlanDeliveries(plan)| ==> Foreign(PlanDeliveries(plan)[j], t)
    decreases |plan|
  {
    if plan != [] {
      NoneCarriesParts(ItemDeliveries(plan[0]), PlanDeliveries(plan[1..]), t);
      ItemIsForeign(t, plan[0]);
      PlanIsForeign(t, plan[1..]);
    }
  }

  lemma {:induction false} PlanSpoils(t: Byte, ss: Sets, plan: seq<Item>, u: Unit)
    requires t == 7 || t == 8
    requires ValidPlan(plan) && NoneCarries(PlanDeliveries(plan), t) && Untouched(SetOf(t, ss), u)
    ensures if forall i :: 0 <= i < |plan| ==> plan[i].Plain?
            then Untouched(SetOf(t, DeliverAll(ss, PlanDeliveries(plan))), u)
            else Spoiled(SetOf(t, DeliverAll(ss, PlanDeliveries(plan))), u, t)
    decreases |plan|
  {
    if plan != [] {
      var a, b := ItemDeliveries(plan[0]), PlanDeliveries(plan[1..]);
      NoneCarriesParts(a, b, t);
      ItemSpoils(t, ss, plan[0], u);
      DeliverAppend(ss, a, b);
      if plan[0].Plain? {
        PlanSpoils(t, DeliverAll(ss, a), plan[1..], u);
        assert forall j :: 0 < j < |plan| ==> plan[j] == plan[1..][j - 1];
      } else {
        PlanIsForeign(t, plan[1..]);
        SpoiledStaysSpoiled(t, DeliverAll(ss, a), b, u);
      }
    }
  }

  /** A fragmented unit begins in a plan exactly where some item is fragmented. */
  lemma {:induction false} BeginsIffFragmented(plan: seq<Item>)
    ensures Quiet(PlanDeliveries(plan)) <==>
            (forall i :: 0 <= i < |plan| ==> plan[i].Plain?)
    decreases |plan|
  {
    if plan != [] {
      var a, b, ds := ItemDeliveries(plan[0]), PlanDeliveries(plan[1..]), PlanDeliveries(plan);
      BeginsIffFragmented(plan[1..]);
      assert ds == a + b;
      assert forall j :: 0 <= j < |b| ==> ds[|a| + j] == b[j];
      assert forall j :: 0 < j < |plan| ==> plan[j] == plan[1..][j - 1];
      assert forall j :: 0 <= j < |plan[1..]| ==> plan[1..][j] == plan[j + 1];
      if plan[0].Plain? {
        DirectsAt(SimpleUnits(plan[0].simple));
      } else {
        assert ds[0].Began?;
      }
    }
  }

  /** A fragmented set stored by an item of a plan, and what the rest of the plan does to it: for
      every behaviour of the allocator it still reads as its type if and only if no fragmented unit
      has begun since. */
  lemma {:induction false} FragmentedSetReadsBack(t: Byte, ss: Sets, plan: seq<Item>, i: nat)
    requires (t == 7 || t == 8) && ValidPlan(plan)
    requires i < |plan| && !plan[i].Plain? && Type(plan[i].unit) == t
    requires NoneCarries(PlanDeliveries(plan[i + 1..]), t)
    ensures var p := SetOf(t, DeliverAll(ss, PlanDeliveries(plan)));
            var since := PlanDeliveries(plan[i + 1..]);
            && p.Stored? && p.bytes == plan[i].unit
            && (StoredType(p) == t <==> Quiet(since)) && (p.over == [] <==> Quiet(since))
  {
    var u, rest := plan[i].unit, plan[i + 1..];
    var a, b, c := PlanDeliveries(plan[..i]), ItemDeliveries(plan[i]), PlanDeliveries(rest);
    PlanSplits(plan, i);
    DeliverAppend(ss, a + b, c);
    DeliverAppend(ss, a, b);
    StoredByItem(t, DeliverAll(ss, a), plan[i]);
    PlanSpoils(t, DeliverAll(ss, a + b), rest, u);
    BeginsIffFragmented(rest);
  }

  lemma {:induction false} PlanSplits(plan: seq<Item>, i: nat)
    requires i < |plan|
    ensures PlanDeliveries(plan) ==
            PlanDeliveries(plan[..i]) + ItemDeliveries(plan[i]) + PlanDeliveries(plan[i + 1..])
  {
    assert plan == plan[..i] + [plan[i]] + plan[i + 1..];
    FlatMapAppend(ItemDeliveries, plan[..i] + [plan[i]], plan[i + 1..]);
    FlatMapAppend(ItemDeliveries, plan[..i], [plan[i]]);
    FlatMapOne(ItemDeliveries, plan[i]);
  }

  lemma {:induction false} StoredByItem(t: Byte, ss: Sets, i: Item)
    requires (t == 7 || t == 8) && ValidItem(i) && !i.Plain? && Type(i.unit) == t
    ensures Untouched(SetOf(t, DeliverAll(ss, ItemDeliveries(i))), i.unit)
  {
    var ds := ItemDeliveries(i);
    var n := |ds| - 1;
    assert ds[n] == Joined(i.unit) && ds[n + 1..] == [];
    DeliverSplit(t, ss, ds, n);
    assert ds[..n + 1] == ds;
  }
}
