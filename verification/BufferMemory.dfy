/**
 The memory behind the fragment buffer of ingest/ftl/deframing.go. The source reassembles units in
 a bytes.Buffer and goes on to read, and to keep, slices of the array behind it, so what a slice
 reads as depends on what has been written to that array since.
 */
module BufferMemory {
  import opened Bytes
  import opened Wrappers
  import opened H264Util
  import opened Depacketizer
  import opened ParserRecursion

  /** The arrays the buffer has used. `buf` and `behind` are the one it uses now: its contents, and
      the rest of that array up to its capacity. `past` are those it has moved away from. How much
      room a new array has to spare is up to the allocator, and `spare` is that input. */
  datatype Memory = Memory(past: seq<seq<Byte>>, buf: seq<Byte>, behind: seq<Byte>, spare: seq<nat>)

  function ArrayAt(mem: Memory, i: nat): seq<Byte> {
    if i < |mem.past| then mem.past[i]
    else if i == |mem.past| then mem.buf + mem.behind
    else []
  }

  /** What a slice reads as. One that is out of range, which does not arise, is empty. */
  function BytesAt(mem: Memory, v: View): (r: seq<Byte>)
    ensures |r| <= Length(v)
  {
    match v
    case Given(bytes) => bytes
    case Cut(i, lo, hi) => if lo <= hi <= |ArrayAt(mem, i)| then ArrayAt(mem, i)[lo..hi] else []
  }

  /** The buffer's contents, as a slice of its array. */
  function Contents(mem: Memory): View {
    Cut(|mem.past|, 0, |mem.buf|)
  }

  function Reset(mem: Memory): Memory {
    mem.(buf := [], behind := mem.buf + mem.behind)
  }

  predicate Fits(mem: Memory, bytes: seq<Byte>) {
    |bytes| <= |mem.behind|
  }

  /** Writing to the buffer: in place when it fits, and else to a new array. */
  function Store(mem: Memory, bytes: seq<Byte>): Memory {
    if Fits(mem, bytes) then mem.(buf := mem.buf + bytes, behind := mem.behind[|bytes|..])
    else if mem.spare == [] then Memory(mem.past + [mem.buf + mem.behind], mem.buf + bytes, [], [])
    else Memory(mem.past + [mem.buf + mem.behind], mem.buf + bytes, seq(mem.spare[0], _ => 0), mem.spare[1..])
  }

  /** The parser as the source keeps it: the parameter sets are slices. `log` is history: whether
      each write of a payload moved the buffer to a new array. */
  datatype Machine = Machine(mem: Memory, sps: Option<View>, pps: Option<View>, log: seq<bool>)

  function Slice(m: Machine, v: View): seq<Byte> {
    BytesAt(m.mem, v)
  }

  /** What a start fragment does first. */
  function Restarted(mem: Memory, packet: seq<Byte>): Memory
    requires 2 <= |packet|
  {
    if IsStart(packet) then Store(Reset(mem), [Splice(packet[0], packet[1])]) else mem
  }

  /** The parser after a fragment, up to the point where it may turn out to be the last one. */
  function Gather(m: Machine, v: View): Machine {
    if |Slice(m, v)| < 2 then m
    else
      var mem1 := Restarted(m.mem, Slice(m, v));
      if mem1.buf == [] then m.(mem := mem1)
      else
        var payload := BytesAt(mem1, From(v, 2));
        m.(mem := Store(mem1, payload), log := m.log + [!Fits(mem1, payload)])
  }

  function BufferSlice(m: Machine): View {
    Contents(m.mem)
  }

  function Discard(m: Machine): Machine {
    m.(mem := Reset(m.mem))
  }

  function TakeUnit(m: Machine, v: View): (Machine, Outcome) {
    var u := Slice(m, v);
    if |u| < 2 then (m, TooShort)
    else if Type(u) == SPS_TYPE then (m.(sps := Some(v)), Packets([]))
    else if Type(u) == PPS_TYPE then (m.(pps := Some(v)), Packets([]))
    else (m, Packets([Packet(0, Type(u) == IDR_TYPE, 0, Avcc(u))]))
  }

  /** A slice that writes behind the buffer's contents do not reach. */
  predicate Steady(mem: Memory, v: View) {
    v.Given? || v.index < |mem.past| || (v.index == |mem.past| && v.hi <= |mem.buf|)
  }

  predicate SteadySlice(m: Machine, v: View) {
    Steady(m.mem, v)
  }

  /** The buffer has only been added to. */
  predicate Extends(mem: Memory, mem1: Memory) {
    && mem.past <= mem1.past && mem.buf <= mem1.buf
    && (|mem.past| < |mem1.past| ==> mem.buf <= mem1.past[|mem.past|])
  }

  predicate OnlyAdded(m: Machine, m1: Machine) {
    Extends(m.mem, m1.mem)
  }

  /** ParseFrame on this memory. */
  function Source(): Ops<Machine> {
    Ops(Slice, Gather, BufferSlice, Discard, TakeUnit, SteadySlice, OnlyAdded)
  }

  // ---------------------------------------------------------------- the laws

  lemma {:induction false} SliceOfSlice(s: seq<Byte>, lo: nat, hi: nat, i: nat, j: nat)
    requires lo <= hi <= |s| && i <= j <= hi - lo
    ensures s[lo..hi][i..j] == s[lo + i..lo + j]
  {
    forall k | 0 <= k < j - i ensures s[lo..hi][i..j][k] == s[lo + i..lo + j][k] {
      assert s[lo..hi][i + k] == s[lo + (i + k)];
    }
  }

  lemma {:induction false} SubSlices(mem: Memory, v: View, i: nat, j: nat)
    requires i <= j <= |BytesAt(mem, v)|
    ensures BytesAt(mem, Range(v, i, j)) == BytesAt(mem, v)[i..j]
    ensures BytesAt(mem, From(v, i)) == BytesAt(mem, v)[i..]
  {
    if v.Cut? && v.lo <= v.hi <= |ArrayAt(mem, v.index)| {
      SliceOfSlice(ArrayAt(mem, v.index), v.lo, v.hi, i, j);
      SliceOfSlice(ArrayAt(mem, v.index), v.lo, v.hi, i, v.hi - v.lo);
    }
  }

  lemma {:induction false} RestartedArray(mem: Memory, packet: seq<Byte>, i: nat)
    requires 2 <= |packet| && IsStart(packet) && 1 <= |ArrayAt(mem, i)|
    ensures |ArrayAt(Restarted(mem, packet), i)| == |ArrayAt(mem, i)|
    ensures ArrayAt(Restarted(mem, packet), i)[1..] == ArrayAt(mem, i)[1..]
  {
    var was := mem.buf + mem.behind;
    var first := [Splice(packet[0], packet[1])];
    if i == |mem.past| {
      assert ArrayAt(Restarted(mem, packet), i) == first + was[1..];
    }
  }

  lemma {:induction false} TailsAlike(a: seq<Byte>, b: seq<Byte>, lo: nat, hi: nat)
    requires |a| == |b| && a != [] && a[1..] == b[1..] && 1 <= lo <= hi <= |a|
    ensures a[lo..hi] == b[lo..hi]
  {
    forall k | lo <= k < hi ensures a[k] == b[k] {
      assert a[k] == a[1..][k - 1] && b[k] == b[1..][k - 1];
    }
  }

  /** The first byte of the unit goes where the payload that follows is not read from. */
  lemma {:induction false} PayloadUntouched(mem: Memory, v: View)
    requires 2 <= |BytesAt(mem, v)|
    ensures BytesAt(Restarted(mem, BytesAt(mem, v)), From(v, 2)) == BytesAt(mem, v)[2..]
  {
    var packet := BytesAt(mem, v);
    if IsStart(packet) && v.Cut? {
      var was, now := ArrayAt(mem, v.index), ArrayAt(Restarted(mem, packet), v.index);
      RestartedArray(mem, packet, v.index);
      TailsAlike(was, now, v.lo + 2, v.hi);
      SliceOfSlice(was, v.lo, v.hi, 2, v.hi - v.lo);
    }
  }

  lemma {:induction false} GatherAccumulates(m: Machine, v: View)
    requires 2 <= |Slice(m, v)|
    ensures Gather(m, v).mem.buf == Accumulated(m.mem.buf, Slice(m, v))
  {
    PayloadUntouched(m.mem, v);
  }

  lemma {:induction false} StoreExtends(mem: Memory, bytes: seq<Byte>)
    ensures Extends(mem, Store(mem, bytes))
  {
  }

  lemma {:induction false} ExtendsKeeps(mem: Memory, mem1: Memory, v: View)
    requires Extends(mem, mem1) && Steady(mem, v)
    ensures Steady(mem1, v) && BytesAt(mem1, v) == BytesAt(mem, v)
  {
    if v.Cut? && v.index == |mem.past| {
      var was, now := ArrayAt(mem, v.index), ArrayAt(mem1, v.index);
      assert mem.buf <= now && mem.buf <= was;
      if v.lo <= v.hi {
        assert was[v.lo..v.hi] == mem.buf[v.lo..v.hi] == now[v.lo..v.hi];
      }
    }
  }

  lemma {:induction false} WholeReads(mem: Memory)
    ensures BytesAt(mem, Contents(mem)) == mem.buf
  {
  }

  lemma {:induction false} LawHolds(m: Machine, v: View)
    ensures LawAt(Source(), m, v)
  {
    WholeReads(m.mem);
    WholeReads(Reset(m.mem));
    if 2 <= |Slice(m, v)| {
      GatherAccumulates(m, v);
      WholeReads(Gather(m, v).mem);
      if !IsStart(Slice(m, v)) && m.mem.buf != [] {
        StoreExtends(m.mem, BytesAt(m.mem, From(v, 2)));
      }
    }
  }

  lemma {:induction false} SliceLawHolds(m: Machine, v: View, i: nat, j: nat)
    ensures SliceLawAt(Source(), m, v, i, j)
  {
    if Slice(m, v) != [] && i <= j <= |Slice(m, v)| {
      SubSlices(m.mem, v, i, j);
    }
  }

  lemma {:induction false} SourceIsLawful()
    ensures Lawful(Source())
  {
    forall m: Machine, v ensures LawAt(Source(), m, v) {
      LawHolds(m, v);
    }
    forall m: Machine, v, i: nat, j: nat ensures SliceLawAt(Source(), m, v, i, j) {
      SliceLawHolds(m, v, i, j);
    }
    forall m: Machine, m1: Machine, v ensures FollowLawAt(Source(), m, m1, v) {
      WholeReads(m.mem);
      WholeReads(m1.mem);
      if OnlyAdded(m, m1) && SteadySlice(m, v) {
        ExtendsKeeps(m.mem, m1.mem, v);
      }
    }
  }

  // ---------------------------------------------------------------- exactly when ParseFrame returns

  /** Every call of ParseFrame, on every packet and in every state of the parser and of its memory:
      it returns if and only if it does not come to reparse a buffer that is a trap. Both show
      within a number of levels that is linear in the packet and the buffer. */
  lemma {:induction false} ReturnsIff(m: Machine, packet: seq<Byte>)
    ensures Lawful(Source())
    ensures var levels := |packet| + |m.mem.buf| + 1;
            var guarded := Call(Source(), true, levels, m, Given(packet));
            && !guarded.Deeper?
            && ((exists depth: nat :: Eval(Source(), depth, m, Given(packet)).Back?) <==> !guarded.Caught?)
            && (!guarded.Caught? ==> Eval(Source(), levels, m, Given(packet)) == guarded)
            && forall depth: nat | Eval(Source(), depth, m, Given(packet)).Back? ::
                 Eval(Source(), depth, m, Given(packet)) == guarded
  {
    SourceIsLawful();
    WholeReads(m.mem);
    assert Levels(Source(), m, Given(packet)) == |packet| + |m.mem.buf| + 1;
    ReturnsIffNotCaught(Source(), m, Given(packet));
  }

  /** A fragment that completes a trap never returns. */
  lemma {:induction false} CompletedTrapSpins(m: Machine, v: View, depth: nat)
    requires 2 <= |Slice(m, v)| && Type(Slice(m, v)) == FU_A && IsEnd(Slice(m, v))
    requires Trap(Accumulated(m.mem.buf, Slice(m, v)))
    ensures Lawful(Source()) && !Eval(Source(), depth, m, v).Back?
  {
    SourceIsLawful();
    GatherAccumulates(m, v);
    if depth != 0 {
      var m1 := Gather(m, v);
      WholeReads(m1.mem);
      TrapHolds(Source(), depth - 1, m1, Contents(m1.mem));
      assert Calls(Source(), false, depth - 1)(m1, Contents(m1.mem)) == Eval(Source(), depth - 1, m1, Contents(m1.mem));
    }
  }

  /** One start-and-end fragment that announces type 28 over a payload byte with only the end bit
      set never returns. */
  lemma {:induction false} SelfContainedFragmentSpins(m: Machine, depth: nat)
    ensures Lawful(Source()) && !Eval(Source(), depth, m, Given([0x7c, 0xdc, 0x5c, 0x00])).Back?
  {
    var packet: seq<Byte> := [0x7c, 0xdc, 0x5c, 0x00];
    assert Accumulated(m.mem.buf, packet) == [0x7c, 0x5c, 0x00];
    CompletedTrapSpins(m, Given(packet), depth);
  }

  /** Nor does one that completes an aggregate of a single fragment with only the end bit set. */
  lemma {:induction false} FragmentedAggregateSpins(m: Machine, depth: nat)
    ensures Lawful(Source()) && !Eval(Source(), depth, m, Given([0x7c, 0xd8, 0x00, 0x02, 0x7c, 0x5c])).Back?
  {
    var packet: seq<Byte> := [0x7c, 0xd8, 0x00, 0x02, 0x7c, 0x5c];
    var buf: seq<Byte> := [0x78, 0x00, 0x02, 0x7c, 0x5c];
    var body: seq<Byte> := [0x00, 0x02, 0x7c, 0x5c];
    assert Accumulated(m.mem.buf, packet) == buf;
    assert buf[1..] == body && body[2..4] == [0x7c, 0x5c];
    assert Walked(body[2..4]).Hit?;
    CompletedTrapSpins(m, Given(packet), depth);
  }

  // ---------------------------------------------------------------- an aggregate that writes over itself

  /** A fragment in the buffer's own array, when there is room. */
  lemma {:induction false} GatherInPlace(m: Machine, v: View)
    requires v.Cut? && v.index == |m.mem.past| && 2 <= |Slice(m, v)|
    requires var buf := Accumulated(m.mem.buf, Slice(m, v));
             2 <= |buf| <= |m.mem.buf + m.mem.behind|
    ensures var buf, mem1 := Accumulated(m.mem.buf, Slice(m, v)), Gather(m, v).mem;
            mem1.past == m.mem.past && mem1.buf == buf && mem1.behind == (m.mem.buf + m.mem.behind)[|buf|..]
  {
    PayloadUntouched(m.mem, v);
    var packet, was := Slice(m, v), m.mem.buf + m.mem.behind;
    var mem1 := Restarted(m.mem, packet);
    if IsStart(packet) {
      assert mem1.behind == was[1..];
      assert was[1..][|packet[2..]|..] == was[1 + |packet[2..]|..];
    } else {
      assert m.mem.behind == was[|m.mem.buf|..];
    }
  }

  /** A unit that spins, with its size. */
  function Sting(): seq<Byte> {
    [0x00, 0x04] + [0x7c, 0xdc, 0x5c, 0x00]
  }

  /** An aggregate of one fragment that neither starts nor ends a unit. */
  function InnerAggregate(): (r: seq<Byte>)
    ensures |r| == 15
  {
    [0x78, 0x00, 0x0c, 0x7c, 0x01] + ([0x00, 0x00, 0x00, 0x00] + Sting())
  }

  /** An aggregate whose first unit completes the inner one; the second is harmless. */
  function OuterAggregate(): (r: seq<Byte>)
    ensures |r| == 25
  {
    [0x78, 0x00, 0x10] + ([0x7c, 0xd8] + InnerAggregate()[1..]) + [0x00, 0x04, 0x41, 0x00, 0x00, 0x00]
  }

  /** The fragment that completes the outer aggregate. */
  function Overwriting(): seq<Byte> {
    [0x7c, 0xd8] + OuterAggregate()[1..]
  }

  lemma {:induction false} Parts(a: seq<Byte>, b: seq<Byte>, c: seq<Byte>)
    ensures (a + b + c)[|a|..|a| + |b|] == b && (a + b + c)[|a| + |b|..] == c
  {
  }

  /** The first unit of the outer aggregate puts the inner one at the front of the array. */
  lemma {:induction false} InnerIsGathered(m: Machine)
    requires m.mem.buf == OuterAggregate()
    ensures var v := Cut(|m.mem.past|, 3, 19);
            && Slice(m, v) == [0x7c, 0xd8] + InnerAggregate()[1..]
            && Gather(m, v).mem.past == m.mem.past && Gather(m, v).mem.buf == InnerAggregate()
            && |Gather(m, v).mem.behind| == 10 + |m.mem.behind|
  {
    var v := Cut(|m.mem.past|, 3, 19);
    var unit := [0x7c, 0xd8] + InnerAggregate()[1..];
    Parts([0x78, 0x00, 0x10], unit, [0x00, 0x04, 0x41, 0x00, 0x00, 0x00] + m.mem.behind);
    assert OuterAggregate() + m.mem.behind ==
           [0x78, 0x00, 0x10] + unit + ([0x00, 0x04, 0x41, 0x00, 0x00, 0x00] + m.mem.behind);
    assert unit[2..] == InnerAggregate()[1..];
    assert Accumulated(m.mem.buf, unit) == [0x78] + InnerAggregate()[1..] == InnerAggregate();
    GatherInPlace(m, v);
  }

  /** Its fragment is added behind it, over what the outer loop is still to read. */
  lemma {:induction false} OuterIsOverwritten(m: Machine)
    requires m.mem.buf == InnerAggregate() && 10 <= |m.mem.behind|
    ensures var v := Cut(|m.mem.past|, 3, 15);
            && Slice(m, v) == [0x7c, 0x01] + ([0x00, 0x00, 0x00, 0x00] + Sting())
            && Gather(m, v).mem.past == m.mem.past
            && Gather(m, v).mem.buf == InnerAggregate() + [0x00, 0x00, 0x00, 0x00] + Sting()
  {
    var v := Cut(|m.mem.past|, 3, 15);
    var payload: seq<Byte> := [0x00, 0x00, 0x00, 0x00] + Sting();
    var unit := [0x7c, 0x01] + payload;
    Parts([0x78, 0x00, 0x0c], unit, m.mem.behind);
    assert InnerAggregate() + m.mem.behind == [0x78, 0x00, 0x0c] + unit + m.mem.behind;
    assert unit[2..] == payload;
    assert Accumulated(m.mem.buf, unit) == InnerAggregate() + payload;
    GatherInPlace(m, v);
    assert InnerAggregate() + payload == InnerAggregate() + [0x00, 0x00, 0x00, 0x00] + Sting();
  }

  lemma {:induction false} StingIsRead(m: Machine)
    requires m.mem.buf == InnerAggregate() + [0x00, 0x00, 0x00, 0x00] + Sting()
    ensures var c := |m.mem.past|;
            && Slice(m, Cut(c, 15, 15)) == []
            && Slice(Discard(m), Cut(c, 19, 25)) == Sting()
            && Slice(Discard(m), Cut(c, 21, 25)) == [0x7c, 0xdc, 0x5c, 0x00]
  {
    var front := InnerAggregate() + [0x00, 0x00, 0x00, 0x00];
    Parts(front, Sting(), m.mem.behind);
    Parts(front + [0x00, 0x04], [0x7c, 0xdc, 0x5c, 0x00], m.mem.behind);
    assert m.mem.buf + m.mem.behind == front + Sting() + m.mem.behind;
    assert m.mem.buf + m.mem.behind == (front + [0x00, 0x04]) + [0x7c, 0xdc, 0x5c, 0x00] + m.mem.behind;
    assert ArrayAt(Discard(m).mem, |m.mem.past|) == m.mem.buf + m.mem.behind;
  }

  /** What reading the first unit of the outer aggregate leaves of the second. */
  lemma {:induction false} FirstUnitStings(m: Machine, depth: nat)
    requires Lawful(Source()) && m.mem.buf == OuterAggregate()
    ensures var run, c := Eval(Source(), depth, m, Cut(|m.mem.past|, 3, 19)), |m.mem.past|;
            run.Back? ==>
              && run.outcome.Packets?
              && Slice(run.state, Cut(c, 19, 25)) == Sting()
              && Slice(run.state, Cut(c, 21, 25)) == [0x7c, 0xdc, 0x5c, 0x00]
  {
    var c := |m.mem.past|;
    InnerIsGathered(m);
    var m1 := Gather(m, Cut(c, 3, 19));
    InnerReparses(m);
    InnerBody(m1);
    InnerOnlyAdds(m1);
    StingIsRead(Gather(m1, Cut(c, 3, 15)));
    if Eval(Source(), depth, m, Cut(c, 3, 19)).Back? {
      AddsBehindItself(Source(), depth, m, Cut(c, 3, 19), 12);
    }
  }

  lemma {:induction false} InnerReparses(m: Machine)
    requires m.mem.buf == OuterAggregate()
    ensures Reparses(Source(), m, Cut(|m.mem.past|, 3, 19))
    ensures var m1 := Gather(m, Cut(|m.mem.past|, 3, 19));
            IsAggregate(Source(), m1, Contents(m1.mem))
  {
    InnerIsGathered(m);
    WholeReads(Gather(m, Cut(|m.mem.past|, 3, 19)).mem);
  }

  lemma {:induction false} InnerOnlyAdds(m: Machine)
    requires m.mem.buf == InnerAggregate() && 10 <= |m.mem.behind|
    ensures var v := Cut(|m.mem.past|, 3, 15);
            && 2 <= |Slice(m, v)| && Type(Slice(m, v)) == FU_A && !IsEnd(Slice(m, v))
            && Gather(m, v).mem.past == m.mem.past
            && Gather(m, v).mem.buf == InnerAggregate() + [0x00, 0x00, 0x00, 0x00] + Sting()
  {
    OuterIsOverwritten(m);
  }

  lemma {:induction false} InnerBody(m: Machine)
    requires m.mem.buf == InnerAggregate()
    ensures HasUnitOfSize(Source(), m, Cut(|m.mem.past|, 1, 15), 12)
  {
    assert (m.mem.buf + m.mem.behind)[1..15] == InnerAggregate()[1..];
  }

  lemma {:induction false} OuterBody(m: Machine)
    requires m.mem.buf == OuterAggregate()
    ensures HasUnitOfSize(Source(), m, Cut(|m.mem.past|, 1, 25), 16)
  {
    assert (m.mem.buf + m.mem.behind)[1..25] == OuterAggregate()[1..];
  }

  lemma {:induction false} StingSpins(m: Machine, v: View, depth: nat)
    requires Slice(m, v) == [0x7c, 0xdc, 0x5c, 0x00]
    ensures Lawful(Source()) && !Eval(Source(), depth, m, v).Back?
  {
    assert Accumulated(m.mem.buf, Slice(m, v)) == [0x7c, 0x5c, 0x00];
    CompletedTrapSpins(m, v, depth);
  }

  lemma {:induction false} OuterStops(m: Machine, depth: nat)
    requires Lawful(Source()) && m.mem.buf == OuterAggregate()
    ensures StopsAtSecond(Source(), depth, m, Cut(|m.mem.past|, 1, 25), 16, 4)
  {
    var c := |m.mem.past|;
    var run := Eval(Source(), depth, m, Cut(c, 3, 19));
    FirstUnitStings(m, depth);
    if run.Back? {
      StingSpins(run.state, Cut(c, 21, 25), depth);
    }
  }

  /** The packet, byte for byte. */
  lemma {:induction false} OverwritingIs()
    ensures Overwriting() ==
            [0x7c, 0xd8] + [0x00, 0x10] + ([0x7c, 0xd8] + [0x00, 0x0c] + ([0x7c, 0x01] + [0x00, 0x00, 0x00, 0x00] +
            ([0x00, 0x04] + [0x7c, 0xdc, 0x5c, 0x00]))) + [0x00, 0x04] + [0x41, 0x00, 0x00, 0x00]
  {
    assert InnerAggregate()[1..] == [0x00, 0x0c] + ([0x7c, 0x01] + [0x00, 0x00, 0x00, 0x00] + Sting());
    assert OuterAggregate()[1..] ==
           [0x00, 0x10] + ([0x7c, 0xd8] + InnerAggregate()[1..]) + [0x00, 0x04] + [0x41, 0x00, 0x00, 0x00];
  }

  lemma {:induction false} OuterIsGathered(m: Machine)
    ensures var v := Given(Overwriting());
            && Gather(m, v).mem.buf == OuterAggregate()
            && Reparses(Source(), m, v)
            && IsAggregate(Source(), Gather(m, v), Contents(Gather(m, v).mem))
  {
    var packet := Overwriting();
    GatherAccumulates(m, Given(packet));
    assert packet[2..] == OuterAggregate()[1..];
    assert Accumulated(m.mem.buf, packet) == [0x78] + OuterAggregate()[1..] == OuterAggregate();
    WholeReads(Gather(m, Given(packet)).mem);
  }

  /** This packet never returns, though it would if the outer aggregate were read as it was when it
      was completed. */
  lemma {:induction false} OverwritingAggregateSpins(m: Machine, depth: nat)
    ensures Lawful(Source()) && !Eval(Source(), depth, m, Given(Overwriting())).Back?
  {
    SourceIsLawful();
    var v := Given(Overwriting());
    OuterIsGathered(m);
    var m1 := Gather(m, v);
    OuterBody(m1);
    if 2 < depth {
      OuterStops(m1, depth - 2);
    }
    SecondUnitSpins(Source(), depth, m, v, 16, 4);
  }
}
