/**
 The stored parameter sets as slices (ingest/ftl/deframing.go:64-69). `Depacketizer` says of a set
 what was stored, whether the buffer still uses its array, and what was written over its first
 byte; here that is what the slices read as.
 */
module StoredSlices {
  import opened Bytes
  import opened Wrappers
  import opened H264Util
  import opened Depacketizer
  import opened Packetizer
  import opened ParameterSets
  import opened ParserRecursion
  import opened BufferMemory

  // ---------------------------------------------------------------- sets stay

  predicate KeepsSets(m: Machine, m1: Machine) {
    (m.sps.Some? ==> m1.sps.Some?) && (m.pps.Some? ==> m1.pps.Some?)
  }

  /** A parameter set once stored is never lost again, only replaced, in any call that returns. */
  lemma {:induction false} EvalKeepsSets(depth: nat, m: Machine, v: View)
    ensures Lawful(Source())
    ensures Eval(Source(), depth, m, v).Back? ==> KeepsSets(m, Eval(Source(), depth, m, v).state)
  {
    SourceIsLawful();
    if Eval(Source(), depth, m, v).Back? {
      EvalKeeps(Source(), KeepsSets, depth, m, v);
    }
  }

  // ---------------------------------------------------------------- what a slice reads as

  /** A slice the buffer does not write to any more. */
  predicate Old(mem: Memory, v: View) {
    v.Given? || v.index < |mem.past|
  }

  /** The slice is what the state machine says of the set: it reads as what was stored as long as
      nothing was written over it, and else begins with what was written last. */
  predicate Mirrors(mem: Memory, v: Option<View>, p: ParamSet) {
    match p
    case Absent => v.None?
    case Stored(bytes, shared, over) =>
      && v.Some? && 2 <= |bytes| && |BytesAt(mem, v.value)| == |bytes|
      && (over == [] ==> BytesAt(mem, v.value) == bytes)
      && (over != [] ==> BytesAt(mem, v.value)[0] == over[|over| - 1])
      && (if shared then v.value == Cut(|mem.past|, 0, |bytes|) && (over == [] ==> mem.buf == [])
          else Old(mem, v.value))
  }

  predicate Mirror(m: Machine, st: ParserState) {
    st.fbuf == m.mem.buf && Mirrors(m.mem, m.sps, st.sets.sps) && Mirrors(m.mem, m.pps, st.sets.pps)
  }

  /** A parser that has seen nothing. */
  lemma {:induction false} FreshMirrors(spare: seq<nat>, moves: seq<bool>)
    ensures Mirror(Machine(Memory([], [], [], spare), None, None, []), ParserState(Sets(Absent, Absent, moves), []))
  {
  }

  lemma {:induction false} RestartMirrors(mem: Memory, v: Option<View>, p: ParamSet, first: Byte)
    requires Mirrors(mem, v, p)
    ensures Mirrors(Store(Reset(mem), [first]), v, Clobber(p, first))
  {
    if p.Stored? && p.shared {
      var was := mem.buf + mem.behind;
      var mem1 := Store(Reset(mem), [first]);
      assert mem1.buf + mem1.behind == [first] + was[1..];
      assert (p.over + [first])[|p.over|] == first;
    }
  }

  lemma {:induction false} StoreMirrors(mem: Memory, v: Option<View>, p: ParamSet, bytes: seq<Byte>)
    requires Mirrors(mem, v, p) && mem.buf != []
    ensures Mirrors(Store(mem, bytes), v, if Fits(mem, bytes) then p else Detach(p))
  {
    if p.Stored? && p.shared {
      var was, mem1 := mem.buf + mem.behind, Store(mem, bytes);
      var now := ArrayAt(mem1, |mem.past|);
      assert |now| == |was| && now[0] == mem.buf[0] == was[0];
    }
  }

  lemma {:induction false} ResetMirrors(mem: Memory, v: Option<View>, p: ParamSet)
    requires Mirrors(mem, v, p)
    ensures Mirrors(Reset(mem), v, p)
  {
    assert Reset(mem).buf + Reset(mem).behind == mem.buf + mem.behind;
  }

  lemma {:induction false} StoredMirrors(mem: Memory, v: View)
    requires 2 <= |BytesAt(mem, v)| && (v.Given? || v == Contents(mem))
    ensures Mirrors(Reset(mem), Some(v), Stored(BytesAt(mem, v), v.Cut?, []))
    ensures v.Given? ==> Mirrors(mem, Some(v), Stored(BytesAt(mem, v), false, []))
  {
    assert Reset(mem).buf + Reset(mem).behind == mem.buf + mem.behind;
  }

  // ---------------------------------------------------------------- one call

  /** The state with these moves to come. */
  function WithMoves(st: ParserState, moves: seq<bool>): ParserState {
    st.(sets := st.sets.(moves := moves))
  }

  /** The moves the buffer made on the way from one machine to the other. */
  function MovesMade(m: Machine, m1: Machine): seq<bool> {
    if |m.log| <= |m1.log| then m1.log[|m.log|..] else []
  }

  predicate LogGrows(m: Machine, m1: Machine) {
    m.log <= m1.log
  }

  type Likeness = (Machine, ParserState) -> bool

  /** A run of the machine comes to what the state machine comes to. */
  predicate Reaches(like: Likeness, run: Run<Machine>, parsed: (ParserState, Outcome), rest: seq<bool>) {
    run.Back? && run.outcome == parsed.1 && like(run.state, parsed.0) && parsed.0.sets.moves == rest
  }

  /** Where a call comes back, it does what the state machine does with the moves the buffer made. */
  ghost predicate Refines(like: Likeness, one: (Machine, View) -> Run<Machine>, m: Machine, packet: seq<Byte>,
                          st: ParserState, rest: seq<bool>) {
    var run := one(m, Given(packet));
    like(m, st) && !Parse(st, packet, false).1.Nested? && run.Back? ==>
      && LogGrows(m, run.state)
      && Reaches(like, run, Parse(WithMoves(st, MovesMade(m, run.state) + rest), packet, false), rest)
  }

  /** A fragment's first byte, if it starts a unit. */
  function Clobbered(ss: Sets, packet: seq<Byte>): Sets
    requires 2 <= |packet|
  {
    if IsStart(packet) then ClobberBoth(ss, Splice(packet[0], packet[1])) else ss
  }

  lemma {:induction false} RestartedMirrors(m: Machine, packet: seq<Byte>, st: ParserState)
    requires 2 <= |packet| && Mirror(m, st)
    ensures var mem1, ss := Restarted(m.mem, packet), Clobbered(st.sets, packet);
            Mirrors(mem1, m.sps, ss.sps) && Mirrors(mem1, m.pps, ss.pps)
  {
    if IsStart(packet) {
      RestartMirrors(m.mem, m.sps, st.sets.sps, Splice(packet[0], packet[1]));
      RestartMirrors(m.mem, m.pps, st.sets.pps, Splice(packet[0], packet[1]));
    }
  }

  lemma {:induction false} AccumulateSets(st: ParserState, packet: seq<Byte>, moved: bool, rest: seq<bool>)
    requires 2 <= |packet| && (IsStart(packet) || st.fbuf != [])
    ensures var ss, ss1 := Clobbered(st.sets, packet), Accumulate(WithMoves(st, [moved] + rest), packet).sets;
            && ss1.sps == (if moved then Detach(ss.sps) else ss.sps)
            && ss1.pps == (if moved then Detach(ss.pps) else ss.pps)
            && ss1.moves == rest
  {
    assert ([moved] + rest)[1..] == rest;
  }

  lemma {:induction false} GatherMirrors(m: Machine, packet: seq<Byte>, st: ParserState, rest: seq<bool>)
    requires 2 <= |packet| && Mirror(m, st)
    ensures var m1 := Gather(m, Given(packet));
            var st1 := Accumulate(WithMoves(st, MovesMade(m, m1) + rest), packet);
            LogGrows(m, m1) && Mirror(m1, st1) && st1.sets.moves == rest
  {
    var m1 := Gather(m, Given(packet));
    var mem1, ss, payload := Restarted(m.mem, packet), Clobbered(st.sets, packet), packet[2..];
    GatherAccumulates(m, Given(packet));
    if mem1.buf != [] {
      RestartedMirrors(m, packet, st);
      StoreMirrors(mem1, m.sps, ss.sps, payload);
      StoreMirrors(mem1, m.pps, ss.pps, payload);
      assert MovesMade(m, m1) == [!Fits(mem1, payload)];
      AccumulateSets(st, packet, !Fits(mem1, payload), rest);
    } else {
      assert MovesMade(m, m1) == [] && [] + rest == rest;
    }
  }

  /** A reassembled unit that is plain: what is stored is the buffer itself. */
  lemma {:induction false} LeafInBufferMirrors(m: Machine, st: ParserState)
    requires Mirror(m, st) && !Composite(m.mem.buf) && 2 <= |m.mem.buf|
    ensures var (m1, r) := TakeUnit(m, Contents(m.mem));
            var (st1, r') := ParseUnit(st, m.mem.buf, true);
            r == r' && Mirror(Discard(m1), st1.(fbuf := []))
  {
    WholeReads(m.mem);
    StoredMirrors(m.mem, Contents(m.mem));
    ResetMirrors(m.mem, m.sps, st.sets.sps);
    ResetMirrors(m.mem, m.pps, st.sets.pps);
  }

  lemma {:induction false} LeafMirrors(m: Machine, packet: seq<Byte>, st: ParserState)
    requires Mirror(m, st) && 2 <= |packet|
    ensures var (m1, r) := TakeUnit(m, Given(packet));
            var (st1, r') := ParseUnit(st, packet, false);
            r == r' && Mirror(m1, st1)
  {
    StoredMirrors(m.mem, Given(packet));
  }

  /** A fragment that completes a plain unit. */
  lemma {:induction false} CompletionMirrors(depth: nat, m: Machine, st: ParserState)
    requires Lawful(Source()) && Mirror(m, st) && !Composite(m.mem.buf) && 0 < depth
    ensures var run := Emptied(Source(), Eval(Source(), depth, m, Contents(m.mem)));
            var (st1, r) := Parse(st, st.fbuf, true);
            run.Back? && run.outcome == r && Mirror(run.state, st1.(fbuf := [])) && run.state.log == m.log
  {
    WholeReads(m.mem);
    if |m.mem.buf| < 2 {
      ResetMirrors(m.mem, m.sps, st.sets.sps);
      ResetMirrors(m.mem, m.pps, st.sets.pps);
    } else {
      LeafInBufferMirrors(m, st);
    }
  }

  lemma {:induction false} EvalOfFragment(depth: nat, m: Machine, packet: seq<Byte>)
    requires Lawful(Source()) && 2 <= |packet| && Type(packet) == 28 && 0 < depth
    ensures var m1 := Gather(m, Given(packet));
            Eval(Source(), depth, m, Given(packet)) ==
            if IsEnd(packet) && m1.mem.buf != [] then Emptied(Source(), Eval(Source(), depth - 1, m1, Contents(m1.mem)))
            else Back(m1, Packets([]))
  {
    WholeReads(Gather(m, Given(packet)).mem);
  }

  lemma {:induction false} FragmentRefines(depth: nat, m: Machine, packet: seq<Byte>, st: ParserState, rest: seq<bool>)
    requires Lawful(Source()) && 2 <= |packet| && Type(packet) == 28 && 0 < depth
    requires Mirror(m, st) && !Parse(st, packet, false).1.Nested? && Eval(Source(), depth, m, Given(packet)).Back?
    ensures var run := Eval(Source(), depth, m, Given(packet));
            && LogGrows(m, run.state)
            && Reaches(Mirror, run, Parse(WithMoves(st, MovesMade(m, run.state) + rest), packet, false), rest)
  {
    var m1 := Gather(m, Given(packet));
    EvalOfFragment(depth, m, packet);
    GatherMirrors(m, packet, st, rest);
    var st0 := WithMoves(st, MovesMade(m, m1) + rest);
    SetsDoNotShow(st, st0, packet, false);
    if IsEnd(packet) && m1.mem.buf != [] {
      PlainCompletion(st0, packet);
      CompletionMirrors(depth - 1, m1, Accumulate(st0, packet));
    }
  }

  lemma {:induction false} PlainCompletion(st: ParserState, packet: seq<Byte>)
    requires 2 <= |packet| && Type(packet) == 28 && Completes(st, packet) && !Parse(st, packet, false).1.Nested?
    ensures var st1 := Accumulate(st, packet);
            && !Composite(st1.fbuf) && Parse(st1, st1.fbuf, true).0.sets.moves == st1.sets.moves
            && Parse(st, packet, false) ==
               (Parse(st1, st1.fbuf, true).0.(fbuf := []), Parse(st1, st1.fbuf, true).1)
  {
  }

  ghost predicate IgnoresMoves(like: Likeness) {
    forall m, st, moves :: like(m, st) ==> like(m, WithMoves(st, moves))
  }

  lemma {:induction false} LoopRefines(like: Likeness, one: (Machine, View) -> Run<Machine>, m: Machine,
                                       body: seq<Byte>, st: ParserState, rest: seq<bool>)
    requires Sized(Slice) && IgnoresMoves(like) && like(m, st)
    requires forall m, p, st, rest | |p| < |body| :: Refines(like, one, m, p, st, rest)
    requires !ParseUnits(st, body, false).1.Nested? && Loop(Slice, one, m, Given(body)).Back?
    ensures var run := Loop(Slice, one, m, Given(body));
            && LogGrows(m, run.state)
            && Reaches(like, run, ParseUnits(WithMoves(st, MovesMade(m, run.state) + rest), body, false), rest)
    decreases |body|
  {
    if !HasUnit(body) {
      assert [] + rest == rest;
    } else {
      var size := U16(body[0], body[1]);
      var unit, tail := body[2..2 + size], body[2 + size..];
      var run := one(m, Given(unit));
      var m1 := run.state;
      UnitIsNotNested(st, st, body, size);
      if !run.outcome.Packets? {
        assert Refines(like, one, m, unit, st, rest);
      } else {
        var run2 := Loop(Slice, one, m1, Given(tail));
        assert Loop(Slice, one, m, Given(body)) == After(run.outcome.packets, run2);
        var later := MovesMade(m1, run2.state);
        var st0 := WithMoves(st, MovesMade(m, m1) + (later + rest));
        assert Refines(like, one, m, unit, st, later + rest);
        UnitIsNotNested(st, st0, body, size);
        var st1 := Parse(st0, unit, false).0;
        assert WithMoves(st1, later + rest) == st1;
        LoopRefines(like, one, m1, tail, st1, rest);
        MovesAddUp(m, m1, run2.state, rest);
        UnitThenRest(like, st0, body, size, run, run2, rest);
      }
    }
  }

  lemma {:induction false} MovesAddUp(m: Machine, m1: Machine, m2: Machine, rest: seq<bool>)
    requires LogGrows(m, m1) && LogGrows(m1, m2)
    ensures LogGrows(m, m2) && MovesMade(m, m2) + rest == MovesMade(m, m1) + (MovesMade(m1, m2) + rest)
  {
  }

  /** A unit and then the rest of an aggregate. */
  lemma {:induction false} UnitThenRest(like: Likeness, st: ParserState, body: seq<Byte>, size: nat,
                                        run: Run<Machine>, run2: Run<Machine>, rest: seq<bool>)
    requires HasUnit(body) && size == U16(body[0], body[1]) && run.Back? && run.outcome.Packets?
    requires Parse(st, body[2..2 + size], false).1 == run.outcome
    requires Reaches(like, run2, ParseUnits(Parse(st, body[2..2 + size], false).0, body[2 + size..], false), rest)
    ensures Reaches(like, After(run.outcome.packets, run2), ParseUnits(st, body, false), rest)
  {
  }

  lemma {:induction false} UnitIsNotNested(st: ParserState, st0: ParserState, body: seq<Byte>, size: nat)
    requires st.fbuf == st0.fbuf && HasUnit(body) && size == U16(body[0], body[1])
    requires !ParseUnits(st, body, false).1.Nested?
    ensures !Parse(st, body[2..2 + size], false).1.Nested?
    ensures Parse(st0, body[2..2 + size], false).1.Packets? ==>
              !ParseUnits(Parse(st0, body[2..2 + size], false).0, body[2 + size..], false).1.Nested?
  {
    SetsDoNotShowInUnits(st, st0, body, false);
  }

  lemma {:induction false} CallRefines(depth: nat, m: Machine, packet: seq<Byte>, st: ParserState, rest: seq<bool>)
    requires Lawful(Source())
    ensures Refines(Mirror, Calls(Source(), false, depth), m, packet, st, rest)
    decreases depth
  {
    var run := Eval(Source(), depth, m, Given(packet));
    if Mirror(m, st) && !Parse(st, packet, false).1.Nested? && run.Back? {
      if 2 <= |packet| && Type(packet) == 28 {
        FragmentRefines(depth, m, packet, st, rest);
      } else if 2 <= |packet| && Type(packet) == 24 {
        var one := Calls(Source(), false, depth - 1);
        forall m, p, st, rest | |p| < |packet[1..]| ensures Refines(Mirror, one, m, p, st, rest) {
          CallRefines(depth - 1, m, p, st, rest);
        }
        assert run == Loop(Slice, one, m, Given(packet[1..]));
        assert IgnoresMoves(Mirror);
        LoopRefines(Mirror, one, m, packet[1..], st, rest);
      } else {
        PlainRefines(depth, m, packet, st, rest);
      }
    }
  }

  lemma {:induction false} PlainRefines(depth: nat, m: Machine, packet: seq<Byte>, st: ParserState, rest: seq<bool>)
    requires Lawful(Source()) && !Composite(packet) && 0 < depth && Mirror(m, st)
    ensures var run := Eval(Source(), depth, m, Given(packet));
            && run.Back? && LogGrows(m, run.state)
            && Reaches(Mirror, run, Parse(WithMoves(st, MovesMade(m, run.state) + rest), packet, false), rest)
  {
    assert [] + rest == rest;
    if 2 <= |packet| {
      LeafMirrors(m, packet, WithMoves(st, rest));
    }
  }

  // ---------------------------------------------------------------- a whole stream

  /** The machine after these packets, as long as calls return. */
  function Played(m: Machine, packets: seq<seq<Byte>>): Machine
    requires Sized(Slice)
    decreases |packets|
  {
    if packets == [] then m
    else
      var run := Eval(Source(), |packets[0]| + 2, m, Given(packets[0]));
      if run.Back? then Played(run.state, packets[1..]) else m
  }

  lemma {:induction false} FeedIgnoresSets(a: ParserState, b: ParserState, packets: seq<seq<Byte>>)
    requires a.fbuf == b.fbuf
    ensures Feed(a, packets).1.Packets? == Feed(b, packets).1.Packets?
    decreases |packets|
  {
    if packets != [] {
      SetsDoNotShow(a, b, packets[0], false);
      FeedIgnoresSets(Parse(a, packets[0], false).0, Parse(b, packets[0], false).0, packets[1..]);
    }
  }

  lemma {:induction false} FirstCallRefines(m: Machine, packet: seq<Byte>, st: ParserState, rest: seq<bool>)
    requires Lawful(Source()) && Mirror(m, st) && !Parse(st, packet, false).1.Nested?
    ensures var run := Eval(Source(), |packet| + 2, m, Given(packet));
            && run.Back? && LogGrows(m, run.state)
            && Reaches(Mirror, run, Parse(WithMoves(st, MovesMade(m, run.state) + rest), packet, false), rest)
  {
    WholeReads(m.mem);
    EvalIsParse(Source(), |packet| + 2, m, packet, st);
    CallRefines(|packet| + 2, m, packet, st, rest);
    assert Calls(Source(), false, |packet| + 2)(m, Given(packet)) == Eval(Source(), |packet| + 2, m, Given(packet));
  }

  /** Over any stream without errors the slices stay what the state machine says of the sets. */
  lemma {:induction false} PlayedMirrors(m: Machine, packets: seq<seq<Byte>>, st: ParserState, rest: seq<bool>)
    requires Lawful(Source()) && Mirror(m, st) && Feed(st, packets).1.Packets?
    ensures var m1 := Played(m, packets);
            LogGrows(m, m1) && Mirror(m1, Feed(WithMoves(st, MovesMade(m, m1) + rest), packets).0)
    decreases |packets|
  {
    if packets != [] {
      var packet, after := packets[0], packets[1..];
      FirstCallRefines(m, packet, st, rest);
      var m1 := Eval(Source(), |packet| + 2, m, Given(packet)).state;
      var later := MovesMade(m1, Played(m1, after));
      FirstCallRefines(m, packet, st, later + rest);
      var st0 := WithMoves(st, MovesMade(m, m1) + (later + rest));
      var st1 := Parse(st0, packet, false).0;
      FeedIgnoresSets(st, st0, packets);
      assert WithMoves(st1, later + rest) == st1;
      PlayedMirrors(m1, after, st1, rest);
      MovesAddUp(m, m1, Played(m1, after), rest);
    }
  }

  // ---------------------------------------------------------------- what the stored slices read as

  function SliceOf(t: Byte, m: Machine): Option<View>
    requires t == 7 || t == 8
  {
    if t == 7 then m.sps else m.pps
  }

  /** The parser's slice of this type, after these packets, reads as `u`. */
  predicate ReadsAs(t: Byte, m: Machine, u: Unit)
    requires t == 7 || t == 8
  {
    SliceOf(t, m).Some? && Slice(m, SliceOf(t, m).value) == u
  }

  /** The sets after a plan, with the moves the buffer made. */
  lemma {:induction false} PlanPlayed(t: Byte, m: Machine, st: ParserState, plan: seq<Item>) returns (ss: Sets)
    requires (t == 7 || t == 8) && Mirror(m, st) && ValidPlan(plan)
    ensures Lawful(Source()) && AllValid(PlanSents(plan))
    ensures var m1 := Played(m, BytesOf(PlanSents(plan)));
            Mirrors(m1.mem, SliceOf(t, m1), SetOf(t, DeliverAll(ss, PlanDeliveries(plan))))
  {
    SourceIsLawful();
    Depacketise(st, plan);
    var packets := BytesOf(PlanSents(plan));
    PlayedMirrors(m, packets, st, []);
    var st0 := WithMoves(st, MovesMade(m, Played(m, packets)) + []);
    Depacketise(st0, plan);
    ss := st0.sets;
  }

  /** Byte for byte: after any plan, a parameter set that came in fragments reads as it was sent if
      and only if no fragmented unit has begun since, whatever the allocator did. */
  lemma {:induction false} FragmentedSliceReadsBack(t: Byte, m: Machine, st: ParserState, plan: seq<Item>, i: nat)
    requires (t == 7 || t == 8) && Mirror(m, st) && ValidPlan(plan)
    requires i < |plan| && !plan[i].Plain? && Type(plan[i].unit) == t
    requires NoneCarries(PlanDeliveries(plan[i + 1..]), t)
    ensures Lawful(Source()) && AllValid(PlanSents(plan))
    ensures ReadsAs(t, Played(m, BytesOf(PlanSents(plan))), plan[i].unit) <==> Quiet(PlanDeliveries(plan[i + 1..]))
  {
    var ss := PlanPlayed(t, m, st, plan);
    FragmentedSetReadsBack(t, ss, plan, i);
  }

  /** One that came on its own always does. */
  lemma {:induction false} LoneSliceReadsBack(t: Byte, m: Machine, st: ParserState, plan: seq<Item>, k: nat)
    requires (t == 7 || t == 8) && Mirror(m, st) && ValidPlan(plan)
    requires k < |PlanDeliveries(plan)| && PlanDeliveries(plan)[k].Direct? && Carries(PlanDeliveries(plan)[k], t)
    requires NoneCarries(PlanDeliveries(plan)[k + 1..], t)
    ensures Lawful(Source()) && AllValid(PlanSents(plan))
    ensures ReadsAs(t, Played(m, BytesOf(PlanSents(plan))), PlanDeliveries(plan)[k].unit)
  {
    var ss := PlanPlayed(t, m, st, plan);
    LastSetIsKept(t, ss, PlanDeliveries(plan), k);
  }
}
