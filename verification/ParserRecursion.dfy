/**
 When ParseFrame returns. The source reparses a reassembled unit by calling itself on its own
 fragment buffer, whatever type the FU header gave that unit, and while it reads an aggregate
 there, the fragments in it write to the very array being read. `Eval` is that recursion on
 slices, over any memory they may be slices of; `BufferMemory` has the one of the source.
 */
module ParserRecursion {
  import opened Bytes
  import opened Wrappers
  import opened H264Util
  import opened Depacketizer

  // ---------------------------------------------------------------- slices

  /** A slice: of a datagram, which nobody writes to, or of some array, from `lo` up to `hi`. */
  datatype View = Given(bytes: seq<Byte>) | Cut(index: nat, lo: nat, hi: nat)

  function Length(v: View): nat {
    match v
    case Given(bytes) => |bytes|
    case Cut(_, lo, hi) => if lo <= hi then hi - lo else 0
  }

  /** The slice `v[i..]`. */
  function From(v: View, i: nat): View {
    match v
    case Given(bytes) => Given(if i <= |bytes| then bytes[i..] else [])
    case Cut(index, lo, hi) => Cut(index, lo + i, hi)
  }

  /** The slice `v[i..j]`. */
  function Range(v: View, i: nat, j: nat): View {
    match v
    case Given(bytes) => Given(if i <= j <= |bytes| then bytes[i..j] else [])
    case Cut(index, lo, _) => Cut(index, lo + i, lo + j)
  }

  // ---------------------------------------------------------------- the recursion

  /** What a parser can do to its state: read a slice, add a fragment to the buffer, take the
      buffer's contents as a slice, empty it, and take in a plain unit. `steady` and `follows`
      say which slices read the same in which later states. */
  datatype Ops<!S> = Ops(bytes: (S, View) -> seq<Byte>,
                         gather: (S, View) -> S,
                         whole: S -> View,
                         reset: S -> S,
                         leaf: (S, View) -> (S, Outcome),
                         steady: (S, View) -> bool,
                         follows: (S, S) -> bool)

  /** How a call ends: it comes back, it needs more levels of recursion than it was allowed, or
      it was caught about to reparse a trap. */
  datatype Run<S> = Back(state: S, outcome: Outcome) | Deeper | Caught

  function Buffer<S>(ops: Ops<S>, s: S): seq<Byte> {
    ops.bytes(s, ops.whole(s))
  }

  ghost predicate Sized<S(!new)>(bytes: (S, View) -> seq<Byte>) {
    forall s, v :: |bytes(s, v)| <= Length(v)
  }

  /** The aggregation loop over `one`, which parses one unit; what is left of the slice is read
      again after every unit. */
  function Loop<S(!new)>(bytes: (S, View) -> seq<Byte>, one: (S, View) -> Run<S>, s: S, v: View): Run<S>
    requires Sized(bytes)
    decreases Length(v)
  {
    var body := bytes(s, v);
    if !HasUnit(body) then Back(s, Packets([]))
    else
      var size := U16(body[0], body[1]);
      match one(s, Range(v, 2, 2 + size))
      case Deeper => Deeper
      case Caught => Caught
      case Back(s1, r) =>
        if !r.Packets? then Back(s1, r) else After(r.packets, Loop(bytes, one, s1, From(v, 2 + size)))
  }

  function After<S>(before: seq<Packet>, run: Run<S>): Run<S> {
    if run.Back? && run.outcome.Packets? then run.(outcome := Packets(before + run.outcome.packets)) else run
  }

  function Emptied<S>(ops: Ops<S>, run: Run<S>): Run<S> {
    if run.Back? then run.(state := ops.reset(run.state)) else run
  }

  /** One call of ParseFrame that may recurse `depth` levels. With `guard` it stops before it
      reparses a trap; without, it does what the source does. */
  function Call<S(!new)>(ops: Ops<S>, guard: bool, depth: nat, s: S, v: View): Run<S>
    requires Sized(ops.bytes)
    decreases depth, 0
  {
    var packet := ops.bytes(s, v);
    if depth == 0 then Deeper
    else if |packet| < 2 then Back(s, TooShort)
    else if Type(packet) == FU_A then
      var s1 := ops.gather(s, v);
      if !IsEnd(packet) || Buffer(ops, s1) == [] then Back(s1, Packets([]))
      else if guard && Trap(Buffer(ops, s1)) then Caught
      else Emptied(ops, Call(ops, guard, depth - 1, s1, ops.whole(s1)))
    else if Type(packet) == STAP_A then Loop(ops.bytes, Calls(ops, guard, depth - 1), s, From(v, 1))
    else
      var (s1, r) := ops.leaf(s, v);
      Back(s1, r)
  }

  function Calls<S(!new)>(ops: Ops<S>, guard: bool, depth: nat): (S, View) -> Run<S>
    requires Sized(ops.bytes)
    decreases depth, 1
  {
    (s, v) => Call(ops, guard, depth, s, v)
  }

  /** The parser of the source. */
  function Eval<S(!new)>(ops: Ops<S>, depth: nat, s: S, v: View): Run<S>
    requires Sized(ops.bytes)
  {
    Call(ops, false, depth, s, v)
  }

  // ---------------------------------------------------------------- traps

  /** Reading the buffer without writing to its beginning: it hits a fragment with its end bit set
      and its start bit clear, gets out by a start fragment or an error, or goes through. */
  datatype Walk = Hit | Out | Through

  function Walked(packet: seq<Byte>): Walk
    decreases |packet|
  {
    if |packet| < 2 then Out
    else if Type(packet) == 24 then WalkedUnits(packet[1..])
    else if Type(packet) != 28 then Through
    else if IsStart(packet) then Out
    else if IsEnd(packet) then Hit
    else Through
  }

  function WalkedUnits(body: seq<Byte>): Walk
    decreases |body|
  {
    if !HasUnit(body) then Through
    else
      var size := U16(body[0], body[1]);
      var first := Walked(body[2..2 + size]);
      if first.Through? then WalkedUnits(body[2 + size..]) else first
  }

  /** A buffer that adds to itself and is read again from its beginning, for ever. */
  predicate Trap(buf: seq<Byte>) {
    Walked(buf).Hit?
  }

  lemma {:induction false} LongerHitsToo(body: seq<Byte>, more: seq<Byte>)
    requires WalkedUnits(body).Hit?
    ensures WalkedUnits(body + more).Hit?
    decreases |body|
  {
    var size := U16(body[0], body[1]);
    var longer := body + more;
    assert longer[2..2 + size] == body[2..2 + size];
    assert longer[2 + size..] == body[2 + size..] + more;
    if Walked(body[2..2 + size]).Through? {
      LongerHitsToo(body[2 + size..], more);
    }
  }

  lemma {:induction false} LongerTrap(buf: seq<Byte>, longer: seq<Byte>)
    requires Trap(buf) && buf <= longer
    ensures Trap(longer)
  {
    if Type(buf) == STAP_A {
      var more := longer[|buf|..];
      assert longer[1..] == buf[1..] + more;
      LongerHitsToo(buf[1..], more);
    }
  }

  // ---------------------------------------------------------------- what is asked of the memory

  /** The buffer after one fragment; a start fragment discards what it held. */
  function Accumulated(buf: seq<Byte>, packet: seq<Byte>): seq<Byte>
    requires 2 <= |packet|
  {
    if IsStart(packet) then [Splice(packet[0], packet[1])] + packet[2..]
    else if buf != [] then buf + packet[2..]
    else []
  }

  ghost predicate LawAt<S>(ops: Ops<S>, s: S, v: View) {
    var packet, buf := ops.bytes(s, v), Buffer(ops, s);
    && (v.Given? ==> packet == v.bytes)
    && Length(ops.whole(s)) == |buf| && Buffer(ops, ops.reset(s)) == []
    && ops.steady(s, ops.whole(s)) && ops.follows(s, s)
    && (2 <= |packet| ==>
          && Buffer(ops, ops.gather(s, v)) == Accumulated(buf, packet)
          && (!IsStart(packet) ==> ops.follows(s, ops.gather(s, v)))
          && Buffer(ops, ops.leaf(s, v).0) == buf && ops.follows(s, ops.leaf(s, v).0)
          && ops.leaf(s, v).1 == ParseUnit(ParserState(Sets(Absent, Absent, []), []), packet, false).1)
  }

  ghost predicate SliceLawAt<S>(ops: Ops<S>, s: S, v: View, i: nat, j: nat) {
    ops.bytes(s, v) != [] && i <= j <= |ops.bytes(s, v)| ==>
      && ops.bytes(s, Range(v, i, j)) == ops.bytes(s, v)[i..j]
      && ops.bytes(s, From(v, i)) == ops.bytes(s, v)[i..]
      && (ops.steady(s, v) ==> ops.steady(s, Range(v, i, j)) && ops.steady(s, From(v, i)))
  }

  /** In a state that follows, the buffer has only been added to, and a steady slice reads as before. */
  ghost predicate FollowLawAt<S>(ops: Ops<S>, s: S, s1: S, v: View) {
    ops.follows(s, s1) ==>
      && Buffer(ops, s) <= Buffer(ops, s1)
      && (ops.steady(s, v) ==> ops.steady(s1, v) && ops.bytes(s1, v) == ops.bytes(s, v))
  }

  ghost predicate Transitive<S>(ops: Ops<S>, s: S, s1: S, s2: S) {
    ops.follows(s, s1) && ops.follows(s1, s2) ==> ops.follows(s, s2)
  }

  ghost predicate Lawful<S(!new)>(ops: Ops<S>) {
    && Sized(ops.bytes)
    && (forall s, v :: LawAt(ops, s, v))
    && (forall s, v, i: nat, j: nat :: SliceLawAt(ops, s, v, i, j))
    && (forall s, s1, v :: FollowLawAt(ops, s, s1, v))
    && (forall s, s1, s2 :: Transitive(ops, s, s1, s2))
  }

  // ---------------------------------------------------------------- more levels change nothing

  /** Where one call comes back, the other does the same. */
  ghost predicate Agrees<S(!new)>(one: (S, View) -> Run<S>, other: (S, View) -> Run<S>) {
    forall s, v :: one(s, v).Back? ==> other(s, v) == one(s, v)
  }

  lemma {:induction false} LoopAgrees<S(!new)>(bytes: (S, View) -> seq<Byte>, one: (S, View) -> Run<S>,
                                               other: (S, View) -> Run<S>, s: S, v: View)
    requires Sized(bytes) && Agrees(one, other) && Loop(bytes, one, s, v).Back?
    ensures Loop(bytes, other, s, v) == Loop(bytes, one, s, v)
    decreases Length(v)
  {
    var body := bytes(s, v);
    if HasUnit(body) {
      var size := U16(body[0], body[1]);
      var run := one(s, Range(v, 2, 2 + size));
      if run.outcome.Packets? {
        LoopAgrees(bytes, one, other, run.state, From(v, 2 + size));
      }
    }
  }

  /** A call that came back comes back the same with more levels, and without the guard. */
  lemma {:induction false} CallAgrees<S(!new)>(ops: Ops<S>, guard: bool, depth: nat, guard': bool, depth': nat,
                                               s: S, v: View)
    requires Sized(ops.bytes) && depth <= depth' && (guard' ==> guard) && Call(ops, guard, depth, s, v).Back?
    ensures Call(ops, guard', depth', s, v) == Call(ops, guard, depth, s, v)
    decreases depth
  {
    var packet := ops.bytes(s, v);
    if Composite(packet) {
      if Type(packet) == STAP_A {
        var one, other := Calls(ops, guard, depth - 1), Calls(ops, guard', depth' - 1);
        forall s, v | one(s, v).Back? ensures other(s, v) == one(s, v) {
          CallAgrees(ops, guard, depth - 1, guard', depth' - 1, s, v);
        }
        LoopAgrees(ops.bytes, one, other, s, From(v, 1));
      } else {
        var s1 := ops.gather(s, v);
        if IsEnd(packet) && Buffer(ops, s1) != [] {
          CallAgrees(ops, guard, depth - 1, guard', depth' - 1, s1, ops.whole(s1));
        }
      }
    }
  }

  // ---------------------------------------------------------------- going through the buffer

  ghost predicate GoesThrough<S(!new)>(ops: Ops<S>, one: (S, View) -> Run<S>, s: S, v: View) {
    ops.steady(s, v) && Buffer(ops, s) != [] && Walked(ops.bytes(s, v)).Through? && one(s, v).Back? ==>
      one(s, v).outcome.Packets? && ops.follows(s, one(s, v).state)
  }

  lemma {:induction false} LoopGoesThrough<S(!new)>(ops: Ops<S>, one: (S, View) -> Run<S>, s: S, v: View)
    requires Lawful(ops) && (forall s, v :: GoesThrough(ops, one, s, v))
    requires ops.steady(s, v) && Buffer(ops, s) != [] && WalkedUnits(ops.bytes(s, v)).Through?
    requires Loop(ops.bytes, one, s, v).Back?
    ensures Loop(ops.bytes, one, s, v).outcome.Packets? && ops.follows(s, Loop(ops.bytes, one, s, v).state)
    decreases Length(v)
  {
    var body := ops.bytes(s, v);
    assert LawAt(ops, s, v);
    if HasUnit(body) {
      var size := U16(body[0], body[1]);
      var unit, rest := Range(v, 2, 2 + size), From(v, 2 + size);
      NextUnit(ops, s, v, size);
      assert GoesThrough(ops, one, s, unit);
      var s1 := one(s, unit).state;
      assert FollowLawAt(ops, s, s1, rest);
      LoopGoesThrough(ops, one, s1, rest);
      assert Transitive(ops, s, s1, Loop(ops.bytes, one, s1, rest).state);
    }
  }

  /** The first unit of a slice and what is left of it. */
  lemma {:induction false} NextUnit<S(!new)>(ops: Ops<S>, s: S, v: View, size: nat)
    requires Lawful(ops) && 2 + size <= |ops.bytes(s, v)|
    ensures var unit, rest := Range(v, 2, 2 + size), From(v, 2 + size);
            && ops.bytes(s, unit) == ops.bytes(s, v)[2..2 + size] && ops.bytes(s, rest) == ops.bytes(s, v)[2 + size..]
            && (ops.steady(s, v) ==> ops.steady(s, unit) && ops.steady(s, rest))
            && Length(unit) == size && Length(rest) == Length(v) - 2 - size
  {
    assert SliceLawAt(ops, s, v, 2, 2 + size) && SliceLawAt(ops, s, v, 2 + size, 2 + size);
    assert |ops.bytes(s, v)| <= Length(v);
  }

  /** What is behind the header of a slice. */
  lemma {:induction false} BehindHeader<S(!new)>(ops: Ops<S>, s: S, v: View)
    requires Lawful(ops) && 1 <= |ops.bytes(s, v)|
    ensures ops.bytes(s, From(v, 1)) == ops.bytes(s, v)[1..] && Length(From(v, 1)) == Length(v) - 1
    ensures ops.steady(s, v) ==> ops.steady(s, From(v, 1))
  {
    assert SliceLawAt(ops, s, v, 1, 1);
    assert |ops.bytes(s, v)| <= Length(v);
  }

  lemma {:induction false} CallGoesThrough<S(!new)>(ops: Ops<S>, guard: bool, depth: nat, s: S, v: View)
    requires Lawful(ops)
    ensures GoesThrough(ops, Calls(ops, guard, depth), s, v)
    decreases depth
  {
    var packet := ops.bytes(s, v);
    assert LawAt(ops, s, v);
    if depth != 0 && ops.steady(s, v) && Composite(packet) && Type(packet) == STAP_A {
      BehindHeader(ops, s, v);
      var one := Calls(ops, guard, depth - 1);
      forall s, v ensures GoesThrough(ops, one, s, v) {
        CallGoesThrough(ops, guard, depth - 1, s, v);
      }
      if Buffer(ops, s) != [] && Walked(packet).Through? && Loop(ops.bytes, one, s, From(v, 1)).Back? {
        LoopGoesThrough(ops, one, s, From(v, 1));
      }
    }
  }

  // ---------------------------------------------------------------- a trap is never left

  ghost predicate Holds<S(!new)>(ops: Ops<S>, one: (S, View) -> Run<S>, s: S, v: View) {
    ops.steady(s, v) && Trap(Buffer(ops, s)) && Walked(ops.bytes(s, v)).Hit? ==> !one(s, v).Back?
  }

  lemma {:induction false} LoopHolds<S(!new)>(ops: Ops<S>, one: (S, View) -> Run<S>, s: S, v: View)
    requires Lawful(ops) && (forall s, v :: GoesThrough(ops, one, s, v)) && (forall s, v :: Holds(ops, one, s, v))
    requires ops.steady(s, v) && Trap(Buffer(ops, s)) && WalkedUnits(ops.bytes(s, v)).Hit?
    ensures !Loop(ops.bytes, one, s, v).Back?
    decreases Length(v)
  {
    var body := ops.bytes(s, v);
    var size := U16(body[0], body[1]);
    var unit, rest := Range(v, 2, 2 + size), From(v, 2 + size);
    NextUnit(ops, s, v, size);
    assert GoesThrough(ops, one, s, unit) && Holds(ops, one, s, unit);
    if one(s, unit).Back? {
      var s1 := one(s, unit).state;
      assert FollowLawAt(ops, s, s1, rest);
      LongerTrap(Buffer(ops, s), Buffer(ops, s1));
      LoopHolds(ops, one, s1, rest);
    }
  }

  lemma {:induction false} TrapHolds<S(!new)>(ops: Ops<S>, depth: nat, s: S, v: View)
    requires Lawful(ops)
    ensures Holds(ops, Calls(ops, false, depth), s, v)
    decreases depth
  {
    var packet := ops.bytes(s, v);
    if depth != 0 && ops.steady(s, v) && Trap(Buffer(ops, s)) && Walked(packet).Hit? {
      if Type(packet) == STAP_A {
        BehindHeader(ops, s, v);
        var one := Calls(ops, false, depth - 1);
        forall s, v ensures GoesThrough(ops, one, s, v) && Holds(ops, one, s, v) {
          CallGoesThrough(ops, false, depth - 1, s, v);
          TrapHolds(ops, depth - 1, s, v);
        }
        LoopHolds(ops, one, s, From(v, 1));
      } else {
        var s1 := ops.gather(s, v);
        assert LawAt(ops, s, v) && LawAt(ops, s1, ops.whole(s1));
        LongerTrap(Buffer(ops, s), Buffer(ops, s1));
        TrapHolds(ops, depth - 1, s1, ops.whole(s1));
      }
    }
  }

  // ---------------------------------------------------------------- what is caught never returns

  /** Where both come back they agree, and what is caught does not come back. */
  ghost predicate Refutes<S(!new)>(one: (S, View) -> Run<S>, other: (S, View) -> Run<S>, s: S, v: View) {
    && (one(s, v).Back? && other(s, v).Back? ==> other(s, v) == one(s, v))
    && (one(s, v).Caught? ==> !other(s, v).Back?)
  }

  lemma {:induction false} LoopRefutes<S(!new)>(bytes: (S, View) -> seq<Byte>, one: (S, View) -> Run<S>,
                                                other: (S, View) -> Run<S>, s: S, v: View)
    requires Sized(bytes) && (forall s, v :: Refutes(one, other, s, v)) && Loop(bytes, one, s, v).Caught?
    ensures !Loop(bytes, other, s, v).Back?
    decreases Length(v)
  {
    var body := bytes(s, v);
    var size := U16(body[0], body[1]);
    var unit := Range(v, 2, 2 + size);
    assert Refutes(one, other, s, unit);
    if one(s, unit).Back? && other(s, unit).Back? {
      LoopRefutes(bytes, one, other, one(s, unit).state, From(v, 2 + size));
    }
  }

  lemma {:induction false} CaughtNeverReturns<S(!new)>(ops: Ops<S>, depth: nat, depth': nat, s: S, v: View)
    requires Lawful(ops)
    ensures Refutes(Calls(ops, true, depth), Calls(ops, false, depth'), s, v)
    decreases depth', 1
  {
    var guarded, free := Call(ops, true, depth, s, v), Call(ops, false, depth', s, v);
    if guarded.Back? && free.Back? {
      var most := if depth < depth' then depth' else depth;
      CallAgrees(ops, true, depth, false, most, s, v);
      CallAgrees(ops, false, depth', false, most, s, v);
    } else if guarded.Caught? && depth' != 0 {
      CaughtSpins(ops, depth, depth', s, v);
    }
  }

  lemma {:induction false} CaughtSpins<S(!new)>(ops: Ops<S>, depth: nat, depth': nat, s: S, v: View)
    requires Lawful(ops) && Call(ops, true, depth, s, v).Caught? && depth' != 0
    ensures !Call(ops, false, depth', s, v).Back?
    decreases depth', 0
  {
    var packet := ops.bytes(s, v);
    if Type(packet) == STAP_A {
      var one, other := Calls(ops, true, depth - 1), Calls(ops, false, depth' - 1);
      forall s, v ensures Refutes(one, other, s, v) {
        CaughtNeverReturns(ops, depth - 1, depth' - 1, s, v);
      }
      LoopRefutes(ops.bytes, one, other, s, From(v, 1));
    } else {
      var s1 := ops.gather(s, v);
      if Trap(Buffer(ops, s1)) {
        assert LawAt(ops, s1, ops.whole(s1));
        TrapHolds(ops, depth' - 1, s1, ops.whole(s1));
      } else {
        CaughtNeverReturns(ops, depth - 1, depth' - 1, s1, ops.whole(s1));
      }
    }
  }

  // ---------------------------------------------------------------- how deep a call can get

  /** Reading a slice that need not lie in the buffer, with `levels` to go. */
  ghost predicate Ends<S(!new)>(ops: Ops<S>, one: (S, View) -> Run<S>, levels: nat, s: S, v: View) {
    Length(v) + |Buffer(ops, s)| < levels ==>
      && !one(s, v).Deeper?
      && (one(s, v).Back? ==> |Buffer(ops, one(s, v).state)| <= Length(v) + |Buffer(ops, s)|)
  }

  /** Reading a slice of a buffer that is no trap. */
  ghost predicate EndsInside<S(!new)>(ops: Ops<S>, one: (S, View) -> Run<S>, levels: nat, s: S, v: View) {
    ops.steady(s, v) && Buffer(ops, s) != [] && !Walked(ops.bytes(s, v)).Hit? && Length(v) < levels ==>
      && !one(s, v).Deeper?
      && (one(s, v).Back? && one(s, v).outcome.Packets? && Walked(ops.bytes(s, v)).Out? ==>
            |Buffer(ops, one(s, v).state)| <= Length(v))
  }

  ghost predicate AllEnd<S(!new)>(ops: Ops<S>, one: (S, View) -> Run<S>, levels: nat) {
    && (forall s, v :: GoesThrough(ops, one, s, v))
    && (forall s, v :: Ends(ops, one, levels, s, v))
    && (forall s, v :: EndsInside(ops, one, levels, s, v))
  }

  lemma {:induction false} LoopEnds<S(!new)>(ops: Ops<S>, one: (S, View) -> Run<S>, levels: nat, s: S, v: View)
    requires Lawful(ops) && AllEnd(ops, one, levels) && Length(v) + |Buffer(ops, s)| < levels
    ensures var run := Loop(ops.bytes, one, s, v);
            !run.Deeper? && (run.Back? ==> |Buffer(ops, run.state)| <= Length(v) + |Buffer(ops, s)|)
    decreases Length(v)
  {
    var body := ops.bytes(s, v);
    if HasUnit(body) {
      var size := U16(body[0], body[1]);
      var unit, rest := Range(v, 2, 2 + size), From(v, 2 + size);
      NextUnit(ops, s, v, size);
      assert Ends(ops, one, levels, s, unit);
      if one(s, unit).Back? {
        LoopEnds(ops, one, levels, one(s, unit).state, rest);
      }
    }
  }

  lemma {:induction false} LoopEndsInside<S(!new)>(ops: Ops<S>, one: (S, View) -> Run<S>, levels: nat, s: S, v: View)
    requires Lawful(ops) && AllEnd(ops, one, levels) && Length(v) < levels
    requires ops.steady(s, v) && Buffer(ops, s) != [] && !WalkedUnits(ops.bytes(s, v)).Hit?
    ensures var run := Loop(ops.bytes, one, s, v);
            && !run.Deeper?
            && (run.Back? && run.outcome.Packets? && WalkedUnits(ops.bytes(s, v)).Out? ==>
                  |Buffer(ops, run.state)| <= Length(v))
    decreases Length(v)
  {
    var body := ops.bytes(s, v);
    if HasUnit(body) {
      var size := U16(body[0], body[1]);
      var unit, rest := Range(v, 2, 2 + size), From(v, 2 + size);
      NextUnit(ops, s, v, size);
      assert EndsInside(ops, one, levels, s, unit) && GoesThrough(ops, one, s, unit);
      var run := one(s, unit);
      if run.Back? && run.outcome.Packets? {
        if Walked(ops.bytes(s, unit)).Through? {
          assert FollowLawAt(ops, s, run.state, rest);
          LoopEndsInside(ops, one, levels, run.state, rest);
        } else {
          LoopEnds(ops, one, levels, run.state, rest);
        }
      }
    }
  }

  lemma {:induction false} CallsEnd<S(!new)>(ops: Ops<S>, depth: nat)
    requires Lawful(ops)
    ensures AllEnd(ops, Calls(ops, true, depth), depth)
    decreases depth, 1
  {
    forall s, v
      ensures GoesThrough(ops, Calls(ops, true, depth), s, v)
      ensures Ends(ops, Calls(ops, true, depth), depth, s, v)
      ensures EndsInside(ops, Calls(ops, true, depth), depth, s, v)
    {
      CallGoesThrough(ops, true, depth, s, v);
      if depth != 0 {
        CallEnds(ops, depth, s, v);
      }
    }
  }

  lemma {:induction false} CallEnds<S(!new)>(ops: Ops<S>, depth: nat, s: S, v: View)
    requires Lawful(ops) && depth != 0
    ensures Ends(ops, Calls(ops, true, depth), depth, s, v)
    ensures EndsInside(ops, Calls(ops, true, depth), depth, s, v)
    decreases depth, 0
  {
    var packet := ops.bytes(s, v);
    var one := Calls(ops, true, depth - 1);
    assert LawAt(ops, s, v) && |packet| <= Length(v);
    CallsEnd(ops, depth - 1);
    if Composite(packet) {
      if Type(packet) == STAP_A {
        AggregateEnds(ops, one, depth - 1, s, v);
      } else {
        FragmentEnds(ops, depth, s, v);
      }
    }
  }

  lemma {:induction false} FragmentEnds<S(!new)>(ops: Ops<S>, depth: nat, s: S, v: View)
    requires Lawful(ops) && depth != 0 && AllEnd(ops, Calls(ops, true, depth - 1), depth - 1)
    requires 2 <= |ops.bytes(s, v)| && Type(ops.bytes(s, v)) == FU_A
    ensures Ends(ops, Calls(ops, true, depth), depth, s, v)
    ensures EndsInside(ops, Calls(ops, true, depth), depth, s, v)
  {
    var packet, s1 := ops.bytes(s, v), ops.gather(s, v);
    var one, buf := Calls(ops, true, depth - 1), Buffer(ops, s1);
    assert LawAt(ops, s, v) && LawAt(ops, s1, ops.whole(s1)) && |packet| <= Length(v);
    if IsEnd(packet) && buf != [] && !Trap(buf) {
      assert EndsInside(ops, one, depth - 1, s1, ops.whole(s1));
      var run := one(s1, ops.whole(s1));
      assert Calls(ops, true, depth)(s, v) == Emptied(ops, run);
      if run.Back? {
        assert LawAt(ops, run.state, v);
      }
    }
  }

  lemma {:induction false} AggregateEnds<S(!new)>(ops: Ops<S>, one: (S, View) -> Run<S>, levels: nat, s: S, v: View)
    requires Lawful(ops) && AllEnd(ops, one, levels) && 2 <= |ops.bytes(s, v)|
    ensures var run, walk := Loop(ops.bytes, one, s, From(v, 1)), WalkedUnits(ops.bytes(s, v)[1..]);
            && (Length(v) + |Buffer(ops, s)| < levels + 1 ==>
                  !run.Deeper? && (run.Back? ==> |Buffer(ops, run.state)| <= Length(v) + |Buffer(ops, s)|))
            && (ops.steady(s, v) && Buffer(ops, s) != [] && !walk.Hit? && Length(v) < levels + 1 ==>
                  && !run.Deeper?
                  && (run.Back? && run.outcome.Packets? && walk.Out? ==> |Buffer(ops, run.state)| <= Length(v)))
  {
    BehindHeader(ops, s, v);
    if Length(v) + |Buffer(ops, s)| < levels + 1 {
      LoopEnds(ops, one, levels, s, From(v, 1));
    }
    if ops.steady(s, v) && Buffer(ops, s) != [] && !WalkedUnits(ops.bytes(s, v)[1..]).Hit? && Length(v) < levels + 1 {
      LoopEndsInside(ops, one, levels, s, From(v, 1));
    }
  }

  // ---------------------------------------------------------------- exactly when a call returns

  /** As many levels as a call on this slice can need if it returns at all. */
  function Levels<S>(ops: Ops<S>, s: S, v: View): nat {
    Length(v) + |Buffer(ops, s)| + 1
  }

  /** Every call in every state: followed for a number of levels that is linear in the packet and
      the buffer, it has come back or was caught about to reparse a trap. It returns if and only if
      it was not caught, and then it does the same at every depth it returns at. */
  lemma {:induction false} ReturnsIffNotCaught<S(!new)>(ops: Ops<S>, s: S, v: View)
    requires Lawful(ops)
    ensures var guarded := Call(ops, true, Levels(ops, s, v), s, v);
            && !guarded.Deeper?
            && ((exists depth: nat :: Eval(ops, depth, s, v).Back?) <==> guarded.Back?)
            && (guarded.Back? ==> Eval(ops, Levels(ops, s, v), s, v) == guarded)
            && forall depth: nat | Eval(ops, depth, s, v).Back? :: Eval(ops, depth, s, v) == guarded
  {
    var levels := Levels(ops, s, v);
    var guarded := Call(ops, true, levels, s, v);
    CallsEnd(ops, levels);
    assert Ends(ops, Calls(ops, true, levels), levels, s, v);
    forall depth: nat | Eval(ops, depth, s, v).Back? ensures Eval(ops, depth, s, v) == guarded {
      CaughtNeverReturns(ops, levels, depth, s, v);
      assert Calls(ops, false, depth)(s, v) == Eval(ops, depth, s, v) && Calls(ops, true, levels)(s, v) == guarded;
    }
    if guarded.Back? {
      CallAgrees(ops, true, levels, false, levels, s, v);
      assert Eval(ops, levels, s, v).Back?;
    }
  }

  // ---------------------------------------------------------------- the conforming case

  /** A call on a datagram does what the state machine on values does. */
  ghost predicate ParsesAs<S(!new)>(ops: Ops<S>, one: (S, View) -> Run<S>, s: S, packet: seq<Byte>, st: ParserState) {
    st.fbuf == Buffer(ops, s) && !Parse(st, packet, false).1.Nested? ==>
      var run, parsed := one(s, Given(packet)), Parse(st, packet, false);
      run.Back? && run.outcome == parsed.1 && Buffer(ops, run.state) == parsed.0.fbuf
  }

  lemma {:induction false} LoopParses<S(!new)>(ops: Ops<S>, one: (S, View) -> Run<S>, s: S, body: seq<Byte>,
                                               st: ParserState)
    requires Lawful(ops) && st.fbuf == Buffer(ops, s) && !ParseUnits(st, body, false).1.Nested?
    requires forall s, p, st | |p| < |body| :: ParsesAs(ops, one, s, p, st)
    ensures var run, parsed := Loop(ops.bytes, one, s, Given(body)), ParseUnits(st, body, false);
            run.Back? && run.outcome == parsed.1 && Buffer(ops, run.state) == parsed.0.fbuf
    decreases |body|
  {
    assert LawAt(ops, s, Given(body));
    if HasUnit(body) {
      var size := U16(body[0], body[1]);
      var unit, tail := body[2..2 + size], body[2 + size..];
      assert ParsesAs(ops, one, s, unit, st);
      FirstUnitParsed(st, body, size);
      var run, parsed := one(s, Given(unit)), Parse(st, unit, false);
      if parsed.1.Packets? {
        LoopParses(ops, one, run.state, tail, parsed.0);
        assert Loop(ops.bytes, one, s, Given(body)) ==
               After(parsed.1.packets, Loop(ops.bytes, one, run.state, Given(tail)));
      }
    }
  }

  lemma {:induction false} FirstUnitParsed(st: ParserState, body: seq<Byte>, size: nat)
    requires HasUnit(body) && size == U16(body[0], body[1]) && !ParseUnits(st, body, false).1.Nested?
    ensures var (st1, r) := Parse(st, body[2..2 + size], false);
            && !r.Nested?
            && (!r.Packets? ==> ParseUnits(st, body, false) == (st1, r))
            && (r.Packets? ==>
                  && !ParseUnits(st1, body[2 + size..], false).1.Nested?
                  && ParseUnits(st, body, false) == Prefixed(r.packets, ParseUnits(st1, body[2 + size..], false)))
  {
  }

  /** Outside the Nested outcome, `Parse` is what the source computes, at a depth linear in the
      packet: aggregation recurses into shorter units and reassembly into a leaf case. */
  lemma {:induction false} EvalIsParse<S(!new)>(ops: Ops<S>, depth: nat, s: S, packet: seq<Byte>, st: ParserState)
    requires Lawful(ops) && |packet| + 2 <= depth && st.fbuf == Buffer(ops, s) && !Parse(st, packet, false).1.Nested?
    ensures var run, parsed := Eval(ops, depth, s, Given(packet)), Parse(st, packet, false);
            run.Back? && run.outcome == parsed.1 && Buffer(ops, run.state) == parsed.0.fbuf
    decreases |packet|
  {
    var v := Given(packet);
    assert LawAt(ops, s, v);
    if Composite(packet) {
      if Type(packet) == STAP_A {
        var one := Calls(ops, false, depth - 1);
        forall s, p, st | |p| < |packet[1..]| ensures ParsesAs(ops, one, s, p, st) {
          if st.fbuf == Buffer(ops, s) && !Parse(st, p, false).1.Nested? {
            EvalIsParse(ops, depth - 1, s, p, st);
          }
        }
        LoopParses(ops, one, s, packet[1..], st);
      } else {
        CompletedIsParse(ops, depth, s, packet, st);
      }
    }
  }

  lemma {:induction false} CompletedIsParse<S(!new)>(ops: Ops<S>, depth: nat, s: S, packet: seq<Byte>, st: ParserState)
    requires Lawful(ops) && 4 <= depth && st.fbuf == Buffer(ops, s) && !Parse(st, packet, false).1.Nested?
    requires 2 <= |packet| && Type(packet) == FU_A
    ensures var run, parsed := Eval(ops, depth, s, Given(packet)), Parse(st, packet, false);
            run.Back? && run.outcome == parsed.1 && Buffer(ops, run.state) == parsed.0.fbuf
  {
    assert LawAt(ops, s, Given(packet));
    var s1, st1 := ops.gather(s, Given(packet)), Accumulate(st, packet);
    assert st1.fbuf == Accumulated(Buffer(ops, s), packet) == Buffer(ops, s1);
    if Completes(st, packet) {
      var whole := ops.whole(s1);
      assert LawAt(ops, s1, whole);
      var run := Eval(ops, depth - 1, s1, whole);
      assert run.Back? && run.outcome == Parse(st1, st1.fbuf, true).1;
      assert LawAt(ops, run.state, whole);
    }
  }

  /** A packet as section 5.8 of RFC 6184 allows it: no FU header announces a fragmented
      aggregate or a fragmented fragment, here or in any unit aggregated here. */
  predicate Conforming(packet: seq<Byte>)
    decreases |packet|, 1
  {
    2 <= |packet| ==>
      && (Type(packet) == 28 && IsStart(packet) ==>
            Low5(packet[1]) != 24 && Low5(packet[1]) != 28)
      && (Type(packet) == 24 ==> ConformingUnits(packet[1..]))
  }

  predicate ConformingUnits(body: seq<Byte>)
    decreases |body|, 0
  {
    HasUnit(body) ==>
      var size := U16(body[0], body[1]);
      Conforming(body[2..2 + size]) && ConformingUnits(body[2 + size..])
  }

  lemma {:induction false} ConformingNeverNests(st: ParserState, packet: seq<Byte>, inBuffer: bool)
    requires PlainBuffer(st.fbuf) && Conforming(packet)
    ensures !Parse(st, packet, inBuffer).1.Nested?
    ensures PlainBuffer(Parse(st, packet, inBuffer).0.fbuf)
    decreases |packet|, 1
  {
    if 2 <= |packet| && Type(packet) == STAP_A {
      ConformingUnitsNeverNest(st, packet[1..], inBuffer);
    }
  }

  lemma {:induction false} ConformingUnitsNeverNest(st: ParserState, body: seq<Byte>, inBuffer: bool)
    requires PlainBuffer(st.fbuf) && ConformingUnits(body)
    ensures !ParseUnits(st, body, inBuffer).1.Nested?
    ensures PlainBuffer(ParseUnits(st, body, inBuffer).0.fbuf)
    decreases |body|, 0
  {
    if HasUnit(body) {
      var size := U16(body[0], body[1]);
      ConformingNeverNests(st, body[2..2 + size], inBuffer);
      var (st1, r) := Parse(st, body[2..2 + size], inBuffer);
      if r.Packets? {
        ConformingUnitsNeverNest(st1, body[2 + size..], inBuffer);
      }
    }
  }

  /** Termination: on conforming input every call returns, and leaves the buffer so that the
      next conforming call returns as well. */
  lemma {:induction false} ConformingReturns<S(!new)>(ops: Ops<S>, s: S, packet: seq<Byte>)
    requires Lawful(ops) && PlainBuffer(Buffer(ops, s)) && Conforming(packet)
    ensures var run := Eval(ops, |packet| + 2, s, Given(packet));
            run.Back? && PlainBuffer(Buffer(ops, run.state))
  {
    var st := ParserState(Sets(Absent, Absent, []), Buffer(ops, s));
    ConformingNeverNests(st, packet, false);
    EvalIsParse(ops, |packet| + 2, s, packet, st);
  }

  // ---------------------------------------------------------------- what every call keeps

  ghost predicate Preorder<S(!new)>(rel: (S, S) -> bool) {
    (forall s :: rel(s, s)) && (forall s, s1, s2 :: rel(s, s1) && rel(s1, s2) ==> rel(s, s2))
  }

  /** Nothing the parser does by itself breaks the relation. */
  ghost predicate StepsKeep<S(!new)>(ops: Ops<S>, rel: (S, S) -> bool) {
    && (forall s, v :: rel(s, ops.gather(s, v)))
    && (forall s :: rel(s, ops.reset(s)))
    && (forall s, v :: rel(s, ops.leaf(s, v).0))
  }

  lemma {:induction false} LoopKeeps<S(!new)>(bytes: (S, View) -> seq<Byte>, one: (S, View) -> Run<S>,
                                              rel: (S, S) -> bool, s: S, v: View)
    requires Sized(bytes) && Preorder(rel) && (forall s, v :: one(s, v).Back? ==> rel(s, one(s, v).state))
    requires Loop(bytes, one, s, v).Back?
    ensures rel(s, Loop(bytes, one, s, v).state)
    decreases Length(v)
  {
    var body := bytes(s, v);
    if HasUnit(body) {
      var size := U16(body[0], body[1]);
      var run := one(s, Range(v, 2, 2 + size));
      if run.outcome.Packets? {
        LoopKeeps(bytes, one, rel, run.state, From(v, 2 + size));
      }
    }
  }

  /** Then no call that returns breaks it, however deep it recursed. */
  lemma {:induction false} EvalKeeps<S(!new)>(ops: Ops<S>, rel: (S, S) -> bool, depth: nat, s: S, v: View)
    requires Sized(ops.bytes) && Preorder(rel) && StepsKeep(ops, rel) && Eval(ops, depth, s, v).Back?
    ensures rel(s, Eval(ops, depth, s, v).state)
    decreases depth
  {
    var packet := ops.bytes(s, v);
    if Composite(packet) {
      if Type(packet) == STAP_A {
        var one := Calls(ops, false, depth - 1);
        forall s, v | one(s, v).Back? ensures rel(s, one(s, v).state) {
          EvalKeeps(ops, rel, depth - 1, s, v);
        }
        LoopKeeps(ops.bytes, one, rel, s, From(v, 1));
      } else {
        var s1 := ops.gather(s, v);
        if IsEnd(packet) && Buffer(ops, s1) != [] {
          EvalKeeps(ops, rel, depth - 1, s1, ops.whole(s1));
          assert rel(s, s1);
        }
      }
    }
  }

  // ---------------------------------------------------------------- an aggregate written over

  /** A fragment that completes what the buffer holds. */
  predicate Reparses<S>(ops: Ops<S>, s: S, v: View) {
    var packet := ops.bytes(s, v);
    2 <= |packet| && Type(packet) == FU_A && IsEnd(packet) && Buffer(ops, ops.gather(s, v)) != []
  }

  predicate HasUnitOfSize<S>(ops: Ops<S>, s: S, v: View, size: nat) {
    HasUnit(ops.bytes(s, v)) && U16(ops.bytes(s, v)[0], ops.bytes(s, v)[1]) == size
  }

  predicate IsAggregate<S>(ops: Ops<S>, s: S, v: View) {
    2 <= |ops.bytes(s, v)| && Type(ops.bytes(s, v)) == STAP_A
  }

  /** A fragment that completes an aggregate of one fragment, which neither starts nor ends a unit:
      that one is added to the buffer, and then the buffer is emptied. */
  lemma {:induction false} AddsBehindItself<S(!new)>(ops: Ops<S>, depth: nat, s: S, v: View, size: nat)
    requires Sized(ops.bytes) && Reparses(ops, s, v) && Eval(ops, depth, s, v).Back?
    requires var s1 := ops.gather(s, v);
             var body := From(ops.whole(s1), 1);
             var unit := Range(body, 2, 2 + size);
             && IsAggregate(ops, s1, ops.whole(s1)) && HasUnitOfSize(ops, s1, body, size)
             && 2 <= |ops.bytes(s1, unit)| && Type(ops.bytes(s1, unit)) == FU_A && !IsEnd(ops.bytes(s1, unit))
             && !HasUnit(ops.bytes(ops.gather(s1, unit), From(body, 2 + size)))
    ensures var s1 := ops.gather(s, v);
            var s2 := ops.gather(s1, Range(From(ops.whole(s1), 1), 2, 2 + size));
            Eval(ops, depth, s, v) == Back(ops.reset(s2), Packets([]))
  {
    var s1 := ops.gather(s, v);
    var body := From(ops.whole(s1), 1);
    var unit := Range(body, 2, 2 + size);
    var s2 := ops.gather(s1, unit);
    var one := Calls(ops, false, depth - 2);
    assert Eval(ops, depth, s, v) == Emptied(ops, Eval(ops, depth - 1, s1, ops.whole(s1)));
    assert Eval(ops, depth - 1, s1, ops.whole(s1)) == Loop(ops.bytes, one, s1, body);
    assert one(s1, unit) == Eval(ops, depth - 2, s1, unit);
    assert Loop(ops.bytes, one, s2, From(body, 2 + size)) == Back(s2, Packets([]));
    assert Loop(ops.bytes, one, s1, body) == After([], Back(s2, Packets([])));
  }

  /** Once the first unit of an aggregate has come back, the second does not. */
  predicate StopsAtSecond<S(!new)>(ops: Ops<S>, depth: nat, s: S, body: View, size: nat, size': nat)
    requires Sized(ops.bytes)
  {
    var run, rest := Eval(ops, depth, s, Range(body, 2, 2 + size)), From(body, 2 + size);
    run.Back? ==>
      && run.outcome.Packets? && HasUnitOfSize(ops, run.state, rest, size')
      && !Eval(ops, depth, run.state, Range(rest, 2, 2 + size')).Back?
  }

  /** A fragment that completes an aggregate does not come back if, after its first unit has, the
      second unit does not. */
  lemma {:induction false} SecondUnitSpins<S(!new)>(ops: Ops<S>, depth: nat, s: S, v: View, size: nat, size': nat)
    requires Sized(ops.bytes) && Reparses(ops, s, v)
    requires var s1 := ops.gather(s, v);
             IsAggregate(ops, s1, ops.whole(s1)) && HasUnitOfSize(ops, s1, From(ops.whole(s1), 1), size)
    requires var s1 := ops.gather(s, v);
             2 < depth ==> StopsAtSecond(ops, depth - 2, s1, From(ops.whole(s1), 1), size, size')
    ensures !Eval(ops, depth, s, v).Back?
  {
    if 2 < depth {
      var s1 := ops.gather(s, v);
      var body := From(ops.whole(s1), 1);
      var one, rest := Calls(ops, false, depth - 2), From(body, 2 + size);
      assert Eval(ops, depth, s, v) == Emptied(ops, Eval(ops, depth - 1, s1, ops.whole(s1)));
      assert Eval(ops, depth - 1, s1, ops.whole(s1)) == Loop(ops.bytes, one, s1, body);
      var run := Eval(ops, depth - 2, s1, Range(body, 2, 2 + size));
      assert one(s1, Range(body, 2, 2 + size)) == run;
      if run.Back? {
        assert one(run.state, Range(rest, 2, 2 + size')) == Eval(ops, depth - 2, run.state, Range(rest, 2, 2 + size'));
        assert !Loop(ops.bytes, one, run.state, rest).Back?;
      }
    }
  }
}
