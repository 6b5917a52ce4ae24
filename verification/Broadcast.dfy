/**
 The websocket broadcast of web/ws.go: one bounded queue per listener, closed on overflow.

 `Hub` is the listener map and its channels, changed in place. The protocol below it is the
 same thing taken apart into the steps that other goroutines can fall between: a broadcast
 holds the lock and offers its message to one listener at a time, while receivers take
 messages off their channels without any lock.
 */
module Broadcast {
  import opened Wrappers

  const CAPACITY: nat := 10

  datatype Chan<M> = Chan(queue: seq<M>, closed: bool)

  predicate HasRoom<M>(c: Chan<M>) {
    |c.queue| < CAPACITY
  }

  /** The non-blocking send of Broadcast: into the queue, or else the channel is closed. */
  function Offer<M>(c: Chan<M>, msg: M): Chan<M> {
    if HasRoom(c) then c.(queue := c.queue + [msg]) else c.(closed := true)
  }

  /** The listeners that are left after a broadcast: those with fewer than ten messages waiting. */
  function ListenersAfter<M>(listeners: set<nat>, chans: map<nat, Chan<M>>): set<nat>
    requires listeners <= chans.Keys
  {
    set l | l in listeners && |chans[l].queue| < 10
  }

  /** The channels after a broadcast: these have one message more, and the others of the listeners
      are closed with what is waiting in them. */
  function ChansAfter<M>(listeners: set<nat>, chans: map<nat, Chan<M>>, msg: M): map<nat, Chan<M>> {
    map l | l in chans ::
      if l !in listeners then chans[l]
      else if |chans[l].queue| < 10 then Chan(chans[l].queue + [msg], chans[l].closed)
      else Chan(chans[l].queue, true)
  }

  class Hub<M(==)> {
    var listeners: set<nat>
    var chans: map<nat, Chan<M>>

    /** A channel in the map can be sent to: it exists and nobody has closed it. */
    ghost predicate Valid()
      reads this
    {
      forall l :: l in listeners ==> l in chans && !chans[l].closed
    }

    constructor ()
      ensures Valid() && listeners == {} && chans == map[]
    {
      listeners, chans := {}, map[];
    }

    method Register(l: nat)
      requires Valid() && l !in chans
      modifies this
      ensures Valid()
      ensures listeners == old(listeners) + {l} && chans == old(chans)[l := Chan([], false)]
    {
      listeners := listeners + {l};
      chans := chans[l := Chan([], false)];
    }

    method Unregister(l: nat)
      requires Valid()
      modifies this
      ensures Valid() && listeners == old(listeners) - {l} && chans == old(chans)
    {
      listeners := listeners - {l};
    }

    /** The receive of sendLoop, when it does not block: the oldest message, or, on a channel
        that is closed and drained, nothing. */
    method Receive(l: nat) returns (r: Option<M>)
      requires Valid() && l in chans && (chans[l].queue != [] || chans[l].closed)
      modifies this
      ensures Valid() && listeners == old(listeners)
      ensures match r
              case None => old(chans)[l].queue == [] && chans == old(chans)
              case Some(msg) =>
                var c := old(chans)[l];
                && c.queue != [] && msg == c.queue[0]
                && chans == old(chans)[l := c.(queue := c.queue[1..])]
    {
      var c := chans[l];
      if c.queue == [] {
        return None;
      }
      chans := chans[l := c.(queue := c.queue[1..])];
      return Some(c.queue[0]);
    }

    /** Map order is arbitrary, and so is the order the loop visits the listeners in. */
    method Broadcast(msg: M)
      requires Valid()
      modifies this
      ensures Valid()
      ensures listeners == ListenersAfter(old(listeners), old(chans))
      ensures chans == ChansAfter(old(listeners), old(chans), msg)
      ensures forall l :: l in old(listeners) ==> (chans[l].closed <==> |old(chans)[l].queue| >= 10)
    {
      var todo := listeners;
      while todo != {}
        invariant Valid()
        invariant todo <= old(listeners)
        invariant listeners == set l | l in old(listeners) && (l in todo || HasRoom(old(chans)[l]))
        invariant chans == ChansAfter(old(listeners) - todo, old(chans), msg)
        decreases todo
      {
        var l :| l in todo;
        todo := todo - {l};
        chans := chans[l := Offer(chans[l], msg)];
        if chans[l].closed {
          listeners := listeners - {l};
        }
      }
    }
  }

  // ---------------------------------------------------------------- the protocol

  /** One listener: its channel, what its send loop has taken off it, whether that loop has
      ended, and whether it ended on seeing the channel closed. `start` and `stop` are history:
      the number of broadcasts begun when it was put into the map, and the number it had been
      part of when it was taken out. */
  datatype Listener<M> = Listener(chan: Chan<M>, received: seq<M>, ended: bool, sawClose: bool,
                                  inMap: bool, start: nat, stop: int)

  datatype Lock<M> = Free | Held(msg: M, pending: set<nat>)

  datatype State<M> = State(log: seq<M>, lock: Lock<M>, listeners: map<nat, Listener<M>>)

  datatype Step<M> =
    | Register(l: nat)
    | Begin(msg: M)
    | Send(l: nat)
    | End
    | Receive(l: nat)
    | SeeClose(l: nat)
    | Leave(l: nat)
    | Unregister(l: nat)

  function InMap<M>(s: State<M>): set<nat> {
    set l | l in s.listeners && s.listeners[l].inMap
  }

  predicate Enabled<M>(s: State<M>, step: Step<M>) {
    match step
    case Register(l) => s.lock.Free? && l !in s.listeners
    case Begin(_) => s.lock.Free?
    case Send(l) => s.lock.Held? && l in s.lock.pending && l in s.listeners
    case End => s.lock.Held? && s.lock.pending == {}
    case Receive(l) => l in s.listeners && !s.listeners[l].ended && s.listeners[l].chan.queue != []
    case SeeClose(l) =>
      l in s.listeners && !s.listeners[l].ended && s.listeners[l].chan.queue == [] && s.listeners[l].chan.closed
    case Leave(l) => l in s.listeners && !s.listeners[l].ended
    case Unregister(l) => s.lock.Free? && l in s.listeners && s.listeners[l].ended
  }

  /** A pending listener after its turn: a full queue costs it its place in the map. */
  function Offered<M>(s: State<M>, l: nat): Listener<M>
    requires s.lock.Held? && l in s.listeners
  {
    var x := s.listeners[l];
    var c := Offer(x.chan, s.lock.msg);
    if HasRoom(x.chan) then x.(chan := c) else x.(chan := c, inMap := false, stop := |s.log| - 1)
  }

  function Apply<M>(s: State<M>, step: Step<M>): State<M>
    requires Enabled(s, step)
  {
    match step
    case Register(l) =>
      s.(listeners := s.listeners[l := Listener(Chan([], false), [], false, false, true, |s.log|, 0)])
    case Begin(msg) => State(s.log + [msg], Held(msg, InMap(s)), s.listeners)
    case Send(l) =>
      s.(lock := s.lock.(pending := s.lock.pending - {l}),
         listeners := s.listeners[l := Offered(s, l)])
    case End => s.(lock := Free)
    case Receive(l) =>
      var x := s.listeners[l];
      s.(listeners := s.listeners[l := x.(chan := x.chan.(queue := x.chan.queue[1..]),
                                          received := x.received + [x.chan.queue[0]])])
    case SeeClose(l) => s.(listeners := s.listeners[l := s.listeners[l].(ended := true, sawClose := true)])
    case Leave(l) => s.(listeners := s.listeners[l := s.listeners[l].(ended := true)])
    case Unregister(l) =>
      var x := s.listeners[l];
      s.(listeners := s.listeners[l := if x.inMap then x.(inMap := false, stop := |s.log|) else x])
  }

  function Initial<M>(): State<M> {
    State([], Free, map[])
  }

  /** The state after a run, None when some step of it could not be taken. */
  function Run<M>(s: State<M>, steps: seq<Step<M>>): Option<State<M>>
    decreases |steps|
  {
    if steps == [] then Some(s)
    else if Enabled(s, steps[0]) then Run(Apply(s, steps[0]), steps[1..])
    else None
  }

  /** How many broadcasts a listener has been part of: all of them so far, except one that has
      not come to it yet, as long as it is in the map. */
  function Reached<M>(s: State<M>, l: nat): int
    requires l in s.listeners
  {
    if !s.listeners[l].inMap then s.listeners[l].stop
    else if s.lock.Held? && l in s.lock.pending then |s.log| - 1
    else |s.log|
  }

  /** What a listener has got so far and what is waiting for it is exactly the run of broadcasts
      from its registration on, without a gap. */
  predicate GapFree<M(==)>(s: State<M>, l: nat)
    requires l in s.listeners
  {
    var x := s.listeners[l];
    && x.start <= Reached(s, l) <= |s.log|
    && x.received + x.chan.queue == s.log[x.start..Reached(s, l)]
  }

  /** A closed channel is out of the map, and overflowed: ten messages were waiting, and there
      was another one to send. */
  predicate ClosedByOverflow<M>(s: State<M>, l: nat)
    requires l in s.listeners
  {
    var x := s.listeners[l];
    !x.inMap && x.start + 10 <= x.stop < |s.log|
  }

  predicate Good<M(==)>(s: State<M>, l: nat)
    requires l in s.listeners
  {
    var x := s.listeners[l];
    && GapFree(s, l)
    && |x.chan.queue| <= CAPACITY
    && (x.chan.closed ==> ClosedByOverflow(s, l))
    && (!x.inMap && !x.ended ==> x.chan.closed)
    && (x.sawClose ==> x.ended && x.chan.closed && x.chan.queue == [])
  }

  ghost predicate Inv<M>(s: State<M>) {
    && (forall l :: l in s.listeners ==> Good(s, l))
    && (s.lock.Held? ==>
          && s.log != [] && s.log[|s.log| - 1] == s.lock.msg
          && s.lock.pending <= InMap(s))
  }

  lemma {:induction false} UntouchedStaysGood<M>(s: State<M>, s': State<M>, k: nat)
    requires k in s.listeners && k in s'.listeners && s'.listeners[k] == s.listeners[k]
    requires s'.log == s.log && Reached(s', k) == Reached(s, k)
    requires Good(s, k)
    ensures Good(s', k)
  {
  }

  /** A step that touches one listener, and at most takes it off the pending ones. */
  ghost predicate OnlyTouches<M>(s: State<M>, s': State<M>, l: nat) {
    && s'.log == s.log && s'.listeners.Keys == s.listeners.Keys + {l}
    && (forall k :: k in s.listeners && k != l ==> s'.listeners[k] == s.listeners[k])
    && (s'.lock == s.lock || (s.lock.Held? && s'.lock == s.lock.(pending := s.lock.pending - {l})))
  }

  lemma {:induction false} OthersStayGood<M>(s: State<M>, s': State<M>, l: nat, k: nat)
    requires Inv(s) && OnlyTouches(s, s', l) && k in s'.listeners && k != l
    ensures Good(s', k)
  {
    assert k in s.listeners && Good(s, k);
    UntouchedStaysGood(s, s', k);
  }

  lemma {:induction false} PendingStayIn<M>(s: State<M>, s': State<M>, l: nat)
    requires Inv(s) && OnlyTouches(s, s', l) && l in s'.listeners
    requires s'.lock.Held? && l in s'.lock.pending ==> s'.listeners[l].inMap
    ensures s'.lock.Held? ==> s'.log[|s'.log| - 1..] == [s'.lock.msg] && s'.lock.pending <= InMap(s')
  {
    if s'.lock.Held? {
      forall k | k in s'.lock.pending ensures k in InMap(s') {
        assert k in s.lock.pending && k in InMap(s);
      }
    }
  }

  lemma {:induction false} OneChanged<M>(s: State<M>, s': State<M>, l: nat)
    requires Inv(s) && OnlyTouches(s, s', l) && l in s'.listeners && Good(s', l)
    requires s'.lock.Held? && l in s'.lock.pending ==> s'.listeners[l].inMap
    ensures Inv(s')
  {
    PendingStayIn(s, s', l);
    forall k | k in s'.listeners ensures Good(s', k) {
      if k != l {
        OthersStayGood(s, s', l, k);
      }
    }
  }

  lemma {:induction false} RegisterKeeps<M>(s: State<M>, l: nat)
    requires Inv(s) && Enabled(s, Register(l))
    ensures Inv(Apply(s, Register(l)))
  {
  }

  lemma {:induction false} BeginKeeps<M>(s: State<M>, msg: M)
    requires Inv(s) && Enabled(s, Begin(msg))
    ensures Inv(Apply(s, Begin(msg)))
  {
  }

  lemma {:induction false} SendKeeps<M>(s: State<M>, l: nat)
    requires Inv(s) && Enabled(s, Send(l))
    ensures Inv(Apply(s, Send(l)))
  {
    var s' := Apply(s, Step<M>.Send(l));
    assert Good(s, l) && l in InMap(s);
    var x, n := s.listeners[l], |s.log|;
    assert s.log[x.start..n] == s.log[x.start..n - 1] + [s.lock.msg];
    assert Good(s', l);
    OneChanged(s, s', l);
  }

  lemma {:induction false} ReceiveKeeps<M>(s: State<M>, l: nat)
    requires Inv(s) && Enabled(s, Receive(l))
    ensures Inv(Apply(s, Receive(l)))
  {
    var s' := Apply(s, Step<M>.Receive(l));
    var x, x' := s.listeners[l], s'.listeners[l];
    assert Good(s, l);
    assert x'.received + x'.chan.queue == x.received + x.chan.queue;
    assert Good(s', l);
    OneChanged(s, s', l);
  }

  lemma {:induction false} EndingKeeps<M>(s: State<M>, step: Step<M>)
    requires Inv(s) && Enabled(s, step) && (step.SeeClose? || step.Leave? || step.Unregister?)
    ensures Inv(Apply(s, step))
  {
    var s' := Apply(s, step);
    assert Good(s, step.l);
    assert Good(s', step.l);
    OneChanged(s, s', step.l);
  }

  lemma {:induction false} EndKeeps<M>(s: State<M>)
    requires Inv(s) && Enabled(s, End)
    ensures Inv(Apply(s, End))
  {
  }

  lemma {:induction false} StepKeeps<M>(s: State<M>, step: Step<M>)
    requires Inv(s) && Enabled(s, step)
    ensures Inv(Apply(s, step))
  {
    match step
    case Register(l) => RegisterKeeps(s, l);
    case Begin(msg) => BeginKeeps(s, msg);
    case Send(l) => SendKeeps(s, l);
    case End => EndKeeps(s);
    case Receive(l) => ReceiveKeeps(s, l);
    case SeeClose(l) => EndingKeeps(s, step);
    case Leave(l) => EndingKeeps(s, step);
    case Unregister(l) => EndingKeeps(s, step);
  }

  lemma {:induction false} RunKeeps<M>(s: State<M>, steps: seq<Step<M>>)
    requires Inv(s) && Run(s, steps).Some?
    ensures Inv(Run(s, steps).value)
    decreases |steps|
  {
    if steps != [] {
      StepKeeps(s, steps[0]);
      RunKeeps(Apply(s, steps[0]), steps[1..]);
    }
  }

  // ---------------------------------------------------------------- what every run guarantees

  /** Gap-free broadcast: in every interleaving, what a listener has received, followed by what
      is buffered for it, is the contiguous run of broadcasts it has been part of. */
  lemma {:induction false} EveryRunGapFree<M>(steps: seq<Step<M>>, l: nat)
    requires Run(Initial(), steps).Some? && l in Run(Initial(), steps).value.listeners
    ensures GapFree(Run(Initial(), steps).value, l)
  {
    RunKeeps(Initial(), steps);
    assert Good(Run(Initial(), steps).value, l);
  }

  /** A listener that sees the close has drained its whole run first, and what it misses starts
      with the very message that found no room. */
  lemma {:induction false} CloseSeenAfterDraining<M>(steps: seq<Step<M>>, l: nat)
    requires Run(Initial(), steps).Some?
    requires var s := Run(Initial(), steps).value; l in s.listeners && s.listeners[l].sawClose
    ensures var s := Run(Initial(), steps).value;
            var x := s.listeners[l];
            && x.start + 10 <= x.stop < |s.log|
            && x.received == s.log[x.start..x.stop]
  {
    RunKeeps(Initial(), steps);
    var s := Run(Initial(), steps).value;
    assert Good(s, l);
    assert s.listeners[l].received + [] == s.listeners[l].received;
  }

  /** Nobody ever sends on a closed channel, nor closes one twice. */
  lemma {:induction false} NeverSendsOnClosed<M>(steps: seq<Step<M>>, l: nat)
    requires Run(Initial(), steps).Some? && Enabled(Run(Initial(), steps).value, Send(l))
    ensures !Run(Initial(), steps).value.listeners[l].chan.closed
  {
    RunKeeps(Initial(), steps);
    var s := Run(Initial(), steps).value;
    assert l in InMap(s) && Good(s, l);
  }

  /** A listener that was taken out of the map under its running loop can find out: its channel is
      closed. */
  lemma {:induction false} RemovedIsClosed<M>(steps: seq<Step<M>>, l: nat)
    requires Run(Initial(), steps).Some?
    requires var s := Run(Initial(), steps).value; l in s.listeners && !s.listeners[l].inMap && !s.listeners[l].ended
    ensures Run(Initial(), steps).value.listeners[l].chan.closed
  {
    RunKeeps(Initial(), steps);
    assert Good(Run(Initial(), steps).value, l);
  }

  function Receives<M>(l: nat, n: nat): seq<Step<M>> {
    if n == 0 then [] else [Step<M>.Receive(l)] + Receives<M>(l, n - 1)
  }

  /** A running loop can always take what is waiting for it. */
  lemma {:induction false} CanDrain<M>(s: State<M>, l: nat)
    requires l in s.listeners && !s.listeners[l].ended
    ensures var x, run := s.listeners[l], Run(s, Receives(l, |s.listeners[l].chan.queue|));
            run == Some(s.(listeners := s.listeners[l := x.(chan := x.chan.(queue := []),
                                                            received := x.received + x.chan.queue)]))
    decreases |s.listeners[l].chan.queue|
  {
    var x := s.listeners[l];
    var n := |x.chan.queue|;
    if n == 0 {
      assert x.received + x.chan.queue == x.received && x.chan.queue == [];
      assert s.listeners[l := x] == s.listeners;
    } else {
      var s1 := Apply(s, Step<M>.Receive(l));
      assert Receives<M>(l, n)[1..] == Receives<M>(l, n - 1);
      CanDrain(s1, l);
      var x1 := s1.listeners[l].(chan := x.chan.(queue := []), received := x.received + x.chan.queue);
      assert s1.listeners[l := x1] == s.listeners[l := x1];
      assert (x.received + [x.chan.queue[0]]) + x.chan.queue[1..] == x.received + x.chan.queue;
    }
  }

  /** And one that was removed comes to the close that way, having received its whole run. */
  lemma {:induction false} CloseIsReached<M>(steps: seq<Step<M>>, l: nat)
    requires Run(Initial(), steps).Some?
    requires var s := Run(Initial(), steps).value; l in s.listeners && !s.listeners[l].inMap && !s.listeners[l].ended
    ensures var s := Run(Initial(), steps).value;
            var x, run := s.listeners[l], Run(s, Receives(l, |s.listeners[l].chan.queue|) + [Step<M>.SeeClose(l)]);
            && run.Some? && l in run.value.listeners && run.value.listeners[l].sawClose
            && 0 <= x.start <= x.stop <= |s.log| && run.value.listeners[l].received == s.log[x.start..x.stop]
  {
    var s := Run(Initial(), steps).value;
    RunKeeps(Initial(), steps);
    assert Good(s, l);
    CanDrain(s, l);
    var drain := Receives<M>(l, |s.listeners[l].chan.queue|);
    RunAppend(s, drain, [Step<M>.SeeClose(l)]);
    var s1 := Run(s, drain).value;
    assert [Step<M>.SeeClose(l)][1..] == [];
    assert Run(s1, [Step<M>.SeeClose(l)]) == Some(Apply(s1, Step<M>.SeeClose(l)));
  }

  /** While no broadcast is under way a new listener can come and go: it enters the map with an empty
      channel, and leaves it with the channel open. */
  lemma {:induction false} ComesAndGoes<M>(s: State<M>, l: nat)
    requires s.lock.Free? && l !in s.listeners
    ensures var came := Run(s, [Step<M>.Register(l)]);
            var went := Run(s, [Step<M>.Register(l), Step<M>.Leave(l), Step<M>.Unregister(l)]);
            && came.Some? && InMap(came.value) == InMap(s) + {l} && l in came.value.listeners
            && came.value.listeners[l].chan == Chan([], false)
            && went.Some? && InMap(went.value) == InMap(s) && l in went.value.listeners
            && !went.value.listeners[l].chan.closed
  {
    var steps := [Step<M>.Register(l), Step<M>.Leave(l), Step<M>.Unregister(l)];
    var s1 := Apply(s, steps[0]);
    var s2 := Apply(s1, steps[1]);
    assert [steps[0]][1..] == [] && steps[1..] == [steps[1], steps[2]];
    assert steps[1..][1..] == [steps[2]] && steps[1..][1..][1..] == [];
    assert Run(s2, [steps[2]]) == Some(Apply(s2, steps[2]));
    assert Run(s, steps) == Run(s1, steps[1..]) == Run(s2, [steps[2]]);
  }

  // ---------------------------------------------------------------- the map and its history

  /** Step `i` of the run found ten messages waiting for the listener it was to send to. */
  ghost predicate OverflowsAt<M>(steps: seq<Step<M>>, l: nat, i: nat) {
    && i < |steps| && steps[i] == Step<M>.Send(l) && Run(Initial(), steps[..i]).Some?
    && l in Run(Initial(), steps[..i]).value.listeners
    && |Run(Initial(), steps[..i]).value.listeners[l].chan.queue| >= 10
  }

  ghost predicate Overflowed<M>(steps: seq<Step<M>>, l: nat) {
    exists i: nat :: OverflowsAt(steps, l, i)
  }

  lemma {:induction false} OverflowedSnoc<M>(front: seq<Step<M>>, step: Step<M>, l: nat)
    ensures Overflowed(front + [step], l) <==> Overflowed(front, l) || OverflowsAt(front + [step], l, |front|)
  {
    var steps := front + [step];
    assert forall i :: 0 <= i < |front| ==> steps[i] == front[i] && steps[..i] == front[..i];
    if i: nat :| OverflowsAt(steps, l, i) {
      if i < |front| {
        assert OverflowsAt(front, l, i);
      }
    }
    if i: nat :| OverflowsAt(front, l, i) {
      assert OverflowsAt(steps, l, i);
    }
  }

  lemma {:induction false} RunSnoc<M>(front: seq<Step<M>>, step: Step<M>)
    requires Run(Initial(), front + [step]).Some?
    ensures Run(Initial(), front).Some? && Enabled(Run(Initial(), front).value, step)
    ensures Run(Initial(), front + [step]).value == Apply(Run(Initial(), front).value, step)
  {
    RunPrefix(Initial(), front, [step]);
    RunAppend(Initial(), front, [step]);
    assert [step][1..] == [];
  }

  lemma {:induction false} RunPrefix<M>(s: State<M>, a: seq<Step<M>>, b: seq<Step<M>>)
    requires Run(s, a + b).Some?
    ensures Run(s, a).Some?
    decreases |a|
  {
    if a != [] {
      assert (a + b)[0] == a[0] && (a + b)[1..] == a[1..] + b;
      RunPrefix(Apply(s, a[0]), a[1..], b);
    }
  }

  /** A channel is closed exactly when a broadcast found ten messages waiting in it. */
  lemma {:induction false} ClosedIffOverflowed<M>(steps: seq<Step<M>>, l: nat)
    requires Run(Initial(), steps).Some?
    ensures var s := Run(Initial(), steps).value;
            (l in s.listeners && s.listeners[l].chan.closed) <==> Overflowed(steps, l)
    decreases |steps|
  {
    if steps != [] {
      var n := |steps| - 1;
      var front, step := steps[..n], steps[n];
      assert steps == front + [step];
      RunSnoc(front, step);
      RunKeeps(Initial(), front);
      ClosedIffOverflowed(front, l);
      OverflowedSnoc(front, step, l);
      assert steps[..n] == front;
    }
  }

  /** The listeners in the map are exactly those that were registered and neither unregistered nor
      dropped for ten messages waiting. */
  lemma {:induction false} InMapIff<M>(steps: seq<Step<M>>, l: nat)
    requires Run(Initial(), steps).Some?
    ensures var s := Run(Initial(), steps).value;
            && (l in s.listeners <==> Step<M>.Register(l) in steps)
            && (Step<M>.Unregister(l) in steps ==> l in s.listeners)
            && (l in InMap(s) <==>
                Step<M>.Register(l) in steps && Step<M>.Unregister(l) !in steps && !Overflowed(steps, l))
    decreases |steps|
  {
    if steps != [] {
      var n := |steps| - 1;
      var front, step := steps[..n], steps[n];
      assert steps == front + [step];
      RunSnoc(front, step);
      InMapIff(front, l);
      OverflowedSnoc(front, step, l);
      assert steps[..n] == front;
      RunKeeps(Initial(), front);
      ClosedIffOverflowed(front, l);
      MapStep(Run(Initial(), front).value, step, l);
    }
  }

  lemma {:induction false} MapStep<M>(s: State<M>, step: Step<M>, l: nat)
    requires Inv(s) && Enabled(s, step)
    ensures var s' := Apply(s, step);
            && (l in s'.listeners <==> l in s.listeners || step == Step<M>.Register(l))
            && (l in InMap(s') <==>
                || step == Step<M>.Register(l)
                || (l in InMap(s) && step != Step<M>.Unregister(l) &&
                    !(step == Step<M>.Send(l) && |s.listeners[l].chan.queue| >= 10)))
  {
  }

  /** Once out of the map a listener's run has ended for good. */
  lemma {:induction false} RemovalIsFinal<M>(s: State<M>, steps: seq<Step<M>>, l: nat)
    requires Inv(s) && Run(s, steps).Some?
    requires l in s.listeners && !s.listeners[l].inMap
    ensures var s' := Run(s, steps).value;
            && l in s'.listeners && !s'.listeners[l].inMap
            && s'.listeners[l].start == s.listeners[l].start && s'.listeners[l].stop == s.listeners[l].stop
            && s'.listeners[l].received + s'.listeners[l].chan.queue ==
               s.listeners[l].received + s.listeners[l].chan.queue
            && s.log <= s'.log
    decreases |steps|
  {
    if steps != [] {
      var s1 := Apply(s, steps[0]);
      StepKeeps(s, steps[0]);
      assert steps[0].Send? && steps[0].l == l ==> l in InMap(s);
      if steps[0].Receive? && steps[0].l == l {
        var x, x1 := s.listeners[l], s1.listeners[l];
        assert x1.received + x1.chan.queue == x.received + x.chan.queue;
      }
      RemovalIsFinal(s1, steps[1..], l);
    }
  }

  // ---------------------------------------------------------------- an uninterrupted broadcast

  function Sends<M>(order: seq<nat>): seq<Step<M>> {
    if order == [] then [] else [Step<M>.Send(order[0])] + Sends<M>(order[1..])
  }

  predicate NoDuplicates(order: seq<nat>) {
    forall i, j :: 0 <= i < j < |order| ==> order[i] != order[j]
  }

  function Members(order: seq<nat>): set<nat> {
    set l | l in order
  }

  function OfferedAll<M>(s: State<M>, order: seq<nat>): map<nat, Listener<M>>
    requires s.lock.Held?
  {
    map l | l in s.listeners :: if l in order then Offered(s, l) else s.listeners[l]
  }

  lemma {:induction false} OfferedNone<M>(s: State<M>)
    requires s.lock.Held?
    ensures OfferedAll(s, []) == s.listeners
  {
  }

  lemma {:induction false} OfferedCons<M>(s: State<M>, l: nat, rest: seq<nat>)
    requires Enabled(s, Send(l)) && l !in rest
    ensures OfferedAll(Apply(s, Step<M>.Send(l)), rest) == OfferedAll(s, [l] + rest)
  {
  }

  lemma {:induction false} MembersRest(order: seq<nat>)
    requires order != [] && NoDuplicates(order)
    ensures Members(order[1..]) == Members(order) - {order[0]} && order[0] !in order[1..]
  {
  }

  /** Whatever order the listener map is walked in, the pending listeners end up the same. */
  lemma {:induction false} AnyOrder<M>(s: State<M>, order: seq<nat>)
    requires s.lock.Held? && NoDuplicates(order)
    requires Members(order) == s.lock.pending && s.lock.pending <= s.listeners.Keys
    ensures Run(s, Sends(order)) == Some(State(s.log, Held(s.lock.msg, {}), OfferedAll(s, order)))
    decreases |order|
  {
    if order == [] {
      assert Members(order) == {};
      OfferedNone(s);
    } else {
      var l, rest := order[0], order[1..];
      assert l in Members(order);
      MembersRest(order);
      AnyOrder(Apply(s, Step<M>.Send(l)), rest);
      OfferedCons(s, l, rest);
      assert order == [l] + rest;
      assert Sends<M>(order)[1..] == Sends<M>(rest);
    }
  }

  function Chans<M>(s: State<M>): map<nat, Chan<M>> {
    map l | l in s.listeners :: s.listeners[l].chan
  }

  lemma {:induction false} RunAppend<M>(s: State<M>, a: seq<Step<M>>, b: seq<Step<M>>)
    requires Run(s, a).Some?
    ensures Run(s, a + b) == Run(Run(s, a).value, b)
    decreases |a|
  {
    if a == [] {
      assert a + b == b;
    } else {
      RunAppend(Apply(s, a[0]), a[1..], b);
      assert (a + b)[0] == a[0] && (a + b)[1..] == a[1..] + b;
    }
  }

  lemma {:induction false} OfferedAllAsHub<M>(s: State<M>, order: seq<nat>, s': State<M>)
    requires s.lock.Held? && Members(order) == InMap(s) && s'.listeners == OfferedAll(s, order)
    ensures Chans(s') == ChansAfter(InMap(s), Chans(s), s.lock.msg)
    ensures InMap(s') == ListenersAfter(InMap(s), Chans(s))
  {
    assert forall l :: l in order <==> l in InMap(s) by {
      assert forall l :: l in order <==> l in Members(order);
    }
  }

  /** A broadcast that nothing falls between, in whatever order it walks the map, does to the
      channels and to the map what Hub.Broadcast does. */
  lemma {:induction false} BroadcastAsHub<M>(s: State<M>, msg: M, order: seq<nat>)
    requires Enabled(s, Step<M>.Begin(msg)) && NoDuplicates(order) && Members(order) == InMap(s)
    ensures var run := Run(s, [Step<M>.Begin(msg)] + (Sends<M>(order) + [Step<M>.End]));
            && run.Some? && run.value.lock.Free? && run.value.log == s.log + [msg]
            && Chans(run.value) == ChansAfter(InMap(s), Chans(s), msg)
            && InMap(run.value) == ListenersAfter(InMap(s), Chans(s))
  {
    var s1 := Apply(s, Step<M>.Begin(msg));
    var tail := Sends<M>(order) + [Step<M>.End];
    assert ([Step<M>.Begin(msg)] + tail)[1..] == tail;
    AnyOrder(s1, order);
    RunAppend(s1, Sends<M>(order), [Step<M>.End]);
    var s2 := Run(s1, Sends<M>(order)).value;
    assert [Step<M>.End][1..] == [];
    assert Run(s2, [Step<M>.End]) == Some(s2.(lock := Free));
    OfferedAllAsHub(s1, order, s2.(lock := Free));
  }
}
