/**
 The life of a channel (ingest/publish.go and ingest/manager.go): publishers take it over from
 one another, each stops only what is still its own, and the HLS output outlives the stream by
 a minute. Each section under the channel's mutex is one step.

 Queues and HLS publishers are numbered. What the steps do to them outside the channel, closing
 a queue or marking a discontinuity, is recorded beside it.
 */
module PublishChannel {
  import opened Wrappers

  const HLS_EXPIRY: int := 60_000_000_000

  datatype Publisher = Publisher(closes: nat, discontinuities: nat)

  datatype ChannelState = ChannelState(ingest: Option<nat>, aac: Option<nat>, opus: Option<nat>,
                                       hls: Option<nat>, stoppedAt: Option<int>, live: bool,
                                       closed: set<nat>, publishers: seq<Publisher>)

  /** A publisher going live, a publisher ending, and the periodic cleanup. */
  datatype Event = Set(q: nat, aacq: nat, opusq: nat) | Stop(q: nat, at: int) | Cleanup(at: int)

  ghost predicate Valid(c: ChannelState) {
    c.hls.Some? ==> c.hls.value < |c.publishers|
  }

  function NewChannel(): ChannelState {
    ChannelState(None, None, None, None, None, false, {}, [])
  }

  function Apply(c: ChannelState, e: Event): ChannelState
    requires Valid(c)
  {
    match e
    case Set(q, aacq, opusq) =>
      var c1 := c.(ingest := Some(q), aac := Some(aacq), opus := Some(opusq), stoppedAt := None, live := true,
                   closed := c.closed + if c.ingest.Some? then {c.ingest.value} else {});
      if c.hls.Some? then
        var p := c.publishers[c.hls.value];
        c1.(publishers := c.publishers[c.hls.value := p.(discontinuities := p.discontinuities + 1)])
      else c1.(hls := Some(|c.publishers|), publishers := c.publishers + [Publisher(0, 0)])
    case Stop(q, at) =>
      if c.ingest != Some(q) then c
      else c.(live := false, ingest := None, aac := None, opus := None, stoppedAt := Some(at))
    case Cleanup(at) =>
      if Expired(c, at) then
        var p := c.publishers[c.hls.value];
        c.(hls := None, publishers := c.publishers[c.hls.value := p.(closes := p.closes + 1)])
      else c
  }

  function Served(c: ChannelState, converted: bool): Option<nat> {
    if converted then c.opus else c.aac
  }

  predicate Expired(c: ChannelState, at: int) {
    c.hls.Some? && c.stoppedAt.Some? && HLS_EXPIRY < at - c.stoppedAt.value
  }

  class Channel {
    var ingest: Option<nat>
    var aac: Option<nat>
    var opus: Option<nat>
    var hls: Option<nat>
    var stoppedAt: Option<int>
    var live: bool
    var closed: set<nat>
    var publishers: seq<Publisher>

    ghost function State(): ChannelState
      reads this
    {
      ChannelState(ingest, aac, opus, hls, stoppedAt, live, closed, publishers)
    }

    constructor ()
      ensures State() == NewChannel()
    {
      ingest, aac, opus, hls, stoppedAt := None, None, None, None, None;
      live, closed, publishers := false, {}, [];
    }

    method SetStream(q: nat, aacq: nat, opusq: nat) returns (p: nat)
      requires Valid(State())
      modifies this
      ensures State() == Apply(old(State()), Set(q, aacq, opusq)) && Valid(State())
      ensures hls == Some(p)
    {
      if ingest.Some? {
        closed := closed + {ingest.value};
      }
      ingest, aac, opus := Some(q), Some(aacq), Some(opusq);
      if hls.Some? {
        var h := publishers[hls.value];
        publishers := publishers[hls.value := h.(discontinuities := h.discontinuities + 1)];
      } else {
        hls := Some(|publishers|);
        publishers := publishers + [Publisher(0, 0)];
      }
      stoppedAt := None;
      live := true;
      return hls.value;
    }

    /** channel.queue: what a viewer is given, with converted audio or without. */
    method Queue(converted: bool) returns (q: Option<nat>)
      ensures q == Served(State(), converted)
    {
      if converted {
        q := opus;
      } else {
        q := aac;
      }
    }

    method StopStream(q: nat, now: int)
      requires Valid(State())
      modifies this
      ensures State() == Apply(old(State()), Stop(q, now)) && Valid(State())
    {
      if ingest != Some(q) {
        return;
      }
      live := false;
      ingest, aac, opus := None, None, None;
      stoppedAt := Some(now);
    }

    method CleanupStream(now: int)
      requires Valid(State())
      modifies this
      ensures State() == Apply(old(State()), Cleanup(now)) && Valid(State())
    {
      if hls.Some? && stoppedAt.Some? && HLS_EXPIRY < now - stoppedAt.value {
        var h := publishers[hls.value];
        publishers := publishers[hls.value := h.(closes := h.closes + 1)];
        hls := None;
      }
    }
  }

  // ---------------------------------------------------------------- runs and their history

  /** The channel after any interleaving of steps. */
  function Run(es: seq<Event>): (c: ChannelState)
    ensures Valid(c)
  {
    if es == [] then NewChannel() else Apply(Run(es[..|es| - 1]), es[|es| - 1])
  }

  /** `q` was set, nothing was set after it, and its own publisher has not stopped it. */
  ghost predicate SetAt(es: seq<Event>, i: nat, q: nat) {
    && i < |es| && es[i].Set? && es[i].q == q
    && forall j :: i < j < |es| ==> !es[j].Set? && !(es[j].Stop? && es[j].q == q)
  }

  ghost predicate Current(es: seq<Event>, q: nat) {
    exists i: nat :: SetAt(es, i, q)
  }

  lemma {:induction false} CurrentSnoc(es: seq<Event>, e: Event, q: nat)
    ensures Current(es + [e], q) <==>
            (if e.Set? then e.q == q else Current(es, q) && !(e.Stop? && e.q == q))
  {
    var es' := es + [e];
    assert forall j :: 0 <= j < |es| ==> es'[j] == es[j];
    assert es'[|es|] == e;
    if Current(es', q) {
      var i: nat :| SetAt(es', i, q);
      if i < |es| {
        assert SetAt(es, i, q);
      }
    }
    if e.Set? && e.q == q {
      assert SetAt(es', |es|, q);
    }
    if !e.Set? && Current(es, q) && !(e.Stop? && e.q == q) {
      var i: nat :| SetAt(es, i, q);
      assert SetAt(es', i, q);
    }
  }

  /** Takeover safety: the ingest is the most recently set queue, until its own publisher stops
      it. */
  lemma {:induction false} IngestIsCurrent(es: seq<Event>, q: nat)
    ensures Run(es).ingest == Some(q) <==> Current(es, q)
    decreases |es|
  {
    if es != [] {
      var front, e := es[..|es| - 1], es[|es| - 1];
      assert es == front + [e];
      CurrentSnoc(front, e, q);
      IngestIsCurrent(front, q);
    }
  }

  /** The channel is live exactly when some queue is current. */
  lemma {:induction false} LiveIffCurrent(es: seq<Event>)
    ensures Run(es).live <==> exists q :: Current(es, q)
  {
    LiveIffIngest(es);
    if Run(es).ingest.Some? {
      IngestIsCurrent(es, Run(es).ingest.value);
    } else {
      forall q ensures !Current(es, q) {
        IngestIsCurrent(es, q);
      }
    }
  }

  lemma {:induction false} LiveIffIngest(es: seq<Event>)
    ensures Run(es).live <==> Run(es).ingest.Some?
    decreases |es|
  {
    if es != [] {
      LiveIffIngest(es[..|es| - 1]);
    }
  }

  /** Step `i` set the queue that is current, with `x` for viewers of this kind. */
  ghost predicate GivenAt(es: seq<Event>, i: nat, converted: bool, x: nat) {
    i < |es| && es[i].Set? && SetAt(es, i, es[i].q) && x == if converted then es[i].opusq else es[i].aacq
  }

  ghost predicate Given(es: seq<Event>, converted: bool, x: nat) {
    exists i: nat :: GivenAt(es, i, converted, x)
  }

  lemma {:induction false} GivenSnoc(es: seq<Event>, e: Event, converted: bool, x: nat)
    ensures Given(es + [e], converted, x) <==>
            (if e.Set? then x == if converted then e.opusq else e.aacq
             else Given(es, converted, x) && !(e.Stop? && Current(es, e.q)))
  {
    var es' := es + [e];
    assert forall j :: 0 <= j < |es| ==> es'[j] == es[j];
    assert es'[|es|] == e;
    if i: nat :| GivenAt(es', i, converted, x) {
      if i < |es| {
        assert SetAt(es, i, es[i].q) && GivenAt(es, i, converted, x);
        if e.Stop? && Current(es, e.q) {
          OneCurrent(es, es[i].q, e.q);
        }
      }
    }
    if e.Set? && x == if converted then e.opusq else e.aacq {
      assert GivenAt(es', |es|, converted, x);
    }
    if !e.Set? && Given(es, converted, x) && !(e.Stop? && Current(es, e.q)) {
      var i: nat :| GivenAt(es, i, converted, x);
      assert Current(es, es[i].q);
      assert GivenAt(es', i, converted, x);
    }
  }

  lemma {:induction false} OneCurrent(es: seq<Event>, q: nat, q': nat)
    requires Current(es, q) && Current(es, q')
    ensures q == q'
  {
    IngestIsCurrent(es, q);
    IngestIsCurrent(es, q');
  }

  /** Viewers are given what the publisher of the current queue has for them: the converted queue to
      those that ask for it and the other one to the rest; and nothing when no queue is current. */
  lemma {:induction false} ServedIff(es: seq<Event>, converted: bool, x: nat)
    ensures Served(Run(es), converted) == Some(x) <==> Given(es, converted, x)
    decreases |es|
  {
    if es != [] {
      var front, e := es[..|es| - 1], es[|es| - 1];
      assert es == front + [e];
      ServedIff(front, converted, x);
      GivenSnoc(front, e, converted, x);
      if e.Stop? {
        IngestIsCurrent(front, e.q);
      }
    }
  }

  lemma {:induction false} RunSnoc(es: seq<Event>, e: Event)
    ensures Run(es + [e]) == Apply(Run(es), e)
  {
  }

  /** A publisher that has been taken over changes nothing by stopping, and any other one takes
      the channel off the air. */
  lemma {:induction false} StopOnlyOwn(es: seq<Event>, q: nat, at: int)
    ensures !Current(es, q) ==> Run(es + [Stop(q, at)]) == Run(es)
    ensures Current(es, q) ==>
              var c := Run(es + [Stop(q, at)]);
              !c.live && c.stoppedAt == Some(at) && c.hls == Run(es).hls && c.closed == Run(es).closed
  {
    RunSnoc(es, Stop(q, at));
    IngestIsCurrent(es, q);
  }

  /** Step `j` of the run stopped `q` while it was current. */
  ghost predicate StoppedByOwner(es: seq<Event>, q: nat, j: nat) {
    j < |es| && es[j].Stop? && es[j].q == q && Current(es[..j], q)
  }

  /** Step `j` of the run set another queue while `q` was current. */
  ghost predicate TakenOver(es: seq<Event>, q: nat, j: nat) {
    j < |es| && es[j].Set? && Current(es[..j], q)
  }

  lemma {:induction false} ClosedIffTakenOver(es: seq<Event>, q: nat)
    ensures q in Run(es).closed <==> exists j: nat :: TakenOver(es, q, j)
    decreases |es|
  {
    if es != [] {
      var n := |es| - 1;
      var front, e := es[..n], es[n];
      assert forall j :: 0 <= j < n ==> front[..j] == es[..j];
      ClosedIffTakenOver(front, q);
      IngestIsCurrent(front, q);
      if q in Run(front).closed {
        var j: nat :| TakenOver(front, q, j);
        assert TakenOver(es, q, j);
      } else if q in Run(es).closed {
        assert TakenOver(es, q, n);
      }
      if j: nat :| TakenOver(es, q, j) {
        assert j < n ==> TakenOver(front, q, j);
      }
    }
  }

  /** No queue is forgotten: one that was ever set is still the ingest, was closed by the
      publisher that took over, or was stopped by its own. */
  lemma {:induction false} EveryQueueAccounted(es: seq<Event>, i: nat)
    requires i < |es| && es[i].Set?
    ensures var q := es[i].q;
            Run(es).ingest == Some(q) || q in Run(es).closed || exists j: nat :: StoppedByOwner(es, q, j)
    decreases |es|
  {
    var n, q := |es| - 1, es[i].q;
    var front, e := es[..n], es[n];
    if i < n {
      EveryQueueAccounted(front, i);
      if j: nat :| StoppedByOwner(front, q, j) {
        assert front[..j] == es[..j];
        assert StoppedByOwner(es, q, j);
      } else if Run(front).ingest == Some(q) && e.Stop? && e.q == q {
        IngestIsCurrent(front, q);
        assert StoppedByOwner(es, q, n);
      }
    }
  }

  // ---------------------------------------------------------------- the HLS output

  /** What every step keeps about the HLS publishers: each is closed at most once, only the
      current one is open, and a live channel has one. */
  ghost predicate HlsInv(c: ChannelState) {
    && Valid(c)
    && (forall h :: 0 <= h < |c.publishers| ==> c.publishers[h].closes == if c.hls == Some(h) then 0 else 1)
    && (c.live ==> c.hls.Some? && c.stoppedAt.None?)
    && (!c.live && c.hls.Some? ==> c.stoppedAt.Some?)
  }

  lemma {:induction false} HlsLifetime(es: seq<Event>)
    ensures HlsInv(Run(es))
    decreases |es|
  {
    if es != [] {
      HlsLifetime(es[..|es| - 1]);
    }
  }

  /** The stream went off the air at step `i`, at the time `at`, and nothing was set since. */
  ghost predicate OffAirSince(es: seq<Event>, i: nat, at: int) {
    && i < |es| && es[i].Stop? && es[i].at == at && Current(es[..i], es[i].q)
    && forall j :: i < j < |es| ==> !es[j].Set?
  }

  ghost predicate OffAir(es: seq<Event>, at: int) {
    exists i: nat :: OffAirSince(es, i, at)
  }

  lemma {:induction false} OffAirSnoc(es: seq<Event>, e: Event, at: int)
    ensures OffAir(es + [e], at) <==>
            !e.Set? && ((e.Stop? && e.at == at && Current(es, e.q)) || OffAir(es, at))
  {
    var n, es' := |es|, es + [e];
    assert forall j :: 0 <= j < n ==> es'[j] == es[j] && es'[..j] == es[..j];
    assert es'[n] == e && es'[..n] == es;
    if OffAir(es', at) {
      var i: nat :| OffAirSince(es', i, at);
      assert i < n ==> OffAirSince(es, i, at);
    }
    if !e.Set? && e.Stop? && e.at == at && Current(es, e.q) {
      assert OffAirSince(es', n, at);
    }
    if !e.Set? && OffAir(es, at) {
      var i: nat :| OffAirSince(es, i, at);
      assert OffAirSince(es', i, at);
    }
  }

  /** The stop time is the time the last stream went off the air, with none set since. */
  lemma {:induction false} StoppedAtIffOffAir(es: seq<Event>, at: int)
    ensures Run(es).stoppedAt == Some(at) <==> OffAir(es, at)
    decreases |es|
  {
    if es != [] {
      var front, e := es[..|es| - 1], es[|es| - 1];
      assert es == front + [e];
      OffAirSnoc(front, e, at);
      StoppedAtIffOffAir(front, at);
      if e.Stop? {
        IngestIsCurrent(front, e.q);
        LiveIffIngest(front);
        HlsLifetime(front);
      }
    }
  }

  /** An HLS publisher is closed by exactly those cleanups that find it more than a minute off
      the air, with no stream set since; nothing else closes one. */
  lemma {:induction false} ClosedExactlyWhenExpired(es: seq<Event>, e: Event, h: nat)
    requires h < |Run(es).publishers|
    ensures h < |Run(es + [e]).publishers|
    ensures Run(es + [e]).publishers[h].closes > Run(es).publishers[h].closes <==>
            && e.Cleanup? && Run(es).hls == Some(h)
            && exists at :: OffAir(es, at) && 60_000_000_000 < e.at - at
  {
    RunSnoc(es, e);
    forall at ensures Run(es).stoppedAt == Some(at) <==> OffAir(es, at) {
      StoppedAtIffOffAir(es, at);
    }
  }

  /** How many streams were set on an HLS publisher. */
  function StreamsOn(es: seq<Event>, h: nat): nat {
    if es == [] then 0
    else
      StreamsOn(es[..|es| - 1], h) +
      if es[|es| - 1].Set? && Run(es).hls == Some(h) then 1 else 0
  }

  /** Viewers are told of every restart and of nothing else: one discontinuity for each stream
      after the first. */
  lemma {:induction false} DiscontinuityPerRestart(es: seq<Event>, h: nat)
    ensures StreamsOn(es, h) ==
            if h < |Run(es).publishers| then Run(es).publishers[h].discontinuities + 1 else 0
    decreases |es|
  {
    if es != [] {
      DiscontinuityPerRestart(es[..|es| - 1], h);
    }
  }
}
