/**
 The frame grabber (sinks/grabber/grabber.go): it collects the keyframe packets of one moment,
 hands them to makeFrame every ten seconds at most, and notices whether the stream uses B slices.

 A packet comes with what the outside world adds: whether a slice of it is a B slice, and the
 clock when the loop looks at it and again once makeFrame has returned.
 */
module Grabber {
  import opened Bytes
  import opened Wrappers
  import opened H264Util

  const GRAB_INTERVAL: int := 10_000_000_000
  const B_WINDOW: int := 30_000_000_000

  datatype Seen = Seen(pkt: Packet, hasB: bool, before: int, after: int)

  datatype Codec = Codec(sps: Unit, pps: Unit)

  /** One call of makeFrame and the result announced with it. */
  datatype Shot = Shot(bytes: seq<Byte>, hasBframes: bool, before: int, after: int)

  datatype GrabState = GrabState(buf: seq<Byte>, keyTime: int, lastGrab: Option<int>, lastBframe: int)

  function Encoded(c: Codec, v: Seen): seq<Byte> {
    AnnexB(RepackedUnits(v.pkt, c.sps, c.pps))
  }

  predicate EndsRun(st: GrabState, v: Seen) {
    st.buf != [] && (!v.pkt.isKeyFrame || v.pkt.time != st.keyTime)
  }

  predicate Due(st: GrabState, v: Seen) {
    st.lastGrab.None? || GRAB_INTERVAL <= v.before - st.lastGrab.value
  }

  function ShotOf(st: GrabState, v: Seen): Option<Shot> {
    if EndsRun(st, v) && Due(st, v) then Some(Shot(st.buf, st.lastBframe != 0, v.before, v.after)) else None
  }

  function Window(last: int, v: Seen): int {
    var b := if v.hasB then v.pkt.time else last;
    if b != 0 && B_WINDOW < v.pkt.time - b then 0 else b
  }

  /** One turn of the loop on a packet of the video stream. */
  function Look(c: Codec, st: GrabState, v: Seen): GrabState {
    var kept := if EndsRun(st, v) then [] else st.buf;
    var grabbed := if ShotOf(st, v).Some? then Some(v.after) else st.lastGrab;
    if v.pkt.isKeyFrame then GrabState(kept + Encoded(c, v), v.pkt.time, grabbed, st.lastBframe)
    else GrabState(kept, st.keyTime, grabbed, Window(st.lastBframe, v))
  }

  const NEW_GRAB := GrabState([], 0, None, 0)

  function After(c: Codec, vs: seq<Seen>): GrabState {
    if vs == [] then NEW_GRAB else Look(c, After(c, vs[..|vs| - 1]), vs[|vs| - 1])
  }

  function ShotAt(c: Codec, vs: seq<Seen>, n: nat): Option<Shot>
    requires n < |vs|
  {
    ShotOf(After(c, vs[..n]), vs[n])
  }

  function Shots(c: Codec, vs: seq<Seen>): seq<Shot> {
    if vs == [] then []
    else
      var n := |vs| - 1;
      Shots(c, vs[..n]) + match ShotAt(c, vs, n) case None => [] case Some(shot) => [shot]
  }

  /** The packets of one stream. */
  function Video(idx: int, arrivals: seq<Seen>): seq<Seen> {
    if arrivals == [] then []
    else
      var n := |arrivals| - 1;
      Video(idx, arrivals[..n]) + if arrivals[n].pkt.idx == idx then [arrivals[n]] else []
  }

  lemma {:induction false} VideoSnoc(idx: int, arrivals: seq<Seen>, v: Seen)
    ensures Video(idx, arrivals + [v]) ==
            if v.pkt.idx == idx then Video(idx, arrivals) + [v] else Video(idx, arrivals)
  {
  }

  lemma {:induction false} SnocSeen(c: Codec, vs: seq<Seen>, v: Seen)
    ensures After(c, vs + [v]) == Look(c, After(c, vs), v)
    ensures Shots(c, vs + [v]) ==
            match ShotOf(After(c, vs), v) case None => Shots(c, vs) case Some(shot) => Shots(c, vs) + [shot]
  {
  }

  lemma {:induction false} VideoAppend(idx: int, a: seq<Seen>, b: seq<Seen>)
    ensures Video(idx, a + b) == Video(idx, a) + Video(idx, b)
    decreases |b|
  {
    if b == [] {
      assert a + b == a;
    } else {
      var front, v := b[..|b| - 1], b[|b| - 1];
      assert b == front + [v] && a + b == (a + front) + [v];
      VideoAppend(idx, a, front);
      VideoSnoc(idx, a + front, v);
      VideoSnoc(idx, front, v);
    }
  }

  /** The video packets are exactly those of the stream, as often as they came, and in order. */
  lemma {:induction false} VideoIsFilter(idx: int, a: seq<Seen>, b: seq<Seen>, v: Seen)
    ensures multiset(Video(idx, a))[v] == if v.pkt.idx == idx then multiset(a)[v] else 0
    ensures Video(idx, a + b) == Video(idx, a) + Video(idx, b)
  {
    VideoAppend(idx, a, b);
    VideoCount(idx, a, v);
  }

  lemma {:induction false} VideoCount(idx: int, a: seq<Seen>, v: Seen)
    ensures multiset(Video(idx, a))[v] == if v.pkt.idx == idx then multiset(a)[v] else 0
    decreases |a|
  {
    if a != [] {
      var front, last := a[..|a| - 1], a[|a| - 1];
      VideoCount(idx, front, v);
      VideoSnoc(idx, front, last);
      assert a == front + [last];
      assert multiset(a) == multiset(front) + multiset{last};
      assert multiset(Video(idx, front) + [last]) == multiset(Video(idx, front)) + multiset{last};
    }
  }

  class FrameGrabber {
    const codec: Codec
    const vidIdx: int
    const buf: Buffer
    var keyTime: int
    var lastGrab: Option<int>
    var lastBframe: int

    ghost function State(): GrabState
      reads this, buf
    {
      GrabState(buf.data, keyTime, lastGrab, lastBframe)
    }

    constructor (codec: Codec, vidIdx: int)
      ensures State() == NEW_GRAB && fresh(buf)
      ensures this.codec == codec && this.vidIdx == vidIdx
    {
      this.codec, this.vidIdx := codec, vidIdx;
      buf := new Buffer();
      keyTime, lastGrab, lastBframe := 0, None, 0;
    }

    method LookAt(v: Seen) returns (shot: Option<Shot>)
      requires buf as object != this
      modifies this, buf
      ensures State() == Look(codec, old(State()), v) && shot == ShotOf(old(State()), v)
    {
      shot := None;
      if buf.data != [] && (!v.pkt.isKeyFrame || v.pkt.time != keyTime) {
        if lastGrab.None? || GRAB_INTERVAL <= v.before - lastGrab.value {
          shot := Some(Shot(buf.data, lastBframe != 0, v.before, v.after));
          lastGrab := Some(v.after);
        }
        buf.Reset();
      }
      if v.pkt.isKeyFrame {
        WriteAnnexBPacket(buf, v.pkt, codec.sps, codec.pps);
        keyTime := v.pkt.time;
      } else {
        if v.hasB {
          lastBframe := v.pkt.time;
        }
        if lastBframe != 0 && B_WINDOW < v.pkt.time - lastBframe {
          lastBframe := 0;
        }
      }
    }

    /** The loop of Grab over everything it reads; only the chosen stream counts. */
    method Grab(arrivals: seq<Seen>) returns (shots: seq<Shot>)
      requires State() == NEW_GRAB && buf as object != this
      modifies this, buf
      ensures shots == Shots(codec, Video(vidIdx, arrivals))
      ensures State() == After(codec, Video(vidIdx, arrivals))
    {
      shots := [];
      for i := 0 to |arrivals|
        invariant shots == Shots(codec, Video(vidIdx, arrivals[..i]))
        invariant State() == After(codec, Video(vidIdx, arrivals[..i]))
      {
        var v := arrivals[i];
        assert arrivals[..i + 1] == arrivals[..i] + [v];
        VideoSnoc(vidIdx, arrivals[..i], v);
        if v.pkt.idx == vidIdx {
          SnocSeen(codec, Video(vidIdx, arrivals[..i]), v);
          var shot := LookAt(v);
          if shot.Some? {
            shots := shots + [shot.value];
          }
        }
      }
      assert arrivals[..|arrivals|] == arrivals;
    }
  }

  // ---------------------------------------------------------------- what is handed to makeFrame

  /** The packets from `a` up to `n` are keyframes of one time, and cannot be extended. */
  ghost predicate MaximalRun(vs: seq<Seen>, a: nat, n: nat) {
    && a < n < |vs|
    && OneMoment(vs, a, n)
    && !(vs[n].pkt.isKeyFrame && vs[n].pkt.time == vs[a].pkt.time)
  }

  /** Keyframes of one time from `a` up to `n`, and not one more before them. */
  ghost predicate OneMoment(vs: seq<Seen>, a: nat, n: nat) {
    && a < n <= |vs|
    && (forall i :: a <= i < n ==> vs[i].pkt.isKeyFrame && vs[i].pkt.time == vs[a].pkt.time)
    && (a == 0 || !vs[a - 1].pkt.isKeyFrame || vs[a - 1].pkt.time != vs[a].pkt.time)
  }

  function Encoder(c: Codec): Seen -> seq<Byte> {
    v => Encoded(c, v)
  }

  /** The Annex B encodings of some packets, end to end. */
  function EncodedAll(c: Codec, vs: seq<Seen>): seq<Byte> {
    FlatMap(Encoder(c), vs)
  }

  lemma {:induction false} KeyframeIsNotEmpty(c: Codec, v: Seen)
    requires v.pkt.isKeyFrame
    ensures Encoded(c, v) != []
  {
    var units := RepackedUnits(v.pkt, c.sps, c.pps);
    assert units[0] == c.sps;
    assert AnnexB(units) == Framed(units[0]) + AnnexB(units[1..]);
  }

  /** The buffer holds the keyframes of the moment the stream is in, if it is in one. */
  ghost predicate Collected(c: Codec, vs: seq<Seen>, st: GrabState) {
    if vs == [] || !vs[|vs| - 1].pkt.isKeyFrame then st.buf == []
    else
      && st.keyTime == vs[|vs| - 1].pkt.time
      && exists a: nat :: OneMoment(vs, a, |vs|) && st.buf == EncodedAll(c, vs[a..]) && st.buf != []
  }

  lemma {:induction false} MomentBegins(c: Codec, front: seq<Seen>, v: Seen)
    requires v.pkt.isKeyFrame
    requires front == [] || !front[|front| - 1].pkt.isKeyFrame || front[|front| - 1].pkt.time != v.pkt.time
    ensures OneMoment(front + [v], |front|, |front| + 1)
    ensures EncodedAll(c, (front + [v])[|front|..]) == Encoded(c, v)
  {
    assert (front + [v])[|front|..] == [v];
    FlatMapOne(Encoder(c), v);
  }

  lemma {:induction false} MomentGoesOn(c: Codec, front: seq<Seen>, v: Seen, a: nat)
    requires OneMoment(front, a, |front|) && v.pkt.isKeyFrame && front[|front| - 1].pkt.time == v.pkt.time
    ensures OneMoment(front + [v], a, |front| + 1)
    ensures EncodedAll(c, (front + [v])[a..]) == EncodedAll(c, front[a..]) + Encoded(c, v)
  {
    var vs := front + [v];
    assert forall i :: 0 <= i < |front| ==> vs[i] == front[i];
    assert vs[a..] == front[a..] + [v];
    FlatMapAppend(Encoder(c), front[a..], [v]);
    FlatMapOne(Encoder(c), v);
  }

  lemma {:induction false} CollectedNext(c: Codec, front: seq<Seen>, st: GrabState, v: Seen)
    requires Collected(c, front, st)
    ensures Collected(c, front + [v], Look(c, st, v))
  {
    if v.pkt.isKeyFrame {
      var vs := front + [v];
      KeyframeIsNotEmpty(c, v);
      if st.buf == [] || EndsRun(st, v) {
        MomentBegins(c, front, v);
        assert [] + Encoded(c, v) == Encoded(c, v);
        assert OneMoment(vs, |front|, |vs|);
      } else {
        var a: nat :| OneMoment(front, a, |front|) && st.buf == EncodedAll(c, front[a..]) && st.buf != [];
        MomentGoesOn(c, front, v, a);
        assert OneMoment(vs, a, |vs|);
      }
    }
  }

  lemma {:induction false} BufferIsOneMoment(c: Codec, vs: seq<Seen>)
    ensures Collected(c, vs, After(c, vs))
    decreases |vs|
  {
    if vs != [] {
      var front, v := vs[..|vs| - 1], vs[|vs| - 1];
      BufferIsOneMoment(c, front);
      CollectedNext(c, front, After(c, front), v);
      assert vs == front + [v];
    }
  }

  lemma {:induction false} MomentIsUnique(vs: seq<Seen>, a: nat, b: nat, n: nat)
    requires OneMoment(vs, a, n) && OneMoment(vs, b, n)
    ensures a == b
  {
  }

  lemma {:induction false} MomentPrefix(vs: seq<Seen>, a: nat, n: nat)
    requires n <= |vs|
    ensures OneMoment(vs[..n], a, n) <==> OneMoment(vs, a, n)
  {
  }

  /** The call at `m` is the last one before `n`. */
  ghost predicate LastShotBefore(c: Codec, vs: seq<Seen>, m: nat, n: nat) {
    m < n <= |vs| && ShotAt(c, vs, m).Some? && forall j :: m < j < n ==> ShotAt(c, vs, j).None?
  }

  lemma {:induction false} LastShotSnoc(c: Codec, vs: seq<Seen>, m: nat, n: nat)
    requires n < |vs|
    ensures LastShotBefore(c, vs, m, n + 1) <==>
            if ShotAt(c, vs, n).Some? then m == n else LastShotBefore(c, vs, m, n)
  {
  }

  lemma {:induction false} LastGrabStep(c: Codec, vs: seq<Seen>, n: nat)
    requires n < |vs|
    ensures After(c, vs[..n + 1]).lastGrab ==
            if ShotAt(c, vs, n).Some? then Some(vs[n].after) else After(c, vs[..n]).lastGrab
  {
    assert vs[..n + 1] == vs[..n] + [vs[n]];
    SnocSeen(c, vs[..n], vs[n]);
  }

  ghost predicate LastEndedAt(c: Codec, vs: seq<Seen>, n: nat, t: int) {
    exists m: nat :: LastShotBefore(c, vs, m, n) && vs[m].after == t
  }

  lemma {:induction false} EndedAtStep(c: Codec, vs: seq<Seen>, n: nat, t: int)
    requires n < |vs|
    ensures LastEndedAt(c, vs, n + 1, t) <==>
            if ShotAt(c, vs, n).Some? then vs[n].after == t else LastEndedAt(c, vs, n, t)
  {
    if m: nat :| LastShotBefore(c, vs, m, n + 1) && vs[m].after == t {
      LastShotSnoc(c, vs, m, n);
    }
    LastShotSnoc(c, vs, n, n);
    if m: nat :| LastShotBefore(c, vs, m, n) && vs[m].after == t {
      LastShotSnoc(c, vs, m, n);
    }
  }

  /** The grabber remembers when the last call ended. */
  lemma {:induction false} LastGrabIff(c: Codec, vs: seq<Seen>, n: nat, t: int)
    requires n <= |vs|
    ensures After(c, vs[..n]).lastGrab == Some(t) <==> LastEndedAt(c, vs, n, t)
    decreases n
  {
    if n != 0 {
      LastGrabStep(c, vs, n - 1);
      LastGrabIff(c, vs, n - 1, t);
      EndedAtStep(c, vs, n - 1, t);
    }
  }

  /** Ten seconds have passed since the last call ended, if there was one. */
  ghost predicate TenSecondsSince(c: Codec, vs: seq<Seen>, n: nat) {
    n < |vs| && forall m: nat :: LastShotBefore(c, vs, m, n) ==> vs[m].after + 10_000_000_000 <= vs[n].before
  }

  lemma {:induction false} DueIff(c: Codec, vs: seq<Seen>, n: nat)
    requires n < |vs|
    ensures Due(After(c, vs[..n]), vs[n]) <==> TenSecondsSince(c, vs, n)
  {
    var last := After(c, vs[..n]).lastGrab;
    forall m: nat | LastShotBefore(c, vs, m, n) ensures last == Some(vs[m].after) {
      LastGrabIff(c, vs, n, vs[m].after);
    }
    if last.Some? {
      LastGrabIff(c, vs, n, last.value);
      var m: nat :| LastShotBefore(c, vs, m, n) && vs[m].after == last.value;
    }
  }

  lemma {:induction false} RunHasEnded(c: Codec, vs: seq<Seen>, n: nat)
    requires n < |vs|
    ensures EndsRun(After(c, vs[..n]), vs[n]) <==> exists a: nat :: MaximalRun(vs, a, n)
    ensures forall a: nat :: MaximalRun(vs, a, n) ==> After(c, vs[..n]).buf == EncodedAll(c, vs[a..n])
  {
    var front := vs[..n];
    var st := After(c, front);
    BufferIsOneMoment(c, front);
    if front != [] && front[n - 1].pkt.isKeyFrame {
      var a: nat :| OneMoment(front, a, n) && st.buf == EncodedAll(c, front[a..]) && st.buf != [];
      MomentPrefix(vs, a, n);
      assert vs[n - 1].pkt.time == vs[a].pkt.time;
      assert front[a..] == vs[a..n];
      if EndsRun(st, vs[n]) {
        assert MaximalRun(vs, a, n);
      }
      forall b: nat | MaximalRun(vs, b, n) ensures b == a {
        MomentIsUnique(vs, a, b, n);
      }
    } else {
      assert n != 0 ==> vs[n - 1] == front[n - 1];
    }
  }

  /** Thumbnail assembly: makeFrame is called exactly when a maximal run of keyframe packets of
      one time has just ended and the last call ended at least ten seconds ago, and what it is given
      is the Annex B encoding of that run, whole and alone. */
  lemma {:induction false} ShotIsOneRun(c: Codec, vs: seq<Seen>, n: nat)
    requires n < |vs|
    ensures ShotAt(c, vs, n).Some? <==> TenSecondsSince(c, vs, n) && exists a: nat :: MaximalRun(vs, a, n)
    ensures ShotAt(c, vs, n).Some? ==>
              ShotAt(c, vs, n).value.before == vs[n].before && ShotAt(c, vs, n).value.after == vs[n].after
    ensures forall a: nat :: ShotAt(c, vs, n).Some? && MaximalRun(vs, a, n) ==>
              ShotAt(c, vs, n).value.bytes == EncodedAll(c, vs[a..n])
  {
    DueIff(c, vs, n);
    RunHasEnded(c, vs, n);
  }

  // ---------------------------------------------------------------- ten seconds apart

  /** The clock does not run backwards while a packet is looked at or between packets. */
  ghost predicate ClockForward(vs: seq<Seen>) {
    && (forall i :: 0 <= i < |vs| ==> vs[i].before <= vs[i].after)
    && (forall i, j :: 0 <= i < j < |vs| ==> vs[i].after <= vs[j].before)
  }

  lemma {:induction false} LastGrabKept(c: Codec, vs: seq<Seen>, m: nat, n: nat)
    requires ClockForward(vs) && m < n <= |vs| && ShotAt(c, vs, m).Some?
    ensures After(c, vs[..n]).lastGrab.Some? && vs[m].after <= After(c, vs[..n]).lastGrab.value
    decreases n
  {
    assert vs[..n][..n - 1] == vs[..n - 1];
    if m < n - 1 {
      LastGrabKept(c, vs, m, n - 1);
      assert vs[m].after <= vs[n - 1].before;
    }
  }

  /** Any two calls of makeFrame are at least ten seconds apart, from the end of the one to the
      start of the other. */
  lemma {:induction false} ShotsApart(c: Codec, vs: seq<Seen>, m: nat, n: nat)
    requires ClockForward(vs) && m < n < |vs|
    requires ShotAt(c, vs, m).Some? && ShotAt(c, vs, n).Some?
    ensures ShotAt(c, vs, m).value.after + 10_000_000_000 <= ShotAt(c, vs, n).value.before
  {
    LastGrabKept(c, vs, m, n);
  }

  // ---------------------------------------------------------------- B slices

  predicate NonKey(vs: seq<Seen>, i: nat) {
    i < |vs| && !vs[i].pkt.isKeyFrame
  }

  ghost predicate LastNonKey(vs: seq<Seen>, m: nat) {
    NonKey(vs, m) && forall j :: m < j < |vs| ==> vs[j].pkt.isKeyFrame
  }

  ghost predicate LastB(vs: seq<Seen>, b: nat) {
    NonKey(vs, b) && vs[b].hasB && forall j :: b < j < |vs| ==> vs[j].pkt.isKeyFrame || !vs[j].hasB
  }

  /** The latest B slice is at most thirty seconds before the latest packet that is no keyframe. */
  ghost predicate RecentB(vs: seq<Seen>) {
    exists b: nat, m: nat :: LastB(vs, b) && LastNonKey(vs, m) && vs[m].pkt.time - vs[b].pkt.time <= 30_000_000_000
  }

  ghost predicate TimesForward(vs: seq<Seen>) {
    && (forall i :: 0 <= i < |vs| ==> 0 < vs[i].pkt.time)
    && (forall i, j :: 0 <= i < j < |vs| ==> vs[i].pkt.time <= vs[j].pkt.time)
  }

  lemma {:induction false} LastBKept(front: seq<Seen>, v: Seen, b: nat)
    requires v.pkt.isKeyFrame || !v.hasB
    ensures LastB(front + [v], b) <==> LastB(front, b)
  {
    var vs := front + [v];
    assert forall i :: 0 <= i < |front| ==> vs[i] == front[i];
    assert vs[|front|] == v;
  }

  lemma {:induction false} LastNonKeyKept(front: seq<Seen>, v: Seen, m: nat)
    requires v.pkt.isKeyFrame
    ensures LastNonKey(front + [v], m) <==> LastNonKey(front, m)
  {
    var vs := front + [v];
    assert forall i :: 0 <= i < |front| ==> vs[i] == front[i];
    assert vs[|front|] == v;
  }

  lemma {:induction false} LastNonKeyIsNew(front: seq<Seen>, v: Seen, m: nat)
    requires !v.pkt.isKeyFrame
    ensures LastNonKey(front + [v], m) <==> m == |front|
  {
    var vs := front + [v];
    assert vs[|front|] == v;
  }

  lemma {:induction false} LastBIsNew(front: seq<Seen>, v: Seen, b: nat)
    requires !v.pkt.isKeyFrame && v.hasB
    ensures LastB(front + [v], b) <==> b == |front|
  {
    var vs := front + [v];
    assert vs[|front|] == v;
  }

  /** The memory of the grabber: the time of the last B slice while it is recent, else zero. */
  ghost predicate Remembers(vs: seq<Seen>, last: int) {
    && (last != 0 <==> RecentB(vs))
    && forall b: nat :: LastB(vs, b) && last != 0 ==> last == vs[b].pkt.time
  }

  lemma {:induction false} RememberKey(front: seq<Seen>, last: int, v: Seen)
    requires Remembers(front, last) && v.pkt.isKeyFrame
    ensures Remembers(front + [v], last)
  {
    var vs := front + [v];
    assert forall i :: 0 <= i < |front| ==> vs[i] == front[i];
    forall b: nat, m: nat
      ensures LastB(vs, b) <==> LastB(front, b)
      ensures LastNonKey(vs, m) <==> LastNonKey(front, m)
    {
      LastBKept(front, v, b);
      LastNonKeyKept(front, v, m);
    }
    if RecentB(front) {
      var b: nat, m: nat :| LastB(front, b) && LastNonKey(front, m) &&
                            front[m].pkt.time - front[b].pkt.time <= 30_000_000_000;
      assert LastB(vs, b) && LastNonKey(vs, m);
    }
    if RecentB(vs) {
      var b: nat, m: nat :| LastB(vs, b) && LastNonKey(vs, m) && vs[m].pkt.time - vs[b].pkt.time <= 30_000_000_000;
      assert LastB(front, b) && LastNonKey(front, m);
    }
  }

  lemma {:induction false} RememberB(front: seq<Seen>, v: Seen)
    requires !v.pkt.isKeyFrame && v.hasB && v.pkt.time != 0
    ensures Remembers(front + [v], v.pkt.time)
  {
    var vs, n := front + [v], |front|;
    LastNonKeyIsNew(front, v, n);
    LastBIsNew(front, v, n);
    assert RecentB(vs);
    forall b: nat | LastB(vs, b) ensures b == n {
      LastBIsNew(front, v, b);
    }
  }

  lemma {:induction false} RememberOther(front: seq<Seen>, last: int, v: Seen)
    requires TimesForward(front + [v]) && Remembers(front, last) && !v.pkt.isKeyFrame && !v.hasB
    ensures Remembers(front + [v], Window(last, v))
  {
    var vs, n := front + [v], |front|;
    assert forall i :: 0 <= i < n ==> vs[i] == front[i];
    assert vs[n] == v;
    LastNonKeyIsNew(front, v, n);
    forall b: nat ensures LastB(vs, b) <==> LastB(front, b) {
      LastBKept(front, v, b);
    }
    if RecentB(vs) {
      var b: nat, m: nat :| LastB(vs, b) && LastNonKey(vs, m) && vs[m].pkt.time - vs[b].pkt.time <= 30_000_000_000;
      LastNonKeyIsNew(front, v, m);
      StillRecent(front, v, b);
    }
    if last != 0 {
      var b: nat, m: nat :| LastB(front, b) && LastNonKey(front, m) &&
                            front[m].pkt.time - front[b].pkt.time <= 30_000_000_000;
      assert LastB(vs, b) && last == front[b].pkt.time;
      if v.pkt.time - last <= 30_000_000_000 {
        assert LastNonKey(vs, n);
      }
    }
  }

  /** A B slice recent now was recent before: time only moved on since. */
  lemma {:induction false} StillRecent(front: seq<Seen>, v: Seen, b: nat)
    requires TimesForward(front + [v]) && LastB(front, b) && v.pkt.time - front[b].pkt.time <= 30_000_000_000
    ensures RecentB(front)
  {
    var m := FindLastNonKey(front, b);
    var vs := front + [v];
    assert vs[m] == front[m] && vs[|front|] == v;
    assert vs[m].pkt.time <= vs[|front|].pkt.time;
  }

  lemma {:induction false} FindLastNonKey(vs: seq<Seen>, b: nat) returns (m: nat)
    requires NonKey(vs, b)
    ensures LastNonKey(vs, m)
    decreases |vs| - b
  {
    if j: nat :| b < j < |vs| && !vs[j].pkt.isKeyFrame {
      m := FindLastNonKey(vs, j);
    } else {
      m := b;
    }
  }

  /** For positive packet times that do not go back, the flag handed out with a frame says
      exactly whether the latest B slice is at most thirty seconds before the latest packet that
      is no keyframe. */
  lemma {:induction false} BframeFlagIsRecent(c: Codec, vs: seq<Seen>)
    requires TimesForward(vs)
    ensures Remembers(vs, After(c, vs).lastBframe)
    decreases |vs|
  {
    if vs != [] {
      var front, v := vs[..|vs| - 1], vs[|vs| - 1];
      assert vs == front + [v];
      assert TimesForward(front) && 0 < v.pkt.time;
      BframeFlagIsRecent(c, front);
      var last := After(c, front).lastBframe;
      if v.pkt.isKeyFrame {
        RememberKey(front, last, v);
      } else if v.hasB {
        RememberB(front, v);
      } else {
        RememberOther(front, last, v);
      }
    }
  }

  lemma {:induction false} ShotFlag(c: Codec, vs: seq<Seen>, n: nat)
    requires n < |vs| && TimesForward(vs[..n]) && ShotAt(c, vs, n).Some?
    ensures ShotAt(c, vs, n).value.hasBframes <==> RecentB(vs[..n])
  {
    BframeFlagIsRecent(c, vs[..n]);
  }
}
