/**
 The queueing of rtpReader (ingest/ftl/rtp.go), over any way of turning a datagram into
 packets: `step` is what the deframers do, and D is what they remember.

 The channel a reader receives from is the list of what will arrive on it; its end stands for
 the channel being closed, and Cancelled for the context ending first.
 */
module ReaderQueue {
  import opened Bytes
  import opened Wrappers
  import opened H264Util

  datatype RtpPacket = RtpPacket(ssrc: nat, payloadType: nat, sequenceNumber: nat, timestamp: nat, payload: seq<Byte>)

  datatype Arrival = Datagram(rp: RtpPacket) | Malformed | Cancelled

  datatype Failure = EndOfInput | BadDatagram | BadPayload | BufferRecursion | ClockOverflow | TimedOut

  datatype Deframed = Frames(packets: seq<Packet>) | Failed(why: Failure)

  datatype Reading = Got(packet: Packet) | Error(why: Failure)

  type Step<!D> = (D, RtpPacket) -> (D, Deframed)

  datatype ReaderState<D> = ReaderState(deframers: D, saved: seq<Packet>, input: seq<Arrival>)

  /** readPacket. */
  function Read<D>(step: Step<D>, s: ReaderState<D>): (ReaderState<D>, Reading)
    decreases |s.input|
  {
    if s.saved != [] then (s.(saved := s.saved[1..]), Got(s.saved[0]))
    else if s.input == [] then (s, Error(EndOfInput))
    else
      var s1 := s.(input := s.input[1..]);
      match s.input[0]
      case Cancelled => (s1, Error(EndOfInput))
      case Malformed => (s1, Error(BadDatagram))
      case Datagram(rp) =>
        var (ds, r) := step(s.deframers, rp);
        var s2 := s1.(deframers := ds);
        match r
        case Failed(why) => (s2, Error(why))
        case Frames(ps) => if ps == [] then Read(step, s2) else (s2.(saved := ps[1..]), Got(ps[0]))
  }

  // ---------------------------------------------------------------- lossless and in order

  /** What a list of arrivals turns into: the deframers after it and every packet it yields.
      None when one of them is an error. */
  function Yield<D>(step: Step<D>, ds: D, input: seq<Arrival>): Option<(D, seq<Packet>)>
    decreases |input|
  {
    if input == [] then Some((ds, []))
    else if !input[0].Datagram? then None
    else
      var (ds1, r) := step(ds, input[0].rp);
      if r.Failed? then None
      else
        match Yield(step, ds1, input[1..])
        case None => None
        case Some((ds2, rest)) => Some((ds2, r.packets + rest))
  }

  /** `n` packets read without an error, and the state after them. */
  function Reads<D>(step: Step<D>, n: nat, s: ReaderState<D>): Option<(ReaderState<D>, seq<Packet>)>
    decreases n
  {
    if n == 0 then Some((s, []))
    else
      var (s1, r) := Read(step, s);
      if r.Error? then None
      else
        match Reads(step, n - 1, s1)
        case None => None
        case Some((s2, rest)) => Some((s2, [r.packet] + rest))
  }

  /** `s'` is `s` after the first `k` arrivals were taken and `handed` given out: nothing lost,
      nothing reordered, nothing invented. */
  ghost predicate Accounts<D>(step: Step<D>, s: ReaderState<D>, k: nat, handed: seq<Packet>, s': ReaderState<D>) {
    && k <= |s.input|
    && s'.input == s.input[k..]
    && var y := Yield(step, s.deframers, s.input[..k]);
       && y.Some?
       && s'.deframers == y.value.0
       && handed + s'.saved == s.saved + y.value.1
  }

  lemma {:induction false} YieldAppend<D>(step: Step<D>, ds: D, a: seq<Arrival>, ds1: D, pa: seq<Packet>,
                                          b: seq<Arrival>, ds2: D, pb: seq<Packet>)
    requires Yield(step, ds, a) == Some((ds1, pa)) && Yield(step, ds1, b) == Some((ds2, pb))
    ensures Yield(step, ds, a + b) == Some((ds2, pa + pb))
    decreases |a|
  {
    if a == [] {
      assert a + b == b && pa + pb == pb;
    } else {
      var (next, r) := step(ds, a[0].rp);
      var rest := Yield(step, next, a[1..]).value.1;
      YieldAppend(step, next, a[1..], ds1, rest, b, ds2, pb);
      assert (a + b)[0] == a[0] && (a + b)[1..] == a[1..] + b;
      assert pa + pb == r.packets + (rest + pb);
    }
  }

  lemma {:induction false} AccountsTransitive<D>(step: Step<D>, s: ReaderState<D>, k: nat, h1: seq<Packet>,
                                                 s1: ReaderState<D>, j: nat, h2: seq<Packet>, s2: ReaderState<D>)
    requires Accounts(step, s, k, h1, s1) && Accounts(step, s1, j, h2, s2)
    ensures Accounts(step, s, k + j, h1 + h2, s2)
  {
    var p1 := Yield(step, s.deframers, s.input[..k]).value.1;
    var p2 := Yield(step, s1.deframers, s1.input[..j]).value.1;
    YieldAppend(step, s.deframers, s.input[..k], s1.deframers, p1, s1.input[..j], s2.deframers, p2);
    assert s.input[..k] + s1.input[..j] == s.input[..k + j];
    assert s1.input[j..] == s.input[k + j..];
    calc {
      (h1 + h2) + s2.saved;
      h1 + (h2 + s2.saved);
      h1 + (s1.saved + p2);
      (h1 + s1.saved) + p2;
      s.saved + (p1 + p2);
    }
  }

  lemma {:induction false} ReadAccounts<D>(step: Step<D>, s: ReaderState<D>) returns (k: nat)
    requires Read(step, s).1.Got?
    ensures Accounts(step, s, k, [Read(step, s).1.packet], Read(step, s).0)
    decreases |s.input|
  {
    var (s', r) := Read(step, s);
    if s.saved != [] {
      k := 0;
    } else {
      var rp := s.input[0].rp;
      var (ds, out) := step(s.deframers, rp);
      var s2 := ReaderState(ds, [], s.input[1..]);
      var one := s.input[..1];
      assert one == [Datagram(rp)] && one[1..] == [];
      assert Yield(step, s.deframers, one) == Some((ds, out.packets + []));
      if out.packets == [] {
        assert Accounts(step, s, 1, [], s2);
        var j := ReadAccounts(step, s2);
        AccountsTransitive(step, s, 1, [], s2, j, [r.packet], s');
        assert [] + [r.packet] == [r.packet];
        k := 1 + j;
      } else {
        k := 1;
      }
    }
  }

  /** The reader is a lossless FIFO: in every error-free run the packets handed out, followed by
      those still queued, are what was queued before followed by all that the consumed
      datagrams yielded. */
  lemma {:induction false} LosslessFifo<D>(step: Step<D>, n: nat, s: ReaderState<D>) returns (k: nat)
    requires Reads(step, n, s).Some?
    ensures |Reads(step, n, s).value.1| == n
    ensures Accounts(step, s, k, Reads(step, n, s).value.1, Reads(step, n, s).value.0)
    decreases n
  {
    if n == 0 {
      k := 0;
    } else {
      var (s1, r) := Read(step, s);
      var k1 := ReadAccounts(step, s);
      var k2 := LosslessFifo(step, n - 1, s1);
      var (s2, rest) := Reads(step, n - 1, s1).value;
      AccountsTransitive(step, s, k1, [r.packet], s1, k2, rest, s2);
      k := k1 + k2;
    }
  }

  // ---------------------------------------------------------------- when a read succeeds

  /** The first `k` arrivals yield without an error, with what is saved, at least `n` packets. */
  ghost predicate Suffices<D>(step: Step<D>, s: ReaderState<D>, k: nat, n: nat) {
    && k <= |s.input|
    && Yield(step, s.deframers, s.input[..k]).Some?
    && n <= |s.saved| + |Yield(step, s.deframers, s.input[..k]).value.1|
  }

  lemma {:induction false} ReadGets<D>(step: Step<D>, s: ReaderState<D>, k: nat, n: nat) returns (k': nat)
    requires Suffices(step, s, k, n + 1)
    ensures Read(step, s).1.Got? && Suffices(step, Read(step, s).0, k', n)
    decreases |s.input|
  {
    if s.saved != [] {
      k' := k;
    } else {
      assert k != 0;
      var rp := s.input[0].rp;
      var (ds, r) := step(s.deframers, rp);
      var rest := s.input[1..];
      assert s.input[..k][0] == s.input[0] && s.input[..k][1..] == rest[..k - 1];
      if r.packets == [] {
        k' := ReadGets(step, ReaderState(ds, [], rest), k - 1, n);
      } else {
        k' := k - 1;
      }
    }
  }

  lemma {:induction false} ReadsEnough<D>(step: Step<D>, s: ReaderState<D>, k: nat, n: nat)
    requires Suffices(step, s, k, n)
    ensures Reads(step, n, s).Some?
    decreases n
  {
    if n != 0 {
      var k' := ReadGets(step, s, k, n - 1);
      ReadsEnough(step, Read(step, s).0, k', n - 1);
    }
  }

  /** Nothing holds the reader up: `n` reads succeed if and only if what is saved and what some of
      the arrivals yield are that many packets. */
  lemma {:induction false} ReadsIff<D>(step: Step<D>, n: nat, s: ReaderState<D>)
    ensures Reads(step, n, s).Some? <==> exists k: nat :: Suffices(step, s, k, n)
  {
    if Reads(step, n, s).Some? {
      var k := LosslessFifo(step, n, s);
      var (s', handed) := Reads(step, n, s).value;
      assert |handed + s'.saved| == |s.saved| + |Yield(step, s.deframers, s.input[..k]).value.1|;
      assert Suffices(step, s, k, n);
    }
    if k: nat :| Suffices(step, s, k, n) {
      ReadsEnough(step, s, k, n);
    }
  }

  /** The first `k` arrivals yield nothing, and then the reader cannot go on. */
  ghost predicate StopsAt<D>(step: Step<D>, s: ReaderState<D>, k: nat, why: Failure) {
    && k <= |s.input|
    && Yield(step, s.deframers, s.input[..k]).Some?
    && var (ds, ps) := Yield(step, s.deframers, s.input[..k]).value;
       && ps == []
       && if k == |s.input| then why == EndOfInput
          else
            match s.input[k]
            case Cancelled => why == EndOfInput
            case Malformed => why == BadDatagram
            case Datagram(rp) => step(ds, rp).1 == Failed(why)
  }

  lemma {:induction false} StopsLater<D>(step: Step<D>, s: ReaderState<D>, k: nat, why: Failure)
    requires s.input != [] && s.input[0].Datagram? && step(s.deframers, s.input[0].rp).1 == Frames([])
    ensures var s1 := ReaderState(step(s.deframers, s.input[0].rp).0, s.saved, s.input[1..]);
            StopsAt(step, s, k + 1, why) <==> StopsAt(step, s1, k, why)
  {
    var s1 := ReaderState(step(s.deframers, s.input[0].rp).0, s.saved, s.input[1..]);
    if k + 1 <= |s.input| {
      assert s.input[..k + 1][0] == s.input[0] && s.input[..k + 1][1..] == s1.input[..k];
      var y := Yield(step, s1.deframers, s1.input[..k]);
      if y.Some? {
        assert [] + y.value.1 == y.value.1;
      }
    }
  }

  /** Exactly which error a read returns. */
  lemma {:induction false} ReadErrorIff<D>(step: Step<D>, s: ReaderState<D>, why: Failure)
    ensures Read(step, s).1 == Error(why) <==> s.saved == [] && exists k: nat :: StopsAt(step, s, k, why)
    decreases |s.input|
  {
    if s.saved == [] {
      assert s.input[..0] == [];
      if s.input != [] && s.input[0].Datagram? && step(s.deframers, s.input[0].rp).1 == Frames([]) {
        var s1 := ReaderState(step(s.deframers, s.input[0].rp).0, s.saved, s.input[1..]);
        ReadErrorIff(step, s1, why);
        if k: nat :| StopsAt(step, s1, k, why) {
          StopsLater(step, s, k, why);
        }
        if k: nat :| StopsAt(step, s, k, why) {
          StopsLater(step, s, k - 1, why);
        }
      } else {
        StopsAtOnce(step, s, why);
      }
    }
  }

  lemma {:induction false} StopsAtOnce<D>(step: Step<D>, s: ReaderState<D>, why: Failure)
    requires s.saved == []
    requires s.input == [] || !s.input[0].Datagram? || step(s.deframers, s.input[0].rp).1 != Frames([])
    ensures (exists k: nat :: StopsAt(step, s, k, why)) <==> StopsAt(step, s, 0, why)
    ensures StopsAt(step, s, 0, why) <==> Read(step, s).1 == Error(why)
  {
    assert s.input[..0] == [];
    forall k: nat | k != 0 && k <= |s.input| ensures !StopsAt(step, s, k, why) {
      assert s.input[..k][0] == s.input[0];
    }
  }

  // ---------------------------------------------------------------- probing for codec data

  predicate IndexesBelow(packets: seq<Packet>, n: nat) {
    forall i :: 0 <= i < |packets| ==> 0 <= packets[i].idx < n
  }

  /** The deframers keep their number and tag every packet with one of their indexes. */
  ghost predicate WellTagged<D(!new)>(step: Step<D>, size: D -> nat, n: nat) {
    forall ds, rp :: size(ds) == n ==>
      && size(step(ds, rp).0) == n
      && (step(ds, rp).1.Frames? ==> IndexesBelow(step(ds, rp).1.packets, n))
  }

  lemma {:induction false} ReadIndexes<D(!new)>(step: Step<D>, size: D -> nat, s: ReaderState<D>)
    requires WellTagged(step, size, size(s.deframers)) && IndexesBelow(s.saved, size(s.deframers))
    ensures size(Read(step, s).0.deframers) == size(s.deframers)
    ensures IndexesBelow(Read(step, s).0.saved, size(s.deframers))
    ensures Read(step, s).1.Got? ==> 0 <= Read(step, s).1.packet.idx < size(s.deframers)
    decreases |s.input|
  {
    if s.saved == [] && s.input != [] && s.input[0].Datagram? {
      var (ds, r) := step(s.deframers, s.input[0].rp);
      if r.Frames? && r.packets == [] {
        ReadIndexes(step, size, ReaderState(ds, [], s.input[1..]));
      }
    }
  }

  lemma {:induction false} ReadsIndexes<D(!new)>(step: Step<D>, size: D -> nat, n: nat, s: ReaderState<D>)
    requires WellTagged(step, size, size(s.deframers)) && IndexesBelow(s.saved, size(s.deframers))
    requires Reads(step, n, s).Some?
    ensures IndexesBelow(Reads(step, n, s).value.1, size(s.deframers))
    decreases n
  {
    if n != 0 {
      ReadIndexes(step, size, s);
      ReadsIndexes(step, size, n - 1, Read(step, s).0);
    }
  }

  predicate AllKnown(known: seq<bool>) {
    forall i :: 0 <= i < |known| ==> known[i]
  }

  datatype Probe = Ready | Unready(why: Failure)

  /** What Streams knows after a packet: it asks the deframer the packet came from. */
  function Learn<D>(knows: (D, int) -> bool, ds: D, p: Packet, known: seq<bool>): (k: seq<bool>)
    ensures |k| == |known|
  {
    if 0 <= p.idx < |known| && knows(ds, p.idx) then known[p.idx := true] else known
  }

  /** The loop of Streams: read packets, and throw them away, until the codec data of every
      stream is known. `patience` is the number of packets read before its time is up. */
  function Probing<D>(step: Step<D>, knows: (D, int) -> bool, s: ReaderState<D>,
                      known: seq<bool>, patience: nat): (ReaderState<D>, Probe)
    decreases patience
  {
    if patience == 0 then (s, Unready(TimedOut))
    else
      var (s1, r) := Read(step, s);
      match r
      case Error(why) => (s1, Unready(why))
      case Got(p) =>
        var known' := Learn(knows, s1.deframers, p, known);
        if AllKnown(known') then (s1, Ready) else Probing(step, knows, s1, known', patience - 1)
  }

  /** Probing is a run of reads whose packets nobody gets: at least one, and it does not go on
      past the moment everything is known. */
  lemma {:induction false} ProbingReads<D>(step: Step<D>, knows: (D, int) -> bool, s: ReaderState<D>,
                                           known: seq<bool>, patience: nat) returns (n: nat)
    requires Probing(step, knows, s, known, patience).1.Ready?
    ensures 1 <= n <= patience
    ensures Reads(step, n, s).Some? && Reads(step, n, s).value.0 == Probing(step, knows, s, known, patience).0
    decreases patience
  {
    var (s1, r) := Read(step, s);
    var known' := Learn(knows, s1.deframers, r.packet, known);
    if AllKnown(known') {
      n := 1;
      assert Reads(step, 0, s1) == Some((s1, []));
    } else {
      var m := ProbingReads(step, knows, s1, known', patience - 1);
      n := m + 1;
    }
  }

  /** The `j`-th read got a packet of stream `i` at a moment when that stream was known. */
  ghost predicate SeenAt<D>(step: Step<D>, knows: (D, int) -> bool, s: ReaderState<D>, i: int, j: nat) {
    && Reads(step, j + 1, s).Some?
    && var (s1, ps) := Reads(step, j + 1, s).value;
       |ps| == j + 1 && ps[j].idx == i && knows(s1.deframers, i)
  }

  ghost predicate SeenBy<D>(step: Step<D>, knows: (D, int) -> bool, s: ReaderState<D>, i: int, m: nat) {
    exists j: nat :: j < m && SeenAt(step, knows, s, i, j)
  }

  /** `m` reads succeed, and every stream that was not known before was seen by them. */
  ghost predicate Learnt<D>(step: Step<D>, knows: (D, int) -> bool, s: ReaderState<D>, known: seq<bool>, m: nat) {
    Reads(step, m, s).Some? && forall i :: 0 <= i < |known| ==> known[i] || SeenBy(step, knows, s, i, m)
  }

  lemma {:induction false} SeenLater<D>(step: Step<D>, knows: (D, int) -> bool, s: ReaderState<D>, i: int, j: nat)
    requires Read(step, s).1.Got?
    ensures SeenAt(step, knows, s, i, j + 1) <==> SeenAt(step, knows, Read(step, s).0, i, j)
  {
  }

  lemma {:induction false} SeenFirst<D>(step: Step<D>, knows: (D, int) -> bool, s: ReaderState<D>, i: int)
    ensures SeenAt(step, knows, s, i, 0) <==>
            Read(step, s).1.Got? && Read(step, s).1.packet.idx == i && knows(Read(step, s).0.deframers, i)
  {
    if Read(step, s).1.Got? {
      assert Reads(step, 0, Read(step, s).0) == Some((Read(step, s).0, []));
    }
  }

  /** What the first read adds to what is known, and the others after it. */
  lemma {:induction false} SeenByStep<D>(step: Step<D>, knows: (D, int) -> bool, s: ReaderState<D>, i: int, m: nat)
    requires Read(step, s).1.Got?
    ensures SeenBy(step, knows, s, i, m + 1) <==>
            SeenAt(step, knows, s, i, 0) || SeenBy(step, knows, Read(step, s).0, i, m)
  {
    var s1 := Read(step, s).0;
    if j: nat :| j < m + 1 && SeenAt(step, knows, s, i, j) {
      if j != 0 {
        SeenLater(step, knows, s, i, j - 1);
        assert SeenAt(step, knows, s1, i, j - 1);
      }
    }
    if j: nat :| j < m && SeenAt(step, knows, s1, i, j) {
      SeenLater(step, knows, s, i, j);
      assert SeenAt(step, knows, s, i, j + 1);
    }
  }

  lemma {:induction false} LearntStep<D>(step: Step<D>, knows: (D, int) -> bool, s: ReaderState<D>,
                                         known: seq<bool>, m: nat)
    requires Read(step, s).1.Got?
    ensures var (s1, r) := Read(step, s);
            Learnt(step, knows, s, known, m + 1) <==>
            Learnt(step, knows, s1, Learn(knows, s1.deframers, r.packet, known), m)
  {
    var (s1, r) := Read(step, s);
    var known' := Learn(knows, s1.deframers, r.packet, known);
    assert Reads(step, m + 1, s).Some? <==> Reads(step, m, s1).Some?;
    forall i | 0 <= i < |known|
      ensures (known[i] || SeenBy(step, knows, s, i, m + 1)) <==> (known'[i] || SeenBy(step, knows, s1, i, m))
    {
      SeenByStep(step, knows, s, i, m);
      SeenFirst(step, knows, s, i);
    }
  }

  lemma {:induction false} LearntAlready<D>(step: Step<D>, knows: (D, int) -> bool, s: ReaderState<D>, known: seq<bool>)
    ensures Learnt(step, knows, s, known, 0) <==> AllKnown(known)
  {
  }

  ghost predicate LearntWithin<D>(step: Step<D>, knows: (D, int) -> bool, s: ReaderState<D>, known: seq<bool>,
                                  patience: nat) {
    exists m: nat :: 1 <= m <= patience && Learnt(step, knows, s, known, m)
  }

  lemma {:induction false} NothingLearnt<D>(step: Step<D>, knows: (D, int) -> bool, s: ReaderState<D>,
                                            known: seq<bool>, patience: nat)
    requires Read(step, s).1.Error?
    ensures !LearntWithin(step, knows, s, known, patience)
  {
  }

  lemma {:induction false} WithinStep<D>(step: Step<D>, knows: (D, int) -> bool, s: ReaderState<D>, known: seq<bool>,
                                         patience: nat)
    requires Read(step, s).1.Got? && 0 < patience
    ensures var (s1, r) := Read(step, s);
            var known' := Learn(knows, s1.deframers, r.packet, known);
            LearntWithin(step, knows, s, known, patience) <==>
            AllKnown(known') || LearntWithin(step, knows, s1, known', patience - 1)
  {
    var (s1, r) := Read(step, s);
    var known' := Learn(knows, s1.deframers, r.packet, known);
    LearntStep(step, knows, s, known, 0);
    LearntAlready(step, knows, s1, known');
    if m: nat :| 1 <= m <= patience - 1 && Learnt(step, knows, s1, known', m) {
      LearntStep(step, knows, s, known, m);
      assert Learnt(step, knows, s, known, m + 1);
    }
    if m: nat :| 1 <= m <= patience && Learnt(step, knows, s, known, m) {
      LearntStep(step, knows, s, known, m - 1);
      assert Learnt(step, knows, s1, known', m - 1);
    }
  }

  /** Exactly when probing succeeds: within its patience some number of reads, at least one, succeed
      and have shown a packet of every stream at a moment when that stream was known. */
  lemma {:induction false} ReadyIff<D>(step: Step<D>, knows: (D, int) -> bool, s: ReaderState<D>, known: seq<bool>,
                                       patience: nat)
    ensures Probing(step, knows, s, known, patience).1.Ready? <==> LearntWithin(step, knows, s, known, patience)
    decreases patience
  {
    var (s1, r) := Read(step, s);
    if r.Error? {
      NothingLearnt(step, knows, s, known, patience);
    } else if patience != 0 {
      WithinStep(step, knows, s, known, patience);
      ReadyIff(step, knows, s1, Learn(knows, s1.deframers, r.packet, known), patience - 1);
    }
  }

  ghost predicate FirstLearnt<D>(step: Step<D>, knows: (D, int) -> bool, s: ReaderState<D>, known: seq<bool>, m: nat) {
    1 <= m && Learnt(step, knows, s, known, m) && forall j: nat :: 1 <= j < m ==> !Learnt(step, knows, s, known, j)
  }

  lemma {:induction false} FirstLearntStep<D>(step: Step<D>, knows: (D, int) -> bool, s: ReaderState<D>,
                                              known: seq<bool>, m: nat)
    requires Read(step, s).1.Got?
    requires var (s1, r) := Read(step, s);
             var known' := Learn(knows, s1.deframers, r.packet, known);
             !AllKnown(known') && FirstLearnt(step, knows, s1, known', m)
    ensures FirstLearnt(step, knows, s, known, m + 1)
  {
    var (s1, r) := Read(step, s);
    LearntStep(step, knows, s, known, m);
    forall j: nat | 1 <= j < m + 1 ensures !Learnt(step, knows, s, known, j) {
      LearntStep(step, knows, s, known, j - 1);
      LearntAlready(step, knows, s1, Learn(knows, s1.deframers, r.packet, known));
    }
  }

  /** Probing stops at the first moment everything is known. */
  lemma {:induction false} ProbingStopsFirst<D>(step: Step<D>, knows: (D, int) -> bool, s: ReaderState<D>,
                                                known: seq<bool>, patience: nat) returns (m: nat)
    requires Probing(step, knows, s, known, patience).1.Ready?
    ensures m <= patience && FirstLearnt(step, knows, s, known, m)
    ensures Reads(step, m, s).value.0 == Probing(step, knows, s, known, patience).0
    decreases patience
  {
    var (s1, r) := Read(step, s);
    var known' := Learn(knows, s1.deframers, r.packet, known);
    if AllKnown(known') {
      m := 1;
      LearntStep(step, knows, s, known, 0);
      LearntAlready(step, knows, s1, known');
      assert Reads(step, 0, s1) == Some((s1, []));
    } else {
      var n := ProbingStopsFirst(step, knows, s1, known', patience - 1);
      m := n + 1;
      FirstLearntStep(step, knows, s, known, n);
    }
  }

  /** Why probing failed: its time was up, or a read failed. */
  lemma {:induction false} UnreadyWhy<D>(step: Step<D>, knows: (D, int) -> bool, s: ReaderState<D>, known: seq<bool>,
                                         patience: nat) returns (m: nat)
    requires Probing(step, knows, s, known, patience).1.Unready?
    ensures m <= patience && Reads(step, m, s).Some?
    ensures var why := Probing(step, knows, s, known, patience).1.why;
            if m == patience then why == TimedOut else Read(step, Reads(step, m, s).value.0).1 == Error(why)
    decreases patience
  {
    var (s1, r) := Read(step, s);
    if patience == 0 || r.Error? {
      m := 0;
    } else {
      var known' := Learn(knows, s1.deframers, r.packet, known);
      var n := UnreadyWhy(step, knows, s1, known', patience - 1);
      m := n + 1;
    }
  }

  /** What is known about a stream stays known. */
  ghost predicate Stable<D(!new)>(step: Step<D>, knows: (D, int) -> bool) {
    forall ds, rp, i :: knows(ds, i) ==> knows(step(ds, rp).0, i)
  }

  lemma {:induction false} ReadKeepsKnown<D(!new)>(step: Step<D>, knows: (D, int) -> bool, s: ReaderState<D>, i: int)
    requires Stable(step, knows) && knows(s.deframers, i)
    ensures knows(Read(step, s).0.deframers, i)
    decreases |s.input|
  {
    if s.saved == [] && s.input != [] && s.input[0].Datagram? {
      var (ds, r) := step(s.deframers, s.input[0].rp);
      assert knows(ds, i);
      if r.Frames? && r.packets == [] {
        ReadKeepsKnown(step, knows, ReaderState(ds, [], s.input[1..]), i);
      }
    }
  }

  /** When Streams succeeds, the codec data of every stream is known. */
  lemma {:induction false} ReadyMeansKnown<D(!new)>(step: Step<D>, knows: (D, int) -> bool, s: ReaderState<D>,
                                                    known: seq<bool>, patience: nat)
    requires Stable(step, knows) && Probing(step, knows, s, known, patience).1.Ready?
    requires forall i :: 0 <= i < |known| && known[i] ==> knows(s.deframers, i)
    ensures forall i :: 0 <= i < |known| ==> knows(Probing(step, knows, s, known, patience).0.deframers, i)
    decreases patience
  {
    var (s1, r) := Read(step, s);
    var known' := Learn(knows, s1.deframers, r.packet, known);
    forall i | 0 <= i < |known'| && known'[i] ensures knows(s1.deframers, i) {
      if known[i] {
        ReadKeepsKnown(step, knows, s, i);
      }
    }
    if !AllKnown(known') {
      ReadyMeansKnown(step, knows, s1, known', patience - 1);
    }
  }

  /** ReadPacket yields the stream without the packets that probing used up, and nothing else
      is missing from it. */
  lemma {:induction false} OnlyProbesAreLost<D>(step: Step<D>, knows: (D, int) -> bool, s: ReaderState<D>,
                             known: seq<bool>, patience: nat, n: nat) returns (k: nat, probed: seq<Packet>)
    requires var p := Probing(step, knows, s, known, patience);
             p.1.Ready? && Reads(step, n, p.0).Some?
    ensures var (s2, handed) := Reads(step, n, Probing(step, knows, s, known, patience).0).value;
            1 <= |probed| <= patience && |handed| == n && Accounts(step, s, k, probed + handed, s2)
  {
    var s1 := Probing(step, knows, s, known, patience).0;
    var m := ProbingReads(step, knows, s, known, patience);
    probed := Reads(step, m, s).value.1;
    var (s2, handed) := Reads(step, n, s1).value;
    var k1 := LosslessFifo(step, m, s);
    var k2 := LosslessFifo(step, n, s1);
    AccountsTransitive(step, s, k1, probed, s1, k2, handed, s2);
    k := k1 + k2;
  }
}
