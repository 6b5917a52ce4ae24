/**
 Which connection a datagram belongs to (ingest/ftl/rtp.go and hashKeys in
 ingest/ftl/handler.go): a table from keys to receivers that all connections share, and the
 keys, which encode the sender's address with or without an SSRC.
 */
module Routing {
  import opened Bytes
  import opened Wrappers

  type Address = seq<Byte>
  type Key = seq<Byte>

  const QUEUE_LIMIT: nat := 256

  // ---------------------------------------------------------------- keys

  predicate IsAddress(ip: Address) {
    |ip| == 4 || |ip| == 16
  }

  const V4_PREFIX: seq<Byte> := [0, 0, 0, 0, 0, 0, 0, 0, 0, 0, 255, 255]

  /** An IPv4 address in its four-byte form, however it was written; any other one as it is. */
  function Normal(ip: Address): Address {
    if |ip| == 16 && ip[..12] == V4_PREFIX then ip[12..] else ip
  }

  /** The same host: the same address, or an IPv4 address and its IPv4-mapped IPv6 form. */
  predicate SameHost(a: Address, b: Address) {
    || a == b
    || a == [0, 0, 0, 0, 0, 0, 0, 0, 0, 0, 255, 255] + b
    || b == [0, 0, 0, 0, 0, 0, 0, 0, 0, 0, 255, 255] + a
  }

  /** The normal form of an address has four bytes if there is such a form, and tells hosts apart. */
  lemma {:induction false} NormalIffSameHost(a: Address, b: Address)
    requires IsAddress(a) && IsAddress(b)
    ensures Normal(a) == Normal(b) <==> SameHost(a, b)
    ensures SameHost(a, b) && |b| == 4 ==> Normal(a) == b
  {
    var mapped: seq<Byte> := [0, 0, 0, 0, 0, 0, 0, 0, 0, 0, 255, 255];
    assert (mapped + a)[..12] == mapped && (mapped + a)[12..] == a;
    assert (mapped + b)[..12] == mapped && (mapped + b)[12..] == b;
    assert |a| == 16 ==> a == a[..12] + a[12..];
    assert |b| == 16 ==> b == b[..12] + b[12..];
  }

  function PingKey(ip: Address): Key {
    Normal(ip)
  }

  function StreamKey(ssrc: nat, ip: Address): Key {
    PutBigEndian(ssrc, 4) + Normal(ip)
  }

  function KeysOf(ip: Address, vssrc: nat, assrc: nat): seq<Key> {
    [PingKey(ip), StreamKey(assrc, ip), StreamKey(vssrc, ip)]
  }

  method HashKeys(address: Address, vssrc: nat, assrc: nat) returns (keys: seq<Key>)
    ensures keys == KeysOf(address, vssrc, assrc)
  {
    var ip := Normal(address);
    var pkey := ip;
    var keyb := new Byte[|ip| + 4];
    forall i | 0 <= i < |ip| {
      keyb[4 + i] := ip[i];
    }
    PutUint32(keyb, vssrc);
    assert keyb[4..] == ip;
    assert keyb[..] == keyb[..4] + keyb[4..];
    var vkey := keyb[..];
    PutUint32(keyb, assrc);
    assert keyb[4..] == ip;
    assert keyb[..] == keyb[..4] + keyb[4..];
    var akey := keyb[..];
    return [pkey, akey, vkey];
  }

  method PutUint32(b: array<Byte>, n: nat)
    requires 4 <= b.Length
    modifies b
    ensures b[..4] == PutBigEndian(n, 4)
    ensures forall i :: 4 <= i < b.Length ==> b[i] == old(b[i])
  {
    var s := PutBigEndian(n, 4);
    b[0], b[1], b[2], b[3] := s[0], s[1], s[2], s[3];
  }

  /** A stream key says exactly which SSRC at which address it is for. */
  lemma {:induction false} StreamKeyInjective(ssrc: nat, ip: Address, ssrc': nat, ip': Address)
    requires ssrc < TWO32 && ssrc' < TWO32 && IsAddress(ip) && IsAddress(ip')
    ensures StreamKey(ssrc, ip) == StreamKey(ssrc', ip') <==> ssrc == ssrc' && SameHost(ip, ip')
  {
    NormalIffSameHost(ip, ip');
    if StreamKey(ssrc, ip) == StreamKey(ssrc', ip') {
      assert StreamKey(ssrc, ip)[..4] == PutBigEndian(ssrc, 4) && StreamKey(ssrc, ip)[4..] == Normal(ip);
      assert StreamKey(ssrc', ip')[..4] == PutBigEndian(ssrc', 4) && StreamKey(ssrc', ip')[4..] == Normal(ip');
      Pow256Of4();
      PutInjective(ssrc, ssrc', 4);
    }
  }

  /** And it is never a ping key. */
  lemma {:induction false} StreamKeyIsNoPingKey(ssrc: nat, ip: Address, ip': Address)
    requires IsAddress(ip) && IsAddress(ip')
    ensures StreamKey(ssrc, ip) != PingKey(ip')
  {
    assert |StreamKey(ssrc, ip)| == 4 + |Normal(ip)|;
  }

  // ---------------------------------------------------------------- the table

  type Table = map<Key, nat>

  function AddKeys(t: Table, keys: seq<Key>, r: nat): Table
    decreases |keys|
  {
    if keys == [] then t else AddKeys(t[keys[0] := r], keys[1..], r)
  }

  function DeleteKeys(t: Table, keys: seq<Key>, r: nat): Table
    decreases |keys|
  {
    if keys == [] then t
    else DeleteKeys(if keys[0] in t && t[keys[0]] == r then t - {keys[0]} else t, keys[1..], r)
  }

  function Lookup(t: Table, k: Key): Option<nat> {
    if k in t then Some(t[k]) else None
  }

  lemma {:induction false} LookupAdded(t: Table, keys: seq<Key>, r: nat, k: Key)
    ensures Lookup(AddKeys(t, keys, r), k) == if k in keys then Some(r) else Lookup(t, k)
    decreases |keys|
  {
    if keys != [] {
      LookupAdded(t[keys[0] := r], keys[1..], r, k);
    }
  }

  /** Deleting takes away the receiver's own routes under these keys, and no others. */
  lemma {:induction false} LookupDeleted(t: Table, keys: seq<Key>, r: nat, k: Key)
    ensures Lookup(DeleteKeys(t, keys, r), k) ==
            if k in keys && Lookup(t, k) == Some(r) then None else Lookup(t, k)
    decreases |keys|
  {
    if keys != [] {
      var t1 := if keys[0] in t && t[keys[0]] == r then t - {keys[0]} else t;
      LookupDeleted(t1, keys[1..], r, k);
    }
  }

  datatype Event = Add(keys: seq<Key>, r: nat) | Delete(keys: seq<Key>, r: nat)

  /** The table after any run of additions and deletions by any number of connections. */
  function Run(es: seq<Event>): Table {
    if es == [] then map[]
    else
      var t := Run(es[..|es| - 1]);
      match es[|es| - 1]
      case Add(keys, r) => AddKeys(t, keys, r)
      case Delete(keys, r) => DeleteKeys(t, keys, r)
  }

  /** Step `i` routed `k` to `r`; nobody has routed it since, and `r` has not given it up. */
  ghost predicate RoutedAt(es: seq<Event>, i: nat, k: Key, r: nat) {
    && i < |es| && es[i].Add? && es[i].r == r && k in es[i].keys
    && forall j :: i < j < |es| && k in es[j].keys ==> es[j].Delete? && es[j].r != r
  }

  /** The table agrees with its history: a key leads to the receiver most recently added under
      it, and to nothing once that one is deleted. */
  lemma {:induction false} TableAgreesWithHistory(es: seq<Event>, k: Key, r: nat)
    ensures Lookup(Run(es), k) == Some(r) <==> exists i: nat :: RoutedAt(es, i, k, r)
    decreases |es|
  {
    if es != [] {
      var n := |es| - 1;
      var front, e := es[..n], es[n];
      TableAgreesWithHistory(front, k, r);
      if e.Add? {
        LookupAdded(Run(front), e.keys, e.r, k);
      } else {
        LookupDeleted(Run(front), e.keys, e.r, k);
      }
      if Lookup(Run(es), k) == Some(r) {
        if e.Add? && k in e.keys {
          assert RoutedAt(es, n, k, r);
        } else {
          var i: nat :| RoutedAt(front, i, k, r);
          assert RoutedAt(es, i, k, r);
        }
      }
      if i: nat :| RoutedAt(es, i, k, r) {
        if i < n {
          assert RoutedAt(front, i, k, r);
        }
      }
    }
  }

  /** Every receiver has been deleted with the keys it was added under. */
  ghost predicate AllDeleted(es: seq<Event>) {
    forall i :: 0 <= i < |es| && es[i].Add? ==>
      exists j :: i < j < |es| && es[j] == Delete(es[i].keys, es[i].r)
  }

  lemma {:induction false} EmptyOnceAllDeleted(es: seq<Event>)
    requires AllDeleted(es)
    ensures Run(es) == map[]
  {
    forall k ensures Lookup(Run(es), k).None? {
      forall r: nat ensures Lookup(Run(es), k) != Some(r) {
        TableAgreesWithHistory(es, k, r);
        forall i: nat ensures !RoutedAt(es, i, k, r) {
          if i < |es| && es[i].Add? && k in es[i].keys {
            var j :| i < j < |es| && es[j] == Delete(es[i].keys, es[i].r);
            assert k in es[j].keys;
          }
        }
      }
    }
    assert forall k :: k in Run(es) ==> Lookup(Run(es), k).Some?;
  }

  /** A connection that ends late takes nothing from the one that replaced it. */
  lemma {:induction false} StaleDeleteIsHarmless(t: Table, keys: seq<Key>, r: nat, k: Key)
    requires Lookup(t, k) != Some(r)
    ensures Lookup(DeleteKeys(t, keys, r), k) == Lookup(t, k)
  {
    LookupDeleted(t, keys, r, k);
  }

  // ---------------------------------------------------------------- datagrams

  datatype Route = Drop | Ping(known: bool) | To(r: nat)

  predicate IsPing(d: seq<Byte>)
    requires 2 <= |d|
  {
    d[0] == 0x81 && d[1] == 0xfa
  }

  /** A datagram that carries media: long enough, no ping, no RTCP sender report. */
  predicate IsMedia(d: seq<Byte>) {
    12 <= |d| && !(d[0] == 129 && d[1] == 250) && d[1] != 200
  }

  /** The SSRC of a datagram, in network byte order. */
  function Ssrc(d: seq<Byte>): nat
    requires 12 <= |d|
  {
    (((d[8] as nat) * 256 + d[9]) * 256 + d[10]) * 256 + d[11]
  }

  /** The lookup of serveRTP. */
  function RouteOf(t: Table, d: seq<Byte>, from: Address): Route {
    if |d| < 12 then Drop
    else if IsPing(d) then Ping(Lookup(t, PingKey(from)).Some?)
    else if d[1] == 0xc8 then Drop
    else
      match Lookup(t, d[8..12] + Normal(from))
      case None => Drop
      case Some(r) => To(r)
  }

  class Server {
    var receivers: Table
    var queues: map<nat, seq<seq<Byte>>>

    method AddReceiver(keys: seq<Key>, r: nat)
      modifies this`receivers
      ensures receivers == AddKeys(old(receivers), keys, r)
    {
      for i := 0 to |keys|
        invariant AddKeys(receivers, keys[i..], r) == AddKeys(old(receivers), keys, r)
      {
        receivers := receivers[keys[i] := r];
        assert keys[i..][1..] == keys[i + 1..];
      }
    }

    method DelReceiver(keys: seq<Key>, r: nat)
      modifies this`receivers
      ensures receivers == DeleteKeys(old(receivers), keys, r)
    {
      for i := 0 to |keys|
        invariant DeleteKeys(receivers, keys[i..], r) == DeleteKeys(old(receivers), keys, r)
      {
        if keys[i] in receivers && receivers[keys[i]] == r {
          receivers := receivers - {keys[i]};
        }
        assert keys[i..][1..] == keys[i + 1..];
      }
    }

    /** The body of the serveRTP loop; `answer` is whether a ping is sent back. */
    method HandleDatagram(d: seq<Byte>, from: Address) returns (answer: bool)
      requires forall k :: k in receivers ==> receivers[k] in queues
      modifies this`queues
      ensures answer == (RouteOf(receivers, d, from) == Ping(true))
      ensures match RouteOf(receivers, d, from)
              case To(r) =>
                && r in old(queues)
                && queues == old(queues)[r := var q := old(queues)[r]; if |q| < 256 then q + [d] else q]
              case _ => queues == old(queues)
    {
      answer := false;
      if |d| < 12 {
        return;
      }
      var ip := Normal(from);
      if d[0] == 0x81 && d[1] == 0xfa {
        return ip in receivers;
      } else if d[1] == 0xc8 {
        return;
      }
      var key := d[8..12] + ip;
      if key !in receivers {
        return;
      }
      var r := receivers[key];
      if |queues[r]| < QUEUE_LIMIT {
        queues := queues[r := queues[r] + [d]];
      }
    }
  }

  // ---------------------------------------------------------------- faithful delivery

  /** One live connection: where it came from and the SSRCs it declared. */
  datatype Session = Session(r: nat, ip: Address, vssrc: nat, assrc: nat)

  datatype Change = Opened(s: Session) | Closed(s: Session)

  predicate ValidChange(c: Change) {
    IsAddress(c.s.ip) && c.s.vssrc < TWO32 && c.s.assrc < TWO32
  }

  function AsEvent(c: Change): Event {
    var keys := KeysOf(c.s.ip, c.s.vssrc, c.s.assrc);
    if c.Opened? then Add(keys, c.s.r) else Delete(keys, c.s.r)
  }

  function AsEvents(cs: seq<Change>): (es: seq<Event>)
    ensures |es| == |cs|
    ensures forall i :: 0 <= i < |cs| ==> es[i] == AsEvent(cs[i])
  {
    if cs == [] then [] else AsEvents(cs[..|cs| - 1]) + [AsEvent(cs[|cs| - 1])]
  }

  /** The session declared this SSRC, and speaks from this address. */
  predicate Claims(s: Session, ssrc: nat, from: Address) {
    SameHost(s.ip, from) && (ssrc == s.vssrc || ssrc == s.assrc)
  }

  lemma {:induction false} KeyIffClaims(s: Session, ssrc: nat, from: Address)
    requires ValidChange(Opened(s)) && IsAddress(from) && ssrc < TWO32
    ensures StreamKey(ssrc, from) in KeysOf(s.ip, s.vssrc, s.assrc) <==> Claims(s, ssrc, from)
  {
    StreamKeyIsNoPingKey(ssrc, from, s.ip);
    StreamKeyInjective(ssrc, from, s.vssrc, s.ip);
    StreamKeyInjective(ssrc, from, s.assrc, s.ip);
  }

  /** Session change `i` opened the latest claim to the stream, and it still stands. */
  ghost predicate ClaimedAt(cs: seq<Change>, i: nat, ssrc: nat, from: Address, r: nat) {
    && i < |cs| && cs[i].Opened? && cs[i].s.r == r && Claims(cs[i].s, ssrc, from)
    && forall j :: i < j < |cs| && Claims(cs[j].s, ssrc, from) ==> cs[j].Closed? && cs[j].s.r != r
  }

  ghost predicate Corresponds(e: Event, c: Change, k: Key, ssrc: nat, from: Address) {
    e.Add? == c.Opened? && e.r == c.s.r && (k in e.keys <==> Claims(c.s, ssrc, from))
  }

  lemma {:induction false} ChangeCorresponds(c: Change, ssrc: nat, from: Address)
    requires ValidChange(c) && IsAddress(from) && ssrc < TWO32
    ensures Corresponds(AsEvent(c), c, StreamKey(ssrc, from), ssrc, from)
  {
    KeyIffClaims(c.s, ssrc, from);
  }

  lemma {:induction false} RoutedIffClaimed(es: seq<Event>, cs: seq<Change>, i: nat, k: Key,
                                            ssrc: nat, from: Address, r: nat)
    requires |es| == |cs|
    requires forall j :: 0 <= j < |cs| ==> Corresponds(es[j], cs[j], k, ssrc, from)
    ensures RoutedAt(es, i, k, r) <==> ClaimedAt(cs, i, ssrc, from, r)
  {
  }

  lemma {:induction false} SsrcKey(d: seq<Byte>, from: Address)
    requires 12 <= |d|
    ensures Ssrc(d) < TWO32 && StreamKey(Ssrc(d), from) == d[8..12] + Normal(from)
  {
    NetworkOrder(d[8], d[9], d[10], d[11]);
    assert d[8..12] == [d[8], d[9], d[10], d[11]];
    BigEndianBound(d[8..12]);
    Pow256Of4();
    ReadThenPut(d[8..12]);
  }

  lemma {:induction false} RouteIffClaimed(cs: seq<Change>, ssrc: nat, from: Address, r: nat)
    requires forall i :: 0 <= i < |cs| ==> ValidChange(cs[i])
    requires IsAddress(from) && ssrc < TWO32
    ensures Lookup(Run(AsEvents(cs)), StreamKey(ssrc, from)) == Some(r) <==>
            exists i: nat :: ClaimedAt(cs, i, ssrc, from, r)
  {
    var es, k := AsEvents(cs), StreamKey(ssrc, from);
    TableAgreesWithHistory(es, k, r);
    forall j | 0 <= j < |cs| ensures Corresponds(es[j], cs[j], k, ssrc, from) {
      ChangeCorresponds(cs[j], ssrc, from);
    }
    forall i: nat ensures RoutedAt(es, i, k, r) <==> ClaimedAt(cs, i, ssrc, from, r) {
      RoutedIffClaimed(es, cs, i, k, ssrc, from, r);
    }
  }

  /** Delivery is faithful: after any history of connections, a datagram reaches a queue exactly
      when it is media and that connection's claim to its SSRC, from the same address, is the
      latest one and still open. */
  lemma {:induction false} DeliveryIsFaithful(cs: seq<Change>, d: seq<Byte>, from: Address, r: nat)
    requires forall i :: 0 <= i < |cs| ==> ValidChange(cs[i])
    requires IsAddress(from)
    ensures RouteOf(Run(AsEvents(cs)), d, from) == To(r) <==>
            IsMedia(d) && exists i: nat :: ClaimedAt(cs, i, Ssrc(d), from, r)
  {
    if IsMedia(d) {
      SsrcKey(d, from);
      RouteIffClaimed(cs, Ssrc(d), from, r);
    }
  }

  // ---------------------------------------------------------------- pings

  /** Change `i` opened the latest connection from this address, and that one is still open. */
  ghost predicate PresentAt(cs: seq<Change>, i: nat, from: Address) {
    && i < |cs| && cs[i].Opened? && SameHost(cs[i].s.ip, from)
    && forall j :: i < j < |cs| && SameHost(cs[j].s.ip, from) ==> cs[j].Closed? && cs[j].s.r != cs[i].s.r
  }

  lemma {:induction false} PingKeyIff(c: Change, from: Address)
    requires ValidChange(c) && IsAddress(from)
    ensures PingKey(from) in AsEvent(c).keys <==> SameHost(c.s.ip, from)
  {
    NormalIffSameHost(c.s.ip, from);
    StreamKeyIsNoPingKey(c.s.vssrc, c.s.ip, from);
    StreamKeyIsNoPingKey(c.s.assrc, c.s.ip, from);
  }

  lemma {:induction false} RoutedIffPresent(cs: seq<Change>, i: nat, from: Address, r: nat)
    requires forall j :: 0 <= j < |cs| ==> ValidChange(cs[j])
    requires IsAddress(from)
    ensures RoutedAt(AsEvents(cs), i, PingKey(from), r) <==> PresentAt(cs, i, from) && cs[i].s.r == r
  {
    var es := AsEvents(cs);
    forall j | 0 <= j < |cs| ensures PingKey(from) in es[j].keys <==> SameHost(cs[j].s.ip, from) {
      PingKeyIff(cs[j], from);
    }
  }

  /** A ping is answered exactly when the connection opened last from its address is still open. */
  lemma {:induction false} PingAnsweredIff(cs: seq<Change>, d: seq<Byte>, from: Address)
    requires forall j :: 0 <= j < |cs| ==> ValidChange(cs[j])
    requires IsAddress(from)
    ensures RouteOf(Run(AsEvents(cs)), d, from) == Ping(true) <==>
            12 <= |d| && d[0] == 129 && d[1] == 250 && exists i: nat :: PresentAt(cs, i, from)
  {
    var t, k := Run(AsEvents(cs)), PingKey(from);
    if k in t {
      TableAgreesWithHistory(AsEvents(cs), k, t[k]);
      var i: nat :| RoutedAt(AsEvents(cs), i, k, t[k]);
      RoutedIffPresent(cs, i, from, t[k]);
    }
    if i: nat :| PresentAt(cs, i, from) {
      RoutedIffPresent(cs, i, from, cs[i].s.r);
      TableAgreesWithHistory(AsEvents(cs), k, cs[i].s.r);
    }
  }

  /** So an earlier connection from the same address, still open, does not get its pings answered
      once a later one has closed. */
  lemma {:induction false} OlderConnectionUnanswered(a: Session, b: Session, d: seq<Byte>)
    requires ValidChange(Opened(a)) && ValidChange(Opened(b)) && SameHost(a.ip, b.ip) && a.r != b.r
    ensures RouteOf(Run(AsEvents([Opened(a), Opened(b), Closed(b)])), d, a.ip) != Ping(true)
  {
    var cs := [Opened(a), Opened(b), Closed(b)];
    PingAnsweredIff(cs, d, a.ip);
    forall i: nat ensures !PresentAt(cs, i, a.ip) {
      assert cs[1] == Opened(b) && cs[2] == Closed(b);
    }
  }
}
