/** Whole runs through the connection objects themselves: a sender, a receiver, and a network in between. */
module Endpoints {
  import opened Bytes
  import opened CidCodec
  import opened CidSession
  import opened Transport
  import opened Transparency
  import opened ManySources
  import opened Wrappers

  /** Nothing the receiver changes belongs to the sender. */
  ghost predicate Separate(sender: MagicConn, receiver: MagicConn)
    reads sender.clientCache, sender.sessions, receiver.clientCache, receiver.sessions
  {
    && sender != receiver
    && Footprint(sender) !! Footprint(receiver)
    && sender !in Footprint(receiver) && receiver !in Footprint(sender)
  }

  ghost function Footprint(c: MagicConn): set<object>
    reads c.clientCache, c.sessions
  {
    {c.clientCache, c.sessions} + c.clientCache.Repr + c.sessions.Repr
  }

  function Datagrams(queue: seq<Flight>, source: string): (ps: seq<Packet>)
    ensures |ps| == |queue|
  {
    seq(|queue|, i requires 0 <= i < |queue| => Datagram(queue[i].wire, Some(source)))
  }

  /** The objects hold what the run says they hold. */
  ghost predicate Holds(sender: MagicConn, receiver: MagicConn, source: string, s: System)
    reads sender, receiver, receiver.clientCache, receiver.sessions, receiver.sessions.m.Values
  {
    && sender.txCounts == s.counts
    && receiver.recvQueue == Datagrams(s.queue, source)
    && receiver.Known(source) == s.log
  }

  method Send(sender: MagicConn, data: Bytestring, seed: Seed) returns (wire: Bytestring)
    requires sender.Valid()
    modifies sender`txCounts
    ensures sender.Valid()
    ensures (wire, sender.txCounts) == Emit(sender.codec.secret, sender.obfuscationEnabled, old(sender.txCounts), data, seed)
  {
    var p := new Byte[|data|](i requires 0 <= i < |data| => data[i]);
    assert p[..] == data;
    sender.WriteTo(p, seed);
    wire := p[..];
  }

  /** One read into a buffer as long as the datagram. */
  method Receive(receiver: MagicConn, source: string) returns (data: Bytestring)
    requires receiver.Valid() && receiver.recvQueue != []
    requires receiver.recvQueue[0].Datagram? && receiver.recvQueue[0].addr == Some(source)
    modifies receiver`recvQueue, receiver.clientCache.Repr, receiver.sessions, receiver.sessions.Repr
    ensures receiver.Valid()
    ensures fresh(receiver.clientCache.Repr - old(receiver.clientCache.Repr))
    ensures fresh(receiver.sessions.Repr - old(receiver.sessions.Repr))
    ensures receiver.recvQueue == old(receiver.recvQueue)[1..]
    ensures data == Restore(receiver.codec.secret, old(receiver.Known(source)), old(receiver.recvQueue)[0].data)
    ensures receiver.Known(source) == Learnt(receiver.codec.secret, old(receiver.Known(source)), old(receiver.recvQueue)[0].data)
    ensures receiver.isServer ==> forall a :: a != source ==> receiver.Known(a) == old(receiver.Known(a))
  {
    hide Restore, Learnt, CidCache.Valid, ServerSessionMap.Valid;
    ghost var wire := receiver.recvQueue[0].data;
    var p := new Byte[|receiver.recvQueue[0].data|](i => 0);
    WholeBuffer(receiver.codec.secret, receiver.Known(source), wire, p[..]);
    var r := receiver.ReadFrom(p, false);
    data := p[..];
  }

  lemma WholeBuffer(k: Secret, log: seq<Cid>, data: Bytestring, buf: Bytestring)
    requires ValidSecret(k) && |buf| == |data|
    ensures Received(k, log, data, buf) == Restore(k, log, data)
    ensures |data| == 0 ==> Replacement(k, log, data).None?
  {
    assert Overlay(buf, 0, data) == data;
  }

  /** The part of a run that happens outside the connections. */
  datatype Trace = Trace(sent: seq<Flight>, queue: seq<Flight>, delivered: seq<(Flight, Bytestring)>)

  function TraceOf(s: System): Trace {
    Trace(s.sent, s.queue, s.delivered)
  }

  /** One event: a write, an arrival at the receiver's queue, or a read. */
  method PlayEvent(sender: MagicConn, receiver: MagicConn, source: string, e: Event, t: Trace, ghost s: System)
    returns (t': Trace)
    requires sender.Valid() && receiver.Valid() && Separate(sender, receiver)
    requires sender.codec.secret == receiver.codec.secret && ValidSecret(sender.codec.secret)
    requires t == TraceOf(s) && Holds(sender, receiver, source, s)
    modifies sender`txCounts, receiver`recvQueue, receiver.clientCache.Repr, receiver.sessions, receiver.sessions.Repr
    ensures sender.Valid() && receiver.Valid() && Separate(sender, receiver)
    ensures fresh(receiver.clientCache.Repr - old(receiver.clientCache.Repr))
    ensures fresh(receiver.sessions.Repr - old(receiver.sessions.Repr))
    ensures var s' := After(sender.codec.secret, sender.obfuscationEnabled, s, e);
            t' == TraceOf(s') && Holds(sender, receiver, source, s')
    ensures receiver.isServer ==> forall a :: a != source ==> receiver.Known(a) == old(receiver.Known(a))
  {
    hide MagicConn.Valid, Emit, Restore, Learnt;
    t' := t;
    match e
    case Write(data, seed) =>
      var wire := Send(sender, data, seed);
      t' := t.(sent := t.sent + [Flight(data, seed, wire)]);
    case Arrive(i) =>
      if i < |t.sent| {
        var queued := receiver.Offer(Datagram(t.sent[i].wire, Some(source)), false);
        if queued {
          t' := t.(queue := t.queue + [t.sent[i]]);
        }
      }
    case Read =>
      if t.queue != [] {
        var data := Receive(receiver, source);
        t' := t.(queue := t.queue[1..], delivered := t.delivered + [(t.queue[0], data)]);
      }
  }

  /** Any run of writes, arrivals and reads, played through the two connections, goes as the model of it says. */
  method PlayRun(sender: MagicConn, receiver: MagicConn, source: string, events: seq<Event>)
    returns (delivered: seq<(Flight, Bytestring)>)
    requires sender.Valid() && receiver.Valid() && Separate(sender, receiver)
    requires sender.codec.secret == receiver.codec.secret
    requires sender.txCounts == map[] && receiver.recvQueue == []
    modifies sender`txCounts, receiver`recvQueue, receiver.clientCache.Repr, receiver.sessions, receiver.sessions.Repr
    ensures sender.Valid() && receiver.Valid() && Separate(sender, receiver)
    ensures var s := Run(sender.codec.secret, sender.obfuscationEnabled, old(receiver.Known(source)), events);
            delivered == s.delivered && Holds(sender, receiver, source, s)
    ensures receiver.isServer ==> forall a :: a != source ==> receiver.Known(a) == old(receiver.Known(a))
  {
    hide MagicConn.Valid, Run, After, Separate, Holds;
    ghost var k, enabled, known := sender.codec.secret, sender.obfuscationEnabled, receiver.Known(source);
    var t := Trace([], [], []);
    StartsEmpty(sender, receiver, source);
    for i := 0 to |events|
      invariant sender.Valid() && receiver.Valid() && Separate(sender, receiver)
      invariant fresh(receiver.clientCache.Repr - old(receiver.clientCache.Repr))
      invariant fresh(receiver.sessions.Repr - old(receiver.sessions.Repr))
      invariant var s := Run(k, enabled, known, events[..i]); t == TraceOf(s) && Holds(sender, receiver, source, s)
      invariant receiver.isServer ==> forall a :: a != source ==> receiver.Known(a) == old(receiver.Known(a))
    {
      assert events[..i + 1] == events[..i] + [events[i]];
      RunStep(k, enabled, known, events[..i], events[i]);
      t := PlayEvent(sender, receiver, source, events[i], t, Run(k, enabled, known, events[..i]));
    }
    assert events[..|events|] == events;
    delivered := t.delivered;
  }

  lemma StartsEmpty(sender: MagicConn, receiver: MagicConn, source: string)
    requires sender.Valid() && sender.txCounts == map[] && receiver.recvQueue == []
    ensures ValidSecret(sender.codec.secret)
    ensures var s := Run(sender.codec.secret, sender.obfuscationEnabled, receiver.Known(source), []);
            TraceOf(s) == Trace([], [], []) && Holds(sender, receiver, source, s)
  {
  }

  // ----- a server and its many senders -----

  /** A sender of the source with this setting, ready to talk to the receiver. */
  ghost predicate Fits(c: MagicConn, receiver: MagicConn, k: Secret, on: bool)
    reads c, c.clientCache, c.clientCache.Repr, c.sessions, c.sessions.Repr, receiver.clientCache, receiver.sessions
  {
    c.Valid() && Separate(c, receiver) && c.codec.secret == k && c.obfuscationEnabled == on
  }

  ghost predicate AllFit(senders: map<string, MagicConn>, receiver: MagicConn, k: Secret, enabled: string -> bool)
    reads *
  {
    && (forall a :: a in senders ==> Fits(senders[a], receiver, k, enabled(a)))
    && (forall a, b :: a in senders && b in senders && a != b ==>
          senders[a] != senders[b] && senders[a] !in Footprint(senders[b]))
    && receiver.Valid() && receiver.codec.secret == k && receiver.isServer
  }

  function RoutedDatagrams(queue: seq<Routed>): (ps: seq<Packet>)
    ensures |ps| == |queue|
  {
    seq(|queue|, i requires 0 <= i < |queue| => Datagram(queue[i].flight.wire, Some(queue[i].source)))
  }

  lemma RoutedHead(queue: seq<Routed>)
    requires queue != []
    ensures RoutedDatagrams(queue)[0] == Datagram(queue[0].flight.wire, Some(queue[0].source))
    ensures RoutedDatagrams(queue)[1..] == RoutedDatagrams(queue[1..])
  {
  }

  ghost predicate CountsHold(senders: map<string, MagicConn>, counts: string -> map<Cid, nat>)
    reads senders.Values
  {
    forall a :: a in senders ==> senders[a].txCounts == counts(a)
  }

  ghost predicate ServerHolds(receiver: MagicConn, queue: seq<Routed>, logs: string -> seq<Cid>)
    reads receiver, receiver.clientCache, receiver.sessions, receiver.sessions.m.Values
  {
    receiver.recvQueue == RoutedDatagrams(queue) && forall a :: receiver.Known(a) == logs(a)
  }

  ghost predicate HubHolds(senders: map<string, MagicConn>, receiver: MagicConn, h: Hub)
    reads senders.Values, receiver, receiver.clientCache, receiver.sessions, receiver.sessions.m.Values
  {
    CountsHold(senders, h.counts) && ServerHolds(receiver, h.queue, h.logs)
  }

  datatype HubTrace = HubTrace(sent: seq<Routed>, queue: seq<Routed>, delivered: seq<(Routed, Bytestring)>)

  function HubTraceOf(h: Hub): HubTrace {
    HubTrace(h.sent, h.queue, h.delivered)
  }

  /** A write leaves the server and all other senders as they were. */
  method SendApart(senders: map<string, MagicConn>, receiver: MagicConn, k: Secret, enabled: string -> bool,
                   a: string, sender: MagicConn, data: Bytestring, seed: Seed)
    returns (wire: Bytestring)
    requires AllFit(senders, receiver, k, enabled) && a in senders && senders[a] == sender
    modifies sender`txCounts
    ensures AllFit(senders, receiver, k, enabled)
    ensures (wire, sender.txCounts) == Emit(sender.codec.secret, enabled(a), old(sender.txCounts), data, seed)
    ensures forall b :: b in senders && b != a ==> senders[b].txCounts == old(senders[b].txCounts)
  {
    hide MagicConn.Valid, Emit;
    assert Fits(senders[a], receiver, k, enabled(a));
    wire := Send(sender, data, seed);
    forall b | b in senders ensures Fits(senders[b], receiver, k, enabled(b)) {
      assert old(Fits(senders[b], receiver, k, enabled(b)));
    }
  }

  method SendFrom(senders: map<string, MagicConn>, receiver: MagicConn, k: Secret, enabled: string -> bool,
                  a: string, sender: MagicConn, data: Bytestring, seed: Seed, ghost h: Hub)
    returns (wire: Bytestring)
    requires ValidSecret(k) && AllFit(senders, receiver, k, enabled) && HubHolds(senders, receiver, h)
    requires a in senders && senders[a] == sender
    modifies sender`txCounts
    ensures AllFit(senders, receiver, k, enabled)
    ensures wire == Emit(k, enabled(a), h.counts(a), data, seed).0
    ensures HubHolds(senders, receiver, HubAfter(k, enabled, h, HubWrite(a, data, seed)))
  {
    hide MagicConn.Valid, Emit, RoutedDatagrams, Separate;
    assert Fits(sender, receiver, k, enabled(a));
    wire := SendApart(senders, receiver, k, enabled, a, sender, data, seed);
  }

  /** A read leaves every sender as it was. */
  method ReceiveApart(senders: map<string, MagicConn>, receiver: MagicConn, k: Secret, enabled: string -> bool, source: string)
    returns (data: Bytestring)
    requires AllFit(senders, receiver, k, enabled) && receiver.recvQueue != []
    requires receiver.recvQueue[0].Datagram? && receiver.recvQueue[0].addr == Some(source)
    modifies receiver`recvQueue, receiver.clientCache.Repr, receiver.sessions, receiver.sessions.Repr
    ensures AllFit(senders, receiver, k, enabled)
    ensures fresh(receiver.clientCache.Repr - old(receiver.clientCache.Repr))
    ensures fresh(receiver.sessions.Repr - old(receiver.sessions.Repr))
    ensures receiver.recvQueue == old(receiver.recvQueue)[1..]
    ensures data == Restore(receiver.codec.secret, old(receiver.Known(source)), old(receiver.recvQueue)[0].data)
    ensures receiver.Known(source) == Learnt(receiver.codec.secret, old(receiver.Known(source)), old(receiver.recvQueue)[0].data)
    ensures forall a :: a != source ==> receiver.Known(a) == old(receiver.Known(a))
    ensures forall a :: a in senders ==> senders[a].txCounts == old(senders[a].txCounts)
  {
    hide MagicConn.Valid, Restore, Learnt;
    data := Receive(receiver, source);
    forall b | b in senders
      ensures Fits(senders[b], receiver, k, enabled(b)) && senders[b].txCounts == old(senders[b].txCounts)
    {
      assert old(Fits(senders[b], receiver, k, enabled(b)));
    }
  }

  method ReadHub(senders: map<string, MagicConn>, receiver: MagicConn, k: Secret, enabled: string -> bool, source: string,
                 ghost h: Hub)
    returns (data: Bytestring)
    requires ValidSecret(k) && AllFit(senders, receiver, k, enabled) && HubHolds(senders, receiver, h)
    requires h.queue != [] && source == h.queue[0].source
    modifies receiver`recvQueue, receiver.clientCache.Repr, receiver.sessions, receiver.sessions.Repr
    ensures AllFit(senders, receiver, k, enabled)
    ensures fresh(receiver.clientCache.Repr - old(receiver.clientCache.Repr))
    ensures fresh(receiver.sessions.Repr - old(receiver.sessions.Repr))
    ensures data == Restore(k, h.logs(source), h.queue[0].flight.wire)
    ensures HubHolds(senders, receiver, HubAfter(k, enabled, h, HubRead))
  {
    hide MagicConn.Valid, Restore, Learnt, RoutedDatagrams, Fits;
    RoutedHead(h.queue);
    data := ReceiveApart(senders, receiver, k, enabled, source);
  }

  method ArriveHub(senders: map<string, MagicConn>, receiver: MagicConn, k: Secret, enabled: string -> bool, r: Routed,
                   ghost i: nat, ghost h: Hub)
    returns (queued: bool)
    requires ValidSecret(k) && AllFit(senders, receiver, k, enabled) && HubHolds(senders, receiver, h)
    requires i < |h.sent| && r == h.sent[i]
    modifies receiver`recvQueue
    ensures AllFit(senders, receiver, k, enabled)
    ensures queued <==> |h.queue| < QUEUE_CAPACITY
    ensures HubHolds(senders, receiver, HubAfter(k, enabled, h, HubArrive(i)))
  {
    hide MagicConn.Valid;
    queued := receiver.Offer(Datagram(r.flight.wire, Some(r.source)), false);
    forall b | b in senders ensures Fits(senders[b], receiver, k, enabled(b)) {
      assert old(Fits(senders[b], receiver, k, enabled(b)));
    }
  }

  /** Any run of a server and its many senders, played through the connections, goes as the model of it says. */
  method PlayHub(senders: map<string, MagicConn>, receiver: MagicConn, k: Secret, enabled: string -> bool,
                 events: seq<HubEvent>, ghost known: string -> seq<Cid>)
    returns (delivered: seq<(Routed, Bytestring)>)
    requires ValidSecret(k) && AllFit(senders, receiver, k, enabled)
    requires HubHolds(senders, receiver, HubStart(known))
    requires forall i :: 0 <= i < |events| && events[i].HubWrite? ==> events[i].source in senders
    modifies senders.Values`txCounts
    modifies receiver`recvQueue, receiver.clientCache.Repr, receiver.sessions, receiver.sessions.Repr
    ensures AllFit(senders, receiver, k, enabled)
    ensures var h := HubRun(k, enabled, known, events); delivered == h.delivered && HubHolds(senders, receiver, h)
  {
    hide HubRun, HubAfter, HubHolds, AllFit, Emit, Restore;
    var t := HubTrace([], [], []);
    HubStartsEmpty(k, enabled, known);
    for i := 0 to |events|
      invariant AllFit(senders, receiver, k, enabled)
      invariant fresh(receiver.clientCache.Repr - old(receiver.clientCache.Repr))
      invariant fresh(receiver.sessions.Repr - old(receiver.sessions.Repr))
      invariant var h := HubRun(k, enabled, known, events[..i]); t == HubTraceOf(h) && HubHolds(senders, receiver, h)
    {
      ghost var h := HubRun(k, enabled, known, events[..i]);
      HubStep(k, enabled, known, events, i);
      TraceStep(k, enabled, h, events[i]);
      match events[i]
      case HubWrite(a, data, seed) =>
        var wire := SendFrom(senders, receiver, k, enabled, a, senders[a], data, seed, h);
        t := t.(sent := t.sent + [Routed(a, Flight(data, seed, wire))]);
      case HubArrive(n) =>
        if n < |t.sent| {
          var queued := ArriveHub(senders, receiver, k, enabled, t.sent[n], n, h);
          if queued {
            t := t.(queue := t.queue + [t.sent[n]]);
          }
        }
      case HubRead =>
        if t.queue != [] {
          var data := ReadHub(senders, receiver, k, enabled, t.queue[0].source, h);
          t := t.(queue := t.queue[1..], delivered := t.delivered + [(t.queue[0], data)]);
        }
    }
    assert events[..|events|] == events;
    delivered := t.delivered;
  }

  lemma HubStartsEmpty(k: Secret, enabled: string -> bool, known: string -> seq<Cid>)
    requires ValidSecret(k)
    ensures HubRun(k, enabled, known, []) == HubStart(known)
  {
  }

  lemma HubStep(k: Secret, enabled: string -> bool, known: string -> seq<Cid>, events: seq<HubEvent>, i: nat)
    requires ValidSecret(k) && i < |events|
    ensures HubRun(k, enabled, known, events[..i + 1]) == HubAfter(k, enabled, HubRun(k, enabled, known, events[..i]), events[i])
  {
    hide HubAfter;
    assert events[..i + 1][..i] == events[..i];
  }

  /** What an event leaves outside the connections. */
  lemma TraceStep(k: Secret, enabled: string -> bool, h: Hub, e: HubEvent)
    requires ValidSecret(k)
    ensures var h' := HubAfter(k, enabled, h, e);
      HubTraceOf(h') == match e
        case HubWrite(a, data, seed) =>
          HubTrace(h.sent + [Routed(a, Flight(data, seed, Emit(k, enabled(a), h.counts(a), data, seed).0))], h.queue, h.delivered)
        case HubArrive(i) =>
          HubTrace(h.sent, if i < |h.sent| && |h.queue| < QUEUE_CAPACITY then h.queue + [h.sent[i]] else h.queue, h.delivered)
        case HubRead =>
          if h.queue == [] then HubTraceOf(h)
          else HubTrace(h.sent, h.queue[1..],
                        h.delivered + [(h.queue[0], Restore(k, h.logs(h.queue[0].source), h.queue[0].flight.wire))])
    ensures (e.HubArrive? && e.i >= |h.sent|) || (e.HubRead? && h.queue == []) ==> HubAfter(k, enabled, h, e) == h
  {
  }
}
