/** Runs of a server that many senders share: one queue, one table of caches, packets of all sources interleaved. */
module ManySources {
  import opened CidCodec
  import opened CidSession
  import opened Transport
  import opened Transparency

  /** A packet and the source address it carries. */
  datatype Routed = Routed(source: string, flight: Flight)

  datatype Hub = Hub(
    counts: string -> map<Cid, nat>,              // each sender's packet counts
    sent: seq<Routed>,                            // what the network may deliver, any number of times
    queue: seq<Routed>,                           // the server's one bounded queue
    logs: string -> seq<Cid>,                     // its cache for each source
    delivered: seq<(Routed, Bytestring)>)         // what each read returned

  datatype HubEvent = HubWrite(source: string, data: Bytestring, seed: Seed) | HubArrive(i: nat) | HubRead

  function HubStart(known: string -> seq<Cid>): Hub {
    Hub(a => map[], [], [], known, [])
  }

  function With<V>(f: string -> V, a: string, v: V): string -> V {
    b => if b == a then v else f(b)
  }

  ghost function HubAfter(k: Secret, enabled: string -> bool, h: Hub, e: HubEvent): Hub
    requires ValidSecret(k)
  {
    match e
    case HubWrite(a, data, seed) =>
      var (wire, counts) := Emit(k, enabled(a), h.counts(a), data, seed);
      h.(counts := With(h.counts, a, counts), sent := h.sent + [Routed(a, Flight(data, seed, wire))])
    case HubArrive(i) =>
      if i < |h.sent| && |h.queue| < QUEUE_CAPACITY then h.(queue := h.queue + [h.sent[i]]) else h
    case HubRead =>
      if h.queue == [] then h
      else
        var r := h.queue[0];
        var log := h.logs(r.source);
        h.(queue := h.queue[1..],
           logs := With(h.logs, r.source, Learnt(k, log, r.flight.wire)),
           delivered := h.delivered + [(r, Restore(k, log, r.flight.wire))])
  }

  ghost function HubRun(k: Secret, enabled: string -> bool, known: string -> seq<Cid>, events: seq<HubEvent>): Hub
    requires ValidSecret(k)
    decreases |events|
  {
    if events == [] then HubStart(known)
    else HubAfter(k, enabled, HubRun(k, enabled, known, events[..|events| - 1]), events[|events| - 1])
  }

  // ----- one source's part of it -----

  function Of(a: string, rs: seq<Routed>): (fs: seq<Flight>)
    ensures |fs| <= |rs|
  {
    if rs == [] then []
    else
      var last := rs[|rs| - 1];
      Of(a, rs[..|rs| - 1]) + if last.source == a then [last.flight] else []
  }

  function DeliveredTo(a: string, rs: seq<(Routed, Bytestring)>): seq<(Flight, Bytestring)> {
    if rs == [] then []
    else
      var last := rs[|rs| - 1];
      DeliveredTo(a, rs[..|rs| - 1]) + if last.0.source == a then [(last.0.flight, last.1)] else []
  }

  /** The server and one sender, as if there were no others. */
  function Seen(h: Hub, a: string): System {
    System(h.counts(a), Of(a, h.sent), Of(a, h.queue), h.logs(a), DeliveredTo(a, h.delivered))
  }

  /** What an event means to one source: its own writes, arrivals that find room, and reads of its own packets. */
  ghost function Meaning(h: Hub, e: HubEvent, a: string): seq<Event> {
    match e
    case HubWrite(b, data, seed) => if b == a then [Write(data, seed)] else []
    case HubArrive(i) =>
      if i < |h.sent| && |h.queue| < QUEUE_CAPACITY && h.sent[i].source == a then [Arrive(|Of(a, h.sent[..i])|)] else []
    case HubRead => if h.queue != [] && h.queue[0].source == a then [Read] else []
  }

  ghost function Part(k: Secret, enabled: string -> bool, known: string -> seq<Cid>, events: seq<HubEvent>, a: string): seq<Event>
    requires ValidSecret(k)
    decreases |events|
  {
    if events == [] then []
    else
      var n := |events| - 1;
      Part(k, enabled, known, events[..n], a) + Meaning(HubRun(k, enabled, known, events[..n]), events[n], a)
  }

  lemma OfNext(a: string, rs: seq<Routed>, r: Routed)
    ensures Of(a, rs + [r]) == Of(a, rs) + if r.source == a then [r.flight] else []
  {
    assert (rs + [r])[..|rs|] == rs;
  }

  lemma DeliveredNext(a: string, rs: seq<(Routed, Bytestring)>, r: (Routed, Bytestring))
    ensures DeliveredTo(a, rs + [r]) == DeliveredTo(a, rs) + if r.0.source == a then [(r.0.flight, r.1)] else []
  {
    assert (rs + [r])[..|rs|] == rs;
  }

  lemma {:induction false} OfHead(a: string, rs: seq<Routed>)
    requires rs != []
    ensures Of(a, rs) == (if rs[0].source == a then [rs[0].flight] else []) + Of(a, rs[1..])
    decreases |rs|
  {
    var n := |rs| - 1;
    if n > 0 {
      OfHead(a, rs[..n]);
      assert rs[..n][1..] == rs[1..][..n - 1];
    }
  }

  lemma {:induction false} OfAt(a: string, rs: seq<Routed>, i: nat)
    requires i < |rs| && rs[i].source == a
    ensures |Of(a, rs[..i])| < |Of(a, rs)| && Of(a, rs)[|Of(a, rs[..i])|] == rs[i].flight
    decreases |rs|
  {
    var n := |rs| - 1;
    if i < n {
      OfAt(a, rs[..n], i);
      assert rs[..n][..i] == rs[..i];
    }
  }

  /** One event of the server is, to one source, an event of its own or nothing at all. */
  lemma EventSeen(k: Secret, enabled: string -> bool, h: Hub, e: HubEvent, a: string)
    requires ValidSecret(k)
    ensures var m := Meaning(h, e, a);
      && |m| <= 1
      && Seen(HubAfter(k, enabled, h, e), a) == if m == [] then Seen(h, a) else After(k, enabled(a), Seen(h, a), m[0])
  {
    hide Emit, Restore, Learnt, Of, DeliveredTo;
    match e
    case HubWrite(b, data, seed) =>
      OfNext(a, h.sent, Routed(b, Flight(data, seed, Emit(k, enabled(b), h.counts(b), data, seed).0)));
    case HubArrive(i) =>
      if i < |h.sent| && |h.queue| < QUEUE_CAPACITY {
        OfNext(a, h.queue, h.sent[i]);
        if h.sent[i].source == a {
          OfAt(a, h.sent, i);
        }
      }
    case HubRead =>
      if h.queue != [] {
        var r := h.queue[0];
        OfHead(a, h.queue);
        DeliveredNext(a, h.delivered, (r, Restore(k, h.logs(r.source), r.flight.wire)));
      }
  }

  /**
   * Every run of the shared server is, to each source, a run of that sender and receiver alone: on its own
   * writes, the arrivals for which the shared queue had room, and the reads of its own packets.
   */
  lemma {:induction false} SourceSeesItsOwnRun(k: Secret, enabled: string -> bool, known: string -> seq<Cid>,
                                               events: seq<HubEvent>, a: string)
    requires ValidSecret(k)
    ensures Seen(HubRun(k, enabled, known, events), a)
            == Run(k, enabled(a), known(a), Part(k, enabled, known, events, a))
    decreases |events|
  {
    if events != [] {
      hide HubAfter, After, Meaning;
      var n := |events| - 1;
      var h, part := HubRun(k, enabled, known, events[..n]), Part(k, enabled, known, events[..n], a);
      SourceSeesItsOwnRun(k, enabled, known, events[..n], a);
      EventSeen(k, enabled, h, events[n], a);
      var m := Meaning(h, events[n], a);
      if m == [] {
        assert part + m == part;
      } else {
        assert m == [m[0]];
        RunStep(k, enabled(a), known(a), part, m[0]);
      }
    }
  }

  // ----- isolation -----

  /**
   * Sources are isolated: in any two runs whatever, with different traffic from all others, a source whose packets
   * are read in the same order gets the same results and leaves the same IDs known.
   */
  lemma SourcesAreIsolated(k: Secret, enabled: string -> bool, known: string -> seq<Cid>, events: seq<HubEvent>,
                           enabled': string -> bool, known': string -> seq<Cid>, events': seq<HubEvent>, a: string)
    requires ValidSecret(k) && known(a) == known'(a)
    requires var s, s' := Seen(HubRun(k, enabled, known, events), a), Seen(HubRun(k, enabled', known', events'), a);
             WiresOf(s.delivered) == WiresOf(s'.delivered)
    ensures var s, s' := Seen(HubRun(k, enabled, known, events), a), Seen(HubRun(k, enabled', known', events'), a);
      && s.log == s'.log && |s.delivered| == |s'.delivered|
      && forall i :: 0 <= i < |s.delivered| ==> s.delivered[i].1 == s'.delivered[i].1
  {
    hide Run, HubRun, Seen, Restore, LogAfter;
    SourceSeesItsOwnRun(k, enabled, known, events, a);
    SourceSeesItsOwnRun(k, enabled', known', events', a);
    ReadsDecide(k, enabled(a), known(a), Part(k, enabled, known, events, a));
    ReadsDecide(k, enabled'(a), known'(a), Part(k, enabled', known', events', a));
    var d := Seen(HubRun(k, enabled, known, events), a).delivered;
    var d' := Seen(HubRun(k, enabled', known', events'), a).delivered;
    forall i | 0 <= i < |d| ensures d[i].1 == d'[i].1 {
      assert WiresOf(d)[i] == WiresOf(d')[i];
    }
  }

  // ----- transparency for each source -----

  ghost predicate SourceWrites(events: seq<HubEvent>, a: string, ids: set<Cid>) {
    forall i :: 0 <= i < |events| && events[i].HubWrite? && events[i].source == a && Eligible(events[i].data) ==>
      CidOf(events[i].data) in ids
  }

  lemma {:induction false} PartWritesOnly(k: Secret, enabled: string -> bool, known: string -> seq<Cid>,
                                          events: seq<HubEvent>, a: string, ids: set<Cid>)
    requires ValidSecret(k) && SourceWrites(events, a, ids)
    ensures WritesOnly(Part(k, enabled, known, events, a), ids)
    decreases |events|
  {
    if events != [] {
      PartWritesOnly(k, enabled, known, events[..|events| - 1], a, ids);
    }
  }

  /**
   * The central law on a shared server. If a source's own IDs are good, every read of its packets gives back what it
   * wrote exactly when each changed packet of its own comes after a clear one with the same ID, and then its cache
   * holds nothing but its IDs; whatever other sources send, with whatever IDs.
   */
  lemma SourceTransparency(k: Secret, enabled: string -> bool, known: string -> seq<Cid>, events: seq<HubEvent>,
                           a: string, ids: set<Cid>)
    requires ValidSecret(k) && GoodIds(k, ids) && (forall c :: c in known(a) ==> c in ids) && SourceWrites(events, a, ids)
    ensures var s := Seen(HubRun(k, enabled, known, events), a);
      && (Transparent(s) <==> ClearFirst(known(a), s.delivered))
      && (ClearFirst(known(a), s.delivered) ==> forall c :: c in s.log ==> c in ids)
  {
    var part := Part(k, enabled, known, events, a);
    SourceSeesItsOwnRun(k, enabled, known, events, a);
    PartWritesOnly(k, enabled, known, events, a, ids);
    hide Run, HubRun, Seen, Part, GoodIds, Transparent, ClearFirst, NoOvertaking, WritesOnly;
    TransparencyExactly(k, enabled(a), known(a), ids, part);
    OrderDecides(k, enabled(a), known(a), ids, part);
  }
}
