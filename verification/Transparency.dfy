/** Runs of one sender and one receiver over a network that loses, repeats and reorders packets. */
module Transparency {
  import opened Bytes
  import opened CidCodec
  import opened CidSession
  import opened Transport
  import opened Wrappers

  /** A packet as given to WriteTo, the seed drawn for it, and how it went out. */
  datatype Flight = Flight(original: Bytestring, seed: Seed, wire: Bytestring)

  datatype System = System(
    counts: map<Cid, nat>,                        // the sender's packet counts
    sent: seq<Flight>,                            // everything ever written; the network may deliver any of it, any number of times
    queue: seq<Flight>,                           // the receiver's bounded queue
    log: seq<Cid>,                                // the receiver's cache for this sender
    delivered: seq<(Flight, Bytestring)>)         // what each read returned

  datatype Event = Write(data: Bytestring, seed: Seed) | Arrive(i: nat) | Read

  /** A new connection; the server may know some of the IDs already, since its caches outlive connections. */
  function Start(known: seq<Cid>): System {
    System(map[], [], [], known, [])
  }

  ghost function After(k: Secret, enabled: bool, s: System, e: Event): System
    requires ValidSecret(k)
  {
    match e
    case Write(data, seed) =>
      var (wire, counts) := Emit(k, enabled, s.counts, data, seed);
      s.(counts := counts, sent := s.sent + [Flight(data, seed, wire)])
    case Arrive(i) =>
      if i < |s.sent| && |s.queue| < QUEUE_CAPACITY then s.(queue := s.queue + [s.sent[i]]) else s
    case Read =>
      if s.queue == [] then s
      else
        var f := s.queue[0];
        s.(queue := s.queue[1..],
           log := Learnt(k, s.log, f.wire),
           delivered := s.delivered + [(f, Restore(k, s.log, f.wire))])
  }

  ghost function Run(k: Secret, enabled: bool, known: seq<Cid>, events: seq<Event>): System
    requires ValidSecret(k)
    decreases |events|
  {
    if events == [] then Start(known)
    else After(k, enabled, Run(k, enabled, known, events[..|events| - 1]), events[|events| - 1])
  }

  lemma RunLast(k: Secret, enabled: bool, known: seq<Cid>, events: seq<Event>)
    requires ValidSecret(k) && events != []
    ensures Run(k, enabled, known, events)
            == After(k, enabled, Run(k, enabled, known, events[..|events| - 1]), events[|events| - 1])
  {
    hide After;
  }

  /** Every read so far returned, byte for byte, the packet that was written. */
  ghost predicate Transparent(s: System) {
    forall i :: 0 <= i < |s.delivered| ==> s.delivered[i].1 == s.delivered[i].0.original
  }

  /** A read that meets a changed packet knows its real ID already. */
  ghost predicate ReadInOrder(s: System, e: Event) {
    e.Read? && s.queue != [] && s.queue[0].wire != s.queue[0].original && Eligible(s.queue[0].original) ==>
      CidOf(s.queue[0].original) in s.log
  }

  /** No changed packet is read while its ID is unknown. */
  ghost predicate NoOvertaking(k: Secret, enabled: bool, known: seq<Cid>, events: seq<Event>)
    requires ValidSecret(k)
    decreases |events|
  {
    events == [] ||
    var n := |events| - 1;
    NoOvertaking(k, enabled, known, events[..n]) && ReadInOrder(Run(k, enabled, known, events[..n]), events[n])
  }

  /** The IDs in use: full length, told apart by nonzero prefixes, and none decodes to another one's prefix. */
  ghost predicate GoodIds(k: Secret, ids: set<Cid>)
    requires ValidSecret(k)
  {
    && (forall c :: c in ids ==> |c| == FIXED_CID_LEN && !ZeroPrefix(c))
    && (forall c, d :: c in ids && d in ids && Matches(c, d) ==> c == d)
    && (forall c, d :: c in ids && d in ids && Matches(Unscrambled(k, c), d) ==> c == d)
  }

  ghost predicate WritesOnly(events: seq<Event>, ids: set<Cid>) {
    forall i :: 0 <= i < |events| && events[i].Write? && Eligible(events[i].data) ==> CidOf(events[i].data) in ids
  }

  // ----- one flight -----

  /** What WriteTo can have made of a packet. */
  ghost predicate Emitted(k: Secret, f: Flight)
    requires ValidSecret(k)
  {
    f.wire == f.original || (Eligible(f.original) && f.wire == WithCid(f.original, Scrambled(k, CidOf(f.original), f.seed)))
  }

  lemma OverlayIsWithCid(data: Bytestring, c: Cid)
    requires Eligible(data) && |c| == FIXED_CID_LEN
    ensures Overlay(data, CID_OFFSET, c) == WithCid(data, c)
  {
  }

  lemma ScrambledMatches(k: Secret, c: Cid, seed: Seed, d: Cid)
    requires ValidSecret(k) && |c| == FIXED_CID_LEN
    ensures Matches(Unscrambled(k, Scrambled(k, c, seed)), d) <==> Matches(c, d)
    ensures ZeroPrefix(Unscrambled(k, Scrambled(k, c, seed))) <==> ZeroPrefix(c)
    ensures PrefixHash(Unscrambled(k, Scrambled(k, c, seed))) == PrefixHash(c)
  {
    ScrambleRoundTrip(k, c, seed);
    assert (c[..PAYLOAD_BYTES] + Zeros(OUTPUT_BYTES - PAYLOAD_BYTES))[..PAYLOAD_BYTES] == c[..PAYLOAD_BYTES];
  }

  ghost predicate FullLength(log: seq<Cid>) {
    forall c :: c in log ==> |c| == FIXED_CID_LEN
  }

  /**
   * Exactly when one read gives back the packet written, whatever the cache holds: a clear ID must be known
   * or decode to nothing else known; a scrambled one must not look known, and its prefix must lead to its ID.
   */
  lemma ReadFaithful(k: Secret, log: seq<Cid>, f: Flight)
    requires ValidSecret(k) && FullLength(log) && Emitted(k, f)
    ensures Restore(k, log, f.wire) == f.original <==>
            || !Eligible(f.original)
            || (var c := CidOf(f.original);
                if f.wire == f.original then c in log || Lookup(log, Unscrambled(k, c)) in {None, Some(c)}
                else CidOf(f.wire) !in log && Lookup(log, c) == Some(c))
  {
    if Eligible(f.original) {
      var c := CidOf(f.original);
      var r := Replacement(k, log, f.wire);
      if r.Some? {
        assert r.value in log;
        OverlayIsWithCid(f.wire, r.value);
      }
      SameButCid(f.original, c);
      if f.wire == f.original {
        if r.Some? {
          SameButCid(f.original, r.value);
        }
      } else {
        ScrambledMatches(k, c, f.seed, c);
        SameButCid(f.original, Scrambled(k, c, f.seed));
        if r.Some? {
          assert Restore(k, log, f.wire) == WithCid(f.original, r.value);
          SameButCid(f.original, r.value);
        }
      }
    }
  }

  /** A lookup over good IDs only ever finds the ID with the query's own prefix. */
  lemma LookupAmongGood(k: Secret, ids: set<Cid>, log: seq<Cid>, d: Cid, c: Cid)
    requires ValidSecret(k) && GoodIds(k, ids) && (forall x :: x in log ==> x in ids)
    requires c in ids && Matches(d, c)
    ensures Lookup(log, d) == if c in log then Some(c) else None
  {
    LookupFindsLatest(log, d);
    assert !ZeroPrefix(d);
    if Lookup(log, d).Some? {
      var x := Lookup(log, d).value;
      assert x in ids && Matches(c, x);
    }
  }

  /** Among good IDs a read is faithful exactly when it is in order, and then nothing but real IDs is learnt. */
  lemma ReadAmongGood(k: Secret, ids: set<Cid>, log: seq<Cid>, f: Flight)
    requires ValidSecret(k) && GoodIds(k, ids) && Emitted(k, f)
    requires forall x :: x in log ==> x in ids
    requires Eligible(f.original) ==> CidOf(f.original) in ids
    ensures Restore(k, log, f.wire) == f.original <==>
            (f.wire != f.original && Eligible(f.original) ==> CidOf(f.original) in log)
    ensures Restore(k, log, f.wire) == f.original ==> forall x :: x in Learnt(k, log, f.wire) ==> x in ids
  {
    ReadFaithful(k, log, f);
    if Eligible(f.original) {
      if f.wire == f.original {
        ClearAmongGood(k, ids, log, CidOf(f.original));
      } else {
        ScrambledAmongGood(k, ids, log, CidOf(f.original), f.seed);
        SameButCid(f.original, Scrambled(k, CidOf(f.original), f.seed));
      }
    }
  }

  lemma ClearAmongGood(k: Secret, ids: set<Cid>, log: seq<Cid>, c: Cid)
    requires ValidSecret(k) && GoodIds(k, ids) && (forall x :: x in log ==> x in ids) && c in ids
    ensures Lookup(log, Unscrambled(k, c)) in {None, Some(c)}
  {
    var found := Lookup(log, Unscrambled(k, c));
    LookupFindsLatest(log, Unscrambled(k, c));
    if found.Some? {
      assert found.value in ids && Matches(Unscrambled(k, c), found.value);
    }
  }

  /** A scrambled good ID is found again when it is known, and mistaken for another known one never. */
  lemma ScrambledAmongGood(k: Secret, ids: set<Cid>, log: seq<Cid>, c: Cid, seed: Seed)
    requires ValidSecret(k) && GoodIds(k, ids) && (forall x :: x in log ==> x in ids) && c in ids
    ensures Scrambled(k, c, seed) in log ==> Scrambled(k, c, seed) == c
    ensures Lookup(log, c) == Lookup(log, Unscrambled(k, Scrambled(k, c, seed))) == if c in log then Some(c) else None
  {
    LookupAmongGood(k, ids, log, c, c);
    ScrambledMatches(k, c, seed, c);
  }

  // ----- runs -----

  ghost predicate GoodFlight(k: Secret, ids: set<Cid>, f: Flight)
    requires ValidSecret(k)
  {
    Emitted(k, f) && (Eligible(f.original) ==> CidOf(f.original) in ids)
  }

  ghost predicate GoodTraffic(k: Secret, ids: set<Cid>, s: System)
    requires ValidSecret(k)
  {
    && (forall i :: 0 <= i < |s.sent| ==> GoodFlight(k, ids, s.sent[i]))
    && (forall i :: 0 <= i < |s.queue| ==> s.queue[i] in s.sent)
    && (forall i :: 0 <= i < |s.delivered| ==> s.delivered[i].0 in s.sent)
    && |s.queue| <= QUEUE_CAPACITY
  }

  lemma {:induction false} TrafficIsGood(k: Secret, enabled: bool, known: seq<Cid>, ids: set<Cid>, events: seq<Event>)
    requires ValidSecret(k) && WritesOnly(events, ids)
    ensures GoodTraffic(k, ids, Run(k, enabled, known, events))
    decreases |events|
  {
    if events != [] {
      var n := |events| - 1;
      TrafficIsGood(k, enabled, known, ids, events[..n]);
      var s, s' := Run(k, enabled, known, events[..n]), Run(k, enabled, known, events);
      assert s' == After(k, enabled, s, events[n]);
      if events[n].Write? {
        var f := s'.sent[|s.sent|];
        assert events[n].data == f.original;
        assert GoodFlight(k, ids, f);
      }
    }
  }

  /**
   * The central law. With good IDs, a run is transparent exactly when no scrambled packet is read before
   * its ID is known; losses, repetitions, reorderings and queue overflows do not matter. And while it is
   * transparent the receiver's cache holds nothing but real IDs.
   */
  lemma {:induction false} TransparencyExactly(k: Secret, enabled: bool, known: seq<Cid>, ids: set<Cid>, events: seq<Event>)
    requires ValidSecret(k) && GoodIds(k, ids) && (forall c :: c in known ==> c in ids) && WritesOnly(events, ids)
    ensures Transparent(Run(k, enabled, known, events)) <==> NoOvertaking(k, enabled, known, events)
    ensures NoOvertaking(k, enabled, known, events) ==> forall c :: c in Run(k, enabled, known, events).log ==> c in ids
    decreases |events|
  {
    if events != [] {
      var n := |events| - 1;
      var s, s' := Run(k, enabled, known, events[..n]), Run(k, enabled, known, events);
      TransparencyExactly(k, enabled, known, ids, events[..n]);
      TrafficIsGood(k, enabled, known, ids, events[..n]);
      assert s' == After(k, enabled, s, events[n]);
      if events[n].Read? && s.queue != [] {
        assert s'.delivered == s.delivered + [(s.queue[0], Restore(k, s.log, s.queue[0].wire))];
        assert s'.delivered[|s.delivered|].0 == s.queue[0];
        assert Transparent(s') ==> Transparent(s) by {
          assert forall i :: 0 <= i < |s.delivered| ==> s'.delivered[i] == s.delivered[i];
        }
        if NoOvertaking(k, enabled, known, events[..n]) {
          assert s.queue[0] in s.sent && GoodFlight(k, ids, s.queue[0]);
          ReadAmongGood(k, ids, s.log, s.queue[0]);
        }
      } else {
        assert s'.delivered == s.delivered && s'.log == s.log;
      }
    }
  }

  // ----- the same law, by the order of the packets alone -----

  /** A short-header packet that shows its ID. */
  predicate ShowsId(f: Flight, c: Cid) {
    f.wire == f.original && Eligible(f.original) && CidOf(f.original) == c
  }

  /** An ID known beforehand or shown by one of these packets. */
  ghost predicate Introduced(known: seq<Cid>, delivered: seq<(Flight, Bytestring)>, c: Cid) {
    c in known || exists i :: 0 <= i < |delivered| && ShowsId(delivered[i].0, c)
  }

  /** Every changed packet delivered comes after an unchanged one with its ID, unless that was known beforehand. */
  ghost predicate ClearFirst(known: seq<Cid>, delivered: seq<(Flight, Bytestring)>) {
    forall i :: 0 <= i < |delivered| && delivered[i].0.wire != delivered[i].0.original && Eligible(delivered[i].0.original) ==>
      Introduced(known, delivered[..i], CidOf(delivered[i].0.original))
  }

  /** Among good IDs a read in order learns the ID the packet shows, and nothing else. */
  lemma LearntAmongGood(k: Secret, ids: set<Cid>, log: seq<Cid>, f: Flight)
    requires ValidSecret(k) && GoodIds(k, ids) && GoodFlight(k, ids, f)
    requires forall x :: x in log ==> x in ids
    requires f.wire != f.original && Eligible(f.original) ==> CidOf(f.original) in log
    ensures forall c :: c in Learnt(k, log, f.wire) <==> c in log || ShowsId(f, c)
  {
    hide GoodIds, Unscrambled, Scrambled, Lookup, Matches, ZeroPrefix, WithCid;
    if Eligible(f.original) {
      var c := CidOf(f.original);
      if f.wire == f.original {
        ClearAmongGood(k, ids, log, c);
        LookupFindsLatest(log, Unscrambled(k, c));
      } else {
        ScrambledAmongGood(k, ids, log, c, f.seed);
        SameButCid(f.original, Scrambled(k, c, f.seed));
      }
    }
  }

  lemma IntroducedNext(known: seq<Cid>, delivered: seq<(Flight, Bytestring)>, last: (Flight, Bytestring), c: Cid)
    ensures Introduced(known, delivered + [last], c) <==> Introduced(known, delivered, c) || ShowsId(last.0, c)
  {
    var all := delivered + [last];
    if ShowsId(last.0, c) {
      assert ShowsId(all[|delivered|].0, c);
    }
    forall i | 0 <= i < |delivered| && ShowsId(delivered[i].0, c) ensures ShowsId(all[i].0, c) {
    }
  }

  lemma ClearFirstNext(known: seq<Cid>, delivered: seq<(Flight, Bytestring)>, last: (Flight, Bytestring))
    ensures ClearFirst(known, delivered + [last]) <==>
            && ClearFirst(known, delivered)
            && (last.0.wire != last.0.original && Eligible(last.0.original) ==>
                  Introduced(known, delivered, CidOf(last.0.original)))
  {
    hide Introduced, Eligible;
    var all := delivered + [last];
    assert all[..|delivered|] == delivered;
    forall i | 0 <= i < |delivered| ensures all[i] == delivered[i] && all[..i] == delivered[..i] {
    }
  }

  /**
   * With good IDs, transparency is a matter of the order of delivery: a run is transparent exactly when every
   * changed packet delivered comes after a clear one with its ID, and then the cache is what the clear ones showed.
   */
  lemma {:induction false} OrderDecides(k: Secret, enabled: bool, known: seq<Cid>, ids: set<Cid>, events: seq<Event>)
    requires ValidSecret(k) && GoodIds(k, ids) && (forall c :: c in known ==> c in ids) && WritesOnly(events, ids)
    ensures var s := Run(k, enabled, known, events);
      && (NoOvertaking(k, enabled, known, events) <==> ClearFirst(known, s.delivered))
      && (Transparent(s) <==> ClearFirst(known, s.delivered))
      && (ClearFirst(known, s.delivered) ==> forall c :: c in s.log <==> Introduced(known, s.delivered, c))
    decreases |events|
  {
    TransparencyExactly(k, enabled, known, ids, events);
    if events != [] {
      hide Run, After, GoodIds, Introduced, ClearFirst, Transparent, WritesOnly, ReadInOrder, GoodFlight;
      var n := |events| - 1;
      var s := Run(k, enabled, known, events[..n]);
      OrderDecides(k, enabled, known, ids, events[..n]);
      RunLast(k, enabled, known, events);
      if events[n].Read? && s.queue != [] {
        TransparencyExactly(k, enabled, known, ids, events[..n]);
        HeadIsGood(k, enabled, known, ids, events[..n]);
        OrderStep(k, enabled, known, ids, s);
      } else {
        NothingRead(k, enabled, s, events[n]);
      }
    }
  }

  lemma NothingRead(k: Secret, enabled: bool, s: System, e: Event)
    requires ValidSecret(k) && !(e.Read? && s.queue != [])
    ensures After(k, enabled, s, e).delivered == s.delivered && After(k, enabled, s, e).log == s.log && ReadInOrder(s, e)
  {
    hide Emit;
  }

  lemma HeadIsGood(k: Secret, enabled: bool, known: seq<Cid>, ids: set<Cid>, events: seq<Event>)
    requires ValidSecret(k) && WritesOnly(events, ids)
    ensures var s := Run(k, enabled, known, events); s.queue != [] ==> GoodFlight(k, ids, s.queue[0])
  {
    hide GoodFlight, Run;
    TrafficIsGood(k, enabled, known, ids, events);
    var s := Run(k, enabled, known, events);
    assert s.queue != [] ==> s.queue[0] in s.sent;
  }

  /** One read: it is in order exactly when the clear packet has come, and the cache is kept what those showed. */
  lemma OrderStep(k: Secret, enabled: bool, known: seq<Cid>, ids: set<Cid>, s: System)
    requires ValidSecret(k) && GoodIds(k, ids) && s.queue != [] && GoodFlight(k, ids, s.queue[0])
    requires ClearFirst(known, s.delivered) ==>
               forall c :: (c in s.log ==> c in ids) && (c in s.log <==> Introduced(known, s.delivered, c))
    ensures var s' := After(k, enabled, s, Read);
      && (ClearFirst(known, s'.delivered) <==> ClearFirst(known, s.delivered) && ReadInOrder(s, Read))
      && (ClearFirst(known, s'.delivered) ==> forall c :: c in s'.log <==> Introduced(known, s'.delivered, c))
  {
    hide GoodIds, Emitted, Learnt, Restore, Introduced, ClearFirst, ShowsId;
    var f := s.queue[0];
    var read := (f, Restore(k, s.log, f.wire));
    ClearFirstNext(known, s.delivered, read);
    if ClearFirst(known, s.delivered + [read]) {
      LearntAmongGood(k, ids, s.log, f);
      forall c ensures c in Learnt(k, s.log, f.wire) <==> Introduced(known, s.delivered + [read], c) {
        IntroducedNext(known, s.delivered, read, c);
      }
    }
  }

  // ----- the law fails without the condition -----

  /** n copies of one write. */
  function Writes(data: Bytestring, seed: Seed, n: nat): (events: seq<Event>)
    ensures |events| == n
  {
    seq(n, i => Write(data, seed))
  }

  lemma {:induction false} AfterWrites(k: Secret, data: Bytestring, seed: Seed, n: nat)
    requires ValidSecret(k) && Eligible(data)
    ensures var s := Run(k, true, [], Writes(data, seed, n));
      && CountOf(s.counts, CidOf(data)) == n
      && |s.sent| == n && s.queue == [] && s.log == [] && s.delivered == []
      && (forall i :: 0 <= i < n ==>
            s.sent[i] == Flight(data, seed, if i < WARM_UP then data else WithCid(data, Scrambled(k, CidOf(data), seed))))
  {
    if n > 0 {
      AfterWrites(k, data, seed, n - 1);
      assert Writes(data, seed, n)[..n - 1] == Writes(data, seed, n - 1);
    }
  }

  /** A seed whose scrambled form cannot be the ID itself. */
  function ForeignSeed(c: Cid): Seed
    requires |c| == FIXED_CID_LEN
  {
    if SeedOf(c) == 0 then 1 else 0
  }

  lemma ForeignSeedDiffers(k: Secret, c: Cid)
    requires ValidSecret(k) && |c| == FIXED_CID_LEN
    ensures Scrambled(k, c, ForeignSeed(c)) != c
  {
    var w := Scrambled(k, c, ForeignSeed(c));
    SeedSurvives(ForeignSeed(c), w[SEED_BYTES..]);
    assert w == BigEndian(ForeignSeed(c), SEED_BYTES) + w[SEED_BYTES..];
  }

  /** A changed packet read by a receiver that knows no ID yet stays changed. */
  lemma UnknownStaysScrambled(k: Secret, data: Bytestring)
    requires ValidSecret(k) && Eligible(data)
    ensures Restore(k, [], WithCid(data, Scrambled(k, CidOf(data), ForeignSeed(CidOf(data))))) != data
  {
    var w := Scrambled(k, CidOf(data), ForeignSeed(CidOf(data)));
    var f := Flight(data, ForeignSeed(CidOf(data)), WithCid(data, w));
    ForeignSeedDiffers(k, CidOf(data));
    SameButCid(data, w);
    assert Emitted(k, f);
    hide Scrambled, Restore, Emitted, Unscrambled, Eligible;
    ReadFaithful(k, [], f);
  }

  lemma RunStep(k: Secret, enabled: bool, known: seq<Cid>, events: seq<Event>, e: Event)
    requires ValidSecret(k)
    ensures Run(k, enabled, known, events + [e]) == After(k, enabled, Run(k, enabled, known, events), e)
  {
    hide After;
    assert (events + [e])[..|events|] == events;
  }

  /**
   * For every secret and every short-header packet: write it eleven times, lose the ten clear copies, read the
   * scrambled one. What comes out is not what was written.
   */
  lemma OvertakingBreaks(k: Secret, data: Bytestring)
    requires ValidSecret(k) && Eligible(data)
    ensures !Transparent(Run(k, true, [], Writes(data, ForeignSeed(CidOf(data)), 11) + [Arrive(10)] + [Read]))
  {
    hide Run, Emit, Scrambled, Restore, Learnt, Eligible, Writes, WithCid, ForeignSeed;
    var seed := ForeignSeed(CidOf(data));
    var writes := Writes(data, seed, 11);
    AfterWrites(k, data, seed, 11);
    RunStep(k, true, [], writes, Arrive(10));
    RunStep(k, true, [], writes + [Arrive(10)], Read);
    UnknownStaysScrambled(k, data);
    var f := Flight(data, seed, WithCid(data, Scrambled(k, CidOf(data), seed)));
    var s1 := Run(k, true, [], writes + [Arrive(10)]);
    assert s1.queue == [f] && s1.log == [] && s1.delivered == [];
    var delivered := Run(k, true, [], writes + [Arrive(10)] + [Read]).delivered;
    assert delivered == [(f, Restore(k, [], f.wire))];
    assert delivered[0].1 != delivered[0].0.original;
  }

  // ----- the queue -----

  /** The flights that found room in the queue, in the order they arrived. */
  ghost function Accepted(k: Secret, enabled: bool, known: seq<Cid>, events: seq<Event>): seq<Flight>
    requires ValidSecret(k)
    decreases |events|
  {
    if events == [] then []
    else
      var n := |events| - 1;
      var s := Run(k, enabled, known, events[..n]);
      Accepted(k, enabled, known, events[..n])
      + if events[n].Arrive? && events[n].i < |s.sent| && |s.queue| < QUEUE_CAPACITY then [s.sent[events[n].i]] else []
  }

  function FlightsOf(delivered: seq<(Flight, Bytestring)>): (fs: seq<Flight>)
    ensures |fs| == |delivered|
  {
    seq(|delivered|, i requires 0 <= i < |delivered| => delivered[i].0)
  }

  lemma Dequeued(delivered: seq<(Flight, Bytestring)>, queue: seq<Flight>, result: Bytestring)
    requires queue != []
    ensures FlightsOf(delivered + [(queue[0], result)]) + queue[1..] == FlightsOf(delivered) + queue
  {
  }

  /** The queue is first in, first out: what was delivered and what waits are what was accepted, in order. */
  lemma {:induction false} QueueIsFifo(k: Secret, enabled: bool, known: seq<Cid>, events: seq<Event>)
    requires ValidSecret(k)
    ensures var s := Run(k, enabled, known, events); FlightsOf(s.delivered) + s.queue == Accepted(k, enabled, known, events)
    decreases |events|
  {
    if events != [] {
      hide Run, Emit, Restore, Learnt, FlightsOf;
      var n := |events| - 1;
      QueueIsFifo(k, enabled, known, events[..n]);
      RunLast(k, enabled, known, events);
      var s := Run(k, enabled, known, events[..n]);
      if events[n].Read? && s.queue != [] {
        Dequeued(s.delivered, s.queue, Restore(k, s.log, s.queue[0].wire));
      }
    }
  }

  // ----- reads depend on the packets read, and on nothing else -----

  function WiresOf(delivered: seq<(Flight, Bytestring)>): (ws: seq<Bytestring>)
    ensures |ws| == |delivered|
  {
    seq(|delivered|, i requires 0 <= i < |delivered| => delivered[i].0.wire)
  }

  function LogAfter(k: Secret, known: seq<Cid>, wires: seq<Bytestring>): seq<Cid>
    requires ValidSecret(k)
    decreases |wires|
  {
    if wires == [] then known else Learnt(k, LogAfter(k, known, wires[..|wires| - 1]), wires[|wires| - 1])
  }

  /** What each read returned follows from the datagrams read before it. */
  ghost predicate ReadsFollow(k: Secret, known: seq<Cid>, delivered: seq<(Flight, Bytestring)>)
    requires ValidSecret(k)
  {
    forall i :: 0 <= i < |delivered| ==>
      delivered[i].1 == Restore(k, LogAfter(k, known, WiresOf(delivered)[..i]), delivered[i].0.wire)
  }

  lemma ReadsFollowNext(k: Secret, known: seq<Cid>, delivered: seq<(Flight, Bytestring)>, f: Flight)
    requires ValidSecret(k) && ReadsFollow(k, known, delivered)
    ensures var log := LogAfter(k, known, WiresOf(delivered));
      && ReadsFollow(k, known, delivered + [(f, Restore(k, log, f.wire))])
      && LogAfter(k, known, WiresOf(delivered + [(f, Restore(k, log, f.wire))])) == Learnt(k, log, f.wire)
  {
    hide Restore, Learnt;
    var log := LogAfter(k, known, WiresOf(delivered));
    var all := delivered + [(f, Restore(k, log, f.wire))];
    assert WiresOf(all) == WiresOf(delivered) + [f.wire];
    assert WiresOf(all)[..|delivered|] == WiresOf(delivered);
    forall i | 0 <= i < |delivered| ensures WiresOf(all)[..i] == WiresOf(delivered)[..i] && all[i] == delivered[i] {
    }
  }

  /** What each read returns and what is known in the end follows from the datagrams read, in their order. */
  lemma {:induction false} ReadsDecide(k: Secret, enabled: bool, known: seq<Cid>, events: seq<Event>)
    requires ValidSecret(k)
    ensures var s := Run(k, enabled, known, events);
            s.log == LogAfter(k, known, WiresOf(s.delivered)) && ReadsFollow(k, known, s.delivered)
    decreases |events|
  {
    if events != [] {
      hide Run, Emit, Restore, Learnt, ReadsFollow, LogAfter;
      var n := |events| - 1;
      ReadsDecide(k, enabled, known, events[..n]);
      RunLast(k, enabled, known, events);
      var s := Run(k, enabled, known, events[..n]);
      if events[n].Read? && s.queue != [] {
        ReadsFollowNext(k, known, s.delivered, s.queue[0]);
      }
    }
  }

  // ----- the buffer a caller sees -----

  /** ReadFrom fills the caller's buffer with the restored packet, cut to the buffer, and touches no byte beyond it. */
  lemma ReceivedIsRestored(k: Secret, log: seq<Cid>, data: Bytestring, buf: Bytestring)
    requires ValidSecret(k) && FullLength(log)
    ensures Received(k, log, data, buf) == Overlay(buf, 0, Restore(k, log, data))
  {
    var r := Replacement(k, log, data);
    if r.Some? {
      assert r.value in log;
    }
  }

  /** Only IDs of full length are ever learnt. */
  lemma LearntFullLength(k: Secret, log: seq<Cid>, data: Bytestring)
    requires ValidSecret(k) && FullLength(log)
    ensures FullLength(Learnt(k, log, data))
  {
  }

  // ----- warm-up -----

  /** How many of the packets are short-header packets with this ID. */
  function Occurrences(sent: seq<Flight>, c: Cid): nat {
    if sent == [] then 0
    else
      var last := sent[|sent| - 1].original;
      Occurrences(sent[..|sent| - 1], c) + if Eligible(last) && CidOf(last) == c then 1 else 0
  }

  lemma EmitCounts(k: Secret, enabled: bool, counts: map<Cid, nat>, data: Bytestring, seed: Seed, c: Cid)
    requires ValidSecret(k)
    ensures CountOf(Emit(k, enabled, counts, data, seed).1, c)
            == CountOf(counts, c) + if Eligible(data) && CidOf(data) == c then 1 else 0
  {
    hide Scrambled;
  }

  lemma {:induction false} CountsAreOccurrences(k: Secret, enabled: bool, known: seq<Cid>, events: seq<Event>, c: Cid)
    requires ValidSecret(k)
    ensures var s := Run(k, enabled, known, events); CountOf(s.counts, c) == Occurrences(s.sent, c)
    decreases |events|
  {
    if events != [] {
      var n := |events| - 1;
      CountsAreOccurrences(k, enabled, known, events[..n], c);
      var s, s' := Run(k, enabled, known, events[..n]), Run(k, enabled, known, events);
      RunLast(k, enabled, known, events);
      hide Run, Emit, Restore, Learnt;
      if events[n].Write? {
        EmitCounts(k, enabled, s.counts, events[n].data, events[n].seed, c);
        assert s'.sent[..|s.sent|] == s.sent;
      }
    }
  }

  /**
   * In every run the j-th short-header packet written with an ID leaves untouched exactly when j <= 10 or hiding is
   * off, whatever other IDs are written in between; later ones carry the scrambled ID and differ nowhere else.
   */
  lemma {:induction false} WarmUpExactly(k: Secret, enabled: bool, known: seq<Cid>, events: seq<Event>, i: nat)
    requires ValidSecret(k) && i < |Run(k, enabled, known, events).sent|
    ensures var sent := Run(k, enabled, known, events).sent; var f := sent[i];
      && Eligible(f.wire) == Eligible(f.original)
      && f.wire == (if Eligible(f.original) && enabled && Occurrences(sent[..i + 1], CidOf(f.original)) > 10
                    then WithCid(f.original, Scrambled(k, CidOf(f.original), f.seed)) else f.original)
    decreases |events|
  {
    var n := |events| - 1;
    var s, s' := Run(k, enabled, known, events[..n]), Run(k, enabled, known, events);
    RunLast(k, enabled, known, events);
    hide Run, Scrambled, Restore, Learnt, Eligible;
    if i < |s.sent| {
      WarmUpExactly(k, enabled, known, events[..n], i);
      assert s'.sent[..i + 1] == s.sent[..i + 1];
    } else {
      assert s'.sent[..i + 1] == s'.sent && s'.sent[..i] == s.sent;
      if Eligible(s'.sent[i].original) {
        CountsAreOccurrences(k, enabled, known, events[..n], CidOf(s'.sent[i].original));
      }
    }
  }

  function Written(events: seq<Event>): seq<Event> {
    if events == [] then []
    else
      var last := events[|events| - 1];
      Written(events[..|events| - 1]) + if last.Write? then [last] else []
  }

  /** The packets sent are the packets written, in order. */
  lemma {:induction false} SentIsWritten(k: Secret, enabled: bool, known: seq<Cid>, events: seq<Event>)
    requires ValidSecret(k)
    ensures var sent := Run(k, enabled, known, events).sent;
      && |sent| == |Written(events)|
      && forall i :: 0 <= i < |sent| ==> Write(sent[i].original, sent[i].seed) == Written(events)[i]
    decreases |events|
  {
    if events != [] {
      SentIsWritten(k, enabled, known, events[..|events| - 1]);
    }
  }
}
