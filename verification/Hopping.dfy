/** The server's hopping sockets: current, prebound next, and old ones waiting to be closed. */
module Hopping {
  import opened HopClock
  import opened FisherYates
  import opened Wrappers

  /** A bound socket; `slot` is the time slot whose address it is bound to. */
  datatype Socket = Socket(id: nat, slot: int)

  /** A socket handed to a closing goroutine, to be closed at `due`. */
  datatype Closing = Closing(socket: Socket, due: int)

  datatype Ports = Ports(current: Socket, next: Option<Socket>, pending: seq<Closing>, closed: seq<Socket>, bound: nat)

  datatype Settings = Settings(slotMs: nat, closeDelayMs: nat, prebind: bool)

  /** The clock reads of one hop, whether its bind succeeds, and when it hands the old socket over. */
  datatype HopInput = HopInput(t1: int, t2: int, bindOk: bool, spawn: int)

  predicate ValidSettings(g: Settings) {
    g.slotMs > 0
  }

  /** One hop: promote the prebound socket, bind the next one, retire the previous one. */
  function HopOnce(g: Settings, p: Ports, h: HopInput): Ports
    requires ValidSettings(g)
  {
    var current := if p.next.Some? then p.next.value else p.current;
    var binds := g.prebind && h.bindOk;
    var next := if binds then Some(Socket(p.bound, SlotOf(PrebindMoment(h.t1, h.t2, g.slotMs), g.slotMs))) else None;
    var pending := if p.current != current then p.pending + [Closing(p.current, h.spawn + g.closeDelayMs * NS_PER_MS)]
                   else p.pending;
    Ports(current, next, pending, p.closed, if binds then p.bound + 1 else p.bound)
  }

  /** The i-th closing goroutine wakes up. */
  function Expire(p: Ports, i: nat): Ports {
    if i < |p.pending| then
      p.(pending := p.pending[..i] + p.pending[i + 1..], closed := p.closed + [p.pending[i].socket])
    else p
  }

  /** What NewServerConn leaves behind once its first bind has succeeded. */
  function Launch(g: Settings, now: int, t2: int, nextOk: bool): Ports
    requires ValidSettings(g)
  {
    var first := Socket(0, SlotOf(now, g.slotMs));
    if g.prebind && nextOk then
      Ports(first, Some(Socket(1, SlotOf(PrebindMoment(now, t2, g.slotMs), g.slotMs))), [], [], 2)
    else Ports(first, None, [], [], 1)
  }

  /** A launch holds one socket, and a second one only if prebinding is on and its bind succeeds. */
  lemma LaunchMeans(g: Settings, now: int, t2: int, nextOk: bool)
    requires ValidSettings(g)
    ensures var p := Launch(g, now, t2, nextOk);
      && p.current == Socket(0, SlotOf(now, g.slotMs)) && p.pending == [] && p.closed == []
      && p.next.Some? == (g.prebind && nextOk)
      && (p.next.Some? ==> p.next.value == Socket(1, SlotOf(now + NextHopDelay(t2, g.slotMs) + 1_000_000, g.slotMs)))
      && p.bound == if p.next.Some? then 2 else 1
  {
  }

  /**
   * A hop moves the sockets along by one: next becomes current and current is retired, to be closed after the delay;
   * without a next one nothing moves. The new next one is bound for the moment the clocks name, or there is none.
   */
  lemma HopMeans(g: Settings, p: Ports, h: HopInput)
    requires ValidSettings(g) && (p.next.Some? ==> p.next.value != p.current)
    ensures var q := HopOnce(g, p, h);
      && (p.next.Some? ==> q.current == p.next.value
                           && q.pending == p.pending + [Closing(p.current, h.spawn + g.closeDelayMs * 1_000_000)])
      && (p.next.None? ==> q.current == p.current && q.pending == p.pending)
      && q.closed == p.closed
      && q.next == (if g.prebind && h.bindOk
                    then Some(Socket(p.bound, SlotOf(h.t1 + NextHopDelay(h.t2, g.slotMs) + 1_000_000, g.slotMs)))
                    else None)
      && q.bound == p.bound + if q.next.Some? then 1 else 0
  {
  }

  /** A timer closes the socket it was started for: that one leaves the pending ones, and nothing in use changes. */
  lemma TimerClosesItsSocket(p: Ports, i: nat)
    ensures var q := Expire(p, i);
      && q.current == p.current && q.next == p.next && q.bound == p.bound
      && (i < |p.pending| ==> multiset(p.pending) == multiset(q.pending) + multiset{p.pending[i]}
                              && q.closed == p.closed + [p.pending[i].socket])
      && (i >= |p.pending| ==> q == p)
  {
    if i < |p.pending| {
      assert p.pending == p.pending[..i] + [p.pending[i]] + p.pending[i + 1..];
    }
  }

  /** The fields of the connection that hopping updates. */
  class HoppingConn {
    const settings: Settings
    var currentConn: Socket
    var nextConn: Option<Socket>
    var pending: seq<Closing>
    var closed: seq<Socket>
    var bound: nat

    function State(): Ports
      reads this
    {
      Ports(currentConn, nextConn, pending, closed, bound)
    }

    /** Only reached when the first ListenPacket succeeds; otherwise no connection is made. */
    constructor (g: Settings, now: int, t2: int, nextOk: bool)
      requires ValidSettings(g)
      ensures settings == g && State() == Launch(g, now, t2, nextOk)
    {
      settings := g;
      currentConn := Socket(0, SlotOf(now, g.slotMs));
      nextConn, pending, closed, bound := None, [], [], 1;
      if g.prebind {
        var nextSlot := SlotOf(PrebindMoment(now, t2, g.slotMs), g.slotMs);
        if nextOk {
          nextConn, bound := Some(Socket(1, nextSlot)), 2;
        }
      }
    }

    method Hop(h: HopInput)
      requires ValidSettings(settings)
      modifies this
      ensures State() == HopOnce(settings, old(State()), h)
    {
      var prevConn := currentConn;
      var newCurrent := currentConn;
      if nextConn.Some? {
        newCurrent := nextConn.value;
        currentConn := nextConn.value;
        nextConn := None;
      }
      if settings.prebind {
        var nextSlot := SlotOf(PrebindMoment(h.t1, h.t2, settings.slotMs), settings.slotMs);
        if h.bindOk {
          nextConn := Some(Socket(bound, nextSlot));
          bound := bound + 1;
        }
      }
      if prevConn != newCurrent {
        pending := pending + [Closing(prevConn, h.spawn + settings.closeDelayMs * NS_PER_MS)];
      }
    }

    method CloseExpired(i: nat)
      requires i < |pending|
      modifies this
      ensures State() == Expire(old(State()), i)
    {
      closed := closed + [pending[i].socket];
      pending := pending[..i] + pending[i + 1..];
    }
  }

  // ----- socket ownership -----

  datatype PortEvent = Hopped(input: HopInput) | Expired(i: nat)

  function AfterEvent(g: Settings, p: Ports, e: PortEvent): Ports
    requires ValidSettings(g)
  {
    match e
    case Hopped(h) => HopOnce(g, p, h)
    case Expired(i) => Expire(p, i)
  }

  function RunPorts(g: Settings, p: Ports, events: seq<PortEvent>): Ports
    requires ValidSettings(g)
    decreases |events|
  {
    if events == [] then p
    else AfterEvent(g, RunPorts(g, p, events[..|events| - 1]), events[|events| - 1])
  }

  function PendingIds(s: seq<Closing>): (ids: seq<nat>)
    ensures |ids| == |s|
  {
    seq(|s|, i requires 0 <= i < |s| => s[i].socket.id)
  }

  function SocketIds(s: seq<Socket>): (ids: seq<nat>)
    ensures |ids| == |s|
  {
    seq(|s|, i requires 0 <= i < |s| => s[i].id)
  }

  function NextIds(n: Option<Socket>): seq<nat> {
    if n.Some? then [n.value.id] else []
  }

  /** In how many places a socket is held: current, next, waiting to close, closed. */
  function Holders(p: Ports, id: nat): nat {
    (if p.current.id == id then 1 else 0) + multiset(NextIds(p.next))[id]
    + multiset(PendingIds(p.pending))[id] + multiset(SocketIds(p.closed))[id]
  }

  /** Every socket ever bound is in exactly one place, and no other socket is anywhere. */
  ghost predicate Owned(p: Ports) {
    forall id: nat :: Holders(p, id) == if id < p.bound then 1 else 0
  }

  lemma HopKeepsOwnership(g: Settings, p: Ports, h: HopInput)
    requires ValidSettings(g) && Owned(p)
    ensures Owned(HopOnce(g, p, h))
  {
    var p' := HopOnce(g, p, h);
    assert Holders(p, p.bound) == 0;
    if p.next.Some? {
      assert Holders(p, p.current.id) == 1;
      assert p.current != p.next.value;
      var c := Closing(p.current, h.spawn + g.closeDelayMs * NS_PER_MS);
      assert PendingIds(p'.pending) == PendingIds(p.pending) + [p.current.id];
    }
    forall id: nat ensures Holders(p', id) == if id < p'.bound then 1 else 0 {
      assert Holders(p, id) == if id < p.bound then 1 else 0;
    }
  }

  lemma ExpireKeepsOwnership(p: Ports, i: nat)
    requires Owned(p)
    ensures Owned(Expire(p, i))
  {
    if i < |p.pending| {
      var p' := Expire(p, i);
      var ids := PendingIds(p.pending);
      assert ids == ids[..i] + [ids[i]] + ids[i + 1..];
      assert PendingIds(p'.pending) == ids[..i] + ids[i + 1..];
      assert SocketIds(p'.closed) == SocketIds(p.closed) + [ids[i]];
      forall id: nat ensures Holders(p', id) == if id < p'.bound then 1 else 0 {
        assert Holders(p, id) == if id < p.bound then 1 else 0;
      }
    }
  }

  /** Ownership holds throughout every run of hops and timers, whichever binds fail. */
  lemma {:induction false} OwnershipThroughout(g: Settings, now: int, t2: int, nextOk: bool, events: seq<PortEvent>)
    requires ValidSettings(g)
    ensures Owned(RunPorts(g, Launch(g, now, t2, nextOk), events))
    decreases |events|
  {
    var start := Launch(g, now, t2, nextOk);
    if events == [] {
      assert Owned(start);
    } else {
      var n := |events| - 1;
      OwnershipThroughout(g, now, t2, nextOk, events[..n]);
      var p := RunPorts(g, start, events[..n]);
      match events[n]
      case Hopped(h) => HopKeepsOwnership(g, p, h);
      case Expired(i) => ExpireKeepsOwnership(p, i);
    }
  }

  /** What single ownership means: nothing in use is due to close, and nothing is closed twice. */
  lemma OwnedMeans(p: Ports)
    requires Owned(p)
    ensures forall i :: 0 <= i < |p.pending| ==> p.pending[i].socket.id != p.current.id
                                                 && (p.next.Some? ==> p.pending[i].socket.id != p.next.value.id)
    ensures p.next.Some? ==> p.next.value.id != p.current.id
    ensures Distinct(SocketIds(p.closed)) && Distinct(PendingIds(p.pending))
    ensures forall i, j :: 0 <= i < |p.pending| && 0 <= j < |p.closed| ==> p.pending[i].socket.id != p.closed[j].id
  {
    assert Holders(p, p.current.id) <= 1;
    if p.next.Some? {
      assert Holders(p, p.next.value.id) <= 1;
    }
    forall i | 0 <= i < |p.pending|
      ensures p.pending[i].socket.id != p.current.id
              && (p.next.Some? ==> p.pending[i].socket.id != p.next.value.id)
              && forall j :: 0 <= j < |p.closed| ==> p.pending[i].socket.id != p.closed[j].id
    {
      var id := p.pending[i].socket.id;
      assert PendingIds(p.pending)[i] == id;
      assert Holders(p, id) <= 1;
      forall j | 0 <= j < |p.closed| ensures id != p.closed[j].id {
        assert SocketIds(p.closed)[j] == p.closed[j].id;
      }
    }
    OnceEach(PendingIds(p.pending), p);
    OnceEach(SocketIds(p.closed), p);
  }

  lemma OnceEach(ids: seq<nat>, p: Ports)
    requires Owned(p) && forall id: nat :: multiset(ids)[id] <= Holders(p, id)
    ensures Distinct(ids)
  {
    forall i, j | 0 <= i < j < |ids| ensures ids[i] != ids[j] {
      assert Holders(p, ids[i]) <= 1;
      if ids[i] == ids[j] {
        RepeatedTwice(ids, i, j);
      }
    }
  }

  // ----- what timers do to a run -----

  function HopsOf(events: seq<PortEvent>): seq<HopInput> {
    if events == [] then []
    else
      var last := events[|events| - 1];
      HopsOf(events[..|events| - 1]) + if last.Hopped? then [last.input] else []
  }

  function Sockets(pending: seq<Closing>): (ss: seq<Socket>)
    ensures |ss| == |pending|
  {
    seq(|pending|, i requires 0 <= i < |pending| => pending[i].socket)
  }

  /** The sockets no longer in use: waiting to be closed, or closed. */
  ghost function Retired(p: Ports): multiset<Socket> {
    multiset(Sockets(p.pending)) + multiset(p.closed)
  }

  lemma ExpireRetires(p: Ports, i: nat)
    ensures Retired(Expire(p, i)) == Retired(p)
  {
    if i < |p.pending| {
      var q := Expire(p, i);
      var ss := Sockets(p.pending);
      assert ss == ss[..i] + [ss[i]] + ss[i + 1..];
      assert Sockets(q.pending) == ss[..i] + ss[i + 1..];
    }
  }

  lemma HopAllNext(g: Settings, p: Ports, hops: seq<HopInput>, h: HopInput)
    requires ValidSettings(g)
    ensures HopAll(g, p, hops + [h]) == HopOnce(g, HopAll(g, p, hops), h)
  {
    assert (hops + [h])[..|hops|] == hops;
  }

  /**
   * Over every run, timers change nothing that is in use: current and next are what the hops alone make them. And what
   * waits to be closed, with what is closed, is exactly what the hops retired.
   */
  lemma {:induction false} TimersOnlyClose(g: Settings, p: Ports, events: seq<PortEvent>)
    requires ValidSettings(g)
    ensures var q, r := RunPorts(g, p, events), HopAll(g, p, HopsOf(events));
      && q.current == r.current && q.next == r.next && q.bound == r.bound && r.closed == p.closed
      && Retired(q) == Retired(r)
    decreases |events|
  {
    if events != [] {
      var n := |events| - 1;
      var q, r := RunPorts(g, p, events[..n]), HopAll(g, p, HopsOf(events[..n]));
      TimersOnlyClose(g, p, events[..n]);
      hide HopOnce, HopAll, Retired, Expire;
      match events[n]
      case Hopped(h) =>
        HopAllNext(g, p, HopsOf(events[..n]), h);
        HopRetires(g, q, h);
        HopRetires(g, r, h);
        HopDependsOnUse(g, q, r, h);
      case Expired(i) =>
        assert HopsOf(events) == HopsOf(events[..n]);
        ExpireRetires(q, i);
        TimerClosesItsSocket(q, i);
    }
  }

  lemma HopDependsOnUse(g: Settings, q: Ports, r: Ports, h: HopInput)
    requires ValidSettings(g) && q.current == r.current && q.next == r.next && q.bound == r.bound
    ensures var q', r' := HopOnce(g, q, h), HopOnce(g, r, h);
            q'.current == r'.current && q'.next == r'.next && q'.bound == r'.bound && q'.closed == q.closed && r'.closed == r.closed
  {
  }

  lemma HopSockets(g: Settings, q: Ports, h: HopInput)
    requires ValidSettings(g)
    ensures var r := HopOnce(g, q, h);
            Sockets(r.pending) == Sockets(q.pending) + if r.current != q.current then [q.current] else []
  {
  }

  lemma HopRetires(g: Settings, q: Ports, h: HopInput)
    requires ValidSettings(g)
    ensures var r := HopOnce(g, q, h);
            Retired(r) == Retired(q) + if r.current != q.current then multiset{q.current} else multiset{}
  {
    HopSockets(g, q, h);
  }

  /** Every socket closed in a run was retired by a hop of it. */
  lemma ClosedWereRetired(g: Settings, p: Ports, events: seq<PortEvent>, s: Socket)
    requires ValidSettings(g) && p.pending == [] && p.closed == []
    requires s in RunPorts(g, p, events).closed
    ensures exists i :: 0 <= i < |HopsOf(events)| && s == HopAll(g, p, HopsOf(events)[..i]).current
                        && s != HopAll(g, p, HopsOf(events)[..i + 1]).current
  {
    var q, r := RunPorts(g, p, events), HopAll(g, p, HopsOf(events));
    TimersOnlyClose(g, p, events);
    hide RunPorts, HopAll, Sockets;
    assert s in Retired(q) by {
      assert s in multiset(q.closed);
    }
    assert Retired(r) == multiset(Sockets(r.pending));
    RetiredByHop(g, p, HopsOf(events), s);
  }

  lemma {:induction false} RetiredByHop(g: Settings, p: Ports, hops: seq<HopInput>, s: Socket)
    requires ValidSettings(g) && p.pending == [] && s in Sockets(HopAll(g, p, hops).pending)
    ensures exists i :: 0 <= i < |hops| && s == HopAll(g, p, hops[..i]).current && s != HopAll(g, p, hops[..i + 1]).current
    decreases |hops|
  {
    var n := |hops| - 1;
    if hops != [] {
      var q, r := HopAll(g, p, hops[..n]), HopAll(g, p, hops);
      assert hops[..n + 1] == hops;
      HopSockets(g, q, hops[n]);
      hide HopOnce, Sockets;
      if s in Sockets(q.pending) {
        RetiredByHop(g, p, hops[..n], s);
        var i :| 0 <= i < n && s == HopAll(g, p, hops[..n][..i]).current && s != HopAll(g, p, hops[..n][..i + 1]).current;
        assert hops[..n][..i] == hops[..i] && hops[..n][..i + 1] == hops[..i + 1];
      } else {
        assert s == q.current && r.current != q.current;
      }
    }
  }

  // ----- how many are open -----

  function OpenCount(p: Ports): nat {
    1 + (if p.next.Some? then 1 else 0) + |p.pending|
  }

  function LastSpawn(events: seq<PortEvent>): Option<int>
    decreases |events|
  {
    if events == [] then None
    else
      var e := events[|events| - 1];
      if e.Hopped? then Some(e.input.spawn) else LastSpawn(events[..|events| - 1])
  }

  /**
   * Hops at least the close delay apart, and by the time of a hop every goroutine that is due has closed
   * its socket.
   */
  ghost predicate Punctual(g: Settings, p: Ports, events: seq<PortEvent>)
    requires ValidSettings(g)
    decreases |events|
  {
    events == [] ||
    var n := |events| - 1;
    && Punctual(g, p, events[..n])
    && (events[n].Hopped? ==>
          var h := events[n].input;
          var last := LastSpawn(events[..n]);
          && (last.Some? ==> last.value + g.closeDelayMs * NS_PER_MS <= h.t1)
          && (forall i :: 0 <= i < |RunPorts(g, p, events[..n]).pending| ==> RunPorts(g, p, events[..n]).pending[i].due > h.t1))
  }

  /** Then at most three sockets are open at any moment: current, next and one old one. */
  lemma {:induction false} AtMostThreeOpen(g: Settings, now: int, t2: int, nextOk: bool, events: seq<PortEvent>)
    requires ValidSettings(g) && Punctual(g, Launch(g, now, t2, nextOk), events)
    ensures var p := RunPorts(g, Launch(g, now, t2, nextOk), events);
      && OpenCount(p) <= 3 && |p.pending| <= 1
      && (p.pending != [] ==> LastSpawn(events).Some? && p.pending[0].due <= LastSpawn(events).value + g.closeDelayMs * NS_PER_MS)
    decreases |events|
  {
    if events != [] {
      AtMostThreeOpen(g, now, t2, nextOk, events[..|events| - 1]);
    }
  }

  // ----- staying in step with the clock -----

  /** Current listens on slot k and next on slot k + 1. */
  predicate InStep(p: Ports, k: int) {
    p.current.slot == k && p.next.Some? && p.next.value.slot == k + 1
  }

  /** A hop in slot k whose two clock reads are at most 1 ms apart. */
  predicate Timely(g: Settings, h: HopInput, k: int)
    requires ValidSettings(g)
  {
    0 <= h.t1 <= h.t2 && UnixMilli(h.t2) - UnixMilli(h.t1) <= 1 && SlotOf(h.t2, g.slotMs) == k
  }

  function HopAll(g: Settings, p: Ports, hops: seq<HopInput>): Ports
    requires ValidSettings(g)
    decreases |hops|
  {
    if hops == [] then p else HopOnce(g, HopAll(g, p, hops[..|hops| - 1]), hops[|hops| - 1])
  }

  lemma TimelyBind(g: Settings, p: Ports, h: HopInput, k: int)
    requires g.slotMs >= 2 && g.prebind && Timely(g, h, k)
    ensures HopOnce(g, p, h).next == if h.bindOk then Some(Socket(p.bound, k + 1)) else None
  {
    PrebindTargetsNextSlot(h.t1, h.t2, g.slotMs);
  }

  /**
   * Where NewServerConn prebinds, for any two clock reads: which of the launch slot, the next and the one after
   * depends only on how many whole milliseconds into their slots the two reads are. In step with the launch slot unless
   * the second is at least two further in, or the first read is its slot's last millisecond and the second the first.
   */
  lemma LaunchInStepExactly(g: Settings, now: int, t2: int)
    requires g.slotMs >= 2 && g.prebind && now >= 0 && t2 >= 0
    ensures var p := Launch(g, now, t2, true); var k := SlotOf(now, g.slotMs);
      var into1, into2 := IntoSlot(now, g.slotMs), IntoSlot(t2, g.slotMs);
      && p.current.slot == k && p.next.Some?
      && (InStep(p, k) <==> into2 <= into1 + 1 && !(into1 == g.slotMs - 1 && into2 == 0))
      && (p.next.value.slot == k <==> into2 > into1 + 1)
      && (p.next.value.slot == k + 2 <==> into1 == g.slotMs - 1 && into2 == 0)
  {
    PrebindByPosition(now, t2, g.slotMs);
  }

  /**
   * The same by elapsed time. In step with the slot in which the second clock is read: exactly when both reads are
   * in one slot and their millisecond readings at most one apart. In step with the launch slot: also when a boundary
   * was crossed more slowly.
   */
  lemma LaunchByElapsedTime(g: Settings, now: int, t2: int)
    requires g.slotMs >= 2 && g.prebind && 0 <= now <= t2
    ensures var p := Launch(g, now, t2, true); var k, k2 := SlotOf(now, g.slotMs), SlotOf(t2, g.slotMs);
      var elapsed := UnixMilli(t2) - UnixMilli(now);
      && (InStep(p, k2) <==> k2 == k && elapsed <= 1)
      && (elapsed <= g.slotMs ==> (InStep(p, k) <==> (k2 == k) == (elapsed <= 1)))
  {
    LaunchInStepExactly(g, now, t2);
    Position(now, g.slotMs);
    Position(t2, g.slotMs);
    SlotsApart(g.slotMs, SlotOf(now, g.slotMs), SlotOf(t2, g.slotMs));
  }

  /** A launch that takes 0.9 ms across a slot boundary skips a slot; one that takes 5 ms prebinds its own. */
  lemma LaunchOutOfStep()
    ensures var skipped := Launch(Settings(1000, 100, true), 999_500_000, 1_000_400_000, true);
            skipped.current.slot == 0 && skipped.next.value.slot == 2 && !InStep(skipped, 0) && !InStep(skipped, 1)
    ensures var repeated := Launch(Settings(1000, 100, true), 0, 5_000_000, true);
            repeated.current.slot == 0 && repeated.next.value.slot == 0
  {
  }

  /** Slots further apart lie further apart in time. */
  lemma SlotsApart(slotMs: nat, k: int, k2: int)
    ensures k2 == k ==> k2 * slotMs == k * slotMs
    ensures k2 == k + 1 ==> k2 * slotMs == k * slotMs + slotMs
    ensures k2 >= k + 2 ==> k2 * slotMs >= k * slotMs + 2 * slotMs
    ensures k2 < k ==> k2 * slotMs <= k * slotMs - slotMs
  {
    if k2 >= k + 2 {
      TimesOrder(k + 2, k2, slotMs);
      assert (k + 2) * slotMs == k * slotMs + 2 * slotMs;
    } else if k2 < k {
      TimesOrder(k2, k - 1, slotMs);
      assert (k - 1) * slotMs == k * slotMs - slotMs;
    } else if k2 == k + 1 {
      assert (k + 1) * slotMs == k * slotMs + slotMs;
    }
  }

  /** From any state whatever, two timely hops in consecutive slots whose binds succeed bring the server in step. */
  lemma SelfStabilises(g: Settings, p: Ports, a: HopInput, b: HopInput, k: int)
    requires g.slotMs >= 2 && g.prebind
    requires Timely(g, a, k) && a.bindOk && Timely(g, b, k + 1) && b.bindOk
    ensures InStep(HopOnce(g, HopOnce(g, p, a), b), k + 1)
  {
    TimelyBind(g, p, a, k);
    TimelyBind(g, HopOnce(g, p, a), b, k + 1);
  }

  /**
   * Started in step and hopping once in every slot, the server is in step exactly when its last two binds
   * succeeded: one failure is felt for two slots and repaired by the second hop after it.
   */
  lemma {:induction false} InStepExactly(g: Settings, p: Ports, k: int, hops: seq<HopInput>)
    requires g.slotMs >= 2 && g.prebind && InStep(p, k)
    requires forall i :: 0 <= i < |hops| ==> Timely(g, hops[i], k + 1 + i)
    ensures var n := |hops|; var q := HopAll(g, p, hops);
      && (InStep(q, k + n) <==> (n >= 1 ==> hops[n - 1].bindOk) && (n >= 2 ==> hops[n - 2].bindOk))
      && (q.next.Some? <==> n >= 1 ==> hops[n - 1].bindOk)
      && (q.next.Some? ==> q.next.value.slot == k + n + 1)
      && q.current.slot <= k + n
      && (q.current.slot == k + n <==> n >= 2 ==> hops[n - 2].bindOk)
    decreases |hops|
  {
    var n := |hops|;
    if n > 0 {
      InStepExactly(g, p, k, hops[..n - 1]);
      TimelyBind(g, HopAll(g, p, hops[..n - 1]), hops[n - 1], k + n);
    }
  }

  /** Without prebinding the first socket is used for ever. */
  lemma {:induction false} NoPrebindNoHop(g: Settings, p: Ports, hops: seq<HopInput>)
    requires ValidSettings(g) && !g.prebind && p.next.None?
    ensures HopAll(g, p, hops) == p
    decreases |hops|
  {
    if hops != [] {
      NoPrebindNoHop(g, p, hops[..|hops| - 1]);
    }
  }
}
