/** Which addresses the server listens on, over a run of its hops. */
module Serving {
  import opened HopClock
  import opened Hopping

  /** The keyed hash of a slot; distinct slots may share an address. */
  type Addressing = int -> string

  /** When the hop of each slot is over, its bind included. */
  type Schedule = int -> int

  /** What the hops of a run meet: addresses, binds that fail for a reason outside the server, and when they are over. */
  datatype World = World(addressOf: Addressing, fails: int -> bool, hops: Schedule)

  /** Every hop is over within `late` nanoseconds after the start of its slot. */
  ghost predicate OnSchedule(g: Settings, h: Schedule, late: nat)
    requires ValidSettings(g)
  {
    forall k :: k >= 0 ==> SlotStart(k, g.slotMs) <= h(k) <= SlotStart(k, g.slotMs) + late
  }

  /** The socket of a slot is open at moment t: it is current, next, or not yet due to be closed. */
  ghost predicate OpenIn(q: Ports, slot: int, t: int) {
    || q.current.slot == slot
    || (q.next.Some? && q.next.value.slot == slot)
    || exists i :: 0 <= i < |q.pending| && q.pending[i].socket.slot == slot && t < q.pending[i].due
  }

  /** The server itself has a socket open at this address. */
  ghost predicate Holds(q: Ports, addressOf: Addressing, address: string, t: int) {
    exists slot :: OpenIn(q, slot, t) && addressOf(slot) == address
  }

  /**
   * The hop that finds the sockets q and is over at moment t. It binds before it retires the previous socket, so its
   * bind fails when any socket of the server is open at the new address. Until it is over it changes nothing that is
   * open, so it may be taken to happen then.
   */
  ghost function HopAt(g: Settings, q: Ports, addressOf: Addressing, fails: bool, t: int): HopInput
    requires ValidSettings(g)
  {
    HopInput(t, t, !fails && !Holds(q, addressOf, addressOf(SlotOf(PrebindMoment(t, t, g.slotMs), g.slotMs)), t), t)
  }

  /** The sockets after the hops of slots first+1 .. k. */
  ghost function PortsAfter(g: Settings, p: Ports, w: World, first: nat, k: nat): Ports
    requires ValidSettings(g)
    decreases k
  {
    if k <= first then p
    else
      var q := PortsAfter(g, p, w, first, k - 1);
      HopOnce(g, q, HopAt(g, q, w.addressOf, w.fails(k), w.hops(k)))
  }

  /** The last slot whose hop is over by moment t. */
  function HopsDone(g: Settings, h: Schedule, t: int): int
    requires ValidSettings(g)
  {
    var k := SlotOf(t, g.slotMs);
    if t >= h(k) then k else k - 1
  }

  ghost predicate Listening(g: Settings, p: Ports, w: World, first: nat, slot: int, t: int)
    requires ValidSettings(g)
  {
    var done := HopsDone(g, w.hops, t);
    done >= 0 && OpenIn(PortsAfter(g, p, w, first, done), slot, t)
  }

  /** Some open socket is bound to this address. */
  ghost predicate AddressOpen(g: Settings, p: Ports, w: World, first: nat, address: string, t: int)
    requires ValidSettings(g)
  {
    exists slot :: Listening(g, p, w, first, slot, t) && w.addressOf(slot) == address
  }

  // ----- the same without the machine -----

  /** Slot j gets a socket of its own: nothing else fails its bind and neither of the last two current sockets is in the way. */
  predicate Prebound(p: Ports, w: World, first: nat, j: nat)
    decreases j, 0
  {
    if j <= first then j == first
    else if j == first + 1 then p.next.Some?
    else
      && !w.fails(j - 1)
      && w.addressOf(j) != w.addressOf(CurrentSlot(p, w, first, j - 1))
      && w.addressOf(j) != w.addressOf(CurrentSlot(p, w, first, j - 2))
  }

  /** The slot whose socket is current after the hop of slot k. */
  function CurrentSlot(p: Ports, w: World, first: nat, k: nat): (slot: int)
    ensures k >= first ==> first <= slot <= k
    decreases k, 1
  {
    if k <= first then first else if Prebound(p, w, first, k) then k else CurrentSlot(p, w, first, k - 1)
  }

  /** Slot j is served: the socket current in it is bound to its address, whether for its sake or for an earlier slot's. */
  predicate Served(p: Ports, w: World, first: nat, j: nat) {
    w.addressOf(CurrentSlot(p, w, first, j)) == w.addressOf(j)
  }

  // ----- the machine does just that -----

  /** Started in slot `first`, with the next slot's socket or without one. */
  predicate Starts(p: Ports, first: nat) {
    p.current.slot == first && (p.next.Some? ==> p.next.value.slot == first + 1) && p.pending == []
  }

  /** Settings that leave a hop `late` ns, and old sockets time to close before the next hop. */
  predicate Fit(g: Settings, late: nat) {
    && g.slotMs >= 2 && g.prebind
    && late + g.closeDelayMs * NS_PER_MS <= g.slotMs * NS_PER_MS
    && late < g.slotMs * NS_PER_MS
  }

  ghost predicate Running(g: Settings, p: Ports, w: World, first: nat, late: nat) {
    Fit(g, late) && Starts(p, first) && OnSchedule(g, w.hops, late)
  }

  /** An old socket still to be closed by the goroutine of slot k's hop. */
  predicate RetiredBy(g: Settings, w: World, c: Closing, slot: int, k: int) {
    c.socket.slot == slot && c.due == w.hops(k) + g.closeDelayMs * NS_PER_MS
  }

  ghost predicate Shape(g: Settings, p: Ports, q: Ports, w: World, first: nat, k: nat) {
    && k >= first
    && q.current.slot == CurrentSlot(p, w, first, k)
    && q.next.Some? == Prebound(p, w, first, k + 1)
    && (q.next.Some? ==> q.next.value.slot == k + 1)
    && (forall i :: 0 <= i < |q.pending| ==>
          || q.pending[i].due <= SlotStart(k, g.slotMs)
          || (k > first && RetiredBy(g, w, q.pending[i], CurrentSlot(p, w, first, k - 1), k)))
    && (k > first && Prebound(p, w, first, k) ==>
          exists i :: 0 <= i < |q.pending| && RetiredBy(g, w, q.pending[i], CurrentSlot(p, w, first, k - 1), k))
  }

  /** The sockets open once the hop of slot k is over. */
  ghost predicate OpenAfter(g: Settings, p: Ports, w: World, first: nat, k: nat, slot: int, t: int) {
    || slot == CurrentSlot(p, w, first, k)
    || (slot == k + 1 && Prebound(p, w, first, k + 1))
    || (k > first && slot == CurrentSlot(p, w, first, k - 1) && t < w.hops(k) + g.closeDelayMs * NS_PER_MS)
  }

  lemma ShapeOpen(g: Settings, p: Ports, q: Ports, w: World, first: nat, k: nat, slot: int, t: int)
    requires Shape(g, p, q, w, first, k) && t >= SlotStart(k, g.slotMs)
    ensures OpenIn(q, slot, t) <==> OpenAfter(g, p, w, first, k, slot, t)
  {
    hide SlotStart;
  }

  lemma ScheduleTimely(g: Settings, h: Schedule, late: nat, k: nat)
    requires ValidSettings(g) && OnSchedule(g, h, late) && late < g.slotMs * NS_PER_MS
    ensures h(k) >= 0 && SlotOf(h(k), g.slotMs) == k
  {
    SlotOrder(0, k, g.slotMs);
    SlotStep(k, g.slotMs);
    SlotBounds(h(k), g.slotMs, k);
  }

  /** A hop's bind fails exactly as `Prebound` says. */
  lemma BindOutcome(g: Settings, p: Ports, q: Ports, w: World, first: nat, late: nat, k: nat)
    requires Running(g, p, w, first, late) && k > first && Shape(g, p, q, w, first, k - 1)
    ensures var h := HopAt(g, q, w.addressOf, w.fails(k), w.hops(k));
            Timely(g, h, k) && h.bindOk == Prebound(p, w, first, k + 1)
  {
    hide SlotStart, Shape, OpenIn;
    var t := w.hops(k);
    ScheduleTimely(g, w.hops, late, k);
    ScheduleTimely(g, w.hops, late, k - 1);
    PrebindTargetsNextSlot(t, t, g.slotMs);
    SlotStep(k - 1, g.slotMs);
    forall slot ensures OpenIn(q, slot, t) <==> slot == CurrentSlot(p, w, first, k - 1) || slot == CurrentSlot(p, w, first, k) {
      ShapeOpen(g, p, q, w, first, k - 1, slot, t);
    }
    var address := w.addressOf(k + 1);
    if w.addressOf(CurrentSlot(p, w, first, k - 1)) == address {
      assert OpenIn(q, CurrentSlot(p, w, first, k - 1), t);
    }
    if w.addressOf(CurrentSlot(p, w, first, k)) == address {
      assert OpenIn(q, CurrentSlot(p, w, first, k), t);
    }
  }

  lemma ShapeKept(g: Settings, p: Ports, q: Ports, w: World, first: nat, late: nat, k: nat)
    requires Running(g, p, w, first, late) && k > first && Shape(g, p, q, w, first, k - 1)
    ensures Shape(g, p, HopOnce(g, q, HopAt(g, q, w.addressOf, w.fails(k), w.hops(k))), w, first, k)
  {
    hide SlotStart, Holds;
    var h := HopAt(g, q, w.addressOf, w.fails(k), w.hops(k));
    var r := HopOnce(g, q, h);
    BindOutcome(g, p, q, w, first, late, k);
    TimelyBind(g, q, h, k);
    SlotStep(k - 1, g.slotMs);
    assert w.hops(k - 1) <= SlotStart(k - 1, g.slotMs) + late;
    if Prebound(p, w, first, k) {
      assert q.next.Some? && q.next.value.slot == k != q.current.slot;
      assert RetiredBy(g, w, r.pending[|q.pending|], CurrentSlot(p, w, first, k - 1), k);
    }
  }

  lemma {:induction false} PortsAfterShape(g: Settings, p: Ports, w: World, first: nat, late: nat, k: nat)
    requires Running(g, p, w, first, late) && k >= first
    ensures Shape(g, p, PortsAfter(g, p, w, first, k), w, first, k)
    decreases k
  {
    if k > first {
      PortsAfterShape(g, p, w, first, late, k - 1);
      ShapeKept(g, p, PortsAfter(g, p, w, first, k - 1), w, first, late, k);
    }
  }

  /**
   * Which sockets are open, in any run, whichever binds fail and whatever addresses coincide: the current one, the
   * prebound one if its bind succeeded, and the one before for the close delay.
   */
  lemma ListeningExactly(g: Settings, p: Ports, w: World, first: nat, late: nat, t: int, slot: int)
    requires Running(g, p, w, first, late) && t >= SlotStart(first + 1, g.slotMs)
    ensures HopsDone(g, w.hops, t) >= first
    ensures Listening(g, p, w, first, slot, t) <==> OpenAfter(g, p, w, first, HopsDone(g, w.hops, t), slot, t)
  {
    hide SlotStart, OpenIn, OpenAfter, PortsAfter;
    var j := SlotOf(t, g.slotMs);
    var k := HopsDone(g, w.hops, t);
    SlotOrder(0, first + 1, g.slotMs);
    SlotBounds(t, g.slotMs, j);
    if j < first + 1 {
      SlotOrder(j + 1, first + 1, g.slotMs);
    }
    SlotOrder(k, j, g.slotMs);
    PortsAfterShape(g, p, w, first, late, k);
    ShapeOpen(g, p, PortsAfter(g, p, w, first, k), w, first, k, slot, t);
  }

  /** The same for addresses. */
  lemma OpenExactly(g: Settings, p: Ports, w: World, first: nat, late: nat, t: int, address: string)
    requires Running(g, p, w, first, late) && t >= SlotStart(first + 1, g.slotMs)
    ensures var k := HopsDone(g, w.hops, t);
      k >= first && (AddressOpen(g, p, w, first, address, t) <==>
        || address == w.addressOf(CurrentSlot(p, w, first, k))
        || (address == w.addressOf(k + 1) && Prebound(p, w, first, k + 1))
        || (k > first && address == w.addressOf(CurrentSlot(p, w, first, k - 1))
            && t < w.hops(k) + g.closeDelayMs * NS_PER_MS))
  {
    hide Listening, Prebound, CurrentSlot, HopsDone, SlotStart;
    var k := HopsDone(g, w.hops, t);
    forall slot ensures k >= first && (Listening(g, p, w, first, slot, t) <==> OpenAfter(g, p, w, first, k, slot, t)) {
      ListeningExactly(g, p, w, first, late, t, slot);
    }
    assert k >= first by {
      ListeningExactly(g, p, w, first, late, t, 0);
    }
    assert OpenAfter(g, p, w, first, k, CurrentSlot(p, w, first, k), t);
    assert Prebound(p, w, first, k + 1) ==> OpenAfter(g, p, w, first, k, k + 1, t);
    assert k > first && t < w.hops(k) + g.closeDelayMs * NS_PER_MS ==>
             OpenAfter(g, p, w, first, k, CurrentSlot(p, w, first, k - 1), t);
  }

  // ----- which slots are served -----

  ghost predicate Unshared(addressOf: Addressing) {
    forall j, k :: addressOf(j) == addressOf(k) ==> j == k
  }

  /** No address comes back after one slot elsewhere. */
  ghost predicate NoReturn(addressOf: Addressing, first: nat) {
    forall k: nat :: k > first && addressOf(k + 1) == addressOf(k - 1) ==> addressOf(k + 1) == addressOf(k)
  }

  /** An unserved slot has no socket of its own, and the current one stays what it was. */
  lemma UnservedKeeps(p: Ports, w: World, first: nat, j: nat)
    requires j > first && !Served(p, w, first, j)
    ensures !Prebound(p, w, first, j)
    ensures CurrentSlot(p, w, first, j) == CurrentSlot(p, w, first, j - 1)
    ensures w.addressOf(CurrentSlot(p, w, first, j - 1)) != w.addressOf(j)
  {
  }

  /** A slot whose address was that of the slot before last, and not the last one's, cannot be bound in time. */
  lemma ReturnIsUnserved(p: Ports, w: World, first: nat, j: nat)
    requires j > first + 1 && Served(p, w, first, j - 1) && Served(p, w, first, j - 2)
    requires w.addressOf(j) == w.addressOf(j - 2) != w.addressOf(j - 1)
    ensures !Served(p, w, first, j)
  {
    assert w.addressOf(CurrentSlot(p, w, first, j - 2)) == w.addressOf(j);
    assert !Prebound(p, w, first, j);
  }

  /** When slots do not share addresses, a failed bind costs its own slot and no other. */
  lemma FailedBindCostsOneSlot(p: Ports, w: World, first: nat, j: nat)
    requires Unshared(w.addressOf) && j > first
    ensures Served(p, w, first, j) <==> if j == first + 1 then p.next.Some? else !w.fails(j - 1)
  {
    assert CurrentSlot(p, w, first, j - 1) < j;
    assert CurrentSlot(p, w, first, j) == j <==> Prebound(p, w, first, j);
    if j > first + 1 {
      assert CurrentSlot(p, w, first, j - 2) < j;
    }
  }

  lemma {:induction false} NoReturnServes(p: Ports, w: World, first: nat, j: nat)
    requires (forall k :: !w.fails(k)) && NoReturn(w.addressOf, first)
    requires p.next.None? ==> w.addressOf(first + 1) == w.addressOf(first)
    requires j >= first
    ensures Served(p, w, first, j)
    decreases j
  {
    if j > first {
      NoReturnServes(p, w, first, j - 1);
      if j > first + 1 {
        NoReturnServes(p, w, first, j - 2);
      }
    }
  }

  /**
   * If binds fail only because the server holds the address itself, then all slots are served exactly when no
   * address is that of the slot before last without being the last slot's.
   */
  lemma AllServedExactly(p: Ports, w: World, first: nat)
    requires forall k :: !w.fails(k)
    requires p.next.None? ==> w.addressOf(first + 1) == w.addressOf(first)
    ensures (forall j: nat :: j >= first ==> Served(p, w, first, j)) <==> NoReturn(w.addressOf, first)
  {
    if NoReturn(w.addressOf, first) {
      forall j: nat | j >= first ensures Served(p, w, first, j) {
        NoReturnServes(p, w, first, j);
      }
    }
    if forall j: nat :: j >= first ==> Served(p, w, first, j) {
      forall k: nat | k > first && w.addressOf(k + 1) == w.addressOf(k - 1) ensures w.addressOf(k + 1) == w.addressOf(k) {
        assert Served(p, w, first, k - 1) && Served(p, w, first, k) && Served(p, w, first, k + 1);
        assert w.addressOf(CurrentSlot(p, w, first, k - 1)) == w.addressOf(k - 1);
        assert !Prebound(p, w, first, k + 1);
      }
    }
  }
}
