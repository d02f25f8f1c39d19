/** Which of the server's sockets a client packet can reach, given an error in its predicted arrival time. */
module Arrival {
  import opened HopClock
  import opened Hopping
  import opened Serving
  import opened Wrappers

  // ----- the client's side -----

  /** Milliseconds left in the slot of a moment. */
  function Remaining(t: int, slotMs: nat): int
    requires slotMs > 0
  {
    slotMs - GoMod(UnixMilli(t), slotMs)
  }

  /** The slots a packet predicted to arrive at `arrival` is sent to. */
  function Targets(arrival: int, slotMs: nat, thresholdMs: int): set<int>
    requires slotMs > 0
  {
    {SlotOf(arrival, slotMs)}
    + if Remaining(arrival, slotMs) < thresholdMs then {SlotOf(arrival + slotMs * NS_PER_MS, slotMs)} else {}
  }

  /** A packet goes to its slot, and to the next one too exactly when less than the threshold is left of its millisecond. */
  lemma TargetsMean(t: int, slotMs: nat, thresholdMs: int)
    requires slotMs > 0 && t >= 0
    ensures var j := SlotOf(t, slotMs);
      Targets(t, slotMs, thresholdMs)
      == {j} + if SlotStart(j + 1, slotMs) - t / 1_000_000 * 1_000_000 < thresholdMs * 1_000_000 then {j + 1} else {}
  {
    var j := SlotOf(t, slotMs);
    NextTarget(t, slotMs, j);
    Position(t, slotMs);
    assert (j + 1) * slotMs == j * slotMs + slotMs;
    assert SlotStart(j + 1, slotMs) == (UnixMilli(t) + Remaining(t, slotMs)) * NS_PER_MS;
  }

  /**
   * The client's sends: the predicted slot's address, and near the slot's end also the next slot's, unless
   * that is the same address.
   */
  method ClientWrite(now: int, latency: int, slotMs: nat, thresholdMs: int, addressOf: Addressing)
    returns (destinations: seq<string>)
    requires slotMs > 0
    ensures forall a :: a in destinations <==> exists k :: k in Targets(now + latency, slotMs, thresholdMs) && a == addressOf(k)
    ensures |destinations| == 2 ==> destinations[0] != destinations[1]
    ensures 1 <= |destinations| <= 2 && destinations[0] == addressOf(SlotOf(now + latency, slotMs))
  {
    var arrival := now + latency;
    var target1 := addressOf(SlotOf(arrival, slotMs));
    destinations := [target1];
    ghost var targets := Targets(arrival, slotMs, thresholdMs);
    assert SlotOf(arrival, slotMs) in targets;
    var ms := GoMod(UnixMilli(arrival), slotMs);
    if slotMs - ms < thresholdMs {
      var target2 := addressOf(SlotOf(arrival + slotMs * NS_PER_MS, slotMs));
      assert SlotOf(arrival + slotMs * NS_PER_MS, slotMs) in targets;
      if target2 != target1 {
        destinations := destinations + [target2];
      }
    }
  }

  // ----- how wrong the prediction may be -----

  /** A packet predicted for `arrival` and truly arriving `error` later (or earlier) was sent to the address of an open socket. */
  ghost predicate Reaches(g: Settings, p: Ports, w: World, first: nat, thresholdMs: int, arrival: int, error: int)
    requires ValidSettings(g)
  {
    exists target :: target in Targets(arrival, g.slotMs, thresholdMs)
                     && AddressOpen(g, p, w, first, w.addressOf(target), arrival + error)
  }

  /** The largest tolerated lateness; a threshold below 1 ms never makes the client send twice. */
  function LatestError(g: Settings, thresholdMs: int): int {
    ((if thresholdMs < 1 then 1 else thresholdMs) - 1) * NS_PER_MS + g.closeDelayMs * NS_PER_MS
  }

  lemma RemainingMeans(t: int, slotMs: nat, j: int)
    requires slotMs > 0 && t >= 0 && SlotOf(t, slotMs) == j
    ensures 1 <= Remaining(t, slotMs) <= slotMs
    ensures SlotStart(j + 1, slotMs) - Remaining(t, slotMs) * NS_PER_MS <= t
            < SlotStart(j + 1, slotMs) - (Remaining(t, slotMs) - 1) * NS_PER_MS
  {
    var m := UnixMilli(t);
    SlotQuotient(t, slotMs);
    DivBounds(m, slotMs, j);
    assert (j + 1) * slotMs == j * slotMs + slotMs;
    assert Remaining(t, slotMs) == (j + 1) * slotMs - m;
  }

  lemma NextTarget(t: int, slotMs: nat, j: int)
    requires slotMs > 0 && t >= 0 && SlotOf(t, slotMs) == j
    ensures SlotOf(t + slotMs * NS_PER_MS, slotMs) == j + 1
  {
    SlotBounds(t, slotMs, j);
    SlotStep(j, slotMs);
    SlotStep(j + 1, slotMs);
    SlotBounds(t + slotMs * NS_PER_MS, slotMs, j + 1);
  }

  /** A moment at most one slot before slot j and before slot j + 2 lies in slot j - 1, j or j + 1. */
  lemma NearSlot(s: nat, j: int, t: int, k: int)
    requires s > 0 && t >= 0 && SlotOf(t, s) == k
    requires SlotStart(j, s) - s * NS_PER_MS <= t < SlotStart(j + 1, s) + s * NS_PER_MS
    ensures j - 1 <= k <= j + 1
  {
    SlotBounds(t, s, k);
    SlotStep(j - 1, s);
    SlotStep(j + 1, s);
    if k < j - 1 {
      SlotOrder(k + 1, j - 1, s);
    }
    if k > j + 1 {
      SlotOrder(j + 2, k, s);
    }
  }

  /**
   * Coverage: with hops at most `late` after the slot boundary, every packet predicted for a served slot whose error is
   * within [-(slot - late), threshold - 1 ms + delay] reaches an open socket, whichever other binds fail.
   */
  lemma Coverage(g: Settings, p: Ports, w: World, first: nat, late: nat, thresholdMs: int, arrival: int, error: int)
    requires Running(g, p, w, first, late) && thresholdMs + g.closeDelayMs <= g.slotMs
    requires arrival >= 0 && arrival + error >= SlotStart(first + 1, g.slotMs)
    requires SlotOf(arrival, g.slotMs) >= first && Served(p, w, first, SlotOf(arrival, g.slotMs))
    requires -(g.slotMs * NS_PER_MS - late) <= error <= LatestError(g, thresholdMs)
    ensures Reaches(g, p, w, first, thresholdMs, arrival, error)
  {
    hide SlotStart, Reaches, AddressOpen, Served, Prebound, OnSchedule, Starts;
    var s := g.slotMs;
    var t := arrival + error;
    var j := SlotOf(arrival, s);
    var k := SlotOf(t, s);
    RemainingMeans(arrival, s, j);
    NextTarget(arrival, s, j);
    SlotBounds(arrival, s, j);
    SlotOrder(0, first + 1, s);
    NearSlot(s, j, t, k);
    SlotStep(j - 1, s);
    SlotBounds(t, s, k);
    var target := if k == j + 1 && Remaining(arrival, s) < thresholdMs && Prebound(p, w, first, j + 1) then j + 1 else j;
    assert target in Targets(arrival, s, thresholdMs);
    OpenNear(g, p, w, first, late, t, j, target);
    TargetReaches(g, p, w, first, thresholdMs, arrival, error, target);
  }

  lemma TargetReaches(g: Settings, p: Ports, w: World, first: nat, thresholdMs: int, arrival: int, error: int, target: int)
    requires ValidSettings(g)
    requires target in Targets(arrival, g.slotMs, thresholdMs) && AddressOpen(g, p, w, first, w.addressOf(target), arrival + error)
    ensures Reaches(g, p, w, first, thresholdMs, arrival, error)
  {
    hide Targets, AddressOpen;
  }

  /** A served slot's address is open from its prebind until the close delay of the next slot, and then the next one's is if it has a socket. */
  lemma OpenNear(g: Settings, p: Ports, w: World, first: nat, late: nat, t: int, j: nat, target: nat)
    requires Running(g, p, w, first, late) && t >= SlotStart(first + 1, g.slotMs) && j >= first && Served(p, w, first, j)
    requires var k := SlotOf(t, g.slotMs);
      || (k == j - 1 && t >= SlotStart(k, g.slotMs) + late && target == j)
      || (k == j && target == j)
      || (k == j + 1 && target == j && (t < SlotStart(k, g.slotMs) + g.closeDelayMs * NS_PER_MS || !Prebound(p, w, first, j + 1)))
      || (k == j + 1 && target == j + 1 && Prebound(p, w, first, j + 1))
    ensures AddressOpen(g, p, w, first, w.addressOf(target), t)
  {
    hide AddressOpen;
    var k := SlotOf(t, g.slotMs);
    SlotOrder(0, first + 1, g.slotMs);
    SlotBounds(t, g.slotMs, k);
    OpenExactly(g, p, w, first, late, t, w.addressOf(target));
    hide SlotStart;
    assert SlotStart(k, g.slotMs) <= w.hops(k) <= SlotStart(k, g.slotMs) + late;
  }

  /** The moment in slot j nearest its end that is not sent twice. */
  function LastSingle(slotMs: nat, thresholdMs: int, j: int): int {
    SlotStart(j + 1, slotMs) - (if thresholdMs < 1 then 1 else thresholdMs) * NS_PER_MS + (NS_PER_MS - 1)
  }

  lemma LastSingleSentOnce(slotMs: nat, thresholdMs: int, j: nat)
    requires slotMs >= 2 && thresholdMs <= slotMs
    ensures var a := LastSingle(slotMs, thresholdMs, j);
            0 <= SlotStart(j, slotMs) <= a < SlotStart(j + 1, slotMs) && Targets(a, slotMs, thresholdMs) == {j}
  {
    var a := LastSingle(slotMs, thresholdMs, j);
    SlotOrder(0, j, slotMs);
    SlotStep(j, slotMs);
    SlotBounds(a, slotMs, j);
    RemainingMeans(a, slotMs, j);
  }

  lemma FirstSentOnce(slotMs: nat, thresholdMs: int, j: nat)
    requires slotMs > 0 && thresholdMs <= slotMs
    ensures SlotStart(j, slotMs) >= 0 && SlotOf(SlotStart(j, slotMs), slotMs) == j
    ensures Targets(SlotStart(j, slotMs), slotMs, thresholdMs) == {j}
  {
    var a := SlotStart(j, slotMs);
    SlotOrder(0, j, slotMs);
    SlotStep(j, slotMs);
    SlotBounds(a, slotMs, j);
    RemainingMeans(a, slotMs, j);
  }

  // ----- which slots survive every tolerable error -----

  /** A packet predicted for slot j, with an error within the tolerance, arriving once the server is past its first boundary. */
  ghost predicate Tolerable(g: Settings, first: nat, late: nat, thresholdMs: int, j: nat, arrival: int, error: int) {
    && SlotStart(j, g.slotMs) <= arrival < SlotStart(j + 1, g.slotMs)
    && arrival + error >= SlotStart(first + 1, g.slotMs)
    && -(g.slotMs * NS_PER_MS - late) <= error <= LatestError(g, thresholdMs)
  }

  ghost predicate AllSurvive(g: Settings, p: Ports, w: World, first: nat, late: nat, thresholdMs: int, j: nat)
    requires ValidSettings(g)
  {
    forall h: Schedule, arrival, error | OnSchedule(g, h, late) && Tolerable(g, first, late, thresholdMs, j, arrival, error) ::
      Reaches(g, p, w.(hops := h), first, thresholdMs, arrival, error)
  }

  /**
   * For any addresses and any failing binds: all packets of a slot survive all errors within the tolerance, at all
   * times hops may take, exactly when the slot is served. A close delay of a whole slot can save an unserved one, and
   * nothing can arrive early for the slot in which the server comes to its first boundary.
   */
  lemma ServedExactly(g: Settings, p: Ports, w: World, first: nat, late: nat, thresholdMs: int, j: nat)
    requires Fit(g, late) && Starts(p, first) && thresholdMs + g.closeDelayMs <= g.slotMs && j >= first
    ensures Served(p, w, first, j) ==> AllSurvive(g, p, w, first, late, thresholdMs, j)
    ensures j > first + 1 && g.closeDelayMs < g.slotMs && AllSurvive(g, p, w, first, late, thresholdMs, j) ==> Served(p, w, first, j)
  {
    hide Reaches, Served;
    if Served(p, w, first, j) {
      forall h: Schedule, arrival, error | OnSchedule(g, h, late) && Tolerable(g, first, late, thresholdMs, j, arrival, error)
        ensures Reaches(g, p, w.(hops := h), first, thresholdMs, arrival, error)
      {
        SameWithoutHops(p, w, h, first, j);
        SlotOrder(0, j, g.slotMs);
        SlotBounds(arrival, g.slotMs, j);
        Coverage(g, p, w.(hops := h), first, late, thresholdMs, arrival, error);
      }
    } else if j > first + 1 && g.closeDelayMs < g.slotMs {
      var h := HopsAfter(g.slotMs, 0);
      SameWithoutHops(p, w, h, first, j);
      UnservedMissed(g, p, w.(hops := h), first, late, thresholdMs, j);
      MomentBefore(g, first, late, thresholdMs, j);
    }
  }

  /** When hops happen does not matter to who is served. */
  lemma {:induction false} SameWithoutHops(p: Ports, w: World, h: Schedule, first: nat, j: nat)
    ensures Prebound(p, w.(hops := h), first, j) == Prebound(p, w, first, j)
    ensures CurrentSlot(p, w.(hops := h), first, j) == CurrentSlot(p, w, first, j)
    ensures Served(p, w.(hops := h), first, j) == Served(p, w, first, j)
  {
    if j > first {
      SameWithoutHops(p, w, h, first, j - 1);
      if j > first + 1 {
        SameWithoutHops(p, w, h, first, j - 2);
      }
    }
  }

  lemma MomentBefore(g: Settings, first: nat, late: nat, thresholdMs: int, j: nat)
    requires Fit(g, late) && j > first + 1
    ensures Tolerable(g, first, late, thresholdMs, j, SlotStart(j, g.slotMs), -1)
  {
    SlotStep(j, g.slotMs);
    SlotStep(j - 1, g.slotMs);
    SlotOrder(first + 1, j - 1, g.slotMs);
  }

  /** The packet that comes a nanosecond before its unserved slot is lost. */
  lemma UnservedMissed(g: Settings, p: Ports, w: World, first: nat, late: nat, thresholdMs: int, j: nat)
    requires Fit(g, late) && Starts(p, first) && w.hops == HopsAfter(g.slotMs, 0)
    requires thresholdMs + g.closeDelayMs <= g.slotMs && g.closeDelayMs < g.slotMs
    requires j > first + 1 && !Served(p, w, first, j)
    ensures !Reaches(g, p, w, first, thresholdMs, SlotStart(j, g.slotMs), -1)
  {
    hide SlotStart, Targets, AddressOpen, Prebound, CurrentSlot, HopsDone, Served;
    var t := SlotStart(j, g.slotMs) - 1;
    FirstSentOnce(g.slotMs, thresholdMs, j);
    DoneJustBefore(g, first, j);
    UnservedKeeps(p, w, first, j);
    OpenExactly(g, p, w, first, 0, t, w.addressOf(j));
  }

  lemma DoneJustBefore(g: Settings, first: nat, j: nat)
    requires ValidSettings(g) && g.closeDelayMs < g.slotMs && j > first + 1
    ensures var h, t := HopsAfter(g.slotMs, 0), SlotStart(j, g.slotMs) - 1;
      t >= SlotStart(first + 1, g.slotMs) && HopsDone(g, h, t) == j - 1 && t >= h(j - 1) + g.closeDelayMs * NS_PER_MS
  {
    SlotStep(j - 1, g.slotMs);
    SlotOrder(first + 1, j - 1, g.slotMs);
    SlotOrder(0, j - 1, g.slotMs);
    hide SlotStart;
    SlotBounds(SlotStart(j, g.slotMs) - 1, g.slotMs, j - 1);
  }

  // ----- the tolerance is exact -----

  /** Hops all over the same time after the boundary. */
  function HopsAfter(slotMs: nat, late: nat): Schedule {
    (k: int) => SlotStart(k, slotMs) + late
  }

  /** An address for every slot, no two alike. */
  function Unary(k: int): string {
    if k >= 0 then seq(k, i => '1') else seq(-k, i => '0')
  }

  lemma UnaryUnshared()
    ensures Unshared(Unary)
  {
    forall j, k | Unary(j) == Unary(k) ensures j == k {
      assert |Unary(j)| == |Unary(k)|;
      if j != 0 {
        assert Unary(j)[0] == Unary(k)[0];
      }
    }
  }

  /** A world without shared addresses or failing binds, and a start with the next slot's socket in it. */
  function Plain(slotMs: nat, late: nat): World {
    World(Unary, k => false, HopsAfter(slotMs, late))
  }

  function InStepStart(first: nat): Ports {
    Ports(Socket(0, first), Some(Socket(1, first + 1)), [], [], 2)
  }

  lemma PlainServes(p: Ports, w: World, first: nat, j: nat)
    requires Unshared(w.addressOf) && (forall k :: !w.fails(k)) && p.next.Some? && j >= first
    ensures CurrentSlot(p, w, first, j) == j && Served(p, w, first, j)
  {
    if j > first {
      FailedBindCostsOneSlot(p, w, first, j);
    }
  }

  /**
   * The tolerance is exact: in all worlds in which slot j is served and hops are over within `late` of the slot
   * boundaries, all its packets survive an error precisely when it lies in [-(slot - late), threshold - 1 ms + delay].
   */
  lemma ToleranceExactly(g: Settings, first: nat, late: nat, thresholdMs: int, j: nat, error: int)
    requires Fit(g, late) && thresholdMs + g.closeDelayMs <= g.slotMs
    requires j >= first && SlotStart(j, g.slotMs) + error >= SlotStart(first + 1, g.slotMs)
    ensures (forall p, w, arrival |
               Running(g, p, w, first, late) && Served(p, w, first, j)
               && SlotStart(j, g.slotMs) <= arrival < SlotStart(j + 1, g.slotMs) ::
               Reaches(g, p, w, first, thresholdMs, arrival, error))
            <==> -(g.slotMs * NS_PER_MS - late) <= error <= LatestError(g, thresholdMs)
  {
    hide Reaches, SlotStart, LatestError, Served;
    var s := g.slotMs;
    SlotOrder(0, j, s);
    SlotStep(j, s);
    if -(s * NS_PER_MS - late) <= error <= LatestError(g, thresholdMs) {
      forall p, w, arrival | Running(g, p, w, first, late) && Served(p, w, first, j) && SlotStart(j, s) <= arrival < SlotStart(j + 1, s)
        ensures Reaches(g, p, w, first, thresholdMs, arrival, error)
      {
        SlotBounds(arrival, s, j);
        Coverage(g, p, w, first, late, thresholdMs, arrival, error);
      }
    } else if error > LatestError(g, thresholdMs) {
      TooLate(g, first, late, thresholdMs, j, error);
    } else {
      TooEarly(g, first, late, thresholdMs, j, error);
    }
  }

  lemma PlainRuns(g: Settings, first: nat, late: nat, delayed: nat, j: nat)
    requires Fit(g, late) && delayed <= late && j >= first
    ensures Running(g, InStepStart(first), Plain(g.slotMs, delayed), first, late)
    ensures Running(g, InStepStart(first), Plain(g.slotMs, delayed), first, delayed)
    ensures Served(InStepStart(first), Plain(g.slotMs, delayed), first, j)
  {
    UnaryUnshared();
    PlainServes(InStepStart(first), Plain(g.slotMs, delayed), first, j);
  }

  /** In the plain world each slot has its own socket, and its address is open for nobody else. */
  lemma PlainOpen(g: Settings, first: nat, late: nat, t: int, j: nat)
    requires Fit(g, late) && j >= first && t >= SlotStart(first + 1, g.slotMs)
    ensures var p, w := InStepStart(first), Plain(g.slotMs, late); var k := HopsDone(g, w.hops, t);
      k >= first && (AddressOpen(g, p, w, first, w.addressOf(j), t) <==>
        j == k || j == k + 1 || (j == k - 1 && t < w.hops(k) + g.closeDelayMs * NS_PER_MS))
  {
    hide SlotStart, AddressOpen, Unary, HopsDone;
    var p, w := InStepStart(first), Plain(g.slotMs, late);
    var k := HopsDone(g, w.hops, t);
    PlainRuns(g, first, late, late, j);
    UnaryUnshared();
    OpenExactly(g, p, w, first, late, t, w.addressOf(j));
    PlainServes(p, w, first, k);
    PlainServes(p, w, first, k + 1);
    if k > first {
      PlainServes(p, w, first, k - 1);
    }
    hide CurrentSlot, OnSchedule;
  }

  /** With hops at the boundaries, the last packet of a slot sent once finds its socket closed. */
  lemma TooLate(g: Settings, first: nat, late: nat, thresholdMs: int, j: nat, error: int)
    requires Fit(g, late) && thresholdMs + g.closeDelayMs <= g.slotMs && j >= first
    requires error > LatestError(g, thresholdMs) && SlotStart(j, g.slotMs) + error >= SlotStart(first + 1, g.slotMs)
    ensures var p, w, a := InStepStart(first), Plain(g.slotMs, 0), LastSingle(g.slotMs, thresholdMs, j);
      && Running(g, p, w, first, late) && Served(p, w, first, j)
      && SlotStart(j, g.slotMs) <= a < SlotStart(j + 1, g.slotMs)
      && !Reaches(g, p, w, first, thresholdMs, a, error)
  {
    hide AddressOpen, Targets, Unary, Running, Served;
    var s := g.slotMs;
    var t := LastSingle(s, thresholdMs, j) + error;
    LastSingleSentOnce(s, thresholdMs, j);
    PlainRuns(g, first, late, 0, j);
    PlainOpen(g, first, 0, t, j);
    DoneAfter(g, first, t, j);
  }

  /** With hops at the boundaries, once the close delay after slot j is over its socket has been retired and closed. */
  lemma DoneAfter(g: Settings, first: nat, t: int, j: nat)
    requires Fit(g, 0) && t >= SlotStart(first + 1, g.slotMs) && t >= SlotStart(j + 1, g.slotMs) + g.closeDelayMs * NS_PER_MS
    ensures var h := HopsAfter(g.slotMs, 0); var k := HopsDone(g, h, t);
      k > j && (k == j + 1 ==> t >= h(k) + g.closeDelayMs * NS_PER_MS)
  {
    hide SlotStart;
    var k := SlotOf(t, g.slotMs);
    SlotOrder(0, first + 1, g.slotMs);
    SlotBounds(t, g.slotMs, k);
    if k <= j {
      SlotOrder(k + 1, j + 1, g.slotMs);
    }
  }

  /** With hops `late`, the first packet of a slot comes before the hop that prebinds its socket. */
  lemma TooEarly(g: Settings, first: nat, late: nat, thresholdMs: int, j: nat, error: int)
    requires Fit(g, late) && thresholdMs + g.closeDelayMs <= g.slotMs && j >= first
    requires error < -(g.slotMs * NS_PER_MS - late) && SlotStart(j, g.slotMs) + error >= SlotStart(first + 1, g.slotMs)
    ensures var p, w, a := InStepStart(first), Plain(g.slotMs, late), SlotStart(j, g.slotMs);
      && Running(g, p, w, first, late) && Served(p, w, first, j)
      && SlotStart(j, g.slotMs) <= a < SlotStart(j + 1, g.slotMs)
      && !Reaches(g, p, w, first, thresholdMs, a, error)
  {
    hide AddressOpen, Targets, Unary, Running, Served;
    var s := g.slotMs;
    var t := SlotStart(j, s) + error;
    SlotStep(j, s);
    FirstSentOnce(s, thresholdMs, j);
    PlainRuns(g, first, late, late, j);
    PlainOpen(g, first, late, t, j);
    HopBefore(g, HopsAfter(s, late), first, late, t, j);
  }

  lemma HopBefore(g: Settings, h: Schedule, first: nat, late: nat, t: int, j: nat)
    requires ValidSettings(g) && late < g.slotMs * NS_PER_MS && h == HopsAfter(g.slotMs, late)
    requires SlotStart(first + 1, g.slotMs) <= t < SlotStart(j, g.slotMs) - g.slotMs * NS_PER_MS + late
    ensures HopsDone(g, h, t) < j - 1
  {
    hide SlotStart;
    var k := SlotOf(t, g.slotMs);
    SlotOrder(0, first + 1, g.slotMs);
    SlotBounds(t, g.slotMs, k);
    SlotStep(j - 1, g.slotMs);
    if k >= j {
      SlotOrder(j, k, g.slotMs);
    }
  }
}
