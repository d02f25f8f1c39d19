/** The sockets of the hopping loop itself are those the run of hops describes. */
module LoopServing {
  import opened HopClock
  import opened Hopping
  import opened HopLoop
  import opened Serving

  /** A loop started at `start`: what its turns meet, the addresses, and which slots' hops cannot bind for outside reasons. */
  datatype LoopRun = LoopRun(start: int, turns: nat -> Turn, addressOf: Addressing, fails: int -> bool)

  /** The world a loop makes for itself; before that the schedule does not matter. */
  function LoopWorld(g: Settings, l: LoopRun): World
    requires ValidSettings(g)
  {
    var first := SlotOf(l.start, g.slotMs);
    World(l.addressOf, l.fails,
          (k: int) => if k > first then LoopHop(g, l.start, l.turns, k - first - 1).spawn else SlotStart(k, g.slotMs))
  }

  /** A bind of the loop succeeds unless something outside the server fails it or the server holds the address itself. */
  ghost predicate BindsFollow(g: Settings, p: Ports, l: LoopRun)
    requires ValidSettings(g)
  {
    forall i: nat :: BindFollows(g, HopAll(g, p, LoopHops(g, l.start, l.turns, i)), LoopHop(g, l.start, l.turns, i), l.addressOf,
                                 l.fails(SlotOf(l.start, g.slotMs) + i + 1))
  }

  ghost predicate BindFollows(g: Settings, q: Ports, h: HopInput, addressOf: Addressing, fails: bool)
    requires ValidSettings(g)
  {
    h.bindOk == (!fails && !Holds(q, addressOf, addressOf(SlotOf(PrebindMoment(h.t1, h.t2, g.slotMs), g.slotMs)), h.spawn))
  }

  /** Over any number of turns a prompt loop hops once in every slot, and is done at most `late` after its start. */
  lemma LoopStaysOnSchedule(g: Settings, l: LoopRun, late: nat)
    requires ValidSettings(g) && l.start >= 0 && Prompt(g, l.turns, late)
    ensures OnSchedule(g, LoopWorld(g, l).hops, late)
  {
    hide SlotStart;
    var first := SlotOf(l.start, g.slotMs);
    var hops := LoopWorld(g, l).hops;
    forall k | k > first ensures SlotStart(k, g.slotMs) <= hops(k) <= SlotStart(k, g.slotMs) + late {
      LoopHopsEverySlot(g, l.start, l.turns, late, k - first - 1);
    }
  }

  /** A timely hop may be taken to happen when it is over. */
  lemma HopWhenOver(g: Settings, q: Ports, h: HopInput, addressOf: Addressing, fails: bool, k: nat)
    requires g.slotMs >= 2 && g.prebind && Timely(g, h, k) && h.spawn >= 0 && SlotOf(h.spawn, g.slotMs) == k
    requires BindFollows(g, q, h, addressOf, fails)
    ensures HopOnce(g, q, h) == HopOnce(g, q, HopAt(g, q, addressOf, fails, h.spawn))
  {
    hide Holds;
    TimelyBind(g, q, h, k);
    PrebindTargetsNextSlot(h.t1, h.t2, g.slotMs);
    PrebindTargetsNextSlot(h.spawn, h.spawn, g.slotMs);
  }

  lemma PortsAfterHop(g: Settings, p: Ports, w: World, first: nat, k: nat)
    requires ValidSettings(g) && k > first
    ensures var q := PortsAfter(g, p, w, first, k - 1);
            PortsAfter(g, p, w, first, k) == HopOnce(g, q, HopAt(g, q, w.addressOf, w.fails(k), w.hops(k)))
  {
    hide HopOnce, HopAt;
  }

  lemma BindFollowsAt(g: Settings, p: Ports, l: LoopRun, i: nat)
    requires ValidSettings(g) && BindsFollow(g, p, l)
    ensures BindFollows(g, HopAll(g, p, LoopHops(g, l.start, l.turns, i)), LoopHop(g, l.start, l.turns, i), l.addressOf,
                        l.fails(SlotOf(l.start, g.slotMs) + i + 1))
  {
  }

  lemma LoopWorldAt(g: Settings, l: LoopRun, i: nat)
    requires ValidSettings(g)
    ensures var w, k := LoopWorld(g, l), SlotOf(l.start, g.slotMs) + i + 1;
      && w.addressOf == l.addressOf && w.fails(k) == l.fails(k) && w.hops(k) == LoopHop(g, l.start, l.turns, i).spawn
  {
    hide SlotOf, LoopHop;
  }

  /** After n turns the loop's sockets are those of the run in its world. */
  ghost predicate Agree(g: Settings, p: Ports, l: LoopRun, first: nat, n: nat)
    requires ValidSettings(g)
  {
    HopAll(g, p, LoopHops(g, l.start, l.turns, n)) == PortsAfter(g, p, LoopWorld(g, l), first, first + n)
  }

  /** The sockets of a prompt loop are those of the run in its world, after any number of turns. */
  lemma {:induction false} LoopSockets(g: Settings, p: Ports, l: LoopRun, late: nat, first: nat, n: nat)
    requires g.slotMs >= 2 && g.prebind && l.start >= 0 && Prompt(g, l.turns, late) && BindsFollow(g, p, l)
    requires first == SlotOf(l.start, g.slotMs)
    ensures Agree(g, p, l, first, n)
    decreases n
  {
    if n == 0 {
      NoTurns(g, p, l.start, l.turns);
    } else {
      hide Agree, BindsFollow, Prompt, SlotOf;
      LoopSockets(g, p, l, late, first, n - 1);
      LoopSocketsNext(g, p, l, late, first, n - 1);
    }
  }

  lemma LoopSocketsNext(g: Settings, p: Ports, l: LoopRun, late: nat, first: nat, i: nat)
    requires g.slotMs >= 2 && g.prebind && l.start >= 0 && Prompt(g, l.turns, late) && BindsFollow(g, p, l)
    requires first == SlotOf(l.start, g.slotMs) && Agree(g, p, l, first, i)
    ensures Agree(g, p, l, first, i + 1)
  {
    hide BindsFollow, Prompt, SlotOf, HopAll, HopOnce, HopAt, LoopHops, LoopHop, LoopWorld, PortsAfter, BindFollows;
    var q := HopAll(g, p, LoopHops(g, l.start, l.turns, i));
    BindFollowsAt(g, p, l, i);
    HopAllTurn(g, p, l.start, l.turns, i);
    LoopWorldAt(g, l, i);
    PortsAfterHop(g, p, LoopWorld(g, l), first, first + i + 1);
    LoopTurnWhenOver(g, q, l, l.fails(first + i + 1), late, i);
  }

  lemma LoopTurnWhenOver(g: Settings, q: Ports, l: LoopRun, fails: bool, late: nat, i: nat)
    requires g.slotMs >= 2 && g.prebind && l.start >= 0 && Prompt(g, l.turns, late)
    requires BindFollows(g, q, LoopHop(g, l.start, l.turns, i), l.addressOf, fails)
    ensures var h := LoopHop(g, l.start, l.turns, i);
            HopOnce(g, q, h) == HopOnce(g, q, HopAt(g, q, l.addressOf, fails, h.spawn))
  {
    SlotQuotient(l.start, g.slotMs);
    hide HopOnce, HopAt, BindFollows, Prompt, Timely, SlotStart, SlotOf, LoopHop, ReadAt;
    LoopHopsEverySlot(g, l.start, l.turns, late, i);
    LoopEndsInSlot(g, l, late, i);
    HopWhenOver(g, q, LoopHop(g, l.start, l.turns, i), l.addressOf, fails, SlotOf(l.start, g.slotMs) + i + 1);
  }

  lemma LoopEndsInSlot(g: Settings, l: LoopRun, late: nat, i: nat)
    requires ValidSettings(g) && l.start >= 0 && Prompt(g, l.turns, late)
    ensures var h := LoopHop(g, l.start, l.turns, i);
            h.spawn >= 0 && SlotOf(h.spawn, g.slotMs) == SlotOf(l.start, g.slotMs) + i + 1
  {
    LoopHopsEverySlot(g, l.start, l.turns, late, i);
    TurnHopsInNextSlot(g, ReadAt(g, l.start, l.turns, i), l.turns(i), late);
  }

  /**
   * A server that reads both its clocks and starts its loop within the slot of the first read, the floored reads at
   * most a millisecond apart, and whose loop is prompt, runs from that slot on; its sockets are its loop's.
   */
  lemma LaunchedServerRuns(g: Settings, now: int, t2: int, nextOk: bool, l: LoopRun, late: nat)
    requires Fit(g, late) && Prompt(g, l.turns, late)
    requires 0 <= now <= t2 <= l.start && SlotOf(l.start, g.slotMs) == SlotOf(now, g.slotMs)
    requires UnixMilli(t2) - UnixMilli(now) <= 1
    requires BindsFollow(g, Launch(g, now, t2, nextOk), l)
    ensures var p, w, first := Launch(g, now, t2, nextOk), LoopWorld(g, l), SlotOf(now, g.slotMs);
      && first >= 0 && Running(g, p, w, first, late)
      && forall n: nat :: Agree(g, p, l, first, n)
  {
    hide BindsFollow, LoopWorld, HopAll, LoopHops, PortsAfter, Prompt, OnSchedule, Launch;
    LaunchStarts(g, now, t2, nextOk, l.start);
    LoopStaysOnSchedule(g, l, late);
    forall n: nat ensures Agree(g, Launch(g, now, t2, nextOk), l, SlotOf(now, g.slotMs), n) {
      LoopSockets(g, Launch(g, now, t2, nextOk), l, late, SlotOf(now, g.slotMs), n);
    }
  }

  lemma LaunchStarts(g: Settings, now: int, t2: int, nextOk: bool, start: int)
    requires g.slotMs >= 2 && g.prebind
    requires 0 <= now <= t2 <= start && SlotOf(start, g.slotMs) == SlotOf(now, g.slotMs)
    requires UnixMilli(t2) - UnixMilli(now) <= 1
    ensures SlotOf(now, g.slotMs) >= 0 && Starts(Launch(g, now, t2, nextOk), SlotOf(now, g.slotMs))
  {
    var k := SlotOf(now, g.slotMs);
    SlotQuotient(now, g.slotMs);
    SlotBounds(now, g.slotMs, k);
    SlotBounds(start, g.slotMs, k);
    SlotBounds(t2, g.slotMs, k);
    LaunchByElapsedTime(g, now, t2);
  }
}
