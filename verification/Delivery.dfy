/** From calibration to an open port. */
module Delivery {
  import opened HopClock
  import opened Hopping
  import opened HopLoop
  import opened Serving
  import opened LoopServing
  import opened Arrival
  import opened Calibration

  /**
   * A client that calibrates, predicts and sends reaches an open server socket, as long as the forward
   * difference of its packet stays within the tolerance, less 1 ns of rounding, of those it measured. The packet is
   * predicted for now + latency on the server's clock and truly arrives at now + forward.
   */
  lemma CalibratedPacketReaches(g: Settings, p: Ports, w: World, first: nat, late: nat, thresholdMs: int,
                                attempts: seq<Attempt>, latency: int, now: int, forward: int, jitter: nat)
    requires Running(g, p, w, first, late) && thresholdMs + g.closeDelayMs <= g.slotMs
    requires |attempts| == MAX_ATTEMPTS && Estimate(attempts, latency)
    requires MeasuredBefore(attempts, MAX_ATTEMPTS) > 0
    requires forall i :: 0 <= i < MeasuredBefore(attempts, MAX_ATTEMPTS) ==> forward - jitter <= Forward(attempts[i]) <= forward + jitter
    requires jitter + 1 <= LatestError(g, thresholdMs) && jitter + 1 + late <= g.slotMs * NS_PER_MS
    requires now + latency >= 0 && now + forward >= SlotStart(first + 1, g.slotMs)
    requires SlotOf(now + latency, g.slotMs) >= first && Served(p, w, first, SlotOf(now + latency, g.slotMs))
    ensures Reaches(g, p, w, first, thresholdMs, now + latency, forward - latency)
  {
    EstimateError(attempts, latency, forward, jitter);
    Coverage(g, p, w, first, late, thresholdMs, now + latency, forward - latency);
  }

  /**
   * A server launched within a slot and a millisecond, whose loop is prompt and whose binds fail only where it holds the
   * address itself: unless an address returns after one slot elsewhere, every packet within the tolerance is received.
   */
  lemma LaunchedServerReceives(g: Settings, now: int, t2: int, nextOk: bool, l: LoopRun, late: nat, thresholdMs: int,
                               arrival: int, error: int)
    requires Fit(g, late) && Prompt(g, l.turns, late) && thresholdMs + g.closeDelayMs <= g.slotMs
    requires 0 <= now <= t2 <= l.start && SlotOf(l.start, g.slotMs) == SlotOf(now, g.slotMs)
    requires UnixMilli(t2) - UnixMilli(now) <= 1
    requires BindsFollow(g, Launch(g, now, t2, nextOk), l) && forall k :: !l.fails(k)
    requires SlotOf(now, g.slotMs) >= 0 && NoReturn(l.addressOf, SlotOf(now, g.slotMs))
    requires !nextOk ==> l.addressOf(SlotOf(now, g.slotMs) + 1) == l.addressOf(SlotOf(now, g.slotMs))
    requires arrival >= 0 && SlotOf(arrival, g.slotMs) >= SlotOf(now, g.slotMs)
    requires arrival + error >= SlotStart(SlotOf(now, g.slotMs) + 1, g.slotMs)
    requires -(g.slotMs * NS_PER_MS - late) <= error <= LatestError(g, thresholdMs)
    ensures Reaches(g, Launch(g, now, t2, nextOk), LoopWorld(g, l), SlotOf(now, g.slotMs), thresholdMs, arrival, error)
  {
    hide SlotOf, SlotStart, BindsFollow, Prompt, Reaches, Running;
    var p, w, first := Launch(g, now, t2, nextOk), LoopWorld(g, l), SlotOf(now, g.slotMs);
    LaunchedServerRuns(g, now, t2, nextOk, l, late);
    NoReturnServes(p, w, first, SlotOf(arrival, g.slotMs));
    Coverage(g, p, w, first, late, thresholdMs, arrival, error);
  }
}
