/** The server's hopping loop: wait for the next slot, hop, and again. */
module HopLoop {
  import opened HopClock
  import opened Hopping

  /**
   * What one turn of the loop meets: how late its timer fires, how long the hop takes between its two clock reads
   * and from there to its end, and whether its bind succeeds.
   */
  datatype Turn = Turn(lag: nat, gap: nat, rest: nat, bindOk: bool)

  /** The hop of a turn that reads its clock at `read`. */
  function HopFrom(g: Settings, read: int, turn: Turn): HopInput
    requires ValidSettings(g)
  {
    var woken := read + NextHopDelay(read, g.slotMs) + turn.lag;
    HopInput(woken, woken + turn.gap, turn.bindOk, woken + turn.gap + turn.rest)
  }

  /** When turn i reads its clock; it starts when the hop before it is over. */
  function ReadAt(g: Settings, start: int, turns: nat -> Turn, i: nat): int
    requires ValidSettings(g)
    decreases i
  {
    if i == 0 then start else HopFrom(g, ReadAt(g, start, turns, i - 1), turns(i - 1)).spawn
  }

  function LoopHop(g: Settings, start: int, turns: nat -> Turn, i: nat): HopInput
    requires ValidSettings(g)
  {
    HopFrom(g, ReadAt(g, start, turns, i), turns(i))
  }

  /** The loop reads its clock when it starts and when each hop is over. */
  lemma LoopReads(g: Settings, start: int, turns: nat -> Turn, i: nat)
    requires ValidSettings(g)
    ensures ReadAt(g, start, turns, 0) == start
    ensures ReadAt(g, start, turns, i + 1) == LoopHop(g, start, turns, i).spawn
  {
  }

  function LoopHops(g: Settings, start: int, turns: nat -> Turn, n: nat): (hops: seq<HopInput>)
    requires ValidSettings(g)
    ensures |hops| == n && forall i :: 0 <= i < n ==> hops[i] == LoopHop(g, start, turns, i)
  {
    seq(n, i requires i >= 0 => LoopHop(g, start, turns, i))
  }

  lemma HopAllTurn(g: Settings, p: Ports, start: int, turns: nat -> Turn, n: nat)
    requires ValidSettings(g)
    ensures HopAll(g, p, LoopHops(g, start, turns, n + 1))
            == HopOnce(g, HopAll(g, p, LoopHops(g, start, turns, n)), LoopHop(g, start, turns, n))
  {
    assert LoopHops(g, start, turns, n + 1)[..n] == LoopHops(g, start, turns, n);
  }

  lemma NoTurns(g: Settings, p: Ports, start: int, turns: nat -> Turn)
    requires ValidSettings(g)
    ensures HopAll(g, p, LoopHops(g, start, turns, 0)) == p
  {
  }

  /** The loop, cancelled after n turns. */
  method ServerHoppingLoop(conn: HoppingConn, start: int, turns: nat -> Turn, n: nat)
    requires ValidSettings(conn.settings)
    modifies conn
    ensures conn.State() == HopAll(conn.settings, old(conn.State()), LoopHops(conn.settings, start, turns, n))
  {
    hide HopAll, HopOnce, NextHopDelay, LoopHops;
    var now := start;
    NoTurns(conn.settings, conn.State(), start, turns);
    for i := 0 to n
      invariant now == ReadAt(conn.settings, start, turns, i)
      invariant conn.State() == HopAll(conn.settings, old(conn.State()), LoopHops(conn.settings, start, turns, i))
    {
      var wait := NextHopDelay(now, conn.settings.slotMs);
      var woken := now + wait + turns(i).lag;
      var h := HopInput(woken, woken + turns(i).gap, turns(i).bindOk, woken + turns(i).gap + turns(i).rest);
      conn.Hop(h);
      HopAllTurn(conn.settings, old(conn.State()), start, turns, i);
      now := h.spawn;
    }
  }

  /** Timers fire and hops finish well inside a slot: every hop is over at most `late` after its slot starts. */
  ghost predicate Prompt(g: Settings, turns: nat -> Turn, late: nat) {
    late < g.slotMs * NS_PER_MS && forall i :: PromptTurn(turns(i), late)
  }

  predicate PromptTurn(turn: Turn, late: nat) {
    turn.gap <= NS_PER_MS && NS_PER_MS - 1 + turn.lag + turn.gap + turn.rest <= late
  }

  /** One turn: begun anywhere in a slot, it hops near the start of the next one and is over within it. */
  lemma TurnHopsInNextSlot(g: Settings, read: int, turn: Turn, late: nat)
    requires ValidSettings(g) && read >= 0 && PromptTurn(turn, late) && late < g.slotMs * NS_PER_MS
    ensures var h := HopFrom(g, read, turn); var k := SlotOf(read, g.slotMs) + 1;
      && Timely(g, h, k)
      && SlotStart(k, g.slotMs) <= h.t1 <= h.spawn <= SlotStart(k, g.slotMs) + late
      && h.spawn >= 0 && SlotOf(h.spawn, g.slotMs) == k
      && h.t1 == SlotStart(k, g.slotMs) + read % 1_000_000 + turn.lag
      && h.t2 - h.t1 == turn.gap && h.spawn - h.t2 == turn.rest && h.bindOk == turn.bindOk
  {
    var h := HopFrom(g, read, turn);
    var k := SlotOf(read, g.slotMs) + 1;
    HopLandsInNextSlot(read, g.slotMs);
    SlotQuotient(read, g.slotMs);
    SlotOrder(0, k, g.slotMs);
    SlotStep(k, g.slotMs);
    SlotBounds(h.t2, g.slotMs, k);
    SlotBounds(h.spawn, g.slotMs, k);
  }

  /** A prompt loop hops once in every slot: turn i in the i-th slot after the one it was started in. */
  lemma {:induction false} LoopHopsEverySlot(g: Settings, start: int, turns: nat -> Turn, late: nat, i: nat)
    requires ValidSettings(g) && start >= 0 && Prompt(g, turns, late)
    ensures var k := SlotOf(start, g.slotMs) + i + 1; var h := LoopHop(g, start, turns, i);
      && ReadAt(g, start, turns, i) >= 0 && SlotOf(ReadAt(g, start, turns, i), g.slotMs) == k - 1
      && Timely(g, h, k)
      && SlotStart(k, g.slotMs) <= h.t1 <= h.spawn <= SlotStart(k, g.slotMs) + late
  {
    if i > 0 {
      LoopHopsEverySlot(g, start, turns, late, i - 1);
      TurnHopsInNextSlot(g, ReadAt(g, start, turns, i - 1), turns(i - 1), late);
    }
    TurnHopsInNextSlot(g, ReadAt(g, start, turns, i), turns(i), late);
  }

  /**
   * Whatever sockets a prompt loop starts with: after every turn but the first, the server is in step with the
   * slot it is in when the last two binds succeeded; and if it started in step, exactly then.
   */
  lemma LoopStaysInStep(g: Settings, p: Ports, start: int, turns: nat -> Turn, late: nat, n: nat)
    requires g.slotMs >= 2 && g.prebind && start >= 0 && Prompt(g, turns, late) && n >= 2
    ensures var q := HopAll(g, p, LoopHops(g, start, turns, n)); var k := SlotOf(ReadAt(g, start, turns, n), g.slotMs);
      && (turns(n - 2).bindOk && turns(n - 1).bindOk ==> InStep(q, k))
      && (InStep(p, SlotOf(start, g.slotMs)) && InStep(q, k) ==> turns(n - 2).bindOk && turns(n - 1).bindOk)
  {
    var hops := LoopHops(g, start, turns, n);
    var k := SlotOf(start, g.slotMs);
    forall i | 0 <= i <= n ensures SlotOf(ReadAt(g, start, turns, i), g.slotMs) == k + i
                                   && Timely(g, LoopHop(g, start, turns, i), k + 1 + i) {
      LoopHopsEverySlot(g, start, turns, late, i);
    }
    if turns(n - 2).bindOk && turns(n - 1).bindOk {
      assert hops[..n - 1][..n - 2] == hops[..n - 2];
      SelfStabilises(g, HopAll(g, p, hops[..n - 2]), hops[n - 2], hops[n - 1], k + n - 1);
    }
    if InStep(p, k) {
      InStepExactly(g, p, k, hops);
    }
  }
}
