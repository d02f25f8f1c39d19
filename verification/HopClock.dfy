/** Wall-clock slots: which address a moment belongs to, and how long to wait for the next one. */
module HopClock {
  import Bytes

  const NS_PER_MS := 1_000_000

  /** Go's integer division and remainder, which truncate toward zero. */
  function GoDiv(a: int, b: int): int
    requires b > 0
  {
    if a >= 0 then a / b else -((-a) / b)
  }

  function GoMod(a: int, b: int): int
    requires b > 0
  {
    a - GoDiv(a, b) * b
  }

  /** Truncation: the remainder is smaller than the divisor and never has the other sign than the dividend. */
  lemma GoDivMeans(a: int, b: int)
    requires b > 0
    ensures a == GoDiv(a, b) * b + GoMod(a, b) && -b < GoMod(a, b) < b
    ensures if a >= 0 then GoMod(a, b) >= 0 else GoMod(a, b) <= 0
    ensures GoDiv(-a, b) == -GoDiv(a, b)
  {
    var n := if a >= 0 then a else -a;
    assert n == n / b * b + n % b;
    assert -(n / b) * b == -(n / b * b);
  }

  /** Milliseconds since the epoch, rounded down; moments are in nanoseconds. */
  function UnixMilli(t: int): int {
    t / NS_PER_MS
  }

  function SlotOf(t: int, slotMs: nat): int
    requires slotMs > 0
  {
    GoDiv(UnixMilli(t), slotMs)
  }

  /** Whole milliseconds since the slot of a moment began. */
  function IntoSlot(t: int, slotMs: nat): int
    requires slotMs > 0
  {
    GoMod(UnixMilli(t), slotMs)
  }

  /** The first moment of a slot. */
  function SlotStart(k: int, slotMs: nat): int {
    k * slotMs * NS_PER_MS
  }

  /** `GetNextHopDelay` read at `now`. */
  function NextHopDelay(now: int, slotMs: nat): int
    requires slotMs > 0
  {
    (slotMs - GoMod(UnixMilli(now), slotMs)) * NS_PER_MS
  }

  /** The moment whose address is prebound: two clock reads, t1 then t2. */
  function PrebindMoment(t1: int, t2: int, slotMs: nat): int
    requires slotMs > 0
  {
    t1 + (NextHopDelay(t2, slotMs) + 1 * NS_PER_MS)
  }

  lemma DivBounds(a: int, d: int, q: int)
    requires d > 0
    ensures q * d <= a < (q + 1) * d <==> a / d == q
  {
    var r, m := a / d, a % d;
    assert a == r * d + m;
    assert (q + 1) * d == q * d + d;
    if q * d <= a < q * d + d {
      Bytes.QuotientUnique(d, q, a - q * d, r, m);
    }
  }

  /** A slot is exactly the moments from its start up to the next start. */
  lemma SlotBounds(t: int, slotMs: nat, k: int)
    requires slotMs > 0 && t >= 0
    ensures SlotOf(t, slotMs) == k <==> SlotStart(k, slotMs) <= t < SlotStart(k + 1, slotMs)
  {
    SlotQuotient(t, slotMs);
    var m, low, high := UnixMilli(t), k * slotMs, (k + 1) * slotMs;
    DivBounds(m, slotMs, k);
    MilliBounds(t, low);
    MilliBounds(t, high);
  }

  /** Slots in numbers. */
  lemma SlotInNumbers(t: int, slotMs: nat)
    requires slotMs > 0 && t >= 0
    ensures SlotOf(t, slotMs) == t / 1_000_000 / slotMs
    ensures SlotStart(SlotOf(t, slotMs), slotMs) == t / 1_000_000 / slotMs * slotMs * 1_000_000
  {
    SlotQuotient(t, slotMs);
  }

  lemma SlotQuotient(t: int, slotMs: nat)
    requires slotMs > 0 && t >= 0
    ensures SlotOf(t, slotMs) == UnixMilli(t) / slotMs >= 0
  {
    DivBounds(UnixMilli(t), slotMs, -1);
  }

  lemma MilliBounds(t: int, m: int)
    ensures m <= UnixMilli(t) <==> m * NS_PER_MS <= t
  {
  }

  lemma SlotStep(k: int, slotMs: nat)
    ensures SlotStart(k + 1, slotMs) == SlotStart(k, slotMs) + slotMs * NS_PER_MS
  {
    assert (k + 1) * slotMs == k * slotMs + slotMs;
  }

  lemma SlotOrder(j: int, k: int, slotMs: nat)
    requires j <= k
    ensures SlotStart(k, slotMs) >= SlotStart(j, slotMs)
    ensures j == 0 ==> SlotStart(j, slotMs) == 0
  {
    TimesOrder(j, k, slotMs);
  }

  lemma TimesOrder(j: int, k: int, n: nat)
    requires j <= k
    ensures j * n <= k * n
  {
    assert (k - j) * n == k * n - j * n;
    assert (k - j) * n >= 0;
  }

  /** Waiting the returned delay lands in the next slot, as far after its start as the clock was after a millisecond. */
  lemma HopLandsInNextSlot(now: int, slotMs: nat)
    requires slotMs > 0 && now >= 0
    ensures var wake := now + NextHopDelay(now, slotMs); var k := SlotOf(now, slotMs) + 1;
      && SlotOf(wake, slotMs) == k
      && SlotStart(k, slotMs) <= wake < SlotStart(k, slotMs) + NS_PER_MS
      && wake == SlotStart(k, slotMs) + now % 1_000_000
  {
    var m := UnixMilli(now);
    var k := SlotOf(now, slotMs);
    var wake := now + NextHopDelay(now, slotMs);
    assert GoMod(m, slotMs) == m - k * slotMs;
    SlotStep(k, slotMs);
    SlotStep(k + 1, slotMs);
    SlotBounds(now, slotMs, k);
    assert wake == SlotStart(k + 1, slotMs) + (now - m * NS_PER_MS);
    SlotBounds(wake, slotMs, k + 1);
  }

  /**
   * The prebound address belongs to the slot after the second read exactly when the floored milliseconds
   * of the two reads are close enough; one millisecond apart always is, for slots of 2 ms or more.
   */
  lemma PrebindTargetsNextSlot(t1: int, t2: int, slotMs: nat)
    requires slotMs > 0 && t1 >= 0 && t2 >= 0
    ensures SlotOf(PrebindMoment(t1, t2, slotMs), slotMs) == SlotOf(t2, slotMs) + 1
            <==> 0 <= UnixMilli(t1) - UnixMilli(t2) + 1 < slotMs
    ensures SlotOf(PrebindMoment(t1, t2, slotMs), slotMs) == SlotOf(t2, slotMs)
            <==> 0 <= slotMs + (UnixMilli(t1) - UnixMilli(t2) + 1) < slotMs
  {
    var m1, m2 := UnixMilli(t1), UnixMilli(t2);
    var k := SlotOf(t2, slotMs);
    var p := PrebindMoment(t1, t2, slotMs);
    assert GoMod(m2, slotMs) == m2 - k * slotMs;
    assert UnixMilli(p) == m1 + (slotMs - (m2 - k * slotMs)) + 1 by {
      MilliShift(t1, slotMs - (m2 - k * slotMs) + 1);
    }
    DivBounds(m2, slotMs, k);
    assert (k + 1) * slotMs == k * slotMs + slotMs;
    assert (k + 2) * slotMs == k * slotMs + 2 * slotMs;
    assert UnixMilli(p) == (k + 1) * slotMs + (m1 - m2 + 1);
    DivBounds(UnixMilli(p), slotMs, k + 1);
    DivBounds(UnixMilli(p), slotMs, k);
  }

  lemma Position(t: int, slotMs: nat)
    requires slotMs > 0 && t >= 0
    ensures UnixMilli(t) == SlotOf(t, slotMs) * slotMs + IntoSlot(t, slotMs)
    ensures 0 <= IntoSlot(t, slotMs) < slotMs
  {
    SlotQuotient(t, slotMs);
    var m, k := UnixMilli(t), SlotOf(t, slotMs);
    DivBounds(m, slotMs, k);
    assert (k + 1) * slotMs == k * slotMs + slotMs;
  }

  /** Seen from the first read, the prebound slot depends only on how far the two reads are into their slots. */
  lemma PrebindByPosition(t1: int, t2: int, slotMs: nat)
    requires slotMs >= 2 && t1 >= 0 && t2 >= 0
    ensures var into1, into2 := IntoSlot(t1, slotMs), IntoSlot(t2, slotMs);
      SlotOf(PrebindMoment(t1, t2, slotMs), slotMs) == SlotOf(t1, slotMs)
        + (if into2 > into1 + 1 then 0 else if into1 == slotMs - 1 && into2 == 0 then 2 else 1)
  {
    var into1, into2 := IntoSlot(t1, slotMs), IntoSlot(t2, slotMs);
    var k := SlotOf(t1, slotMs);
    var p := PrebindMoment(t1, t2, slotMs);
    Position(t1, slotMs);
    Position(t2, slotMs);
    assert UnixMilli(p) == k * slotMs + (into1 + slotMs - into2 + 1) by {
      MilliShift(t1, slotMs - into2 + 1);
    }
    assert (k + 1) * slotMs == k * slotMs + slotMs;
    assert (k + 2) * slotMs == k * slotMs + 2 * slotMs;
    assert (k + 3) * slotMs == k * slotMs + 3 * slotMs;
    SlotQuotient(p, slotMs);
    DivBounds(UnixMilli(p), slotMs, k);
    DivBounds(UnixMilli(p), slotMs, k + 1);
    DivBounds(UnixMilli(p), slotMs, k + 2);
  }

  lemma MilliShift(t: int, m: int)
    ensures UnixMilli(t + m * NS_PER_MS) == UnixMilli(t) + m
  {
  }
}
